/** The redactors: a walk over a nested payload, whose recursive calls go through the subclass. */
module Redactor {
  import opened Prelude

  const REDACTED := "[REDACTED]"

  /** A payload: a dict keeps its insertion order, and `Scalar` stands for every other value. */
  datatype Json = Dict(entries: seq<Entry>) | List(items: seq<Json>) | Tuple(items: seq<Json>) | Str(text: string) | Scalar(token: nat)

  datatype Entry = Entry(key: string, value: Json)

  /** A text as a pattern cuts it: what lies between the matches, and the matches. */
  datatype Piece = Between(text: string) | Match(text: string)

  datatype Rule = Rule(cut: string -> seq<Piece>, validator: Option<string -> bool>)

  /** `lower` stands for `str.lower`, whatever it makes of a text. */
  datatype Redactor =
    | Default(fields: seq<string>, lower: string -> string)
    | Regex(fields: seq<string>, lower: string -> string, rules: seq<Rule>)

  /** The keys of a dict are distinct. */
  predicate DistinctKeys(entries: seq<Entry>) {
    forall i, j :: 0 <= i < j < |entries| ==> entries[i].key != entries[j].key
  }

  predicate WellFormed(v: Json) {
    match v
    case Dict(entries) => DistinctKeys(entries) && forall i :: 0 <= i < |entries| ==> WellFormed(entries[i].value)
    case List(items) => forall i :: 0 <= i < |items| ==> WellFormed(items[i])
    case Tuple(items) => forall i :: 0 <= i < |items| ==> WellFormed(items[i])
    case _ => true
  }

  // ----- matching keys, scrubbing text -----

  predicate Contains(s: string, fragment: string) {
    fragment <= s || (|s| > 0 && Contains(s[1..], fragment))
  }

  /** The lower-case key contains one of the lower-case field names. */
  predicate IsRedactedKey(r: Redactor, key: string) {
    exists k :: 0 <= k < |r.fields| && Contains(r.lower(key), r.lower(r.fields[k]))
  }

  predicate OccursAt(text: string, fragment: string, i: nat) {
    i + |fragment| <= |text| && forall j :: 0 <= j < |fragment| ==> text[i + j] == fragment[j]
  }

  lemma OccursLater(text: string, fragment: string, i: nat)
    requires |text| > 0
    ensures OccursAt(text[1..], fragment, i) <==> OccursAt(text, fragment, i + 1)
  {
    if OccursAt(text, fragment, i + 1) {
      forall j | 0 <= j < |fragment| ensures text[1..][i + j] == fragment[j] {
        assert text[1..][i + j] == text[i + 1 + j];
      }
    }
    if OccursAt(text[1..], fragment, i) {
      forall j | 0 <= j < |fragment| ensures text[i + 1 + j] == fragment[j] {
        assert text[1..][i + j] == text[i + 1 + j];
      }
    }
  }

  lemma {:induction false} ContainsSomewhere(text: string, fragment: string)
    ensures Contains(text, fragment) <==> exists i: nat :: OccursAt(text, fragment, i)
  {
    assert fragment <= text <==> OccursAt(text, fragment, 0);
    if |text| > 0 {
      ContainsSomewhere(text[1..], fragment);
      forall i: nat ensures OccursAt(text[1..], fragment, i) <==> OccursAt(text, fragment, i + 1) {
        OccursLater(text, fragment, i);
      }
      forall i: nat | OccursAt(text, fragment, i) && i > 0 ensures OccursAt(text[1..], fragment, i - 1) {
      }
    }
  }

  /** A key matches exactly when, in lower case, one of the names stands somewhere in it. */
  lemma KeyMatchesExactly(r: Redactor, key: string)
    ensures IsRedactedKey(r, key)
            <==> exists k: nat, i: nat :: k < |r.fields| && OccursAt(r.lower(key), r.lower(r.fields[k]), i)
  {
    hide Contains, OccursAt;
    forall k | 0 <= k < |r.fields|
      ensures Contains(r.lower(key), r.lower(r.fields[k]))
              <==> exists i: nat :: OccursAt(r.lower(key), r.lower(r.fields[k]), i)
    {
      ContainsSomewhere(r.lower(key), r.lower(r.fields[k]));
    }
  }

  function Joined(pieces: seq<Piece>): string {
    if |pieces| == 0 then "" else Joined(pieces[..|pieces| - 1]) + pieces[|pieces| - 1].text
  }

  predicate Confirmed(rule: Rule, match_: string) {
    rule.validator.None? || rule.validator.value(match_)
  }

  /** `pattern.sub`: the matches that the validator confirms are masked. */
  function Masked(rule: Rule, pieces: seq<Piece>): string {
    if |pieces| == 0 then ""
    else
      var last := pieces[|pieces| - 1];
      Masked(rule, pieces[..|pieces| - 1]) + if last.Match? && Confirmed(rule, last.text) then REDACTED else last.text
  }

  function Scrub(rules: seq<Rule>, text: string): string {
    if |rules| == 0 then text
    else
      var rule := rules[|rules| - 1];
      Masked(rule, rule.cut(Scrub(rules[..|rules| - 1], text)))
  }

  /** What becomes of a string leaf. */
  function Leaf(r: Redactor, text: string): string {
    if r.Regex? then Scrub(r.rules, text) else text
  }

  method ScrubText(rules: seq<Rule>, text: string) returns (scrubbed: string)
    ensures scrubbed == Scrub(rules, text)
  {
    scrubbed := text;
    for i := 0 to |rules|
      invariant scrubbed == Scrub(rules[..i], text)
    {
      assert rules[..i + 1][..i] == rules[..i];
      scrubbed := Masked(rules[i], rules[i].cut(scrubbed));
    }
    assert rules[..|rules|] == rules;
  }

  /** A rule leaves a text alone whose matches its validator turns down, such as digits that fail the Luhn check. */
  lemma {:induction false} UnconfirmedStays(rule: Rule, pieces: seq<Piece>)
    requires forall i :: 0 <= i < |pieces| && pieces[i].Match? ==> !Confirmed(rule, pieces[i].text)
    ensures Masked(rule, pieces) == Joined(pieces)
  {
    if |pieces| > 0 {
      UnconfirmedStays(rule, pieces[..|pieces| - 1]);
    }
  }

  lemma {:induction false} MaskedConcat(rule: Rule, a: seq<Piece>, b: seq<Piece>)
    ensures Masked(rule, a + b) == Masked(rule, a) + Masked(rule, b)
  {
    if |b| == 0 {
      assert a + b == a;
    } else {
      assert (a + b)[..|a + b| - 1] == a + b[..|b| - 1];
      MaskedConcat(rule, a, b[..|b| - 1]);
    }
  }

  /** Just the matches that the validator confirms, or all if there is none, give way; what is around them stays. */
  lemma PieceMasked(rule: Rule, a: seq<Piece>, piece: Piece, b: seq<Piece>)
    ensures var masked := piece.Match? && (rule.validator.Some? ==> rule.validator.value(piece.text));
            Masked(rule, a + [piece] + b)
            == Masked(rule, a) + (if masked then "[REDACTED]" else piece.text) + Masked(rule, b)
    ensures Masked(rule, []) == ""
  {
    MaskedConcat(rule, a + [piece], b);
    assert (a + [piece])[..|a|] == a;
  }

  /** Each rule works on what the rules before it have left. */
  lemma {:induction false} ScrubConcat(before: seq<Rule>, after: seq<Rule>, text: string)
    ensures Scrub(before + after, text) == Scrub(after, Scrub(before, text))
    ensures Scrub([], text) == text
  {
    if |after| == 0 {
      assert before + after == before;
    } else {
      assert (before + after)[..|before + after| - 1] == before + after[..|after| - 1];
      ScrubConcat(before, after[..|after| - 1], text);
    }
  }

  /** A confirmed match in what the rules before leave is masked, and the rules after see the mask in its place. */
  lemma ScrubHidesMatch(before: seq<Rule>, rule: Rule, after: seq<Rule>, text: string,
                        a: seq<Piece>, matched: string, b: seq<Piece>)
    requires rule.cut(Scrub(before, text)) == a + [Match(matched)] + b
    requires rule.validator.Some? ==> rule.validator.value(matched)
    ensures Scrub(before + [rule] + after, text)
            == Scrub(after, Masked(rule, a) + "[REDACTED]" + Masked(rule, b))
  {
    hide Masked;
    ScrubConcat(before + [rule], after, text);
    ScrubConcat(before, [rule], text);
    assert [rule][..0] == [];
    PieceMasked(rule, a, Match(matched), b);
  }

  // ----- the walk -----

  function Walk(r: Redactor, v: Json): Json {
    match v
    case Dict(entries) => Dict(seq(|entries|, i requires 0 <= i < |entries| => Entry(entries[i].key,
        if IsRedactedKey(r, entries[i].key) then Str(REDACTED) else Walk(r, entries[i].value))))
    case List(items) => List(seq(|items|, i requires 0 <= i < |items| => Walk(r, items[i])))
    case Tuple(items) => Tuple(seq(|items|, i requires 0 <= i < |items| => Walk(r, items[i])))
    case Str(text) => Str(Leaf(r, text))
    case Scalar(_) => v
  }

  /** `out[key] = value` on a dict. */
  function Put(out: seq<Entry>, key: string, value: Json): seq<Entry> {
    if |out| == 0 then [Entry(key, value)]
    else if out[0].key == key then [Entry(key, value)] + out[1..]
    else [out[0]] + Put(out[1..], key, value)
  }

  lemma {:induction false} PutNew(out: seq<Entry>, key: string, value: Json)
    requires forall i :: 0 <= i < |out| ==> out[i].key != key
    ensures Put(out, key, value) == out + [Entry(key, value)]
  {
    if |out| > 0 {
      PutNew(out[1..], key, value);
    }
  }

  /** `_walk` of the class of `r`: the subclass scrubs what the base class returns as a string. */
  method WalkValue(r: Redactor, v: Json) returns (w: Json)
    requires WellFormed(v)
    ensures w == Walk(r, v)
    decreases v, 2
  {
    w := BaseWalk(r, v);
    if r.Regex? && w.Str? {
      var scrubbed := ScrubText(r.rules, w.text);
      w := Str(scrubbed);
    }
  }

  /** `DefaultRedactor._walk`, which calls back into the class of `r` for every child. */
  method BaseWalk(r: Redactor, v: Json) returns (w: Json)
    requires WellFormed(v)
    ensures w == if v.Str? then v else Walk(r, v)
    decreases v, 1
  {
    match v {
      case Dict(_) => w := WalkDict(r, v);
      case List(items) =>
        var walked := WalkItems(r, v);
        w := List(walked);
      case Tuple(items) =>
        var walked := WalkItems(r, v);
        w := Tuple(walked);
      case _ => w := v;
    }
  }

  method WalkItems(r: Redactor, v: Json) returns (walked: seq<Json>)
    requires (v.List? || v.Tuple?) && WellFormed(v)
    ensures |walked| == |v.items| && forall i :: 0 <= i < |walked| ==> walked[i] == Walk(r, v.items[i])
    decreases v, 0
  {
    walked := [];
    for i := 0 to |v.items|
      invariant |walked| == i && forall j :: 0 <= j < i ==> walked[j] == Walk(r, v.items[j])
    {
      var item := WalkValue(r, v.items[i]);
      walked := walked + [item];
    }
  }

  method WalkDict(r: Redactor, v: Json) returns (w: Json)
    requires v.Dict? && WellFormed(v)
    ensures w == Walk(r, v)
    decreases v, 0
  {
    var out: seq<Entry> := [];
    ghost var walked := Walk(r, v).entries;
    for i := 0 to |v.entries|
      invariant out == walked[..i]
    {
      var entry := v.entries[i];
      PutNew(out, entry.key, walked[i].value);
      if IsRedactedKey(r, entry.key) {
        out := Put(out, entry.key, Str(REDACTED));
      } else {
        var value := WalkValue(r, entry.value);
        out := Put(out, entry.key, value);
      }
    }
    w := Dict(out);
  }

  // ----- every place of a payload -----

  datatype Step = Key(i: nat) | Item(i: nat)

  /** The child that a step leads to. */
  function Child(v: Json, step: Step): Option<Json> {
    match (v, step)
    case (Dict(entries), Key(i)) => if i < |entries| then Some(entries[i].value) else None
    case (List(items), Item(i)) => if i < |items| then Some(items[i]) else None
    case (Tuple(items), Item(i)) => if i < |items| then Some(items[i]) else None
    case _ => None
  }

  /** The value at the end of a path, at any depth. */
  function At(v: Json, path: seq<Step>): Option<Json> {
    if |path| == 0 then Some(v)
    else if Child(v, path[0]).None? then None
    else At(Child(v, path[0]).value, path[1..])
  }

  predicate StepsOnRedactedKey(r: Redactor, v: Json, step: Step) {
    v.Dict? && step.Key? && step.i < |v.entries| && IsRedactedKey(r, v.entries[step.i].key)
  }

  /** Some step of the path is under a matching key. */
  predicate Covered(r: Redactor, v: Json, path: seq<Step>) {
    |path| > 0
    && (StepsOnRedactedKey(r, v, path[0])
        || (Child(v, path[0]).Some? && Covered(r, Child(v, path[0]).value, path[1..])))
  }

  /** The same kind of value with the same keys in the same order, or the same length. */
  predicate SameShape(x: Json, y: Json) {
    match x
    case Dict(entries) =>
      y.Dict? && |y.entries| == |entries| && forall i :: 0 <= i < |entries| ==> y.entries[i].key == entries[i].key
    case List(items) => y.List? && |y.items| == |items|
    case Tuple(items) => y.Tuple? && |y.items| == |items|
    case Str(_) => y.Str?
    case Scalar(_) => y == x
  }

  lemma ChildOfWalk(r: Redactor, v: Json, step: Step)
    ensures Child(v, step).None? ==> Child(Walk(r, v), step).None?
    ensures Child(v, step).Some? ==>
              Child(Walk(r, v), step)
              == Some(if StepsOnRedactedKey(r, v, step) then Str(REDACTED) else Walk(r, Child(v, step).value))
  {
  }

  lemma {:induction false} WalkAt(r: Redactor, v: Json, path: seq<Step>)
    requires !Covered(r, v, path)
    ensures At(Walk(r, v), path) == match At(v, path) case Some(x) => Some(Walk(r, x)) case None => None
    decreases |path|
  {
    hide Walk, IsRedactedKey;
    if |path| > 0 {
      ChildOfWalk(r, v, path[0]);
      if Child(v, path[0]).Some? {
        WalkAt(r, Child(v, path[0]).value, path[1..]);
      }
    }
  }

  /** A place under no matching key keeps its shape; a string there is scrubbed by the subclass, and stays otherwise. */
  lemma {:induction false} UncoveredPlace(r: Redactor, v: Json, path: seq<Step>)
    requires !Covered(r, v, path)
    ensures At(v, path).Some? <==> At(Walk(r, v), path).Some?
    ensures At(v, path).Some? ==>
              var x, y := At(v, path).value, At(Walk(r, v), path).value;
              SameShape(x, y) && (x.Str? ==> y.text == if r.Regex? then Scrub(r.rules, x.text) else x.text)
  {
    WalkAt(r, v, path);
  }

  /** The value of a matching key at any depth is REDACTED, and nothing of it is left. */
  lemma {:induction false} CoveredPlace(r: Redactor, v: Json, path: seq<Step>)
    requires Covered(r, v, path)
    ensures At(Walk(r, v), path) == if Covered(r, v, path[..|path| - 1]) then None else Some(Str(REDACTED))
    decreases |path|
  {
    hide Walk, IsRedactedKey;
    ChildOfWalk(r, v, path[0]);
    if !StepsOnRedactedKey(r, v, path[0]) {
      CoveredPlace(r, Child(v, path[0]).value, path[1..]);
      assert path[1..][..|path[1..]| - 1] == path[..|path| - 1][1..];
    }
  }

  // ----- payloads without a secret -----

  /** Every matching key at every depth holds REDACTED. */
  predicate Clean(r: Redactor, v: Json) {
    match v
    case Dict(entries) =>
      forall i :: 0 <= i < |entries| ==>
        if IsRedactedKey(r, entries[i].key) then entries[i].value == Str(REDACTED) else Clean(r, entries[i].value)
    case List(items) => forall i :: 0 <= i < |items| ==> Clean(r, items[i])
    case Tuple(items) => forall i :: 0 <= i < |items| ==> Clean(r, items[i])
    case _ => true
  }

  lemma {:induction false} WalkIsClean(r: Redactor, v: Json)
    ensures Clean(r, Walk(r, v))
  {
    hide IsRedactedKey;
    match v {
      case Dict(entries) =>
        forall i | 0 <= i < |entries| ensures Clean(r, Walk(r, entries[i].value)) {
          WalkIsClean(r, entries[i].value);
        }
      case List(items) =>
        forall i | 0 <= i < |items| ensures Clean(r, Walk(r, items[i])) { WalkIsClean(r, items[i]); }
      case Tuple(items) =>
        forall i | 0 <= i < |items| ensures Clean(r, Walk(r, items[i])) { WalkIsClean(r, items[i]); }
      case _ =>
    }
  }

  /** The default class changes a payload exactly when a matching key holds something else than REDACTED. */
  lemma {:induction false} UnchangedExactlyWhenClean(r: Redactor, v: Json)
    requires r.Default?
    ensures Walk(r, v) == v <==> Clean(r, v)
  {
    hide IsRedactedKey;
    match v {
      case Dict(entries) =>
        forall i | 0 <= i < |entries|
          ensures Walk(r, entries[i].value) == entries[i].value <==> Clean(r, entries[i].value)
        {
          UnchangedExactlyWhenClean(r, entries[i].value);
        }
        DictUnchanged(r, entries);
      case List(items) =>
        forall i | 0 <= i < |items| ensures Walk(r, items[i]) == items[i] <==> Clean(r, items[i]) {
          UnchangedExactlyWhenClean(r, items[i]);
        }
        ItemsUnchanged(r, items);
      case Tuple(items) =>
        forall i | 0 <= i < |items| ensures Walk(r, items[i]) == items[i] <==> Clean(r, items[i]) {
          UnchangedExactlyWhenClean(r, items[i]);
        }
        ItemsUnchanged(r, items);
      case _ =>
    }
  }

  lemma DictUnchanged(r: Redactor, entries: seq<Entry>)
    ensures Walk(r, Dict(entries)) == Dict(entries)
            <==> forall i :: 0 <= i < |entries| ==>
                   entries[i].value
                   == if IsRedactedKey(r, entries[i].key) then Str(REDACTED) else Walk(r, entries[i].value)
  {
    hide IsRedactedKey;
    var walked := Walk(r, Dict(entries)).entries;
    assert walked == entries <==> forall i :: 0 <= i < |entries| ==> walked[i] == entries[i];
    assert forall i :: 0 <= i < |entries| ==> (walked[i] == entries[i] <==> walked[i].value == entries[i].value);
  }

  lemma ItemsUnchanged(r: Redactor, items: seq<Json>)
    ensures (Walk(r, List(items)) == List(items)) == (forall i :: 0 <= i < |items| ==> Walk(r, items[i]) == items[i])
    ensures (Walk(r, Tuple(items)) == Tuple(items)) == (forall i :: 0 <= i < |items| ==> Walk(r, items[i]) == items[i])
  {
    var list, tuple := Walk(r, List(items)).items, Walk(r, Tuple(items)).items;
    assert list == items <==> forall i :: 0 <= i < |items| ==> list[i] == items[i];
    assert tuple == items <==> forall i :: 0 <= i < |items| ==> tuple[i] == items[i];
  }

  /** Redacting twice is redacting once. */
  lemma {:induction false} DefaultIsIdempotent(r: Redactor, v: Json)
    requires r.Default?
    ensures Walk(r, Walk(r, v)) == Walk(r, v)
  {
    WalkIsClean(r, v);
    UnchangedExactlyWhenClean(r, Walk(r, v));
  }

  /** A redacted payload is a payload again. */
  lemma {:induction false} WalkKeepsWellFormed(r: Redactor, v: Json)
    requires WellFormed(v)
    ensures WellFormed(Walk(r, v))
  {
    hide IsRedactedKey;
    match v {
      case Dict(entries) =>
        forall i | 0 <= i < |entries| ensures WellFormed(Walk(r, entries[i].value)) {
          WalkKeepsWellFormed(r, entries[i].value);
        }
      case List(items) =>
        forall i | 0 <= i < |items| ensures WellFormed(Walk(r, items[i])) { WalkKeepsWellFormed(r, items[i]); }
      case Tuple(items) =>
        forall i | 0 <= i < |items| ensures WellFormed(Walk(r, items[i])) { WalkKeepsWellFormed(r, items[i]); }
      case _ =>
    }
  }
}
