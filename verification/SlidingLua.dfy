/** The Redis sliding window: a sorted set, a sequence counter, and their expiry. */
module SlidingLua {
  import opened Prelude
  import S = SlidingLog

  /** A member of the sorted set: the admission time and the sequence number that were put into its name. */
  datatype Member = Member(stamp: real, seqno: int)

  /** What Redis holds for one throttle key: the sorted set and the `:__seq` counter, each with its deadline. */
  datatype Keys = Keys(zset: map<Member, real>, zDeadline: Option<real>, counter: int, cDeadline: Option<real>)

  const NO_KEYS := Keys(map[], None, 0, None)

  /**
   * `expires` switches EXPIRE on; without it no key ever has a deadline. `keep` says whether a key is still
   * there at its very deadline.
   */
  datatype Setting = Setting(limit: int, window: real, expires: bool, keep: bool)

  datatype Reply = Reply(allowed: bool, count: nat, ttl: real)

  predicate Gone(deadline: Option<real>, now: real, keep: bool) {
    deadline.Some? && (if keep then now > deadline.value else now >= deadline.value)
  }

  /** The keys as a command at `now` finds them. */
  function Found(x: Setting, k: Keys, now: real): Keys {
    var zGone, cGone := Gone(k.zDeadline, now, x.keep), Gone(k.cDeadline, now, x.keep);
    Keys(if zGone then map[] else k.zset, if zGone then None else k.zDeadline,
         if cGone then 0 else k.counter, if cGone then None else k.cDeadline)
  }

  /** ZREMRANGEBYSCORE key 0 cutoff. */
  function RemoveRange(zset: map<Member, real>, cutoff: real): map<Member, real> {
    map m | m in zset && !(0.0 <= zset[m] <= cutoff) :: zset[m]
  }

  /** A sorted set that has become empty is no key any more. */
  function Swept(x: Setting, k: Keys, now: real): Keys {
    var found := Found(x, k, now);
    var zset := RemoveRange(found.zset, now - x.window);
    found.(zset := zset, zDeadline := if zset == map[] then None else found.zDeadline)
  }

  /** The reply of TTL, in whole seconds to the nearest; a key without a deadline reads as the window. */
  function TimeToLive(x: Setting, k: Keys, now: real): real {
    if k.zset == map[] || k.zDeadline == None then x.window
    else MaxReal(0.0, (k.zDeadline.value - now + 0.5).Floor as real)
  }

  function Expire(x: Setting, deadline: Option<real>, now: real): Option<real> {
    if x.expires then Some(now + x.window) else deadline
  }

  /** The member that the script adds when it admits. */
  function Added(x: Setting, k: Keys, now: real): Member {
    Member(now, Swept(x, k, now).counter + 1)
  }

  /** The script's writes when it admits, on what the sweep has left. */
  function Admit(x: Setting, swept: Keys, m: Member): Keys {
    Keys(swept.zset[m := m.stamp], Expire(x, swept.zDeadline, m.stamp), swept.counter + 1,
         Expire(x, swept.cDeadline, m.stamp))
  }

  /** One run of the script. */
  function AfterEval(x: Setting, k: Keys, now: real): Keys {
    var swept := Swept(x, k, now);
    if |swept.zset| >= x.limit then swept else Admit(x, swept, Added(x, k, now))
  }

  function EvalReply(x: Setting, k: Keys, now: real): Reply {
    var swept := Swept(x, k, now);
    if |swept.zset| >= x.limit then Reply(false, |swept.zset|, TimeToLive(x, swept, now))
    else Reply(true, |swept.zset| + 1, x.window)
  }

  /** `reset` deletes the sorted set only; the counter lives on. */
  function AfterReset(k: Keys): Keys {
    k.(zset := map[], zDeadline := None)
  }

  /** The two Redis keys of one throttle key. */
  class SlidingWindow {
    const setting: Setting
    var zset: map<Member, real>
    var zDeadline: Option<real>
    var counter: int
    var cDeadline: Option<real>

    ghost function View(): Keys
      reads this
    {
      Keys(zset, zDeadline, counter, cDeadline)
    }

    constructor (setting: Setting)
      ensures this.setting == setting && View() == NO_KEYS
    {
      this.setting := setting;
      zset, zDeadline, counter, cDeadline := map[], None, 0, None;
    }

    method Eval(now: real) returns (reply: Reply)
      modifies this
      ensures View() == AfterEval(setting, old(View()), now)
      ensures reply == EvalReply(setting, old(View()), now)
    {
      hide RemoveRange, TimeToLive, Gone;
      if Gone(zDeadline, now, setting.keep) {
        zset, zDeadline := map[], None;
      }
      if Gone(cDeadline, now, setting.keep) {
        counter, cDeadline := 0, None;
      }
      var cutoff := now - setting.window;
      zset := RemoveRange(zset, cutoff);
      if zset == map[] {
        zDeadline := None;
      }
      var count := |zset|;
      if count >= setting.limit {
        return Reply(false, count, TimeToLive(setting, Keys(zset, zDeadline, counter, cDeadline), now));
      }
      counter := counter + 1;
      if setting.expires {
        cDeadline := Some(now + setting.window);
      }
      zset := zset[Member(now, counter) := now];
      if setting.expires {
        zDeadline := Some(now + setting.window);
      }
      reply := Reply(true, count + 1, setting.window);
    }

    method Reset()
      modifies this
      ensures View() == AfterReset(old(View()))
    {
      zset, zDeadline := map[], None;
    }
  }

  // ----- runs -----

  datatype State = State(keys: Keys, now: real, replies: seq<Reply>)

  function Next(x: Setting, s: State, e: S.Event): State {
    match e
    case Check(gap) =>
      State(AfterEval(x, s.keys, s.now + gap), s.now + gap, s.replies + [EvalReply(x, s.keys, s.now + gap)])
    case Reset => s.(keys := AfterReset(s.keys))
  }

  function Run(x: Setting, start: real, es: seq<S.Event>): State {
    if es == [] then State(NO_KEYS, start, []) else Next(x, Run(x, start, es[..|es| - 1]), es[|es| - 1])
  }

  /** The members added since the last reset, as the run added them. */
  function Members(x: Setting, start: real, es: seq<S.Event>): seq<Member> {
    if es == [] then []
    else
      var s, ms := Run(x, start, es[..|es| - 1]), Members(x, start, es[..|es| - 1]);
      match es[|es| - 1]
      case Check(gap) =>
        if EvalReply(x, s.keys, s.now + gap).allowed then ms + [Added(x, s.keys, s.now + gap)] else ms
      case Reset => []
  }

  function Stamps(ms: seq<Member>): seq<real> {
    seq(|ms|, i requires 0 <= i < |ms| => ms[i].stamp)
  }

  function LimitOf(x: Setting): S.Limit {
    S.Limit(x.limit, x.window, S.Dropped)
  }

  predicate ValidSetting(x: Setting) {
    x.limit >= 1 && x.window > 0.0
  }

  // ----- the members are all different -----

  /** The members that still count when everything up to `lo` has run out. */
  function Counting(ms: seq<Member>, lo: real): set<Member> {
    set m | m in ms && m.stamp > lo
  }

  /** Times never go back, and members of one time have growing sequence numbers. */
  predicate Before(a: Member, b: Member) {
    a.stamp < b.stamp || (a.stamp == b.stamp && a.seqno < b.seqno)
  }

  predicate Increasing(ms: seq<Member>) {
    forall i, j | 0 <= i < j < |ms| :: Before(ms[i], ms[j])
  }

  /** The sorted set at `now` holds what still counts of the members, and nothing that was not added. */
  predicate Holds(x: Setting, k: Keys, ms: seq<Member>, now: real) {
    && (forall m | m in k.zset :: m in ms && k.zset[m] == m.stamp)
    && (forall m | m in ms && m.stamp > now - x.window :: m in k.zset)
    && (k.zDeadline.Some? ==> forall m | m in k.zset :: m.stamp + x.window <= k.zDeadline.value)
  }

  /** While the last member still counts, the counter is not behind it and does not expire. */
  predicate CounterAhead(x: Setting, k: Keys, ms: seq<Member>, now: real) {
    ms != [] && ms[|ms| - 1].stamp + x.window > now ==>
      && ms[|ms| - 1].seqno <= k.counter
      && (k.cDeadline.Some? ==> ms[|ms| - 1].stamp + x.window <= k.cDeadline.value)
  }

  /** EXPIRE was last called for the last member. */
  predicate DeadlineOfLast(x: Setting, k: Keys, ms: seq<Member>) {
    x.expires && k.zset != map[] ==> ms != [] && k.zDeadline == Some(ms[|ms| - 1].stamp + x.window)
  }

  predicate Tracks(x: Setting, k: Keys, ms: seq<Member>, now: real) {
    && (!x.expires ==> k.zDeadline == None && k.cDeadline == None)
    && Increasing(ms)
    && (forall m | m in ms :: 0.0 <= m.stamp <= now)
    && Holds(x, k, ms, now)
    && DeadlineOfLast(x, k, ms)
    && CounterAhead(x, k, ms, now)
  }

  lemma SweptHoldsLive(x: Setting, k: Keys, ms: seq<Member>, before: real, now: real)
    requires x.window > 0.0 && before <= now && Tracks(x, k, ms, before)
    ensures Swept(x, k, now).zset.Keys == Counting(ms, now - x.window)
    ensures forall m | m in Swept(x, k, now).zset :: Swept(x, k, now).zset[m] == m.stamp
  {
  }

  lemma AddedIsLast(x: Setting, k: Keys, ms: seq<Member>, before: real, now: real)
    requires x.window > 0.0 && before <= now && Tracks(x, k, ms, before)
    ensures forall m | m in ms :: Before(m, Added(x, k, now))
  {
    if ms != [] {
      var last := ms[|ms| - 1];
      assert last in ms;
      forall m | m in ms ensures Before(m, Added(x, k, now)) {
        assert m == last || Before(m, last);
      }
    }
  }

  lemma DenialTracks(x: Setting, k: Keys, ms: seq<Member>, before: real, now: real)
    requires x.window > 0.0 && before <= now && Tracks(x, k, ms, before)
    ensures Tracks(x, Swept(x, k, now), ms, now)
  {
    SweptHoldsLive(x, k, ms, before, now);
  }

  lemma AppendIncreasing(ms: seq<Member>, m: Member)
    requires Increasing(ms) && forall n | n in ms :: Before(n, m)
    ensures Increasing(ms + [m])
  {
    assert forall i | 0 <= i < |ms| :: ms[i] in ms;
  }

  lemma AppendHolds(x: Setting, swept: Keys, ms: seq<Member>, m: Member)
    requires Holds(x, swept, ms, m.stamp)
    requires forall n | n in ms :: n.stamp <= m.stamp
    requires !x.expires ==> swept.zDeadline == None
    ensures Holds(x, Admit(x, swept, m), ms + [m], m.stamp)
  {
    assert forall n :: n in ms + [m] <==> n in ms || n == m;
  }

  lemma AdmissionTracks(x: Setting, swept: Keys, ms: seq<Member>, m: Member)
    requires x.window > 0.0 && m.stamp >= 0.0 && Tracks(x, swept, ms, m.stamp)
    requires m.seqno == swept.counter + 1 && forall n | n in ms :: Before(n, m)
    ensures Tracks(x, Admit(x, swept, m), ms + [m], m.stamp)
  {
    AppendIncreasing(ms, m);
    AppendHolds(x, swept, ms, m);
    hide Increasing, Holds;
  }

  lemma CheckTracks(x: Setting, k: Keys, ms: seq<Member>, before: real, now: real)
    requires x.window > 0.0 && 0.0 <= before <= now && Tracks(x, k, ms, before)
    ensures Tracks(x, AfterEval(x, k, now), if EvalReply(x, k, now).allowed then ms + [Added(x, k, now)] else ms, now)
  {
    hide Tracks, Swept, Before;
    DenialTracks(x, k, ms, before, now);
    if EvalReply(x, k, now).allowed {
      AddedIsLast(x, k, ms, before, now);
      AdmissionTracks(x, Swept(x, k, now), ms, Added(x, k, now));
    }
  }

  lemma TracksDeadlines(x: Setting, k: Keys, ms: seq<Member>, now: real)
    requires Tracks(x, k, ms, now)
    ensures !x.expires ==> k.cDeadline == None
  {
  }

  lemma EmptyTracks(x: Setting, k: Keys, now: real)
    requires !x.expires ==> k.cDeadline == None
    ensures Tracks(x, AfterReset(k), [], now)
    ensures Tracks(x, NO_KEYS, [], now)
  {
  }

  lemma {:induction false} RunTracks(x: Setting, start: real, es: seq<S.Event>)
    requires x.window > 0.0 && start >= 0.0
    ensures Run(x, start, es).now >= start
    ensures Tracks(x, Run(x, start, es).keys, Members(x, start, es), Run(x, start, es).now)
  {
    hide Tracks, AfterEval, EvalReply, Added, AfterReset;
    if es == [] {
      EmptyTracks(x, NO_KEYS, start);
    } else {
      var s := Run(x, start, es[..|es| - 1]);
      RunTracks(x, start, es[..|es| - 1]);
      match es[|es| - 1] {
        case Check(gap) => CheckTracks(x, s.keys, Members(x, start, es[..|es| - 1]), s.now, s.now + gap);
        case Reset =>
          TracksDeadlines(x, s.keys, Members(x, start, es[..|es| - 1]), s.now);
          EmptyTracks(x, s.keys, s.now);
      }
    }
  }

  /** ZADD always adds: the new name is not in the set, also when the counter has restarted or the set was reset. */
  lemma AddNeverCollides(x: Setting, start: real, es: seq<S.Event>, gap: Duration)
    requires x.window > 0.0 && start >= 0.0
    ensures var s := Run(x, start, es);
            Added(x, s.keys, s.now + gap) !in Swept(x, s.keys, s.now + gap).zset
  {
    hide Tracks, Swept, Added, Run, Members;
    var s, ms := Run(x, start, es), Members(x, start, es);
    var m := Added(x, s.keys, s.now + gap);
    RunTracks(x, start, es);
    SweptHoldsLive(x, s.keys, ms, s.now, s.now + gap);
    AddedIsLast(x, s.keys, ms, s.now, s.now + gap);
    assert !Before(m, m);
    assert m !in Swept(x, s.keys, s.now + gap).zset.Keys;
  }

  // ----- the set has the size of the live log -----

  lemma CountingAppend(ms: seq<Member>, m: Member, lo: real)
    requires m !in ms
    ensures |Counting(ms + [m], lo)| == |Counting(ms, lo)| + if m.stamp > lo then 1 else 0
  {
    assert Counting(ms + [m], lo) == if m.stamp > lo then Counting(ms, lo) + {m} else Counting(ms, lo) by {
      assert forall n :: n in ms + [m] <==> n in ms || n == m;
    }
  }

  lemma {:induction false} LiveMembersCounted(ms: seq<Member>, lo: real)
    requires Increasing(ms)
    ensures |Counting(ms, lo)| == |S.Live(Stamps(ms), lo, S.Dropped)|
  {
    hide S.Live, Counting;
    if ms == [] {
      S.EmptyLog(0.0, lo, S.Dropped);
      assert Stamps(ms) == [];
      NothingCounting(lo);
    } else {
      var init, last := ms[..|ms| - 1], ms[|ms| - 1];
      assert ms == init + [last];
      LiveMembersCounted(init, lo);
      CountingAppend(init, last, lo);
      assert Stamps(ms) == Stamps(init) + [last.stamp];
      S.LiveAppend(Stamps(init), last.stamp, lo, S.Dropped);
    }
  }

  lemma NothingCounting(lo: real)
    ensures Counting([], lo) == {}
  {
  }

  /** What the script replies, in terms of the check it stands for. */
  function ReplyTo(a: S.Answer): nat {
    if a.allowed then a.found + 1 else a.found
  }

  predicate SameAnswer(r: Reply, a: S.Answer) {
    r.allowed == a.allowed && r.count == ReplyTo(a)
  }

  lemma CheckRefines(x: Setting, k: Keys, ms: seq<Member>, before: real, now: real)
    requires x.window > 0.0 && before <= now && Tracks(x, k, ms, before)
    ensures SameAnswer(EvalReply(x, k, now), S.Ask(LimitOf(x), Stamps(ms), now))
  {
    hide S.Live, Tracks;
    SweptHoldsLive(x, k, ms, before, now);
    assert Increasing(ms) by {
      TracksIncreasing(x, k, ms, before);
    }
    LiveMembersCounted(ms, now - x.window);
    var zset := Swept(x, k, now).zset;
    assert |zset| == |zset.Keys|;
  }

  lemma TracksIncreasing(x: Setting, k: Keys, ms: seq<Member>, now: real)
    requires Tracks(x, k, ms, now)
    ensures Increasing(ms)
  {
  }

  /** On every run, with expiry or without, the script answers as counting the whole log would. */
  lemma {:induction false} SetRefinesLog(x: Setting, start: real, es: seq<S.Event>)
    requires x.window > 0.0 && start >= 0.0
    ensures var s, log := Run(x, start, es), S.Run(LimitOf(x), start, es);
            && s.now == log.now
            && log.log == Stamps(Members(x, start, es))
            && |s.replies| == |log.answers|
            && forall i | 0 <= i < |s.replies| :: SameAnswer(s.replies[i], log.answers[i])
  {
    hide S.Live, Tracks, AfterEval, EvalReply;
    if es != [] {
      var s, ms := Run(x, start, es[..|es| - 1]), Members(x, start, es[..|es| - 1]);
      SetRefinesLog(x, start, es[..|es| - 1]);
      RunTracks(x, start, es[..|es| - 1]);
      if es[|es| - 1].Check? {
        var now := s.now + es[|es| - 1].gap;
        CheckRefines(x, s.keys, ms, s.now, now);
        assert Stamps(ms + [Added(x, s.keys, now)]) == Stamps(ms) + [now];
      }
    }
  }

  /** The next reply is what counting the whole log would tell. */
  lemma ReplyIsAnswer(x: Setting, start: real, es: seq<S.Event>, gap: Duration)
    requires x.window > 0.0 && start >= 0.0
    ensures var s := Run(x, start, es);
            SameAnswer(EvalReply(x, s.keys, s.now + gap), S.Ask(LimitOf(x), S.Run(LimitOf(x), start, es).log, s.now + gap))
  {
    hide S.Live, Tracks, S.Run, Members, Run, EvalReply;
    var s := Run(x, start, es);
    RunTracks(x, start, es);
    SetRefinesLog(x, start, es);
    CheckRefines(x, s.keys, Members(x, start, es), s.now, s.now + gap);
  }

  /** No window (t - w, t] of any run holds more than `limit` admissions since the last reset. */
  lemma WindowHoldsAtMostLimit(x: Setting, start: real, es: seq<S.Event>, t: real)
    requires ValidSetting(x) && start >= 0.0
    ensures S.CountSpan(Stamps(Members(x, start, es)), t - x.window, t, S.Dropped) <= x.limit
  {
    hide S.CountSpan, S.Run, Members, Run;
    SetRefinesLog(x, start, es);
    S.WindowHoldsAtMostCount(LimitOf(x), start, es, t - x.window);
    assert t - x.window + x.window == t;
  }

  /** Expiry of either key changes no answer and no count of any run. */
  lemma ExpiryIsInvisible(x: Setting, start: real, es: seq<S.Event>)
    requires x.window > 0.0 && start >= 0.0
    ensures var with, without := Run(x, start, es).replies, Run(x.(expires := false), start, es).replies;
            && |with| == |without|
            && forall i | 0 <= i < |with| ::
                 with[i].allowed == without[i].allowed && with[i].count == without[i].count
  {
    hide S.Run, Members, Run;
    SetRefinesLog(x, start, es);
    SetRefinesLog(x.(expires := false), start, es);
    assert LimitOf(x) == LimitOf(x.(expires := false));
    var with, without := Run(x, start, es).replies, Run(x.(expires := false), start, es).replies;
    var answers := S.Run(LimitOf(x), start, es).answers;
    forall i | 0 <= i < |with| ensures with[i].allowed == without[i].allowed && with[i].count == without[i].count {
      assert SameAnswer(with[i], answers[i]) && SameAnswer(without[i], answers[i]);
    }
  }

  // ----- what a denial says about waiting -----

  /** What holds of a denial at `now` when `live` are the admissions it counted, and of a check `wait` later. */
  predicate WaitsForNewest(x: Setting, k: Keys, live: seq<real>, now: real, wait: Duration) {
    && live != [] && |live| == x.limit
    && (EvalReply(x, AfterEval(x, k, now), now + wait).allowed <==> now + wait >= live[0] + x.window)
    && EvalReply(x, k, now).ttl == MaxReal(0.0, (live[|live| - 1] + x.window - now + 0.5).Floor as real)
  }

  /**
   * After a denial the next check is admitted exactly from the moment the oldest counted admission is one
   * window old; but the time to live in the reply runs until the newest one is, to the nearest second.
   */
  lemma DenialWaitsForNewest(x: Setting, start: real, es: seq<S.Event>, gap: Duration, wait: Duration)
    requires ValidSetting(x) && x.expires && start >= 0.0
    requires var s := Run(x, start, es); !EvalReply(x, s.keys, s.now + gap).allowed
    ensures var s := Run(x, start, es);
            var live := S.Live(Stamps(Members(x, start, es)), s.now + gap - x.window, S.Dropped);
            WaitsForNewest(x, s.keys, live, s.now + gap, wait)
  {
    hide S.Live, S.Ordered, S.Run, Members, Run, Tracks, Swept;
    var s, ms := Run(x, start, es), Members(x, start, es);
    var now := s.now + gap;
    var live := S.Live(Stamps(ms), now - x.window, S.Dropped);
    RunTracks(x, start, es);
    CheckRefines(x, s.keys, ms, s.now, now);
    DenialTracks(x, s.keys, ms, s.now, now);
    CheckRefines(x, Swept(x, s.keys, now), ms, now, now + wait);
    SetRefinesLog(x, start, es);
    S.FindsAtMostCount(LimitOf(x), start, es, now);
    S.RunOrdered(LimitOf(x), start, es);
    S.LiveLive(Stamps(ms), now - x.window, now + wait - x.window, S.Dropped);
    S.LiveOrdered(Stamps(ms), s.now, now - x.window, S.Dropped);
    S.HeadDecides(live, s.now, now + wait - x.window, S.Dropped);
    DeadlineIsOfNewest(x, s.keys, ms, s.now, now);
  }

  lemma LastCounts(x: Setting, k: Keys, ms: seq<Member>, now: real)
    requires Tracks(x, k, ms, now) && x.expires && k.zset != map[]
    requires k.zset.Keys == Counting(ms, now - x.window)
    ensures ms != [] && ms[|ms| - 1].stamp > now - x.window
    ensures k.zDeadline == Some(ms[|ms| - 1].stamp + x.window)
  {
    var m :| m in k.zset.Keys;
    assert m == ms[|ms| - 1] || Before(m, ms[|ms| - 1]);
  }

  lemma LastIsLive(ms: seq<Member>, lo: real)
    requires ms != [] && ms[|ms| - 1].stamp > lo
    ensures var live := S.Live(Stamps(ms), lo, S.Dropped); live != [] && live[|live| - 1] == ms[|ms| - 1].stamp
  {
    hide S.Live;
    var init, last := ms[..|ms| - 1], ms[|ms| - 1];
    assert Stamps(ms) == Stamps(init) + [last.stamp];
    S.LiveAppend(Stamps(init), last.stamp, lo, S.Dropped);
  }

  lemma DeadlineIsOfNewest(x: Setting, k: Keys, ms: seq<Member>, before: real, now: real)
    requires ValidSetting(x) && x.expires && before <= now && Tracks(x, k, ms, before)
    requires Swept(x, k, now).zset != map[]
    ensures var live := S.Live(Stamps(ms), now - x.window, S.Dropped);
            live != [] && Swept(x, k, now).zDeadline == Some(live[|live| - 1] + x.window)
  {
    hide Swept, Tracks, S.Live, Counting;
    DenialTracks(x, k, ms, before, now);
    SweptHoldsLive(x, k, ms, before, now);
    LastCounts(x, Swept(x, k, now), ms, now);
    LastIsLive(ms, now - x.window);
  }

  /** A reset empties the set and no more: the numbering goes on while the counter lives. */
  lemma ResetKeepsNumbering(x: Setting, k: Keys, now: real)
    ensures Swept(x, AfterReset(k), now).zset == map[]
    ensures Added(x, AfterReset(k), now).seqno == Added(x, k, now).seqno
    ensures !Gone(k.cDeadline, now, x.keep) ==> Added(x, AfterReset(k), now).seqno == k.counter + 1
  {
  }

  lemma DenialTtl(x: Setting, start: real, es: seq<S.Event>, gap: Duration, seconds: int)
    requires ValidSetting(x) && x.expires && start >= 0.0 && x.window == seconds as real
    requires var s := Run(x, start, es); !EvalReply(x, s.keys, s.now + gap).allowed
    ensures var s := Run(x, start, es);
            var ttl := EvalReply(x, s.keys, s.now + gap).ttl;
            0.0 <= ttl <= x.window && ttl == Trunc(ttl) as real
  {
    hide Run, S.Run, S.Live, S.Ordered, Members, EvalReply, AfterEval;
    var stamps, now := Stamps(Members(x, start, es)), Run(x, start, es).now + gap;
    var live := S.Live(stamps, now - x.window, S.Dropped);
    DenialWaitsForNewest(x, start, es, gap, 0.0);
    SetRefinesLog(x, start, es);
    S.RunOrdered(LimitOf(x), start, es);
    S.LiveOrdered(stamps, Run(x, start, es).now, now - x.window, S.Dropped);
    S.HeadDecides(live, Run(x, start, es).now, now - x.window, S.Dropped);
    assert (live[|live| - 1] + x.window - now + 0.5).Floor <= seconds;
  }

  /** Replies of a script with a window of whole seconds: the counts stay within the limit, and TTL within the window. */
  lemma ReplyWithin(x: Setting, start: real, es: seq<S.Event>, gap: Duration, seconds: int)
    requires ValidSetting(x) && x.expires && start >= 0.0 && x.window == seconds as real
    ensures var s := Run(x, start, es);
            var r := EvalReply(x, s.keys, s.now + gap);
            && s.now >= start && 0.0 <= r.ttl <= x.window && r.ttl == Trunc(r.ttl) as real
            && (if r.allowed then 1 <= r.count <= x.limit && r.ttl == x.window else r.count == x.limit)
  {
    hide Run, S.Run, Members, Swept, Tracks, S.Live;
    RunTracks(x, start, es);
    ReplyIsAnswer(x, start, es, gap);
    SetRefinesLog(x, start, es);
    S.FindsAtMostCount(LimitOf(x), start, es, Run(x, start, es).now + gap);
    if !EvalReply(x, Run(x, start, es).keys, Run(x, start, es).now + gap).allowed {
      DenialTtl(x, start, es, gap, seconds);
    }
  }

  /** Both keys live for one window after an admission; then the numbering starts again. */
  lemma KeysLive(x: Setting, k: Keys, now: real, later: real)
    requires x.window > 0.0 && x.expires && now <= later && EvalReply(x, k, now).allowed
    ensures var found := Found(x, AfterEval(x, k, now), later);
            if later < now + x.window || (x.keep && later == now + x.window)
            then found == AfterEval(x, k, now) && found.counter == Added(x, k, now).seqno && Added(x, k, now) in found.zset
            else found == NO_KEYS
  {
    hide Swept;
  }
}
