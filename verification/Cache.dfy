/** The in-process cache that evicts lazily, against one that evicts on time. */
module Cache {
  import opened Prelude

  /** `Int` stands for every instance of `int`; what lies in `Other` does not matter. */
  datatype Value = PyNone | Int(n: int) | Other(token: nat)

  datatype Entry = Entry(value: Value, expires: Option<real>)

  type Store = map<string, Entry>

  datatype Op =
    | Get(key: string)
    | Set(key: string, value: Value, ttl: Option<int>)
    | Add(key: string, value: Value, ttl: Option<int>)
    | Incr(key: string, amount: int, ttl: Option<int>)
    | Delete(key: string)

  datatype Answer = Nothing | Read(value: Value) | Created(bool) | Count(int) | TypeError

  function Expires(ttl: Option<int>, now: real): Option<real> {
    match ttl case None => None case Some(t) => Some(now + t as real)
  }

  predicate Expired(e: Entry, now: real) {
    e.expires.Some? && now >= e.expires.value
  }

  predicate Fresh(store: Store, key: string, now: real) {
    key in store && !Expired(store[key], now)
  }

  /** What a locked section of the lazy cache leaves in the store. */
  function Stored(store: Store, op: Op, now: real): Store {
    match op
    case Get(key) => if key in store && Expired(store[key], now) then store - {key} else store
    case Set(key, value, ttl) => store[key := Entry(value, Expires(ttl, now))]
    case Add(key, value, ttl) =>
      if Fresh(store, key, now) then store else store[key := Entry(value, Expires(ttl, now))]
    case Incr(key, amount, ttl) =>
      if !Fresh(store, key, now) then store[key := Entry(Int(amount), Expires(ttl, now))]
      else if !store[key].value.Int? then store
      else store[key := Entry(Int(store[key].value.n + amount), store[key].expires)]
    case Delete(key) => store - {key}
  }

  function AnswerOf(store: Store, op: Op, now: real): Answer {
    match op
    case Get(key) => Read(if Fresh(store, key, now) then store[key].value else PyNone)
    case Set(_, _, _) => Nothing
    case Add(key, _, _) => Created(!Fresh(store, key, now))
    case Incr(key, amount, _) =>
      if !Fresh(store, key, now) then Count(amount)
      else if !store[key].value.Int? then TypeError
      else Count(store[key].value.n + amount)
    case Delete(_) => Nothing
  }

  class InMemoryAsyncCache {
    var store: Store

    constructor ()
      ensures store == map[]
    {
      store := map[];
    }

    method Get(key: string, now: real) returns (r: Value)
      modifies this
      ensures store == Stored(old(store), Op.Get(key), now)
      ensures Read(r) == AnswerOf(old(store), Op.Get(key), now)
    {
      if key !in store {
        return PyNone;
      }
      var entry := store[key];
      if entry.expires.Some? && now >= entry.expires.value {
        store := store - {key};
        return PyNone;
      }
      r := entry.value;
    }

    method Set(key: string, value: Value, ttl: Option<int>, now: real)
      modifies this
      ensures store == Stored(old(store), Op.Set(key, value, ttl), now)
    {
      store := store[key := Entry(value, Expires(ttl, now))];
    }

    method Add(key: string, value: Value, ttl: Option<int>, now: real) returns (created: bool)
      modifies this
      ensures store == Stored(old(store), Op.Add(key, value, ttl), now)
      ensures Created(created) == AnswerOf(old(store), Op.Add(key, value, ttl), now)
    {
      if key in store {
        var expires := store[key].expires;
        if expires.None? || now < expires.value {
          return false;
        }
      }
      store := store[key := Entry(value, Expires(ttl, now))];
      created := true;
    }

    /** The new value, or None for the `TypeError`. */
    method Incr(key: string, amount: int, ttl: Option<int>, now: real) returns (r: Option<int>)
      modifies this
      ensures store == Stored(old(store), Op.Incr(key, amount, ttl), now)
      ensures (match r case Some(n) => Count(n) case None => TypeError)
              == AnswerOf(old(store), Op.Incr(key, amount, ttl), now)
    {
      var base, expires := 0, Expires(ttl, now);
      if key in store {
        var entry := store[key];
        if !(entry.expires.Some? && now >= entry.expires.value) {
          if !entry.value.Int? {
            return None;
          }
          base, expires := entry.value.n, entry.expires;
        }
      }
      var newValue := base + amount;
      store := store[key := Entry(Int(newValue), expires)];
      r := Some(newValue);
    }

    method Delete(key: string)
      modifies this
      ensures store == Stored(old(store), Op.Delete(key), 0.0)
    {
      store := store - {key};
    }
  }

  // ----- the eager cache -----

  /** What is left when every entry whose expiry has been reached is gone. */
  function Live(store: Store, now: real): Store {
    map key | key in store && !Expired(store[key], now) :: store[key]
  }

  /** The operations on a store that holds live entries only: no expiry is ever looked at. */
  function EagerStored(store: Store, op: Op, now: real): Store {
    match op
    case Get(_) => store
    case Set(key, value, ttl) => store[key := Entry(value, Expires(ttl, now))]
    case Add(key, value, ttl) => if key in store then store else store[key := Entry(value, Expires(ttl, now))]
    case Incr(key, amount, ttl) =>
      if key !in store then store[key := Entry(Int(amount), Expires(ttl, now))]
      else if !store[key].value.Int? then store
      else store[key := store[key].(value := Int(store[key].value.n + amount))]
    case Delete(key) => store - {key}
  }

  function EagerAnswerOf(store: Store, op: Op): Answer {
    match op
    case Get(key) => Read(if key in store then store[key].value else PyNone)
    case Set(_, _, _) => Nothing
    case Add(key, _, _) => Created(key !in store)
    case Incr(key, amount, _) =>
      if key !in store then Count(amount)
      else if !store[key].value.Int? then TypeError
      else Count(store[key].value.n + amount)
    case Delete(_) => Nothing
  }

  // ----- runs -----

  datatype Step = Step(gap: Duration, op: Op)

  datatype State = State(store: Store, now: real, answers: seq<Answer>)

  function LazyNext(s: State, step: Step): State {
    var now := s.now + step.gap;
    State(Stored(s.store, step.op, now), now, s.answers + [AnswerOf(s.store, step.op, now)])
  }

  /** Time passes and takes what expires; after the operation, so does an entry that was born expired. */
  function EagerNext(s: State, step: Step): State {
    var now := s.now + step.gap;
    var live := Live(s.store, now);
    State(Live(EagerStored(live, step.op, now), now), now, s.answers + [EagerAnswerOf(live, step.op)])
  }

  function LazyRun(start: real, steps: seq<Step>): State {
    if steps == [] then State(map[], start, []) else LazyNext(LazyRun(start, steps[..|steps| - 1]), steps[|steps| - 1])
  }

  function EagerRun(start: real, steps: seq<Step>): State {
    if steps == [] then State(map[], start, []) else EagerNext(EagerRun(start, steps[..|steps| - 1]), steps[|steps| - 1])
  }

  lemma LiveTwice(store: Store, early: real, late: real)
    requires early <= late
    ensures Live(Live(store, early), late) == Live(store, late)
  {
  }

  lemma OperationAgrees(store: Store, op: Op, now: real)
    ensures Live(Stored(store, op, now), now) == Live(EagerStored(Live(store, now), op, now), now)
    ensures AnswerOf(store, op, now) == EagerAnswerOf(Live(store, now), op)
  {
  }

  predicate Agree(lazy: State, eager: State) {
    lazy.answers == eager.answers && lazy.now == eager.now && Live(lazy.store, lazy.now) == eager.store
  }

  lemma StepAgrees(lazy: State, eager: State, step: Step)
    requires Agree(lazy, eager)
    ensures Agree(LazyNext(lazy, step), EagerNext(eager, step))
  {
    hide Live, Stored, EagerStored, AnswerOf, EagerAnswerOf;
    LiveTwice(lazy.store, lazy.now, lazy.now + step.gap);
    OperationAgrees(lazy.store, step.op, lazy.now + step.gap);
  }

  /** Both caches give the same answers, and the eager store is the live part of the lazy one at every time. */
  lemma {:induction false} LazyEqualsEager(start: real, steps: seq<Step>)
    ensures Agree(LazyRun(start, steps), EagerRun(start, steps))
  {
    if steps != [] {
      hide Agree, LazyNext, EagerNext;
      LazyEqualsEager(start, steps[..|steps| - 1]);
      StepAgrees(LazyRun(start, steps[..|steps| - 1]), EagerRun(start, steps[..|steps| - 1]), steps[|steps| - 1]);
    } else {
      assert Live(map[], start) == map[];
    }
  }

  /** The expiry that governs a counter after an increment, and how long it can be read. */
  lemma IncrExpiry(store: Store, key: string, amount: int, ttl: Option<int>, now: real, later: real)
    requires now <= later
    requires AnswerOf(store, Incr(key, amount, ttl), now) != TypeError
    ensures var after := Stored(store, Incr(key, amount, ttl), now);
            && key in after
            && after[key].expires == (if Fresh(store, key, now) then store[key].expires else Expires(ttl, now))
            && (Fresh(after, key, later) <==>
                  if Fresh(store, key, now) then Fresh(store, key, later)
                  else ttl.None? || later < now + ttl.value as real)
            && (forall other :: other != key ==> (other in after <==> other in store))
            && (forall other :: other != key && other in store ==> after[other] == store[other])
  {
  }

  /** What reading `key` gives, `wait` after the operation and with nothing in between. */
  function ReadLater(store: Store, op: Op, now: real, wait: Duration, key: string): Answer {
    AnswerOf(Stored(store, op, now), Get(key), now + wait)
  }

  /** A read right after `now`, before anything has run out, and one after the operation. */
  lemma ReadBack(store: Store, key: string, value: Value, ttl: Option<int>, now: real, wait: Duration)
    ensures var stays := ttl.None? || wait < ttl.value as real;
            var found := key in store && (store[key].expires.None? || now < store[key].expires.value);
            && ReadLater(store, Set(key, value, ttl), now, wait, key) == Read(if stays then value else PyNone)
            && ReadLater(store, Add(key, value, ttl), now, wait, key)
               == (if found then AnswerOf(store, Get(key), now + wait) else Read(if stays then value else PyNone))
            && ReadLater(store, Delete(key), now, wait, key) == Read(PyNone)
            && ReadLater(store, Get(key), now, wait, key) == AnswerOf(store, Get(key), now + wait)
  {
  }

  /** No operation on one key makes a difference to another. */
  lemma OthersUntouched(store: Store, op: Op, now: real, wait: Duration, other: string)
    requires other != op.key
    ensures ReadLater(store, op, now, wait, other) == AnswerOf(store, Get(other), now + wait)
  {
  }
}
