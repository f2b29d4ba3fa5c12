/** The Redis breaker with its in-process fallback, while Redis may fail at any command. */
module RedisBreaker {
  import opened Prelude
  import opened Exceptions
  import opened BreakerTypes
  import M = MemoryBreaker
  import L = LuaBreaker

  datatype Backend = Backend(hash: L.Hash, fallback: M.Memory, healthy: bool, degradedSince: Option<real>)

  const INITIAL := Backend(L.Absent, M.FRESH, true, None)

  function MarkDegraded(b: Backend, now: real): Backend {
    if b.healthy then b.(healthy := false, degradedSince := Some(now)) else b
  }

  /** A script run whose `RedisError` is caught by marking the breaker degraded. */
  function Eval(c: Config, keep: bool, b: Backend, a: L.Action, link: Link, now: real): (Backend, Option<L.Reply>) {
    var (hash, reply) := L.Script(c, keep, b.hash, a, now);
    match link
    case Answered => (b.(hash := hash), Some(reply))
    case Refused => (MarkDegraded(b, now), None)
    case ReplyLost => (MarkDegraded(b.(hash := hash), now), None)
  }

  function Recover(b: Backend, pong: bool): Backend {
    if !b.healthy && pong then b.(healthy := true, degradedSince := None) else b
  }

  /** One whole `call` that no other call overlaps; the links are those of its first and second command. */
  function SequentialCall(c: Config, keep: bool, b: Backend, start: real, o: Outcome, finish: real, l1: Link, l2: Link)
    : (Backend, Answer)
  {
    var (entered, reply) := if b.healthy then Eval(c, keep, b, L.IsAvailable, l1, start) else (b, None);
    if reply == None then
      var (fallback, answer) := M.SequentialCall(c, entered.fallback, start, o, finish);
      (entered.(fallback := fallback), answer)
    else if reply.value.flag == 0 then (entered, Unavailable)
    else
      var v := Judge(c, o);
      (if v == Uncounted then entered else Eval(c, keep, entered, L.Recording(v), l2, finish).0, Delivered(o))
  }

  /** One whole `reset`, and one whole `state`, that nothing overlaps. */
  function SequentialReset(c: Config, keep: bool, b: Backend, link: Link, now: real): Backend {
    Eval(c, keep, b, L.Reset, link, now).0.(fallback := M.FRESH)
  }

  function SequentialLook(c: Config, keep: bool, b: Backend, link: Link, now: real): (Backend, BreakerState) {
    var (looked, reply) := if b.healthy then Eval(c, keep, b, L.IsAvailable, link, now) else (b, None);
    if reply.Some? then (looked, reply.value.state)
    else
      var fallback := M.HalfOpened(c, b.fallback, now);
      (looked.(fallback := fallback), fallback.state)
  }

  class RedisAsyncBreaker {
    const config: Config
    const redis: L.BreakerHash
    const fallback: M.InMemoryAsyncBreaker
    var healthy: bool
    var degradedSince: Option<real>

    ghost predicate Valid()
      reads this
    {
      redis.config == config && fallback.config == config
    }

    ghost function View(): Backend
      reads this, redis, fallback
    {
      Backend(redis.hash, fallback.View(), healthy, degradedSince)
    }

    constructor (config: Config, keep: bool)
      ensures Valid() && this.config == config && redis.keep == keep && View() == INITIAL
      ensures fresh(redis) && fresh(fallback)
    {
      this.config := config;
      redis := new L.BreakerHash(config, keep);
      fallback := new M.InMemoryAsyncBreaker(config);
      healthy, degradedSince := true, None;
    }

    method Degrade(now: real)
      modifies this
      ensures View() == MarkDegraded(old(View()), now)
      ensures !healthy && degradedSince == if old(healthy) then Some(now) else old(degradedSince)
    {
      if healthy {
        healthy := false;
        degradedSince := Some(now);
      }
    }

    /** `_eval` followed by the handler of `RedisError` that every caller puts around it. */
    method EvalOrDegrade(action: L.Action, link: Link, now: real) returns (reply: Option<L.Reply>)
      requires Valid()
      modifies this, redis
      ensures (View(), reply) == Eval(config, redis.keep, old(View()), action, link, now)
    {
      reply := None;
      if link != Refused {
        var r := redis.Eval(action, now);
        reply := Some(r);
      }
      if link != Answered {
        reply := None;
        Degrade(now);
      }
    }

    method Call(start: real, outcome: Outcome, finish: real, l1: Link, l2: Link) returns (answer: Answer)
      requires Valid()
      modifies this, redis, fallback
      ensures (View(), answer) == SequentialCall(config, redis.keep, old(View()), start, outcome, finish, l1, l2)
    {
      if !healthy {
        answer := fallback.Call(start, outcome, finish);
        return;
      }
      var reply := EvalOrDegrade(L.IsAvailable, l1, start);
      if reply == None {
        answer := fallback.Call(start, outcome, finish);
        return;
      }
      if reply.value.flag == 0 {
        return Unavailable;
      }
      var v := Judge(config, outcome);
      if v != Uncounted {
        var _ := EvalOrDegrade(L.Recording(v), l2, finish);
      }
      answer := Delivered(outcome);
    }

    method State(link: Link, now: real) returns (state: BreakerState)
      requires Valid()
      modifies this, redis, fallback
      ensures (View(), state) == SequentialLook(config, redis.keep, old(View()), link, now)
    {
      if healthy {
        var reply := EvalOrDegrade(L.IsAvailable, link, now);
        if reply.Some? {
          return reply.value.state;
        }
      }
      state := fallback.State(now);
    }

    method Reset(link: Link, now: real)
      requires Valid()
      modifies this, redis, fallback
      ensures View() == SequentialReset(config, redis.keep, old(View()), link, now)
    {
      var _ := EvalOrDegrade(L.Reset, link, now);
      fallback.Reset();
    }

    method TryRecover(pong: bool) returns (recovered: bool)
      modifies this
      ensures View() == Recover(old(View()), pong) && recovered == (pong && !old(healthy))
      ensures healthy == (old(healthy) || pong) && (recovered ==> degradedSince == None)
    {
      if healthy || !pong {
        return false;
      }
      healthy := true;
      degradedSince := None;
      recovered := true;
    }
  }

  /**
   * What a call leaves behind, wherever Redis fails it. Without an answer to its first command it is a call of the
   * fallback; with one it is recorded in the hash, by what its function did, unless the second command is refused.
   */
  ghost predicate Leaves(c: Config, keep: bool, b: Backend, start: real, o: Outcome, finish: real, l1: Link, l2: Link,
                         after: Backend, answer: Answer) {
    var (hash, reply) := L.Script(c, keep, b.hash, L.IsAvailable, start);
    var action := if o.Returned? then L.RecordSuccess else L.RecordFailure;
    if !b.healthy || l1 != Answered then
      && after.hash == (if b.healthy && l1 == ReplyLost then hash else b.hash)
      && (after.fallback, answer) == M.SequentialCall(c, b.fallback, start, o, finish)
      && !after.healthy && after.degradedSince == (if b.healthy then Some(start) else b.degradedSince)
    else
      && after.fallback == b.fallback
      && answer == (if reply.flag == 0 then Unavailable else Delivered(o))
      && if reply.flag == 0 || (o.Raised? && Excused(c, o.exc)) then
           after.hash == hash && after.healthy && after.degradedSince == b.degradedSince
         else
           && after.hash == (if l2 == Refused then hash else L.Script(c, keep, hash, action, finish).0)
           && (after.healthy <==> l2 == Answered)
           && after.degradedSince == (if l2 == Answered then b.degradedSince else Some(finish))
  }

  lemma CallRecordsExactly(c: Config, keep: bool, b: Backend, start: real, o: Outcome, finish: real, l1: Link, l2: Link)
    ensures var (after, answer) := SequentialCall(c, keep, b, start, o, finish, l1, l2);
            Leaves(c, keep, b, start, o, finish, l1, l2, after, answer)
  {
    hide Judge, Excused, L.Script, M.SequentialCall;
    JudgedExactly(c, o);
  }

  /** A reset clears both stores, except for a hash that Redis was not told to clear. */
  lemma ResetExactly(c: Config, keep: bool, b: Backend, link: Link, now: real)
    ensures var after := SequentialReset(c, keep, b, link, now);
            && after.hash == (if link == Refused then b.hash else L.Absent) && after.fallback == M.FRESH
            && (after.healthy <==> b.healthy && link == Answered)
            && after.degradedSince == (if b.healthy && link != Answered then Some(now) else b.degradedSince)
  {
  }

  /**
   * While the hash says no, a call is rejected if Redis answers; if it does not, the call goes to the fallback, whose
   * own state alone decides.
   */
  lemma FallbackAdmitsWhileHashIsOpen(c: Config, keep: bool, b: Backend, start: real, o: Outcome, finish: real, l1: Link, l2: Link)
    requires b.healthy && L.Script(c, keep, b.hash, L.IsAvailable, start).1.flag == 0
    ensures var answer := SequentialCall(c, keep, b, start, o, finish, l1, l2).1;
            answer == Delivered(o) <==> l1 != Answered && M.HalfOpened(c, b.fallback, start).state != Open
  {
    hide L.Script;
  }

  /** A breaker that has only just opened in Redis: its fallback is fresh, and lets a call through at once. */
  lemma FreshFallbackAdmits(c: Config, keep: bool, e: Exc)
    requires c.failMax == 1 && c.resetTimeout > 0.0 && Judge(c, Raised(e)) == Failure
    ensures var b := SequentialCall(c, keep, INITIAL, 0.0, Raised(e), 0.0, Answered, Answered).0;
            && L.Script(c, keep, b.hash, L.IsAvailable, 0.0).1.flag == 0
            && SequentialCall(c, keep, b, 0.0, Returned(PyNone), 0.0, Refused, Answered).1 == Delivered(Returned(PyNone))
  {
    assert c.resetTimeout * 10.0 > 0.0;
    assert L.Ttl(c) > 0.0;
  }
}
