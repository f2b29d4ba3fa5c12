/** The breaker kept in a Redis hash: the script as a function, and as the procedure it is. */
module LuaBreaker {
  import opened Prelude
  import opened BreakerTypes

  /** The hash under the breaker's key. It is gone once its deadline has passed. */
  datatype Hash = Absent | Present(state: BreakerState, failures: int, successes: int, lastFailure: real, deadline: real)

  datatype Action = IsAvailable | RecordSuccess | RecordFailure | Reset

  datatype Reply = Reply(flag: int, state: BreakerState, remaining: real)

  /** A key is alive before its deadline and gone after it; `keep` says which it is at the deadline itself. */
  predicate Alive(deadline: real, now: real, keep: bool) {
    now < deadline || (keep && now == deadline)
  }

  function Ttl(c: Config): real {
    Ceil(c.resetTimeout * 10.0) as real
  }

  /** The action that records an outcome which counts. */
  function Recording(v: Verdict): Action
    requires v != Uncounted
  {
    if v == Success then RecordSuccess else RecordFailure
  }

  /** The hash as a command at `now` finds it. */
  function Found(h: Hash, now: real, keep: bool): Hash {
    if h.Present? && Alive(h.deadline, now, keep) then h else Absent
  }

  /** What `read_state` yields: missing fields read as a closed breaker with zero counters. */
  function Read(h: Hash): (h': Hash) {
    if h.Present? then h else Present(Closed, 0, 0, 0.0, 0.0)
  }

  function HalfOpened(c: Config, h: Hash, now: real): Hash {
    var r := Read(h);
    if r.state == Open && now - r.lastFailure >= c.resetTimeout
    then Present(HalfOpen, r.failures, 0, r.lastFailure, now + Ttl(c))
    else h
  }

  function AfterSuccess(c: Config, h: Hash, now: real): Hash {
    var r := Read(h);
    var (state, failures, successes) :=
      match r.state
      case HalfOpen =>
        if r.successes + 1 >= c.successThreshold then (Closed, 0, r.successes + 1)
        else (HalfOpen, r.failures, r.successes + 1)
      case Closed => (Closed, 0, r.successes)
      case Open => (Open, r.failures, r.successes);
    Present(state, failures, successes, r.lastFailure, now + Ttl(c))
  }

  function AfterFailure(c: Config, h: Hash, now: real): Hash {
    var r := Read(h);
    var state := if r.state == HalfOpen || (r.state == Closed && r.failures + 1 >= c.failMax) then Open else r.state;
    Present(state, r.failures + 1, r.successes, now, now + Ttl(c))
  }

  /** One run of the script. */
  function Script(c: Config, keep: bool, h: Hash, action: Action, now: real): (Hash, Reply) {
    var before := HalfOpened(c, Found(h, now, keep), now);
    match action
    case IsAvailable =>
      var r := Read(before);
      (before,
       if r.state == Open then Reply(0, Open, MaxReal(0.0, c.resetTimeout - (now - r.lastFailure)))
       else Reply(1, r.state, 0.0))
    case RecordSuccess =>
      var after := AfterSuccess(c, before, now);
      (after, Reply(1, after.state, 0.0))
    case RecordFailure =>
      var after := AfterFailure(c, before, now);
      (after, Reply(1, after.state, if after.state == Open then c.resetTimeout else 0.0))
    case Reset => (Absent, Reply(1, Closed, 0.0))
  }

  /** The time to live is the least whole number of seconds that is not less than ten timeouts. */
  lemma TtlIsCeiling(c: Config)
    ensures Ttl(c) == Ttl(c).Floor as real && Ttl(c) - 1.0 < 10.0 * c.resetTimeout <= Ttl(c)
  {
  }

  /** A recorded outcome, and a half-opening, renew it; the hash is found until it is over, and then no more. */
  lemma WritesRenew(c: Config, keep: bool, h: Hash, a: Action, now: real, later: real)
    requires a != Reset
    ensures var found := Found(h, now, keep);
            var after := Script(c, keep, h, a, now).0;
            var halfOpens := Read(found).state == Open && now - Read(found).lastFailure >= c.resetTimeout;
            && (a != IsAvailable || halfOpens ==>
                  && after.Present?
                  && Found(after, later, keep)
                     == if later < now + Ttl(c) || (keep && later == now + Ttl(c)) then after else Absent)
            && (a == IsAvailable && !halfOpens ==> after == found)
  {
    hide Ttl;
  }

  /** The Redis key of one breaker, with the script that is the only writer of it. */
  class BreakerHash {
    const config: Config
    const keep: bool
    var hash: Hash

    constructor (config: Config, keep: bool)
      ensures this.config == config && this.keep == keep && hash == Absent
    {
      this.config, this.keep, this.hash := config, keep, Absent;
    }

    /** HMSET followed by EXPIRE. */
    method WriteState(state: BreakerState, fc: int, sc: int, lf: real, now: real)
      modifies this
      ensures hash == Present(state, fc, sc, lf, now + Ttl(config))
    {
      hash := Present(state, fc, sc, lf, now + Ttl(config));
    }

    method Eval(action: Action, now: real) returns (reply: Reply)
      modifies this
      ensures (hash, reply) == Script(config, keep, old(hash), action, now)
    {
      if hash.Present? && !Alive(hash.deadline, now, keep) {
        hash := Absent;
      }
      var state, fc, sc, lf := Closed, 0, 0, 0.0;
      if hash.Present? {
        state, fc, sc, lf := hash.state, hash.failures, hash.successes, hash.lastFailure;
      }
      if state == Open && now - lf >= config.resetTimeout {
        state := HalfOpen;
        sc := 0;
        WriteState(state, fc, sc, lf, now);
      }
      match action {
        case IsAvailable =>
          if state == Open {
            var remaining := config.resetTimeout - (now - lf);
            if remaining < 0.0 {
              remaining := 0.0;
            }
            return Reply(0, state, remaining);
          }
          return Reply(1, state, 0.0);
        case RecordSuccess =>
          if state == HalfOpen {
            sc := sc + 1;
            if sc >= config.successThreshold {
              state := Closed;
              fc := 0;
            }
          } else if state == Closed {
            fc := 0;
          }
          WriteState(state, fc, sc, lf, now);
          return Reply(1, state, 0.0);
        case RecordFailure =>
          fc := fc + 1;
          lf := now;
          if state == HalfOpen {
            state := Open;
          } else if state == Closed && fc >= config.failMax {
            state := Open;
          }
          WriteState(state, fc, sc, lf, now);
          return Reply(1, state, if state == Open then config.resetTimeout else 0.0);
        case Reset =>
          hash := Absent;
          return Reply(1, Closed, 0.0);
      }
    }
  }

  // ----- no admission before the reset timeout, hash expiry included -----

  /** One script run by any caller, some time after the one before it. */
  datatype Invocation = Invocation(gap: Duration, action: Action)

  datatype Clocked = Clocked(hash: Hash, now: real)

  function Next(c: Config, keep: bool, s: Clocked, e: Invocation): Clocked {
    Clocked(Script(c, keep, s.hash, e.action, s.now + e.gap).0, s.now + e.gap)
  }

  /** The hash and the time after a sequence of script runs, in whatever order calls in flight send them. */
  function Run(c: Config, keep: bool, start: real, es: seq<Invocation>): Clocked {
    if es == [] then Clocked(Absent, start)
    else Next(c, keep, Run(c, keep, start, es[..|es| - 1]), es[|es| - 1])
  }

  lemma RunStep(c: Config, keep: bool, start: real, es: seq<Invocation>, i: nat)
    requires i < |es|
    ensures Run(c, keep, start, es[..i + 1]) == Next(c, keep, Run(c, keep, start, es[..i]), es[i])
  {
    assert es[..i + 1][..i] == es[..i];
  }

  /** Open, or open again, through a failure recorded by this script run. */
  predicate Trips(c: Config, keep: bool, s: Clocked, e: Invocation) {
    e.action == RecordFailure && Next(c, keep, s, e).hash.state == Open
  }

  predicate Admits(c: Config, keep: bool, s: Clocked, e: Invocation) {
    e.action == IsAvailable && Script(c, keep, s.hash, IsAvailable, s.now + e.gap).1.flag == 1
  }

  predicate Sealed(c: Config, s: Clocked, t: real) {
    && s.now >= t
    && ((s.hash.Present? && s.hash.state == Open && s.hash.lastFailure >= t && s.hash.deadline >= t + c.resetTimeout)
        || s.now >= t + c.resetTimeout)
  }

  lemma StepStaysSealed(c: Config, keep: bool, s: Clocked, e: Invocation, t: real)
    requires c.resetTimeout > 0.0 && Sealed(c, s, t) && e.action != Reset
    ensures Sealed(c, Next(c, keep, s, e), t)
  {
  }

  lemma {:induction false} StaysSealed(c: Config, keep: bool, start: real, es: seq<Invocation>, i: nat, j: nat, t: real)
    requires c.resetTimeout > 0.0
    requires i <= j <= |es|
    requires forall k | i <= k < j :: es[k].action != Reset
    requires Sealed(c, Run(c, keep, start, es[..i]), t)
    ensures Sealed(c, Run(c, keep, start, es[..j]), t)
  {
    if i < j {
      StaysSealed(c, keep, start, es, i, j - 1, t);
      RunStep(c, keep, start, es, j - 1);
      StepStaysSealed(c, keep, Run(c, keep, start, es[..j - 1]), es[j - 1], t);
    }
  }

  /**
   * A recorded failure that leaves the breaker open keeps it shut for the whole timeout: neither a late
   * outcome nor the expiry of the hash lets a call through sooner.
   */
  lemma NoAdmissionBeforeTimeout(c: Config, keep: bool, start: real, es: seq<Invocation>, i: nat, j: nat)
    requires c.resetTimeout > 0.0
    requires i < j < |es|
    requires Trips(c, keep, Run(c, keep, start, es[..i]), es[i])
    requires forall k | i < k < j :: es[k].action != Reset
    requires Admits(c, keep, Run(c, keep, start, es[..j]), es[j])
    ensures Run(c, keep, start, es[..j + 1]).now >= Run(c, keep, start, es[..i + 1]).now + c.resetTimeout
  {
    RunStep(c, keep, start, es, i);
    StaysSealed(c, keep, start, es, i + 1, j, Run(c, keep, start, es[..i + 1]).now);
    RunStep(c, keep, start, es, j);
  }
}
