/** `resilient`: the breaker outside, the retry loop inside, and the load this lets through to a dead upstream. */
module Resilient {
  import opened Prelude
  import opened Exceptions
  import opened BreakerTypes
  import opened MemoryBreaker
  import BreakerRuns
  import Retry

  /** A step of a sequential run: a call of the wrapped function, with what each attempt does, or a look at the state. */
  datatype Op = Call(gap: Duration, duration: Duration, script: nat -> Outcome) | Look(gap: Duration)

  /**
   * `admitted` has the admission time of every admitted call, and `upstream` has, for every upstream
   * invocation, the admission time of the call that made it.
   */
  datatype Load = Load(breaker: Memory, now: real, admitted: seq<real>, upstream: seq<real>)

  /** The wrapped call: the breaker around the whole retry loop. */
  function Step(c: Config, p: Retry.Policy, s: Load, op: Op): Load {
    match op
    case Look(gap) => s.(breaker := HalfOpened(c, s.breaker, s.now + gap), now := s.now + gap)
    case Call(gap, duration, script) =>
      var start, finish := s.now + gap, s.now + gap + duration;
      var (calls, outcome) := Retry.Run(p, script);
      var (breaker, answer) := SequentialCall(c, s.breaker, start, outcome, finish);
      if answer == Unavailable then Load(breaker, start, s.admitted, s.upstream)
      else Load(breaker, finish, s.admitted + [start], s.upstream + seq(calls, _ => start))
  }

  function Run(c: Config, p: Retry.Policy, s: Load, ops: seq<Op>): Load {
    if |ops| == 0 then s
    else Step(c, p, Run(c, p, s, ops[..|ops| - 1]), ops[|ops| - 1])
  }

  predicate Breaks(c: Config, p: Retry.Policy) {
    c.failMax >= 1 && c.resetTimeout > 0.0 && p.maxAttempts >= 1 && p.raiseOnFailure
  }

  /** Whatever the attempts raise, each is retried and counted as a failure of the breaker. */
  ghost predicate Dead(c: Config, p: Retry.Policy, script: nat -> Outcome) {
    forall i: nat :: Retry.RetryableFailure(p, script(i)) && Judge(c, script(i)) == Failure
  }

  /** The upstream is dead throughout the run, each attempt of each call in its own way. */
  ghost predicate DeadThroughout(c: Config, p: Retry.Policy, ops: seq<Op>) {
    forall i | 0 <= i < |ops| :: ops[i].Call? ==> Dead(c, p, ops[i].script)
  }

  function Started(m: Memory, start: real): Load {
    Load(m, start, [], [])
  }

  /** One whole retry batch is exactly one failure of the breaker, after all the attempts it may make. */
  lemma DeadBatch(c: Config, p: Retry.Policy, script: nat -> Outcome)
    requires Breaks(c, p) && Dead(c, p, script)
    ensures Retry.Run(p, script) == (p.maxAttempts, script(p.maxAttempts - 1))
    ensures Judge(c, Retry.Run(p, script).1) == Failure
  {
    hide Judge;
    assert Retry.RetryableFailure(p, script(p.maxAttempts - 1));
    Retry.RunExactly(p, script, p.maxAttempts, script(p.maxAttempts - 1));
  }

  /**
   * A call of the wrapped function is a call of the breaker that nothing overlaps, around one whole run of the retry
   * loop: admitted, it makes all the attempts of that run, and its outcome is recorded when they are over.
   */
  lemma StepIsRun(c: Config, p: Retry.Policy, s: Load, op: Op, id: nat)
    requires op.Call?
    ensures var (calls, outcome) := Retry.Run(p, op.script);
            var start := s.now + op.gap;
            var before := BreakerRuns.System(s.breaker, map[], start, []);
            var after := BreakerRuns.Alone(c, before, id, outcome, op.duration);
            var admitted := HalfOpened(c, s.breaker, start).state != Open;
            var t := Step(c, p, s, op);
            && t.breaker == after.breaker
            && t.now == (if admitted then after.now else start)
            && t.admitted == s.admitted + (if admitted then [start] else [])
            && t.upstream == s.upstream + (if admitted then seq(calls, _ => start) else [])
  {
    hide Retry.Run, Judge, HalfOpened, AfterVerdict;
    var before := BreakerRuns.System(s.breaker, map[], s.now + op.gap, []);
    BreakerRuns.CallIsRun(c, before, id, Retry.Run(p, op.script).1, op.duration);
    assert s.admitted + [] == s.admitted && s.upstream + [] == s.upstream;
  }

  /** The earliest time of the i-th admission, counting from zero. */
  function Earliest(c: Config, start: real, i: int): real {
    if i < c.failMax then start else start + (i - c.failMax + 1) as real * c.resetTimeout
  }

  predicate Paced(c: Config, start: real, s: Load) {
    && s.now >= start
    && (forall i | 0 <= i < |s.admitted| :: s.admitted[i] >= Earliest(c, start, i))
    && match s.breaker.state
       case Closed => |s.admitted| <= s.breaker.failureCount && |s.admitted| < c.failMax
       case Open =>
         && s.breaker.openedAt.Some?
         && s.breaker.openedAt.value >= Earliest(c, start, |s.admitted| - 1)
       case HalfOpen =>
         s.now >= Earliest(c, start, |s.admitted|)
  }

  lemma EarliestStep(c: Config, start: real, i: int)
    requires c.resetTimeout > 0.0
    ensures Earliest(c, start, i) + c.resetTimeout >= Earliest(c, start, i + 1) >= Earliest(c, start, i) >= start
  {
    if i >= c.failMax {
      MulStep(i - c.failMax + 1, c.resetTimeout);
      MulNonNegative((i - c.failMax + 1) as real, c.resetTimeout);
    }
  }

  lemma StepKeepsPace(c: Config, p: Retry.Policy, start: real, s: Load, op: Op)
    requires Breaks(c, p) && Paced(c, start, s)
    requires op.Call? ==> Judge(c, Retry.Run(p, op.script).1) == Failure
    ensures Paced(c, start, Step(c, p, s, op))
  {
    hide Retry.Run, Judge;
    EarliestStep(c, start, |s.admitted| - 1);
    EarliestStep(c, start, |s.admitted|);
  }

  lemma {:induction false} RunKeepsPace(c: Config, p: Retry.Policy, m: Memory, start: real, ops: seq<Op>)
    requires Breaks(c, p) && m.state == Closed && m.failureCount >= 0 && DeadThroughout(c, p, ops)
    ensures Paced(c, start, Run(c, p, Started(m, start), ops))
  {
    if |ops| > 0 {
      hide Step, Paced, Dead;
      var op := ops[|ops| - 1];
      RunKeepsPace(c, p, m, start, ops[..|ops| - 1]);
      if op.Call? {
        DeadBatch(c, p, op.script);
      }
      StepKeepsPace(c, p, start, Run(c, p, Started(m, start), ops[..|ops| - 1]), op);
    }
  }

  lemma {:induction false} CountSame(n: nat, x: real, limit: real)
    ensures CountUpTo(seq(n, _ => x), limit) == if x <= limit then n else 0
  {
    if n > 0 {
      CountSame(n - 1, x, limit);
      assert seq(n, _ => x)[..n - 1] == seq(n - 1, _ => x);
    }
  }

  /** The invocations made by calls admitted up to `limit` are those of as many whole retry batches, or fewer. */
  predicate FromAdmitted(p: Retry.Policy, s: Load, limit: real, exactly: bool) {
    var most := Max(0, p.maxAttempts) * CountUpTo(s.admitted, limit);
    CountUpTo(s.upstream, limit) <= most && (exactly ==> CountUpTo(s.upstream, limit) == most)
  }

  lemma StepFromAdmitted(c: Config, p: Retry.Policy, s: Load, op: Op, limit: real, exactly: bool)
    requires FromAdmitted(p, s, limit, exactly)
    requires op.Call? && exactly ==> Retry.Run(p, op.script).0 == p.maxAttempts
    ensures FromAdmitted(p, Step(c, p, s, op), limit, exactly)
  {
    if op.Call? && Step(c, p, s, op).admitted != s.admitted {
      hide CountUpTo, SequentialCall;
      var x, calls := s.now + op.gap, Retry.Run(p, op.script).0;
      assert calls <= Max(0, p.maxAttempts);
      BatchCounted(s, x, calls, limit);
      MulDistributes(Max(0, p.maxAttempts), CountUpTo(s.admitted, limit), 1);
    }
  }

  lemma BatchCounted(s: Load, x: real, calls: nat, limit: real)
    ensures CountUpTo(s.admitted + [x], limit) == CountUpTo(s.admitted, limit) + if x <= limit then 1 else 0
    ensures CountUpTo(s.upstream + seq(calls, _ => x), limit)
            == CountUpTo(s.upstream, limit) + if x <= limit then calls else 0
  {
    CountUpToConcat(s.admitted, [x], limit);
    CountUpToConcat(s.upstream, seq(calls, _ => x), limit);
    CountSame(calls, x, limit);
    assert CountUpTo([x], limit) == if x <= limit then 1 else 0;
  }

  /**
   * Whatever the upstream does, an admitted call makes at most maxAttempts invocations; if it is dead throughout,
   * every admitted call makes exactly that many.
   */
  lemma {:induction false} UpstreamPerAdmission(
    c: Config, p: Retry.Policy, m: Memory, start: real, ops: seq<Op>, limit: real, exactly: bool)
    requires exactly ==> Breaks(c, p) && DeadThroughout(c, p, ops)
    ensures FromAdmitted(p, Run(c, p, Started(m, start), ops), limit, exactly)
  {
    if |ops| > 0 {
      hide Step, FromAdmitted, Dead;
      var op := ops[|ops| - 1];
      UpstreamPerAdmission(c, p, m, start, ops[..|ops| - 1], limit, exactly);
      if op.Call? && exactly {
        DeadBatch(c, p, op.script);
      }
      StepFromAdmitted(c, p, Run(c, p, Started(m, start), ops[..|ops| - 1]), op, limit, exactly);
    } else {
      assert CountUpTo([], limit) == 0;
    }
  }

  lemma {:induction false} CountBelow(s: seq<real>, limit: real, k: nat)
    requires forall i | 0 <= i < |s| && s[i] <= limit :: i < k
    ensures CountUpTo(s, limit) <= k
  {
    if |s| > k {
      assert s[|s| - 1] > limit;
      CountBelow(s[..|s| - 1], limit, k);
    }
  }

  lemma EarliestWithin(c: Config, start: real, i: nat, t: real)
    requires c.resetTimeout > 0.0 && t >= 0.0
    requires Earliest(c, start, i) <= start + t
    ensures i < c.failMax + (t / c.resetTimeout).Floor
  {
    FloorOfQuotient(0, c.resetTimeout, t);
    FloorOfQuotient(i - c.failMax + 1, c.resetTimeout, t);
  }

  lemma PacedCount(c: Config, start: real, admitted: seq<real>, t: real)
    requires c.resetTimeout > 0.0 && t >= 0.0 && c.failMax >= 0
    requires forall i | 0 <= i < |admitted| :: admitted[i] >= Earliest(c, start, i)
    ensures CountUpTo(admitted, start + t) <= c.failMax + (t / c.resetTimeout).Floor
  {
    FloorOfQuotient(0, c.resetTimeout, t);
    var k := c.failMax + (t / c.resetTimeout).Floor;
    forall i | 0 <= i < |admitted| && admitted[i] <= start + t ensures i < k {
      EarliestWithin(c, start, i, t);
    }
    CountBelow(admitted, start + t, k);
  }

  /**
   * Within time `t` of a closed start, the calls admitted make at most maxAttempts * (failMax + floor(t / resetTimeout))
   * invocations of a dead upstream.
   */
  lemma LoadOnDeadUpstream(c: Config, p: Retry.Policy, m: Memory, start: real, ops: seq<Op>, t: real)
    requires Breaks(c, p) && DeadThroughout(c, p, ops)
    requires m.state == Closed && m.failureCount >= 0 && t >= 0.0
    ensures CountUpTo(Run(c, p, Started(m, start), ops).upstream, start + t)
            <= p.maxAttempts * (c.failMax + (t / c.resetTimeout).Floor)
  {
    hide Run, CountUpTo;
    RunKeepsPace(c, p, m, start, ops);
    PacedCount(c, start, Run(c, p, Started(m, start), ops).admitted, t);
    UpstreamPerAdmission(c, p, m, start, ops, start + t, true);
    MulMonotone(p.maxAttempts, CountUpTo(Run(c, p, Started(m, start), ops).admitted, start + t),
                c.failMax + (t / c.resetTimeout).Floor);
  }

  // ----- the bound is reached -----

  /** `n` calls, all at once. */
  function Burst(script: nat -> Outcome, n: nat): seq<Op> {
    if n == 0 then [] else Burst(script, n - 1) + [Call(0.0, 0.0, script)]
  }

  /** `failMax` calls at once, then `n` calls each as soon as the breaker lets one through. */
  function WorstCase(c: Config, script: nat -> Outcome, n: nat): seq<Op>
    requires c.failMax >= 0 && c.resetTimeout > 0.0
  {
    if n == 0 then Burst(script, c.failMax) else WorstCase(c, script, n - 1) + [Call(c.resetTimeout, 0.0, script)]
  }

  lemma RunAppend(c: Config, p: Retry.Policy, s: Load, ops: seq<Op>, op: Op)
    ensures Run(c, p, s, ops + [op]) == Step(c, p, Run(c, p, s, ops), op)
  {
    hide Step;
    assert (ops + [op])[..|ops|] == ops;
  }

  /** `k` calls have failed at time zero. */
  predicate Failing(c: Config, p: Retry.Policy, s: Load, k: nat) {
    && s.now == 0.0 && |s.upstream| == p.maxAttempts * k
    && s.breaker == if k < c.failMax then FRESH.(failureCount := k) else Tripped(0.0)
  }

  lemma Fail(c: Config, p: Retry.Policy, script: nat -> Outcome, s: Load, k: nat)
    requires Breaks(c, p) && Dead(c, p, script) && k < c.failMax && Failing(c, p, s, k)
    ensures Failing(c, p, Step(c, p, s, Call(0.0, 0.0, script)), k + 1)
  {
    hide Dead, Judge, Retry.Run;
    DeadBatch(c, p, script);
    MulDistributes(p.maxAttempts, k, 1);
  }

  lemma {:induction false} Opening(c: Config, p: Retry.Policy, script: nat -> Outcome, k: nat)
    requires Breaks(c, p) && Dead(c, p, script) && k <= c.failMax
    ensures Failing(c, p, Run(c, p, Started(FRESH, 0.0), Burst(script, k)), k)
  {
    if k > 0 {
      hide Run, Dead, Step, Failing;
      Opening(c, p, script, k - 1);
      RunAppend(c, p, Started(FRESH, 0.0), Burst(script, k - 1), Call(0.0, 0.0, script));
      Fail(c, p, script, Run(c, p, Started(FRESH, 0.0), Burst(script, k - 1)), k - 1);
    }
  }

  /** `n` probes have been let through, the last one just now. */
  predicate Probed(c: Config, p: Retry.Policy, s: Load, n: nat) {
    && s.now == n as real * c.resetTimeout
    && |s.upstream| == p.maxAttempts * (c.failMax + n)
    && s.breaker == Tripped(s.now)
  }

  lemma Probe(c: Config, p: Retry.Policy, script: nat -> Outcome, s: Load, n: nat)
    requires Breaks(c, p) && Dead(c, p, script) && Probed(c, p, s, n)
    ensures Probed(c, p, Step(c, p, s, Call(c.resetTimeout, 0.0, script)), n + 1)
  {
    hide Dead, Judge, Retry.Run;
    DeadBatch(c, p, script);
    MulStep(n, c.resetTimeout);
    MulDistributes(p.maxAttempts, c.failMax + n, 1);
  }

  lemma {:induction false} Probing(c: Config, p: Retry.Policy, script: nat -> Outcome, n: nat)
    requires Breaks(c, p) && Dead(c, p, script)
    ensures Probed(c, p, Run(c, p, Started(FRESH, 0.0), WorstCase(c, script, n)), n)
  {
    hide Run, Dead, Step;
    if n == 0 {
      Opening(c, p, script, c.failMax);
    } else {
      Probing(c, p, script, n - 1);
      RunAppend(c, p, Started(FRESH, 0.0), WorstCase(c, script, n - 1), Call(c.resetTimeout, 0.0, script));
      Probe(c, p, script, Run(c, p, Started(FRESH, 0.0), WorstCase(c, script, n - 1)), n - 1);
    }
  }

  /** No smaller bound holds: this run makes that many invocations by time n * resetTimeout. */
  lemma LoadBoundReached(c: Config, p: Retry.Policy, script: nat -> Outcome, n: nat)
    requires Breaks(c, p) && Dead(c, p, script)
    ensures var s := Run(c, p, Started(FRESH, 0.0), WorstCase(c, script, n));
            && s.now == n as real * c.resetTimeout
            && |s.upstream| == p.maxAttempts * (c.failMax + n)
  {
    hide Run, Dead;
    Probing(c, p, script, n);
  }
}
