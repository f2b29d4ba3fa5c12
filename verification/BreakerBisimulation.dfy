/** The in-process breaker and the Redis hash give the same answers on sequential runs. */
module BreakerBisimulation {
  import opened Prelude
  import opened Exceptions
  import opened BreakerTypes
  import M = MemoryBreaker
  import L = LuaBreaker

  /** One operation of a sequential run: `gap` since the last one ended, `duration` of the awaited function. */
  datatype Op = Call(gap: Duration, outcome: Outcome, duration: Duration) | Look(gap: Duration) | ForceReset(gap: Duration)

  /** What the caller sees, and the state that `state()` would report when the operation is over. */
  datatype Seen = Seen(answer: Option<Answer>, state: BreakerState)

  function Ends(now: real, op: Op): real {
    now + op.gap + if op.Call? then op.duration else 0.0
  }

  function MemoryStep(c: Config, m: M.Memory, now: real, op: Op): (M.Memory, Seen) {
    var (m', answer) :=
      match op
      case Call(gap, o, duration) =>
        var (after, a) := M.SequentialCall(c, m, now + gap, o, now + gap + duration);
        (after, Some(a))
      case Look(gap) => (M.HalfOpened(c, m, now + gap), None)
      case ForceReset(_) => (M.FRESH, None);
    (m', Seen(answer, M.HalfOpened(c, m', Ends(now, op)).state))
  }

  /** `RedisAsyncBreaker.call` with Redis reachable and no other call in flight. */
  function LuaCall(c: Config, keep: bool, h: L.Hash, start: real, o: Outcome, finish: real): (L.Hash, Answer) {
    var (entered, reply) := L.Script(c, keep, h, L.IsAvailable, start);
    if reply.flag == 0 then (entered, Unavailable)
    else
      var v := Judge(c, o);
      (if v == Uncounted then entered else L.Script(c, keep, entered, L.Recording(v), finish).0, Delivered(o))
  }

  function LuaStep(c: Config, keep: bool, h: L.Hash, now: real, op: Op): (L.Hash, Seen) {
    var (h', answer) :=
      match op
      case Call(gap, o, duration) =>
        var (after, a) := LuaCall(c, keep, h, now + gap, o, now + gap + duration);
        (after, Some(a))
      case Look(gap) => (L.Script(c, keep, h, L.IsAvailable, now + gap).0, None)
      case ForceReset(gap) => (L.Script(c, keep, h, L.Reset, now + gap).0, None);
    (h', Seen(answer, L.Script(c, keep, h', L.IsAvailable, Ends(now, op)).1.state))
  }

  function MemoryRun(c: Config, m: M.Memory, now: real, ops: seq<Op>): (r: seq<Seen>)
    ensures |r| == |ops|
    decreases |ops|
  {
    if ops == [] then []
    else
      var (m', seen) := MemoryStep(c, m, now, ops[0]);
      [seen] + MemoryRun(c, m', Ends(now, ops[0]), ops[1..])
  }

  function LuaRun(c: Config, keep: bool, h: L.Hash, now: real, ops: seq<Op>): (r: seq<Seen>)
    ensures |r| == |ops|
    decreases |ops|
  {
    if ops == [] then []
    else
      var (h', seen) := LuaStep(c, keep, h, now, ops[0]);
      [seen] + LuaRun(c, keep, h', Ends(now, ops[0]), ops[1..])
  }

  predicate Unexpired(h: L.Hash, now: real, keep: bool) {
    h.Present? ==> L.Alive(h.deadline, now, keep)
  }

  /** No script of the operation, nor the `state()` after it, finds that the hash has expired. */
  predicate StepUnexpired(c: Config, keep: bool, h: L.Hash, now: real, op: Op) {
    && Unexpired(h, now + op.gap, keep)
    && Unexpired(L.Script(c, keep, h, L.IsAvailable, now + op.gap).0, Ends(now, op), keep)
    && Unexpired(LuaStep(c, keep, h, now, op).0, Ends(now, op), keep)
  }

  predicate NeverExpires(c: Config, keep: bool, h: L.Hash, now: real, ops: seq<Op>)
    decreases |ops|
  {
    ops == []
    || (StepUnexpired(c, keep, h, now, ops[0])
        && NeverExpires(c, keep, LuaStep(c, keep, h, now, ops[0]).0, Ends(now, ops[0]), ops[1..]))
  }

  /** The fields that the current state uses agree; the others may differ. */
  predicate Related(m: M.Memory, h: L.Hash) {
    var r := L.Read(h);
    && m.state == r.state
    && (m.state == Closed ==> m.failureCount == r.failures)
    && (m.state == HalfOpen ==> m.successCount == r.successes)
    && (m.state == Open ==> m.openedAt == Some(r.lastFailure))
  }

  lemma HalfOpeningKeepsRelated(c: Config, keep: bool, m: M.Memory, h: L.Hash, now: real)
    requires Related(m, h) && Unexpired(h, now, keep)
    ensures var (h', reply) := L.Script(c, keep, h, L.IsAvailable, now);
            && Related(M.HalfOpened(c, m, now), h')
            && reply.state == M.HalfOpened(c, m, now).state
            && (reply.flag == 0 <==> reply.state == Open)
  {
  }

  lemma RecordingKeepsRelated(c: Config, keep: bool, m: M.Memory, h: L.Hash, v: Verdict, now: real)
    requires Related(m, h) && Unexpired(h, now, keep) && m.state != Open && v != Uncounted
    ensures Related(M.AfterVerdict(c, m, v, now), L.Script(c, keep, h, L.Recording(v), now).0)
  {
  }

  lemma ResetKeepsRelated(c: Config, keep: bool, h: L.Hash, now: real)
    ensures Related(M.FRESH, L.Script(c, keep, h, L.Reset, now).0)
  {
  }

  lemma StepKeepsRelated(c: Config, keep: bool, m: M.Memory, h: L.Hash, now: real, op: Op)
    requires Related(m, h) && StepUnexpired(c, keep, h, now, op)
    ensures var (m', seenM) := MemoryStep(c, m, now, op);
            var (h', seenL) := LuaStep(c, keep, h, now, op);
            Related(m', h') && seenM == seenL
  {
    hide L.Script, M.HalfOpened, Judge, Related, Unexpired;
    ResetKeepsRelated(c, keep, h, now + op.gap);
    HalfOpeningKeepsRelated(c, keep, m, h, now + op.gap);
    if op.Call? {
      var entered, entered' := M.HalfOpened(c, m, now + op.gap), L.Script(c, keep, h, L.IsAvailable, now + op.gap).0;
      var v := Judge(c, op.outcome);
      if entered.state != Open && v != Uncounted {
        RecordingKeepsRelated(c, keep, entered, entered', v, now + op.gap + op.duration);
      }
    }
    HalfOpeningKeepsRelated(c, keep, MemoryStep(c, m, now, op).0, LuaStep(c, keep, h, now, op).0, Ends(now, op));
  }

  /** Same clock, same outcomes, hash not expired: the same answers and the same visible states throughout. */
  lemma {:induction false} Bisimilar(c: Config, keep: bool, m: M.Memory, h: L.Hash, now: real, ops: seq<Op>)
    requires Related(m, h)
    requires NeverExpires(c, keep, h, now, ops)
    ensures MemoryRun(c, m, now, ops) == LuaRun(c, keep, h, now, ops)
    decreases |ops|
  {
    if ops != [] {
      StepKeepsRelated(c, keep, m, h, now, ops[0]);
      Bisimilar(c, keep, MemoryStep(c, m, now, ops[0]).0, LuaStep(c, keep, h, now, ops[0]).0,
                Ends(now, ops[0]), ops[1..]);
    }
  }

  lemma BisimilarFromStart(c: Config, keep: bool, now: real, ops: seq<Op>)
    requires NeverExpires(c, keep, L.Absent, now, ops)
    ensures MemoryRun(c, M.FRESH, now, ops) == LuaRun(c, keep, L.Absent, now, ops)
  {
    Bisimilar(c, keep, M.FRESH, L.Absent, now, ops);
  }

  // ----- where the two part: late outcomes and expiry -----

  /**
   * Overlapping calls can settle while the breaker is open. Then the two stay in step exactly when a late
   * failure makes the in-process counter reach `failMax` or arrives at the very time of opening, and exactly
   * when a late success arrives before the timeout.
   */
  lemma LateRecordingKeepsRelatedExactly(c: Config, keep: bool, m: M.Memory, h: L.Hash, v: Verdict, now: real)
    requires Related(m, h) && Unexpired(h, now, keep) && m.state == Open && v != Uncounted
    requires c.resetTimeout > 0.0
    ensures Related(M.AfterVerdict(c, m, v, now), L.Script(c, keep, h, L.Recording(v), now).0)
            <==> if v == Failure then m.failureCount + 1 >= c.failMax || now == m.openedAt.value
                 else now < m.openedAt.value + c.resetTimeout
  {
  }

  /** When the hash expires the two stay in step exactly when the in-process breaker is closed with no failures. */
  lemma ExpiryKeepsRelatedExactly(m: M.Memory, h: L.Hash, now: real, keep: bool)
    requires Related(m, h) && h.Present? && !Unexpired(h, now, keep)
    ensures Related(m, L.Found(h, now, keep)) <==> m.state == Closed && m.failureCount == 0
  {
  }

  /** An idle hash forgets one failure of two; the in-process breaker does not, and opens on the next. */
  lemma ExpiryIsVisible(keep: bool, e: Exc)
    requires !IsInstance(e, CANCELLED)
    ensures var c := Config(2, 1.0, 1, []);
            var ops := [Call(0.0, Raised(e), 0.0), Call(11.0, Raised(e), 0.0)];
            MemoryRun(c, M.FRESH, 0.0, ops)[1].state == Open
            && LuaRun(c, keep, L.Absent, 0.0, ops)[1].state == Closed
  {
    var c := Config(2, 1.0, 1, []);
    var op1, op2 := Call(0.0, Raised(e), 0.0), Call(11.0, Raised(e), 0.0);
    assert [op1, op2][1..] == [op2];
    assert MemoryRun(c, M.FRESH, 0.0, [op1, op2])[1] == MemoryStep(c, MemoryStep(c, M.FRESH, 0.0, op1).0, 0.0, op2).1;
    assert L.Ttl(c) == 10.0;
    var h := LuaStep(c, keep, L.Absent, 0.0, op1).0;
    assert h == L.Present(Closed, 1, 0, 0.0, 10.0);
    assert LuaRun(c, keep, L.Absent, 0.0, [op1, op2])[1] == LuaStep(c, keep, h, 0.0, op2).1;
  }
}
