/** What a caller can see of the difference between the two breakers, and overlapping calls around both. */
module BreakerEquivalence {
  import opened Prelude
  import opened Exceptions
  import opened BreakerTypes
  import opened BreakerBisimulation
  import BreakerRuns
  import M = MemoryBreaker
  import L = LuaBreaker

  predicate ValidConfig(c: Config) {
    c.failMax >= 1 && c.successThreshold >= 1 && c.resetTimeout > 0.0
  }

  // ----- what every reachable state satisfies -----

  predicate SoundMemory(c: Config, m: M.Memory) {
    && (m.state == Closed ==> 0 <= m.failureCount < c.failMax)
    && (m.state == HalfOpen ==> 0 <= m.successCount < c.successThreshold)
    && (m.state == Open ==> m.openedAt.Some?)
  }

  predicate SoundHash(c: Config, h: L.Hash, now: real) {
    h.Present? ==>
      && (h.state == Closed ==> 0 <= h.failures < c.failMax)
      && (h.state == HalfOpen ==> 0 <= h.successes < c.successThreshold)
      && (h.state == Open ==> h.lastFailure <= now && h.deadline >= h.lastFailure + L.Ttl(c))
  }

  lemma MemoryRunsAreSound(c: Config, start: real, es: seq<BreakerRuns.Event>)
    requires ValidConfig(c)
    ensures SoundMemory(c, BreakerRuns.Run(c, start, es).breaker)
  {
    hide BreakerRuns.Run;
    BreakerRuns.CountersExactAlways(c, start, es);
  }

  lemma ScriptKeepsSound(c: Config, keep: bool, h: L.Hash, a: L.Action, before: real, now: real)
    requires ValidConfig(c) && SoundHash(c, h, before) && before <= now
    ensures SoundHash(c, L.Script(c, keep, h, a, now).0, now)
  {
    hide L.Ttl;
  }

  lemma NextKeepsSound(c: Config, keep: bool, s: L.Clocked, e: L.Invocation)
    requires ValidConfig(c) && SoundHash(c, s.hash, s.now)
    ensures SoundHash(c, L.Next(c, keep, s, e).hash, L.Next(c, keep, s, e).now)
  {
    hide L.Script, SoundHash;
    ScriptKeepsSound(c, keep, s.hash, e.action, s.now, s.now + e.gap);
  }

  lemma {:induction false} HashRunsAreSound(c: Config, keep: bool, start: real, es: seq<L.Invocation>)
    requires ValidConfig(c)
    ensures SoundHash(c, L.Run(c, keep, start, es).hash, L.Run(c, keep, start, es).now)
  {
    if es != [] {
      hide L.Next, SoundHash;
      HashRunsAreSound(c, keep, start, es[..|es| - 1]);
      NextKeepsSound(c, keep, L.Run(c, keep, start, es[..|es| - 1]), es[|es| - 1]);
    }
  }

  /** A rejection says how long: the next question is answered yes exactly when it comes no sooner than `remaining`. */
  lemma RemainingIsExact(c: Config, keep: bool, h: L.Hash, before: real, now: real, wait: Duration)
    requires ValidConfig(c) && SoundHash(c, h, before) && before <= now
    requires L.Script(c, keep, h, L.IsAvailable, now).1.flag == 0
    ensures var (h', reply) := L.Script(c, keep, h, L.IsAvailable, now);
            && reply.state == Open && reply.remaining > 0.0
            && (L.Script(c, keep, h', L.IsAvailable, now + wait).1.flag == 1 <==> wait >= reply.remaining)
  {
    TtlPositive(c);
    hide L.Ttl;
  }

  /** The reply to a recorded outcome tells the state that a question at once would tell, and how long it is shut. */
  lemma RecordRepliesState(c: Config, keep: bool, h: L.Hash, a: L.Action, now: real)
    requires ValidConfig(c)
    ensures var (h', reply) := L.Script(c, keep, h, a, now);
            var next := L.Script(c, keep, h', L.IsAvailable, now).1;
            && reply.state == next.state
            && (a == L.RecordFailure ==> reply.remaining == next.remaining)
            && (a == L.IsAvailable ==> reply == next)
  {
    TtlPositive(c);
    hide L.Ttl;
  }

  // ----- one continuation that tells two states apart -----

  /** Nothing is left to do for a look at `now`. */
  predicate Settled(c: Config, keep: bool, m: M.Memory, h: L.Hash, now: real) {
    M.HalfOpened(c, m, now) == m && L.HalfOpened(c, h, now) == h && Unexpired(h, now, keep)
  }

  /** No sequential run that the hash outlives makes a difference. */
  ghost predicate Alike(c: Config, keep: bool, m: M.Memory, h: L.Hash, now: real) {
    forall ops :: NeverExpires(c, keep, h, now, ops) ==> MemoryRun(c, m, now, ops) == LuaRun(c, keep, h, now, ops)
  }

  ghost predicate TellsApart(c: Config, keep: bool, m: M.Memory, h: L.Hash, now: real, ops: seq<Op>) {
    NeverExpires(c, keep, h, now, ops) && MemoryRun(c, m, now, ops) != LuaRun(c, keep, h, now, ops)
  }

  lemma OneStepTellsApart(c: Config, keep: bool, m: M.Memory, h: L.Hash, now: real, op: Op)
    requires StepUnexpired(c, keep, h, now, op)
    requires MemoryStep(c, m, now, op).1 != LuaStep(c, keep, h, now, op).1
    ensures TellsApart(c, keep, m, h, now, [op])
  {
    hide MemoryStep, LuaStep, StepUnexpired;
    assert [op][1..] == [];
    assert NeverExpires(c, keep, LuaStep(c, keep, h, now, op).0, Ends(now, op), []);
    assert MemoryRun(c, m, now, [op])[0] == MemoryStep(c, m, now, op).1;
    assert LuaRun(c, keep, h, now, [op])[0] == LuaStep(c, keep, h, now, op).1;
  }

  lemma LaterTellsApart(c: Config, keep: bool, m: M.Memory, h: L.Hash, now: real, op: Op, ops: seq<Op>)
    requires StepUnexpired(c, keep, h, now, op)
    requires TellsApart(c, keep, MemoryStep(c, m, now, op).0, LuaStep(c, keep, h, now, op).0, Ends(now, op), ops)
    ensures TellsApart(c, keep, m, h, now, [op] + ops)
  {
    hide MemoryStep, LuaStep, StepUnexpired, Ends;
    assert ([op] + ops)[1..] == ops;
    assert MemoryRun(c, m, now, [op] + ops)[1..] == MemoryRun(c, MemoryStep(c, m, now, op).0, Ends(now, op), ops);
    assert LuaRun(c, keep, h, now, [op] + ops)[1..] == LuaRun(c, keep, LuaStep(c, keep, h, now, op).0, Ends(now, op), ops);
  }

  /** A call at once that fails, or succeeds. */
  function Now(o: Outcome): Op {
    Call(0.0, o, 0.0)
  }

  /** What one failing call does to both breakers while they are closed. */
  lemma FailingCall(c: Config, keep: bool, m: M.Memory, h: L.Hash, now: real, o: Outcome)
    requires ValidConfig(c) && Judge(c, o) == Failure
    requires Settled(c, keep, m, h, now) && m.state == Closed && L.Read(h).state == Closed
    ensures var m', h' := MemoryStep(c, m, now, Now(o)).0, LuaStep(c, keep, h, now, Now(o)).0;
            && StepUnexpired(c, keep, h, now, Now(o)) && Settled(c, keep, m', h', now) && Ends(now, Now(o)) == now
            && m' == M.AfterFailure(c, m, now) && h' == L.AfterFailure(c, h, now)
            && MemoryStep(c, m, now, Now(o)).1.state == m'.state
            && LuaStep(c, keep, h, now, Now(o)).1.state == L.Read(h').state
  {
    assert L.Ttl(c) > 0.0 by { TtlPositive(c); }
    hide Judge, L.Ttl;
  }

  lemma TtlPositive(c: Config)
    requires c.resetTimeout > 0.0
    ensures L.Ttl(c) >= 10.0 * c.resetTimeout > 0.0
  {
  }

  lemma SucceedingCall(c: Config, keep: bool, m: M.Memory, h: L.Hash, now: real, o: Outcome)
    requires ValidConfig(c) && Judge(c, o) == Success
    requires Settled(c, keep, m, h, now) && m.state == HalfOpen && L.Read(h).state == HalfOpen
    ensures var m', h' := MemoryStep(c, m, now, Now(o)).0, LuaStep(c, keep, h, now, Now(o)).0;
            && StepUnexpired(c, keep, h, now, Now(o)) && Settled(c, keep, m', h', now) && Ends(now, Now(o)) == now
            && m' == M.AfterSuccess(c, m) && h' == L.AfterSuccess(c, h, now)
            && MemoryStep(c, m, now, Now(o)).1.state == m'.state
            && LuaStep(c, keep, h, now, Now(o)).1.state == L.Read(h').state
  {
    assert L.Ttl(c) > 0.0 by { TtlPositive(c); }
    hide Judge, L.Ttl;
  }

  /** Two closed breakers with different counts: after enough failures one opens before the other. */
  lemma {:induction false} FailuresTellApart(c: Config, keep: bool, m: M.Memory, h: L.Hash, now: real, o: Outcome)
    returns (ops: seq<Op>)
    requires ValidConfig(c) && Judge(c, o) == Failure && Settled(c, keep, m, h, now)
    requires m.state == Closed && L.Read(h).state == Closed && m.failureCount != L.Read(h).failures
    requires m.failureCount < c.failMax && L.Read(h).failures < c.failMax
    ensures TellsApart(c, keep, m, h, now, ops)
    decreases c.failMax - m.failureCount
  {
    FailingCall(c, keep, m, h, now, o);
    hide MemoryStep, LuaStep, StepUnexpired, TellsApart, Settled, Judge, Ends;
    var most := Max(m.failureCount, L.Read(h).failures);
    if most + 1 >= c.failMax {
      ops := [Now(o)];
      OneStepTellsApart(c, keep, m, h, now, Now(o));
    } else {
      var m', h' := MemoryStep(c, m, now, Now(o)).0, LuaStep(c, keep, h, now, Now(o)).0;
      var rest := FailuresTellApart(c, keep, m', h', now, o);
      ops := [Now(o)] + rest;
      LaterTellsApart(c, keep, m, h, now, Now(o), rest);
    }
  }

  /** Two half-open breakers with different counts: after enough successes one closes before the other. */
  lemma {:induction false} SuccessesTellApart(c: Config, keep: bool, m: M.Memory, h: L.Hash, now: real)
    returns (ops: seq<Op>)
    requires ValidConfig(c) && Settled(c, keep, m, h, now)
    requires m.state == HalfOpen && L.Read(h).state == HalfOpen && m.successCount != L.Read(h).successes
    requires m.successCount < c.successThreshold && L.Read(h).successes < c.successThreshold
    ensures TellsApart(c, keep, m, h, now, ops)
    decreases c.successThreshold - m.successCount
  {
    var op := Now(Returned(PyNone));
    SucceedingCall(c, keep, m, h, now, Returned(PyNone));
    hide MemoryStep, LuaStep, StepUnexpired, TellsApart, Settled, Ends;
    var most := Max(m.successCount, L.Read(h).successes);
    if most + 1 >= c.successThreshold {
      ops := [op];
      OneStepTellsApart(c, keep, m, h, now, op);
    } else {
      var m', h' := MemoryStep(c, m, now, op).0, LuaStep(c, keep, h, now, op).0;
      var rest := SuccessesTellApart(c, keep, m', h', now);
      ops := [op] + rest;
      LaterTellsApart(c, keep, m, h, now, op, rest);
    }
  }

  /** Two open breakers that opened at different times: a look when the first timeout ends. */
  lemma TimeTellsApart(c: Config, keep: bool, m: M.Memory, h: L.Hash, now: real) returns (ops: seq<Op>)
    requires ValidConfig(c) && Settled(c, keep, m, h, now) && SoundHash(c, h, now)
    requires m.state == Open && L.Read(h).state == Open && m.openedAt.Some? && m.openedAt.value != L.Read(h).lastFailure
    ensures TellsApart(c, keep, m, h, now, ops)
  {
    TtlPositive(c);
    hide TellsApart, L.Ttl;
    var gap := MinReal(m.openedAt.value, L.Read(h).lastFailure) + c.resetTimeout - now;
    ops := [Op.Look(gap)];
    OneStepTellsApart(c, keep, m, h, now, Op.Look(gap));
  }

  lemma StateTellsApart(c: Config, keep: bool, m: M.Memory, h: L.Hash, now: real)
    requires Settled(c, keep, m, h, now) && m.state != L.Read(h).state
    ensures TellsApart(c, keep, m, h, now, [Op.Look(0.0)])
  {
    hide TellsApart, L.Ttl;
    OneStepTellsApart(c, keep, m, h, now, Op.Look(0.0));
  }

  /** The relation is what a caller can observe: related states are alike, and others are told apart by some run. */
  lemma RelatedExactlyWhenAlike(c: Config, keep: bool, m: M.Memory, h: L.Hash, now: real, o: Outcome)
    requires ValidConfig(c) && Judge(c, o) == Failure
    requires SoundMemory(c, m) && SoundHash(c, h, now) && Settled(c, keep, m, h, now)
    ensures Related(m, h) <==> Alike(c, keep, m, h, now)
  {
    if Related(m, h) {
      hide MemoryRun, LuaRun, NeverExpires, Related;
      forall ops | NeverExpires(c, keep, h, now, ops)
        ensures MemoryRun(c, m, now, ops) == LuaRun(c, keep, h, now, ops)
      {
        Bisimilar(c, keep, m, h, now, ops);
      }
    } else {
      hide MemoryRun, LuaRun, NeverExpires, Settled, Judge;
      if m.state != L.Read(h).state {
        StateTellsApart(c, keep, m, h, now);
      } else if m.state == Closed {
        var ops := FailuresTellApart(c, keep, m, h, now, o);
      } else if m.state == HalfOpen {
        var ops := SuccessesTellApart(c, keep, m, h, now);
      } else {
        var ops := TimeTellsApart(c, keep, m, h, now);
      }
    }
  }

  /** A late outcome, once both have been looked at again, makes a difference to callers unless it comes so. */
  lemma LateRecordingAlikeExactly(c: Config, keep: bool, m: M.Memory, h: L.Hash, v: Verdict, now: real, o: Outcome)
    requires ValidConfig(c) && Judge(c, o) == Failure && v != Uncounted
    requires Related(m, h) && SoundHash(c, h, now) && Unexpired(h, now, keep)
    requires m.state == Open && m.openedAt.value <= now
    ensures Alike(c, keep, M.HalfOpened(c, M.AfterVerdict(c, m, v, now), now),
                  L.HalfOpened(c, L.Script(c, keep, h, L.Recording(v), now).0, now), now)
            <==> LateInStep(c, m, v, now)
  {
    TtlPositive(c);
    hide Judge, Alike, L.Ttl;
    var m' := M.HalfOpened(c, M.AfterVerdict(c, m, v, now), now);
    var h' := L.HalfOpened(c, L.Script(c, keep, h, L.Recording(v), now).0, now);
    RelatedExactlyWhenAlike(c, keep, m', h', now, o);
  }

  predicate LateInStep(c: Config, m: M.Memory, v: Verdict, now: real)
    requires m.openedAt.Some?
  {
    if v == Failure then m.failureCount + 1 >= c.failMax || now == m.openedAt.value
    else now < m.openedAt.value + c.resetTimeout
  }

  /** An expiry makes a difference to callers unless the in-process breaker is closed with no failures. */
  lemma ExpiryAlikeExactly(c: Config, keep: bool, m: M.Memory, h: L.Hash, now: real, o: Outcome)
    requires ValidConfig(c) && Judge(c, o) == Failure
    requires Related(m, h) && SoundMemory(c, m) && h.Present? && !Unexpired(h, now, keep)
    ensures Alike(c, keep, M.HalfOpened(c, m, now), L.Found(h, now, keep), now)
            <==> m.state == Closed && m.failureCount == 0
  {
    hide Judge, Alike, L.Ttl;
    RelatedExactlyWhenAlike(c, keep, M.HalfOpened(c, m, now), L.Found(h, now, keep), now, o);
  }

  // ----- overlapping calls -----

  /** What happens around both breakers: a call arrives, one of those running ends, somebody looks or resets. */
  datatype Move = Enter(id: nat) | Leave(id: nat, outcome: Outcome) | Observe | Clear | Tick(gap: Duration)

  /** What a move shows: whether it let a call in, and the state that `state()` would report after it. */
  datatype Sight = Sight(admitted: bool, state: BreakerState)

  /** Each breaker with the calls it let in that have not ended, and what it has shown so far. */
  datatype Side<B> = Side(breaker: B, running: set<nat>, seen: seq<Sight>)

  datatype Pair = Pair(memory: Side<M.Memory>, hash: Side<L.Hash>, now: real)

  function MemoryMove(c: Config, s: Side<M.Memory>, now: real, move: Move): Side<M.Memory> {
    var entered := M.HalfOpened(c, s.breaker, now);
    var lets := move.Enter? && entered.state != Open;
    var b :=
      match move
      case Enter(_) => entered
      case Leave(id, o) => if id in s.running then M.AfterVerdict(c, s.breaker, Judge(c, o), now) else s.breaker
      case Observe => entered
      case Clear => M.FRESH
      case Tick(_) => s.breaker;
    var running :=
      match move
      case Enter(id) => if lets then s.running + {id} else s.running
      case Leave(id, _) => s.running - {id}
      case _ => s.running;
    Side(b, running, s.seen + [Sight(lets, M.HalfOpened(c, b, now).state)])
  }

  function HashMove(c: Config, keep: bool, s: Side<L.Hash>, now: real, move: Move): Side<L.Hash> {
    var (entered, reply) := L.Script(c, keep, s.breaker, L.IsAvailable, now);
    var lets := move.Enter? && reply.flag != 0;
    var h :=
      match move
      case Enter(_) => entered
      case Leave(id, o) => if id in s.running then Recorded(c, keep, s.breaker, Judge(c, o), now) else s.breaker
      case Observe => entered
      case Clear => L.Script(c, keep, s.breaker, L.Reset, now).0
      case Tick(_) => s.breaker;
    var running :=
      match move
      case Enter(id) => if lets then s.running + {id} else s.running
      case Leave(id, _) => s.running - {id}
      case _ => s.running;
    Side(h, running, s.seen + [Sight(lets, L.Script(c, keep, h, L.IsAvailable, now).1.state)])
  }

  function Recorded(c: Config, keep: bool, h: L.Hash, v: Verdict, now: real): L.Hash {
    if v == Uncounted then h else L.Script(c, keep, h, L.Recording(v), now).0
  }

  function Moved(c: Config, keep: bool, p: Pair, move: Move): Pair {
    var now := p.now + if move.Tick? then move.gap else 0.0;
    Pair(MemoryMove(c, p.memory, now, move), HashMove(c, keep, p.hash, now, move), now)
  }

  /** Both breakers from the start, under the same moves; calls may overlap in any way. */
  function Both(c: Config, keep: bool, start: real, moves: seq<Move>): Pair {
    if moves == [] then Pair(Side(M.FRESH, {}, []), Side(L.Absent, {}, []), start)
    else Moved(c, keep, Both(c, keep, start, moves[..|moves| - 1]), moves[|moves| - 1])
  }

  /** The move finds the hash not expired, and if it ends a call late it does so in a way that does no harm. */
  predicate Harmless(c: Config, keep: bool, p: Pair, move: Move) {
    && Unexpired(p.hash.breaker, p.now + (if move.Tick? then move.gap else 0.0), keep)
    && (move.Leave? && move.id in p.memory.running && p.memory.breaker.state == Open
        && Judge(c, move.outcome) != Uncounted ==>
          p.memory.breaker.openedAt.Some? && LateInStep(c, p.memory.breaker, Judge(c, move.outcome), p.now))
  }

  predicate AllHarmless(c: Config, keep: bool, start: real, moves: seq<Move>) {
    moves == []
    || (AllHarmless(c, keep, start, moves[..|moves| - 1])
        && Harmless(c, keep, Both(c, keep, start, moves[..|moves| - 1]), moves[|moves| - 1]))
  }

  predicate InStep(p: Pair) {
    Related(p.memory.breaker, p.hash.breaker) && p.memory.running == p.hash.running && p.memory.seen == p.hash.seen
  }

  lemma LeaveInStep(c: Config, keep: bool, m: M.Memory, h: L.Hash, v: Verdict, now: real)
    requires c.resetTimeout > 0.0 && Related(m, h) && Unexpired(h, now, keep)
    requires m.state == Open && v != Uncounted ==> m.openedAt.Some? && LateInStep(c, m, v, now)
    ensures Related(M.AfterVerdict(c, m, v, now), Recorded(c, keep, h, v, now))
  {
    hide L.Script, Related, Unexpired;
    if v != Uncounted {
      if m.state == Open {
        LateRecordingKeepsRelatedExactly(c, keep, m, h, v, now);
      } else {
        RecordingKeepsRelated(c, keep, m, h, v, now);
      }
    }
  }

  lemma StillUnexpired(c: Config, keep: bool, h: L.Hash, a: L.Action, now: real)
    requires c.resetTimeout > 0.0 && Unexpired(h, now, keep)
    ensures Unexpired(L.Script(c, keep, h, a, now).0, now, keep)
  {
    TtlPositive(c);
    hide L.Ttl;
  }

  lemma MoveInStep(c: Config, keep: bool, p: Pair, move: Move)
    requires c.resetTimeout > 0.0 && InStep(p) && Harmless(c, keep, p, move)
    ensures InStep(Moved(c, keep, p, move))
  {
    var now := p.now + if move.Tick? then move.gap else 0.0;
    var m, h := p.memory.breaker, p.hash.breaker;
    var m', h' := MemoryMove(c, p.memory, now, move).breaker, HashMove(c, keep, p.hash, now, move).breaker;
    assert Related(m', h') && Unexpired(h', now, keep) by {
      HalfOpeningKeepsRelated(c, keep, m, h, now);
      StillUnexpired(c, keep, h, L.IsAvailable, now);
      StillUnexpired(c, keep, h, L.Reset, now);
      hide L.Script, Related, Unexpired, M.HalfOpened;
      if move.Leave? && move.id in p.memory.running {
        LeaveInStep(c, keep, m, h, Judge(c, move.outcome), now);
        if Judge(c, move.outcome) != Uncounted {
          StillUnexpired(c, keep, h, L.Recording(Judge(c, move.outcome)), now);
        }
      }
      ResetKeepsRelated(c, keep, h, now);
    }
    hide L.Script, Related, Unexpired, M.HalfOpened, Recorded;
    HalfOpeningKeepsRelated(c, keep, m, h, now);
    HalfOpeningKeepsRelated(c, keep, m', h', now);
  }

  /** Overlapping calls, too, see the same answers and states, as long as late outcomes and expiry do no harm. */
  lemma {:induction false} OverlappingBisimilar(c: Config, keep: bool, start: real, moves: seq<Move>)
    requires c.resetTimeout > 0.0 && AllHarmless(c, keep, start, moves)
    ensures Both(c, keep, start, moves).memory.seen == Both(c, keep, start, moves).hash.seen
    ensures InStep(Both(c, keep, start, moves))
  {
    if moves != [] {
      hide Moved, Harmless, Related;
      OverlappingBisimilar(c, keep, start, moves[..|moves| - 1]);
      MoveInStep(c, keep, Both(c, keep, start, moves[..|moves| - 1]), moves[|moves| - 1]);
    }
  }

  // ----- a run on which the two part -----

  lemma BothAppend(c: Config, keep: bool, start: real, moves: seq<Move>, move: Move)
    ensures Both(c, keep, start, moves + [move]) == Moved(c, keep, Both(c, keep, start, moves), move)
  {
    hide Moved;
    assert (moves + [move])[..|moves|] == moves;
  }

  /** The breakers, the calls running around both, and the time; what was seen so far does not matter. */
  predicate Stands(p: Pair, m: M.Memory, h: L.Hash, running: set<nat>, now: real) {
    && p.memory.breaker == m && p.hash.breaker == h && p.now == now
    && p.memory.running == running && p.hash.running == running
  }

  lemma EnterFresh(c: Config, keep: bool, p: Pair, id: nat, running: set<nat>)
    requires Stands(p, M.FRESH, L.Absent, running, 0.0)
    ensures Stands(Moved(c, keep, p, Enter(id)), M.FRESH, L.Absent, running + {id}, 0.0)
  {
  }

  /** The first two failures open both, at the same time. */
  lemma TwoFailures(c: Config, keep: bool, p: Pair, o: Outcome)
    requires c.failMax == 2 && c.resetTimeout > 0.0 && Judge(c, o) == Failure
    requires Stands(p, M.FRESH, L.Absent, {0, 1, 2}, 0.0)
    ensures Stands(Moved(c, keep, Moved(c, keep, p, Leave(0, o)), Leave(1, o)),
                   M.Tripped(0.0), L.Present(Open, 2, 0, 0.0, L.Ttl(c)), {2}, 0.0)
  {
    TtlPositive(c);
    hide Judge, L.Ttl;
    var q := Moved(c, keep, p, Leave(0, o));
    assert {0, 1, 2} - {0} == {1, 2} && {1, 2} - {1} == {2};
    assert Stands(q, M.FRESH.(failureCount := 1), L.Present(Closed, 1, 0, 0.0, L.Ttl(c)), {1, 2}, 0.0);
  }

  /** The third comes in half a timeout later: Redis takes it for the time of opening, the other does not. */
  lemma LateFailure(c: Config, keep: bool, p: Pair, o: Outcome)
    requires c.failMax == 2 && c.resetTimeout > 0.0 && Judge(c, o) == Failure
    requires Stands(p, M.Tripped(0.0), L.Present(Open, 2, 0, 0.0, L.Ttl(c)), {2}, 0.0)
    ensures var half := c.resetTimeout / 2.0;
            var q := Moved(c, keep, Moved(c, keep, p, Tick(half)), Leave(2, o));
            Stands(q, M.Tripped(0.0).(failureCount := 1), L.Present(Open, 3, 0, half, half + L.Ttl(c)), {}, half)
  {
    TtlPositive(c);
    hide Judge, L.Ttl;
    assert {2} - {2} == {};
  }

  lemma NextCall(c: Config, keep: bool, p: Pair)
    requires c.resetTimeout > 0.0
    requires var half := c.resetTimeout / 2.0;
             Stands(p, M.Tripped(0.0).(failureCount := 1), L.Present(Open, 3, 0, half, half + L.Ttl(c)), {}, half)
    ensures var q := Moved(c, keep, Moved(c, keep, p, Tick(c.resetTimeout / 2.0)), Enter(3));
            && q.memory.seen[|q.memory.seen| - 1] == Sight(true, HalfOpen)
            && q.hash.seen[|q.hash.seen| - 1] == Sight(false, Open)
  {
    TtlPositive(c);
    hide L.Ttl;
  }

  function LateFailureMoves(half: Duration, o: Outcome): seq<Move> {
    [Enter(0), Enter(1), Enter(2), Leave(0, o), Leave(1, o), Tick(half), Leave(2, o), Tick(half), Enter(3)]
  }

  /** Three calls overlap, two failures open both breakers, the third is late: the next call is let in by one only. */
  lemma LateFailureIsVisible(c: Config, keep: bool, o: Outcome)
    requires c.failMax == 2 && c.resetTimeout > 0.0 && Judge(c, o) == Failure
    ensures var p := Both(c, keep, 0.0, LateFailureMoves(c.resetTimeout / 2.0, o));
            && p.memory.seen[|p.memory.seen| - 1] == Sight(true, HalfOpen)
            && p.hash.seen[|p.hash.seen| - 1] == Sight(false, Open)
  {
    hide Both, Moved, Judge, L.Ttl, LateFailureMoves;
    var half: Duration := c.resetTimeout / 2.0;
    var m0 := [] + [Enter(0)];
    var m3 := m0 + [Enter(1)] + [Enter(2)];
    var m5 := m3 + [Leave(0, o)] + [Leave(1, o)];
    var m7 := m5 + [Tick(half)] + [Leave(2, o)];
    var m9 := m7 + [Tick(half)] + [Enter(3)];
    assert m9 == LateFailureMoves(half, o) by { MovesAre(half, o); }
    Beginning(c, keep);
    BothAppend(c, keep, 0.0, [], Enter(0));
    BothAppend(c, keep, 0.0, m0, Enter(1));
    BothAppend(c, keep, 0.0, m0 + [Enter(1)], Enter(2));
    EnterFresh(c, keep, Both(c, keep, 0.0, []), 0, {});
    EnterFresh(c, keep, Both(c, keep, 0.0, m0), 1, {} + {0});
    EnterFresh(c, keep, Both(c, keep, 0.0, m0 + [Enter(1)]), 2, {} + {0} + {1});
    assert {} + {0} + {1} + {2} == {0, 1, 2};
    BothAppend(c, keep, 0.0, m3, Leave(0, o));
    BothAppend(c, keep, 0.0, m3 + [Leave(0, o)], Leave(1, o));
    TwoFailures(c, keep, Both(c, keep, 0.0, m3), o);
    BothAppend(c, keep, 0.0, m5, Tick(half));
    BothAppend(c, keep, 0.0, m5 + [Tick(half)], Leave(2, o));
    LateFailure(c, keep, Both(c, keep, 0.0, m5), o);
    BothAppend(c, keep, 0.0, m7, Tick(half));
    BothAppend(c, keep, 0.0, m7 + [Tick(half)], Enter(3));
    NextCall(c, keep, Both(c, keep, 0.0, m7));
  }

  lemma Beginning(c: Config, keep: bool)
    ensures Stands(Both(c, keep, 0.0, []), M.FRESH, L.Absent, {}, 0.0)
  {
  }

  lemma MovesAre(half: Duration, o: Outcome)
    ensures LateFailureMoves(half, o)
            == ((([] + [Enter(0)]) + [Enter(1)] + [Enter(2)]) + [Leave(0, o)] + [Leave(1, o)])
               + [Tick(half)] + [Leave(2, o)] + [Tick(half)] + [Enter(3)]
  {
  }
}
