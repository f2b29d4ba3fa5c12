/** Calls in flight around one Redis breaker, interleaved at every await, while Redis may fail at any command. */
module RedisBreakerRuns {
  import opened Prelude
  import opened BreakerTypes
  import opened Exceptions
  import opened RedisBreaker
  import B = BreakerBisimulation
  import M = MemoryBreaker
  import L = LuaBreaker

  datatype Phase =
    | Entering | FallbackEntering | FallbackAtGate
    | RunningPrimary | RunningFallback
    | Done(answer: Answer)

  /** `awaited` counts how often the call's function was awaited, `produced` is what it did. */
  datatype InFlight = InFlight(phase: Phase, awaited: nat, produced: Option<Outcome>, refused: bool)

  /** Every script that Redis executed, and every locked section of the fallback, with the coroutine it served. */
  datatype Entry = Entry(id: nat, action: L.Action, at: real)
  datatype Section = HalfOpening | Recorded(v: Verdict) | Cleared
  datatype FallbackEntry = FallbackEntry(id: nat, section: Section, at: real)

  /** `resetting` and `looking` are the coroutines that still have the fallback's half of `reset` or `state` before them. */
  datatype System = System(
    backend: Backend, calls: map<nat, InFlight>, resetting: set<nat>, looking: set<nat>, now: real,
    primary: seq<Entry>, secondary: seq<FallbackEntry>)

  datatype Event =
    | Arrive(id: nat)
    | Enter(id: nat, link: Link)
    | TryHalfOpen(id: nat)
    | PassGate(id: nat)
    | Settle(id: nat, outcome: Outcome, link: Link)
    | ResetScript(id: nat, link: Link)
    | ResetFallback(id: nat)
    | Look(id: nat, link: Link)
    | LookFallback(id: nat)
    | Ping(pong: bool)
    | HealthCheck(pong: bool)
    | Tick(gap: Duration)

  predicate InPhase(s: System, id: nat, p: Phase) {
    id in s.calls && s.calls[id].phase == p
  }

  function ReplyOf(c: Config, keep: bool, s: System, a: L.Action, link: Link): Option<L.Reply> {
    Eval(c, keep, s.backend, a, link, s.now).1
  }

  /** A script run for a coroutine, with its entry in the log if Redis executed it. */
  function Evaluated(c: Config, keep: bool, s: System, id: nat, a: L.Action, link: Link): System {
    s.(backend := Eval(c, keep, s.backend, a, link, s.now).0,
       primary := s.primary + if link == Refused then [] else [Entry(id, a, s.now)])
  }

  function ApplySection(c: Config, m: M.Memory, section: Section, at: real): M.Memory {
    match section
    case HalfOpening => M.HalfOpened(c, m, at)
    case Recorded(v) => M.AfterVerdict(c, m, v, at)
    case Cleared => M.FRESH
  }

  /** A locked section of the fallback. */
  function OnFallback(c: Config, s: System, id: nat, section: Section): System {
    s.(backend := s.backend.(fallback := ApplySection(c, s.backend.fallback, section, s.now)),
       secondary := s.secondary + [FallbackEntry(id, section, s.now)])
  }

  function At(s: System, id: nat, call: InFlight): System {
    s.(calls := s.calls[id := call])
  }

  /** Where a call goes on once `is_available` has been answered, or has failed. */
  function AfterReply(k: InFlight, reply: Option<L.Reply>): InFlight {
    if reply == None then k.(phase := FallbackEntering)
    else if reply.value.flag == 0 then k.(phase := Done(Unavailable))
    else k.(phase := RunningPrimary, awaited := k.awaited + 1)
  }

  function Entered(c: Config, keep: bool, s: System, id: nat, link: Link): System {
    if !InPhase(s, id, Entering) then s
    else if !s.backend.healthy then At(s, id, s.calls[id].(phase := FallbackEntering))
    else At(Evaluated(c, keep, s, id, L.IsAvailable, link), id,
            AfterReply(s.calls[id], ReplyOf(c, keep, s, L.IsAvailable, link)))
  }

  function Passed(s: System, id: nat): System {
    if !InPhase(s, id, FallbackAtGate) then s
    else if s.backend.fallback.state == Open then At(s, id, s.calls[id].(phase := Done(Unavailable)))
    else At(s, id, s.calls[id].(phase := RunningFallback, awaited := s.calls[id].awaited + 1))
  }

  function Settled(c: Config, keep: bool, s: System, id: nat, o: Outcome, link: Link): System {
    if !InPhase(s, id, RunningPrimary) && !InPhase(s, id, RunningFallback) then s
    else
      var k := s.calls[id].(phase := Done(Delivered(o)), produced := Some(o));
      var v := Judge(c, o);
      if v == Uncounted then At(s, id, k)
      else if s.calls[id].phase == RunningFallback then At(OnFallback(c, s, id, Recorded(v)), id, k)
      else At(Evaluated(c, keep, s, id, L.Recording(v), link), id, k.(refused := link == Refused))
  }

  /** `state`: the script while healthy, and the fallback when it is not or the script fails. */
  function Looked(c: Config, keep: bool, s: System, id: nat, link: Link): System {
    if id in s.looking then s
    else if !s.backend.healthy then s.(looking := s.looking + {id})
    else
      var s' := Evaluated(c, keep, s, id, L.IsAvailable, link);
      if link == Answered then s' else s'.(looking := s'.looking + {id})
  }

  /** One step of one coroutine. An event that is not enabled changes nothing. */
  function Next(c: Config, keep: bool, s: System, e: Event): System {
    match e
    case Arrive(id) => if id in s.calls then s else At(s, id, InFlight(Entering, 0, None, false))
    case Enter(id, link) => Entered(c, keep, s, id, link)
    case TryHalfOpen(id) =>
      if InPhase(s, id, FallbackEntering)
      then At(OnFallback(c, s, id, HalfOpening), id, s.calls[id].(phase := FallbackAtGate))
      else s
    case PassGate(id) => Passed(s, id)
    case Settle(id, o, link) => Settled(c, keep, s, id, o, link)
    case ResetScript(id, link) =>
      if id in s.resetting then s
      else Evaluated(c, keep, s, id, L.Reset, link).(resetting := s.resetting + {id})
    case ResetFallback(id) =>
      if id in s.resetting then OnFallback(c, s, id, Cleared).(resetting := s.resetting - {id}) else s
    case Look(id, link) => Looked(c, keep, s, id, link)
    case LookFallback(id) =>
      if id in s.looking then OnFallback(c, s, id, HalfOpening).(looking := s.looking - {id}) else s
    case Ping(pong) => s.(backend := Recover(s.backend, pong))
    case HealthCheck(pong) => if pong then s else s.(backend := MarkDegraded(s.backend, s.now))
    case Tick(gap) => s.(now := s.now + gap)
  }

  function Run(c: Config, keep: bool, start: real, es: seq<Event>): System {
    if es == [] then System(INITIAL, map[], {}, {}, start, [], [])
    else Next(c, keep, Run(c, keep, start, es[..|es| - 1]), es[|es| - 1])
  }

  lemma RunStep(c: Config, keep: bool, start: real, es: seq<Event>, i: nat)
    requires i < |es|
    ensures Run(c, keep, start, es[..i + 1]) == Next(c, keep, Run(c, keep, start, es[..i]), es[i])
  {
    hide Next;
    assert es[..i + 1][..i] == es[..i];
  }

  // ----- the methods are runs in which nothing comes between -----

  /** The steps of a call after its first, all by itself; those of a way that it does not take change nothing. */
  function Rest(c: Config, keep: bool, s: System, id: nat, o: Outcome, duration: Duration, link: Link): System {
    var passed := Next(c, keep, Next(c, keep, s, TryHalfOpen(id)), PassGate(id));
    Next(c, keep, Next(c, keep, passed, Tick(duration)), Settle(id, o, link))
  }

  function Alone(c: Config, keep: bool, s: System, id: nat, o: Outcome, duration: Duration, l1: Link, l2: Link): System {
    Rest(c, keep, Next(c, keep, Next(c, keep, s, Arrive(id)), Enter(id, l1)), id, o, duration, l2)
  }

  lemma EntersAlone(c: Config, keep: bool, s: System, id: nat, link: Link)
    requires id !in s.calls
    ensures var t := Next(c, keep, Next(c, keep, s, Arrive(id)), Enter(id, link));
            var (entered, reply) :=
              if s.backend.healthy then Eval(c, keep, s.backend, L.IsAvailable, link, s.now) else (s.backend, None);
            && t.backend == entered && t.now == s.now
            && InPhase(t, id, if reply == None then FallbackEntering
                              else if reply.value.flag == 0 then Done(Unavailable) else RunningPrimary)
  {
    hide L.Script;
  }

  lemma RestOnFallback(c: Config, keep: bool, s: System, id: nat, o: Outcome, duration: Duration, link: Link)
    requires InPhase(s, id, FallbackEntering)
    ensures var t := Rest(c, keep, s, id, o, duration, link);
            var (after, answer) := M.SequentialCall(c, s.backend.fallback, s.now, o, s.now + duration);
            t.backend == s.backend.(fallback := after) && InPhase(t, id, Done(answer))
  {
    hide M.HalfOpened, M.AfterSuccess, M.AfterFailure, Judge;
  }

  lemma RestOnPrimary(c: Config, keep: bool, s: System, id: nat, o: Outcome, duration: Duration, link: Link)
    requires InPhase(s, id, RunningPrimary)
    ensures var t := Rest(c, keep, s, id, o, duration, link);
            && t.backend == (if Judge(c, o) == Uncounted then s.backend
                             else Eval(c, keep, s.backend, L.Recording(Judge(c, o)), link, s.now + duration).0)
            && InPhase(t, id, Done(Delivered(o)))
  {
    hide Judge, Eval;
  }

  lemma RestOfRejected(c: Config, keep: bool, s: System, id: nat, o: Outcome, duration: Duration, link: Link)
    requires InPhase(s, id, Done(Unavailable))
    ensures var t := Rest(c, keep, s, id, o, duration, link);
            t.backend == s.backend && InPhase(t, id, Done(Unavailable))
  {
    hide Judge, Eval;
  }

  /** What the first command of a call was answered, if it was sent at all. */
  function FirstReply(c: Config, keep: bool, s: System, link: Link): Option<L.Reply> {
    if s.backend.healthy then Eval(c, keep, s.backend, L.IsAvailable, link, s.now).1 else None
  }

  /** The call all by itself ends as the method says. */
  predicate EndsAsCall(c: Config, keep: bool, s: System, id: nat, o: Outcome, duration: Duration, l1: Link, l2: Link) {
    var (after, answer) := SequentialCall(c, keep, s.backend, s.now, o, s.now + duration, l1, l2);
    var t := Alone(c, keep, s, id, o, duration, l1, l2);
    t.backend == after && InPhase(t, id, Done(answer))
  }

  lemma UnansweredEndsAsCall(c: Config, keep: bool, s: System, id: nat, o: Outcome, duration: Duration, l1: Link, l2: Link)
    requires id !in s.calls && FirstReply(c, keep, s, l1) == None
    ensures EndsAsCall(c, keep, s, id, o, duration, l1, l2)
  {
    hide Rest, Next, M.SequentialCall, Judge, Eval, InPhase;
    EntersAlone(c, keep, s, id, l1);
    RestOnFallback(c, keep, Next(c, keep, Next(c, keep, s, Arrive(id)), Enter(id, l1)), id, o, duration, l2);
  }

  lemma RejectedEndsAsCall(c: Config, keep: bool, s: System, id: nat, o: Outcome, duration: Duration, l1: Link, l2: Link)
    requires id !in s.calls && FirstReply(c, keep, s, l1).Some? && FirstReply(c, keep, s, l1).value.flag == 0
    ensures EndsAsCall(c, keep, s, id, o, duration, l1, l2)
  {
    hide Rest, Next, M.SequentialCall, Judge, Eval, InPhase;
    EntersAlone(c, keep, s, id, l1);
    RestOfRejected(c, keep, Next(c, keep, Next(c, keep, s, Arrive(id)), Enter(id, l1)), id, o, duration, l2);
  }

  lemma AdmittedEndsAsCall(c: Config, keep: bool, s: System, id: nat, o: Outcome, duration: Duration, l1: Link, l2: Link)
    requires id !in s.calls && FirstReply(c, keep, s, l1).Some? && FirstReply(c, keep, s, l1).value.flag != 0
    ensures EndsAsCall(c, keep, s, id, o, duration, l1, l2)
  {
    hide Rest, Next, M.SequentialCall, Judge, Eval, InPhase;
    EntersAlone(c, keep, s, id, l1);
    RestOnPrimary(c, keep, Next(c, keep, Next(c, keep, s, Arrive(id)), Enter(id, l1)), id, o, duration, l2);
  }

  /** What the method `Call` does is a run in which nothing comes between: the same stores, flags and answer. */
  lemma CallIsRun(c: Config, keep: bool, s: System, id: nat, o: Outcome, duration: Duration, l1: Link, l2: Link)
    requires id !in s.calls
    ensures EndsAsCall(c, keep, s, id, o, duration, l1, l2)
  {
    hide EndsAsCall, FirstReply;
    if FirstReply(c, keep, s, l1) == None {
      UnansweredEndsAsCall(c, keep, s, id, o, duration, l1, l2);
    } else if FirstReply(c, keep, s, l1).value.flag == 0 {
      RejectedEndsAsCall(c, keep, s, id, o, duration, l1, l2);
    } else {
      AdmittedEndsAsCall(c, keep, s, id, o, duration, l1, l2);
    }
  }

  lemma ResetIsRun(c: Config, keep: bool, s: System, id: nat, link: Link)
    requires id !in s.resetting
    ensures var t := Next(c, keep, Next(c, keep, s, ResetScript(id, link)), ResetFallback(id));
            t.backend == SequentialReset(c, keep, s.backend, link, s.now) && t.resetting == s.resetting
  {
    hide L.Script;
  }

  lemma AnsweredState(c: Config, keep: bool, h: L.Hash, now: real)
    ensures var (h', reply) := L.Script(c, keep, h, L.IsAvailable, now); reply.state == L.Read(h').state
  {
  }

  lemma LookIsRun(c: Config, keep: bool, s: System, id: nat, link: Link)
    requires id !in s.looking
    ensures var t := Next(c, keep, Next(c, keep, s, Event.Look(id, link)), LookFallback(id));
            var (after, state) := SequentialLook(c, keep, s.backend, link, s.now);
            && t.backend == after && t.looking == s.looking
            && state == if s.backend.healthy && link == Answered then L.Read(after.hash).state else after.fallback.state
  {
    hide L.Script, M.HalfOpened;
    AnsweredState(c, keep, s.backend.hash, s.now);
  }

  /** While Redis answers, a call is the script run before it and the one that records it, and the fallback sleeps. */
  lemma HealthyCallIsLuaCall(c: Config, keep: bool, b: Backend, start: real, o: Outcome, finish: real)
    requires b.healthy
    ensures var (after, answer) := SequentialCall(c, keep, b, start, o, finish, Answered, Answered);
            var (hash, seen) := B.LuaCall(c, keep, b.hash, start, o, finish);
            after == b.(hash := hash) && answer == seen
  {
    hide L.Script, Judge;
  }

  // ----- both stores are what their logs make of them -----

  function ReplayHash(c: Config, keep: bool, log: seq<Entry>): L.Hash {
    if log == [] then L.Absent
    else
      var e := log[|log| - 1];
      L.Script(c, keep, ReplayHash(c, keep, log[..|log| - 1]), e.action, e.at).0
  }

  function ReplayFallback(c: Config, log: seq<FallbackEntry>): M.Memory {
    if log == [] then M.FRESH
    else
      var e := log[|log| - 1];
      ApplySection(c, ReplayFallback(c, log[..|log| - 1]), e.section, e.at)
  }

  predicate StoresInOrder(c: Config, keep: bool, s: System) {
    && (s.backend.healthy <==> s.backend.degradedSince == None)
    && s.backend.hash == ReplayHash(c, keep, s.primary)
    && s.backend.fallback == ReplayFallback(c, s.secondary)
  }

  lemma EvaluatedStores(c: Config, keep: bool, s: System, id: nat, a: L.Action, link: Link)
    requires StoresInOrder(c, keep, s)
    ensures StoresInOrder(c, keep, Evaluated(c, keep, s, id, a, link))
  {
    hide L.Script, ReplayFallback;
    assert (s.primary + [Entry(id, a, s.now)])[..|s.primary|] == s.primary;
    assert s.primary + [] == s.primary;
  }

  lemma FallbackStores(c: Config, keep: bool, s: System, id: nat, section: Section)
    requires StoresInOrder(c, keep, s)
    ensures StoresInOrder(c, keep, OnFallback(c, s, id, section))
  {
    hide ReplayHash, ApplySection;
    assert (s.secondary + [FallbackEntry(id, section, s.now)])[..|s.secondary|] == s.secondary;
  }

  lemma StepKeepsStores(c: Config, keep: bool, s: System, e: Event)
    requires StoresInOrder(c, keep, s)
    ensures StoresInOrder(c, keep, Next(c, keep, s, e))
  {
    hide ReplayHash, ReplayFallback, ReplyOf, AfterReply, ApplySection, L.Script, Evaluated, OnFallback;
    match e {
      case Enter(id, link) => EvaluatedStores(c, keep, s, id, L.IsAvailable, link);
      case TryHalfOpen(id) => FallbackStores(c, keep, s, id, HalfOpening);
      case Settle(id, o, link) =>
        FallbackStores(c, keep, s, id, Recorded(Judge(c, o)));
        if Judge(c, o) != Uncounted {
          EvaluatedStores(c, keep, s, id, L.Recording(Judge(c, o)), link);
        }
      case ResetScript(id, link) => EvaluatedStores(c, keep, s, id, L.Reset, link);
      case ResetFallback(id) => FallbackStores(c, keep, s, id, Cleared);
      case Look(id, link) => EvaluatedStores(c, keep, s, id, L.IsAvailable, link);
      case LookFallback(id) => FallbackStores(c, keep, s, id, HalfOpening);
      case _ =>
    }
  }

  // ----- every call runs and counts once -----

  /** How often an outcome of this call was recorded in the hash. */
  function RecordsIn(log: seq<Entry>, id: nat): nat {
    if log == [] then 0
    else
      var e := log[|log| - 1];
      RecordsIn(log[..|log| - 1], id)
      + if e.id == id && e.action in {L.RecordSuccess, L.RecordFailure} then 1 else 0
  }

  function RecordsInFallback(log: seq<FallbackEntry>, id: nat): nat {
    if log == [] then 0
    else
      var e := log[|log| - 1];
      RecordsInFallback(log[..|log| - 1], id) + if e.id == id && e.section.Recorded? then 1 else 0
  }

  /** How often an outcome of this call was recorded, in the hash and the fallback together. */
  function Records(s: System, id: nat): nat {
    RecordsIn(s.primary, id) + RecordsInFallback(s.secondary, id)
  }

  /** A call's life so far: what was awaited, how often it was recorded, and what its caller got. */
  predicate CallInOrder(c: Config, k: InFlight, records: nat) {
    match k.phase
    case Done(Delivered(o)) =>
      && k.awaited == 1 && k.produced == Some(o)
      && records == (if Judge(c, o) == Uncounted || k.refused then 0 else 1)
    case RunningPrimary => k.awaited == 1 && k.produced == None && !k.refused && records == 0
    case RunningFallback => k.awaited == 1 && k.produced == None && !k.refused && records == 0
    case _ => k.awaited == 0 && k.produced == None && !k.refused && records == 0
  }

  ghost predicate CallsInOrder(c: Config, s: System) {
    && (forall id | id in s.calls :: CallInOrder(c, s.calls[id], Records(s, id)))
    && (forall id | id !in s.calls :: Records(s, id) == 0)
  }

  lemma EvaluatedRecords(c: Config, keep: bool, s: System, id: nat, a: L.Action, link: Link, i: nat)
    ensures Records(Evaluated(c, keep, s, id, a, link), i) == Records(s, i)
              + if i == id && link != Refused && a in {L.RecordSuccess, L.RecordFailure} then 1 else 0
  {
    hide Eval;
    assert (s.primary + [Entry(id, a, s.now)])[..|s.primary|] == s.primary;
    assert s.primary + [] == s.primary;
  }

  lemma FallbackRecords(c: Config, s: System, id: nat, section: Section, i: nat)
    ensures Records(OnFallback(c, s, id, section), i) == Records(s, i) + if i == id && section.Recorded? then 1 else 0
  {
    hide ApplySection;
    assert (s.secondary + [FallbackEntry(id, section, s.now)])[..|s.secondary|] == s.secondary;
  }

  lemma SameRecords(s: System, s': System, i: nat)
    requires s'.primary == s.primary && s'.secondary == s.secondary
    ensures Records(s', i) == Records(s, i)
  {
  }

  lemma CallMoves(c: Config, s: System, s': System, id: nat, k: InFlight)
    requires CallsInOrder(c, s) && s'.calls == s.calls
    requires forall i | i != id :: Records(s', i) == Records(s, i)
    requires CallInOrder(c, k, Records(s', id))
    ensures CallsInOrder(c, At(s', id, k))
  {
    hide CallInOrder, Records;
    forall i ensures Records(At(s', id, k), i) == Records(s', i) {
      SameRecords(s', At(s', id, k), i);
    }
  }

  lemma NothingRecorded(c: Config, s: System, s': System)
    requires CallsInOrder(c, s) && s'.calls == s.calls
    requires forall i :: Records(s', i) == Records(s, i)
    ensures CallsInOrder(c, s')
  {
    hide CallInOrder, Records;
  }

  lemma LooksNotRecorded(c: Config, keep: bool, s: System, id: nat, a: L.Action, link: Link)
    requires CallsInOrder(c, s) && a in {L.IsAvailable, L.Reset}
    ensures forall i :: Records(Evaluated(c, keep, s, id, a, link), i) == Records(s, i)
    ensures CallsInOrder(c, Evaluated(c, keep, s, id, a, link))
  {
    hide CallInOrder, Records;
    forall i ensures Records(Evaluated(c, keep, s, id, a, link), i) == Records(s, i) {
      EvaluatedRecords(c, keep, s, id, a, link, i);
    }
    NothingRecorded(c, s, Evaluated(c, keep, s, id, a, link));
  }

  lemma SectionsNotRecorded(c: Config, s: System, id: nat, section: Section)
    requires CallsInOrder(c, s) && !section.Recorded?
    ensures forall i :: Records(OnFallback(c, s, id, section), i) == Records(s, i)
    ensures CallsInOrder(c, OnFallback(c, s, id, section))
  {
    hide CallInOrder, Records;
    forall i ensures Records(OnFallback(c, s, id, section), i) == Records(s, i) {
      FallbackRecords(c, s, id, section, i);
    }
    NothingRecorded(c, s, OnFallback(c, s, id, section));
  }

  lemma EnterKeepsCalls(c: Config, keep: bool, s: System, id: nat, link: Link)
    requires CallsInOrder(c, s)
    ensures CallsInOrder(c, Entered(c, keep, s, id, link))
  {
    hide Records, Evaluated, ReplyOf;
    if InPhase(s, id, Entering) {
      var k := s.calls[id];
      assert CallInOrder(c, k, Records(s, id));
      LooksNotRecorded(c, keep, s, id, L.IsAvailable, link);
      CallMoves(c, s, s, id, k.(phase := FallbackEntering));
      assert Evaluated(c, keep, s, id, L.IsAvailable, link).calls == s.calls by { EvaluatedKeepsCalls(c, keep, s, id, L.IsAvailable, link); }
      CallMoves(c, s, Evaluated(c, keep, s, id, L.IsAvailable, link), id,
                AfterReply(k, ReplyOf(c, keep, s, L.IsAvailable, link)));
    }
  }

  lemma EvaluatedKeepsCalls(c: Config, keep: bool, s: System, id: nat, a: L.Action, link: Link)
    ensures Evaluated(c, keep, s, id, a, link).calls == s.calls
  {
  }

  lemma PassKeepsCalls(c: Config, s: System, id: nat)
    requires CallsInOrder(c, s)
    ensures CallsInOrder(c, Passed(s, id))
  {
    hide Records;
    if InPhase(s, id, FallbackAtGate) {
      assert CallInOrder(c, s.calls[id], Records(s, id));
      CallMoves(c, s, s, id, Passed(s, id).calls[id]);
    }
  }

  lemma RecordKeepsCalls(c: Config, keep: bool, s: System, id: nat, v: Verdict, link: Link, k: InFlight)
    requires CallsInOrder(c, s) && v != Uncounted && id in s.calls && Records(s, id) == 0
    requires link == Refused ==> CallInOrder(c, k, 0)
    requires link != Refused ==> CallInOrder(c, k, 1)
    ensures CallsInOrder(c, At(Evaluated(c, keep, s, id, L.Recording(v), link), id, k))
  {
    hide CallInOrder, Records;
    var s' := Evaluated(c, keep, s, id, L.Recording(v), link);
    forall i ensures Records(s', i) == Records(s, i) + if i == id && link != Refused then 1 else 0 {
      EvaluatedRecords(c, keep, s, id, L.Recording(v), link, i);
    }
    CallMoves(c, s, s', id, k);
  }

  lemma FallbackRecordKeepsCalls(c: Config, s: System, id: nat, v: Verdict, k: InFlight)
    requires CallsInOrder(c, s) && id in s.calls && Records(s, id) == 0 && CallInOrder(c, k, 1)
    ensures CallsInOrder(c, At(OnFallback(c, s, id, Recorded(v)), id, k))
  {
    hide CallInOrder, Records;
    var s' := OnFallback(c, s, id, Recorded(v));
    forall i ensures Records(s', i) == Records(s, i) + if i == id then 1 else 0 {
      FallbackRecords(c, s, id, Recorded(v), i);
    }
    CallMoves(c, s, s', id, k);
  }

  lemma SettleKeepsCalls(c: Config, keep: bool, s: System, id: nat, o: Outcome, link: Link)
    requires CallsInOrder(c, s)
    ensures CallsInOrder(c, Settled(c, keep, s, id, o, link))
  {
    if InPhase(s, id, RunningPrimary) || InPhase(s, id, RunningFallback) {
      hide Records, Evaluated, OnFallback, CallsInOrder, Judge;
      assert CallInOrder(c, s.calls[id], Records(s, id)) by { InOrderAt(c, s, id); }
      var v, k := Judge(c, o), s.calls[id].(phase := Done(Delivered(o)), produced := Some(o));
      if v == Uncounted {
        CallMoves(c, s, s, id, k);
      } else if s.calls[id].phase == RunningFallback {
        FallbackRecordKeepsCalls(c, s, id, v, k);
      } else {
        RecordKeepsCalls(c, keep, s, id, v, link, k.(refused := link == Refused));
      }
    }
  }

  lemma InOrderAt(c: Config, s: System, id: nat)
    requires CallsInOrder(c, s) && id in s.calls
    ensures CallInOrder(c, s.calls[id], Records(s, id))
  {
  }

  lemma HalfOpenKeepsCalls(c: Config, s: System, id: nat)
    requires CallsInOrder(c, s) && InPhase(s, id, FallbackEntering)
    ensures CallsInOrder(c, At(OnFallback(c, s, id, HalfOpening), id, s.calls[id].(phase := FallbackAtGate)))
  {
    hide Records;
    SectionsNotRecorded(c, s, id, HalfOpening);
    InOrderAt(c, s, id);
    CallMoves(c, s, OnFallback(c, s, id, HalfOpening), id, s.calls[id].(phase := FallbackAtGate));
  }

  lemma LookKeepsCalls(c: Config, keep: bool, s: System, id: nat, link: Link)
    requires CallsInOrder(c, s)
    ensures CallsInOrder(c, Looked(c, keep, s, id, link))
  {
    hide Records, Evaluated, CallInOrder;
    LooksNotRecorded(c, keep, s, id, L.IsAvailable, link);
    Unlabelled(c, s, Looked(c, keep, s, id, link));
    Unlabelled(c, Evaluated(c, keep, s, id, L.IsAvailable, link), Looked(c, keep, s, id, link));
  }

  lemma Unlabelled(c: Config, s: System, s': System)
    requires CallsInOrder(c, s)
    ensures s'.calls == s.calls && s'.primary == s.primary && s'.secondary == s.secondary ==> CallsInOrder(c, s')
  {
    hide CallInOrder, Records;
    if s'.calls == s.calls && s'.primary == s.primary && s'.secondary == s.secondary {
      forall i ensures Records(s', i) == Records(s, i) {
        SameRecords(s, s', i);
      }
    }
  }

  lemma StepKeepsCalls(c: Config, keep: bool, s: System, e: Event)
    requires CallsInOrder(c, s)
    ensures CallsInOrder(c, Next(c, keep, s, e))
  {
    match e {
      case Enter(id, link) => EnterKeepsCalls(c, keep, s, id, link);
      case TryHalfOpen(id) =>
        if InPhase(s, id, FallbackEntering) {
          HalfOpenKeepsCalls(c, s, id);
        }
      case PassGate(id) => PassKeepsCalls(c, s, id);
      case Settle(id, o, link) => SettleKeepsCalls(c, keep, s, id, o, link);
      case Look(id, link) => LookKeepsCalls(c, keep, s, id, link);
      case Arrive(id) =>
        hide Records;
        if id !in s.calls {
          CallMoves(c, s, s, id, InFlight(Entering, 0, None, false));
        }
      case ResetScript(id, link) =>
        hide CallsInOrder, Evaluated;
        LooksNotRecorded(c, keep, s, id, L.Reset, link);
        Unlabelled(c, Evaluated(c, keep, s, id, L.Reset, link), Next(c, keep, s, e));
      case ResetFallback(id) =>
        hide CallsInOrder, OnFallback;
        SectionsNotRecorded(c, s, id, Cleared);
        Unlabelled(c, OnFallback(c, s, id, Cleared), Next(c, keep, s, e));
      case LookFallback(id) =>
        hide CallsInOrder, OnFallback;
        SectionsNotRecorded(c, s, id, HalfOpening);
        Unlabelled(c, OnFallback(c, s, id, HalfOpening), Next(c, keep, s, e));
      case _ =>
        hide CallsInOrder;
        Unlabelled(c, s, Next(c, keep, s, e));
    }
  }

  /** Holds after every run, whatever is in flight and wherever Redis fails. */
  lemma {:induction false} AlwaysInOrder(c: Config, keep: bool, start: real, es: seq<Event>)
    ensures StoresInOrder(c, keep, Run(c, keep, start, es)) && CallsInOrder(c, Run(c, keep, start, es))
  {
    if es != [] {
      hide Next, StoresInOrder, CallsInOrder;
      AlwaysInOrder(c, keep, start, es[..|es| - 1]);
      StepKeepsStores(c, keep, Run(c, keep, start, es[..|es| - 1]), es[|es| - 1]);
      StepKeepsCalls(c, keep, Run(c, keep, start, es[..|es| - 1]), es[|es| - 1]);
    }
  }

  /** One function, at most one await, at most one record, and the caller gets what the function did. */
  lemma CallsRunAndCountOnce(c: Config, keep: bool, start: real, es: seq<Event>, id: nat)
    requires id in Run(c, keep, start, es).calls
    ensures var s := Run(c, keep, start, es);
            var k := s.calls[id];
            var records := Records(s, id);
            && k.awaited <= 1 && records <= k.awaited
            && (k.phase == Done(Unavailable) ==> k.awaited == 0)
            && (forall o :: k.phase == Done(Delivered(o)) ==>
                  && k.awaited == 1 && k.produced == Some(o)
                  && (records == 1 <==> Judge(c, o) != Uncounted && !k.refused))
  {
    hide Run, Records;
    AlwaysInOrder(c, keep, start, es);
    InOrderAt(c, Run(c, keep, start, es), id);
  }

  lemma HealthyExactlyWhenNotDegraded(c: Config, keep: bool, start: real, es: seq<Event>)
    ensures var b := Run(c, keep, start, es).backend; b.healthy <==> b.degradedSince == None
  {
    hide Run;
    AlwaysInOrder(c, keep, start, es);
  }
}
