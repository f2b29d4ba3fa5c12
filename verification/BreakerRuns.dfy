/** Calls in flight around one in-process breaker, interleaved at every await. */
module BreakerRuns {
  import opened Prelude
  import opened Exceptions
  import opened BreakerTypes
  import opened MemoryBreaker

  /** Where a call is: before its first locked section, before its second, or awaiting its function. */
  datatype Phase = Entering | AtGate | Running

  datatype Event =
    | Arrive(id: nat)
    | TryHalfOpen(id: nat)
    | PassGate(id: nat)
    | Settle(id: nat, outcome: Outcome)
    | Observe
    | ForceReset
    | Tick(gap: Duration)

  /** Entries of the history: what was recorded, and every change of state. */
  datatype Mark = RecordedFailure | RecordedSuccess | Became(state: BreakerState)

  datatype System = System(breaker: Memory, calls: map<nat, Phase>, now: real, history: seq<Mark>)

  predicate InPhase(s: System, id: nat, p: Phase) {
    id in s.calls && s.calls[id] == p
  }

  function Moved(s: System, b: Memory, recorded: seq<Mark>): System {
    s.(breaker := b,
       history := s.history + recorded + if b.state != s.breaker.state then [Became(b.state)] else [])
  }

  function Marks(v: Verdict): seq<Mark> {
    match v
    case Success => [RecordedSuccess]
    case Failure => [RecordedFailure]
    case Uncounted => []
  }

  /** One atomic section of one coroutine. An event that is not enabled changes nothing. */
  function Next(c: Config, s: System, e: Event): System {
    match e
    case Arrive(id) => if id in s.calls then s else s.(calls := s.calls[id := Entering])
    case TryHalfOpen(id) =>
      if InPhase(s, id, Entering)
      then Moved(s.(calls := s.calls[id := AtGate]), HalfOpened(c, s.breaker, s.now), [])
      else s
    case PassGate(id) =>
      if !InPhase(s, id, AtGate) then s
      else if s.breaker.state == Open then s.(calls := s.calls - {id})
      else s.(calls := s.calls[id := Running])
    case Settle(id, o) =>
      if InPhase(s, id, Running)
      then var v := Judge(c, o);
           Moved(s.(calls := s.calls - {id}), AfterVerdict(c, s.breaker, v, s.now), Marks(v))
      else s
    case Observe => Moved(s, HalfOpened(c, s.breaker, s.now), [])
    case ForceReset => s.(breaker := FRESH, history := s.history + [Became(Closed)])
    case Tick(gap) => s.(now := s.now + gap)
  }

  /** The system after the events of a run; every sequence of events is a run. */
  function Run(c: Config, start: real, es: seq<Event>): System {
    if es == [] then System(FRESH, map[], start, [])
    else Next(c, Run(c, start, es[..|es| - 1]), es[|es| - 1])
  }

  lemma RunStep(c: Config, start: real, es: seq<Event>, i: nat)
    requires i < |es|
    ensures Run(c, start, es[..i + 1]) == Next(c, Run(c, start, es[..i]), es[i])
  {
    assert es[..i + 1][..i] == es[..i];
  }

  /** The five sections of one call that nothing comes between. */
  function Alone(c: Config, s: System, id: nat, o: Outcome, duration: Duration): System {
    var atGate := Next(c, Next(c, s, Arrive(id)), TryHalfOpen(id));
    Next(c, Next(c, Next(c, atGate, PassGate(id)), Tick(duration)), Settle(id, o))
  }

  /** What the method `Call` does is such a run: it leaves the same breaker, and no call in flight. */
  lemma CallIsRun(c: Config, s: System, id: nat, o: Outcome, duration: Duration)
    requires id !in s.calls
    ensures var (after, answer) := SequentialCall(c, s.breaker, s.now, o, s.now + duration);
            var entered := Next(c, Next(c, Next(c, s, Arrive(id)), TryHalfOpen(id)), PassGate(id));
            && Alone(c, s, id, o, duration).breaker == after
            && Alone(c, s, id, o, duration).calls == s.calls
            && (InPhase(entered, id, Running) <==> answer == Delivered(o))
            && (id !in entered.calls <==> answer == Unavailable)
  {
    hide HalfOpened, AfterSuccess, AfterFailure, Judge;
    assert s.calls[id := AtGate] - {id} == s.calls && s.calls[id := Running] - {id} == s.calls;
  }

  // ----- no admission before the reset timeout -----

  predicate Admits(s: System, e: Event) {
    e.PassGate? && InPhase(s, e.id, AtGate) && s.breaker.state != Open
  }

  /** The event opens the breaker, or opens it again while it is open. */
  predicate Trips(c: Config, s: System, e: Event) {
    && e.Settle? && InPhase(s, e.id, Running)
    && Judge(c, e.outcome) == Failure
    && Next(c, s, e).breaker == Tripped(s.now)
  }

  predicate Sealed(c: Config, s: System, t: real) {
    && s.now >= t
    && ((s.breaker.state == Open && s.breaker.openedAt.Some? && s.breaker.openedAt.value >= t)
        || s.now >= t + c.resetTimeout)
  }

  lemma StepStaysSealed(c: Config, s: System, e: Event, t: real)
    requires Sealed(c, s, t) && e != ForceReset
    ensures Sealed(c, Next(c, s, e), t)
  {
  }

  lemma {:induction false} StaysSealed(c: Config, start: real, es: seq<Event>, i: nat, j: nat, t: real)
    requires i <= j <= |es|
    requires forall k | i <= k < j :: es[k] != ForceReset
    requires Sealed(c, Run(c, start, es[..i]), t)
    ensures Sealed(c, Run(c, start, es[..j]), t)
  {
    if i < j {
      StaysSealed(c, start, es, i, j - 1, t);
      RunStep(c, start, es, j - 1);
      StepStaysSealed(c, Run(c, start, es[..j - 1]), es[j - 1], t);
    }
  }

  /** Whatever is in flight, an open breaker admits nothing before its timeout unless it is reset. */
  lemma NoAdmissionBeforeTimeout(c: Config, start: real, es: seq<Event>, i: nat, j: nat)
    requires i < j < |es|
    requires Trips(c, Run(c, start, es[..i]), es[i])
    requires forall k | i < k < j :: es[k] != ForceReset
    requires Admits(Run(c, start, es[..j]), es[j])
    ensures Run(c, start, es[..j]).now >= Run(c, start, es[..i]).now + c.resetTimeout
  {
    RunStep(c, start, es, i);
    StaysSealed(c, start, es, i + 1, j, Run(c, start, es[..i]).now);
  }

  // ----- what the counters count -----

  /** Length of the run of recorded failures at the end of the history, back to the last change of state. */
  function TrailingFailures(h: seq<Mark>): (n: nat)
    ensures n <= |h|
  {
    if |h| > 0 && h[|h| - 1] == RecordedFailure then 1 + TrailingFailures(h[..|h| - 1]) else 0
  }

  function TrailingSuccesses(h: seq<Mark>): (n: nat)
    ensures n <= |h|
  {
    if |h| > 0 && h[|h| - 1] == RecordedSuccess then 1 + TrailingSuccesses(h[..|h| - 1]) else 0
  }

  /** While it is open, late failures count too, and every `failMax` of them open it anew. */
  predicate CountersExact(c: Config, s: System)
    requires c.failMax >= 1
  {
    && (s.breaker.state == Closed ==>
          s.breaker.failureCount == TrailingFailures(s.history) && s.breaker.failureCount < c.failMax)
    && (s.breaker.state == HalfOpen ==>
          s.breaker.successCount == TrailingSuccesses(s.history) && s.breaker.successCount < c.successThreshold)
    && (s.breaker.state == Open ==> s.breaker.failureCount == TrailingFailures(s.history) % c.failMax)
    && (s.breaker.openedAt == None <==> s.breaker.state == Closed)
  }

  lemma ModStep(n: nat, k: nat)
    requires k >= 1
    ensures 0 <= n % k < k && (n + 1) % k == if n % k + 1 == k then 0 else n % k + 1
  {
    var q, r := n / k, n % k;
    MulDistributes(k, q, 1);
    DivUnique(n + 1, k, if r + 1 == k then q + 1 else q, if r + 1 == k then 0 else r + 1);
  }

  lemma TrailingAppend(h: seq<Mark>, m: Mark)
    ensures TrailingFailures(h + [m]) == if m == RecordedFailure then 1 + TrailingFailures(h) else 0
    ensures TrailingSuccesses(h + [m]) == if m == RecordedSuccess then 1 + TrailingSuccesses(h) else 0
  {
    assert (h + [m])[..|h|] == h;
  }

  lemma MovedHistory(s: System, b: Memory, v: Verdict)
    ensures var h := Moved(s, b, Marks(v)).history;
            if b.state != s.breaker.state then TrailingFailures(h) == TrailingSuccesses(h) == 0
            else match v
                 case Success => TrailingFailures(h) == 0 && TrailingSuccesses(h) == 1 + TrailingSuccesses(s.history)
                 case Failure => TrailingSuccesses(h) == 0 && TrailingFailures(h) == 1 + TrailingFailures(s.history)
                 case Uncounted => h == s.history
  {
    var h := s.history + Marks(v);
    TrailingAppend(h, Became(b.state));
    if v != Uncounted {
      TrailingAppend(s.history, Marks(v)[0]);
    }
    assert h + [] == h;
  }

  lemma RecordingKeepsCounters(c: Config, s: System, v: Verdict)
    requires c.failMax >= 1 && c.successThreshold >= 1 && CountersExact(c, s)
    ensures CountersExact(c, Moved(s, AfterVerdict(c, s.breaker, v, s.now), Marks(v)))
  {
    MovedHistory(s, AfterVerdict(c, s.breaker, v, s.now), v);
    ModStep(TrailingFailures(s.history), c.failMax);
    ModStep(0, c.failMax);
  }

  lemma HalfOpeningKeepsCounters(c: Config, s: System)
    requires c.failMax >= 1 && c.successThreshold >= 1 && CountersExact(c, s)
    ensures CountersExact(c, Moved(s, HalfOpened(c, s.breaker, s.now), []))
  {
    MovedHistory(s, HalfOpened(c, s.breaker, s.now), Uncounted);
  }

  lemma StepKeepsCounters(c: Config, s: System, e: Event)
    requires c.failMax >= 1 && c.successThreshold >= 1 && CountersExact(c, s)
    ensures CountersExact(c, Next(c, s, e))
  {
    match e {
      case TryHalfOpen(id) => HalfOpeningKeepsCounters(c, s.(calls := s.calls[id := AtGate]));
      case Settle(id, o) => RecordingKeepsCounters(c, s.(calls := s.calls - {id}), Judge(c, o));
      case Observe => HalfOpeningKeepsCounters(c, s);
      case ForceReset => TrailingAppend(s.history, Became(Closed));
      case _ =>
    }
  }

  /** In every reachable state the counters are the trailing runs in the history. */
  lemma {:induction false} CountersExactAlways(c: Config, start: real, es: seq<Event>)
    requires c.failMax >= 1 && c.successThreshold >= 1
    ensures CountersExact(c, Run(c, start, es))
  {
    if es != [] {
      CountersExactAlways(c, start, es[..|es| - 1]);
      StepKeepsCounters(c, Run(c, start, es[..|es| - 1]), es[|es| - 1]);
    }
  }

  /** A running call fails, or succeeds, with this event. */
  predicate Settles(c: Config, s: System, e: Event, v: Verdict) {
    e.Settle? && InPhase(s, e.id, Running) && Judge(c, e.outcome) == v
  }

  /** The breaker leaves each state exactly when its own threshold is met. */
  lemma LeavesExactlyAtThreshold(c: Config, start: real, es: seq<Event>, e: Event)
    requires c.failMax >= 1 && c.successThreshold >= 1
    ensures var s := Run(c, start, es);
            var s' := Next(c, s, e);
            && (s.breaker.state == Closed ==>
                  && s'.breaker.state != HalfOpen
                  && (s'.breaker.state == Open <==>
                        Settles(c, s, e, Failure) && TrailingFailures(s.history) + 1 == c.failMax))
            && (s.breaker.state == HalfOpen ==>
                  && (s'.breaker.state == Open <==> Settles(c, s, e, Failure))
                  && (s'.breaker.state == Closed <==>
                        || e == ForceReset
                        || (Settles(c, s, e, Success) && TrailingSuccesses(s.history) + 1 == c.successThreshold)))
            && (s.breaker.state == Open ==>
                  && (s'.breaker.state == Closed <==> e == ForceReset)
                  && (s'.breaker.state == HalfOpen <==>
                        && s.breaker.openedAt.Some? && s.now >= s.breaker.openedAt.value + c.resetTimeout
                        && (e == Observe || (e.TryHalfOpen? && InPhase(s, e.id, Entering)))))
  {
    CountersExactAlways(c, start, es);
  }
}
