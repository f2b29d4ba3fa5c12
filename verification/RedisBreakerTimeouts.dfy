/** How long an open Redis breaker stays shut, when Redis may fail at any command and calls fall back. */
module RedisBreakerTimeouts {
  import opened Prelude
  import opened BreakerTypes
  import opened Exceptions
  import opened RedisBreaker
  import opened RedisBreakerRuns
  import M = MemoryBreaker
  import L = LuaBreaker

  /** With this step the call begins to await its function. */
  predicate Admitted(s: System, s': System, id: nat) {
    id in s'.calls && s'.calls[id].awaited > if id in s.calls then s.calls[id].awaited else 0
  }

  /** A recorded failure leaves the hash open. */
  predicate TripsHash(c: Config, keep: bool, s: System, e: Event) {
    && e.Settle? && InPhase(s, e.id, RunningPrimary) && Judge(c, e.outcome) == Failure && e.link != Refused
    && L.Read(Next(c, keep, s, e).backend.hash).state == Open
  }

  predicate TripsFallback(c: Config, keep: bool, s: System, e: Event) {
    && e.Settle? && InPhase(s, e.id, RunningFallback) && Judge(c, e.outcome) == Failure
    && Next(c, keep, s, e).backend.fallback == M.Tripped(s.now)
  }

  /** Redis executes a reset. */
  predicate ClearsHash(s: System, e: Event) {
    e.ResetScript? && e.id !in s.resetting && e.link != Refused
  }

  predicate ClearsFallback(s: System, e: Event) {
    e.ResetFallback? && e.id in s.resetting
  }

  predicate HashSealed(c: Config, s: System, t: real) {
    L.Sealed(c, L.Clocked(s.backend.hash, s.now), t)
  }

  predicate FallbackSealed(c: Config, s: System, t: real) {
    && s.now >= t
    && ((s.backend.fallback.state == Open && s.backend.fallback.openedAt.Some? && s.backend.fallback.openedAt.value >= t)
        || s.now >= t + c.resetTimeout)
  }

  // ----- each store stays sealed until somebody clears it -----

  lemma EvaluatedStaysSealed(c: Config, keep: bool, s: System, id: nat, a: L.Action, link: Link, t: real)
    requires c.resetTimeout > 0.0 && HashSealed(c, s, t) && (a != L.Reset || link == Refused)
    ensures HashSealed(c, Evaluated(c, keep, s, id, a, link), t)
    ensures FallbackSealed(c, Evaluated(c, keep, s, id, a, link), t) == FallbackSealed(c, s, t)
  {
    hide L.Sealed, L.Script;
    if link != Refused {
      L.StepStaysSealed(c, keep, L.Clocked(s.backend.hash, s.now), L.Invocation(0.0, a), t);
    }
  }

  lemma TimeKeepsSealed(c: Config, hash: L.Hash, now: real, gap: Duration, t: real)
    requires L.Sealed(c, L.Clocked(hash, now), t)
    ensures L.Sealed(c, L.Clocked(hash, now + gap), t)
  {
  }

  lemma StepKeepsHashSealed(c: Config, keep: bool, s: System, e: Event, t: real)
    requires c.resetTimeout > 0.0 && HashSealed(c, s, t) && !ClearsHash(s, e)
    ensures HashSealed(c, Next(c, keep, s, e), t)
  {
    hide L.Sealed, Evaluated, ReplyOf, ApplySection, AfterReply, Judge;
    match e {
      case Enter(id, link) => EvaluatedStaysSealed(c, keep, s, id, L.IsAvailable, link, t);
      case Settle(id, o, link) =>
        if Judge(c, o) != Uncounted {
          EvaluatedStaysSealed(c, keep, s, id, L.Recording(Judge(c, o)), link, t);
        }
      case ResetScript(id, link) =>
        if id !in s.resetting {
          EvaluatedStaysSealed(c, keep, s, id, L.Reset, link, t);
        }
      case Look(id, link) => EvaluatedStaysSealed(c, keep, s, id, L.IsAvailable, link, t);
      case Tick(gap) => TimeKeepsSealed(c, s.backend.hash, s.now, gap, t);
      case _ =>
    }
  }

  lemma SectionKeepsFallbackSealed(c: Config, s: System, id: nat, section: Section, t: real)
    requires FallbackSealed(c, s, t) && section != Cleared
    ensures FallbackSealed(c, OnFallback(c, s, id, section), t)
  {
  }

  lemma EvaluatedKeepsFallback(c: Config, keep: bool, s: System, id: nat, a: L.Action, link: Link)
    ensures Evaluated(c, keep, s, id, a, link).backend.fallback == s.backend.fallback
    ensures Evaluated(c, keep, s, id, a, link).now == s.now
  {
    hide L.Script;
  }

  lemma StepKeepsFallbackSealed(c: Config, keep: bool, s: System, e: Event, t: real)
    requires FallbackSealed(c, s, t) && !ClearsFallback(s, e)
    ensures FallbackSealed(c, Next(c, keep, s, e), t)
  {
    hide Evaluated, ReplyOf, ApplySection, AfterReply, Judge;
    match e {
      case Enter(id, link) => EvaluatedKeepsFallback(c, keep, s, id, L.IsAvailable, link);
      case TryHalfOpen(id) => SectionKeepsFallbackSealed(c, s, id, HalfOpening, t);
      case Settle(id, o, link) =>
        SectionKeepsFallbackSealed(c, s, id, Recorded(Judge(c, o)), t);
        if Judge(c, o) != Uncounted {
          EvaluatedKeepsFallback(c, keep, s, id, L.Recording(Judge(c, o)), link);
        }
      case ResetScript(id, link) => EvaluatedKeepsFallback(c, keep, s, id, L.Reset, link);
      case Look(id, link) => EvaluatedKeepsFallback(c, keep, s, id, L.IsAvailable, link);
      case LookFallback(id) => SectionKeepsFallbackSealed(c, s, id, HalfOpening, t);
      case _ =>
    }
  }

  /** Redis executes no reset from event `i` up to event `j`. */
  predicate HashNotCleared(c: Config, keep: bool, start: real, es: seq<Event>, i: nat, j: nat)
    requires j <= |es|
  {
    j <= i || (HashNotCleared(c, keep, start, es, i, j - 1) && !ClearsHash(Run(c, keep, start, es[..j - 1]), es[j - 1]))
  }

  /** Nobody clears the fallback from event `i` up to event `j`. */
  predicate FallbackNotCleared(c: Config, keep: bool, start: real, es: seq<Event>, i: nat, j: nat)
    requires j <= |es|
  {
    j <= i
    || (FallbackNotCleared(c, keep, start, es, i, j - 1) && !ClearsFallback(Run(c, keep, start, es[..j - 1]), es[j - 1]))
  }

  lemma HashSealedOnce(c: Config, keep: bool, start: real, es: seq<Event>, k: nat, t: real)
    requires c.resetTimeout > 0.0 && k < |es| && !ClearsHash(Run(c, keep, start, es[..k]), es[k])
    requires HashSealed(c, Run(c, keep, start, es[..k]), t)
    ensures HashSealed(c, Run(c, keep, start, es[..k + 1]), t)
  {
    hide Run, Next, HashSealed, ClearsHash;
    RunStep(c, keep, start, es, k);
    StepKeepsHashSealed(c, keep, Run(c, keep, start, es[..k]), es[k], t);
  }

  lemma {:induction false} HashStaysSealed(c: Config, keep: bool, start: real, es: seq<Event>, i: nat, j: nat, t: real)
    requires c.resetTimeout > 0.0 && i <= j <= |es| && HashNotCleared(c, keep, start, es, i, j)
    requires HashSealed(c, Run(c, keep, start, es[..i]), t)
    ensures HashSealed(c, Run(c, keep, start, es[..j]), t)
  {
    hide Run, HashSealed, ClearsHash;
    if i < j {
      HashStaysSealed(c, keep, start, es, i, j - 1, t);
      HashSealedOnce(c, keep, start, es, j - 1, t);
    }
  }

  lemma FallbackSealedOnce(c: Config, keep: bool, start: real, es: seq<Event>, k: nat, t: real)
    requires k < |es| && !ClearsFallback(Run(c, keep, start, es[..k]), es[k])
    requires FallbackSealed(c, Run(c, keep, start, es[..k]), t)
    ensures FallbackSealed(c, Run(c, keep, start, es[..k + 1]), t)
  {
    hide Run, Next, FallbackSealed, ClearsFallback;
    RunStep(c, keep, start, es, k);
    StepKeepsFallbackSealed(c, keep, Run(c, keep, start, es[..k]), es[k], t);
  }

  lemma {:induction false} FallbackStaysSealed(c: Config, keep: bool, start: real, es: seq<Event>, i: nat, j: nat, t: real)
    requires i <= j <= |es| && FallbackNotCleared(c, keep, start, es, i, j)
    requires FallbackSealed(c, Run(c, keep, start, es[..i]), t)
    ensures FallbackSealed(c, Run(c, keep, start, es[..j]), t)
  {
    hide Run, FallbackSealed, ClearsFallback;
    if i < j {
      FallbackStaysSealed(c, keep, start, es, i, j - 1, t);
      FallbackSealedOnce(c, keep, start, es, j - 1, t);
    }
  }

  lemma TripSealsHash(c: Config, keep: bool, s: System, e: Event)
    requires c.resetTimeout > 0.0 && TripsHash(c, keep, s, e)
    ensures HashSealed(c, Next(c, keep, s, e), s.now)
  {
    hide Judge;
  }

  lemma TripSealsFallback(c: Config, keep: bool, s: System, e: Event)
    requires TripsFallback(c, keep, s, e)
    ensures FallbackSealed(c, Next(c, keep, s, e), s.now)
  {
    hide Judge, ApplySection;
  }

  // ----- who is admitted -----

  /** A call is admitted by the hash, or at the gate of the fallback, and in no other way. */
  lemma AdmittedExactly(c: Config, keep: bool, s: System, e: Event, id: nat)
    ensures Admitted(s, Next(c, keep, s, e), id) <==>
              || (e.Enter? && e.id == id && InPhase(s, id, Entering) && s.backend.healthy && e.link == Answered
                  && L.Script(c, keep, s.backend.hash, L.IsAvailable, s.now).1.flag != 0)
              || (e == PassGate(id) && InPhase(s, id, FallbackAtGate) && s.backend.fallback.state != Open)
  {
    hide L.Script, ApplySection, Judge;
  }

  lemma SealedHashSaysNo(c: Config, keep: bool, s: System, t: real)
    requires c.resetTimeout > 0.0 && HashSealed(c, s, t) && s.now < t + c.resetTimeout
    ensures L.Script(c, keep, s.backend.hash, L.IsAvailable, s.now).1.flag == 0
  {
  }

  /**
   * Under every interleaving and wherever Redis fails: once a failure has left the hash open, and until Redis
   * executes a reset, a call is admitted before the timeout exactly when it finds the fallback not open at its gate.
   */
  lemma EarlyAdmissionExactly(c: Config, keep: bool, start: real, es: seq<Event>, i: nat, j: nat, id: nat)
    requires c.resetTimeout > 0.0 && i < j < |es|
    requires TripsHash(c, keep, Run(c, keep, start, es[..i]), es[i])
    requires HashNotCleared(c, keep, start, es, i + 1, j)
    requires Run(c, keep, start, es[..j]).now < Run(c, keep, start, es[..i]).now + c.resetTimeout
    ensures var s := Run(c, keep, start, es[..j]);
            Admitted(s, Next(c, keep, s, es[j]), id)
            <==> es[j] == PassGate(id) && InPhase(s, id, FallbackAtGate) && s.backend.fallback.state != Open
  {
    hide Run, Next, HashSealed, TripsHash, HashNotCleared, Admitted, L.Script;
    var t := Run(c, keep, start, es[..i]).now;
    TripSealsHash(c, keep, Run(c, keep, start, es[..i]), es[i]);
    RunStep(c, keep, start, es, i);
    HashStaysSealed(c, keep, start, es, i + 1, j, t);
    SealedHashSaysNo(c, keep, Run(c, keep, start, es[..j]), t);
    AdmittedExactly(c, keep, Run(c, keep, start, es[..j]), es[j], id);
  }

  /** An open fallback admits nothing at its gate before its own timeout, unless it is reset. */
  lemma FallbackShutBeforeTimeout(c: Config, keep: bool, start: real, es: seq<Event>, i: nat, j: nat, id: nat)
    requires c.resetTimeout > 0.0 && i < j < |es|
    requires TripsFallback(c, keep, Run(c, keep, start, es[..i]), es[i])
    requires FallbackNotCleared(c, keep, start, es, i + 1, j)
    requires es[j] == PassGate(id)
    requires Admitted(Run(c, keep, start, es[..j]), Next(c, keep, Run(c, keep, start, es[..j]), es[j]), id)
    ensures Run(c, keep, start, es[..j]).now >= Run(c, keep, start, es[..i]).now + c.resetTimeout
  {
    hide Run, Next, TripsFallback, FallbackNotCleared, Admitted, L.Script;
    TripSealsFallback(c, keep, Run(c, keep, start, es[..i]), es[i]);
    RunStep(c, keep, start, es, i);
    FallbackStaysSealed(c, keep, start, es, i + 1, j, Run(c, keep, start, es[..i]).now);
    AdmittedExactly(c, keep, Run(c, keep, start, es[..j]), es[j], id);
  }

  /** With both open, nothing at all is admitted before the earlier of the two timeouts. */
  lemma BothShutBeforeTimeout(c: Config, keep: bool, start: real, es: seq<Event>, h: nat, f: nat, j: nat, id: nat)
    requires c.resetTimeout > 0.0 && h < j < |es| && f < j
    requires TripsHash(c, keep, Run(c, keep, start, es[..h]), es[h])
    requires TripsFallback(c, keep, Run(c, keep, start, es[..f]), es[f])
    requires HashNotCleared(c, keep, start, es, h + 1, j)
    requires FallbackNotCleared(c, keep, start, es, f + 1, j)
    requires Admitted(Run(c, keep, start, es[..j]), Next(c, keep, Run(c, keep, start, es[..j]), es[j]), id)
    ensures Run(c, keep, start, es[..j]).now
            >= MinReal(Run(c, keep, start, es[..h]).now, Run(c, keep, start, es[..f]).now) + c.resetTimeout
  {
    hide Run, Next, TripsHash, TripsFallback, HashNotCleared, FallbackNotCleared, Admitted;
    if Run(c, keep, start, es[..j]).now < Run(c, keep, start, es[..h]).now + c.resetTimeout {
      EarlyAdmissionExactly(c, keep, start, es, h, j, id);
      FallbackShutBeforeTimeout(c, keep, start, es, f, j, id);
    }
  }

  // ----- without outages -----

  /** Redis answers whatever command the event sends. */
  predicate OutageFree(e: Event) {
    match e
    case Enter(_, link) => link == Answered
    case Settle(_, _, link) => link == Answered
    case ResetScript(_, link) => link == Answered
    case Look(_, link) => link == Answered
    case HealthCheck(pong) => pong
    case _ => true
  }

  predicate AllOnPrimary(s: System) {
    && s.backend.healthy
    && forall id <- s.calls :: s.calls[id].phase !in {FallbackEntering, FallbackAtGate, RunningFallback}
  }

  lemma StepStaysOnPrimary(c: Config, keep: bool, s: System, e: Event)
    requires AllOnPrimary(s) && OutageFree(e)
    ensures AllOnPrimary(Next(c, keep, s, e))
  {
    hide L.Script, ApplySection, Judge;
  }

  lemma {:induction false} RunStaysOnPrimary(c: Config, keep: bool, start: real, es: seq<Event>)
    requires forall k | 0 <= k < |es| :: OutageFree(es[k])
    ensures AllOnPrimary(Run(c, keep, start, es))
  {
    if es != [] {
      hide Next, AllOnPrimary;
      RunStaysOnPrimary(c, keep, start, es[..|es| - 1]);
      StepStaysOnPrimary(c, keep, Run(c, keep, start, es[..|es| - 1]), es[|es| - 1]);
    }
  }

  /** While Redis answers, an open breaker admits nothing before its timeout, unless it is reset. */
  lemma ShutBeforeTimeoutWithoutOutage(c: Config, keep: bool, start: real, es: seq<Event>, i: nat, j: nat, id: nat)
    requires c.resetTimeout > 0.0 && i < j < |es|
    requires forall k | 0 <= k < |es| :: OutageFree(es[k])
    requires TripsHash(c, keep, Run(c, keep, start, es[..i]), es[i])
    requires HashNotCleared(c, keep, start, es, i + 1, j)
    requires Admitted(Run(c, keep, start, es[..j]), Next(c, keep, Run(c, keep, start, es[..j]), es[j]), id)
    ensures Run(c, keep, start, es[..j]).now >= Run(c, keep, start, es[..i]).now + c.resetTimeout
  {
    hide Run, Next, TripsHash, HashNotCleared, Admitted;
    RunStaysOnPrimary(c, keep, start, es[..j]);
    if Run(c, keep, start, es[..j]).now < Run(c, keep, start, es[..i]).now + c.resetTimeout {
      EarlyAdmissionExactly(c, keep, start, es, i, j, id);
    }
  }

  /** A call that enters while the hash says no: its way in, if Redis fails it, is the fallback that is not open. */
  lemma OutageLetsCallIn(c: Config, keep: bool, s: System, id: nat, link: Link)
    requires InPhase(s, id, Entering) && s.backend.healthy
    requires L.Script(c, keep, s.backend.hash, L.IsAvailable, s.now).1.flag == 0
    ensures var entered := Next(c, keep, s, Enter(id, link));
            var atGate := Next(c, keep, entered, TryHalfOpen(id));
            Admitted(atGate, Next(c, keep, atGate, PassGate(id)), id)
            <==> link != Answered && M.HalfOpened(c, s.backend.fallback, s.now).state != Open
  {
    hide L.Script, M.HalfOpened, Judge;
  }
}
