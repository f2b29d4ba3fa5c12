/** The audit dispatcher over that worker: sanitise a batch, write it with retries, fall back, await by await. */
module AuditDispatcher {
  import opened Prelude
  import opened Dispatch
  import DispatchRuns

  const MAX_ATTEMPTS := 3

  /** An audit event: what the dispatcher passes on as it is, and the two parts it sanitises. */
  datatype AuditEvent<P> = AuditEvent(envelope: nat, payload: P, details: P)

  datatype Fate = ByPrimary | ByFallback | Lost

  /** A batch that is done with: what the primary answered to each attempt, and what became of it. */
  datatype Record<P> = Record(events: seq<AuditEvent<P>>, answers: seq<bool>, fate: Fate)

  /**
   * Which await of a flush the worker stands at: a write of the primary, the sleep before the next one, or the write
   * of the fallback. `answers` are those the primary has given so far. A cancelled flush stays where it was.
   */
  datatype Stage<P> =
    | Waiting
    | Writing(events: seq<AuditEvent<P>>, answers: seq<bool>)
    | Sleeping(events: seq<AuditEvent<P>>, answers: seq<bool>)
    | FallingBack(events: seq<AuditEvent<P>>, answers: seq<bool>)

  /** What the dispatcher did: every `write_many` call when it is made, the batches done with, and the metric. */
  datatype Ledger<P> = Ledger(
    primaryCalls: seq<seq<AuditEvent<P>>>, fallbackCalls: seq<seq<AuditEvent<P>>>,
    records: seq<Record<P>>, writeFailed: nat, stage: Stage<P>)

  /** A sanitiser; None is an exception. */
  type Sanitizer<!P> = P -> Option<P>

  function SanitizeEvent<P>(sanitize: Sanitizer<P>, e: AuditEvent<P>): Option<AuditEvent<P>> {
    match (sanitize(e.payload), sanitize(e.details))
    case (Some(payload), Some(details)) => Some(e.(payload := payload, details := details))
    case _ => None
  }

  function SanitizeAll<P>(sanitize: Sanitizer<P>, batch: seq<AuditEvent<P>>): (r: Option<seq<AuditEvent<P>>>)
    ensures r.Some? ==> |r.value| == |batch|
    ensures r.Some? ==> forall i :: 0 <= i < |batch| ==> SanitizeEvent(sanitize, batch[i]) == Some(r.value[i])
    ensures r.None? ==> exists i :: 0 <= i < |batch| && SanitizeEvent(sanitize, batch[i]).None?
  {
    if |batch| == 0 then Some([])
    else
      match (SanitizeAll(sanitize, batch[..|batch| - 1]), SanitizeEvent(sanitize, batch[|batch| - 1]))
      case (Some(front), Some(last)) => Some(front + [last])
      case _ => None
  }

  /** Of each event both parts are sanitised, each into its own place, and all else is passed on as it is. */
  ghost predicate IsSanitised<P>(sanitize: Sanitizer<P>, raw: AuditEvent<P>, clean: AuditEvent<P>) {
    && clean.envelope == raw.envelope
    && sanitize(raw.payload) == Some(clean.payload) && sanitize(raw.details) == Some(clean.details)
  }

  lemma SanitizedExactly<P>(sanitize: Sanitizer<P>, batch: seq<AuditEvent<P>>, clean: seq<AuditEvent<P>>)
    ensures SanitizeAll(sanitize, batch) == Some(clean)
            <==> |clean| == |batch| && forall i :: 0 <= i < |batch| ==> IsSanitised(sanitize, batch[i], clean[i])
    ensures SanitizeAll(sanitize, batch).None?
            <==> exists e :: e in batch && (sanitize(e.payload).None? || sanitize(e.details).None?)
  {
    var r := SanitizeAll(sanitize, batch);
    assert forall i :: 0 <= i < |batch| ==> batch[i] in batch;
    if |clean| == |batch| && forall i :: 0 <= i < |batch| ==> IsSanitised(sanitize, batch[i], clean[i]) {
      assert forall i :: 0 <= i < |batch| ==> SanitizeEvent(sanitize, batch[i]) == Some(clean[i]);
      assert r.Some? && r.value == clean;
    }
  }

  // ----- the stretches of a flush between its awaits -----

  /** Up to the first call of the primary. */
  function Begun<P>(l: Ledger<P>, events: seq<AuditEvent<P>>): Ledger<P> {
    l.(primaryCalls := l.primaryCalls + [events], stage := Writing(events, []))
  }

  /** From an answer of the primary to the end of the flush, to the sleep, or to the call of the fallback. */
  function PrimaryAnswered<P>(l: Ledger<P>, ok: bool): Ledger<P>
    requires l.stage.Writing?
  {
    var events, answers := l.stage.events, l.stage.answers + [ok];
    if ok then l.(records := l.records + [Record(events, answers, ByPrimary)], stage := Waiting)
    else if |answers| < MAX_ATTEMPTS then l.(stage := Sleeping(events, answers))
    else
      l.(writeFailed := l.writeFailed + |events|, fallbackCalls := l.fallbackCalls + [events],
         stage := FallingBack(events, answers))
  }

  /** From the end of the sleep to the next call of the primary. */
  function Woken<P>(l: Ledger<P>): Ledger<P>
    requires l.stage.Sleeping?
  {
    l.(primaryCalls := l.primaryCalls + [l.stage.events], stage := Writing(l.stage.events, l.stage.answers))
  }

  function FallbackAnswered<P>(l: Ledger<P>, ok: bool): Ledger<P>
    requires l.stage.FallingBack?
  {
    var fate := if ok then ByFallback else Lost;
    l.(records := l.records + [Record(l.stage.events, l.stage.answers, fate)], stage := Waiting)
  }

  /** How an await ends; a sleep does not fail. */
  datatype Await = Completes | Fails | Cancelled

  /** Fewer than three attempts have failed while another is under way or to come. */
  predicate OnTrack<P>(stage: Stage<P>) {
    stage.Writing? || stage.Sleeping? ==> |stage.answers| < MAX_ATTEMPTS
  }

  /** At most three writes, the two sleeps between them, and the write of the fallback. */
  function AwaitsLeft<P>(stage: Stage<P>): nat
    requires OnTrack(stage)
  {
    match stage
    case Waiting => 0
    case Writing(_, answers) => 2 * (MAX_ATTEMPTS - |answers|)
    case Sleeping(_, answers) => 2 * (MAX_ATTEMPTS - |answers|) + 1
    case FallingBack(_, _) => 1
  }

  /** The whole of a write, or as much of it as comes before it is cancelled; `script` says how each await ends. */
  function Written<P>(l: Ledger<P>, script: nat -> Await, k: nat): Ledger<P>
    requires OnTrack(l.stage)
    decreases AwaitsLeft(l.stage)
  {
    if l.stage.Waiting? || script(k) == Cancelled then l
    else match l.stage
      case Writing(_, _) => Written(PrimaryAnswered(l, script(k) == Completes), script, k + 1)
      case Sleeping(_, _) => Written(Woken(l), script, k + 1)
      case FallingBack(_, _) => FallbackAnswered(l, script(k) == Completes)
  }

  datatype Flushed = Done | Raised | Interrupted

  class FireAndForgetDispatcher<P> {
    const sanitize: Sanitizer<P>
    const worker: FireAndForget<AuditEvent<P>>
    var primaryCalls: seq<seq<AuditEvent<P>>>
    var fallbackCalls: seq<seq<AuditEvent<P>>>
    var records: seq<Record<P>>
    var writeFailed: nat
    var stage: Stage<P>

    ghost function View(): Ledger<P>
      reads this
    {
      Ledger(primaryCalls, fallbackCalls, records, writeFailed, stage)
    }

    constructor (sanitize: Sanitizer<P>, queueSize: int, batchMax: int)
      ensures this.sanitize == sanitize && View() == Ledger([], [], [], 0, Waiting)
      ensures fresh(worker) && worker.config == Config(queueSize, batchMax, DropNewest)
      ensures worker.View() == Fresh<AuditEvent<P>>()
    {
      this.sanitize := sanitize;
      worker := new FireAndForget(Config(queueSize, batchMax, DropNewest));
      primaryCalls, fallbackCalls, records, writeFailed, stage := [], [], [], 0, Waiting;
    }

    /** The callback of the worker: it raises when the sanitiser does, and is interrupted when an await is cancelled. */
    method Flush(batch: seq<AuditEvent<P>>, script: nat -> Await) returns (r: Flushed)
      requires stage.Waiting?
      modifies this
      ensures var clean := SanitizeAll(sanitize, batch);
              && View() == (if clean.Some? then Written(Begun(old(View()), clean.value), script, 0) else old(View()))
              && r == (if clean.None? then Raised else if stage.Waiting? then Done else Interrupted)
    {
      var sanitised := SanitizeAll(sanitize, batch);
      if sanitised.None? {
        return Raised;
      }
      var finished := WriteWithRetry(sanitised.value, script);
      r := if finished then Done else Interrupted;
    }

    /** False when one of its awaits is cancelled. */
    method WriteWithRetry(events: seq<AuditEvent<P>>, script: nat -> Await) returns (finished: bool)
      requires stage.Waiting?
      modifies this
      ensures View() == Written(Begun(old(View()), events), script, 0)
      ensures finished == stage.Waiting?
    {
      var k := 0;
      primaryCalls := primaryCalls + [events];
      stage := Writing(events, []);
      for attempt := 1 to MAX_ATTEMPTS + 1
        invariant attempt <= MAX_ATTEMPTS ==> stage.Writing? && stage.events == events && |stage.answers| == attempt - 1
        invariant attempt == MAX_ATTEMPTS + 1 ==>
                    stage.FallingBack? && stage.events == events && |stage.answers| == MAX_ATTEMPTS
        invariant Written(View(), script, k) == Written(Begun(old(View()), events), script, 0)
      {
        if script(k) == Cancelled {
          return false;
        }
        var answers := stage.answers + [script(k) == Completes];
        if script(k) == Completes {
          records := records + [Record(events, answers, ByPrimary)];
          stage := Waiting;
          return true;
        }
        k := k + 1;
        if attempt < MAX_ATTEMPTS {
          stage := Sleeping(events, answers);
          if script(k) == Cancelled {
            return false;
          }
          k := k + 1;
          primaryCalls := primaryCalls + [events];
          stage := Writing(events, answers);
        } else {
          writeFailed := writeFailed + |events|;
          fallbackCalls := fallbackCalls + [events];
          stage := FallingBack(events, answers);
        }
      }
      if script(k) == Cancelled {
        return false;
      }
      records := records + [Record(events, stage.answers, if script(k) == Completes then ByFallback else Lost)];
      stage := Waiting;
      finished := true;
    }

    method Submit(event: AuditEvent<P>) returns (r: Submission)
      modifies worker
      ensures worker.View() == After(worker.config, old(worker.View()), Event.Submit(event))
      ensures r == if old(worker.closed) then RuntimeError else Returned(Accepts(worker.config, old(worker.View())))
    {
      r := worker.Submit(event);
    }

    /** The worker awaits its callback and settles the batch, unless it is cancelled before the callback is done. */
    method FlushBatch(script: nat -> Await)
      requires worker.phase.Flushing? && stage.Waiting?
      modifies this, worker
      ensures var clean := SanitizeAll(sanitize, old(worker.phase).batch);
              && View() == (if clean.Some? then Written(Begun(old(View()), clean.value), script, 0) else old(View()))
              && worker.View() == (if stage.Waiting? then After(worker.config, old(worker.View()), EndFlush(clean.Some?))
                                   else old(worker.View()))
    {
      var r := Flush(worker.phase.batch, script);
      if r != Interrupted {
        worker.FlushBatch(r == Done);
      }
    }
  }

  // ----- runs: anything may come between two awaits of a flush -----

  datatype Step<P> =
    | OfQueue(event: Event<AuditEvent<P>>)
    | Begin
    | PrimaryAnswers(ok: bool)
    | Wake
    | FallbackAnswers(ok: bool)

  datatype State<P> = State(d: DispatchRuns.State<AuditEvent<P>>, l: Ledger<P>)

  function Settings(queueSize: int, batchMax: int): Config {
    Config(queueSize, batchMax, DropNewest)
  }

  /** Whether the flush ends with this step, and how the worker counts it. */
  function Ending<P>(sanitize: Sanitizer<P>, s: State<P>, step: Step<P>): Option<bool> {
    if !s.d.w.phase.Flushing? then None
    else match (step, s.l.stage)
      case (Begin, Waiting) => if SanitizeAll(sanitize, s.d.w.phase.batch).None? then Some(false) else None
      case (PrimaryAnswers(ok), Writing(_, _)) => if ok then Some(true) else None
      case (FallbackAnswers(_), FallingBack(_, _)) => Some(true)
      case _ => None
  }

  /** How the worker sees a step: only its own, and the end of a flush. */
  function Seen<P>(sanitize: Sanitizer<P>, s: State<P>, step: Step<P>): Option<Event<AuditEvent<P>>> {
    if step.OfQueue? then if step.event.EndFlush? then None else Some(step.event)
    else match Ending(sanitize, s, step)
      case Some(ok) => Some(EndFlush(ok))
      case None => None
  }

  function Dispatched<P>(c: Config, d: DispatchRuns.State<AuditEvent<P>>, seen: Option<Event<AuditEvent<P>>>)
    : DispatchRuns.State<AuditEvent<P>>
  {
    if seen.None? then d else DispatchRuns.Next(c, d, seen.value)
  }

  /** What a step of the flush does to the ledger; once the worker has been cancelled there are none. */
  function Advanced<P>(sanitize: Sanitizer<P>, s: State<P>, step: Step<P>): Ledger<P> {
    if !s.d.w.phase.Flushing? then s.l
    else match (step, s.l.stage)
      case (Begin, Waiting) =>
        var clean := SanitizeAll(sanitize, s.d.w.phase.batch);
        if clean.None? then s.l else Begun(s.l, clean.value)
      case (PrimaryAnswers(ok), Writing(_, _)) => PrimaryAnswered(s.l, ok)
      case (Wake, Sleeping(_, _)) => Woken(s.l)
      case (FallbackAnswers(ok), FallingBack(_, _)) => FallbackAnswered(s.l, ok)
      case _ => s.l
  }

  function Next<P>(sanitize: Sanitizer<P>, c: Config, s: State<P>, step: Step<P>): State<P> {
    State(Dispatched(c, s.d, Seen(sanitize, s, step)), Advanced(sanitize, s, step))
  }

  function Run<P>(sanitize: Sanitizer<P>, c: Config, steps: seq<Step<P>>): State<P> {
    if |steps| == 0 then State(DispatchRuns.Run<AuditEvent<P>>(c, []), Ledger([], [], [], 0, Waiting))
    else Next(sanitize, c, Run(sanitize, c, steps[..|steps| - 1]), steps[|steps| - 1])
  }

  function Events<P>(sanitize: Sanitizer<P>, c: Config, steps: seq<Step<P>>): seq<Event<AuditEvent<P>>> {
    if |steps| == 0 then []
    else
      var seen := Seen(sanitize, Run(sanitize, c, steps[..|steps| - 1]), steps[|steps| - 1]);
      Events(sanitize, c, steps[..|steps| - 1]) + if seen.None? then [] else [seen.value]
  }

  /** An audit run is a run of the worker, so all that holds of the worker holds here. */
  lemma {:induction false} IsWorkerRun<P>(sanitize: Sanitizer<P>, c: Config, steps: seq<Step<P>>)
    ensures Run(sanitize, c, steps).d == DispatchRuns.Run(c, Events(sanitize, c, steps))
  {
    if |steps| > 0 {
      hide DispatchRuns.Next, Seen, Advanced;
      var before := Events(sanitize, c, steps[..|steps| - 1]);
      IsWorkerRun(sanitize, c, steps[..|steps| - 1]);
      assert before + [] == before;
      assert Events(sanitize, c, steps)[..|before|] == before;
    }
  }

  function RunFrom<P>(sanitize: Sanitizer<P>, c: Config, s: State<P>, steps: seq<Step<P>>): State<P>
    decreases |steps|
  {
    if |steps| == 0 then s else RunFrom(sanitize, c, Next(sanitize, c, s, steps[0]), steps[1..])
  }

  /** What `Flush` does from its first call on, cancelled or not, is a run in which nothing comes between its steps. */
  lemma {:induction false} WriteIsRun<P>(sanitize: Sanitizer<P>, c: Config, s: State<P>, script: nat -> Await, k: nat)
    returns (steps: seq<Step<P>>)
    requires s.d.w.phase.Flushing? && !s.l.stage.Waiting? && OnTrack(s.l.stage)
    ensures var t := RunFrom(sanitize, c, s, steps);
            && t.l == Written(s.l, script, k)
            && t.d.w == if t.l.stage.Waiting? then After(c, s.d.w, EndFlush(true)) else s.d.w
    decreases AwaitsLeft(s.l.stage)
  {
    if script(k) == Cancelled {
      steps := [];
    } else {
      hide SanitizeAll, DispatchRuns.Record;
      var step: Step<P> :=
        match s.l.stage
        case Writing(_, _) => PrimaryAnswers(script(k) == Completes)
        case Sleeping(_, _) => Wake
        case _ => FallbackAnswers(script(k) == Completes);
      var t := Next(sanitize, c, s, step);
      if t.l.stage.Waiting? {
        steps := [step];
        assert steps[1..] == [];
      } else {
        var rest := WriteIsRun(sanitize, c, t, script, k + 1);
        steps := [step] + rest;
        assert steps[1..] == rest;
      }
    }
  }

  // ----- the ledger by itself: calls, answers, fates and the metric -----

  function Copies<P>(events: seq<AuditEvent<P>>, n: nat): seq<seq<AuditEvent<P>>> {
    if n == 0 then [] else Copies(events, n - 1) + [events]
  }

  lemma {:induction false} CopiesAre<P>(events: seq<AuditEvent<P>>, n: nat)
    ensures |Copies(events, n)| == n && forall i :: 0 <= i < n ==> Copies(events, n)[i] == events
  {
    if n > 0 {
      CopiesAre(events, n - 1);
    }
  }

  /** The calls of the primary that the records account for: one for each answer. */
  function Offers<P>(records: seq<Record<P>>): seq<seq<AuditEvent<P>>> {
    if |records| == 0 then []
    else
      var last := records[|records| - 1];
      Offers(records[..|records| - 1]) + Copies(last.events, |last.answers|)
  }

  /** The batches of the records, all of them or those the primary failed. */
  function Batches<P>(records: seq<Record<P>>, failedOnly: bool): seq<seq<AuditEvent<P>>> {
    if |records| == 0 then []
    else
      Batches(records[..|records| - 1], failedOnly)
      + if failedOnly && records[|records| - 1].fate.ByPrimary? then [] else [records[|records| - 1].events]
  }

  function Tally<P>(records: seq<Record<P>>, fate: Fate): nat {
    if |records| == 0 then 0
    else
      var last := records[|records| - 1];
      Tally(records[..|records| - 1], fate) + if last.fate == fate then |last.events| else 0
  }

  lemma RecordAppended<P>(records: seq<Record<P>>, r: Record<P>)
    ensures Offers(records + [r]) == Offers(records) + Copies(r.events, |r.answers|)
    ensures Batches(records + [r], false) == Batches(records, false) + [r.events]
    ensures Batches(records + [r], true) == Batches(records, true) + if r.fate.ByPrimary? then [] else [r.events]
    ensures forall fate :: Tally(records + [r], fate) == Tally(records, fate) + if r.fate == fate then |r.events| else 0
  {
    assert (records + [r])[..|records|] == records;
  }

  predicate AllFailed(answers: seq<bool>) {
    forall i :: 0 <= i < |answers| ==> !answers[i]
  }

  /** The primary took the batch at the last answer, or failed it three times, which the fallback then had to settle. */
  predicate Answered<P>(r: Record<P>) {
    && 1 <= |r.answers| <= 3
    && AllFailed(r.answers[..|r.answers| - 1])
    && (r.answers[|r.answers| - 1] <==> r.fate.ByPrimary?)
    && (!r.fate.ByPrimary? ==> |r.answers| == 3)
  }

  /** A flush under way has only failures behind it; it has been at the fallback since the third. */
  predicate StageInOrder<P>(stage: Stage<P>) {
    match stage
    case Waiting => true
    case Writing(_, answers) => |answers| < 3 && AllFailed(answers)
    case Sleeping(_, answers) => 1 <= |answers| < 3 && AllFailed(answers)
    case FallingBack(_, answers) => |answers| == 3 && AllFailed(answers)
  }

  /** The calls of the primary that the flush under way has made. */
  function Tried<P>(stage: Stage<P>): seq<seq<AuditEvent<P>>> {
    match stage
    case Waiting => []
    case Writing(events, answers) => Copies(events, |answers| + 1)
    case Sleeping(events, answers) => Copies(events, |answers|)
    case FallingBack(events, answers) => Copies(events, |answers|)
  }

  /** Every call is accounted for by a record or by the flush under way, and the metric counts the failed batches. */
  ghost predicate LedgerInOrder<P>(l: Ledger<P>) {
    && StageInOrder(l.stage)
    && (forall i :: 0 <= i < |l.records| ==> Answered(l.records[i]))
    && l.primaryCalls == Offers(l.records) + Tried(l.stage)
    && l.fallbackCalls == Batches(l.records, true) + (if l.stage.FallingBack? then [l.stage.events] else [])
    && l.writeFailed == Tally(l.records, ByFallback) + Tally(l.records, Lost)
                        + (if l.stage.FallingBack? then |l.stage.events| else 0)
  }

  lemma BegunInOrder<P>(l: Ledger<P>, events: seq<AuditEvent<P>>)
    requires LedgerInOrder(l) && l.stage.Waiting?
    ensures LedgerInOrder(Begun(l, events))
  {
    hide Offers, Batches, Tally, Answered;
    assert Copies(events, 1) == [] + [events];
  }

  lemma PrimaryAnsweredInOrder<P>(l: Ledger<P>, ok: bool)
    requires LedgerInOrder(l) && l.stage.Writing?
    ensures LedgerInOrder(PrimaryAnswered(l, ok))
  {
    hide Offers, Batches, Tally, Copies;
    var answers := l.stage.answers + [ok];
    assert answers[..|answers| - 1] == l.stage.answers;
    RecordAppended(l.records, Record(l.stage.events, answers, ByPrimary));
  }

  lemma WokenInOrder<P>(l: Ledger<P>)
    requires LedgerInOrder(l) && l.stage.Sleeping?
    ensures LedgerInOrder(Woken(l))
  {
    hide Offers, Batches, Tally, Answered;
  }

  lemma FallbackAnsweredInOrder<P>(l: Ledger<P>, ok: bool)
    requires LedgerInOrder(l) && l.stage.FallingBack?
    ensures LedgerInOrder(FallbackAnswered(l, ok))
  {
    hide Offers, Batches, Tally, Copies;
    RecordAppended(l.records, Record(l.stage.events, l.stage.answers, if ok then ByFallback else Lost));
  }

  lemma StepKeepsLedger<P>(sanitize: Sanitizer<P>, s: State<P>, step: Step<P>)
    requires LedgerInOrder(s.l)
    ensures LedgerInOrder(Advanced(sanitize, s, step))
  {
    hide LedgerInOrder, SanitizeAll, Begun, PrimaryAnswered, Woken, FallbackAnswered;
    if s.d.w.phase.Flushing? {
      match (step, s.l.stage) {
        case (Begin, Waiting) =>
          if SanitizeAll(sanitize, s.d.w.phase.batch).Some? {
            BegunInOrder(s.l, SanitizeAll(sanitize, s.d.w.phase.batch).value);
          }
        case (PrimaryAnswers(ok), Writing(_, _)) => PrimaryAnsweredInOrder(s.l, ok);
        case (Wake, Sleeping(_, _)) => WokenInOrder(s.l);
        case (FallbackAnswers(ok), FallingBack(_, _)) => FallbackAnsweredInOrder(s.l, ok);
        case _ =>
      }
    }
  }

  lemma {:induction false} LedgerAlwaysInOrder<P>(sanitize: Sanitizer<P>, c: Config, steps: seq<Step<P>>)
    ensures LedgerInOrder(Run(sanitize, c, steps).l)
  {
    if |steps| > 0 {
      hide LedgerInOrder, Advanced, Dispatched;
      LedgerAlwaysInOrder(sanitize, c, steps[..|steps| - 1]);
      StepKeepsLedger(sanitize, Run(sanitize, c, steps[..|steps| - 1]), steps[|steps| - 1]);
    }
  }

  // ----- the ledger and the worker -----

  /** The sanitised images of the batches that were flushed, in order. */
  function Cleaned<P>(sanitize: Sanitizer<P>, delivered: seq<DispatchRuns.Delivery<AuditEvent<P>>>)
    : seq<seq<AuditEvent<P>>>
  {
    if |delivered| == 0 then []
    else
      var front, last := Cleaned(sanitize, delivered[..|delivered| - 1]), delivered[|delivered| - 1];
      match SanitizeAll(sanitize, last.batch)
      case Some(clean) => front + [clean]
      case None => front
  }

  /** A flush under way, or cut off by the end of the worker, is of the sanitised batch in the worker's hand. */
  ghost predicate HeldIsFlushed<P>(sanitize: Sanitizer<P>, s: State<P>) {
    !s.l.stage.Waiting? ==>
      && (s.d.w.phase.Flushing? || s.d.w.phase.Stopped?)
      && SanitizeAll(sanitize, DispatchRuns.Held(s.d.w)) == Some(s.l.stage.events)
  }

  /** Each batch the worker counts is settled once, in its sanitised form; it fails exactly when the sanitiser does. */
  ghost predicate Settled<P>(sanitize: Sanitizer<P>, s: State<P>) {
    && HeldIsFlushed(sanitize, s)
    && Batches(s.l.records, false) == Cleaned(sanitize, s.d.h.delivered)
    && (forall i :: 0 <= i < |s.d.h.delivered| ==>
          s.d.h.delivered[i].ok == SanitizeAll(sanitize, s.d.h.delivered[i].batch).Some?)
    && s.d.w.flushed == Tally(s.l.records, ByPrimary) + Tally(s.l.records, ByFallback) + Tally(s.l.records, Lost)
  }

  lemma CleanedAppend<P>(sanitize: Sanitizer<P>, delivered: seq<DispatchRuns.Delivery<AuditEvent<P>>>,
                         d: DispatchRuns.Delivery<AuditEvent<P>>)
    ensures Cleaned(sanitize, delivered + [d])
            == Cleaned(sanitize, delivered)
               + match SanitizeAll(sanitize, d.batch) case Some(clean) => [clean] case None => []
  {
    assert (delivered + [d])[..|delivered|] == delivered;
    assert Cleaned(sanitize, delivered) + [] == Cleaned(sanitize, delivered);
  }

  /** A step of the queue leaves what is flushed alone, also when it cuts the flush off. */
  lemma QueueStepSettles<P>(sanitize: Sanitizer<P>, c: Config, s: State<P>, e: Event<AuditEvent<P>>)
    requires Settled(sanitize, s)
    ensures Settled(sanitize, Next(sanitize, c, s, OfQueue(e)))
  {
    hide Batches, Cleaned, Tally, SanitizeAll, DispatchRuns.OldestQueued;
  }

  /** What the end of a flush does to worker and history. */
  lemma EndedFlush<P>(c: Config, d: DispatchRuns.State<AuditEvent<P>>, ok: bool)
    requires d.w.phase.Flushing?
    ensures var t := DispatchRuns.Next(c, d, EndFlush(ok));
            && t.h.delivered == d.h.delivered + [DispatchRuns.Delivery(d.w.phase.batch, ok)]
            && t.w.flushed == d.w.flushed + (if ok then |d.w.phase.batch| else 0)
  {
  }

  /** The sanitiser raised: the worker counts a failed flush, and no backend is called. */
  lemma RaiseSettles<P>(sanitize: Sanitizer<P>, c: Config, s: State<P>)
    requires Settled(sanitize, s) && Ending(sanitize, s, Begin).Some?
    ensures Settled(sanitize, Next(sanitize, c, s, Begin))
  {
    EndedFlush(c, s.d, false);
    CleanedAppend(sanitize, s.d.h.delivered, DispatchRuns.Delivery(s.d.w.phase.batch, false));
    hide Batches, Cleaned, Tally, SanitizeAll, DispatchRuns.Next;
    assert Cleaned(sanitize, s.d.h.delivered) + [] == Cleaned(sanitize, s.d.h.delivered);
  }

  /** The end of a flush that leaves a record. */
  lemma RecordSettles<P>(sanitize: Sanitizer<P>, c: Config, s: State<P>, step: Step<P>)
    requires Settled(sanitize, s) && Ending(sanitize, s, step).Some? && step != Begin
    ensures Settled(sanitize, Next(sanitize, c, s, step))
  {
    hide Batches, Cleaned, Tally, SanitizeAll, DispatchRuns.Next;
    EndedFlush(c, s.d, true);
    CleanedAppend(sanitize, s.d.h.delivered, DispatchRuns.Delivery(s.d.w.phase.batch, true));
    RecordAppended(s.l.records, Advanced(sanitize, s, step).records[|s.l.records|]);
  }

  lemma StepSettles<P>(sanitize: Sanitizer<P>, c: Config, s: State<P>, step: Step<P>)
    requires Settled(sanitize, s)
    ensures Settled(sanitize, Next(sanitize, c, s, step))
  {
    if step.OfQueue? {
      QueueStepSettles(sanitize, c, s, step.event);
    } else if Ending(sanitize, s, step).Some? && step == Begin {
      RaiseSettles(sanitize, c, s);
    } else if Ending(sanitize, s, step).Some? {
      RecordSettles(sanitize, c, s, step);
    } else {
      hide Batches, Cleaned, Tally, SanitizeAll, DispatchRuns.Next;
    }
  }

  lemma {:induction false} AlwaysSettled<P>(sanitize: Sanitizer<P>, c: Config, steps: seq<Step<P>>)
    ensures Settled(sanitize, Run(sanitize, c, steps))
  {
    if |steps| > 0 {
      hide Next, Settled;
      AlwaysSettled(sanitize, c, steps[..|steps| - 1]);
      StepSettles(sanitize, c, Run(sanitize, c, steps[..|steps| - 1]), steps[|steps| - 1]);
    }
  }

  // ----- what follows for every run -----

  /**
   * Where every submitted event is, in every reachable state: `Held` is in flight, or lost with a worker cut off. The
   * metric is ahead of the fates by the batch that the fallback has been given and not answered for.
   */
  lemma EveryEventAccounted<P>(sanitize: Sanitizer<P>, queueSize: int, batchMax: int, steps: seq<Step<P>>)
    ensures var s := Run(sanitize, Settings(queueSize, batchMax), steps);
            && s.d.w.submitted == Tally(s.l.records, ByPrimary) + Tally(s.l.records, ByFallback) + Tally(s.l.records, Lost)
                                  + s.d.w.flushFailed + |s.d.w.queue| + |DispatchRuns.Held(s.d.w)|
            && s.l.writeFailed == Tally(s.l.records, ByFallback) + Tally(s.l.records, Lost)
                                  + (if s.l.stage.FallingBack? then |DispatchRuns.Held(s.d.w)| else 0)
  {
    hide Run, Tally, Cleaned, Batches, Offers, DispatchRuns.Run, DispatchRuns.Total, Events;
    var c := Settings(queueSize, batchMax);
    LedgerAlwaysInOrder(sanitize, c, steps);
    AlwaysSettled(sanitize, c, steps);
    IsWorkerRun(sanitize, c, steps);
    DispatchRuns.AlwaysConserved(c, Events(sanitize, c, steps));
  }

  /** The metric grows by the size of the batch in hand exactly with the third failure of the primary on it. */
  lemma FailuresCountedExactly<P>(sanitize: Sanitizer<P>, c: Config, steps: seq<Step<P>>, step: Step<P>)
    ensures var s := Run(sanitize, c, steps);
            var t := Next(sanitize, c, s, step);
            var third := && step == PrimaryAnswers(false) && s.d.w.phase.Flushing?
                         && s.l.stage.Writing? && |s.l.stage.answers| == MAX_ATTEMPTS - 1;
            && t.l.writeFailed == s.l.writeFailed + (if third then |s.d.w.phase.batch| else 0)
            && t.l.fallbackCalls == s.l.fallbackCalls + (if third then [s.l.stage.events] else [])
            && (third ==> AllFailed(t.l.stage.answers) && |t.l.stage.answers| == MAX_ATTEMPTS)
  {
    hide Run, DispatchRuns.Next, Offers, Batches, Tally, Cleaned, Copies;
    LedgerAlwaysInOrder(sanitize, c, steps);
    AlwaysSettled(sanitize, c, steps);
    var s := Run(sanitize, c, steps);
    assert s.l.fallbackCalls + [] == s.l.fallbackCalls;
  }

  /**
   * The primary is handed each batch until it takes it, three times at most, and the fallback exactly those that the
   * primary failed three times: these are all the calls there are, with those of a flush under way or cut off.
   */
  lemma RetriesUntilTaken<P>(sanitize: Sanitizer<P>, c: Config, steps: seq<Step<P>>)
    ensures var l := Run(sanitize, c, steps).l;
            && (forall i :: 0 <= i < |l.records| ==> Answered(l.records[i]))
            && StageInOrder(l.stage)
            && l.primaryCalls == Offers(l.records) + Tried(l.stage)
            && l.fallbackCalls == Batches(l.records, true) + (if l.stage.FallingBack? then [l.stage.events] else [])
  {
    hide Run, Offers, Batches, Tally, Answered, StageInOrder, Tried;
    LedgerAlwaysInOrder(sanitize, c, steps);
  }

  /** A batch is by the primary, by the fallback or lost exactly as the answers to the calls say. */
  lemma FatesExactly<P>(sanitize: Sanitizer<P>, c: Config, steps: seq<Step<P>>, step: Step<P>)
    ensures var s := Run(sanitize, c, steps);
            var t := Next(sanitize, c, s, step);
            var n := |DispatchRuns.Held(s.d.w)|;
            var running := s.d.w.phase.Flushing?;
            && Tally(t.l.records, ByPrimary) == Tally(s.l.records, ByPrimary)
               + (if running && s.l.stage.Writing? && step == PrimaryAnswers(true) then n else 0)
            && Tally(t.l.records, ByFallback) == Tally(s.l.records, ByFallback)
               + (if running && s.l.stage.FallingBack? && step == FallbackAnswers(true) then n else 0)
            && Tally(t.l.records, Lost) == Tally(s.l.records, Lost)
               + (if running && s.l.stage.FallingBack? && step == FallbackAnswers(false) then n else 0)
  {
    hide Run, DispatchRuns.Next, Offers, Batches, Tally, Cleaned, Copies;
    AlwaysSettled(sanitize, c, steps);
    var s := Run(sanitize, c, steps);
    if Ending(sanitize, s, step).Some? && !s.l.stage.Waiting? {
      RecordAppended(s.l.records, Next(sanitize, c, s, step).l.records[|s.l.records|]);
    }
  }

  /** Once the worker has stopped, at whichever await, no backend is called any more and nothing is counted. */
  lemma {:induction false} NothingAfterShutdown<P>(sanitize: Sanitizer<P>, c: Config, steps: seq<Step<P>>, more: seq<Step<P>>)
    requires Run(sanitize, c, steps).d.w.phase.Stopped?
    ensures Run(sanitize, c, steps + more).d.w.phase.Stopped?
    ensures Run(sanitize, c, steps + more).l == Run(sanitize, c, steps).l
  {
    if |more| == 0 {
      assert steps + more == steps;
    } else {
      assert (steps + more)[..|steps + more| - 1] == steps + more[..|more| - 1];
      NothingAfterShutdown(sanitize, c, steps, more[..|more| - 1]);
    }
  }

  // ----- what the backends get to see -----

  lemma {:induction false} OffersAreBatches<P(!new)>(records: seq<Record<P>>, call: seq<AuditEvent<P>>)
    requires call in Offers(records)
    ensures call in Batches(records, false)
  {
    var last := records[|records| - 1];
    if call in Offers(records[..|records| - 1]) {
      OffersAreBatches(records[..|records| - 1], call);
    } else {
      CopiesAre(last.events, |last.answers|);
    }
  }

  lemma {:induction false} FailedAreBatches<P(!new)>(records: seq<Record<P>>, call: seq<AuditEvent<P>>)
    requires call in Batches(records, true)
    ensures call in Batches(records, false)
  {
    if call in Batches(records[..|records| - 1], true) {
      FailedAreBatches(records[..|records| - 1], call);
    }
  }

  /** A sanitised batch is the image of a delivered one, event by event. */
  lemma {:induction false} IsCleaned<P(!new)>(sanitize: Sanitizer<P>, delivered: seq<DispatchRuns.Delivery<AuditEvent<P>>>,
                                              call: seq<AuditEvent<P>>) returns (batch: seq<AuditEvent<P>>)
    requires call in Cleaned(sanitize, delivered)
    ensures SanitizeAll(sanitize, batch) == Some(call)
  {
    hide SanitizeAll;
    if call in Cleaned(sanitize, delivered[..|delivered| - 1]) {
      batch := IsCleaned(sanitize, delivered[..|delivered| - 1], call);
    } else {
      batch := delivered[|delivered| - 1].batch;
    }
  }

  /** Every call of either backend, of finished, running and interrupted flushes alike, is of a sanitised batch. */
  lemma CallIsSanitised<P(!new)>(sanitize: Sanitizer<P>, c: Config, steps: seq<Step<P>>, call: seq<AuditEvent<P>>)
    returns (batch: seq<AuditEvent<P>>)
    requires var l := Run(sanitize, c, steps).l; call in l.primaryCalls || call in l.fallbackCalls
    ensures SanitizeAll(sanitize, batch) == Some(call)
    ensures |call| == |batch| && forall i :: 0 <= i < |batch| ==> IsSanitised(sanitize, batch[i], call[i])
  {
    hide Run, Offers, Batches, Tally, Cleaned, SanitizeAll, Copies;
    var s := Run(sanitize, c, steps);
    LedgerAlwaysInOrder(sanitize, c, steps);
    AlwaysSettled(sanitize, c, steps);
    if !s.l.stage.Waiting? && call == s.l.stage.events {
      batch := DispatchRuns.Held(s.d.w);
    } else {
      if call in Offers(s.l.records) {
        OffersAreBatches(s.l.records, call);
      } else if call in Batches(s.l.records, true) {
        FailedAreBatches(s.l.records, call);
      } else {
        TriedAreHeld(s.l.stage, call);
        assert false;
      }
      batch := IsCleaned(sanitize, s.d.h.delivered, call);
    }
    SanitizedExactly(sanitize, batch, call);
  }

  lemma TriedAreHeld<P(!new)>(stage: Stage<P>, call: seq<AuditEvent<P>>)
    requires call in Tried(stage)
    ensures !stage.Waiting? && call == stage.events
  {
    if !stage.Waiting? {
      CopiesAre(stage.events, |stage.answers| + 1);
      CopiesAre(stage.events, |stage.answers|);
    }
  }

  /** Whatever every sanitised payload satisfies, every payload that reaches a backend satisfies. */
  lemma OnlySanitisedReachesBackends<P(!new)>(sanitize: Sanitizer<P>, safe: P -> bool, c: Config, steps: seq<Step<P>>)
    requires forall p: P :: sanitize(p).Some? ==> safe(sanitize(p).value)
    ensures var l := Run(sanitize, c, steps).l;
            forall call: seq<AuditEvent<P>>, e: AuditEvent<P> ::
              (call in l.primaryCalls || call in l.fallbackCalls) && e in call ==> safe(e.payload) && safe(e.details)
  {
    hide Run, SanitizeAll;
    var l := Run(sanitize, c, steps).l;
    forall call: seq<AuditEvent<P>>, e: AuditEvent<P> |
      (call in l.primaryCalls || call in l.fallbackCalls) && e in call
      ensures safe(e.payload) && safe(e.details)
    {
      var batch := CallIsSanitised(sanitize, c, steps, call);
      var k :| 0 <= k < |call| && call[k] == e;
      assert SanitizeEvent(sanitize, batch[k]) == Some(e);
    }
  }
}
