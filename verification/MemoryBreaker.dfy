/** The types that both breaker backends share. */
module BreakerTypes {
  import opened Exceptions

  datatype BreakerState = Closed | Open | HalfOpen

  datatype Config = Config(failMax: int, resetTimeout: real, successThreshold: int, excluded: seq<Class>)

  /** What the breaker records about a finished call; cancellations and excluded exceptions are not recorded. */
  datatype Verdict = Success | Failure | Uncounted

  function Judge(c: Config, o: Outcome): Verdict {
    match o
    case Returned(_) => Success
    case Raised(e) =>
      if IsInstance(e, CANCELLED) then Uncounted
      else if Caught(e, c.excluded) then Uncounted
      else Failure
  }

  /**
   * A return is a success; an exception that is a cancellation, or an instance of an excluded class, counts for nothing,
   * and any other is a failure.
   */
  lemma JudgedExactly(c: Config, o: Outcome)
    ensures Judge(c, o) == Success <==> o.Returned?
    ensures Judge(c, o) == Uncounted <==> o.Raised? && Excused(c, o.exc)
  {
    if o.Raised? {
      var names := o.exc.class_.ancestors;
      assert Caught(o.exc, c.excluded) <==> exists k :: k in c.excluded && k.name in names by {
        if Caught(o.exc, c.excluded) {
          var i :| 0 <= i < |c.excluded| && IsInstance(o.exc, c.excluded[i].name);
          assert c.excluded[i] in c.excluded;
        }
      }
    }
  }

  /** The class of the exception is, or descends from, `CancelledError` or an excluded class. */
  ghost predicate Excused(c: Config, e: Exc) {
    "CancelledError" in e.class_.ancestors || exists k :: k in c.excluded && k.name in e.class_.ancestors
  }

  /** What the caller of `call` gets: the outcome of its own function, or a rejection. */
  datatype Answer = Unavailable | Delivered(outcome: Outcome)
}

/** The in-process breaker: its locked sections as functions, and the class that runs them. */
module MemoryBreaker {
  import opened Prelude
  import opened Exceptions
  import opened BreakerTypes

  datatype Memory = Memory(state: BreakerState, failureCount: int, successCount: int, openedAt: Option<real>)

  const FRESH := Memory(Closed, 0, 0, None)

  function HalfOpened(c: Config, m: Memory, now: real): Memory {
    if m.state == Open && m.openedAt.Some? && now - m.openedAt.value >= c.resetTimeout
    then m.(state := HalfOpen, successCount := 0)
    else m
  }

  function Tripped(now: real): Memory {
    Memory(Open, 0, 0, Some(now))
  }

  function AfterFailure(c: Config, m: Memory, now: real): Memory {
    if m.state == HalfOpen || m.failureCount + 1 >= c.failMax then Tripped(now)
    else m.(failureCount := m.failureCount + 1)
  }

  function AfterSuccess(c: Config, m: Memory): Memory {
    if m.state != HalfOpen then m.(failureCount := 0)
    else if m.successCount + 1 >= c.successThreshold then FRESH
    else m.(successCount := m.successCount + 1)
  }

  function AfterVerdict(c: Config, m: Memory, v: Verdict, now: real): Memory {
    match v
    case Success => AfterSuccess(c, m)
    case Failure => AfterFailure(c, m, now)
    case Uncounted => m
  }

  /** One whole `call` that no other call overlaps: it starts at `start`, and its function ends at `finish`. */
  function SequentialCall(c: Config, m: Memory, start: real, o: Outcome, finish: real): (Memory, Answer) {
    var entered := HalfOpened(c, m, start);
    if entered.state == Open then (entered, Unavailable)
    else (AfterVerdict(c, entered, Judge(c, o), finish), Delivered(o))
  }

  /** What a call leaves behind, by what its function did. */
  lemma CallRecordsExactly(c: Config, m: Memory, start: real, o: Outcome, finish: real)
    ensures var entered := HalfOpened(c, m, start);
            var (after, answer) := SequentialCall(c, m, start, o, finish);
            && (entered.state == Open ==> after == entered && answer == Unavailable)
            && (entered.state != Open ==> answer == Delivered(o))
            && (entered.state != Open && o.Returned? ==> after == AfterSuccess(c, entered))
            && (entered.state != Open && o.Raised? && Excused(c, o.exc) ==> after == entered)
            && (entered.state != Open && o.Raised? && !Excused(c, o.exc) ==> after == AfterFailure(c, entered, finish))
  {
    hide Judge, Excused;
    JudgedExactly(c, o);
  }

  class InMemoryAsyncBreaker {
    const config: Config
    var state: BreakerState
    var failureCount: int
    var successCount: int
    var openedAt: Option<real>

    ghost function View(): Memory
      reads this
    {
      Memory(state, failureCount, successCount, openedAt)
    }

    constructor (config: Config)
      ensures this.config == config && View() == FRESH
    {
      this.config := config;
      state, failureCount, successCount, openedAt := Closed, 0, 0, None;
    }

    /** First locked section of `call` and of `state`. */
    method MaybeHalfOpen(now: real)
      modifies this
      ensures View() == HalfOpened(config, old(View()), now)
    {
      if state != Open || openedAt == None {
        return;
      }
      if now - openedAt.value >= config.resetTimeout {
        state := HalfOpen;
        successCount := 0;
      }
    }

    /** Second locked section of `call`: false is `ServiceUnavailableError`. */
    method Gate() returns (admitted: bool)
      ensures admitted <==> View().state != Open
    {
      admitted := state != Open;
    }

    method RecordFailure(now: real)
      modifies this
      ensures View() == AfterFailure(config, old(View()), now)
    {
      if state == HalfOpen {
        OpenLocked(now);
        return;
      }
      failureCount := failureCount + 1;
      if failureCount >= config.failMax {
        OpenLocked(now);
      }
    }

    method RecordSuccess()
      modifies this
      ensures View() == AfterSuccess(config, old(View()))
    {
      if state == HalfOpen {
        successCount := successCount + 1;
        if successCount >= config.successThreshold {
          state := Closed;
          failureCount := 0;
          successCount := 0;
          openedAt := None;
        }
      } else {
        failureCount := 0;
      }
    }

    method OpenLocked(now: real)
      modifies this
      ensures View() == Tripped(now)
    {
      state := Open;
      openedAt := Some(now);
      successCount := 0;
      failureCount := 0;
    }

    method Reset()
      modifies this
      ensures View() == FRESH
    {
      state := Closed;
      failureCount := 0;
      successCount := 0;
      openedAt := None;
    }

    /** `call`, with the outcome of the awaited function given: nothing is awaited when the breaker rejects. */
    method Call(start: real, outcome: Outcome, finish: real) returns (answer: Answer)
      modifies this
      ensures (View(), answer) == SequentialCall(config, old(View()), start, outcome, finish)
    {
      MaybeHalfOpen(start);
      var admitted := Gate();
      if !admitted {
        return Unavailable;
      }
      var verdict := Judge(config, outcome);
      if verdict == Failure {
        RecordFailure(finish);
      } else if verdict == Success {
        RecordSuccess();
      }
      answer := Delivered(outcome);
    }

    method State(now: real) returns (s: BreakerState)
      modifies this
      ensures View() == HalfOpened(config, old(View()), now) && s == View().state
    {
      MaybeHalfOpen(now);
      s := state;
    }
  }
}
