/** The attempt loop of `retry`, the classes it retries on, and the delays between attempts. */
module Retry {
  import opened Prelude
  import opened Exceptions

  /** Any jitter name other than "none" and "full" selects the decorrelated strategy. */
  datatype Jitter = NoJitter | FullJitter | Decorrelated

  datatype Policy = Policy(
    maxAttempts: int, baseDelay: real, exponentialBase: real, maxDelay: real,
    jitter: Jitter, retryOn: seq<Class>, raiseOnFailure: bool)

  // ----- which exceptions are retried -----

  predicate IsServiceUnavailable(k: Class) {
    SERVICE_UNAVAILABLE in k.ancestors
  }

  function FilterRetryOn(classes: seq<Class>): (r: seq<Class>)
    ensures forall k :: k in r <==> k in classes && !IsServiceUnavailable(k)
  {
    if classes == [] then []
    else (if IsServiceUnavailable(classes[0]) then [] else [classes[0]]) + FilterRetryOn(classes[1..])
  }

  /** The exception reaches the second handler: it is not a `ServiceUnavailableError`, and it is caught. */
  predicate Retryable(p: Policy, e: Exc) {
    !IsInstance(e, SERVICE_UNAVAILABLE) && Caught(e, FilterRetryOn(p.retryOn))
  }

  // ----- the attempts -----

  /** The outcome when the last attempt has failed as well. */
  function Exhausted(p: Policy, e: Exc): Outcome {
    if p.raiseOnFailure then Raised(e) else Returned(PyNone)
  }

  function RetryFrom(p: Policy, script: nat -> Outcome, attempt: nat): (r: (nat, Outcome))
    requires attempt < p.maxAttempts
    ensures attempt < r.0 <= p.maxAttempts
    decreases p.maxAttempts - attempt
  {
    match script(attempt)
    case Returned(v) => (attempt + 1, Returned(v))
    case Raised(e) =>
      if !Retryable(p, e) then (attempt + 1, Raised(e))
      else if attempt == p.maxAttempts - 1 then (attempt + 1, Exhausted(p, e))
      else RetryFrom(p, script, attempt + 1)
  }

  /** How often the function is awaited, and what comes out; `script` gives what each attempt does. */
  function Run(p: Policy, script: nat -> Outcome): (nat, Outcome) {
    if p.maxAttempts <= 0 then (0, Returned(PyNone)) else RetryFrom(p, script, 0)
  }

  predicate RetryableFailure(p: Policy, o: Outcome) {
    o.Raised? && Retryable(p, o.exc)
  }

  /** `calls` attempts are made and `o` comes out: every attempt but the last fails in a retryable way. */
  ghost predicate IsRun(p: Policy, script: nat -> Outcome, calls: nat, o: Outcome) {
    && (forall i: nat | i + 1 < calls :: RetryableFailure(p, script(i)))
    && calls <= Max(0, p.maxAttempts)
    && (if p.maxAttempts <= 0 then o == Returned(PyNone)
        else
          && calls > 0
          && var last := script(calls - 1);
             if RetryableFailure(p, last) then calls == p.maxAttempts && o == Exhausted(p, last.exc)
             else o == last)
  }

  lemma {:induction false} RetryFromIsRun(p: Policy, script: nat -> Outcome, attempt: nat)
    requires attempt < p.maxAttempts
    requires forall i: nat | i < attempt :: RetryableFailure(p, script(i))
    ensures var r := RetryFrom(p, script, attempt); IsRun(p, script, r.0, r.1)
    decreases p.maxAttempts - attempt
  {
    if RetryableFailure(p, script(attempt)) && attempt < p.maxAttempts - 1 {
      RetryFromIsRun(p, script, attempt + 1);
    }
  }

  /** The loop makes the one run that the attempts allow, and no other. */
  lemma RunExactly(p: Policy, script: nat -> Outcome, calls: nat, o: Outcome)
    ensures IsRun(p, script, calls, o) <==> (calls, o) == Run(p, script)
  {
    var r := Run(p, script);
    if p.maxAttempts > 0 {
      RetryFromIsRun(p, script, 0);
      if IsRun(p, script, calls, o) {
        var last, last' := script(calls - 1), script(r.0 - 1);
        assert calls < r.0 ==> RetryableFailure(p, last);
        assert r.0 < calls ==> RetryableFailure(p, last');
      }
    }
  }

  /** An open breaker inside the retried function is asked once only, whatever classes the caller lists. */
  lemma NeverRetriesUnavailable(p: Policy, script: nat -> Outcome, i: nat)
    requires script(i).Raised? && IsInstance(script(i).exc, SERVICE_UNAVAILABLE)
    ensures Run(p, script).0 <= i + 1
    ensures Run(p, script).0 == i + 1 ==> Run(p, script).1 == script(i)
  {
    var r := Run(p, script);
    RunExactly(p, script, r.0, r.1);
    assert r.0 > i + 1 ==> RetryableFailure(p, script(i));
  }

  /** The exception is no `ServiceUnavailableError`, and an instance of a listed class that is none either. */
  ghost predicate Listed(p: Policy, e: Exc) {
    && "ServiceUnavailableError" !in e.class_.ancestors
    && exists k :: k in p.retryOn && "ServiceUnavailableError" !in k.ancestors && k.name in e.class_.ancestors
  }

  lemma RetryableIsListed(p: Policy, e: Exc)
    ensures Retryable(p, e) <==> Listed(p, e)
  {
    hide FilterRetryOn;
    var safe := FilterRetryOn(p.retryOn);
    if Caught(e, safe) {
      var i :| 0 <= i < |safe| && IsInstance(e, safe[i].name);
      assert safe[i] in safe;
    }
    if exists k :: k in p.retryOn && !IsServiceUnavailable(k) && k.name in e.class_.ancestors {
      var k :| k in p.retryOn && !IsServiceUnavailable(k) && k.name in e.class_.ancestors;
      assert k in safe;
      var i :| 0 <= i < |safe| && safe[i] == k;
      assert IsInstance(e, safe[i].name);
    }
  }

  /** Once attempt `i` is made, there is a next one exactly if one is left and this one raises what is to be retried. */
  lemma ContinuesExactly(p: Policy, script: nat -> Outcome, i: nat)
    requires i < Run(p, script).0
    ensures i + 1 < Run(p, script).0 <==> i + 1 < p.maxAttempts && script(i).Raised? && Listed(p, script(i).exc)
  {
    hide Retryable, Listed, Run;
    var r := Run(p, script);
    RunExactly(p, script, r.0, r.1);
    if script(i).Raised? {
      RetryableIsListed(p, script(i).exc);
    }
    assert i + 1 < r.0 ==> RetryableFailure(p, script(i));
  }

  /** What comes out is what the last attempt did, unless the attempts are used up and nothing is to be raised. */
  lemma EndsExactly(p: Policy, script: nat -> Outcome)
    ensures Run(p, script).0 == 0 <==> p.maxAttempts <= 0
    ensures var (calls, o) := Run(p, script);
            o == if calls == 0 then Returned(PyNone)
                 else if script(calls - 1).Raised? && Listed(p, script(calls - 1).exc) && !p.raiseOnFailure then Returned(PyNone)
                 else script(calls - 1)
  {
    hide Retryable, Listed, Run;
    var r := Run(p, script);
    RunExactly(p, script, r.0, r.1);
    if r.0 > 0 && script(r.0 - 1).Raised? {
      RetryableIsListed(p, script(r.0 - 1).exc);
    }
  }

  function AlwaysRaises(e: Exc): nat -> Outcome {
    (attempt: nat) => Raised(e)
  }

  lemma AlwaysFailing(p: Policy, e: Exc)
    requires p.maxAttempts >= 1 && p.raiseOnFailure && Retryable(p, e)
    ensures Run(p, AlwaysRaises(e)) == (p.maxAttempts, Raised(e))
  {
    RunExactly(p, AlwaysRaises(e), p.maxAttempts, Raised(e));
  }

  // ----- the delays -----

  function Power(b: real, n: nat): real {
    if n == 0 then 1.0 else b * Power(b, n - 1)
  }

  /** `random.uniform(a, b)` for a draw between 0 and 1. */
  function Uniform(a: real, b: real, draw: real): real {
    a + (b - a) * draw
  }

  function ExponentialBackoff(p: Policy, attempt: nat): real {
    MinReal(p.maxDelay, p.baseDelay * Power(p.exponentialBase, attempt))
  }

  function DecorrelatedJitter(p: Policy, previous: real, draw: real): real {
    MinReal(p.maxDelay, Uniform(p.baseDelay, MaxReal(p.baseDelay, previous * 3.0), draw))
  }

  function NextDelay(p: Policy, attempt: nat, previous: real, draw: real): real {
    match p.jitter
    case NoJitter => ExponentialBackoff(p, attempt)
    case FullJitter => Uniform(0.0, ExponentialBackoff(p, attempt), draw)
    case Decorrelated => DecorrelatedJitter(p, previous, draw)
  }

  function Previous(p: Policy, delays: seq<real>, i: nat): real
    requires i <= |delays|
  {
    if i == 0 then p.baseDelay else delays[i - 1]
  }

  /** The delay at this position follows from the one before it and the draw. */
  predicate Linked(p: Policy, delays: seq<real>, draws: nat -> real, i: nat)
    requires i < |delays|
  {
    delays[i] == NextDelay(p, i, Previous(p, delays, i), draws(i))
  }

  predicate Chained(p: Policy, delays: seq<real>, draws: nat -> real) {
    forall i | 0 <= i < |delays| :: Linked(p, delays, draws, i)
  }

  lemma ChainedAppend(p: Policy, delays: seq<real>, draws: nat -> real)
    requires Chained(p, delays, draws)
    ensures Chained(p, delays + [NextDelay(p, |delays|, Previous(p, delays, |delays|), draws(|delays|))], draws)
  {
    var d := NextDelay(p, |delays|, Previous(p, delays, |delays|), draws(|delays|));
    forall i | 0 <= i <= |delays| ensures Linked(p, delays + [d], draws, i) {
      assert i < |delays| ==> Linked(p, delays, draws, i);
    }
  }

  /** The loop, synchronous or asynchronous; `delays` are the sleeps. */
  method Attempt(p: Policy, script: nat -> Outcome, draws: nat -> real)
    returns (calls: nat, outcome: Outcome, delays: seq<real>)
    ensures (calls, outcome) == Run(p, script)
    ensures |delays| == if calls == 0 then 0 else calls - 1
    ensures Chained(p, delays, draws)
  {
    var safe := FilterRetryOn(p.retryOn);
    var lastExc: Option<Exc> := None;
    var previousDelay := p.baseDelay;
    calls, delays := 0, [];
    while calls < p.maxAttempts
      invariant |delays| == calls <= Max(0, p.maxAttempts)
      invariant p.maxAttempts > 0 ==> calls < p.maxAttempts && Run(p, script) == RetryFrom(p, script, calls)
      invariant previousDelay == Previous(p, delays, calls)
      invariant calls == 0 ==> lastExc == None
      invariant Chained(p, delays, draws)
      decreases p.maxAttempts - calls
    {
      var result := script(calls);
      calls := calls + 1;
      if result.Returned? || IsInstance(result.exc, SERVICE_UNAVAILABLE) || !Caught(result.exc, safe) {
        return calls, result, delays;
      }
      lastExc := Some(result.exc);
      if calls == p.maxAttempts {
        break;
      }
      var delay := NextDelay(p, calls - 1, previousDelay, draws(calls - 1));
      ChainedAppend(p, delays, draws);
      previousDelay := delay;
      delays := delays + [delay];
    }
    outcome := if p.raiseOnFailure && lastExc.Some? then Raised(lastExc.value) else Returned(PyNone);
  }

  lemma UniformWithin(a: real, b: real, draw: real)
    requires a <= b && 0.0 <= draw <= 1.0
    ensures a <= Uniform(a, b, draw) <= b
  {
    MulNonNegative(b - a, draw);
    MulNonNegative(b - a, 1.0 - draw);
    assert (b - a) * (1.0 - draw) == (b - a) - (b - a) * draw;
  }

  lemma {:induction false} PowerGrows(b: real, n: nat)
    requires b >= 0.0
    ensures Power(b, n) >= 0.0
    ensures b >= 1.0 ==> Power(b, n + 1) >= Power(b, n) >= 1.0
  {
    if n > 0 {
      PowerGrows(b, n - 1);
      MulNonNegative(b, Power(b, n - 1));
    }
    if b >= 1.0 {
      MulNonNegative(b - 1.0, Power(b, n));
      assert (b - 1.0) * Power(b, n) == b * Power(b, n) - Power(b, n);
    }
  }

  predicate Sane(p: Policy) {
    p.baseDelay >= 0.0 && p.maxDelay >= 0.0 && p.exponentialBase >= 0.0
  }

  lemma ExponentialWithin(p: Policy, i: nat)
    requires Sane(p)
    ensures 0.0 <= ExponentialBackoff(p, i) <= p.maxDelay
    ensures p.exponentialBase >= 1.0 ==> ExponentialBackoff(p, i) <= ExponentialBackoff(p, i + 1)
  {
    PowerGrows(p.exponentialBase, i);
    MulNonNegative(p.baseDelay, Power(p.exponentialBase, i));
    if p.exponentialBase >= 1.0 {
      var x, y := Power(p.exponentialBase, i), Power(p.exponentialBase, i + 1);
      MulNonNegative(p.baseDelay, y - x);
      assert p.baseDelay * (y - x) == p.baseDelay * y - p.baseDelay * x;
    }
  }

  lemma DecorrelatedWithin(p: Policy, previous: real, draw: real, i: nat)
    requires Sane(p) && 0.0 <= draw <= 1.0
    requires previous <= p.baseDelay * Power(3.0, i)
    ensures MinReal(p.baseDelay, p.maxDelay) <= DecorrelatedJitter(p, previous, draw) <= p.maxDelay
    ensures DecorrelatedJitter(p, previous, draw) <= p.baseDelay * Power(3.0, i + 1)
  {
    UniformWithin(p.baseDelay, MaxReal(p.baseDelay, previous * 3.0), draw);
    PowerGrows(3.0, i + 1);
    var y := Power(3.0, i + 1);
    MulNonNegative(p.baseDelay, y - 1.0);
    assert p.baseDelay * (y - 1.0) == p.baseDelay * y - p.baseDelay;
    assert p.baseDelay * y == 3.0 * (p.baseDelay * Power(3.0, i));
  }

  /** Every delay of every run stays under the cap, and decorrelated delays start at the base and at most triple. */
  lemma {:induction false} DelayWithin(p: Policy, delays: seq<real>, draws: nat -> real, i: nat)
    requires Sane(p) && Chained(p, delays, draws) && i < |delays|
    requires forall j: nat :: 0.0 <= draws(j) <= 1.0
    ensures 0.0 <= delays[i] <= p.maxDelay
    ensures p.jitter == Decorrelated ==>
              MinReal(p.baseDelay, p.maxDelay) <= delays[i] <= p.baseDelay * Power(3.0, i + 1)
    ensures p.jitter == NoJitter && p.exponentialBase >= 1.0 && i > 0 ==> delays[i - 1] <= delays[i]
  {
    assert Linked(p, delays, draws, i);
    ExponentialWithin(p, i);
    match p.jitter {
      case NoJitter =>
        if i > 0 {
          assert Linked(p, delays, draws, i - 1);
          ExponentialWithin(p, i - 1);
        }
      case FullJitter =>
        UniformWithin(0.0, ExponentialBackoff(p, i), draws(i));
      case Decorrelated =>
        if i > 0 {
          DelayWithin(p, delays, draws, i - 1);
        }
        DecorrelatedWithin(p, Previous(p, delays, i), draws(i), i);
    }
  }

  /**
   * What each delay is: it grows from the base by the exponential base up to the cap; full jitter takes the drawn part
   * of that; decorrelated jitter draws between the base and three times the delay before.
   */
  lemma DelayExactly(p: Policy, delays: seq<real>, draws: nat -> real, i: nat)
    requires Sane(p) && Chained(p, delays, draws) && i < |delays|
    ensures p.jitter == NoJitter && i == 0 ==> delays[i] == MinReal(p.maxDelay, p.baseDelay)
    ensures p.jitter == NoJitter && i > 0 && p.exponentialBase >= 1.0 ==>
              delays[i] == MinReal(p.maxDelay, p.exponentialBase * delays[i - 1])
    ensures p.jitter == FullJitter ==> delays[i] == draws(i) * ExponentialBackoff(p, i)
    ensures p.jitter == Decorrelated ==>
              var before := if i == 0 then p.baseDelay else delays[i - 1];
              var most := MaxReal(p.baseDelay, 3.0 * before);
              delays[i] == MinReal(p.maxDelay, (1.0 - draws(i)) * p.baseDelay + draws(i) * most)
  {
    hide NextDelay, ExponentialBackoff;
    assert Linked(p, delays, draws, i);
    NextDelayExactly(p, i, Previous(p, delays, i), draws(i));
    BackoffBegins(p);
    if i > 0 {
      assert Linked(p, delays, draws, i - 1);
      NextDelayExactly(p, i - 1, Previous(p, delays, i - 1), draws(i - 1));
      BackoffGrows(p, i - 1);
    }
  }

  lemma NextDelayExactly(p: Policy, attempt: nat, previous: real, draw: real)
    ensures var d := NextDelay(p, attempt, previous, draw);
            match p.jitter
            case NoJitter => d == ExponentialBackoff(p, attempt)
            case FullJitter => d == draw * ExponentialBackoff(p, attempt)
            case Decorrelated =>
              var most := MaxReal(p.baseDelay, 3.0 * previous);
              d == MinReal(p.maxDelay, (1.0 - draw) * p.baseDelay + draw * most)
  {
    hide Uniform, ExponentialBackoff;
    assert 3.0 * previous == previous * 3.0;
    UniformIsMixture(p.baseDelay, MaxReal(p.baseDelay, previous * 3.0), draw);
    UniformIsMixture(0.0, ExponentialBackoff(p, attempt), draw);
  }

  lemma UniformIsMixture(a: real, b: real, draw: real)
    ensures Uniform(a, b, draw) == (1.0 - draw) * a + draw * b
  {
  }

  lemma BackoffBegins(p: Policy)
    ensures ExponentialBackoff(p, 0) == MinReal(p.maxDelay, p.baseDelay)
  {
  }

  /** The recurrence that the closed form satisfies, the cap included. */
  lemma BackoffGrows(p: Policy, i: nat)
    requires Sane(p)
    ensures p.exponentialBase >= 1.0 ==>
              ExponentialBackoff(p, i + 1) == MinReal(p.maxDelay, p.exponentialBase * ExponentialBackoff(p, i))
  {
    if p.exponentialBase >= 1.0 {
      var b, x := p.exponentialBase, p.baseDelay * Power(p.exponentialBase, i);
      PowerGrows(b, i);
      MulNonNegative(p.baseDelay, Power(b, i));
      assert p.baseDelay * Power(b, i + 1) == b * x;
      MulNonNegative(b - 1.0, x);
      MulNonNegative(b - 1.0, p.maxDelay);
      assert (b - 1.0) * p.maxDelay == b * p.maxDelay - p.maxDelay;
      if x >= p.maxDelay {
        MulNonNegative(b, x - p.maxDelay);
        assert b * (x - p.maxDelay) == b * x - b * p.maxDelay;
      }
    }
  }
}
