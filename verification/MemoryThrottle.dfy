/** The in-process sliding window over a deque, and its agreement with the full log. */
module MemoryThrottle {
  import opened Prelude
  import S = SlidingLog

  datatype Rate = Rate(count: int, perSeconds: real)

  datatype Decision = Decision(allowed: bool, remaining: int, limit: int, resetAfter: real, resetAt: int)

  /** The deque once its old head has been popped. */
  function Prune(window: seq<real>, cutoff: real): (r: seq<real>)
    ensures |r| <= |window|
    ensures r != [] ==> r[0] >= cutoff
  {
    if window != [] && window[0] < cutoff then Prune(window[1..], cutoff) else window
  }

  function Decide(pruned: seq<real>, rate: Rate, now: real): Decision {
    var allowed := |pruned| < rate.count;
    var oldest := if pruned == [] then now else pruned[0];
    Decision(
      allowed,
      if allowed then rate.count - |pruned| - 1 else 0,
      rate.count,
      MaxReal(0.0, (oldest + rate.perSeconds) - now),
      Trunc(oldest + rate.perSeconds))
  }

  /** One check against the deque of one key. */
  function AfterCheck(window: seq<real>, rate: Rate, now: real): seq<real> {
    var pruned := Prune(window, now - rate.perSeconds);
    if |pruned| < rate.count then pruned + [now] else pruned
  }

  function CheckDecision(window: seq<real>, rate: Rate, now: real): Decision {
    Decide(Prune(window, now - rate.perSeconds), rate, now)
  }

  class InMemoryAsyncThrottle {
    var windows: map<string, seq<real>>

    ghost function Window(key: string): seq<real>
      reads this
    {
      if key in windows then windows[key] else []
    }

    constructor ()
      ensures windows == map[]
    {
      windows := map[];
    }

    method Check(key: string, rate: Rate, now: real) returns (d: Decision)
      modifies this
      ensures windows == old(windows)[key := AfterCheck(old(Window(key)), rate, now)]
      ensures d == CheckDecision(old(Window(key)), rate, now)
    {
      var window := if key in windows then windows[key] else [];
      var cutoff := now - rate.perSeconds;
      while |window| > 0 && window[0] < cutoff
        invariant Prune(window, cutoff) == Prune(old(Window(key)), cutoff)
      {
        window := window[1..];
      }
      var current := |window|;
      var allowed := current < rate.count;
      var remaining, oldest := 0, now;
      if allowed {
        window := window + [now];
        remaining := rate.count - current - 1;
        oldest := window[0];
      } else if |window| > 0 {
        oldest := window[0];
      }
      windows := windows[key := window];
      d := Decision(allowed, remaining, rate.count, MaxReal(0.0, (oldest + rate.perSeconds) - now),
                    Trunc(oldest + rate.perSeconds));
    }

    method Reset(key: string)
      modifies this
      ensures windows == old(windows) - {key}
    {
      windows := windows - {key};
    }
  }

  // ----- the deque refines the log -----

  datatype State = State(window: seq<real>, now: real, decisions: seq<Decision>)

  function Next(rate: Rate, s: State, e: S.Event): State {
    match e
    case Check(gap) =>
      State(AfterCheck(s.window, rate, s.now + gap), s.now + gap,
            s.decisions + [CheckDecision(s.window, rate, s.now + gap)])
    case Reset => s.(window := [])
  }

  /** The checks and resets of one key with one rate, from a throttle that has not seen the key. */
  function Run(rate: Rate, start: real, es: seq<S.Event>): State {
    if es == [] then State([], start, []) else Next(rate, Run(rate, start, es[..|es| - 1]), es[|es| - 1])
  }

  function LimitOf(rate: Rate): S.Limit {
    S.Limit(rate.count, rate.perSeconds, S.Kept)
  }

  /** The count left after a check that found `found` admissions. */
  function Remaining(count: int, a: S.Answer): int {
    if a.allowed then count - a.found - 1 else 0
  }

  lemma {:induction false} PruneIsLive(window: seq<real>, now: real, cutoff: real)
    requires S.Ordered(window, now)
    ensures Prune(window, cutoff) == S.Live(window, cutoff, S.Kept)
  {
    if window != [] {
      var init, x := window[..|window| - 1], window[|window| - 1];
      PruneIsLive(init, x, cutoff);
      PruneAppend(init, x, cutoff);
      assert init + [x] == window;
      if x < cutoff {
        S.LiveAllOld(init, x, cutoff, S.Kept);
      }
    }
  }

  lemma {:induction false} PruneAppend(window: seq<real>, x: real, cutoff: real)
    ensures Prune(window + [x], cutoff)
            == if Prune(window, cutoff) == [] then (if x < cutoff then [] else [x]) else Prune(window, cutoff) + [x]
  {
    if window != [] && window[0] < cutoff {
      assert (window + [x])[1..] == window[1..] + [x];
      PruneAppend(window[1..], x, cutoff);
    }
  }

  /** Pruned to the current cutoff, the deque and the log are the same. */
  predicate Refines(rate: Rate, window: seq<real>, log: seq<real>, now: real) {
    && S.Ordered(window, now)
    && S.Live(window, now - rate.perSeconds, S.Kept) == S.Live(log, now - rate.perSeconds, S.Kept)
  }

  lemma PrunedIsLiveLog(rate: Rate, window: seq<real>, log: seq<real>, before: real, now: real)
    requires Refines(rate, window, log, before) && before <= now
    ensures Prune(window, now - rate.perSeconds) == S.Live(log, now - rate.perSeconds, S.Kept)
  {
    hide Prune, S.Live, S.Ordered;
    S.LiveLive(window, before - rate.perSeconds, now - rate.perSeconds, S.Kept);
    S.LiveLive(log, before - rate.perSeconds, now - rate.perSeconds, S.Kept);
    PruneIsLive(window, before, now - rate.perSeconds);
  }

  lemma CheckRefines(rate: Rate, window: seq<real>, log: seq<real>, before: real, now: real)
    requires rate.perSeconds > 0.0
    requires Refines(rate, window, log, before) && before <= now
    ensures var log' := if S.Ask(LimitOf(rate), log, now).allowed then log + [now] else log;
            && Refines(rate, AfterCheck(window, rate, now), log', now)
            && AfterCheck(window, rate, now) == S.Live(log', now - rate.perSeconds, S.Kept)
  {
    hide Prune, S.Live, S.Ordered;
    var cutoff := now - rate.perSeconds;
    var pruned := Prune(window, cutoff);
    PrunedIsLiveLog(rate, window, log, before, now);
    S.LiveLive(log, cutoff, cutoff, S.Kept);
    PruneIsLive(window, before, cutoff);
    S.LiveOrdered(window, before, cutoff, S.Kept);
    S.OrderedLater(pruned, before, now);
    S.OrderedAppend(pruned, now);
    S.LiveAppend(pruned, now, cutoff, S.Kept);
    S.LiveAppend(log, now, cutoff, S.Kept);
  }

  /** What the caller of a check learns is what counting the whole log would tell. */
  predicate SameAnswer(rate: Rate, d: Decision, a: S.Answer) {
    d.allowed == a.allowed && d.remaining == Remaining(rate.count, a)
  }

  /** The throttle is where the log says, and has decided as the log has answered. */
  ghost predicate Follows(rate: Rate, s: State, log: S.State) {
    && s.now == log.now
    && Refines(rate, s.window, log.log, s.now)
    && |s.decisions| == |log.answers|
    && forall i | 0 <= i < |s.decisions| :: SameAnswer(rate, s.decisions[i], log.answers[i])
  }

  lemma CheckFollows(rate: Rate, s: State, log: S.State, gap: Duration)
    requires rate.perSeconds > 0.0 && Follows(rate, s, log)
    ensures Follows(rate, Next(rate, s, S.Check(gap)), S.Next(LimitOf(rate), log, S.Check(gap)))
  {
    hide Prune, S.Live, S.Ordered, Refines, AfterCheck;
    PrunedIsLiveLog(rate, s.window, log.log, s.now, s.now + gap);
    CheckRefines(rate, s.window, log.log, s.now, s.now + gap);
    assert SameAnswer(rate, CheckDecision(s.window, rate, s.now + gap), S.Ask(LimitOf(rate), log.log, s.now + gap));
  }

  lemma ResetFollows(rate: Rate, s: State, log: S.State)
    requires Follows(rate, s, log)
    ensures Follows(rate, Next(rate, s, S.Reset), S.Next(LimitOf(rate), log, S.Reset))
  {
    S.EmptyLog(s.now, s.now - rate.perSeconds, S.Kept);
  }

  /** On every run the deque gives the decisions that counting the whole log would give. */
  lemma {:induction false} DequeRefinesLog(rate: Rate, start: real, es: seq<S.Event>)
    requires rate.perSeconds > 0.0
    ensures var s, log := Run(rate, start, es), S.Run(LimitOf(rate), start, es);
            && s.now == log.now
            && Refines(rate, s.window, log.log, s.now)
            && |s.decisions| == |log.answers|
            && forall i | 0 <= i < |s.decisions| :: SameAnswer(rate, s.decisions[i], log.answers[i])
  {
    RunFollows(rate, start, es);
    hide Refines, SameAnswer, Run, S.Run;
  }

  lemma {:induction false} RunFollows(rate: Rate, start: real, es: seq<S.Event>)
    requires rate.perSeconds > 0.0
    ensures Follows(rate, Run(rate, start, es), S.Run(LimitOf(rate), start, es))
  {
    if es == [] {
      S.EmptyLog(start, start - rate.perSeconds, S.Kept);
    } else {
      hide Follows, Next, S.Next;
      var s, log := Run(rate, start, es[..|es| - 1]), S.Run(LimitOf(rate), start, es[..|es| - 1]);
      RunFollows(rate, start, es[..|es| - 1]);
      match es[|es| - 1] {
        case Check(gap) => CheckFollows(rate, s, log, gap);
        case Reset => ResetFollows(rate, s, log);
      }
    }
  }

  /** The next decision is what counting the whole log would tell. */
  lemma DecisionIsAnswer(rate: Rate, start: real, es: seq<S.Event>, gap: Duration)
    requires rate.perSeconds > 0.0
    ensures var s := Run(rate, start, es);
            SameAnswer(rate, CheckDecision(s.window, rate, s.now + gap),
                       S.Ask(LimitOf(rate), S.Run(LimitOf(rate), start, es).log, s.now + gap))
  {
    hide Prune, S.Live, S.Ordered;
    var s := Run(rate, start, es);
    DequeRefinesLog(rate, start, es);
    PrunedIsLiveLog(rate, s.window, S.Run(LimitOf(rate), start, es).log, s.now, s.now + gap);
  }

  /** Right after a check the deque is the part of the log from one window ago, both ends included. */
  lemma DequeIsLiveLog(rate: Rate, start: real, es: seq<S.Event>, gap: Duration)
    requires rate.perSeconds > 0.0
    ensures var s := Next(rate, Run(rate, start, es), S.Check(gap));
            var log := S.Next(LimitOf(rate), S.Run(LimitOf(rate), start, es), S.Check(gap)).log;
            s.window == S.Live(log, s.now - rate.perSeconds, S.Kept)
  {
    hide Prune, S.Live, S.Ordered;
    DequeRefinesLog(rate, start, es);
    var s := Run(rate, start, es);
    CheckRefines(rate, s.window, S.Run(LimitOf(rate), start, es).log, s.now, s.now + gap);
  }

  // ----- what a denial promises -----

  function Elapsed(gaps: seq<Duration>): (d: Duration) {
    if gaps == [] then 0.0 else Elapsed(gaps[..|gaps| - 1]) + gaps[|gaps| - 1]
  }

  lemma WindowAtMostCount(rate: Rate, start: real, es: seq<S.Event>, now: real)
    requires rate.perSeconds > 0.0 && rate.count >= 1 && now >= Run(rate, start, es).now
    ensures |Prune(Run(rate, start, es).window, now - rate.perSeconds)| <= rate.count
  {
    hide Prune, S.Live, S.Ordered;
    var s := Run(rate, start, es);
    DequeRefinesLog(rate, start, es);
    S.FindsAtMostCount(LimitOf(rate), start, es, now);
    PrunedIsLiveLog(rate, s.window, S.Run(LimitOf(rate), start, es).log, s.now, now);
  }

  /** A deque as a denial leaves it: full, and with an oldest entry that still counts. */
  predicate Full(rate: Rate, window: seq<real>) {
    |window| == rate.count && window != []
  }

  lemma FullUntil(rate: Rate, window: seq<real>, now: real)
    requires rate.count >= 1 && Full(rate, window)
    ensures CheckDecision(window, rate, now).allowed <==> now > window[0] + rate.perSeconds
    ensures now <= window[0] + rate.perSeconds ==> AfterCheck(window, rate, now) == window
  {
  }

  /** The run goes on after a denial: `gaps` are the checks that follow it. */
  function Later(rate: Rate, s: State, gaps: seq<Duration>): State {
    if gaps == [] then s else Next(rate, Later(rate, s, gaps[..|gaps| - 1]), S.Check(gaps[|gaps| - 1]))
  }

  lemma {:induction false} StaysFull(rate: Rate, s: State, gaps: seq<Duration>)
    requires rate.count >= 1 && Full(rate, s.window)
    requires s.now + Elapsed(gaps) <= s.window[0] + rate.perSeconds
    ensures Later(rate, s, gaps).window == s.window
    ensures Later(rate, s, gaps).now == s.now + Elapsed(gaps)
    ensures gaps != [] ==> !Later(rate, s, gaps).decisions[|Later(rate, s, gaps).decisions| - 1].allowed
  {
    if gaps != [] {
      StaysFull(rate, s, gaps[..|gaps| - 1]);
      FullUntil(rate, s.window, s.now + Elapsed(gaps));
    }
  }

  /**
   * After a denial every check up to and including now + resetAfter is denied, and the first later one is
   * admitted: of checks that follow the denial with nothing admitted before, the last is admitted exactly
   * when it comes strictly later than resetAfter.
   */
  lemma ResetAfterIsExact(rate: Rate, start: real, es: seq<S.Event>, gap: Duration, gaps: seq<Duration>)
    requires rate.count >= 1 && rate.perSeconds > 0.0 && gaps != []
    requires var s := Run(rate, start, es); !CheckDecision(s.window, rate, s.now + gap).allowed
    requires var s := Run(rate, start, es);
             Elapsed(gaps[..|gaps| - 1]) <= CheckDecision(s.window, rate, s.now + gap).resetAfter
    ensures var s := Run(rate, start, es);
            var later := Later(rate, Next(rate, s, S.Check(gap)), gaps);
            later.decisions[|later.decisions| - 1].allowed
            <==> Elapsed(gaps) > CheckDecision(s.window, rate, s.now + gap).resetAfter
  {
    hide Run, S.Live, S.Ordered;
    var s := Run(rate, start, es);
    WindowAtMostCount(rate, start, es, s.now + gap);
    var denied := Next(rate, s, S.Check(gap));
    StaysFull(rate, denied, gaps[..|gaps| - 1]);
    FullUntil(rate, denied.window, denied.now + Elapsed(gaps));
  }

  // ----- what a decision says besides -----

  /** The fields of a decision at `now` agree with each other and with the rate. */
  predicate WellStated(rate: Rate, d: Decision, now: real, most: real) {
    && d.limit == rate.count && 0 <= d.remaining < rate.count && (!d.allowed ==> d.remaining == 0)
    && 0.0 <= d.resetAfter <= most && d.resetAt == Trunc(now + d.resetAfter)
  }

  /** On every run. */
  lemma DecisionWellStated(rate: Rate, start: real, es: seq<S.Event>, gap: Duration)
    requires rate.count >= 1 && rate.perSeconds > 0.0
    ensures var s := Run(rate, start, es);
            WellStated(rate, CheckDecision(s.window, rate, s.now + gap), s.now + gap, rate.perSeconds)
  {
    hide Run, S.Run, S.Live, S.Ordered, Prune;
    var s, now := Run(rate, start, es), Run(rate, start, es).now + gap;
    var pruned := Prune(s.window, now - rate.perSeconds);
    RunFollows(rate, start, es);
    WindowAtMostCount(rate, start, es, now);
    PruneIsLive(s.window, s.now, now - rate.perSeconds);
    S.LiveOrdered(s.window, s.now, now - rate.perSeconds, S.Kept);
    if pruned != [] {
      S.HeadDecides(pruned, s.now, now - rate.perSeconds, S.Kept);
    }
  }

  /** A slot opens again, with nothing else coming, exactly when more than `reset_after` has passed. */
  lemma ResetAfterFreesSlot(rate: Rate, window: seq<real>, now: real, wait: Duration)
    requires rate.count >= 1 && rate.perSeconds > 0.0
    ensures var after := AfterCheck(window, rate, now);
            |Prune(after, now + wait - rate.perSeconds)| < |after|
            <==> wait > CheckDecision(window, rate, now).resetAfter
  {
  }
}
