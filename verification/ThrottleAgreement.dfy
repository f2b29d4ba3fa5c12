/** When the in-process window and the Redis window give the same decisions. */
module ThrottleAgreement {
  import opened Prelude
  import S = SlidingLog
  import M = MemoryThrottle
  import L = SlidingLua

  /** What `RedisAsyncThrottle.check` makes of a reply; `now` is the client's clock. */
  function RedisDecision(rate: M.Rate, r: L.Reply, now: real): M.Decision {
    M.Decision(r.allowed, Max(0, rate.count - r.count), rate.count, r.ttl, Trunc(now) + Trunc(r.ttl))
  }

  /** The window of the in-process throttle, and that of the script, which is given whole seconds. */
  function WithEdge(rate: M.Rate, edge: S.Edge): S.Limit {
    S.Limit(rate.count, if edge == S.Kept then rate.perSeconds else Trunc(rate.perSeconds) as real, edge)
  }

  predicate HoldsBetween(log: seq<real>, lo: real, hi: real) {
    log != [] && (lo <= log[|log| - 1] <= hi || HoldsBetween(log[..|log| - 1], lo, hi))
  }

  /** Some retained admission is at most one window old, and not less than the whole seconds of it. */
  predicate Touches(rate: M.Rate, log: seq<real>, now: real) {
    HoldsBetween(log, now - rate.perSeconds, now - Trunc(rate.perSeconds) as real)
  }

  /** Some check of the run finds such an admission of the in-process throttle. */
  predicate EverTouches(rate: M.Rate, start: real, es: seq<S.Event>) {
    es != []
    && (EverTouches(rate, start, es[..|es| - 1])
        || (es[|es| - 1].Check?
            && var s := S.Run(WithEdge(rate, S.Kept), start, es[..|es| - 1]);
               Touches(rate, s.log, s.now + es[|es| - 1].gap)))
  }

  /** The parts of an answer that the caller sees: whether it may go on, and how many are left. */
  predicate LooksSame(rate: M.Rate, a: S.Answer, b: S.Answer) {
    a.allowed == b.allowed && M.Remaining(rate.count, a) == M.Remaining(rate.count, b)
  }

  predicate AllLookSame(rate: M.Rate, a: seq<S.Answer>, b: seq<S.Answer>) {
    |a| == |b| && forall i | 0 <= i < |a| :: LooksSame(rate, a[i], b[i])
  }

  lemma {:induction false} EdgesDiffer(log: seq<real>, lo: real, hi: real)
    requires lo <= hi
    ensures |S.Live(log, hi, S.Dropped)| <= |S.Live(log, lo, S.Kept)|
    ensures |S.Live(log, hi, S.Dropped)| == |S.Live(log, lo, S.Kept)| <==> !HoldsBetween(log, lo, hi)
  {
    if log != [] {
      EdgesDiffer(log[..|log| - 1], lo, hi);
    }
  }

  /** On one log the two answers look the same exactly when no admission has an age between the two windows. */
  lemma AnswersAgreeExactly(rate: M.Rate, log: seq<real>, now: real)
    requires rate.perSeconds >= 0.0
    requires S.Ask(WithEdge(rate, S.Kept), log, now).found <= rate.count
    ensures LooksSame(rate, S.Ask(WithEdge(rate, S.Kept), log, now), S.Ask(WithEdge(rate, S.Dropped), log, now))
            <==> !Touches(rate, log, now)
  {
    hide S.Live, HoldsBetween;
    EdgesDiffer(log, now - rate.perSeconds, now - Trunc(rate.perSeconds) as real);
  }

  lemma SameAppend(rate: M.Rate, a: seq<S.Answer>, b: seq<S.Answer>, x: S.Answer, y: S.Answer)
    requires |a| == |b|
    ensures AllLookSame(rate, a + [x], b + [y]) <==> AllLookSame(rate, a, b) && LooksSame(rate, x, y)
  {
    assert (a + [x])[|a|] == x && (b + [y])[|b|] == y;
    assert forall i | 0 <= i < |a| :: (a + [x])[i] == a[i] && (b + [y])[i] == b[i];
  }

  lemma {:induction false} LogsAgreeExactly(rate: M.Rate, start: real, es: seq<S.Event>)
    requires rate.count >= 1 && rate.perSeconds > 0.0
    ensures var m, r := S.Run(WithEdge(rate, S.Kept), start, es), S.Run(WithEdge(rate, S.Dropped), start, es);
            && m.now == r.now && |m.answers| == |r.answers|
            && (AllLookSame(rate, m.answers, r.answers) <==> !EverTouches(rate, start, es))
            && (!EverTouches(rate, start, es) ==> m.log == r.log)
  {
    hide S.Live, LooksSame, AllLookSame, S.Ask, Touches;
    if es == [] {
      NothingDiffers(rate);
    } else {
      var before := es[..|es| - 1];
      LogsAgreeExactly(rate, start, before);
      var m, r := S.Run(WithEdge(rate, S.Kept), start, before), S.Run(WithEdge(rate, S.Dropped), start, before);
      if es[|es| - 1].Check? {
        var now := m.now + es[|es| - 1].gap;
        S.FindsAtMostCount(WithEdge(rate, S.Kept), start, before, now);
        AnswersAgreeExactly(rate, m.log, now);
        SameAppend(rate, m.answers, r.answers, S.Ask(WithEdge(rate, S.Kept), m.log, now),
                   S.Ask(WithEdge(rate, S.Dropped), r.log, now));
        SameAllowed(rate, S.Ask(WithEdge(rate, S.Kept), m.log, now), S.Ask(WithEdge(rate, S.Dropped), r.log, now));
      }
    }
  }

  lemma NothingDiffers(rate: M.Rate)
    ensures AllLookSame(rate, [], [])
  {
  }

  lemma SameAllowed(rate: M.Rate, a: S.Answer, b: S.Answer)
    ensures LooksSame(rate, a, b) ==> a.allowed == b.allowed
  {
  }

  // ----- the two implementations -----

  /** The script as `_eval` calls it, with the whole seconds of the rate. */
  function SettingOf(rate: M.Rate, expires: bool, keep: bool): L.Setting {
    L.Setting(rate.count, Trunc(rate.perSeconds) as real, expires, keep)
  }

  predicate Agree(rate: M.Rate, m: M.State, r: L.State) {
    && |m.decisions| == |r.replies|
    && forall i | 0 <= i < |m.decisions| ::
         && m.decisions[i].allowed == RedisDecision(rate, r.replies[i], m.now).allowed
         && m.decisions[i].remaining == RedisDecision(rate, r.replies[i], m.now).remaining
  }

  lemma RepliesLookLike(rate: M.Rate, d: M.Decision, a: S.Answer, r: L.Reply, b: S.Answer, now: real)
    requires rate.count >= 1
    requires M.SameAnswer(rate, d, a) && L.SameAnswer(r, b)
    requires b.allowed <==> b.found < rate.count
    ensures (d.allowed == RedisDecision(rate, r, now).allowed && d.remaining == RedisDecision(rate, r, now).remaining)
            <==> LooksSame(rate, a, b)
  {
  }

  lemma {:induction false} AskedOf(l: S.Limit, start: real, es: seq<S.Event>)
    ensures forall a | a in S.Run(l, start, es).answers :: a.allowed <==> a.found < l.count
  {
    if es != [] {
      AskedOf(l, start, es[..|es| - 1]);
    }
  }

  /**
   * Fed the same times, the two throttles give the same `allowed` and `remaining` throughout a run exactly when no
   * check of it finds an admission, retained by the in-process throttle, that the script has dropped; for a rate of
   * whole seconds that is one exactly one window old.
   */
  lemma ThrottlesAgreeExactly(rate: M.Rate, start: real, es: seq<S.Event>, expires: bool, keep: bool)
    requires rate.count >= 1 && rate.perSeconds >= 1.0 && start >= 0.0
    ensures Agree(rate, M.Run(rate, start, es), L.Run(SettingOf(rate, expires, keep), start, es))
            <==> !EverTouches(rate, start, es)
  {
    hide S.Run, M.Run, L.Run, LooksSame, M.SameAnswer, L.SameAnswer, RedisDecision, EverTouches, L.Members,
      S.Ordered, S.Live;
    var x := SettingOf(rate, expires, keep);
    var m, r := M.Run(rate, start, es), L.Run(x, start, es);
    M.DequeRefinesLog(rate, start, es);
    L.SetRefinesLog(x, start, es);
    LogsAgreeExactly(rate, start, es);
    assert M.LimitOf(rate) == WithEdge(rate, S.Kept) && L.LimitOf(x) == WithEdge(rate, S.Dropped);
    var a, b := S.Run(WithEdge(rate, S.Kept), start, es).answers, S.Run(WithEdge(rate, S.Dropped), start, es).answers;
    AskedOf(WithEdge(rate, S.Dropped), start, es);
    forall i | 0 <= i < |a|
      ensures (m.decisions[i].allowed == RedisDecision(rate, r.replies[i], m.now).allowed
               && m.decisions[i].remaining == RedisDecision(rate, r.replies[i], m.now).remaining)
              <==> LooksSame(rate, a[i], b[i])
    {
      assert b[i] in b;
      RepliesLookLike(rate, m.decisions[i], a[i], r.replies[i], b[i], m.now);
    }
  }

  lemma FirstCheck(l: S.Limit, start: real, gap: Duration)
    requires l.count >= 1
    ensures S.Run(l, start, [S.Check(gap)]).log == [start + gap] && S.Run(l, start, [S.Check(gap)]).now == start + gap
  {
    var es := [S.Check(gap)];
    assert es[..|es| - 1] == [];
    S.EmptyLog(start, start + gap - l.window, l.edge);
  }

  /** For whole seconds, touching is having an admission that is exactly one window old. */
  lemma {:induction false} TouchesWholeSeconds(log: seq<real>, lo: real)
    ensures HoldsBetween(log, lo, lo) <==> lo in log
  {
    if log != [] {
      TouchesWholeSeconds(log[..|log| - 1], lo);
      assert lo in log <==> lo in log[..|log| - 1] || lo == log[|log| - 1];
    }
  }

  lemma TouchesLast(rate: M.Rate, start: real, es: seq<S.Event>, gap: Duration)
    requires var s := S.Run(WithEdge(rate, S.Kept), start, es); Touches(rate, s.log, s.now + gap)
    ensures EverTouches(rate, start, es + [S.Check(gap)])
  {
    hide Touches, S.Run;
    assert (es + [S.Check(gap)])[..|es|] == es;
  }

  /** A first check, and a second exactly one window later: the two throttles do not agree. */
  lemma BoundaryIsVisible(rate: M.Rate, start: real, expires: bool, keep: bool)
    requires rate.count >= 1 && rate.perSeconds >= 1.0 && start >= 0.0
    ensures var es := [S.Check(0.0)] + [S.Check(rate.perSeconds)];
            !Agree(rate, M.Run(rate, start, es), L.Run(SettingOf(rate, expires, keep), start, es))
  {
    hide S.Run, M.Run, L.Run, EverTouches, Agree;
    FirstCheck(WithEdge(rate, S.Kept), start, 0.0);
    TouchesLast(rate, start, [S.Check(0.0)], rate.perSeconds);
    ThrottlesAgreeExactly(rate, start, [S.Check(0.0)] + [S.Check(rate.perSeconds)], expires, keep);
  }

  // ----- what the Redis decision says besides -----

  /** A whole number of seconds added to a time that is not negative. */
  lemma TruncOfSum(now: real, ttl: real)
    requires now >= 0.0 && ttl >= 0.0 && ttl == Trunc(ttl) as real
    ensures Trunc(now) + Trunc(ttl) == Trunc(now + ttl)
  {
  }

  /** On every run the fields of the decision that is made of a reply agree with each other and with the rate. */
  lemma RedisDecisionWellStated(rate: M.Rate, start: real, es: seq<S.Event>, gap: Duration, keep: bool)
    requires rate.count >= 1 && rate.perSeconds >= 1.0 && start >= 0.0
    ensures var x := SettingOf(rate, true, keep);
            var s := L.Run(x, start, es);
            M.WellStated(rate, RedisDecision(rate, L.EvalReply(x, s.keys, s.now + gap), s.now + gap), s.now + gap, x.window)
  {
    hide L.Run, L.EvalReply;
    var x := SettingOf(rate, true, keep);
    var s := L.Run(x, start, es);
    L.ReplyWithin(x, start, es, gap, Trunc(rate.perSeconds));
    TruncOfSum(s.now + gap, L.EvalReply(x, s.keys, s.now + gap).ttl);
  }

  /** After an admission, with nothing else coming, the window is empty again exactly from `reset_after` on. */
  lemma ResetAfterEmptiesWindow(rate: M.Rate, start: real, es: seq<S.Event>, gap: Duration, wait: Duration, keep: bool)
    requires rate.count >= 1 && rate.perSeconds >= 1.0 && start >= 0.0
    requires var x := SettingOf(rate, true, keep); var s := L.Run(x, start, es);
             L.EvalReply(x, s.keys, s.now + gap).allowed
    ensures var x := SettingOf(rate, true, keep);
            var s := L.Run(x, start, es);
            var log := S.Run(L.LimitOf(x), start, es).log + [s.now + gap];
            S.Live(log, s.now + gap + wait - x.window, S.Dropped) == []
            <==> wait >= RedisDecision(rate, L.EvalReply(x, s.keys, s.now + gap), s.now + gap).resetAfter
  {
    hide L.Run, S.Run, S.Live, S.Ordered, L.EvalReply, L.Members;
    var x := SettingOf(rate, true, keep);
    var log, now := S.Run(L.LimitOf(x), start, es).log, L.Run(x, start, es).now + gap;
    L.ReplyWithin(x, start, es, gap, Trunc(rate.perSeconds));
    L.SetRefinesLog(x, start, es);
    S.RunOrdered(L.LimitOf(x), start, es);
    S.OrderedLater(log, L.Run(x, start, es).now, now);
    S.LiveAppend(log, now, now + wait - x.window, S.Dropped);
    if wait >= x.window {
      S.LiveAllOld(log, now, now + wait - x.window, S.Dropped);
    }
  }
}
