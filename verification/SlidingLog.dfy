/** The full log of admissions under one key and one rate: what every sliding window has to agree with. */
module SlidingLog {
  import opened Prelude

  /** Whether an admission exactly one window ago still counts (in-process) or no longer does (Redis script). */
  datatype Edge = Kept | Dropped

  predicate After(stamp: real, lo: real, edge: Edge) {
    if edge == Kept then stamp >= lo else stamp > lo
  }

  /** The admissions that still count when everything up to `lo` has run out. */
  function Live(log: seq<real>, lo: real, edge: Edge): (r: seq<real>)
    ensures |r| <= |log|
  {
    if log == [] then []
    else Live(log[..|log| - 1], lo, edge) + if After(log[|log| - 1], lo, edge) then [log[|log| - 1]] else []
  }

  /** How many admissions lie from `lo` to `hi`; whether `lo` itself is included depends on the edge. */
  function CountSpan(log: seq<real>, lo: real, hi: real, edge: Edge): nat {
    if log == [] then 0
    else
      CountSpan(log[..|log| - 1], lo, hi, edge)
      + if After(log[|log| - 1], lo, edge) && log[|log| - 1] <= hi then 1 else 0
  }

  datatype Limit = Limit(count: int, window: real, edge: Edge)

  predicate ValidLimit(l: Limit) {
    l.count >= 1 && l.window > 0.0
  }

  datatype Event = Check(gap: Duration) | Reset

  /** What a check answers: whether it admits, and how many admissions it found. */
  datatype Answer = Answer(allowed: bool, found: nat)

  datatype State = State(log: seq<real>, now: real, answers: seq<Answer>)

  function Ask(l: Limit, log: seq<real>, now: real): Answer {
    var found := |Live(log, now - l.window, l.edge)|;
    Answer(found < l.count, found)
  }

  function Next(l: Limit, s: State, e: Event): State {
    match e
    case Check(gap) =>
      var a := Ask(l, s.log, s.now + gap);
      State(if a.allowed then s.log + [s.now + gap] else s.log, s.now + gap, s.answers + [a])
    case Reset => s.(log := [])
  }

  /** The admissions since the last reset, after a run from an empty log. */
  function Run(l: Limit, start: real, es: seq<Event>): State {
    if es == [] then State([], start, []) else Next(l, Run(l, start, es[..|es| - 1]), es[|es| - 1])
  }

  // ----- facts about logs -----

  /** The entries never go back, and end at `now` at the latest. */
  predicate Ordered(log: seq<real>, now: real) {
    log == [] || (log[|log| - 1] <= now && Ordered(log[..|log| - 1], log[|log| - 1]))
  }

  lemma EmptyLog(now: real, lo: real, edge: Edge)
    ensures Ordered([], now) && Live([], lo, edge) == []
  {
  }

  lemma OrderedAppend(log: seq<real>, x: real)
    requires Ordered(log, x)
    ensures Ordered(log + [x], x)
  {
    assert (log + [x])[..|log|] == log;
  }

  lemma OrderedLater(log: seq<real>, now: real, now': real)
    requires Ordered(log, now) && now <= now'
    ensures Ordered(log, now')
  {
  }

  lemma LiveAppend(log: seq<real>, x: real, lo: real, edge: Edge)
    ensures Live(log + [x], lo, edge) == Live(log, lo, edge) + if After(x, lo, edge) then [x] else []
  {
    assert (log + [x])[..|log|] == log;
  }

  lemma CountSpanAppend(log: seq<real>, x: real, lo: real, hi: real, edge: Edge)
    ensures CountSpan(log + [x], lo, hi, edge)
            == CountSpan(log, lo, hi, edge) + if After(x, lo, edge) && x <= hi then 1 else 0
  {
    assert (log + [x])[..|log|] == log;
  }

  lemma {:induction false} LiveLive(log: seq<real>, lo: real, lo': real, edge: Edge)
    requires lo <= lo'
    ensures Live(Live(log, lo, edge), lo', edge) == Live(log, lo', edge)
  {
    if log != [] {
      var init, x := log[..|log| - 1], log[|log| - 1];
      LiveLive(init, lo, lo', edge);
      LiveAppend(Live(init, lo, edge), x, lo', edge);
      assert Live(init, lo, edge) + [] == Live(init, lo, edge);
    }
  }

  lemma {:induction false} LiveOrdered(log: seq<real>, now: real, lo: real, edge: Edge)
    requires Ordered(log, now)
    ensures Ordered(Live(log, lo, edge), now)
  {
    if log != [] {
      var init, x := log[..|log| - 1], log[|log| - 1];
      LiveOrdered(init, x, lo, edge);
      OrderedAppend(Live(init, lo, edge), x);
      assert Live(init, lo, edge) + [] == Live(init, lo, edge);
    }
  }

  lemma {:induction false} LiveAllOld(log: seq<real>, now: real, lo: real, edge: Edge)
    requires Ordered(log, now) && !After(now, lo, edge)
    ensures Live(log, lo, edge) == []
  {
    if log != [] {
      LiveAllOld(log[..|log| - 1], log[|log| - 1], lo, edge);
    }
  }

  /** An ordered log is all live exactly when its oldest entry is. */
  lemma {:induction false} HeadDecides(log: seq<real>, now: real, lo: real, edge: Edge)
    requires Ordered(log, now) && log != []
    ensures log[0] <= log[|log| - 1] <= now
    ensures |Live(log, lo, edge)| == |log| <==> After(log[0], lo, edge)
  {
    if |log| > 1 {
      HeadDecides(log[..|log| - 1], log[|log| - 1], lo, edge);
    }
  }

  lemma {:induction false} SpanWithinLive(log: seq<real>, lo: real, hi: real, lo': real, edge: Edge)
    requires lo' <= lo
    ensures CountSpan(log, lo, hi, edge) <= |Live(log, lo', edge)|
  {
    if log != [] {
      SpanWithinLive(log[..|log| - 1], lo, hi, lo', edge);
    }
  }

  lemma {:induction false} LiveIsSpan(log: seq<real>, lo: real, hi: real, edge: Edge)
    requires Ordered(log, hi)
    ensures |Live(log, lo, edge)| == CountSpan(log, lo, hi, edge)
  {
    if log != [] {
      OrderedLater(log[..|log| - 1], log[|log| - 1], hi);
      LiveIsSpan(log[..|log| - 1], lo, hi, edge);
    }
  }

  lemma {:induction false} SpanSplits(log: seq<real>, lo: real, mid: real, hi: real, edge: Edge)
    ensures CountSpan(log, lo, hi, edge) <= CountSpan(log, lo, mid, edge) + CountSpan(log, mid, hi, edge)
  {
    if log != [] {
      SpanSplits(log[..|log| - 1], lo, mid, hi, edge);
    }
  }

  // ----- no window holds more than the limit -----

  lemma {:induction false} RunOrdered(l: Limit, start: real, es: seq<Event>)
    ensures Ordered(Run(l, start, es).log, Run(l, start, es).now)
  {
    if es != [] {
      var s := Run(l, start, es[..|es| - 1]);
      RunOrdered(l, start, es[..|es| - 1]);
      if es[|es| - 1].Check? {
        OrderedLater(s.log, s.now, s.now + es[|es| - 1].gap);
        OrderedAppend(s.log, s.now + es[|es| - 1].gap);
      }
    }
  }

  /** How many admissions one window holds that starts at `lo`. */
  function WindowCount(l: Limit, log: seq<real>, lo: real): nat {
    CountSpan(log, lo, lo + l.window, l.edge)
  }

  /** An admission falls into a window only while a check finds fewer than `count` in it. */
  lemma CheckKeepsWindow(l: Limit, log: seq<real>, now: real, lo: real)
    requires ValidLimit(l)
    requires WindowCount(l, log, lo) <= l.count
    ensures Ask(l, log, now).allowed ==> WindowCount(l, log + [now], lo) <= l.count
  {
    hide Live, CountSpan, After;
    CountSpanAppend(log, now, lo, lo + l.window, l.edge);
    if now <= lo + l.window {
      SpanWithinLive(log, lo, lo + l.window, now - l.window, l.edge);
    }
  }

  lemma StepKeepsWindow(l: Limit, s: State, e: Event, lo: real)
    requires ValidLimit(l)
    requires WindowCount(l, s.log, lo) <= l.count
    ensures WindowCount(l, Next(l, s, e).log, lo) <= l.count
  {
    if e.Check? {
      hide WindowCount, Ask;
      CheckKeepsWindow(l, s.log, s.now + e.gap, lo);
    } else {
      assert CountSpan([], lo, lo + l.window, l.edge) == 0;
    }
  }

  /** Every window of every run, wherever it starts, holds at most `count` admissions. */
  lemma {:induction false} WindowHoldsAtMostCount(l: Limit, start: real, es: seq<Event>, lo: real)
    requires ValidLimit(l)
    ensures WindowCount(l, Run(l, start, es).log, lo) <= l.count
  {
    if es != [] {
      WindowHoldsAtMostCount(l, start, es[..|es| - 1], lo);
      StepKeepsWindow(l, Run(l, start, es[..|es| - 1]), es[|es| - 1], lo);
    }
  }

  lemma {:induction false} SpanGrows(log: seq<real>, lo: real, hi: real, hi': real, edge: Edge)
    requires hi <= hi'
    ensures CountSpan(log, lo, hi, edge) <= CountSpan(log, lo, hi', edge)
  {
    if log != [] {
      SpanGrows(log[..|log| - 1], lo, hi, hi', edge);
    }
  }

  lemma OneWindowOff(lo: real, hi: real, k: nat, window: real, count: int, first: int, rest: int)
    requires k > 0 && hi - lo <= (k + 1) as real * window
    requires first <= count && rest <= count * (k - 1 + 1)
    ensures hi - (lo + window) <= (k - 1 + 1) as real * window
    ensures first + rest <= count * (k + 1)
  {
    MulStep(k, window);
    MulDistributes(count, k, 1);
  }

  lemma {:induction false} SpanOfWindows(l: Limit, log: seq<real>, lo: real, hi: real, k: nat)
    requires forall x :: WindowCount(l, log, x) <= l.count
    requires hi - lo <= (k + 1) as real * l.window
    ensures CountSpan(log, lo, hi, l.edge) <= l.count * (k + 1)
    decreases k
  {
    var first := WindowCount(l, log, lo);
    if k == 0 {
      SpanGrows(log, lo, hi, lo + l.window, l.edge);
    } else {
      OneWindowOff(lo, hi, k, l.window, 0, 0, 0);
      SpanOfWindows(l, log, lo + l.window, hi, k - 1);
      SpanSplits(log, lo, lo + l.window, hi, l.edge);
      OneWindowOff(lo, hi, k, l.window, l.count, first, CountSpan(log, lo + l.window, hi, l.edge));
    }
  }

  /** Every interval of any length holds at most count * (floor(length / window) + 1) admissions. */
  lemma IntervalHoldsAtMost(l: Limit, start: real, es: seq<Event>, lo: real, length: Duration)
    requires ValidLimit(l)
    ensures CountSpan(Run(l, start, es).log, lo, lo + length, l.edge)
            <= l.count * ((length / l.window).Floor + 1)
  {
    var k := (length / l.window).Floor;
    FloorOfQuotient(0, l.window, length);
    FloorOfQuotient(k + 1, l.window, length);
    forall x ensures WindowCount(l, Run(l, start, es).log, x) <= l.count {
      WindowHoldsAtMostCount(l, start, es, x);
    }
    SpanOfWindows(l, Run(l, start, es).log, lo, lo + length, k);
  }

  /** A check never finds more than `count` admissions, so it is denied exactly when it finds `count`. */
  lemma FindsAtMostCount(l: Limit, start: real, es: seq<Event>, now: real)
    requires ValidLimit(l) && now >= Run(l, start, es).now
    ensures Ask(l, Run(l, start, es).log, now).found <= l.count
  {
    hide Live, CountSpan, Ordered;
    RunOrdered(l, start, es);
    WindowHoldsAtMostCount(l, start, es, now - l.window);
    OrderedLater(Run(l, start, es).log, Run(l, start, es).now, now);
    LiveIsSpan(Run(l, start, es).log, now - l.window, now, l.edge);
  }
}
