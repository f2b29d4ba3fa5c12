/** The two-bucket fixed window of `FIXED_WINDOW_LUA`, in whole microseconds as TIME reports them. */
module FixedWindow {
  import opened Prelude

  const TICKS := 1_000_000

  datatype Counter = Counter(count: nat, deadline: Option<int>)

  /** `expires` switches EXPIRE on; `keep` says whether a key is still there at its very deadline. */
  datatype Setting = Setting(limit: int, seconds: int, expires: bool, keep: bool)

  predicate ValidSetting(x: Setting) {
    x.limit >= 1 && x.seconds >= 1
  }

  function Width(x: Setting): int {
    x.seconds * TICKS
  }

  function Bucket(x: Setting, now: int): int
    requires x.seconds >= 1
  {
    now / Width(x)
  }

  /** How far into its bucket a time lies. */
  function Position(x: Setting, now: int): (r: int)
    requires x.seconds >= 1
    ensures 0 <= r < Width(x)
  {
    now % Width(x)
  }

  /** Division rounded up. */
  function CeilDiv(a: int, d: int): (q: int)
    requires d > 0
    ensures d * (q - 1) < a <= d * q
  {
    -((-a) / d)
  }

  predicate Gone(deadline: Option<int>, now: int, keep: bool) {
    deadline.Some? && (if keep then now > deadline.value else now >= deadline.value)
  }

  /** GET of a bucket's key: a key that is missing or has expired reads as zero. */
  function Get(x: Setting, buckets: map<int, Counter>, i: int, now: int): nat {
    if i in buckets && !Gone(buckets[i].deadline, now, x.keep) then buckets[i].count else 0
  }

  /** The weighted count of both buckets, times the width of a bucket. */
  function Weight(x: Setting, current: nat, previous: nat, position: int): int {
    current * Width(x) + previous * (Width(x) - position)
  }

  function Weighted(x: Setting, buckets: map<int, Counter>, now: int): int
    requires x.seconds >= 1
  {
    Weight(x, Get(x, buckets, Bucket(x, now), now), Get(x, buckets, Bucket(x, now) - 1, now), Position(x, now))
  }

  predicate Admits(x: Setting, buckets: map<int, Counter>, now: int)
    requires x.seconds >= 1
  {
    Weighted(x, buckets, now) < x.limit * Width(x)
  }

  datatype Reply = Reply(allowed: bool, effective: int, remaining: int)

  function EvalReply(x: Setting, buckets: map<int, Counter>, now: int): Reply
    requires x.seconds >= 1
  {
    var effective := CeilDiv(Weighted(x, buckets, now), Width(x));
    var admits := Admits(x, buckets, now);
    Reply(admits, if admits then effective + 1 else effective, CeilDiv(Width(x) - Position(x, now), TICKS))
  }

  /** One run of the script: INCR and EXPIRE of the current bucket when it admits. */
  function AfterEval(x: Setting, buckets: map<int, Counter>, now: int): map<int, Counter>
    requires x.seconds >= 1
  {
    if !Admits(x, buckets, now) then buckets
    else
      var i := Bucket(x, now);
      buckets[i := Counter(Get(x, buckets, i, now) + 1, if x.expires then Some(now + 2 * Width(x)) else None)]
  }

  class FixedWindowKeys {
    const setting: Setting
    var buckets: map<int, Counter>

    constructor (setting: Setting)
      ensures this.setting == setting && buckets == map[]
    {
      this.setting, this.buckets := setting, map[];
    }

    method Eval(now: int) returns (reply: Reply)
      requires setting.seconds >= 1
      modifies this
      ensures buckets == AfterEval(setting, old(buckets), now)
      ensures reply == EvalReply(setting, old(buckets), now)
    {
      var window := setting.seconds * TICKS;
      var windowStart := now / window * window;
      var currentKey, previousKey := windowStart / window, (windowStart - window) / window;
      KeysOf(setting, now);
      var current := Get(setting, buckets, currentKey, now);
      var previous := Get(setting, buckets, previousKey, now);
      var effective := current * window + previous * (window - (now - windowStart));
      var remaining := CeilDiv(window - (now - windowStart), TICKS);
      if effective >= setting.limit * window {
        return Reply(false, CeilDiv(effective, window), remaining);
      }
      var deadline := None;
      if setting.expires {
        deadline := Some(now + window * 2);
      }
      buckets := buckets[currentKey := Counter(current + 1, deadline)];
      reply := Reply(true, CeilDiv(effective, window) + 1, remaining);
    }
  }

  lemma KeysOf(x: Setting, now: int)
    requires x.seconds >= 1
    ensures var w := Width(x);
            && now / w * w / w == Bucket(x, now)
            && (now / w * w - w) / w == Bucket(x, now) - 1
            && now - now / w * w == Position(x, now)
  {
    var w, i := Width(x), now / Width(x);
    assert i * w == w * i + 0;
    DivUnique(i * w, w, i, 0);
    DivUnique(i * w - w, w, i - 1, 0);
  }

  // ----- runs -----

  datatype State = State(buckets: map<int, Counter>, now: int, log: seq<int>, replies: seq<Reply>)

  function Next(x: Setting, s: State, gap: nat): State
    requires x.seconds >= 1
  {
    var now := s.now + gap;
    State(AfterEval(x, s.buckets, now), now, if Admits(x, s.buckets, now) then s.log + [now] else s.log,
          s.replies + [EvalReply(x, s.buckets, now)])
  }

  /** A run of checks under one key prefix; the log has the times of the admissions. */
  function Run(x: Setting, start: int, gaps: seq<nat>): State
    requires x.seconds >= 1
  {
    if gaps == [] then State(map[], start, [], [])
    else Next(x, Run(x, start, gaps[..|gaps| - 1]), gaps[|gaps| - 1])
  }

  /** The admissions that fall into bucket `i`. */
  function InBucket(x: Setting, log: seq<int>, i: int): nat
    requires x.seconds >= 1
  {
    if log == [] then 0
    else InBucket(x, log[..|log| - 1], i) + if Bucket(x, log[|log| - 1]) == i then 1 else 0
  }

  /** The admissions from `lo` to `hi`, both included. */
  function InSpan(log: seq<int>, lo: int, hi: int): nat {
    if log == [] then 0 else InSpan(log[..|log| - 1], lo, hi) + if lo <= log[|log| - 1] <= hi then 1 else 0
  }

  lemma InBucketAppend(x: Setting, log: seq<int>, t: int, i: int)
    requires x.seconds >= 1
    ensures InBucket(x, log + [t], i) == InBucket(x, log, i) + if Bucket(x, t) == i then 1 else 0
  {
    assert (log + [t])[..|log|] == log;
  }

  lemma InSpanAppend(log: seq<int>, t: int, lo: int, hi: int)
    ensures InSpan(log + [t], lo, hi) == InSpan(log, lo, hi) + if lo <= t <= hi then 1 else 0
  {
    assert (log + [t])[..|log|] == log;
  }

  lemma BucketMonotone(x: Setting, a: int, b: int)
    requires x.seconds >= 1 && a <= b
    ensures Bucket(x, a) <= Bucket(x, b)
    ensures b < a + Width(x) ==> Bucket(x, b) <= Bucket(x, a) + 1
    ensures Bucket(x, a) * Width(x) <= a < (Bucket(x, a) + 1) * Width(x)
  {
    var w, i, j := Width(x), a / Width(x), b / Width(x);
    assert a == w * i + a % w && b == w * j + b % w;
    if i > j {
      MulMonotone(w, j + 1, i);
    }
    if j > i + 1 {
      MulMonotone(w, i + 2, j);
    }
  }

  // ----- each counter is the number of admissions in its bucket, expired or not -----

  /** Every key counts its bucket, and outlives the bucket after it. */
  predicate KeyInOrder(x: Setting, buckets: map<int, Counter>, log: seq<int>, i: int)
    requires x.seconds >= 1
  {
    if i in buckets then
      && buckets[i].count == InBucket(x, log, i)
      && (buckets[i].deadline.Some? ==> x.expires && buckets[i].deadline.value >= (i + 2) * Width(x))
    else InBucket(x, log, i) == 0
  }

  ghost predicate KeysInOrder(x: Setting, buckets: map<int, Counter>, log: seq<int>)
    requires x.seconds >= 1
  {
    forall i :: KeyInOrder(x, buckets, log, i)
  }

  /** A bucket that is current or previous is read as it is: EXPIRE never drops a counter that is still read. */
  lemma StillRead(x: Setting, buckets: map<int, Counter>, log: seq<int>, now: int, i: int)
    requires x.seconds >= 1 && KeysInOrder(x, buckets, log)
    requires i == Bucket(x, now) || i == Bucket(x, now) - 1
    ensures Get(x, buckets, i, now) == InBucket(x, log, i)
  {
    hide Width, Bucket;
    assert KeyInOrder(x, buckets, log, i);
    BucketMonotone(x, now, now);
    MulMonotone(Width(x), Bucket(x, now) + 1, i + 2);
  }

  lemma CheckKeepsOrder(x: Setting, buckets: map<int, Counter>, log: seq<int>, now: int)
    requires x.seconds >= 1 && KeysInOrder(x, buckets, log)
    ensures KeysInOrder(x, AfterEval(x, buckets, now), if Admits(x, buckets, now) then log + [now] else log)
  {
    hide Width, Bucket, Admits, InBucket;
    if Admits(x, buckets, now) {
      var b := Bucket(x, now);
      StillRead(x, buckets, log, now, b);
      BucketMonotone(x, now, now);
      assert (b + 2) * Width(x) == b * Width(x) + 2 * Width(x);
      forall i ensures KeyInOrder(x, AfterEval(x, buckets, now), log + [now], i) {
        assert KeyInOrder(x, buckets, log, i);
        InBucketAppend(x, log, now, i);
      }
    }
  }

  lemma {:induction false} RunInOrder(x: Setting, start: int, gaps: seq<nat>)
    requires x.seconds >= 1
    ensures KeysInOrder(x, Run(x, start, gaps).buckets, Run(x, start, gaps).log)
  {
    if gaps != [] {
      hide Admits, AfterEval, EvalReply, KeysInOrder;
      var s := Run(x, start, gaps[..|gaps| - 1]);
      RunInOrder(x, start, gaps[..|gaps| - 1]);
      CheckKeepsOrder(x, s.buckets, s.log, s.now + gaps[|gaps| - 1]);
    } else {
      assert forall i :: KeyInOrder(x, map[], [], i);
    }
  }

  lemma WeighedByLog(x: Setting, buckets: map<int, Counter>, log: seq<int>, now: int)
    requires x.seconds >= 1 && KeysInOrder(x, buckets, log)
    ensures Weighted(x, buckets, now)
            == Weight(x, InBucket(x, log, Bucket(x, now)), InBucket(x, log, Bucket(x, now) - 1), Position(x, now))
  {
    StillRead(x, buckets, log, now, Bucket(x, now));
    StillRead(x, buckets, log, now, Bucket(x, now) - 1);
  }

  /** Buckets do not depend on whether EXPIRE is on. */
  lemma {:induction false} SameBuckets(x: Setting, log: seq<int>, i: int)
    requires x.seconds >= 1
    ensures InBucket(x, log, i) == InBucket(x.(expires := false), log, i)
  {
    if log != [] {
      SameBuckets(x, log[..|log| - 1], i);
    }
  }

  lemma SameWeight(x: Setting, with: map<int, Counter>, without: map<int, Counter>, log: seq<int>, now: int)
    requires x.seconds >= 1
    requires KeysInOrder(x, with, log) && KeysInOrder(x.(expires := false), without, log)
    ensures Weighted(x, with, now) == Weighted(x.(expires := false), without, now)
  {
    hide KeysInOrder, Weighted, InBucket;
    WeighedByLog(x, with, log, now);
    WeighedByLog(x.(expires := false), without, log, now);
    SameBuckets(x, log, Bucket(x, now));
    SameBuckets(x, log, Bucket(x, now) - 1);
  }

  /** Running with EXPIRE gives every answer that running without it gives. */
  lemma {:induction false} ExpiryIsInvisible(x: Setting, start: int, gaps: seq<nat>)
    requires x.seconds >= 1
    ensures var with, without := Run(x, start, gaps), Run(x.(expires := false), start, gaps);
            with.replies == without.replies && with.log == without.log && with.now == without.now
  {
    if gaps != [] {
      hide Weighted, KeysInOrder;
      var y := x.(expires := false);
      var s, t := Run(x, start, gaps[..|gaps| - 1]), Run(y, start, gaps[..|gaps| - 1]);
      ExpiryIsInvisible(x, start, gaps[..|gaps| - 1]);
      RunInOrder(x, start, gaps[..|gaps| - 1]);
      RunInOrder(y, start, gaps[..|gaps| - 1]);
      SameWeight(x, s.buckets, t.buckets, s.log, s.now + gaps[|gaps| - 1]);
    }
  }

  /** A counter that was set at `now` reads as it is for two widths, and as zero after that. */
  lemma CounterLives(x: Setting, buckets: map<int, Counter>, now: int, later: int)
    requires x.seconds >= 1 && x.expires && Admits(x, buckets, now)
    ensures var i := Bucket(x, now);
            Get(x, AfterEval(x, buckets, now), i, later)
            == if later < now + 2 * Width(x) || (x.keep && later == now + 2 * Width(x)) then Get(x, buckets, i, now) + 1 else 0
  {
    hide Width, Bucket, Admits;
  }

  // ----- what a reply tells -----

  /** `effective` is the weighted count rounded up, with the admission; `remaining` the seconds to the next bucket. */
  predicate ReplyTells(x: Setting, weight: int, now: int, r: Reply)
    requires x.seconds >= 1
  {
    var before := if r.allowed then r.effective - 1 else r.effective;
    && (r.allowed <==> weight < x.limit * Width(x))
    && Width(x) * (before - 1) < weight <= Width(x) * before
    && Bucket(x, now + r.remaining * TICKS) == Bucket(x, now) + 1
    && Bucket(x, now + (r.remaining - 1) * TICKS) == Bucket(x, now)
  }

  lemma NextBucketAt(x: Setting, now: int, n: int)
    requires x.seconds >= 1 && TICKS * (n - 1) < Width(x) - Position(x, now) <= TICKS * n
    ensures Bucket(x, now + n * TICKS) == Bucket(x, now) + 1 && Bucket(x, now + (n - 1) * TICKS) == Bucket(x, now)
  {
    var w, b, r := Width(x), Bucket(x, now), Position(x, now);
    MulDistributes(w, b, 1);
    DivUnique(now + n * TICKS, w, b + 1, r + n * TICKS - w);
    DivUnique(now + (n - 1) * TICKS, w, b, r + (n - 1) * TICKS);
  }

  /** On every run a check replies so, and is in the log exactly when the reply says that it is admitted. */
  lemma ReplyIsExact(x: Setting, start: int, gaps: seq<nat>, gap: nat)
    requires ValidSetting(x)
    ensures var s := Run(x, start, gaps);
            var now, r := s.now + gap, EvalReply(x, s.buckets, s.now + gap);
            var b := Bucket(x, now);
            && ReplyTells(x, Weight(x, InBucket(x, s.log, b), InBucket(x, s.log, b - 1), Position(x, now)), now, r)
            && Next(x, s, gap).log == (if r.allowed then s.log + [now] else s.log)
  {
    hide Run, Bucket, Position, InBucket, KeysInOrder, Weighted, Weight, AfterEval, Width;
    var s, now := Run(x, start, gaps), Run(x, start, gaps).now + gap;
    RunInOrder(x, start, gaps);
    WeighedByLog(x, s.buckets, s.log, now);
    NextBucketAt(x, now, EvalReply(x, s.buckets, now).remaining);
  }

  // ----- how much a bucket and a window hold -----

  /** No bucket holds more than the limit. */
  lemma {:induction false} BucketHoldsAtMostLimit(x: Setting, start: int, gaps: seq<nat>, i: int)
    requires ValidSetting(x)
    ensures InBucket(x, Run(x, start, gaps).log, i) <= x.limit
  {
    if gaps != [] {
      hide Run, InBucket, Admits;
      RunUnfolds(x, start, gaps);
      var s, now := Run(x, start, gaps[..|gaps| - 1]), Run(x, start, gaps).now;
      BucketHoldsAtMostLimit(x, start, gaps[..|gaps| - 1], i);
      InBucketAppend(x, s.log, now, i);
      if Admits(x, s.buckets, now) {
        RunInOrder(x, start, gaps[..|gaps| - 1]);
        AdmittedBelowLimit(x, s.buckets, s.log, now);
      }
    } else {
      assert Run(x, start, gaps).log == [];
    }
  }

  lemma RunUnfolds(x: Setting, start: int, gaps: seq<nat>)
    requires x.seconds >= 1 && gaps != []
    ensures Run(x, start, gaps) == Next(x, Run(x, start, gaps[..|gaps| - 1]), gaps[|gaps| - 1])
  {
  }

  /** What an admission says about the two buckets it reads. */
  lemma AdmittedBelowLimit(x: Setting, buckets: map<int, Counter>, log: seq<int>, now: int)
    requires ValidSetting(x) && KeysInOrder(x, buckets, log) && Admits(x, buckets, now)
    ensures var current, previous := InBucket(x, log, Bucket(x, now)), InBucket(x, log, Bucket(x, now) - 1);
            && Weight(x, current, previous, Position(x, now)) < x.limit * Width(x)
            && current < x.limit
  {
    hide KeysInOrder, Weighted, Bucket, Position, InBucket, Width;
    WeighedByLog(x, buckets, log, now);
    var w, current, previous := Width(x), InBucket(x, log, Bucket(x, now)), InBucket(x, log, Bucket(x, now) - 1);
    MulMonotone(previous, 0, w - Position(x, now));
    if current >= x.limit {
      MulMonotone(w, x.limit, current);
    }
  }

  lemma WithinOneWidth(x: Setting, t: int, b: int)
    requires x.seconds >= 1 && b - Width(x) <= t <= b
    ensures Bucket(x, t) == Bucket(x, b) || Bucket(x, t) == Bucket(x, b) - 1
  {
    hide Width, Bucket;
    BucketMonotone(x, t, b);
    BucketMonotone(x, b - Width(x), t);
    OneBucketEarlier(x, b);
  }

  lemma OneBucketEarlier(x: Setting, b: int)
    requires x.seconds >= 1
    ensures Bucket(x, b - Width(x)) == Bucket(x, b) - 1
  {
    hide Width;
    DivUnique(b - Width(x), Width(x), Bucket(x, b) - 1, Position(x, b));
  }

  /** Whatever lies within one width before `b` lies in the bucket of `b` or the one before. */
  lemma {:induction false} SpanWithinBuckets(x: Setting, log: seq<int>, b: int)
    requires x.seconds >= 1
    ensures InSpan(log, b - Width(x), b) <= InBucket(x, log, Bucket(x, b)) + InBucket(x, log, Bucket(x, b) - 1)
  {
    if log != [] {
      hide Bucket, Width;
      SpanWithinBuckets(x, log[..|log| - 1], b);
      if b - Width(x) <= log[|log| - 1] <= b {
        WithinOneWidth(x, log[|log| - 1], b);
      }
    }
  }

  /** With `p` the fraction of its bucket at which an admission lies: fewer than limit * (1 + p) + 1. */
  predicate WindowBounded(x: Setting, log: seq<int>, a: int)
    requires x.seconds >= 1
  {
    Width(x) * InSpan(log, a - Width(x), a) < x.limit * (Width(x) + Position(x, a)) + Width(x)
  }

  /** From the weighted count to the count of the window, which holds the new admission and no more than both buckets. */
  lemma WindowArithmetic(w: int, r: int, limit: int, current: int, previous: int, span: int)
    requires 0 <= r < w && previous <= limit && 0 <= span <= current + previous
    requires current * w + previous * (w - r) < limit * w
    ensures w * (span + 1) < limit * (w + r) + w
  {
    MulMonotone(w, span, current + previous);
    MulMonotone(r, previous, limit);
    MulDistributes(w, current, previous);
    MulDistributes(previous, w, -r);
    MulDistributes(limit, w, r);
    MulDistributes(w, span, 1);
  }

  lemma AdmissionBoundsItsWindow(x: Setting, buckets: map<int, Counter>, log: seq<int>, now: int)
    requires ValidSetting(x) && KeysInOrder(x, buckets, log) && Admits(x, buckets, now)
    requires InBucket(x, log, Bucket(x, now) - 1) <= x.limit
    ensures WindowBounded(x, log + [now], now)
  {
    hide KeysInOrder, Bucket, Position, InBucket, InSpan, Width, Admits;
    var w := Width(x);
    AdmittedBelowLimit(x, buckets, log, now);
    SpanWithinBuckets(x, log, now);
    InSpanAppend(log, now, now - w, now);
    WindowArithmetic(w, Position(x, now), x.limit, InBucket(x, log, Bucket(x, now)),
                     InBucket(x, log, Bucket(x, now) - 1), InSpan(log, now - w, now));
  }

  /** A later admission leaves an earlier window as it is. */
  lemma CheckKeepsBound(x: Setting, s: State, gap: nat, a: int)
    requires ValidSetting(x) && KeysInOrder(x, s.buckets, s.log)
    requires InBucket(x, s.log, Bucket(x, s.now + gap) - 1) <= x.limit
    requires a in s.log ==> a <= s.now && WindowBounded(x, s.log, a)
    ensures a in Next(x, s, gap).log ==> WindowBounded(x, Next(x, s, gap).log, a)
  {
    hide KeysInOrder, Bucket, Position, InBucket, InSpan, Width, Admits, EvalReply, AfterEval;
    var now := s.now + gap;
    if Admits(x, s.buckets, now) {
      if a == now {
        AdmissionBoundsItsWindow(x, s.buckets, s.log, now);
      } else {
        InSpanAppend(s.log, now, a - Width(x), a);
      }
    }
  }

  /** On every run, the window of one width that ends at any admission is bounded so. */
  lemma {:induction false} EveryWindowIsBounded(x: Setting, start: int, gaps: seq<nat>, a: int)
    requires ValidSetting(x) && a in Run(x, start, gaps).log
    ensures WindowBounded(x, Run(x, start, gaps).log, a)
  {
    if gaps != [] {
      hide Next, Bucket, InBucket, WindowBounded, KeysInOrder;
      var s := Run(x, start, gaps[..|gaps| - 1]);
      if a in s.log {
        EveryWindowIsBounded(x, start, gaps[..|gaps| - 1], a);
        LogBelowNow(x, start, gaps[..|gaps| - 1], a);
      }
      RunInOrder(x, start, gaps[..|gaps| - 1]);
      BucketHoldsAtMostLimit(x, start, gaps[..|gaps| - 1], Bucket(x, s.now + gaps[|gaps| - 1]) - 1);
      CheckKeepsBound(x, s, gaps[|gaps| - 1], a);
    }
  }

  lemma {:induction false} LogBelowNow(x: Setting, start: int, gaps: seq<nat>, a: int)
    requires x.seconds >= 1 && a in Run(x, start, gaps).log
    ensures a <= Run(x, start, gaps).now
  {
    if gaps != [] && a in Run(x, start, gaps[..|gaps| - 1]).log {
      LogBelowNow(x, start, gaps[..|gaps| - 1], a);
    }
  }

  /** Hence no window of one width, wherever it ends, holds more than twice the limit. */
  lemma NoWindowAboveTwiceLimit(x: Setting, start: int, gaps: seq<nat>, b: int)
    requires ValidSetting(x)
    ensures InSpan(Run(x, start, gaps).log, b - Width(x), b) <= 2 * x.limit
  {
    hide Run;
    SpanWithinBuckets(x, Run(x, start, gaps).log, b);
    BucketHoldsAtMostLimit(x, start, gaps, Bucket(x, b));
    BucketHoldsAtMostLimit(x, start, gaps, Bucket(x, b) - 1);
  }

  // ----- and twice the limit is reached -----

  /** `n` checks at one instant, `gap` after whatever came before. */
  function BurstGaps(gap: nat, n: nat): (gaps: seq<nat>)
    ensures |gaps| == n
  {
    if n == 0 then [] else if n == 1 then [gap] else BurstGaps(gap, n - 1) + [0]
  }

  /** A burst whose last check is still under the limit is admitted whole. */
  lemma {:induction false} BurstAdmitted(x: Setting, start: int, gaps: seq<nat>, gap: nat, n: nat, i: int, lo: int, hi: int)
    requires ValidSetting(x) && n >= 1
    requires var s := Run(x, start, gaps); var b := Bucket(x, s.now + gap);
             Weight(x, InBucket(x, s.log, b) + n - 1, InBucket(x, s.log, b - 1), Position(x, s.now + gap)) < x.limit * Width(x)
    ensures var s, t := Run(x, start, gaps), Run(x, start, gaps + BurstGaps(gap, n));
            && t.now == s.now + gap
            && InBucket(x, t.log, i) == InBucket(x, s.log, i) + (if i == Bucket(x, t.now) then n else 0)
            && InSpan(t.log, lo, hi) == InSpan(s.log, lo, hi) + (if lo <= t.now <= hi then n else 0)
    decreases n
  {
    hide Bucket, Position, InBucket, InSpan, Run, KeysInOrder, Weighted;
    var all := gaps + BurstGaps(gap, n);
    var s, now := Run(x, start, gaps), Run(x, start, gaps).now + gap;
    var b := Bucket(x, now);
    RunUnfolds(x, start, all);
    var t := Run(x, start, all[..|all| - 1]);
    RunInOrder(x, start, all[..|all| - 1]);
    if n == 1 {
      assert all[..|all| - 1] == gaps;
    } else {
      assert all[..|all| - 1] == gaps + BurstGaps(gap, n - 1);
      MulMonotone(Width(x), InBucket(x, s.log, b) + n - 2, InBucket(x, s.log, b) + n - 1);
      BurstAdmitted(x, start, gaps, gap, n - 1, i, lo, hi);
      BurstAdmitted(x, start, gaps, gap, n - 1, b, lo, hi);
      BurstAdmitted(x, start, gaps, gap, n - 1, b - 1, lo, hi);
    }
    WeighedByLog(x, t.buckets, t.log, now);
    InBucketAppend(x, t.log, now, i);
    InSpanAppend(t.log, now, lo, hi);
  }

  /** As many checks as the limit allows, at the last tick of bucket 0. */
  lemma FirstBurst(x: Setting)
    requires ValidSetting(x)
    ensures var t := Run(x, 0, BurstGaps(Width(x) - 1, x.limit));
            && t.now == Width(x) - 1
            && InBucket(x, t.log, 0) == x.limit && InBucket(x, t.log, 1) == 0
            && InSpan(t.log, Width(x) - 1, 2 * Width(x) - 2) == x.limit
  {
    hide Run, Bucket, Position, InBucket, InSpan;
    var w := Width(x);
    EmptyRun(x);
    EmptyLog(x, w - 1, 2 * w - 2);
    BucketEnds(x);
    assert [] + BurstGaps(w - 1, x.limit) == BurstGaps(w - 1, x.limit);
    MulDistributes(w, x.limit, -1);
    BurstAdmitted(x, 0, [], w - 1, x.limit, 0, w - 1, 2 * w - 2);
    BurstAdmitted(x, 0, [], w - 1, x.limit, 1, w - 1, 2 * w - 2);
  }

  /**
   * The end of a bucket and near the end of the next: a window of one width, only one of its ends included, that holds
   * twice the limit.
   */
  lemma TwiceTheLimitIsReached(x: Setting)
    requires ValidSetting(x) && 2 * x.limit < Width(x)
    ensures var gaps := BurstGaps(Width(x) - 1, x.limit) + BurstGaps(Width(x) - 1, x.limit);
            var end := 2 * Width(x) - 2;
            InSpan(Run(x, 0, gaps).log, end - Width(x) + 1, end) == 2 * x.limit
  {
    hide Run, Bucket, Position, InBucket, InSpan, BurstGaps;
    var w := Width(x);
    FirstBurst(x);
    BucketEnds(x);
    MulDistributes(w, x.limit, -1);
    BurstAdmitted(x, 0, BurstGaps(w - 1, x.limit), w - 1, x.limit, 0, w - 1, 2 * w - 2);
  }

  lemma EmptyRun(x: Setting)
    requires x.seconds >= 1
    ensures Run(x, 0, []) == State(map[], 0, [], [])
  {
  }

  lemma EmptyLog(x: Setting, lo: int, hi: int)
    requires x.seconds >= 1
    ensures InBucket(x, [], 0) == 0 && InBucket(x, [], -1) == 0 && InBucket(x, [], 1) == 0 && InSpan([], lo, hi) == 0
  {
  }

  lemma BucketEnds(x: Setting)
    requires x.seconds >= 1
    ensures var w := Width(x);
            && Bucket(x, w - 1) == 0 && Position(x, w - 1) == w - 1
            && Bucket(x, 2 * w - 2) == 1 && Position(x, 2 * w - 2) == w - 2
  {
    DivUnique(Width(x) - 1, Width(x), 0, Width(x) - 1);
    DivUnique(2 * Width(x) - 2, Width(x), 1, Width(x) - 2);
  }
}
