/** Definitions shared by every module: optional values and rounding of exact reals. */
module Prelude {

  datatype Option<+T> = None | Some(value: T)

  /** A span of time; no clock goes back. */
  type Duration = d: real | d >= 0.0

  /** The fate of one Redis command: answered, refused by a `RedisError`, or executed with its reply lost. */
  datatype Link = Answered | Refused | ReplyLost

  /** The least integer that is not below x. */
  function Ceil(x: real): (n: int)
    ensures x <= n as real < x + 1.0
  {
    -((-x).Floor)
  }

  /** Rounding towards zero, as `int(x)` does in Python. */
  function Trunc(x: real): (n: int)
    ensures x >= 0.0 ==> n as real <= x < n as real + 1.0
    ensures x < 0.0 ==> n as real - 1.0 < x <= n as real
  {
    if x >= 0.0 then x.Floor else Ceil(x)
  }

  function Max(a: int, b: int): int {
    if a >= b then a else b
  }

  function MaxReal(a: real, b: real): real {
    if a >= b then a else b
  }

  function MinReal(a: real, b: real): real {
    if a <= b then a else b
  }

  /** How many entries are at most `limit`. */
  function CountUpTo(s: seq<real>, limit: real): (n: nat)
    ensures n <= |s|
  {
    if s == [] then 0
    else CountUpTo(s[..|s| - 1], limit) + if s[|s| - 1] <= limit then 1 else 0
  }

  lemma {:induction false} CountUpToConcat(s: seq<real>, t: seq<real>, limit: real)
    ensures CountUpTo(s + t, limit) == CountUpTo(s, limit) + CountUpTo(t, limit)
  {
    if t == [] {
      assert s + t == s;
    } else {
      assert (s + t)[..|s + t| - 1] == s + t[..|t| - 1];
      CountUpToConcat(s, t[..|t| - 1], limit);
    }
  }

  lemma MulNonNegative(x: real, y: real)
    requires x >= 0.0 && y >= 0.0
    ensures x * y >= 0.0
  {
  }

  lemma MulPositive(x: real, y: real)
    requires x > 0.0 && y > 0.0
    ensures x * y > 0.0
  {
  }

  lemma MulDistributes(a: int, x: int, y: int)
    ensures a * (x + y) == a * x + a * y
  {
  }

  lemma MulStep(k: int, step: real)
    ensures (k + 1) as real * step == k as real * step + step
  {
  }

  lemma MulMonotone(a: int, x: int, y: int)
    requires a >= 0 && x <= y
    ensures a * x <= a * y
  {
    assert a * (y - x) >= 0;
  }

  /** Quotient and remainder are what the division equation says. */
  lemma DivUnique(a: int, d: int, q: int, r: int)
    requires d > 0 && 0 <= r < d && a == d * q + r
    ensures a / d == q && a % d == r
  {
    var gap := a / d - q;
    assert d * gap == r - a % d;
    if gap >= 1 {
      MulMonotone(d, 1, gap);
    } else if gap <= -1 {
      MulMonotone(d, gap, -1);
    }
  }

  /** A whole number of steps of length `step` that fits into `t` is at most the floor of the quotient. */
  lemma FloorOfQuotient(k: int, step: real, t: real)
    requires step > 0.0
    ensures k as real * step <= t <==> k <= (t / step).Floor
  {
    var q := t / step;
    assert t == q * step;
    var gap := q - k as real;
    assert gap * step == t - k as real * step;
    if gap >= 0.0 {
      MulNonNegative(gap, step);
    } else {
      MulPositive(-gap, step);
    }
  }
}
