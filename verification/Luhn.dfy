/** The check behind the credit-card pattern, against the formula of Annex B of ISO/IEC 7812-1. */
module Luhn {
  import opened Prelude

  type Digit = d: int | 0 <= d <= 9

  /** What `isdigit` and `int` make of a character: `OtherDigit` passes the first and raises in the second. */
  datatype Kind = NoDigit | Decimal(digit: Digit) | OtherDigit

  type Alphabet = char -> Kind

  /** The digits of a candidate; separators are skipped, and None is the exception. */
  function DigitsOf(alphabet: Alphabet, candidate: string): (digits: Option<seq<Digit>>)
    ensures digits.Some? ==> |digits.value| <= |candidate|
    ensures digits.None? <==> exists i :: 0 <= i < |candidate| && alphabet(candidate[i]) == OtherDigit
  {
    if candidate == [] then Some([])
    else
      var front, kind := DigitsOf(alphabet, candidate[..|candidate| - 1]), alphabet(candidate[|candidate| - 1]);
      match (front, kind)
      case (Some(digits), NoDigit) => Some(digits)
      case (Some(digits), Decimal(d)) => Some(digits + [d])
      case _ => None
  }

  /** What a digit adds. */
  function Term(d: Digit, doubled: bool): Digit {
    if !doubled then d else if 2 * d > 9 then 2 * d - 9 else 2 * d
  }

  /** The two digits of a doubled digit are added up. */
  lemma TermIsDigitSum(d: Digit)
    ensures Term(d, true) == 2 * d / 10 + 2 * d % 10
  {
  }

  /** From the right, every other digit is doubled; `doubled` says whether the last one is. */
  function Sum(digits: seq<Digit>, doubled: bool): nat {
    if digits == [] then 0
    else Sum(digits[..|digits| - 1], !doubled) + Term(digits[|digits| - 1], doubled)
  }

  /** The formula leaves the check digit at the right end alone. */
  predicate Valid(digits: seq<Digit>) {
    13 <= |digits| <= 19 && Sum(digits, false) % 10 == 0
  }

  lemma SumStep(digits: seq<Digit>, k: nat, doubled: bool)
    requires k < |digits|
    ensures Sum(digits[..k + 1], doubled) == Sum(digits[..k], !doubled) + Term(digits[k], doubled)
    ensures Sum(digits[..0], doubled) == 0
  {
    assert digits[..k + 1][..k] == digits[..k];
  }

  lemma ParityFlips(k: nat, parity: nat)
    requires parity <= 1
    ensures (k + 1) % 2 != parity <==> k % 2 == parity
  {
  }

  /** The loop goes from the left and finds the places to double by parity. */
  method LuhnOk(alphabet: Alphabet, candidate: string) returns (ok: Option<bool>)
    ensures ok == match DigitsOf(alphabet, candidate) case Some(digits) => Some(Valid(digits)) case None => None
    ensures ok == Some(true) ==> 13 <= |DigitsOf(alphabet, candidate).value| <= 19
  {
    hide DigitsOf, Sum;
    var parsed := DigitsOf(alphabet, candidate);
    if parsed.None? {
      return None;
    }
    var digits := parsed.value;
    if !(13 <= |digits| <= 19) {
      return Some(false);
    }
    var checksum: int, parity := 0, |digits| % 2;
    SumStep(digits, 0, 0 % 2 != parity);
    for index := 0 to |digits|
      invariant checksum == Sum(digits[..index], index % 2 != parity)
    {
      var digit: int := digits[index];
      SumStep(digits, index, index % 2 == parity);
      ParityFlips(index, parity);
      var doubled := if index % 2 == parity then digit * 2 else digit;
      checksum := checksum + if doubled > 9 then doubled - 9 else doubled;
    }
    assert digits[..|digits|] == digits;
    ok := Some(checksum % 10 == 0);
  }

  /** A character that is no digit can stand anywhere. */
  lemma {:induction false} SeparatorsIgnored(alphabet: Alphabet, front: string, c: char, back: string)
    requires alphabet(c) == NoDigit
    ensures DigitsOf(alphabet, front + [c] + back) == DigitsOf(alphabet, front + back)
  {
    if back == [] {
      assert front + [c] + back == front + [c] && front + back == front;
      assert (front + [c])[..|front|] == front;
    } else {
      assert (front + [c] + back)[..|front| + |back|] == front + [c] + back[..|back| - 1];
      assert (front + back)[..|front| + |back| - 1] == front + back[..|back| - 1];
      SeparatorsIgnored(alphabet, front, c, back[..|back| - 1]);
    }
  }

  lemma {:induction false} DigitsConcat(alphabet: Alphabet, front: string, back: string)
    ensures DigitsOf(alphabet, front + back)
            == match (DigitsOf(alphabet, front), DigitsOf(alphabet, back))
               case (Some(a), Some(b)) => Some(a + b)
               case _ => None
  {
    if back == [] {
      assert front + back == front;
      if DigitsOf(alphabet, front).Some? {
        assert DigitsOf(alphabet, front).value + [] == DigitsOf(alphabet, front).value;
      }
    } else {
      assert (front + back)[..|front + back| - 1] == front + back[..|back| - 1];
      DigitsConcat(alphabet, front, back[..|back| - 1]);
      match (DigitsOf(alphabet, front), DigitsOf(alphabet, back[..|back| - 1]), alphabet(back[|back| - 1])) {
        case (Some(a), Some(b), Decimal(d)) => assert a + b + [d] == a + (b + [d]);
        case _ =>
      }
    }
  }

  /** The digits come out in order, each with its value, and nothing else does. */
  lemma DigitInPlace(alphabet: Alphabet, front: string, c: char, back: string)
    requires DigitsOf(alphabet, front).Some? && DigitsOf(alphabet, back).Some? && alphabet(c) != OtherDigit
    ensures DigitsOf(alphabet, "") == Some([])
    ensures DigitsOf(alphabet, front + [c] + back)
            == Some(DigitsOf(alphabet, front).value + (if alphabet(c) == NoDigit then [] else [alphabet(c).digit])
                    + DigitsOf(alphabet, back).value)
  {
    assert (front + [c])[..|front|] == front;
    DigitsConcat(alphabet, front + [c], back);
    assert DigitsOf(alphabet, front).value + [] == DigitsOf(alphabet, front).value;
  }

  /** Whether the digit at `k` is doubled, in a number of n digits whose last one is or is not. */
  predicate DoubledAt(n: nat, doubled: bool, k: nat) {
    if n <= k + 1 then doubled else DoubledAt(n - 1, !doubled, k)
  }

  lemma {:induction false} NeighboursAlternate(n: nat, doubled: bool, k: nat)
    requires k + 1 < n
    ensures DoubledAt(n, doubled, k) != DoubledAt(n, doubled, k + 1)
  {
    if k + 2 < n {
      NeighboursAlternate(n - 1, !doubled, k);
    }
  }

  /** Changing one digit changes the sum by what that place adds. */
  lemma {:induction false} SumOfUpdate(digits: seq<Digit>, doubled: bool, k: nat, d: Digit)
    requires k < |digits|
    ensures var at := DoubledAt(|digits|, doubled, k);
            Sum(digits[k := d], doubled) == Sum(digits, doubled) - Term(digits[k], at) + Term(d, at)
  {
    hide Term;
    var n := |digits| - 1;
    if k == n {
      assert digits[k := d][..n] == digits[..n];
    } else {
      assert digits[k := d][..n] == digits[..n][k := d];
      SumOfUpdate(digits[..n], !doubled, k, d);
    }
  }

  lemma StillDivisible(sum: int, change: int)
    requires sum % 10 == 0 && -20 < change < 20
    ensures (sum + change) % 10 == 0 <==> change == -10 || change == 0 || change == 10
  {
  }

  /** Every change of a single digit is noticed. */
  lemma SingleErrorDetected(digits: seq<Digit>, k: nat, d: Digit)
    requires Valid(digits) && k < |digits| && d != digits[k]
    ensures !Valid(digits[k := d])
  {
    hide Sum, DoubledAt;
    var at := DoubledAt(|digits|, false, k);
    SumOfUpdate(digits, false, k, d);
    StillDivisible(Sum(digits, false), Term(d, at) - Term(digits[k], at));
  }

  /** A swap of neighbours goes unnoticed for equal digits and for 0 and 9 only. */
  lemma SwapDetected(digits: seq<Digit>, k: nat)
    requires Valid(digits) && k + 1 < |digits|
    ensures var a, b := digits[k], digits[k + 1];
            Valid(digits[k := b][k + 1 := a]) <==> a == b || (a == 0 && b == 9) || (a == 9 && b == 0)
  {
    hide Sum, DoubledAt;
    var a, b, at := digits[k], digits[k + 1], DoubledAt(|digits|, false, k);
    SumOfUpdate(digits, false, k, b);
    SumOfUpdate(digits[k := b], false, k + 1, a);
    NeighboursAlternate(|digits|, false, k);
    StillDivisible(Sum(digits, false), Term(b, at) - Term(a, at) + Term(a, !at) - Term(b, !at));
  }

  lemma TwinTerms(a: Digit, b: Digit, at: bool)
    requires a != b
    ensures var change := Term(b, at) - Term(a, at) + Term(b, !at) - Term(a, !at);
            && -20 < change < 20
            && (change == -10 || change == 0 || change == 10
                <==> (a - b == 3 || b - a == 3) && 2 <= a <= 7 && 2 <= b <= 7)
  {
  }

  /** A pair of equal digits replaced by another such pair goes unnoticed for 22/55, 33/66 and 44/77 only. */
  lemma TwinErrorDetected(digits: seq<Digit>, k: nat, d: Digit)
    requires Valid(digits) && k + 1 < |digits| && digits[k] == digits[k + 1] && d != digits[k]
    ensures Valid(digits[k := d][k + 1 := d])
            <==> (digits[k] - d == 3 || d - digits[k] == 3) && 2 <= digits[k] <= 7 && 2 <= d <= 7
  {
    hide Sum, DoubledAt, Term;
    var a, at := digits[k], DoubledAt(|digits|, false, k);
    TwinTerms(a, d, at);
    SumOfUpdate(digits, false, k, d);
    SumOfUpdate(digits[k := d], false, k + 1, d);
    NeighboursAlternate(|digits|, false, k);
    StillDivisible(Sum(digits, false), Term(d, at) - Term(a, at) + Term(d, !at) - Term(a, !at));
  }

  lemma CheckDigit(sum: nat, d: Digit)
    ensures (sum + d) % 10 == 0 <==> d == (10 - sum % 10) % 10
  {
    var r := sum % 10;
    assert (sum + d) % 10 == 0 <==> (r + d) % 10 == 0;
  }

  /** Every prefix has exactly one check digit. */
  lemma ExactlyOneCheckDigit(front: seq<Digit>, d: Digit)
    requires 12 <= |front| <= 18
    ensures Valid(front + [d]) <==> d == (10 - Sum(front, true) % 10) % 10
  {
    hide Term, Sum;
    assert Sum(front + [d], false) == Sum(front, true) + d by { SumAppend(front, d); }
    CheckDigit(Sum(front, true), d);
  }

  lemma SumAppend(front: seq<Digit>, d: Digit)
    ensures Sum(front + [d], false) == Sum(front, true) + d
  {
    assert (front + [d])[..|front|] == front;
  }
}
