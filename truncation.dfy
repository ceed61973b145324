/**
 Integer division and remainder rounded toward zero, as Rust's `/` and `%`
 compute them on signed integers such as `i32`. Dafny's own `/` and `%` are
 Euclidean (the remainder is never negative), so the two disagree whenever the
 dividend is negative: `-91 % 90` is `89` in Dafny but `-1` in Rust.
 */
module Truncation {

  /** Absolute value. */
  function Abs(x: int): (r: nat)
    ensures r == x || r == -x
  {
    if x < 0 then -x else x
  }

  /** Quotient rounded toward zero. */
  function TruncDiv(a: int, b: int): (q: int)
    requires b > 0
    ensures a >= 0 ==> 0 <= q * b <= a
    ensures a <= 0 ==> a <= q * b <= 0
  {
    if a >= 0 then a / b else -((-a) / b)
  }

  /**
   Remainder whose sign follows the dividend. Together with TruncDiv it splits
   `a` exactly; it is smaller than the divisor in magnitude and is zero or has
   the sign of `a`. TruncRemUnique shows these facts single it out.
   */
  function TruncRem(a: int, b: int): (r: int)
    requires b > 0
    ensures a == TruncDiv(a, b) * b + r
    ensures Abs(r) < b
    ensures a >= 0 ==> r >= 0
    ensures a <= 0 ==> r <= 0
  {
    if a >= 0 then a % b else -((-a) % b)
  }

  /** A non-zero multiple of a positive number is at least that number in magnitude. */
  lemma {:induction false} NonZeroMultiple(k: int, b: int)
    requires b > 0
    ensures k >= 1 ==> k * b >= b
    ensures k <= -1 ==> k * b <= -b
  {
    if k >= 1 {
      assert k * b == (k - 1) * b + b;
      assert (k - 1) * b >= 0;
    } else if k <= -1 {
      assert k * b == (k + 1) * b - b;
      assert (k + 1) * b <= 0;
    }
  }

  /** A multiple of a positive number leaves no Euclidean remainder. */
  lemma {:induction false} MultipleHasNoRemainder(k: int, b: int)
    requires b > 0
    ensures (k * b) % b == 0
  {
    var m := k * b;
    assert m == (m / b) * b + m % b && 0 <= m % b < b;
    assert (k - m / b) * b == m % b;
    NonZeroMultiple(k - m / b, b);
  }

  /** The truncated remainder is congruent to the dividend. */
  lemma {:induction false} TruncRemCongruent(a: int, b: int)
    requires b > 0
    ensures (a - TruncRem(a, b)) % b == 0
  {
    MultipleHasNoRemainder(TruncDiv(a, b), b);
  }

  /**
   Any split `a == q * b + r` with `|r| < b` and `r` zero or of the sign of `a`
   is the truncated one: this is an independent characterisation of TruncDiv
   and TruncRem.
   */
  lemma {:induction false} TruncRemUnique(a: int, b: int, q: int, r: int)
    requires b > 0
    requires a == q * b + r
    requires Abs(r) < b
    requires a >= 0 ==> r >= 0
    requires a <= 0 ==> r <= 0
    ensures q == TruncDiv(a, b) && r == TruncRem(a, b)
  {
    var q0, r0 := TruncDiv(a, b), TruncRem(a, b);
    assert (q - q0) * b == q * b - q0 * b;
    assert (q - q0) * b == r0 - r;
    NonZeroMultiple(q - q0, b);
  }

  /**
   The truncated remainder against Dafny's Euclidean one: equal for a
   non-negative dividend, one divisor apart for a negative dividend that the
   divisor does not divide.
   */
  lemma {:induction false} TruncRemFromEuclidean(a: int, b: int)
    requires b > 0
    ensures a >= 0 ==> TruncRem(a, b) == a % b
    ensures a < 0 && a % b == 0 ==> TruncRem(a, b) == 0
    ensures a < 0 && a % b != 0 ==> TruncRem(a, b) == a % b - b
  {
    if a < 0 {
      var e := a % b;
      assert a == (a / b) * b + e && 0 <= e < b;
      if e == 0 {
        TruncRemUnique(a, b, a / b, 0);
      } else {
        assert a == (a / b + 1) * b + (e - b);
        TruncRemUnique(a, b, a / b + 1, e - b);
      }
    }
  }
}
