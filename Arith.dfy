/** Bounded arithmetic of the Hypothetical Machine: the address check, the value
    clamp, and Go's truncating integer division and remainder. */
module Arith {

  /** The machine has 50 memory words, addressed 0..49. */
  const MemSize: int := 50

  /** Every stored value and register lies in [-MaxValue, MaxValue]. */
  const MaxValue: int := 99999

  /** Whether `addr` names a memory word. */
  predicate InBounds(addr: int) {
    0 <= addr < MemSize
  }

  /** A memory address. */
  type Address = a: int | InBounds(a) witness 0

  /** Whether `x` is a legal machine value. */
  predicate Bounded(x: int) {
    -MaxValue <= x <= MaxValue
  }

  /** Clamps an arithmetic result to the legal value range (saturation). */
  function BoundsCap(i: int): (r: int)
    ensures Bounded(r)
    ensures Bounded(i) ==> r == i
    ensures i > MaxValue ==> r == MaxValue
    ensures i < -MaxValue ==> r == -MaxValue
  {
    if i > MaxValue then MaxValue
    else if i < -MaxValue then -MaxValue
    else i
  }

  /** Clamping twice is clamping once, and clamping never moves a value past
      another one: the clamp is monotone. */
  lemma BoundsCapIdempotent(i: int, j: int)
    ensures BoundsCap(BoundsCap(i)) == BoundsCap(i)
    ensures i <= j ==> BoundsCap(i) <= BoundsCap(j)
  {
  }

  function Abs(x: int): nat {
    if x < 0 then -x else x
  }

  /** Go's integer `/`: the quotient is truncated toward zero. */
  function TruncDiv(a: int, b: int): (q: int)
    requires b != 0
    ensures Abs(q) <= Abs(a)
  {
    QuotientAtMostDividend(a, b);
    QuotientAtMostDividend(a, -b);
    QuotientAtMostDividend(-a, b);
    QuotientAtMostDividend(-a, -b);
    if a >= 0 && b > 0 then a / b
    else if a >= 0 then -(a / -b)
    else if b > 0 then -((-a) / b)
    else (-a) / (-b)
  }

  /** Dividing a natural number by a positive one gives at most the
      dividend. */
  lemma QuotientAtMostDividend(x: int, y: int)
    ensures x >= 0 && y > 0 ==> 0 <= x / y <= x
  {
    if x >= 0 && y > 0 {
      var d := x / y;
      MulGrows(d, y);
      assert x == y * d + x % y;
    }
  }

  /** Go's integer `%`: what is left after taking the truncated quotient
      times the divisor, so the remainder takes the sign of the dividend. */
  function TruncMod(a: int, b: int): (r: int)
    requires b != 0
    ensures Abs(r) < Abs(b)
    ensures a >= 0 ==> r >= 0
    ensures a <= 0 ==> r <= 0
  {
    TruncModBounds(a, b);
    a - b * TruncDiv(a, b)
  }

  lemma TruncModBounds(a: int, b: int)
    requires b != 0
    ensures var r := a - b * TruncDiv(a, b);
      Abs(r) < Abs(b) && (a >= 0 ==> r >= 0) && (a <= 0 ==> r <= 0)
  {
    if a >= 0 {
      RemainderNonNegative(a, b);
    } else {
      RemainderNegative(a, b);
    }
  }

  lemma RemainderNonNegative(a: int, b: int)
    requires a >= 0 && b != 0
    ensures 0 <= a - b * TruncDiv(a, b) < Abs(b)
  {
    if b > 0 {
      assert a == b * (a / b) + a % b;
    } else {
      var q := a / -b;
      assert a == (-b) * q + a % -b;
      MulNegation(b, q);
      assert b * TruncDiv(a, b) == b * (-q) == (-b) * q;
    }
  }

  lemma RemainderNegative(a: int, b: int)
    requires a < 0 && b != 0
    ensures a - b * TruncDiv(a, b) <= 0
    ensures b * TruncDiv(a, b) - a < Abs(b)
  {
    var q := if b > 0 then (-a) / b else (-a) / (-b);
    if b > 0 {
      assert -a == b * q + (-a) % b;
      MulNegation(b, q);
      assert b * TruncDiv(a, b) == b * (-q) == -(b * q);
    } else {
      assert -a == (-b) * q + (-a) % (-b);
      MulNegation(b, q);
      assert b * TruncDiv(a, b) == b * q == -((-b) * q);
    }
  }

  /** Quotient and remainder recombine to the dividend. */
  lemma TruncDivMod(a: int, b: int)
    requires b != 0
    ensures a == b * TruncDiv(a, b) + TruncMod(a, b)
  {
  }

  /** Negating either factor negates the product. */
  lemma MulNegation(x: int, y: int)
    ensures x * (-y) == -(x * y) && (-x) * y == -(x * y) && (-x) * (-y) == x * y
  {
  }

  /** Multiplication distributes over subtraction. */
  lemma MulSub(b: int, x: int, y: int)
    ensures b * (x - y) == b * x - b * y
  {
  }

  /** The three facts above determine the pair: any q, r with
      a == b*q + r, |r| < |b| and r carrying the sign of a are exactly
      TruncDiv(a, b) and TruncMod(a, b). */
  lemma TruncDivModUnique(a: int, b: int, q: int, r: int)
    requires b != 0
    requires a == b * q + r && Abs(r) < Abs(b)
    requires a >= 0 ==> r >= 0
    requires a <= 0 ==> r <= 0
    ensures q == TruncDiv(a, b) && r == TruncMod(a, b)
  {
    var q0, r0 := TruncDiv(a, b), TruncMod(a, b);
    TruncDivMod(a, b);
    MulSub(b, q, q0);
    assert b * (q - q0) == r0 - r;
    assert Abs(r0 - r) < Abs(b);
    if q != q0 {
      MulAbsLowerBound(b, q - q0);
      assert false;
    }
  }

  /** A non-zero multiple of b is at least |b| in magnitude. */
  lemma MulAbsLowerBound(b: int, k: int)
    requires k != 0
    ensures Abs(b * k) >= Abs(b)
  {
    AbsMul(b, k);
    MulGrows(Abs(b), Abs(k));
  }

  lemma MulGrows(x: nat, y: nat)
    requires y >= 1
    ensures x * y >= x
  {
    if y > 1 {
      MulGrows(x, y - 1);
      assert x * y == x * (y - 1) + x;
    }
  }

  lemma AbsMul(b: int, k: int)
    ensures Abs(b * k) == Abs(b) * Abs(k)
  {
    if b < 0 && k < 0 { assert b * k == (-b) * (-k); }
    else if b < 0 { assert b * k == -((-b) * k); }
    else if k < 0 { assert b * k == -(b * (-k)); }
  }


}
