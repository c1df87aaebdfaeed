/** Conversion of floating-point samples to the 16-bit components that go on the wire. */
module Quantisation {
  import opened Words
  import opened Samples

  /** Conversion of a floating-point component to an integer: rounds toward zero. */
  function Trunc(x: real): int {
    if x >= 0.0 then x.Floor else -((-x).Floor)
  }

  predicate InRange(x: real) {
    -0x8000 <= Trunc(x) < 0x8000
  }

  /** Trunc is the integer between zero and x that is less than one away from x. */
  lemma TruncNearest(x: real)
    ensures -1.0 < x - Trunc(x) as real < 1.0
    ensures x >= 0.0 ==> 0.0 <= Trunc(x) as real <= x
    ensures x <= 0.0 ==> x <= Trunc(x) as real <= 0.0
  {
  }

  lemma TruncInteger(n: int)
    ensures Trunc(n as real) == n
  {
  }

  function AbsReal(x: real): real {
    if x < 0.0 then -x else x
  }

  lemma ScaledError(norm: real, d: real)
    requires norm != 0.0 && -1.0 < d < 1.0
    ensures AbsReal(norm * d) < AbsReal(norm)
  {
    if norm > 0.0 {
      assert norm * (1.0 - d) > 0.0 && norm * (1.0 + d) > 0.0;
    } else {
      assert -norm * (1.0 - d) > 0.0 && -norm * (1.0 + d) > 0.0;
    }
  }

  lemma Undivided(p: real, norm: real)
    requires norm != 0.0
    ensures norm * (p / norm) == p
  {
  }

  lemma Distributed(a: real, b: real, c: real)
    ensures a * (b - c) == a * b - a * c
  {
  }

  lemma ScaledDifference(norm: real, q: int, x: real, y: real)
    requires norm != 0.0 && -1.0 < x - q as real < 1.0 && norm * x == y
    ensures AbsReal(norm * q as real - y) < AbsReal(norm)
  {
    var d := q as real - x;
    ScaledError(norm, d);
    Distributed(norm, q as real, x);
    assert norm * q as real - y == norm * d;
  }

  /** Truncating a decoded component again loses less than one unit of the norm, whether or not the result fits into
      16 bits; AllResendableIff says when it does. */
  lemma ResendError(p: Int16, norm: real)
    requires norm != 0.0
    ensures AbsReal(norm * Trunc(p as real / norm) as real - p as real) < AbsReal(norm)
  {
    hide Trunc;
    var x := p as real / norm;
    TruncNearest(x);
    Undivided(p as real, norm);
    ScaledDifference(norm, Trunc(x), x, p as real);
  }

  /** With norm 1 nothing is lost. */
  lemma ResendExact(p: Int16)
    ensures Trunc(p as real / 1.0) == p
  {
    assert p as real / 1.0 == p as real;
    TruncInteger(p);
  }

  /** A received component that can be sent again: it still fits into 16 bits once it is divided by the norm. */
  predicate Resendable(p: Int16, norm: real)
    requires norm != 0.0
  {
    InRange(p as real / norm)
  }

  lemma InRangeIff(x: real)
    ensures InRange(x) <==> -32769.0 < x < 32768.0
  {
  }

  lemma ScaledOrder(norm: real, a: real, b: real)
    requires norm != 0.0
    ensures a < b <==> if norm > 0.0 then norm * a < norm * b else norm * b < norm * a
  {
    var d := b - a;
    Distributed(norm, b, a);
    assert norm * b - norm * a == norm * d;
  }

  lemma ResendableIff(p: Int16, norm: real)
    requires norm != 0.0
    ensures Resendable(p, norm) <==>
      if norm > 0.0 then norm * -32769.0 < p as real < norm * 32768.0
      else norm * 32768.0 < p as real < norm * -32769.0
  {
    hide InRange;
    var x := p as real / norm;
    InRangeIff(x);
    Undivided(p as real, norm);
    QuotientWithin(norm, x, p as real);
  }

  lemma QuotientWithin(norm: real, x: real, y: real)
    requires norm != 0.0 && norm * x == y
    ensures -32769.0 < x < 32768.0 <==>
      if norm > 0.0 then norm * -32769.0 < y < norm * 32768.0 else norm * 32768.0 < y < norm * -32769.0
  {
    ScaledOrder(norm, x, 32768.0);
    ScaledOrder(norm, -32769.0, x);
  }

  /** Everything a receiver can decode with a norm can be sent again exactly when the norm is above 32768/32769 or
      below -1. */
  lemma AllResendableIff(norm: real)
    requires norm != 0.0
    ensures (forall p: Int16 :: Resendable(p, norm)) <==> 32769.0 * norm > 32768.0 || norm < -1.0
  {
    hide Resendable;
    forall p: Int16
      ensures Resendable(p, norm) <==>
        if norm > 0.0 then norm * -32769.0 < p as real < norm * 32768.0
        else norm * 32768.0 < p as real < norm * -32769.0
    {
      ResendableIff(p, norm);
    }
    ResendableIff(-32768, norm);
    ResendableIff(32767, norm);
  }

  predicate AllInRange(xs: seq<Complex>) {
    forall i :: 0 <= i < |xs| ==> InRange(xs[i].re) && InRange(xs[i].im)
  }

  /** The components of a block of samples, I before Q. */
  function Components(xs: seq<Complex>): (cs: seq<Int16>)
    requires AllInRange(xs)
    ensures |cs| == 2 * |xs|
  {
    seq(2 * |xs|, k requires 0 <= k < 2 * |xs| =>
      assert InRange(xs[k / 2].re) && InRange(xs[k / 2].im);
      Trunc(if k % 2 == 0 then xs[k / 2].re else xs[k / 2].im))
  }

  lemma ComponentsAt(xs: seq<Complex>, i: nat)
    requires i < |xs| && AllInRange(xs)
    ensures Components(xs)[2 * i] == Trunc(xs[i].re) && Components(xs)[2 * i + 1] == Trunc(xs[i].im)
    ensures Components(xs)[..2 * (i + 1)]
      == Components(xs)[..2 * i] + [Components(xs)[2 * i], Components(xs)[2 * i + 1]]
  {
    assert (2 * i) / 2 == i && (2 * i + 1) / 2 == i && (2 * i) % 2 == 0 && (2 * i + 1) % 2 == 1;
  }
}
