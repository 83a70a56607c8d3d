/** Real arithmetic shared by the quantizers: extremes, rounding to an integer, and
    order facts about products and quotients. */
module Reals {
  function AbsR(x: real): real { if x < 0.0 then -x else x }

  /** `lround`: to the nearest integer, halves away from zero. */
  function Round(x: real): int {
    if x >= 0.0 then (x + 0.5).Floor else -((-x + 0.5).Floor)
  }

  lemma RoundIsNearest(x: real)
    ensures AbsR(Round(x) as real - x) <= 0.5
  {
  }

  /** On a tie the integer farther from zero is taken. */
  lemma RoundTies(k: int)
    ensures k >= 0 ==> Round(k as real + 0.5) == k + 1 && Round(-(k as real) - 0.5) == -k - 1
  {
  }

  function Least(data: seq<real>): (m: real)
    requires data != []
    ensures m in data && forall i | 0 <= i < |data| :: m <= data[i]
  {
    var n := |data| - 1;
    if n == 0 then data[0]
    else
      assert data == data[..n] + [data[n]];
      var m := Least(data[..n]);
      if data[n] < m then data[n] else m
  }

  function Greatest(data: seq<real>): (m: real)
    requires data != []
    ensures m in data && forall i | 0 <= i < |data| :: data[i] <= m
  {
    var n := |data| - 1;
    if n == 0 then data[0]
    else
      assert data == data[..n] + [data[n]];
      var m := Greatest(data[..n]);
      if data[n] > m then data[n] else m
  }

  lemma ExtremesStep(data: seq<real>, n: nat)
    requires 0 < n < |data|
    ensures Least(data[..n + 1]) == if data[n] < Least(data[..n]) then data[n] else Least(data[..n])
    ensures Greatest(data[..n + 1]) == if data[n] > Greatest(data[..n]) then data[n] else Greatest(data[..n])
    ensures Least(data[..1]) == Greatest(data[..1]) == data[0]
  {
    assert data[..n + 1][..n] == data[..n];
  }

  method MinMax(data: seq<real>) returns (mn: real, mx: real)
    requires data != []
    ensures mn == Least(data) && mx == Greatest(data)
  {
    mn, mx := data[0], data[0];
    for i := 1 to |data|
      invariant mn == Least(data[..i]) && mx == Greatest(data[..i])
    {
      ExtremesStep(data, i);
      if data[i] < mn { mn := data[i]; }
      if data[i] > mx { mx := data[i]; }
    }
    assert data[..|data|] == data;
  }

  function Times(x: real, y: real): real { x * y }

  predicate Within(c: seq<real>, lo: real, hi: real) {
    forall j | 0 <= j < |c| :: lo <= c[j] <= hi
  }

  lemma ProductBetween(lo: real, x: real, hi: real, d: real)
    requires lo <= x <= hi && d >= 0.0
    ensures lo * d <= x * d <= hi * d
  {
    assert x * d - lo * d == (x - lo) * d;
    assert hi * d - x * d == (hi - x) * d;
  }

  /** w lies between lo and hi times the weight s. */
  predicate Between(lo: real, hi: real, s: real, w: real) { lo * s <= w <= hi * s }

  lemma StepBetween(lo: real, hi: real, s: real, w: real, x: real, d: real)
    requires Between(lo, hi, s, w) && lo <= x <= hi && d >= 0.0
    ensures Between(lo, hi, s + d, w + Times(x, d))
  {
    ProductBetween(lo, x, hi, d);
    assert lo * (s + d) == lo * s + lo * d && hi * (s + d) == hi * s + hi * d;
  }

  lemma SignOfProduct(x: real, d: real)
    requires d > 0.0
    ensures x * d > 0.0 <==> x > 0.0
    ensures x * d < 0.0 <==> x < 0.0
  {
  }

  /** A quotient lies where its numerator lies against multiples of the divisor. */
  lemma QuotientBetween(lo: real, hi: real, s: real, d: real)
    requires d > 0.0 && Between(lo, hi, d, s)
    ensures lo <= s / d <= hi
  {
    var q := s / d;
    assert s == q * d;
    SignOfProduct(q - lo, d);
    SignOfProduct(hi - q, d);
  }

  lemma QuotientOrder(w: real, d: real, b: real)
    requires d > 0.0
    ensures w / d < b <==> w < b * d
    ensures w / d <= b <==> w <= b * d
  {
    var q := w / d;
    assert w == q * d;
    SignOfProduct(q - b, d);
  }

  lemma ScaledAbs(e: real, d: real, p: real)
    requires d > 0.0 && p == e * d
    ensures 2.0 * AbsR(p) <= d <==> 2.0 * AbsR(e) <= 1.0
  {
    if e > 0.5 {
      assert (e - 0.5) * d > 0.0;
    } else if e < -0.5 {
      assert (-0.5 - e) * d > 0.0;
    } else {
      assert (0.5 - e) * d >= 0.0;
      assert (e + 0.5) * d >= 0.0;
    }
  }

  lemma MulNonNegative(a: real, b: real)
    requires a >= 0.0 && b >= 0.0
    ensures a * b >= 0.0 && Times(a, b) >= 0.0
  {
  }
}
