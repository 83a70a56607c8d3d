/** The affine 8-bit quantizer of `engines/quant/quantize.cpp`, over the reals: it is a
    projection onto 256 evenly spaced levels that keeps the smallest and largest entry. */
module Affine {
  import opened Common
  import opened Reals

  datatype Params = Params(scale: real, invScale: real, zeroPoint: real)

  /** A range below this is replaced by 1. */
  const TINY: real := 0.000000000001

  function Lowest(data: seq<real>): real { if data == [] then 0.0 else Least(data) }

  function Highest(data: seq<real>): real { if data == [] then 0.0 else Greatest(data) }

  predicate Degenerate(data: seq<real>) { Highest(data) - Lowest(data) < TINY }

  function Range(data: seq<real>): (r: real)
    ensures r > 0.0
  {
    if Degenerate(data) then 1.0 else Highest(data) - Lowest(data)
  }

  function Derive(range: real, lo: real): Params
    requires range > 0.0
  {
    var invScale := range / 255.0;
    var scale := 1.0 / invScale;
    Params(scale, invScale, Times(-lo, scale))
  }

  function ParamsOf(data: seq<real>): Params { Derive(Range(data), Lowest(data)) }

  /** Position of x on the scale of levels, before rounding. */
  function Position(x: real, p: Params): real { Times(x, p.scale) + p.zeroPoint }

  function Level(q: int, p: Params): real { Times(q as real - p.zeroPoint, p.invScale) }

  function Clamp(q: int): int { if q < 0 then 0 else if q > 255 then 255 else q }

  function Code(x: real, p: Params): int { Clamp(Round(Position(x, p))) }

  function Codes(data: seq<real>, p: Params): seq<int> {
    seq(|data|, i requires 0 <= i < |data| => Code(data[i], p))
  }

  function Levels(codes: seq<int>, p: Params): seq<real> {
    seq(|codes|, i requires 0 <= i < |codes| => Level(codes[i], p))
  }

  // ----- The loops

  method FindParams(src: seq<real>) returns (p: Params)
    ensures p == ParamsOf(src)
  {
    var lo, hi := 0.0, 0.0;
    if |src| > 0 {
      lo, hi := MinMax(src);
    }
    var range := hi - lo;
    if range < TINY {
      range := 1.0;
    }
    var invScale := range / 255.0;
    var scale := 1.0 / invScale;
    var zeroPoint := -lo * scale;
    assert Times(-lo, scale) == zeroPoint;
    p := Params(scale, invScale, zeroPoint);
  }

  /** `quantize_tensor` for an 8-bit destination; None stands for the size-mismatch failure. */
  method QuantizeTensor(src: seq<real>, dst: array<int>) returns (r: Option<Params>)
    modifies dst
    ensures |src| != dst.Length ==> r == None && dst[..] == old(dst[..])
    ensures |src| == dst.Length ==> r == Some(ParamsOf(src)) && dst[..] == Codes(src, ParamsOf(src))
  {
    hide ParamsOf, Code;
    if |src| != dst.Length {
      return None;
    }
    var p := FindParams(src);
    for i := 0 to |src|
      invariant forall k | 0 <= k < i :: dst[k] == Code(src[k], p)
    {
      var q := Round(src[i] * p.scale + p.zeroPoint);
      CodeIs(src[i], p, q);
      dst[i] := if q < 0 then 0 else if q > 255 then 255 else q;
    }
    return Some(p);
  }

  lemma CodeIs(x: real, p: Params, q: int)
    requires q == Round(x * p.scale + p.zeroPoint)
    ensures Code(x, p) == Clamp(q)
  {
  }

  method Dequantize(src: seq<int>, p: Params) returns (out: array<real>)
    ensures fresh(out) && out[..] == Levels(src, p)
  {
    hide Level;
    out := new real[|src|];
    for i := 0 to |src|
      invariant forall k | 0 <= k < i :: out[k] == Level(src[k], p)
    {
      out[i] := (src[i] as real - p.zeroPoint) * p.invScale;
      LevelIs(src[i], p, out[i]);
    }
  }

  lemma LevelIs(q: int, p: Params, v: real)
    requires v == (q as real - p.zeroPoint) * p.invScale
    ensures Level(q, p) == v
  {
  }

  // ----- Positions and levels are inverse to each other

  /** Parameters as `quantize_tensor` derives them from a lowest entry and a gap. */
  predicate Derived(p: Params, lo: real) {
    p.invScale > 0.0 && p.scale == 1.0 / p.invScale && p.zeroPoint == Times(-lo, p.scale)
  }

  lemma IsDerived(data: seq<real>)
    ensures Derived(ParamsOf(data), Lowest(data))
  {
    hide Lowest, Highest, Times;
  }

  lemma PositionIsScaledDistance(x: real, p: Params, lo: real)
    requires Derived(p, lo)
    ensures Position(x, p) == (x - lo) / p.invScale
    ensures Times(Position(x, p), p.invScale) == x - lo
  {
    var s := p.scale;
    assert x * s + -lo * s == (x - lo) * s;
    assert (x - lo) * (1.0 / p.invScale) == (x - lo) / p.invScale;
  }

  lemma LevelIsOffset(q: int, p: Params, lo: real)
    requires Derived(p, lo)
    ensures Level(q, p) == lo + Times(q as real, p.invScale)
  {
    var g, s := p.invScale, p.scale;
    assert s * g == 1.0;
    assert (-lo * s) * g == -lo * (s * g);
    assert (q as real - -lo * s) * g == q as real * g - (-lo * s) * g;
  }

  lemma RoundInside(x: real, hi: int)
    requires 0.0 <= x <= hi as real
    ensures 0 <= Round(x) <= hi
  {
    RoundIsNearest(x);
  }

  lemma CodeOfLevel(q: int, p: Params, lo: real)
    requires Derived(p, lo) && 0 <= q <= 255
    ensures Code(Level(q, p), p) == q
  {
    var x := Level(q, p);
    LevelIsOffset(q, p, lo);
    PositionIsScaledDistance(x, p, lo);
    QuotientBetween(q as real, q as real, x - lo, p.invScale);
  }

  /** Every entry lies on the scale from 0 to 255. */
  lemma PositionInRange(data: seq<real>, i: nat)
    requires i < |data|
    ensures 0.0 <= Position(data[i], ParamsOf(data)) <= 255.0
    ensures Degenerate(data) ==> Position(data[i], ParamsOf(data)) < 0.5
  {
    var p, lo := ParamsOf(data), Lowest(data);
    var e := data[i] - lo;
    PositionIsScaledDistance(data[i], p, lo);
    assert 0.0 <= e <= 255.0 * p.invScale;
    QuotientBetween(0.0, 255.0, e, p.invScale);
    QuotientOrder(e, p.invScale, 0.5);
  }

  /** The clamp never changes a value. */
  lemma ClampNeverActs(data: seq<real>, i: nat)
    requires i < |data|
    ensures 0 <= Round(Position(data[i], ParamsOf(data))) <= 255
    ensures Codes(data, ParamsOf(data))[i] == Round(Position(data[i], ParamsOf(data)))
  {
    PositionInRange(data, i);
    RoundInside(Position(data[i], ParamsOf(data)), 255);
  }

  lemma ErrorIsRounding(x: real, q: int, p: Params, lo: real)
    requires Derived(p, lo)
    ensures Level(q, p) - x == Times(q as real - Position(x, p), p.invScale)
  {
    var g, u := p.invScale, Position(x, p);
    PositionIsScaledDistance(x, p, lo);
    LevelIsOffset(q, p, lo);
    assert (q as real - u) * g == q as real * g - u * g;
  }

  function Restored(data: seq<real>): (d: seq<real>)
    ensures |d| == |data|
  {
    var p := ParamsOf(data);
    Levels(Codes(data, p), p)
  }

  /** Every entry comes back to within half a step. */
  lemma RestoredWithinHalfStep(data: seq<real>, i: nat)
    requires i < |data|
    ensures AbsR(Restored(data)[i] - data[i]) <= ParamsOf(data).invScale / 2.0
  {
    var p := ParamsOf(data);
    var x := data[i];
    var u := Position(x, p);
    ClampNeverActs(data, i);
    ErrorIsRounding(x, Round(u), p, Lowest(data));
    RoundIsNearest(u);
    ScaledAbs(Round(u) as real - u, p.invScale, Level(Round(u), p) - x);
  }

  /** The step is a 255th of the range: every entry comes back within a 510th of it, and as the
      minimum where the range is taken for zero. */
  lemma RestoredWithinRange(data: seq<real>, i: nat)
    requires i < |data|
    ensures var mn, mx := Least(data), Greatest(data);
            if mx - mn < 0.000000000001 then Restored(data)[i] == mn
            else 510.0 * AbsR(Restored(data)[i] - data[i]) <= mx - mn
  {
    RestoredWithinHalfStep(data, i);
    if Degenerate(data) { DegenerateCodesAreZero(data, i); }
    hide Restored;
  }

  /** The parameters for no data at all are those of the range from 0 to 1. */
  lemma NoData()
    ensures ParamsOf([]) == Params(255.0, 1.0 / 255.0, 0.0)
  {
  }

  // ----- The extremes

  lemma LowestIsCodeZero(data: seq<real>, i: nat)
    requires i < |data| && data[i] == Lowest(data)
    ensures Codes(data, ParamsOf(data))[i] == 0 && Restored(data)[i] == data[i]
  {
    var p := ParamsOf(data);
    PositionIsScaledDistance(data[i], p, Lowest(data));
    LevelIsOffset(0, p, Lowest(data));
  }

  lemma HighestIsCode255(data: seq<real>, i: nat)
    requires i < |data| && data[i] == Highest(data) && !Degenerate(data)
    ensures Codes(data, ParamsOf(data))[i] == 255 && Restored(data)[i] == data[i]
  {
    var p, lo := ParamsOf(data), Lowest(data);
    var e := data[i] - lo;
    assert e == 255.0 * p.invScale;
    PositionIsScaledDistance(data[i], p, lo);
    QuotientBetween(255.0, 255.0, e, p.invScale);
    LevelIsOffset(255, p, lo);
  }

  lemma DegenerateCodesAreZero(data: seq<real>, i: nat)
    requires i < |data| && Degenerate(data)
    ensures Codes(data, ParamsOf(data))[i] == 0 && Restored(data)[i] == Lowest(data)
  {
    var p, lo := ParamsOf(data), Lowest(data);
    PositionInRange(data, i);
    ClampNeverActs(data, i);
    RoundIsNearest(Position(data[i], p));
    LevelIsOffset(0, p, lo);
  }

  /** The smallest entry always survives; the largest does exactly when the range is not
      mistaken for zero, or is zero. */
  lemma ExtremesAreExact(data: seq<real>, i: nat)
    requires i < |data|
    ensures data[i] == Least(data) ==> Restored(data)[i] == data[i]
    ensures data[i] == Greatest(data) ==>
              (Restored(data)[i] == data[i] <==> (!Degenerate(data) || Greatest(data) == Least(data)))
  {
    if data[i] == Least(data) { LowestIsCodeZero(data, i); }
    if Degenerate(data) {
      DegenerateCodesAreZero(data, i);
    } else if data[i] == Greatest(data) {
      HighestIsCode255(data, i);
    }
  }

  // ----- Projection

  lemma LeastIs(data: seq<real>, i: nat)
    requires i < |data| && forall k | 0 <= k < |data| :: data[i] <= data[k]
    ensures Lowest(data) == data[i]
  {
  }

  lemma GreatestIs(data: seq<real>, i: nat)
    requires i < |data| && forall k | 0 <= k < |data| :: data[k] <= data[i]
    ensures Highest(data) == data[i]
  {
  }

  lemma RestoredBetween(data: seq<real>, i: nat)
    requires i < |data|
    ensures Lowest(data) <= Restored(data)[i]
    ensures !Degenerate(data) ==> Restored(data)[i] <= Highest(data)
  {
    var p, lo := ParamsOf(data), Lowest(data);
    var q := Codes(data, p)[i];
    LevelIsOffset(q, p, lo);
    ProductBetween(0.0, q as real, 255.0, p.invScale);
  }

  lemma LowestSurvives(data: seq<real>)
    ensures Lowest(Restored(data)) == Lowest(data)
  {
    hide ParamsOf, Codes, Levels, Restored;
    if data != [] {
      var i: nat :| i < |data| && data[i] == Least(data);
      LowestIsCodeZero(data, i);
      forall k | 0 <= k < |data|
        ensures Restored(data)[i] <= Restored(data)[k]
      {
        RestoredBetween(data, k);
      }
      LeastIs(Restored(data), i);
    }
  }

  lemma HighestSurvives(data: seq<real>)
    requires !Degenerate(data)
    ensures Highest(Restored(data)) == Highest(data)
  {
    hide ParamsOf, Codes, Levels, Restored;
    if data != [] {
      var i: nat :| i < |data| && data[i] == Greatest(data);
      HighestIsCode255(data, i);
      forall k | 0 <= k < |data|
        ensures Restored(data)[k] <= Restored(data)[i]
      {
        RestoredBetween(data, k);
      }
      GreatestIs(Restored(data), i);
    }
  }

  lemma DegenerateSurvives(data: seq<real>)
    requires Degenerate(data)
    ensures Degenerate(Restored(data))
  {
    hide ParamsOf, Codes, Levels, Restored;
    if data != [] {
      forall k | 0 <= k < |data|
        ensures Restored(data)[k] == Lowest(data)
      {
        DegenerateCodesAreZero(data, k);
      }
      LeastIs(Restored(data), 0);
      GreatestIs(Restored(data), 0);
    }
  }

  lemma ParamsSurvive(data: seq<real>)
    ensures ParamsOf(Restored(data)) == ParamsOf(data)
  {
    LowestSurvives(data);
    if Degenerate(data) {
      DegenerateSurvives(data);
    } else {
      HighestSurvives(data);
    }
    hide Restored, Lowest, Highest, Derive;
    assert Range(Restored(data)) == Range(data);
  }

  lemma CodesSurvive(data: seq<real>, p: Params, lo: real)
    requires Derived(p, lo)
    ensures Codes(Levels(Codes(data, p), p), p) == Codes(data, p)
  {
    hide Derived, Level;
    var q := Codes(data, p);
    forall i | 0 <= i < |data|
      ensures Code(Levels(q, p)[i], p) == q[i]
    {
      CodeOfLevel(q[i], p, lo);
    }
  }

  /** Quantizing what dequantizing returned gives the same parameters and the same bytes, so a
      second round trip changes nothing. */
  lemma QuantizerIsProjection(data: seq<real>)
    ensures ParamsOf(Restored(data)) == ParamsOf(data)
    ensures Codes(Restored(data), ParamsOf(Restored(data))) == Codes(data, ParamsOf(data))
    ensures Restored(Restored(data)) == Restored(data)
  {
    hide ParamsOf, Codes, Levels, Derived;
    ParamsSurvive(data);
    IsDerived(data);
    CodesSurvive(data, ParamsOf(data), Lowest(data));
  }
}
