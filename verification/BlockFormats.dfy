/** What the block baselines share, and two of them: `rt_int8` and `rt_gguf_q6k`.
    Weights and scales are reals. */
module BlockFormats {
  import opened Reals

  function Clamp(q: int, lo: int, hi: int): int {
    if q < lo then lo else if q > hi then hi else q
  }

  function AbsMax(s: seq<real>): (m: real)
    ensures m >= 0.0
    ensures forall i | 0 <= i < |s| :: AbsR(s[i]) <= m
    ensures m > 0.0 ==> exists i :: 0 <= i < |s| && AbsR(s[i]) == m
  {
    if s == [] then 0.0
    else
      var n := |s| - 1;
      var m := AbsMax(s[..n]);
      assert m > 0.0 ==> exists i :: 0 <= i < n && AbsR(s[..n][i]) == m;
      if AbsR(s[n]) > m then AbsR(s[n]) else m
  }

  /** What a weight is divided by: a step that is not positive is replaced. */
  function Divisor(d: real): (r: real)
    ensures r > 0.0
  {
    if d > 0.0 then d else TINY
  }

  const TINY: real := 0.000000000000000000000000000001

  /** Quantize with step d and clamp to lo..hi, then scale back. */
  function Stepped(w: real, d: real, lo: int, hi: int): real {
    Clamp(Round(w / Divisor(d)), lo, hi) as real * d
  }

  /** From half a step below code lo to half a step above code hi. */
  predicate Spans(w: real, d: real, lo: int, hi: int) {
    (lo as real - 0.5) * d <= w <= (hi as real + 0.5) * d
  }

  predicate SpansStrictly(w: real, d: real, lo: int, hi: int) {
    (lo as real - 0.5) * d < w < (hi as real + 0.5) * d
  }

  lemma SpanQuotient(w: real, d: real, lo: int, hi: int)
    requires d > 0.0
    ensures Spans(w, d, lo, hi) <==> lo as real - 0.5 <= w / d <= hi as real + 0.5
    ensures SpansStrictly(w, d, lo, hi) <==> lo as real - 0.5 < w / d < hi as real + 0.5
  {
    QuotientOrder(w, d, hi as real + 0.5);
    QuotientOrder(w, d, lo as real - 0.5);
  }

  /** The clamp leaves a weight's code alone exactly in the open range half a step
      beyond the extreme codes, the step being the one divided by. */
  lemma ClampInactiveIff(w: real, d: real, lo: int, hi: int)
    requires lo <= 0 <= hi
    ensures lo <= Round(w / Divisor(d)) <= hi <==> SpansStrictly(w, Divisor(d), lo, hi)
  {
    hide SpansStrictly, Spans, Divisor;
    SpanQuotient(w, Divisor(d), lo, hi);
  }

  /** A reconstruction is within half a step of its weight exactly when the weight
      is at most half a step beyond the extreme codes; of step 0 only 0 comes back. */
  lemma HalfStepIff(w: real, d: real, lo: int, hi: int)
    requires d >= 0.0 && lo <= 0 <= hi
    ensures 2.0 * AbsR(Stepped(w, d, lo, hi) - w) <= d <==> Spans(w, d, lo, hi)
    ensures d == 0.0 ==> Stepped(w, d, lo, hi) == 0.0 && (Spans(w, d, lo, hi) <==> w == 0.0)
  {
    if d > 0.0 {
      PositiveStepIff(w, d, lo, hi);
    } else {
      ZeroStep(w, lo, hi);
    }
  }

  /** Beyond the span a weight comes back as the extreme code of its side. */
  lemma BeyondIsExtreme(w: real, d: real, lo: int, hi: int)
    requires d > 0.0 && lo <= 0 <= hi
    ensures w > (hi as real + 0.5) * d ==> Stepped(w, d, lo, hi) == hi as real * d
    ensures w < (lo as real - 0.5) * d ==> Stepped(w, d, lo, hi) == lo as real * d
  {
    QuotientOrder(w, d, hi as real + 0.5);
    QuotientOrder(w, d, lo as real - 0.5);
    var x := w / d;
    RoundBeyond(x, lo, hi);
    hide Round;
  }

  lemma RoundBeyond(x: real, lo: int, hi: int)
    requires lo <= 0 <= hi
    ensures x > hi as real + 0.5 ==> Round(x) > hi
    ensures x < lo as real - 0.5 ==> Round(x) < lo
  {
  }

  lemma ZeroStep(w: real, lo: int, hi: int)
    ensures Stepped(w, 0.0, lo, hi) == 0.0 && (Spans(w, 0.0, lo, hi) <==> w == 0.0)
  {
    hide Clamp, Round, Divisor;
  }

  lemma PositiveStepIff(w: real, d: real, lo: int, hi: int)
    requires d > 0.0 && lo <= 0 <= hi
    ensures 2.0 * AbsR(Stepped(w, d, lo, hi) - w) <= d <==> Spans(w, d, lo, hi)
  {
    hide AbsR, Round, Clamp, Spans, SpansStrictly;
    var x := w / d;
    ClampedHalf(x, lo, hi);
    SpanQuotient(w, d, lo, hi);
    var q := Clamp(Round(x), lo, hi) as real;
    ErrorScales(q, x, d, w);
    assert Stepped(w, d, lo, hi) == q * d;
  }

  lemma ClampedHalf(x: real, lo: int, hi: int)
    requires lo <= 0 <= hi
    ensures 2.0 * AbsR(Clamp(Round(x), lo, hi) as real - x) <= 1.0
            <==> lo as real - 0.5 <= x <= hi as real + 0.5
  {
    RoundIsNearest(x);
  }

  lemma ErrorScales(q: real, x: real, d: real, w: real)
    requires d > 0.0 && x == w / d
    ensures 2.0 * AbsR(q * d - w) <= d <==> 2.0 * AbsR(q - x) <= 1.0
  {
    assert w == x * d;
    assert q * d - w == (q - x) * d;
    ScaledAbs(q - x, d, q * d - w);
  }

  // ----- Blocks

  /** The block of positions start to start + len, cut short at the end. */
  function Block(w: seq<real>, start: nat, len: nat): seq<real>
    requires start <= |w|
  {
    w[start..if start + len < |w| then start + len else |w|]
  }

  method FindAbsMax(w: seq<real>, start: nat, end: nat) returns (m: real)
    requires start <= end <= |w|
    ensures m == AbsMax(w[start..end])
  {
    m := 0.0;
    for i := start to end
      invariant m == AbsMax(w[start..i])
    {
      assert w[start..i + 1][..i - start] == w[start..i];
      if AbsR(w[i]) > m { m := AbsR(w[i]); }
    }
  }

  // ----- INT8

  const FAR: real := 1000000000000000000000000000000.0

  /** The minimum and maximum as the code finds them, starting from 1e30 and -1e30. */
  function BlockMin(s: seq<real>): real {
    if s == [] then FAR
    else
      var n := |s| - 1;
      var m := BlockMin(s[..n]);
      if s[n] < m then s[n] else m
  }

  function BlockMax(s: seq<real>): real {
    if s == [] then -FAR
    else
      var n := |s| - 1;
      var m := BlockMax(s[..n]);
      if s[n] > m then s[n] else m
  }

  lemma BlockExtremes(s: seq<real>, i: nat)
    requires i < |s|
    ensures BlockMin(s) <= s[i] <= BlockMax(s)
  {
    var n := |s| - 1;
    if i < n {
      BlockExtremes(s[..n], i);
    }
  }

  /** Weights between -1e30 and 1e30. */
  predicate Moderate(s: seq<real>) {
    forall i | 0 <= i < |s| ::
      -1000000000000000000000000000000.0 <= s[i] <= 1000000000000000000000000000000.0
  }

  /** Of weights up to 1e30 the extremes found are two of the weights. */
  lemma {:induction false} BlockExtremesAreWeights(s: seq<real>)
    requires s != [] && Moderate(s)
    ensures BlockMin(s) in s && BlockMax(s) in s
  {
    var n := |s| - 1;
    assert s == s[..n] + [s[n]];
    if n > 0 { BlockExtremesAreWeights(s[..n]); }
  }

  /** `scale`. */
  function Int8Scale(range: real): real { if range > 0.0 then 255.0 / range else 0.0 }

  function Int8Code(w: real, vmin: real, range: real): int { Round(Times(w - vmin, Int8Scale(range))) }

  function Int8Value(w: real, vmin: real, range: real): real {
    vmin + Times(Clamp(Int8Code(w, vmin, range), 0, 255) as real, range / 255.0)
  }

  /** Any weight between the minimum and maximum found: its code needs no clamp, and
      it comes back within 1/510 of the range, the two extremes exactly. */
  lemma Int8Error(w: real, vmin: real, vmax: real)
    requires vmin <= w <= vmax
    ensures 0 <= Int8Code(w, vmin, vmax - vmin) <= 255
    ensures 510.0 * AbsR(Int8Value(w, vmin, vmax - vmin) - w) <= vmax - vmin
    ensures w == vmin || w == vmax ==> Int8Value(w, vmin, vmax - vmin) == w
  {
    var range := vmax - vmin;
    var y := w - vmin;
    if range > 0.0 {
      Int8Scaled(y, range);
      hide Times, Int8Scale;
      var x := Times(y, Int8Scale(range));
      RoundIsNearest(x);
      Int8Off(Round(x) as real, x, range / 255.0, y);
    } else {
      Int8Flat();
      hide Times;
    }
  }

  lemma Int8Flat()
    ensures Int8Scale(0.0) == 0.0 && Times(0.0, 0.0) == 0.0
  {
  }

  lemma Int8Off(q: real, x: real, step: real, y: real)
    requires AbsR(q - x) <= 0.5 && step > 0.0 && y == Times(x, step)
    ensures 2.0 * AbsR(Times(q, step) - y) <= step
    ensures q == x ==> Times(q, step) == y
  {
    assert q * step - y == (q - x) * step;
    ScaledAbs(q - x, step, q * step - y);
  }

  lemma Int8Scaled(y: real, range: real)
    requires range > 0.0 && 0.0 <= y <= range
    ensures var x := Times(y, Int8Scale(range));
            && 0.0 <= x <= 255.0 && y == Times(x, range / 255.0)
            && (y == 0.0 ==> x == 0.0) && (y == range ==> x == 255.0)
  {
    var k := 255.0 / range;
    var x := y * k;
    assert k * range == 255.0 && k > 0.0;
    ProductBetween(0.0, y, range, k);
    assert x * (range / 255.0) == y * (k * range) / 255.0;
  }

  /** What position i comes back as. */
  function Int8At(w: seq<real>, i: nat): real
    requires i < |w|
  {
    var block := Block(w, i / 256 * 256, 256);
    Int8Value(w[i], BlockMin(block), BlockMax(block) - BlockMin(block))
  }

  method FindMinMax(w: seq<real>, start: nat, end: nat) returns (vmin: real, vmax: real)
    requires start <= end <= |w|
    ensures vmin == BlockMin(w[start..end]) && vmax == BlockMax(w[start..end])
  {
    vmin, vmax := FAR, -FAR;
    for i := start to end
      invariant vmin == BlockMin(w[start..i]) && vmax == BlockMax(w[start..i])
    {
      assert w[start..i + 1][..i - start] == w[start..i];
      if w[i] < vmin { vmin := w[i]; }
      if w[i] > vmax { vmax := w[i]; }
    }
  }

  /** `rt_int8`. */
  method RtInt8(w: seq<real>) returns (out: array<real>)
    ensures out.Length == |w|
    ensures forall i | 0 <= i < |w| :: out[i] == Int8At(w, i)
  {
    hide Int8Value, BlockMin, BlockMax;
    out := new real[|w|];
    var start := 0;
    while start < |w|
      invariant start % 256 == 0
      invariant forall i | 0 <= i < start && i < |w| :: out[i] == Int8At(w, i)
      decreases |w| - start
    {
      var end := if start + 256 < |w| then start + 256 else |w|;
      Int8Fill(w, start, end, out);
      start := start + 256;
    }
  }

  method Int8Fill(w: seq<real>, start: nat, end: nat, out: array<real>)
    requires start % 256 == 0 && start <= end <= |w| == out.Length && (end == start + 256 || end == |w| < start + 256)
    modifies out
    ensures forall j | 0 <= j < start :: out[j] == old(out[j])
    ensures forall j | start <= j < end :: out[j] == Int8At(w, j)
  {
    hide Int8Value, BlockMin, BlockMax;
    var vmin, vmax := FindMinMax(w, start, end);
    assert Block(w, start, 256) == w[start..end];
    for i := start to end
      invariant forall j | 0 <= j < start :: out[j] == old(out[j])
      invariant forall j | start <= j < i :: out[j] == Int8At(w, j)
    {
      assert i / 256 * 256 == start;
      out[i] := Int8Value(w[i], vmin, vmax - vmin);
    }
  }

  lemma Int8ArrayError(w: seq<real>, i: nat)
    requires i < |w|
    ensures var block := Block(w, i / 256 * 256, 256);
            510.0 * AbsR(Int8At(w, i) - w[i]) <= BlockMax(block) - BlockMin(block)
  {
    hide Int8Value, BlockMin, BlockMax;
    var start := i / 256 * 256;
    var block := Block(w, start, 256);
    assert block[i - start] == w[i];
    BlockExtremes(block, i - start);
    Int8Error(w[i], BlockMin(block), BlockMax(block));
  }

  /** Of weights up to 1e30, the least and the greatest of 256 come back exactly. */
  lemma Int8Extremes(w: seq<real>, i: nat)
    requires i < |w|
    requires var lo := i / 256 * 256;
             var block := w[lo..if lo + 256 < |w| then lo + 256 else |w|];
             Moderate(block)
             && ((forall j | 0 <= j < |block| :: w[i] <= block[j]) || forall j | 0 <= j < |block| :: block[j] <= w[i])
    ensures Int8At(w, i) == w[i]
  {
    hide Int8Value, BlockMin, BlockMax;
    var start := i / 256 * 256;
    var block := Block(w, start, 256);
    assert block[i - start] == w[i];
    BlockExtremes(block, i - start);
    BlockExtremesAreWeights(block);
    Int8Error(w[i], BlockMin(block), BlockMax(block));
  }

  /** Equal on the block of `len` positions that position i is in. */
  predicate SameBlock(w: seq<real>, w': seq<real>, i: nat, len: nat)
    requires i < |w| && len > 0
  {
    |w| == |w'| && forall j | 0 <= j < |w| && j / len == i / len :: w[j] == w'[j]
  }

  lemma SameBlocks(w: seq<real>, w': seq<real>, i: nat, len: nat, q: nat)
    requires i < |w| && len > 0 && SameBlock(w, w', i, len) && q == i / len
    requires forall j | q * len <= j < q * len + len :: j / len == q
    requires 0 <= q * len <= |w|
    ensures Block(w, q * len, len) == Block(w', q * len, len)
  {
  }

  /** What a position comes back as depends on its own block of 256, or of 16, alone. */
  lemma BlocksAreIndependent(w: seq<real>, w': seq<real>, i: nat)
    requires i < |w|
    ensures SameBlock(w, w', i, 256) ==> Int8At(w, i) == Int8At(w', i)
    ensures SameBlock(w, w', i, 16) ==> Q6At(w, i) == Q6At(w', i)
  {
    if SameBlock(w, w', i, 256) {
      SameBlocks(w, w', i, 256, i / 256);
    }
    if SameBlock(w, w', i, 16) {
      SameBlocks(w, w', i, 16, i / 16);
    }
  }

  // ----- Q6_K

  function Q6Scale(block: seq<real>): real {
    if AbsMax(block) > 0.0 then AbsMax(block) / 32.0 else 0.0
  }

  /** What position i comes back as: its 16-block has its own scale. */
  function Q6At(w: seq<real>, i: nat): real
    requires i < |w|
  {
    Stepped(w[i], Q6Scale(Block(w, i / 16 * 16, 16)), -32, 31)
  }

  /** A weight of a block with largest magnitude bmax > 0, of step bmax / 32: off by
      one step at most, by exactly one for bmax itself, and its code is clamped
      exactly from 31 and a half steps on. */
  lemma Q6Error(w: real, bmax: real)
    requires bmax > 0.0 && AbsR(w) <= bmax
    ensures var d := bmax / 32.0;
            && AbsR(Stepped(w, d, -32, 31) - w) <= d
            && (w == bmax ==> AbsR(Stepped(w, d, -32, 31) - w) == d)
            && (Round(w / d) != Clamp(Round(w / d), -32, 31) <==> w >= 31.5 * d)
  {
    var d := bmax / 32.0;
    var x := w / d;
    Q6Quotient(w, d);
    var q := Clamp(Round(x), -32, 31) as real;
    OneStep(q - x, d, q * d - w);
  }

  lemma Q6Quotient(w: real, d: real)
    requires d > 0.0 && AbsR(w) <= 32.0 * d
    ensures var x := w / d;
            var q := Clamp(Round(x), -32, 31) as real;
            && -1.0 <= q - x <= 1.0
            && q * d - w == (q - x) * d
            && (w == 32.0 * d ==> q - x == -1.0)
            && (Round(x) != Clamp(Round(x), -32, 31) <==> w >= 31.5 * d)
  {
    var x := w / d;
    assert w == x * d;
    QuotientOrder(w, d, 31.5);
    QuotientOrder(w, d, 32.0);
    QuotientOrder(w, d, -32.0);
    Q6Clamp(x);
  }

  lemma Q6Clamp(x: real)
    requires -32.0 <= x <= 32.0
    ensures -1.0 <= Clamp(Round(x), -32, 31) as real - x <= 1.0
    ensures x == 32.0 ==> Clamp(Round(x), -32, 31) == 31
    ensures Round(x) != Clamp(Round(x), -32, 31) <==> x >= 31.5
  {
  }

  lemma OneStep(e: real, d: real, p: real)
    requires -1.0 <= e <= 1.0 && d > 0.0 && p == e * d
    ensures -d <= p <= d && (e == -1.0 ==> p == -d)
  {
    MulNonNegative(1.0 - e, d);
    MulNonNegative(1.0 + e, d);
    assert (1.0 + e) * d == d + p && (1.0 - e) * d == d - p;
  }

  /** `rt_gguf_q6k`. */
  method RtQ6K(w: seq<real>) returns (out: array<real>)
    ensures out.Length == |w|
    ensures forall i | 0 <= i < |w| :: out[i] == Q6At(w, i)
  {
    hide Stepped, AbsMax, Q6Scale, Block;
    out := new real[|w|];
    var start := 0;
    while start < |w|
      invariant start % 256 == 0
      invariant forall i | 0 <= i < start && i < |w| :: out[i] == Q6At(w, i)
      decreases |w| - start
    {
      var end := if start + 256 < |w| then start + 256 else |w|;
      var scales := Q6Scales(w, start, end);
      Q6Fill(w, start, end, scales, out);
      start := start + 256;
    }
  }

  method Q6Fill(w: seq<real>, start: nat, end: nat, scales: array<real>, out: array<real>)
    requires start % 16 == 0 && start <= end <= |w| == out.Length && scales != out
    requires scales.Length == (end - start + 15) / 16
    requires forall b | 0 <= b < scales.Length :: scales[b] == Q6Scale(Block(w, start + b * 16, 16))
    modifies out
    ensures forall j | 0 <= j < start :: out[j] == old(out[j])
    ensures forall j | start <= j < end :: out[j] == Q6At(w, j)
  {
    hide Stepped, Q6Scale, Block;
    ghost var stored := scales[..];
    for i := start to end
      invariant scales[..] == stored
      invariant forall j | 0 <= j < start :: out[j] == old(out[j])
      invariant forall j | start <= j < i :: out[j] == Q6At(w, j)
    {
      var b := (i - start) / 16;
      assert start + b * 16 == i / 16 * 16;
      assert scales[b] == stored[b];
      out[i] := Stepped(w[i], scales[b], -32, 31);
    }
  }

  /** The scales of the 16-blocks of one 256-block. */
  method Q6Scales(w: seq<real>, start: nat, end: nat) returns (scales: array<real>)
    requires start <= end <= |w| && (end == start + 256 || end == |w|)
    ensures fresh(scales) && scales.Length == (end - start + 15) / 16
    ensures forall b | 0 <= b < scales.Length :: scales[b] == Q6Scale(Block(w, start + b * 16, 16))
  {
    var n := (end - start + 15) / 16;
    scales := new real[n];
    for b := 0 to n
      invariant forall a | 0 <= a < b :: scales[a] == Q6Scale(Block(w, start + a * 16, 16))
    {
      var from := start + b * 16;
      var bmax := FindAbsMax(w, from, if from + 16 < end then from + 16 else end);
      scales[b] := if bmax > 0.0 then bmax / 32.0 else 0.0;
    }
  }

  lemma Q6ArrayError(w: seq<real>, i: nat)
    requires i < |w|
    ensures AbsR(Q6At(w, i) - w[i]) <= AbsMax(Block(w, i / 16 * 16, 16)) / 32.0
  {
    hide Stepped, AbsMax;
    var start := i / 16 * 16;
    var block := Block(w, start, 16);
    assert block[i - start] == w[i];
    if AbsMax(block) > 0.0 {
      Q6Error(w[i], AbsMax(block));
    } else {
      ZeroWeight(0.0);
    }
  }

  /** A largest magnitude that is positive comes back exactly a 32nd short, and a negative one
      exactly. */
  lemma Q6Extremes(w: seq<real>, i: nat)
    requires i < |w|
    requires forall j | i / 16 * 16 <= j < i / 16 * 16 + 16 && j < |w| :: AbsR(w[j]) <= AbsR(w[i])
    ensures w[i] > 0.0 ==> 32.0 * (w[i] - Q6At(w, i)) == w[i]
    ensures w[i] <= 0.0 ==> Q6At(w, i) == w[i]
  {
    var block := Block(w, i / 16 * 16, 16);
    assert block[i - i / 16 * 16] == w[i];
    LargestIs(block, i - i / 16 * 16);
    hide AbsMax, Block, Stepped;
    if w[i] > 0.0 {
      TopStep(w[i]);
    } else if w[i] < 0.0 {
      BottomStep(-w[i]);
    } else {
      ZeroWeight(0.0);
    }
  }

  lemma LargestIs(s: seq<real>, i: nat)
    requires i < |s| && forall j | 0 <= j < |s| :: AbsR(s[j]) <= AbsR(s[i])
    ensures AbsMax(s) == AbsR(s[i])
  {
  }

  lemma TopStep(b: real)
    requires b > 0.0
    ensures 32.0 * (b - Stepped(b, b / 32.0, -32, 31)) == b
  {
    var d := b / 32.0;
    QuotientBetween(32.0, 32.0, b, d);
  }

  lemma BottomStep(b: real)
    requires b > 0.0
    ensures Stepped(-b, b / 32.0, -32, 31) == -b
  {
    var d := b / 32.0;
    QuotientBetween(-32.0, -32.0, -b, d);
  }

  lemma ZeroWeight(d: real)
    ensures Stepped(0.0, d, -32, 31) == 0.0
  {
  }
}
