/** Lloyd-Max codebook training, over the reals: the in-place loops of `lm_train`
    and `lm_train_pinned`, and `lm_near`. */
module Lloyd {

  function Dist(x: real, c: real): real { if x < c then c - x else x - c }

  function Sq(x: real): real { x * x }

  /** Position of the nearest codeword, the first one on a tie. */
  function Near(x: real, c: seq<real>): (b: nat)
    requires c != []
    ensures b < |c|
    ensures forall j | 0 <= j < |c| :: Dist(x, c[b]) <= Dist(x, c[j])
    ensures forall j | 0 <= j < b :: Dist(x, c[b]) < Dist(x, c[j])
  {
    var n := |c| - 1;
    if n == 0 then 0
    else
      var b := Near(x, c[..n]);
      if Dist(x, c[n]) < Dist(x, c[b]) then n else b
  }

  /** `lm_near`. */
  method FindNear(x: real, c: array<real>) returns (b: nat)
    requires c.Length > 0
    ensures b == Near(x, c[..])
  {
    b := 0;
    var best := Dist(x, c[0]);
    for i := 1 to c.Length
      invariant b == Near(x, c[..i]) && b < c.Length && best == Dist(x, c[b])
    {
      var d := Dist(x, c[i]);
      assert c[..i + 1][..i] == c[..i];
      if d < best {
        best := d;
        b := i;
      }
    }
    assert c[..c.Length] == c[..];
  }

  /** The cell each point falls in. */
  function Cells(data: seq<real>, c: seq<real>): (a: seq<nat>)
    requires c != []
    ensures |a| == |data|
    ensures forall i | 0 <= i < |data| :: a[i] == Near(data[i], c)
  {
    seq(|data|, i requires 0 <= i < |data| => Near(data[i], c))
  }

  predicate InCells(a: seq<nat>, k: nat) { forall i | 0 <= i < |a| :: a[i] < k }

  function Count(a: seq<nat>, j: nat): nat {
    if a == [] then 0 else Count(a[..|a| - 1], j) + (if a[|a| - 1] == j then 1 else 0)
  }

  function Sum(data: seq<real>, a: seq<nat>, j: nat): real
    requires |data| == |a|
  {
    if a == [] then 0.0
    else Sum(data[..|a| - 1], a[..|a| - 1], j) + (if a[|a| - 1] == j then data[|a| - 1] else 0.0)
  }

  /** Squared error of reading each point as the codeword of its cell. */
  function Cost(data: seq<real>, a: seq<nat>, c: seq<real>): real
    requires |data| == |a| && InCells(a, |c|)
  {
    if a == [] then 0.0
    else
      var n := |a| - 1;
      Cost(data[..n], a[..n], c) + Sq(data[n] - c[a[n]])
  }

  /** The distortion: each point against its nearest codeword. */
  function Distortion(data: seq<real>, c: seq<real>): real
    requires c != []
  {
    Cost(data, Cells(data, c), c)
  }

  lemma NearerIsCheaper(x: real, c: real, d: real)
    requires Dist(x, c) <= Dist(x, d)
    ensures Sq(x - c) <= Sq(x - d)
  {
    var p, q := Dist(x, c), Dist(x, d);
    assert Sq(x - c) == p * p && Sq(x - d) == q * q;
    assert q * q - p * p == (q - p) * (q + p);
  }

  /** No assignment of points to codewords does better than the nearest one. */
  lemma {:induction false} NearestCellsAreBest(data: seq<real>, a: seq<nat>, c: seq<real>)
    requires |data| == |a| && InCells(a, |c|) && c != []
    ensures Distortion(data, c) <= Cost(data, a, c)
  {
    hide Sq, Near, Dist;
    if a != [] {
      var n := |a| - 1;
      assert Cells(data, c)[..n] == Cells(data[..n], c);
      NearestCellsAreBest(data[..n], a[..n], c);
      var b := Near(data[n], c);
      assert Dist(data[n], c[b]) <= Dist(data[n], c[a[n]]);
      NearerIsCheaper(data[n], c[b], c[a[n]]);
    }
  }

  // ----- One iteration

  function Mean(data: seq<real>, a: seq<nat>, j: nat): real
    requires |data| == |a| && Count(a, j) > 0
  {
    Sum(data, a, j) / Count(a, j) as real
  }

  /** The codebook after the loop over cells lo..hi: the mean of each non-empty cell
      replaces its codeword, the codeword of an empty cell stays. */
  function Moved(data: seq<real>, a: seq<nat>, c: seq<real>, lo: nat, hi: nat): (c': seq<real>)
    requires |data| == |a| && lo <= hi <= |c|
    ensures |c'| == |c|
    ensures forall j | 0 <= j < |c| && !(lo <= j < hi && Count(a, j) > 0) :: c'[j] == c[j]
    ensures forall j | lo <= j < hi && Count(a, j) > 0 :: c'[j] == Mean(data, a, j)
    decreases hi
  {
    if lo == hi then c
    else
      var m := Moved(data, a, c, lo, hi - 1);
      if Count(a, hi - 1) > 0 then m[hi - 1 := Mean(data, a, hi - 1)] else m
  }

  function Iteration(data: seq<real>, c: seq<real>, lo: nat, hi: nat): (c': seq<real>)
    requires c != [] && lo <= hi <= |c|
    ensures |c'| == |c|
  {
    Moved(data, Cells(data, c), c, lo, hi)
  }

  /** A shift by d of a codeword with cnt points. */
  function Weight(cnt: nat, d: real): (w: real)
    ensures w >= 0.0 && (cnt == 0 ==> w == 0.0)
  {
    assert d * d >= 0.0;
    cnt as real * Sq(d)
  }

  /** What the moves of cells lo..hi gain: points times squared shift, summed. */
  function Gain(a: seq<nat>, c: seq<real>, c': seq<real>, lo: nat, hi: nat): real
    requires lo <= hi <= |c| == |c'|
    decreases hi
  {
    if lo == hi then 0.0
    else Gain(a, c, c', lo, hi - 1) + Weight(Count(a, hi - 1), c'[hi - 1] - c[hi - 1])
  }

  /** By how much the cost of cnt points of sum `sum` changes when their codeword
      moves from c to v. */
  function Shift(cnt: real, sum: real, c: real, v: real): real {
    cnt * ((v - c) * (v + c)) - 2.0 * sum * (v - c)
  }

  lemma ShiftOnePoint(cnt: real, sum: real, x: real, c: real, v: real)
    ensures Shift(cnt, sum, c, v) + Sq(x - v) - Sq(x - c) == Shift(cnt + 1.0, sum + x, c, v)
  {
    var w, d := (v - c) * (v + c), v - c;
    assert (cnt + 1.0) * w == cnt * w + w;
    assert 2.0 * (sum + x) * d == 2.0 * sum * d + 2.0 * x * d;
    assert Sq(x - v) - Sq(x - c) == w - 2.0 * x * d;
  }

  /** Moving codeword j to v, the points staying in their cells. */
  lemma {:induction false} MoveOne(data: seq<real>, a: seq<nat>, c: seq<real>, j: nat, v: real)
    requires |data| == |a| && InCells(a, |c|) && j < |c|
    ensures Cost(data, a, c[j := v]) == Cost(data, a, c) + Shift(Count(a, j) as real, Sum(data, a, j), c[j], v)
  {
    if a == [] {
      assert Shift(0.0, 0.0, c[j], v) == 0.0;
    } else {
      hide Sq, Shift;
      var n := |a| - 1;
      MoveOne(data[..n], a[..n], c, j, v);
      if a[n] == j {
        ShiftOnePoint(Count(a[..n], j) as real, Sum(data[..n], a[..n], j), data[n], c[j], v);
      }
    }
  }

  /** Moving to the mean gains count times the squared shift. */
  lemma MeanGain(cnt: real, sum: real, c: real, v: real)
    requires cnt > 0.0 && v == sum / cnt
    ensures Shift(cnt, sum, c, v) == -(cnt * Sq(v - c))
  {
    var d := v - c;
    assert sum == cnt * v;
    assert 2.0 * (cnt * v) * d == cnt * (2.0 * v * d);
    assert cnt * (d * (v + c)) - cnt * (2.0 * v * d) == cnt * (d * (v + c) - 2.0 * v * d);
    assert d * (v + c) - 2.0 * v * d == -(d * d);
  }

  lemma MeanIs(data: seq<real>, a: seq<nat>, j: nat)
    requires |data| == |a| && Count(a, j) > 0
    ensures Mean(data, a, j) == Sum(data, a, j) / Count(a, j) as real
  {
  }

  /** One cell's move. */
  lemma MoveToMean(data: seq<real>, a: seq<nat>, c: seq<real>, j: nat)
    requires |data| == |a| && InCells(a, |c|) && j < |c| && Count(a, j) > 0
    ensures var v := Mean(data, a, j);
            Cost(data, a, c[j := v]) == Cost(data, a, c) - Weight(Count(a, j), v - c[j])
  {
    hide Shift, Cost, Mean;
    var v := Mean(data, a, j);
    assert v == Sum(data, a, j) / Count(a, j) as real by { MeanIs(data, a, j); }
    MoveOne(data, a, c, j, v);
    MeanGain(Count(a, j) as real, Sum(data, a, j), c[j], v);
  }

  lemma {:induction false} MoveCells(data: seq<real>, a: seq<nat>, c: seq<real>, lo: nat, hi: nat)
    requires |data| == |a| && InCells(a, |c|) && lo <= hi <= |c|
    ensures Cost(data, a, Moved(data, a, c, lo, hi))
            == Cost(data, a, c) - Gain(a, c, Moved(data, a, c, lo, hi), lo, hi)
    decreases hi
  {
    if lo < hi {
      hide Weight, Cost, Mean;
      var j := hi - 1;
      var m := Moved(data, a, c, lo, j);
      var m' := Moved(data, a, c, lo, hi);
      MoveCells(data, a, c, lo, j);
      GainLocal(a, c, m, m', lo, j);
      if Count(a, j) > 0 {
        MoveToMean(data, a, m, j);
      }
    }
  }

  lemma {:induction false} GainLocal(a: seq<nat>, c: seq<real>, m: seq<real>, m': seq<real>, lo: nat, hi: nat)
    requires lo <= hi <= |c| == |m| == |m'|
    requires forall j | lo <= j < hi :: m[j] == m'[j]
    ensures Gain(a, c, m, lo, hi) == Gain(a, c, m', lo, hi)
    decreases hi
  {
    if lo < hi { GainLocal(a, c, m, m', lo, hi - 1); }
  }

  lemma {:induction false} GainNonNegative(a: seq<nat>, c: seq<real>, c': seq<real>, lo: nat, hi: nat)
    requires lo <= hi <= |c| == |c'|
    ensures Gain(a, c, c', lo, hi) >= 0.0
    decreases hi
  {
    if lo < hi {
      GainNonNegative(a, c, c', lo, hi - 1);
    }
  }

  /** Lloyd descent: an iteration lowers the distortion by at least the sum, over
      the cells moved, of points times squared shift; so it never raises it, and
      leaves it only if no occupied codeword moved. */
  lemma IterationDescends(data: seq<real>, c: seq<real>, lo: nat, hi: nat)
    requires c != [] && lo <= hi <= |c|
    ensures var c' := Iteration(data, c, lo, hi);
            && Distortion(data, c') <= Distortion(data, c) - Gain(Cells(data, c), c, c', lo, hi)
            && Distortion(data, c') <= Distortion(data, c)
  {
    var a := Cells(data, c);
    var c' := Iteration(data, c, lo, hi);
    MoveCells(data, a, c, lo, hi);
    NearestCellsAreBest(data, a, c');
    GainNonNegative(a, c, c', lo, hi);
  }
}
