/** `lm_train_pinned`, whose endpoints stay at 0 and 1, and looking values up in the
    codebook it leaves. */
module PinnedCodebook {
  import opened Lloyd
  import opened LloydTraining
  import opened Reals

  /** The initial codebook: k points evenly spaced over [0, 1]. */
  function Grid(k: nat): (c: seq<real>)
    requires k >= 2
    ensures |c| == k
  {
    seq(k, i requires 0 <= i < k => GridAt(k, i))
  }

  function GridAt(k: nat, i: nat): real
    requires k >= 2
  {
    i as real / (k - 1) as real
  }

  /** The codebook after the given number of iterations at most. */
  function PinnedBook(data: seq<real>, k: nat, rounds: nat): (c: seq<real>)
    requires k >= 2
    ensures |c| == k
  {
    Train(data, Grid(k), 1, k - 1, rounds)
  }

  method LmTrainPinned(data: seq<real>, centroids: array<real>, rounds: nat)
    modifies centroids
    ensures data == [] || centroids.Length == 0 ==> centroids[..] == old(centroids[..])
    ensures data != [] && centroids.Length == 1 ==> centroids[..] == [0.5]
    ensures data != [] && centroids.Length >= 2 ==> centroids[..] == PinnedBook(data, centroids.Length, rounds)
  {
    var k := centroids.Length;
    if |data| == 0 || k == 0 {
      return;
    }
    if k == 1 {
      centroids[0] := 0.5;
      return;
    }
    centroids[0] := 0.0;
    centroids[k - 1] := 1.0;
    for i := 1 to k - 1
      invariant centroids[0] == 0.0 && centroids[k - 1] == 1.0
      invariant forall j | 0 < j < i :: centroids[j] == GridAt(k, j)
    {
      hide GridAt;
      centroids[i] := GridAt(k, i);
    }
    GridEnds(k);
    assert centroids[..] == Grid(k);
    Run(data, centroids, 1, k - 1, rounds);
  }

  // ----- Pinned and strictly rising, through every iteration

  ghost predicate Pinned(c: seq<real>) {
    && |c| >= 2 && c[0] == 0.0 && c[|c| - 1] == 1.0
    && forall i | 0 < i < |c| :: c[i - 1] < c[i]
  }

  predicate Above(lo: real, s: real, w: real) { lo * s < w }

  lemma StepAbove(lo: real, s: real, w: real, x: real)
    requires lo < x && (Above(lo, s, w) || (s == 0.0 && w == 0.0))
    ensures Above(lo, s + 1.0, w + x)
  {
    assert lo * (s + 1.0) == lo * s + lo;
  }

  lemma {:induction false} SumAbove(data: seq<real>, a: seq<nat>, j: nat, lo: real)
    requires |data| == |a|
    requires forall i | 0 <= i < |data| && a[i] == j :: lo < data[i]
    ensures if Count(a, j) == 0 then Sum(data, a, j) == 0.0 else Above(lo, Count(a, j) as real, Sum(data, a, j))
  {
    if a != [] {
      hide Above;
      var n := |a| - 1;
      SumAbove(data[..n], a[..n], j, lo);
      if a[n] == j {
        StepAbove(lo, Count(a[..n], j) as real, Sum(data[..n], a[..n], j), data[n]);
      }
    }
  }

  lemma QuotientAbove(lo: real, s: real, d: real)
    requires d > 0.0 && Above(lo, d, s)
    ensures lo < s / d
  {
    var q := s / d;
    assert s == q * d;
    SignOfProduct(q - lo, d);
  }

  /** A point falls in cell j only above the midpoint below c[j], and not beyond the
      midpoint above it: on a tie the lower index wins. */
  lemma CellBounds(x: real, c: seq<real>, j: nat)
    requires Pinned(c) && 0 < j < |c| - 1 && Near(x, c) == j
    ensures (c[j - 1] + c[j]) / 2.0 < x <= (c[j] + c[j + 1]) / 2.0
  {
    hide Near;
    assert c[j - 1] < c[j] < c[j + 1];
    assert Dist(x, c[j]) < Dist(x, c[j - 1]);
    assert Dist(x, c[j]) <= Dist(x, c[j + 1]);
  }

  lemma MeanBounds(data: seq<real>, c: seq<real>, j: nat)
    requires Pinned(c) && 0 < j < |c| - 1 && Count(Cells(data, c), j) > 0
    ensures (c[j - 1] + c[j]) / 2.0 < Mean(data, Cells(data, c), j) <= (c[j] + c[j + 1]) / 2.0
  {
    hide Near, Mean, Sum, Count, Between, Above;
    var a := Cells(data, c);
    var lo, hi := (c[j - 1] + c[j]) / 2.0, (c[j] + c[j + 1]) / 2.0;
    forall i | 0 <= i < |data| && a[i] == j
      ensures lo < data[i] <= hi
    {
      CellBounds(data[i], c, j);
    }
    MeanBetween(data, a, j, lo, hi);
    SumAbove(data, a, j, lo);
    QuotientAbove(lo, Sum(data, a, j), Count(a, j) as real);
    MeanIs(data, a, j);
  }

  /** Whatever the data, an iteration keeps the ends at 0 and 1 and the codewords
      strictly increasing. */
  lemma IterationKeepsPinned(data: seq<real>, c: seq<real>)
    requires Pinned(c)
    ensures Pinned(Iteration(data, c, 1, |c| - 1))
  {
    hide Mean, Moved, Count, Near;
    var c' := Iteration(data, c, 1, |c| - 1);
    forall j | 0 < j < |c| - 1
      ensures (c[j - 1] + c[j]) / 2.0 < c'[j] <= (c[j] + c[j + 1]) / 2.0
    {
      assert c[j - 1] < c[j] < c[j + 1];
      if Count(Cells(data, c), j) > 0 {
        MeanBounds(data, c, j);
      }
    }
    forall i | 0 < i < |c|
      ensures c'[i - 1] < c'[i]
    {
      assert c[i - 1] < c[i];
    }
  }

  lemma GridEnds(k: nat)
    requires k >= 2
    ensures GridAt(k, 0) == 0.0 && GridAt(k, k - 1) == 1.0
  {
    var d := (k - 1) as real;
    assert d / d == 1.0;
  }

  lemma GridIsPinned(k: nat)
    requires k >= 2
    ensures Pinned(Grid(k))
  {
    var c, d := Grid(k), (k - 1) as real;
    forall i | 0 < i < k
      ensures c[i - 1] < c[i]
    {
      QuotientStep((i - 1) as real, d);
    }
    GridEnds(k);
  }

  /** The grid is even: k - 1 equal steps from 0 to 1. */
  lemma GridIsEven(k: nat, i: nat)
    requires k >= 2 && i < k
    ensures Grid(k)[0] == 0.0 && Grid(k)[k - 1] == 1.0
    ensures i > 0 ==> (k - 1) as real * (Grid(k)[i] - Grid(k)[i - 1]) == 1.0
  {
    GridEnds(k);
    if i > 0 {
      EvenStep((i - 1) as real, (k - 1) as real);
    }
  }

  lemma EvenStep(x: real, d: real)
    requires d > 0.0
    ensures d * ((x + 1.0) / d - x / d) == 1.0
  {
    assert (x + 1.0) / d - x / d == 1.0 / d;
  }

  lemma QuotientStep(x: real, d: real)
    requires d > 0.0
    ensures x / d < (x + 1.0) / d
  {
    assert (x + 1.0) / d - x / d == 1.0 / d;
  }

  lemma {:induction false} TrainKeepsPinned(data: seq<real>, c: seq<real>, n: nat)
    requires Pinned(c)
    ensures Pinned(Train(data, c, 1, |c| - 1, n))
    decreases n
  {
    hide Iteration, Converged;
    if n > 0 {
      IterationKeepsPinned(data, c);
      TrainKeepsPinned(data, Iteration(data, c, 1, |c| - 1), n - 1);
    }
  }

  /** `lm_train_pinned` on any data: after any number of iterations the codebook is
      pinned, strictly increasing and no worse than the even grid. */
  lemma PinnedTraining(data: seq<real>, k: nat, rounds: nat)
    requires k >= 2
    ensures Pinned(PinnedBook(data, k, rounds))
    ensures Distortion(data, PinnedBook(data, k, rounds)) <= Distortion(data, Grid(k))
  {
    GridIsPinned(k);
    TrainKeepsPinned(data, Grid(k), rounds);
    TrainingDescends(data, Grid(k), 1, k - 1, rounds);
  }

  // ----- Looking values up in a pinned codebook

  /** The largest distance between neighbouring codewords. */
  function Widest(c: seq<real>): (g: real)
    requires |c| >= 2
    ensures forall i | 0 < i < |c| :: c[i] - c[i - 1] <= g
    ensures exists i :: 0 < i < |c| && c[i] - c[i - 1] == g
  {
    var n := |c| - 1;
    var last := c[n] - c[n - 1];
    if n == 1 then last
    else
      var g := Widest(c[..n]);
      assert exists i :: 0 < i < n && c[..n][i] - c[..n][i - 1] == g;
      if last > g then last else g
  }

  lemma {:induction false} Neighbours(x: real, c: seq<real>)
    requires |c| >= 2 && c[0] <= x <= c[|c| - 1]
    ensures exists i :: 0 < i < |c| && c[i - 1] <= x <= c[i]
  {
    var n := |c| - 1;
    if c[n - 1] <= x {
      assert c[n - 1] <= x <= c[n];
    } else {
      Neighbours(x, c[..n]);
      var i :| 0 < i < n && c[..n][i - 1] <= x <= c[..n][i];
      assert c[i - 1] <= x <= c[i];
    }
  }

  lemma NearerThanBoth(x: real, q: real, a: real, b: real)
    requires a <= x <= b && Dist(x, q) <= Dist(x, a) && Dist(x, q) <= Dist(x, b)
    ensures 2.0 * Dist(x, q) <= b - a
  {
  }

  /** Inside [0, 1] the nearest codeword is within half the widest gap. */
  lemma LookupError(x: real, c: seq<real>)
    requires Pinned(c) && 0.0 <= x <= 1.0
    ensures 2.0 * Dist(x, c[Near(x, c)]) <= Widest(c)
  {
    hide Near, Widest, Dist;
    Neighbours(x, c);
    var i :| 0 < i < |c| && c[i - 1] <= x <= c[i];
    NearerThanBoth(x, c[Near(x, c)], c[i - 1], c[i]);
  }

  /** A value that is a codeword is looked up exactly. */
  lemma LookupExact(x: real, c: seq<real>, j: nat)
    requires c != [] && j < |c| && c[j] == x
    ensures c[Near(x, c)] == x
  {
    hide Near;
    assert Dist(x, c[Near(x, c)]) <= Dist(x, c[j]);
  }
}
