/** The training loops themselves, and what they guarantee of whole runs. */
module LloydTraining {
  import opened Lloyd
  import opened Reals

  lemma DistNonNegative(x: real, c: real)
    ensures Dist(x, c) >= 0.0
  {
  }

  // ----- The loop body shared by `lm_train` and `lm_train_pinned`

  /** No codeword of lo..hi moved by more than 1e-8. */
  predicate Converged(c: seq<real>, c': seq<real>, lo: nat, hi: nat)
    requires lo <= hi <= |c| == |c'|
  {
    forall j | lo <= j < hi :: Dist(c'[j], c[j]) <= 0.00000001
  }

  /** Counts and sums of the cells, by one pass over the data. */
  method Tally(data: seq<real>, centroids: array<real>, cnts: array<nat>, sums: array<real>)
    requires centroids.Length > 0 && cnts.Length == sums.Length == centroids.Length
    requires sums != centroids
    modifies cnts, sums
    ensures forall j | 0 <= j < cnts.Length ::
              && cnts[j] == Count(Cells(data, centroids[..]), j)
              && sums[j] == Sum(data, Cells(data, centroids[..]), j)
  {
    hide Near, Dist, Sq;
    ghost var a := Cells(data, centroids[..]);
    for j := 0 to cnts.Length
      invariant forall i | 0 <= i < j :: cnts[i] == 0 && sums[i] == 0.0
    {
      cnts[j], sums[j] := 0, 0.0;
    }
    for i := 0 to |data|
      invariant a == Cells(data, centroids[..])
      invariant forall j | 0 <= j < cnts.Length ::
                  cnts[j] == Count(a[..i], j) && sums[j] == Sum(data[..i], a[..i], j)
    {
      var best := FindNear(data[i], centroids);
      assert a[..i + 1][..i] == a[..i] && data[..i + 1][..i] == data[..i];
      cnts[best] := cnts[best] + 1;
      sums[best] := sums[best] + data[i];
    }
    assert a[..|data|] == a && data[..|data|] == data;
  }

  method Iterate(data: seq<real>, centroids: array<real>, cnts: array<nat>, sums: array<real>, lo: nat, hi: nat)
    returns (conv: bool)
    requires centroids.Length > 0 && cnts.Length == sums.Length == centroids.Length
    requires sums != centroids && lo <= hi <= centroids.Length
    modifies centroids, cnts, sums
    ensures centroids[..] == Iteration(data, old(centroids[..]), lo, hi)
    ensures conv <==> Converged(old(centroids[..]), centroids[..], lo, hi)
  {
    ghost var c := centroids[..];
    ghost var a := Cells(data, c);
    Tally(data, centroids, cnts, sums);
    conv := true;
    for i := lo to hi
      invariant centroids[..] == Moved(data, a, c, lo, i)
      invariant conv <==> Converged(c, centroids[..], lo, i)
      invariant forall j | 0 <= j < cnts.Length :: cnts[j] == Count(a, j) && sums[j] == Sum(data, a, j)
    {
      if cnts[i] > 0 {
        var nc := sums[i] / cnts[i] as real;
        if Dist(nc, centroids[i]) > 0.00000001 {
          conv := false;
        }
        ghost var before := centroids[..];
        centroids[i] := nc;
        assert centroids[..] == before[i := nc];
      }
    }
  }

  /** At most n iterations, stopping early once converged. */
  function Train(data: seq<real>, c: seq<real>, lo: nat, hi: nat, n: nat): (c': seq<real>)
    requires c != [] && lo <= hi <= |c|
    ensures |c'| == |c|
    decreases n
  {
    if n == 0 then c
    else
      var next := Iteration(data, c, lo, hi);
      if Converged(c, next, lo, hi) then next else Train(data, next, lo, hi, n - 1)
  }

  method Run(data: seq<real>, centroids: array<real>, lo: nat, hi: nat, n: nat)
    requires centroids.Length > 0 && lo <= hi <= centroids.Length
    modifies centroids
    ensures centroids[..] == Train(data, old(centroids[..]), lo, hi, n)
  {
    hide Iteration, Converged;
    var cnts := new nat[centroids.Length];
    var sums := new real[centroids.Length];
    for iter := 0 to n
      invariant Train(data, centroids[..], lo, hi, n - iter) == Train(data, old(centroids[..]), lo, hi, n)
    {
      ghost var c := centroids[..];
      var conv := Iterate(data, centroids, cnts, sums, lo, hi);
      assert Train(data, c, lo, hi, n - iter)
          == if conv then centroids[..] else Train(data, centroids[..], lo, hi, n - iter - 1);
      if conv {
        return;
      }
    }
  }

  /** Training never raises the distortion, however many iterations run. */
  lemma {:induction false} TrainingDescends(data: seq<real>, c: seq<real>, lo: nat, hi: nat, n: nat)
    requires c != [] && lo <= hi <= |c|
    ensures Distortion(data, Train(data, c, lo, hi, n)) <= Distortion(data, c)
    decreases n
  {
    hide Distortion, Iteration, Converged;
    if n > 0 {
      IterationDescends(data, c, lo, hi);
      TrainingDescends(data, Iteration(data, c, lo, hi), lo, hi, n - 1);
    }
  }

  // ----- `lm_train`

  function DistSum(data: seq<real>, pos: real): real {
    if data == [] then 0.0 else DistSum(data[..|data| - 1], pos) + Dist(data[|data| - 1], pos)
  }

  function WeightedSum(data: seq<real>, pos: real): real {
    if data == [] then 0.0
    else WeightedSum(data[..|data| - 1], pos) + Times(data[|data| - 1], Dist(data[|data| - 1], pos))
  }

  function WeightedMean(data: seq<real>, pos: real): real {
    if DistSum(data, pos) > 0.0000000001 then WeightedSum(data, pos) / DistSum(data, pos) else pos
  }

  /** The middle of the i-th of k slices of the range. */
  function SlicePos(mn: real, mx: real, k: nat, i: nat): real
    requires i < k
  {
    mn + (mx - mn) * (i as real + 0.5) / k as real
  }

  /** The initial codeword i: the middle of the range, or a mean weighted by the
      distance from the middle of the i-th of k slices. */
  function SeedAt(data: seq<real>, k: nat, i: nat): real
    requires data != [] && i < k
  {
    var mn, mx := Least(data), Greatest(data);
    if i == 0 then mn + (mx - mn) * 0.5
    else
      WeightedMean(data, SlicePos(mn, mx, k, i))
  }

  function Seed(data: seq<real>, k: nat): (c: seq<real>)
    requires data != []
    ensures |c| == k
  {
    seq(k, i requires 0 <= i < k => SeedAt(data, k, i))
  }

  /** The codebook after the given number of iterations at most. */
  function Codebook(data: seq<real>, k: nat, rounds: nat): (c: seq<real>)
    requires data != [] && k > 0
    ensures |c| == k
  {
    if Least(data) == Greatest(data) then seq(k, _ => Least(data))
    else Train(data, Seed(data, k), 0, k, rounds)
  }

  method ComputeWeightedMean(data: seq<real>, pos: real) returns (m: real)
    ensures m == WeightedMean(data, pos)
  {
    var sum, wsum := 0.0, 0.0;
    for j := 0 to |data|
      invariant sum == DistSum(data[..j], pos) && wsum == WeightedSum(data[..j], pos)
    {
      assert data[..j + 1][..j] == data[..j];
      var d := Dist(data[j], pos);
      sum := sum + d;
      wsum := wsum + data[j] * d;
    }
    assert data[..|data|] == data;
    m := if sum > 0.0000000001 then wsum / sum else pos;
  }

  method LmTrain(data: seq<real>, centroids: array<real>, rounds: nat)
    modifies centroids
    ensures data == [] || centroids.Length == 0 ==> centroids[..] == old(centroids[..])
    ensures data != [] && centroids.Length > 0 ==> centroids[..] == Codebook(data, centroids.Length, rounds)
  {
    var k := centroids.Length;
    if |data| == 0 || k == 0 {
      return;
    }
    var mn, mx := MinMax(data);
    if mn == mx {
      for i := 0 to k
        invariant forall j | 0 <= j < i :: centroids[j] == mn
      {
        centroids[i] := mn;
      }
      assert centroids[..] == seq(k, _ => mn);
      return;
    }
    centroids[0] := mn + (mx - mn) * 0.5;
    for i := 1 to k
      invariant forall j | 0 <= j < i :: centroids[j] == SeedAt(data, k, j)
    {
      hide WeightedMean, SlicePos;
      centroids[i] := ComputeWeightedMean(data, SlicePos(mn, mx, k, i));
    }
    assert centroids[..] == Seed(data, k);
    Run(data, centroids, 0, k, rounds);
  }

  lemma {:induction false} WeightedSumBetween(data: seq<real>, pos: real, lo: real, hi: real)
    requires Within(data, lo, hi)
    ensures Between(lo, hi, DistSum(data, pos), WeightedSum(data, pos))
  {
    if data == [] {
    } else {
      hide Between, Dist, Times;
      var n := |data| - 1;
      DistNonNegative(data[n], pos);
      WeightedSumBetween(data[..n], pos, lo, hi);
      StepBetween(lo, hi, DistSum(data[..n], pos), WeightedSum(data[..n], pos), data[n], Dist(data[n], pos));
    }
  }

  lemma {:induction false} SumBetween(data: seq<real>, a: seq<nat>, j: nat, lo: real, hi: real)
    requires |data| == |a|
    requires forall i | 0 <= i < |data| && a[i] == j :: lo <= data[i] <= hi
    ensures Between(lo, hi, Count(a, j) as real, Sum(data, a, j))
  {
    if a == [] {
    } else {
      hide Between;
      var n := |a| - 1;
      SumBetween(data[..n], a[..n], j, lo, hi);
      if a[n] == j {
        StepBetween(lo, hi, Count(a[..n], j) as real, Sum(data[..n], a[..n], j), data[n], 1.0);
      }
    }
  }

  lemma SlicePosBetween(mn: real, mx: real, k: nat, i: nat)
    requires i < k && mn <= mx
    ensures mn <= SlicePos(mn, mx, k, i) <= mx
  {
    var t := i as real + 0.5;
    ProductBetween(0.0, t, k as real, mx - mn);
    assert t * (mx - mn) == (mx - mn) * t;
    QuotientBetween(0.0, mx - mn, (mx - mn) * t, k as real);
  }

  lemma WeightedMeanBetween(data: seq<real>, pos: real, lo: real, hi: real)
    requires Within(data, lo, hi) && lo <= pos <= hi
    ensures lo <= WeightedMean(data, pos) <= hi
  {
    if DistSum(data, pos) > 0.0000000001 {
      WeightedSumBetween(data, pos, lo, hi);
      QuotientBetween(lo, hi, WeightedSum(data, pos), DistSum(data, pos));
    }
  }

  lemma SeedWithin(data: seq<real>, k: nat)
    requires data != []
    ensures Within(Seed(data, k), Least(data), Greatest(data))
  {
    var mn, mx := Least(data), Greatest(data);
    forall i | 0 <= i < k
      ensures mn <= SeedAt(data, k, i) <= mx
    {
      hide WeightedMean, SlicePos;
      if i > 0 {
        SlicePosBetween(mn, mx, k, i);
        WeightedMeanBetween(data, SlicePos(mn, mx, k, i), mn, mx);
      }
    }
  }

  lemma MeanBetween(data: seq<real>, a: seq<nat>, j: nat, lo: real, hi: real)
    requires |data| == |a| && Count(a, j) > 0
    requires forall i | 0 <= i < |data| && a[i] == j :: lo <= data[i] <= hi
    ensures lo <= Mean(data, a, j) <= hi
  {
    hide Sum;
    SumBetween(data, a, j, lo, hi);
    QuotientBetween(lo, hi, Sum(data, a, j), Count(a, j) as real);
  }

  lemma IterationWithin(data: seq<real>, c: seq<real>, lo: nat, hi: nat, mn: real, mx: real)
    requires c != [] && lo <= hi <= |c| && Within(c, mn, mx)
    requires Within(data, mn, mx)
    ensures Within(Iteration(data, c, lo, hi), mn, mx)
  {
    hide Mean, Moved;
    var a := Cells(data, c);
    forall j | lo <= j < hi && Count(a, j) > 0
      ensures mn <= Mean(data, a, j) <= mx
    {
      MeanBetween(data, a, j, mn, mx);
    }
  }

  lemma {:induction false} TrainWithin(data: seq<real>, c: seq<real>, lo: nat, hi: nat, n: nat, mn: real, mx: real)
    requires c != [] && lo <= hi <= |c| && Within(c, mn, mx)
    requires Within(data, mn, mx)
    ensures Within(Train(data, c, lo, hi, n), mn, mx)
    decreases n
  {
    hide Iteration, Converged;
    if n > 0 {
      IterationWithin(data, c, lo, hi, mn, mx);
      TrainWithin(data, Iteration(data, c, lo, hi), lo, hi, n - 1, mn, mx);
    }
  }

  lemma {:induction false} ConstantCost(data: seq<real>, a: seq<nat>, c: seq<real>, m: real)
    requires |data| == |a| && InCells(a, |c|)
    requires Within(data, m, m) && Within(c, m, m)
    ensures Cost(data, a, c) == 0.0
  {
    if a != [] { ConstantCost(data[..|a| - 1], a[..|a| - 1], c, m); }
  }

  /** `lm_train` on any data: the codebook stays in the data's range and is never
      worse than the one it started from; on constant data it is exact. */
  lemma LmTrainImproves(data: seq<real>, k: nat, rounds: nat)
    requires data != [] && k > 0
    ensures Within(Codebook(data, k, rounds), Least(data), Greatest(data))
    ensures Distortion(data, Codebook(data, k, rounds)) <= Distortion(data, Seed(data, k))
    ensures Least(data) == Greatest(data) ==> Distortion(data, Codebook(data, k, rounds)) == 0.0
  {
    hide Cost, Near, Seed, Train;
    var mn, mx := Least(data), Greatest(data);
    SeedWithin(data, k);
    if mn == mx {
      var c := Codebook(data, k, rounds);
      ConstantCost(data, Cells(data, c), c, mn);
      DistortionNonNegative(data, Cells(data, Seed(data, k)), Seed(data, k));
    } else {
      TrainWithin(data, Seed(data, k), 0, k, rounds, mn, mx);
      TrainingDescends(data, Seed(data, k), 0, k, rounds);
    }
  }

  lemma {:induction false} DistortionNonNegative(data: seq<real>, a: seq<nat>, c: seq<real>)
    requires |data| == |a| && InCells(a, |c|)
    ensures Cost(data, a, c) >= 0.0
  {
    if a != [] {
      DistortionNonNegative(data[..|a| - 1], a[..|a| - 1], c);
    }
  }
}
