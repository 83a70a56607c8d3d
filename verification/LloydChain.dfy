/** What the training loops do from the first round to the last: the codebook they leave is the
    end of a chain of Lloyd rounds from the codebook they start with. */
module LloydChain {
  import opened Lloyd
  import opened LloydTraining
  import opened PinnedCodebook
  import opened Reals

  /** From c to c': every codeword of lo..hi whose cell has points is replaced by their mean,
      the others stay. */
  ghost predicate IsRound(data: seq<real>, c: seq<real>, c': seq<real>, lo: nat, hi: nat) {
    && c != [] && lo <= hi <= |c| == |c'|
    && forall j | 0 <= j < |c| ::
         var a := Cells(data, c);
         c'[j] == if lo <= j < hi && Count(a, j) > 0 then Mean(data, a, j) else c[j]
  }

  /** No codeword moved by more than eps. */
  predicate Rests(c: seq<real>, c': seq<real>, eps: real)
    requires |c| == |c'|
  {
    forall j | 0 <= j < |c| :: -eps <= c'[j] - c[j] <= eps
  }

  /** Rounds from `c` on: as many as allowed, or up to and including the first in which no
      codeword moved by more than eps. */
  ghost predicate IsTraining(chain: seq<seq<real>>, data: seq<real>, c: seq<real>, lo: nat, hi: nat,
                             rounds: nat, eps: real) {
    && 0 < |chain| <= rounds + 1 && chain[0] == c
    && (forall i | 0 < i < |chain| :: IsRound(data, chain[i - 1], chain[i], lo, hi))
    && (forall i | 0 < i < |chain| - 1 :: |chain[i - 1]| == |chain[i]| && !Rests(chain[i - 1], chain[i], eps))
    && (|chain| <= rounds ==>
          var n := |chain| - 1;
          n > 0 && |chain[n - 1]| == |chain[n]| && Rests(chain[n - 1], chain[n], eps))
  }

  lemma IterationIsRound(data: seq<real>, c: seq<real>, lo: nat, hi: nat)
    requires c != [] && lo <= hi <= |c|
    ensures IsRound(data, c, Iteration(data, c, lo, hi), lo, hi)
    ensures Converged(c, Iteration(data, c, lo, hi), lo, hi) <==> Rests(c, Iteration(data, c, lo, hi), 0.00000001)
  {
    hide Mean, Count, Cells;
    var c' := Iteration(data, c, lo, hi);
    forall j | lo <= j < hi
      ensures Dist(c'[j], c[j]) <= 0.00000001 <==> -0.00000001 <= c'[j] - c[j] <= 0.00000001
    {
    }
    forall j | 0 <= j < |c| && !(lo <= j < hi)
      ensures c'[j] - c[j] == 0.0
    {
    }
  }

  lemma {:induction false} TrainIsChain(data: seq<real>, c: seq<real>, lo: nat, hi: nat, rounds: nat)
    returns (chain: seq<seq<real>>)
    requires c != [] && lo <= hi <= |c|
    ensures IsTraining(chain, data, c, lo, hi, rounds, 0.00000001)
    ensures chain[|chain| - 1] == Train(data, c, lo, hi, rounds)
    decreases rounds
  {
    hide Iteration, Converged, IsRound, Rests;
    if rounds == 0 {
      chain := [c];
    } else {
      var next := Iteration(data, c, lo, hi);
      IterationIsRound(data, c, lo, hi);
      if Converged(c, next, lo, hi) {
        chain := [c, next];
      } else {
        var rest := TrainIsChain(data, next, lo, hi, rounds - 1);
        chain := [c] + rest;
        assert chain[1] == rest[0] == next;
        assert forall i | 0 < i < |chain| :: chain[i] == rest[i - 1];
      }
    }
  }

  // ----- What a chain gains

  lemma RoundIsIteration(data: seq<real>, c: seq<real>, c': seq<real>, lo: nat, hi: nat)
    requires IsRound(data, c, c', lo, hi)
    ensures c' == Iteration(data, c, lo, hi)
  {
    hide Mean, Count, Cells;
    var it := Iteration(data, c, lo, hi);
    forall j | 0 <= j < |c|
      ensures c'[j] == it[j]
    {
    }
  }

  lemma {:induction false} ChainDescends(data: seq<real>, chain: seq<seq<real>>, lo: nat, hi: nat)
    requires chain != [] && chain[0] != [] && lo <= hi <= |chain[0]|
    requires forall i | 0 < i < |chain| :: IsRound(data, chain[i - 1], chain[i], lo, hi)
    ensures chain[|chain| - 1] != []
    ensures Distortion(data, chain[|chain| - 1]) <= Distortion(data, chain[0])
  {
    hide Distortion, IsRound, Iteration;
    if |chain| > 1 {
      RoundIsIteration(data, chain[0], chain[1], lo, hi);
      IterationDescends(data, chain[0], lo, hi);
      var rest := chain[1..];
      assert forall i | 0 < i < |rest| :: rest[i - 1] == chain[i] && rest[i] == chain[i + 1];
      ChainDescends(data, rest, lo, hi);
    }
  }

  lemma {:induction false} GainOfOne(a: seq<nat>, c: seq<real>, c': seq<real>, lo: nat, hi: nat, j: nat)
    requires lo <= j < hi <= |c| == |c'|
    ensures Gain(a, c, c', lo, hi) >= Weight(Count(a, j), c'[j] - c[j])
    decreases hi
  {
    hide Weight, Count;
    if j == hi - 1 {
      GainNonNegative(a, c, c', lo, hi - 1);
    } else {
      GainOfOne(a, c, c', lo, hi - 1, j);
    }
  }

  lemma ProductPositive(x: real, y: real, p: real)
    requires x > 0.0 && y > 0.0 && p == x * y
    ensures p > 0.0
  {
    SignOfProduct(x, y);
  }

  lemma SquarePositive(d: real)
    requires d != 0.0
    ensures Sq(d) > 0.0
  {
    if d > 0.0 {
      ProductPositive(d, d, Sq(d));
    } else {
      ProductPositive(-d, -d, Sq(d));
    }
  }

  lemma WeightPositive(n: nat, d: real)
    requires n > 0 && d != 0.0
    ensures Weight(n, d) > 0.0
  {
    SquarePositive(d);
    hide Sq;
    ProductPositive(n as real, Sq(d), Weight(n, d));
  }

  /** A codeword of lo..hi with points in its cell that is not their mean. */
  ghost predicate OffMean(data: seq<real>, c: seq<real>, lo: nat, hi: nat)
    requires c != []
  {
    exists j :: lo <= j < hi && j < |c| && Count(Cells(data, c), j) > 0 && Mean(data, Cells(data, c), j) != c[j]
  }

  /** One round or more gains what the first round moves: points times squared shift, summed over
      the cells trained; and something, if any codeword was off its cell's mean. */
  lemma TrainingGains(data: seq<real>, chain: seq<seq<real>>, c: seq<real>, lo: nat, hi: nat, rounds: nat, eps: real)
    requires c != [] && IsTraining(chain, data, c, lo, hi, rounds, eps) && rounds >= 1
    ensures |chain| >= 2 && |chain[1]| == |c| && lo <= hi <= |c| && chain[|chain| - 1] != []
    ensures Distortion(data, chain[|chain| - 1])
         <= Distortion(data, c) - Gain(Cells(data, c), c, chain[1], lo, hi)
    ensures OffMean(data, c, lo, hi) ==> Distortion(data, chain[|chain| - 1]) < Distortion(data, c)
  {
    assert IsRound(data, chain[0], chain[1], lo, hi);
    var rest := chain[1..];
    assert forall i | 0 < i < |rest| :: rest[i - 1] == chain[i] && rest[i] == chain[i + 1];
    hide Distortion, Gain, Iteration, OffMean, IsRound, Rests;
    RoundIsIteration(data, c, chain[1], lo, hi);
    IterationDescends(data, c, lo, hi);
    ChainDescends(data, rest, lo, hi);
    if OffMean(data, c, lo, hi) {
      OffMeanGains(data, c, chain[1], lo, hi);
    }
  }

  lemma OffMeanGains(data: seq<real>, c: seq<real>, c': seq<real>, lo: nat, hi: nat)
    requires c != [] && OffMean(data, c, lo, hi) && IsRound(data, c, c', lo, hi)
    ensures Gain(Cells(data, c), c, c', lo, hi) > 0.0
  {
    hide Gain, Weight, Mean, Count, Cells;
    var j :| lo <= j < hi && j < |c| && Count(Cells(data, c), j) > 0 && Mean(data, Cells(data, c), j) != c[j];
    GainOfOne(Cells(data, c), c, c', lo, hi, j);
    WeightPositive(Count(Cells(data, c), j), c'[j] - c[j]);
  }

  /** There is only one such chain. */
  lemma TrainingIsUnique(a: seq<seq<real>>, b: seq<seq<real>>, data: seq<real>, c: seq<real>,
                         lo: nat, hi: nat, rounds: nat, eps: real)
    requires IsTraining(a, data, c, lo, hi, rounds, eps) && IsTraining(b, data, c, lo, hi, rounds, eps)
    ensures a == b
  {
    SameLinks(a, b, data, lo, hi, if |a| < |b| then |a| else |b|);
    if |a| <= |b| {
      BeginningIsAll(a, b, data, c, lo, hi, rounds, eps);
    } else {
      BeginningIsAll(b, a, data, c, lo, hi, rounds, eps);
    }
  }

  lemma {:induction false} SameLinks(a: seq<seq<real>>, b: seq<seq<real>>, data: seq<real>, lo: nat, hi: nat, n: nat)
    requires 0 < n <= |a| && n <= |b| && a[0] == b[0]
    requires forall i | 0 < i < |a| :: IsRound(data, a[i - 1], a[i], lo, hi)
    requires forall i | 0 < i < |b| :: IsRound(data, b[i - 1], b[i], lo, hi)
    ensures a[..n] == b[..n]
  {
    hide IsRound, Iteration;
    if n == 1 {
      assert a[..1] == [a[0]] && b[..1] == [b[0]];
    } else {
      SameLinks(a, b, data, lo, hi, n - 1);
      assert a[n - 2] == a[..n - 1][n - 2] == b[..n - 1][n - 2] == b[n - 2];
      RoundIsIteration(data, a[n - 2], a[n - 1], lo, hi);
      RoundIsIteration(data, b[n - 2], b[n - 1], lo, hi);
      assert a[..n] == a[..n - 1] + [a[n - 1]] && b[..n] == b[..n - 1] + [b[n - 1]];
    }
  }

  /** A chain that is a beginning of another is all of it: the other would have rested there. */
  lemma BeginningIsAll(a: seq<seq<real>>, b: seq<seq<real>>, data: seq<real>, c: seq<real>,
                       lo: nat, hi: nat, rounds: nat, eps: real)
    requires IsTraining(a, data, c, lo, hi, rounds, eps) && IsTraining(b, data, c, lo, hi, rounds, eps)
    requires |a| <= |b| && a == b[..|a|]
    ensures a == b
  {
    hide IsRound, Rests;
    if |a| < |b| {
      assert false;
    }
  }

  /** `c'` is the last codebook of a training from `c`. */
  ghost predicate EndsTraining(c': seq<real>, data: seq<real>, c: seq<real>, lo: nat, hi: nat, rounds: nat, eps: real) {
    exists chain :: IsTraining(chain, data, c, lo, hi, rounds, eps) && chain[|chain| - 1] == c'
  }

  /** The distortion has fallen by what a first round from `c` moves: points times squared shift. */
  ghost predicate GainsFirstRound(c': seq<real>, data: seq<real>, c: seq<real>, lo: nat, hi: nat)
    requires c != [] && c' != []
  {
    exists first :: IsRound(data, c, first, lo, hi)
      && Distortion(data, c') <= Distortion(data, c) - Gain(Cells(data, c), c, first, lo, hi)
  }

  /** What a chain says of its last codebook. */
  lemma ChainConcludes(chain: seq<seq<real>>, data: seq<real>, c: seq<real>, lo: nat, hi: nat,
                       rounds: nat, eps: real, c': seq<real>)
    requires c != [] && IsTraining(chain, data, c, lo, hi, rounds, eps) && c' == chain[|chain| - 1] != []
    ensures EndsTraining(c', data, c, lo, hi, rounds, eps)
    ensures rounds >= 1 ==> GainsFirstRound(c', data, c, lo, hi)
    ensures rounds >= 1 && OffMean(data, c, lo, hi) ==> Distortion(data, c') < Distortion(data, c)
  {
    hide Distortion, Gain, OffMean, Cells, Rests;
    if rounds >= 1 {
      TrainingGains(data, chain, c, lo, hi, rounds, eps);
      assert IsRound(data, chain[0], chain[1], lo, hi);
    }
  }

  lemma TrainEndsTraining(data: seq<real>, c: seq<real>, lo: nat, hi: nat, rounds: nat)
    requires c != [] && lo <= hi <= |c|
    ensures var c' := Train(data, c, lo, hi, rounds);
            && EndsTraining(c', data, c, lo, hi, rounds, 0.00000001)
            && (rounds >= 1 ==> GainsFirstRound(c', data, c, lo, hi))
            && (rounds >= 1 && OffMean(data, c, lo, hi) ==> Distortion(data, c') < Distortion(data, c))
  {
    hide Train, Distortion, OffMean, IsTraining, EndsTraining, GainsFirstRound;
    var chain := TrainIsChain(data, c, lo, hi, rounds);
    ChainConcludes(chain, data, c, lo, hi, rounds, 0.00000001, Train(data, c, lo, hi, rounds));
  }

  /** `lm_train`: on data that is not constant the codebook ends a training over all cells from the
      seed; one round or more lowers the distortion by what the first round moves, and strictly
      if a codeword with points was not their mean. */
  lemma LmTrainEndsTraining(data: seq<real>, k: nat, rounds: nat)
    requires data != [] && k > 0 && Least(data) != Greatest(data)
    ensures var c, seed := Codebook(data, k, rounds), Seed(data, k);
            && EndsTraining(c, data, seed, 0, k, rounds, 0.00000001)
            && (rounds >= 1 ==> GainsFirstRound(c, data, seed, 0, k))
            && (rounds >= 1 && OffMean(data, seed, 0, k) ==> Distortion(data, c) < Distortion(data, seed))
  {
    hide Seed, Train, EndsTraining, GainsFirstRound, OffMean, Distortion;
    TrainEndsTraining(data, Seed(data, k), 0, k, rounds);
  }

  /** `lm_train_pinned`: the same from the even grid, over all cells but the first and the last. */
  lemma LmTrainPinnedEndsTraining(data: seq<real>, k: nat, rounds: nat)
    requires k >= 2
    ensures var c, grid := PinnedBook(data, k, rounds), Grid(k);
            && EndsTraining(c, data, grid, 1, k - 1, rounds, 0.00000001)
            && (rounds >= 1 ==> GainsFirstRound(c, data, grid, 1, k - 1))
            && (rounds >= 1 && OffMean(data, grid, 1, k - 1) ==> Distortion(data, c) < Distortion(data, grid))
  {
    hide Grid, Train, EndsTraining, GainsFirstRound, OffMean, Distortion;
    TrainEndsTraining(data, Grid(k), 1, k - 1, rounds);
  }

  // ----- Where the chains start

  /** The deviations of the data from m, each weighted by its distance from pos. */
  function Moment(data: seq<real>, pos: real, m: real): real {
    if data == [] then 0.0
    else Moment(data[..|data| - 1], pos, m) + (data[|data| - 1] - m) * Dist(data[|data| - 1], pos)
  }

  lemma {:induction false} MomentIs(data: seq<real>, pos: real, m: real)
    ensures Moment(data, pos, m) == WeightedSum(data, pos) - Times(m, DistSum(data, pos))
  {
    if data != [] {
      hide Dist;
      var n := |data| - 1;
      MomentIs(data[..n], pos, m);
      var x, d := data[n], Dist(data[n], pos);
      assert (x - m) * d == x * d - m * d;
      assert m * (DistSum(data[..n], pos) + d) == m * DistSum(data[..n], pos) + m * d;
    }
  }

  /** The total weight, without naming it: the moment falls by it when m grows by one. */
  lemma MomentFalls(data: seq<real>, pos: real)
    ensures Moment(data, pos, 0.0) - Moment(data, pos, 1.0) == DistSum(data, pos)
  {
    hide Moment, DistSum, WeightedSum;
    MomentIs(data, pos, 0.0);
    MomentIs(data, pos, 1.0);
  }

  /** Seed 0 is the middle of the range. Seed i > 0 balances the data, each point weighted by its
      distance from the middle of the i-th of k equal slices of the range; it is that middle
      where the weights all but vanish. */
  lemma SeedBalances(data: seq<real>, k: nat, i: nat, mn: real, mx: real, pos: real)
    requires data != [] && i < k && mn == Least(data) && mx == Greatest(data)
    requires 2.0 * k as real * (pos - mn) == (2 * i + 1) as real * (mx - mn)
    ensures i == 0 ==> 2.0 * Seed(data, k)[i] == mn + mx
    ensures i > 0 ==>
              if Moment(data, pos, 0.0) - Moment(data, pos, 1.0) > 0.0000000001
              then Moment(data, pos, Seed(data, k)[i]) == 0.0
              else Seed(data, k)[i] == pos
  {
    hide Moment, DistSum, WeightedSum;
    SlicePosIs(mn, mx, k, i, pos);
    if i > 0 {
      MomentFalls(data, pos);
      var w, s := WeightedSum(data, pos), DistSum(data, pos);
      if s > 0.0000000001 {
        var m := w / s;
        assert m * s == w;
        MomentIs(data, pos, m);
      }
    }
  }

  lemma SlicePosIs(mn: real, mx: real, k: nat, i: nat, pos: real)
    requires i < k && 2.0 * k as real * (pos - mn) == (2 * i + 1) as real * (mx - mn)
    ensures SlicePos(mn, mx, k, i) == pos
  {
    var kr, t := k as real, (mx - mn) * (i as real + 0.5);
    var q := t / kr;
    assert q * kr == t;
    assert (2 * i + 1) as real == 2.0 * (i as real + 0.5);
    assert 2.0 * (i as real + 0.5) * (mx - mn) == 2.0 * t;
    assert 2.0 * (kr * (pos - mn)) == 2.0 * kr * (pos - mn);
    assert kr * (pos - mn) == t;
    assert kr * (pos - mn - q) == 0.0;
    SignOfProduct(pos - mn - q, kr);
  }
}
