/** `CodebookQ4` of `src/codec/codebook.cpp`: k-means over sixteen codewords, stored as binary16
    patterns, and the search for the nearest one. Training computes with real numbers; `bits` says
    which binary32 a trained codeword is. */
module Codebook4 {
  import CodebookHalf
  import Half
  import Shifts
  import opened Lloyd
  import opened LloydChain
  import opened LloydTraining
  import opened NearestSearch
  import opened Reals

  const SIZE: nat := 16

  /** `std::numeric_limits<float>::max()`, where the searches start. */
  const FLT_MAX: real := 340282346638528859811704183484516925440.0

  /** Which points seed the codebook: a permutation, in place when there are at most sixteen. */
  ghost predicate IsShuffle(order: seq<nat>, n: nat) {
    && |order| == n
    && (forall i | 0 <= i < n :: order[i] < n)
    && (forall i, j | 0 <= i < j < n :: order[i] != order[j])
    && (n <= SIZE ==> forall i | 0 <= i < n :: order[i] == i)
  }

  /** The first sixteen points of the shuffle, the first point where there are fewer. */
  function Seeds(data: seq<real>, order: seq<nat>): (c: seq<real>)
    requires data != [] && |order| == |data| && forall i | 0 <= i < |order| :: order[i] < |data|
    ensures |c| == SIZE
  {
    seq(SIZE, c => if 0 <= c < |data| then data[order[c]] else data[0])
  }

  function Assigned(data: seq<real>, c: seq<real>): (a: seq<nat>)
    ensures |a| == |data| && forall i | 0 <= i < |data| :: a[i] == Best(data[i], c, FLT_MAX)
  {
    seq(|data|, i requires 0 <= i < |data| => Best(data[i], c, FLT_MAX))
  }

  function Step(data: seq<real>, c: seq<real>): (c': seq<real>)
    ensures |c'| == |c|
  {
    Moved(data, Assigned(data, c), c, 0, |c|)
  }

  /** No codeword moved by more than 1e-7. */
  predicate Settled(c: seq<real>, c': seq<real>, n: nat)
    requires n <= |c| == |c'|
  {
    forall j | 0 <= j < n :: Dist(c'[j], c[j]) <= 0.0000001
  }

  /** At most n rounds. */
  function Rounds(data: seq<real>, c: seq<real>, n: nat): (c': seq<real>)
    ensures |c'| == |c|
    decreases n
  {
    if n == 0 then c
    else
      var next := Step(data, c);
      if Settled(c, next, |c|) then next else Rounds(data, next, n - 1)
  }

  /** What is stored for each codeword. */
  function Stored(c: seq<real>, bits: real -> Half.F32): (b: seq<Half.F16>)
    ensures |b| == |c|
  {
    seq(|c|, i requires 0 <= i < |c| => CodebookHalf.Narrow(bits(c[i])))
  }

  /** The number a stored pattern is read as; infinities and NaNs, which no comparison of the
      source takes, are numbers no search reaches (`OverflowIsOutOfReach`). */
  function Entry(h: Half.F16): real { Half.Val32(CodebookHalf.Widen(h)) as real / Half.Unit() }

  function Entries(b: seq<Half.F16>): (e: seq<real>)
    ensures |e| == |b|
  {
    seq(|b|, i requires 0 <= i < |b| => Entry(b[i]))
  }

  function Trained(data: seq<real>, order: seq<nat>, rounds: nat, bits: real -> Half.F32): (b: seq<Half.F16>)
    requires data != [] && |order| == |data| && forall i | 0 <= i < |order| :: order[i] < |data|
    ensures |b| == SIZE
  {
    Stored(Rounds(data, Seeds(data, order), rounds), bits)
  }

  // ----- The loops

  method Assign(data: seq<real>, tmp: array<real>, assign: array<nat>)
    requires assign.Length == |data|
    modifies assign
    ensures assign[..] == Assigned(data, tmp[..])
  {
    hide Best;
    for i := 0 to |data|
      invariant forall k | 0 <= k < i :: assign[k] == Best(data[k], tmp[..], FLT_MAX)
    {
      assign[i] := FindBest(data[i], tmp[..], FLT_MAX);
    }
  }

  method CountAndSum(data: seq<real>, a: seq<nat>, counts: array<nat>, sums: array<real>)
    requires |a| == |data| && counts.Length == sums.Length && forall i | 0 <= i < |a| :: a[i] < counts.Length
    modifies counts, sums
    ensures forall j | 0 <= j < counts.Length :: counts[j] == Count(a, j) && sums[j] == Sum(data, a, j)
  {
    for j := 0 to counts.Length
      invariant forall i | 0 <= i < j :: counts[i] == 0 && sums[i] == 0.0
    {
      counts[j], sums[j] := 0, 0.0;
    }
    for i := 0 to |data|
      invariant forall j | 0 <= j < counts.Length ::
                  counts[j] == Count(a[..i], j) && sums[j] == Sum(data[..i], a[..i], j)
    {
      assert a[..i + 1][..i] == a[..i] && data[..i + 1][..i] == data[..i];
      sums[a[i]] := sums[a[i]] + data[i];
      counts[a[i]] := counts[a[i]] + 1;
    }
    assert a[..|data|] == a && data[..|data|] == data;
  }

  method MoveAll(data: seq<real>, a: seq<nat>, counts: array<nat>, sums: array<real>, tmp: array<real>)
    returns (changed: bool)
    requires |a| == |data| && counts.Length == sums.Length == tmp.Length && tmp != sums
    requires forall j | 0 <= j < counts.Length :: counts[j] == Count(a, j) && sums[j] == Sum(data, a, j)
    modifies tmp
    ensures tmp[..] == Moved(data, a, old(tmp[..]), 0, tmp.Length)
    ensures changed <==> !Settled(old(tmp[..]), tmp[..], tmp.Length)
  {
    ghost var c := tmp[..];
    changed := false;
    for i := 0 to tmp.Length
      invariant tmp[..] == Moved(data, a, c, 0, i)
      invariant changed <==> !Settled(c, tmp[..], i)
    {
      if counts[i] > 0 {
        var val := sums[i] / counts[i] as real;
        if Dist(val, tmp[i]) > 0.0000001 {
          changed := true;
        }
        ghost var before := tmp[..];
        tmp[i] := val;
        assert tmp[..] == before[i := val];
      }
    }
  }

  class CodebookQ4 {
    const centroids: array<Half.F16>

    constructor ()
      ensures fresh(centroids) && centroids.Length == SIZE
      ensures forall i | 0 <= i < SIZE :: centroids[i] == 0
    {
      centroids := new Half.F16[SIZE](_ => 0);
    }

    /** `train`; `order` is what the shuffle made of the positions. */
    method Train(data: seq<real>, order: seq<nat>, rounds: nat, bits: real -> Half.F32)
      requires centroids.Length == SIZE && IsShuffle(order, |data|)
      modifies centroids
      ensures data == [] ==> centroids[..] == old(centroids[..])
      ensures data != [] ==> centroids[..] == Trained(data, order, rounds, bits)
    {
      if |data| == 0 {
        return;
      }
      var tmp := new real[SIZE](c => if 0 <= c < |data| then data[order[c]] else data[0]);
      assert tmp[..] == Seeds(data, order);
      hide Seeds, Rounds, Stored;
      RunRounds(data, tmp, rounds);
      StoreAll(tmp[..], bits);
    }

    method StoreAll(c: seq<real>, bits: real -> Half.F32)
      requires |c| == centroids.Length
      modifies centroids
      ensures centroids[..] == Stored(c, bits)
    {
      for i := 0 to |c|
        invariant forall k | 0 <= k < i :: centroids[k] == CodebookHalf.Narrow(bits(c[k]))
      {
        centroids[i] := CodebookHalf.Narrow(bits(c[i]));
      }
    }

    /** `quantize`. */
    method Quantize(val: real) returns (best: nat)
      requires centroids.Length == SIZE
      ensures best < SIZE && best == Best(val, Entries(centroids[..]), FLT_MAX)
    {
      best := FindBest(val, Entries(centroids[..]), FLT_MAX);
    }
  }

  method RunRounds(data: seq<real>, tmp: array<real>, rounds: nat)
    requires tmp.Length > 0
    modifies tmp
    ensures tmp[..] == Rounds(data, old(tmp[..]), rounds)
  {
    hide Settled, Best, Moved;
    var assign := new nat[|data|];
    var sums := new real[tmp.Length];
    var counts := new nat[tmp.Length];
    for iter := 0 to rounds
      invariant Rounds(data, tmp[..], rounds - iter) == Rounds(data, old(tmp[..]), rounds)
    {
      ghost var c := tmp[..];
      Assign(data, tmp, assign);
      CountAndSum(data, assign[..], counts, sums);
      var changed := MoveAll(data, assign[..], counts, sums, tmp);
      assert tmp[..] == Step(data, c);
      assert Rounds(data, c, rounds - iter)
          == if changed then Rounds(data, tmp[..], rounds - iter - 1) else tmp[..];
      if !changed {
        return;
      }
    }
  }

  // ----- Patterns that are no numbers

  /** 2^128, beyond the greatest float, as an integer and as a real. */
  const BEYOND: nat := 0x1_0000_0000_0000_0000_0000_0000_0000_0000
  const FAR: real := 340282366920938463463374607431768211456.0

  lemma DoubledOnce(a: nat)
    ensures Shifts.Shl(a, 1) == 2 * a
  {
  }

  lemma SixteenShifts(a: nat)
    ensures Shifts.Shl(a, 16) == 0x1_0000 * a
  {
    Shifts.ShlMultiplies(a);
    var b := 8192 * a;
    Shifts.ShlShl(a, 13, 1);
    Shifts.ShlShl(a, 14, 1);
    Shifts.ShlShl(a, 15, 1);
    DoubledOnce(b);
    DoubledOnce(2 * b);
    DoubledOnce(4 * b);
  }

  lemma SixteenMore(a: nat, k: nat, p: nat)
    requires Shifts.Shl(a, k) == p
    ensures Shifts.Shl(a, k + 16) == 0x1_0000 * p
  {
    Shifts.ShlShl(a, k, 16);
    SixteenShifts(p);
  }

  lemma BeyondShifts(a: nat)
    ensures Shifts.Shl(a, 128) == BEYOND * a
  {
    hide Shifts.Shl;
    SixteenShifts(a);
    SixteenMore(a, 16, 0x1_0000 * a);
    SixteenMore(a, 32, 0x1_0000_0000 * a);
    SixteenMore(a, 48, 0x1_0000_0000_0000 * a);
    SixteenMore(a, 64, 0x1_0000_0000_0000_0000 * a);
    SixteenMore(a, 80, 0x1_0000_0000_0000_0000_0000 * a);
    SixteenMore(a, 96, 0x1_0000_0000_0000_0000_0000_0000 * a);
    SixteenMore(a, 112, 0x1_0000_0000_0000_0000_0000_0000_0000 * a);
  }

  /** The bits of an infinity or NaN, taken for a magnitude. */
  lemma OverflowMagnitude(x: Half.F32, a: nat, k: nat, u: nat)
    requires Half.Exp32(x) == 255 && a == 0x80_0000 && k == 254 && u == Shifts.Shl(1, 149)
    ensures Half.Mag32(x) >= BEYOND * u
  {
    CodebookHalf.TwentyThree(a);
    hide Half.Exp32, Half.Mant32, Shifts.Shl;
    Shifts.ShlMonotone(a, a + Half.Mant32(x), k);
    Shifts.ShlShl(1, 23, k);
    Shifts.ShlShl(1, 149, 128);
    BeyondShifts(u);
  }

  lemma FarQuotient(x: int, u: nat, v: real)
    requires u > 0 && (x >= BEYOND * u || -x >= BEYOND * u) && -FLT_MAX <= v <= FLT_MAX
    ensures Sq(v - x as real / u as real) >= FLT_MAX
  {
    var q := x as real / u as real;
    QuotientOrder(x as real, u as real, FAR);
    QuotientOrder(x as real, u as real, -FAR);
    var gap := 20282409603651670423947251286016.0;
    var d := if q >= v then q - v else v - q;
    assert d >= gap;
    ProductBetween(gap, d, d, d);
    ProductBetween(gap, d, d, gap);
    assert Sq(v - q) == d * d;
  }

  /** A codeword stored as an infinity or NaN is never chosen by the search for a float. */
  lemma OverflowIsOutOfReach(h: Half.F16, v: real)
    requires !Half.Finite16(h) && -FLT_MAX <= v <= FLT_MAX
    ensures Sq(v - Entry(h)) >= FLT_MAX
  {
    var x := CodebookHalf.Widen(h);
    CodebookHalf.WidenOverflow(h);
    OverflowMagnitude(x, 0x80_0000, 254, Shifts.Shl(1, 149));
    Shifts.ShlMonotone(1, 0, 149);
    Shifts.ShlZero(149);
    hide CodebookHalf.Widen, Half.Mag32, Shifts.Shl, Sq;
    FarQuotient(Half.Val32(x), Shifts.Shl(1, 149), v);
  }

  // ----- What training guarantees

  /** All codewords and points within [mn, mx], which is narrow enough for the search. */
  ghost predicate Narrow(data: seq<real>, c: seq<real>, mn: real, mx: real) {
    c != [] && mn <= mx && Sq(mx - mn) < FLT_MAX && Within(data, mn, mx) && Within(c, mn, mx)
  }

  lemma NarrowIsInReach(data: seq<real>, c: seq<real>, mn: real, mx: real, i: nat)
    requires Narrow(data, c, mn, mx) && i < |data|
    ensures InReach(data[i], c, FLT_MAX)
  {
    NarrowSquare(data[i], c[0], mn, mx);
    assert Sq(data[i] - c[0]) < FLT_MAX;
  }

  lemma NarrowSquare(x: real, c: real, mn: real, mx: real)
    requires mn <= x <= mx && mn <= c <= mx
    ensures Sq(x - c) <= Sq(mx - mn)
  {
    var d, w := Dist(x, c), mx - mn;
    assert Sq(x - c) == d * d;
    ProductBetween(0.0, d, w, d);
    ProductBetween(0.0, d, w, w);
  }

  lemma StepIsIteration(data: seq<real>, c: seq<real>, mn: real, mx: real)
    requires Narrow(data, c, mn, mx)
    ensures Step(data, c) == Iteration(data, c, 0, |c|) && Narrow(data, Step(data, c), mn, mx)
  {
    hide Best, Near, Moved, Sq;
    forall i | 0 <= i < |data|
      ensures Best(data[i], c, FLT_MAX) == Near(data[i], c)
    {
      NarrowIsInReach(data, c, mn, mx, i);
      BestIsNear(data[i], c, FLT_MAX);
    }
    assert Assigned(data, c) == Cells(data, c);
    IterationWithin(data, c, 0, |c|, mn, mx);
  }

  /** Training never raises the distortion, as long as squares of distances within the data
      stay below the value the search starts from. */
  lemma {:induction false} RoundsDescend(data: seq<real>, c: seq<real>, n: nat, mn: real, mx: real)
    requires Narrow(data, c, mn, mx)
    ensures Distortion(data, Rounds(data, c, n)) <= Distortion(data, c)
    decreases n
  {
    hide Distortion, Step, Settled, Narrow, Iteration;
    if n > 0 {
      assert c != [] by { NarrowIsNotEmpty(data, c, mn, mx); }
      StepIsIteration(data, c, mn, mx);
      IterationDescends(data, c, 0, |c|);
      RoundsDescend(data, Step(data, c), n - 1, mn, mx);
    }
  }

  lemma NarrowIsNotEmpty(data: seq<real>, c: seq<real>, mn: real, mx: real)
    requires Narrow(data, c, mn, mx)
    ensures c != []
  {
  }

  lemma SettledMeansRests(c: seq<real>, c': seq<real>)
    requires |c| == |c'|
    ensures Settled(c, c', |c|) <==> Rests(c, c', 0.0000001)
  {
    forall j | 0 <= j < |c|
      ensures Dist(c'[j], c[j]) <= 0.0000001 <==> -0.0000001 <= c'[j] - c[j] <= 0.0000001
    {
    }
  }

  lemma {:induction false} RoundsAreChain(data: seq<real>, c: seq<real>, n: nat, mn: real, mx: real)
    returns (chain: seq<seq<real>>)
    requires Narrow(data, c, mn, mx)
    ensures IsTraining(chain, data, c, 0, |c|, n, 0.0000001)
    ensures chain[|chain| - 1] == Rounds(data, c, n)
    decreases n
  {
    hide Step, Settled, Narrow, Iteration, IsRound, Rests;
    NarrowIsNotEmpty(data, c, mn, mx);
    if n == 0 {
      chain := [c];
    } else {
      var next := Step(data, c);
      StepIsIteration(data, c, mn, mx);
      IterationIsRound(data, c, 0, |c|);
      SettledMeansRests(c, next);
      if Settled(c, next, |c|) {
        chain := [c, next];
      } else {
        var rest := RoundsAreChain(data, next, n - 1, mn, mx);
        chain := [c] + rest;
        assert chain[1] == rest[0] == next;
        assert forall i | 0 < i < |chain| :: chain[i] == rest[i - 1];
      }
    }
  }

  lemma SeedsWithin(data: seq<real>, order: seq<nat>, mn: real, mx: real)
    requires data != [] && IsShuffle(order, |data|) && Within(data, mn, mx)
    ensures Within(Seeds(data, order), mn, mx)
  {
  }

  /** Unless squares of distances reach the value the search starts from, what is stored is, codeword
      by codeword, the end of a training over all sixteen cells that rests at 1e-7; a round or
      more lowers the distortion by what the first one moves, and strictly if a seed with points
      was not their mean. */
  lemma TrainedEndsTraining(data: seq<real>, order: seq<nat>, rounds: nat, bits: real -> Half.F32)
    requires data != [] && IsShuffle(order, |data|) && Sq(Greatest(data) - Least(data)) < FLT_MAX
    ensures var c, seeds := Rounds(data, Seeds(data, order), rounds), Seeds(data, order);
            && (forall j | 0 <= j < SIZE :: Trained(data, order, rounds, bits)[j] == CodebookHalf.Narrow(bits(c[j])))
            && EndsTraining(c, data, seeds, 0, SIZE, rounds, 0.0000001)
            && (rounds >= 1 ==> GainsFirstRound(c, data, seeds, 0, SIZE))
            && (rounds >= 1 && OffMean(data, seeds, 0, SIZE) ==> Distortion(data, c) < Distortion(data, seeds))
  {
    var seeds, mn, mx := Seeds(data, order), Least(data), Greatest(data);
    SeedsWithin(data, order, mn, mx);
    assert Narrow(data, seeds, mn, mx);
    hide Seeds, Rounds, Distortion, OffMean, IsTraining, EndsTraining, GainsFirstRound, Narrow;
    var chain := RoundsAreChain(data, seeds, rounds, mn, mx);
    ChainConcludes(chain, data, seeds, 0, SIZE, rounds, 0.0000001, Rounds(data, seeds, rounds));
  }

  /** Sixteen different positions among n. */
  ghost predicate Sixteen(at: seq<nat>, n: nat) {
    && |at| == SIZE && (forall i | 0 <= i < SIZE :: at[i] < n)
    && forall i, j | 0 <= i < j < SIZE :: at[i] != at[j]
  }

  ghost predicate DrawnFrom(c: seq<real>, data: seq<real>) {
    |c| == SIZE && exists at :: Sixteen(at, |data|) && forall i | 0 <= i < SIZE :: c[i] == data[at[i]]
  }

  /** The seeds are points at different positions: all of them in order, and the first point again
      and again, where there are at most sixteen; else some sixteen of them. */
  lemma SeedsAreDataPoints(data: seq<real>, order: seq<nat>)
    requires data != [] && IsShuffle(order, |data|)
    ensures |data| <= SIZE ==>
              && Seeds(data, order)[..|data|] == data
              && forall j | |data| <= j < SIZE :: Seeds(data, order)[j] == data[0]
    ensures |data| >= SIZE ==> DrawnFrom(Seeds(data, order), data)
  {
    if |data| >= SIZE {
      var at := order[..SIZE];
      assert Sixteen(at, |data|);
    }
  }

  /** Training on a constant block stores that constant sixteen times. */
  lemma ConstantBlock(data: seq<real>, v: real, order: seq<nat>, rounds: nat, bits: real -> Half.F32)
    requires data != [] && IsShuffle(order, |data|) && forall i | 0 <= i < |data| :: data[i] == v
    ensures forall j | 0 <= j < SIZE :: Trained(data, order, rounds, bits)[j] == CodebookHalf.Narrow(bits(v))
  {
    ConstantRounds(data, v, Seeds(data, order), rounds);
  }

  lemma {:induction false} ConstantRounds(data: seq<real>, v: real, c: seq<real>, n: nat)
    requires (forall i | 0 <= i < |data| :: data[i] == v) && (forall j | 0 <= j < |c| :: c[j] == v)
    ensures Rounds(data, c, n) == c
    decreases n
  {
    hide Step, Best;
    if n > 0 {
      ConstantStep(data, v, c);
      assert Step(data, c) == c;
    }
  }

  lemma ConstantStep(data: seq<real>, v: real, c: seq<real>)
    requires (forall i | 0 <= i < |data| :: data[i] == v) && (forall j | 0 <= j < |c| :: c[j] == v)
    ensures Step(data, c) == c
  {
    hide Mean, Moved, Best;
    var a := Assigned(data, c);
    forall j | 0 <= j < |c| && Count(a, j) > 0
      ensures Mean(data, a, j) == v
    {
      MeanBetween(data, a, j, v, v);
    }
  }
}
