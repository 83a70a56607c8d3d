/** What the score of a block means, and what it decides: the mean magnitude of the block's
    weights, and with it which blocks get the wider formats. */
module RoutingScores {
  import opened Importance
  import opened Reals

  /** Positions of block b in data of length n. */
  predicate InBlock(i: nat, b: nat, n: nat) { 256 * b <= i < 256 * b + 256 && i < n }

  function BlockLength(b: nat, n: nat): int { if 256 * b + 256 < n then 256 else n - 256 * b }

  predicate SameMagnitude(x: real, y: real) { x == y || x == -y }

  lemma {:induction false} SumAbsSignBlind(s: seq<real>, t: seq<real>)
    requires |s| == |t| && forall i | 0 <= i < |s| :: SameMagnitude(s[i], t[i])
    ensures SumAbs(s) == SumAbs(t)
  {
    if s != [] { SumAbsSignBlind(s[..|s| - 1], t[..|t| - 1]); }
  }

  /** Flipping the sign of any weights changes no score. */
  lemma ScoreIsSignBlind(data: seq<real>, data': seq<real>, b: nat)
    requires |data| == |data'| && b < Blocks(|data|)
    requires forall i | 0 <= i < |data| :: SameMagnitude(data[i], data'[i])
    ensures Score(data, b) == Score(data', b)
  {
    BlockFits(b, |data|);
    SumAbsSignBlind(data[Start(b)..End(b, |data|)], data'[Start(b)..End(b, |data|)]);
  }

  predicate MagnitudeWithin(x: real, lo: real, hi: real) { -hi <= x <= hi && (lo <= x || x <= -lo) }

  lemma {:induction false} SumAbsBetween(s: seq<real>, lo: real, hi: real)
    requires forall i | 0 <= i < |s| :: MagnitudeWithin(s[i], lo, hi)
    ensures Between(lo, hi, |s| as real, SumAbs(s))
  {
    if s != [] {
      hide Between;
      var n := |s| - 1;
      SumAbsBetween(s[..n], lo, hi);
      MagnitudeStep(s[n], lo, hi);
      StepBetween(lo, hi, n as real, SumAbs(s[..n]), AbsR(s[n]), 1.0);
    } else {
      NothingBetween(lo, hi);
    }
  }

  lemma MagnitudeStep(x: real, lo: real, hi: real)
    requires MagnitudeWithin(x, lo, hi)
    ensures lo <= AbsR(x) <= hi && Times(AbsR(x), 1.0) == AbsR(x)
  {
  }

  lemma NothingBetween(lo: real, hi: real)
    ensures Between(lo, hi, 0.0, 0.0)
  {
  }

  /** A score lies between the least and the greatest magnitude of its block. */
  lemma ScoreBetween(data: seq<real>, b: nat, lo: real, hi: real)
    requires b < Blocks(|data|)
    requires forall i: nat | InBlock(i, b, |data|) :: MagnitudeWithin(data[i], lo, hi)
    ensures lo <= Score(data, b) <= hi
  {
    BlockFits(b, |data|);
    var s := data[Start(b)..End(b, |data|)];
    forall i | 0 <= i < |s|
      ensures MagnitudeWithin(s[i], lo, hi)
    {
      assert InBlock(Start(b) + i, b, |data|);
    }
    SumAbsBetween(s, lo, hi);
    QuotientBetween(lo, hi, SumAbs(s), |s| as real);
  }

  lemma {:induction false} SumAbsRaised(s: seq<real>, i: nat, v: real)
    requires i < |s|
    ensures SumAbs(s[i := v]) == SumAbs(s) + AbsR(v) - AbsR(s[i])
  {
    var n := |s| - 1;
    if i == n {
      assert s[i := v][..n] == s[..n];
    } else {
      assert s[i := v][..n] == s[..n][i := v];
      SumAbsRaised(s[..n], i, v);
    }
  }

  /** `v` is longer than `x` by e, whatever the signs. */
  predicate LongerBy(v: real, x: real, e: real) {
    (if v < 0.0 then -v else v) == (if x < 0.0 then -x else x) + e
  }

  /** Raising one weight's magnitude by e raises the score of its own block by e over the block's
      length, and changes no other score. */
  lemma ScoreRises(data: seq<real>, i: nat, v: real, e: real, b: nat)
    requires i < |data| && b < Blocks(|data|) && LongerBy(v, data[i], e)
    ensures BlockLength(b, |data|) > 0
    ensures Score(data[i := v], b)
         == Score(data, b) + if b == i / 256 then e / BlockLength(b, |data|) as real else 0.0
  {
    BlockFits(b, |data|);
    if b == i / 256 {
      OwnScoreRises(data, i, v, e, b);
    } else {
      assert data[i := v][Start(b)..End(b, |data|)] == data[Start(b)..End(b, |data|)];
    }
  }

  lemma OwnScoreRises(data: seq<real>, i: nat, v: real, e: real, b: nat)
    requires i < |data| && b == i / 256 < Blocks(|data|) && LongerBy(v, data[i], e)
    ensures BlockLength(b, |data|) > 0
    ensures Score(data[i := v], b) == Score(data, b) + e / BlockLength(b, |data|) as real
  {
    BlockFits(b, |data|);
    var lo, hi := Start(b), End(b, |data|);
    var s := data[lo..hi];
    assert data[i := v][lo..hi] == s[i - lo := v];
    SumAbsRaised(s, i - lo, v);
    assert SumAbs(s[i - lo := v]) == SumAbs(s) + e;
    hide SumAbs;
    QuotientOfSum(SumAbs(s), e, BlockLength(b, |data|) as real);
  }

  lemma QuotientOfSum(x: real, e: real, d: real)
    requires d > 0.0
    ensures (x + e) / d == x / d + e / d
  {
  }

  ghost predicate AllLonger(data: seq<real>, b: nat, m: real) {
    forall i: nat | InBlock(i, b, |data|) :: data[i] > m || data[i] < -m
  }

  ghost predicate NoneLonger(data: seq<real>, b: nat, m: real) {
    forall i: nat | InBlock(i, b, |data|) :: -m <= data[i] <= m
  }

  /** Every weight of block b is longer than every weight of block c. */
  ghost predicate Dominates(data: seq<real>, b: nat, c: nat) {
    exists m: real :: AllLonger(data, b, m) && NoneLonger(data, c, m)
  }

  lemma {:induction false} SumAbsAbove(s: seq<real>, m: real)
    requires forall i | 0 <= i < |s| :: s[i] > m || s[i] < -m
    ensures if s == [] then SumAbs(s) == 0.0 else SumAbs(s) > Times(m, |s| as real)
  {
    if s != [] {
      hide Times;
      SumAbsAbove(s[..|s| - 1], m);
      TimesOneMore(m, (|s| - 1) as real);
    }
  }

  lemma ScoreAbove(data: seq<real>, b: nat, m: real)
    requires b < Blocks(|data|) && AllLonger(data, b, m)
    ensures Score(data, b) > m
  {
    BlockFits(b, |data|);
    var s := data[Start(b)..End(b, |data|)];
    forall i | 0 <= i < |s|
      ensures s[i] > m || s[i] < -m
    {
      assert InBlock(Start(b) + i, b, |data|);
    }
    SumAbsAbove(s, m);
    hide SumAbs;
    QuotientOrder(SumAbs(s), |s| as real, m);
  }

  lemma ScoreNotAbove(data: seq<real>, c: nat, m: real)
    requires c < Blocks(|data|) && NoneLonger(data, c, m)
    ensures Score(data, c) <= m
  {
    forall i: nat | InBlock(i, c, |data|)
      ensures MagnitudeWithin(data[i], 0.0, m)
    {
    }
    ScoreBetween(data, c, 0.0, m);
  }

  /** A block all of whose weights are longer than all of another's is never in a lower tier,
      whatever the counts and however the sort breaks ties. */
  lemma DominantBlocksRankHigher(data: seq<real>, order: seq<nat>, assign: seq<Tier>,
                                 o8: nat, o4: nat, b: nat, c: nat)
    requires IsSort(Scores(data), order) && Assigned(assign, order, o8, o4)
    requires b < |assign| && c < |assign| && Dominates(data, b, c)
    ensures Rank(assign[b]) <= Rank(assign[c])
  {
    CoversLength(order, |Scores(data)|);
    var m :| AllLonger(data, b, m) && NoneLonger(data, c, m);
    ScoreAbove(data, b, m);
    ScoreNotAbove(data, c, m);
    hide IsSort, Assigned, Score;
    if Rank(assign[c]) < Rank(assign[b]) {
      HigherTiersScoreHigher(Scores(data), assign, order, o8, o4, c, b);
    }
  }
}
