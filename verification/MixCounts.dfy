/** What each of the seven counts of `compute_format_mix` is, for every number of blocks and every
    target: between two neighbouring widths the blocks are shared in proportion. */
module MixCounts {
  import opened FormatMix
  import opened Reals
  import opened TargetWidth

  /** c is the share f of the blocks, rounded to the nearest integer, halves up. */
  predicate IsShare(c: nat, f: real, nb: nat) { c as real - 0.5 <= f * nb as real < c as real + 0.5 }

  lemma PartRounds(f: real, nb: nat)
    requires 0.0 <= f <= 1.0
    ensures IsShare(Part(f, nb), f, nb)
  {
    MulNonNegative(f, nb as real);
  }

  /** Both neighbours in one class: all blocks, or one more when both shares are halfway. */
  function Together(f: real, nb: nat): nat { nb + if Halfway(f, nb) then 1 else 0 }

  lemma Shares(nb: nat, target: real, u: nat, f: real)
    requires 1.0 < target < 32.0 && 1 <= u <= 9 && LADDER[u - 1] < target <= LADDER[u] && f == Ratio(target, u)
    ensures 0.0 <= f <= 1.0
    ensures IsShare(Part(f, nb), f, nb) && IsShare(Part(1.0 - f, nb), 1.0 - f, nb)
    ensures Part(f, nb) + Part(1.0 - f, nb) == Together(f, nb) && Part(1.0 - f, nb) <= nb
    ensures MixFor(nb, target) == Rungs(u, Part(1.0 - f, nb), Part(f, nb), nb)
  {
    hide Part, Halfway, Ratio, IsShare;
    RungCounts(nb, target, u);
    PartRounds(f, nb);
    PartRounds(1.0 - f, nb);
    PartsOfWhole(f, nb);
    PartsOfWhole(1.0 - f, nb);
    hide CountAt;
    RungMix(nb, target, u, Part(1.0 - f, nb), Part(f, nb));
  }

  /** The ten counts of `compute_format_mix_extended`: between two neighbouring widths lo and hi each
      of them gets its share, rounded, and the others none; the last width gets what is left. */
  lemma ExtendedCounts(nb: nat, target: real, u: nat, lo: real, hi: real)
    requires 1 <= u <= 9 && lo < target <= hi && 1.0 < target < 32.0
    requires lo == [1.0, 2.0, 3.0, 4.0, 6.0, 8.0, 12.0, 16.0, 24.0, 32.0][u - 1]
    requires hi == [1.0, 2.0, 3.0, 4.0, 6.0, 8.0, 12.0, 16.0, 24.0, 32.0][u]
    ensures IsShare(CountAt(nb, target, u - 1), (hi - target) / (hi - lo), nb)
    ensures if u < 9 then IsShare(CountAt(nb, target, u), (target - lo) / (hi - lo), nb)
            else CountAt(nb, target, 9) == nb - CountAt(nb, target, 8)
    ensures forall i | 0 <= i < 10 && i != u - 1 && i != u :: CountAt(nb, target, i) == 0
  {
    hide CountAt, Part, IsShare;
    assert lo == LADDER[u - 1] && hi == LADDER[u];
    RungCounts(nb, target, u);
    var f := Ratio(target, u);
    LadderRises(u - 1, u);
    ShareOfRest(target - lo, hi - target, hi - lo, f, (hi - target) / (hi - lo));
    PartRounds(f, nb);
    PartRounds(1.0 - f, nb);
  }

  lemma ShareOfRest(x: real, y: real, d: real, a: real, b: real)
    requires d > 0.0 && x + y == d && a == x / d && b == y / d
    ensures 1.0 - a == b
  {
    assert a * d == x && b * d == y;
    assert (a + b - 1.0) * d == 0.0;
    SignOfProduct(a + b - 1.0, d);
  }

  /** What a below rung u and b on it are counted as. */
  function Rungs(u: nat, a: nat, b: nat, nb: nat): Mix
    requires 1 <= u <= 9 && a <= nb
  {
    match u
    case 1 => Mix(0, 0, 0, 0, b, 0, a)
    case 2 => Mix(0, 0, 0, 0, a + b, 0, 0)
    case 3 => Mix(0, 0, 0, b, a, 0, 0)
    case 4 => Mix(0, 0, 0, a + b, 0, 0, 0)
    case 5 => Mix(0, 0, b, a, 0, 0, 0)
    case 6 => Mix(0, 0, a + b, 0, 0, 0, 0)
    case 7 => Mix(0, b, a, 0, 0, 0, 0)
    case 8 => Mix(b, a, 0, 0, 0, 0, 0)
    case _ => Mix(nb, 0, 0, 0, 0, 0, 0)
  }

  lemma RungMix(nb: nat, target: real, u: nat, a: nat, b: nat)
    requires 1 <= u <= 9 && a <= nb
    requires forall i | 0 <= i < 9 :: CountAt(nb, target, i) == if i == u - 1 then a else if i == u then b else 0
    requires CountAt(nb, target, 9) == if u == 9 then nb - a else 0
    ensures MixFor(nb, target) == Rungs(u, a, b, nb)
  {
    hide CountAt;
  }

  /** The widths 8 and 12 are counted together, and so are 4 and 6, 2 and 3, and 24 and 32; two of
      one class make all blocks, or one more when both shares are halfway. */
  lemma MixIs(nb: nat, target: real)
    ensures var m := MixFor(nb, target);
            && (target <= 1.0 ==> m == Mix(0, 0, 0, 0, 0, 0, nb))
            && (1.0 < target <= 2.0 ==>
                  && m == Mix(0, 0, 0, 0, m.o2, 0, m.o1)
                  && IsShare(m.o1, 2.0 - target, nb) && IsShare(m.o2, target - 1.0, nb))
            && (2.0 < target <= 3.0 ==> m == Mix(0, 0, 0, 0, Together(target - 2.0, nb), 0, 0))
            && (3.0 < target <= 4.0 ==>
                  && m == Mix(0, 0, 0, m.o4, m.o2, 0, 0)
                  && IsShare(m.o2, 4.0 - target, nb) && IsShare(m.o4, target - 3.0, nb))
            && (4.0 < target <= 6.0 ==> m == Mix(0, 0, 0, Together((target - 4.0) / 2.0, nb), 0, 0, 0))
  {
    if target <= 1.0 {
      LowEnd(nb, target);
    } else if target <= 6.0 {
      var u := if target <= 2.0 then 1 else if target <= 3.0 then 2 else if target <= 4.0 then 3 else 4;
      hide Part, Together, IsShare, MixFor;
      var f := Ratio(target, u);
      assert f == if u < 4 then target - u as real else (target - 4.0) / 2.0;
      Shares(nb, target, u, f);
      assert u < 4 ==> 1.0 - f == (u + 1) as real - target;
    }
  }

  lemma MixIsAbove(nb: nat, target: real)
    ensures var m := MixFor(nb, target);
            && (6.0 < target <= 8.0 ==>
                  && m == Mix(0, 0, m.o8, m.o4, 0, 0, 0)
                  && IsShare(m.o4, (8.0 - target) / 2.0, nb)
                  && IsShare(m.o8, (target - 6.0) / 2.0, nb))
            && (8.0 < target <= 12.0 ==> m == Mix(0, 0, Together((target - 8.0) / 4.0, nb), 0, 0, 0, 0))
            && (12.0 < target <= 16.0 ==>
                  && m == Mix(0, m.o16, m.o8, 0, 0, 0, 0)
                  && IsShare(m.o8, (16.0 - target) / 4.0, nb)
                  && IsShare(m.o16, (target - 12.0) / 4.0, nb))
            && (16.0 < target <= 24.0 ==>
                  && m == Mix(m.o32, m.o16, 0, 0, 0, 0, 0)
                  && IsShare(m.o16, (24.0 - target) / 8.0, nb)
                  && IsShare(m.o32, (target - 16.0) / 8.0, nb))
            && (24.0 < target ==> m == Mix(nb, 0, 0, 0, 0, 0, 0))
  {
    if target >= 32.0 {
      HighEnd(nb, target);
    } else if target > 6.0 {
      var u := if target <= 8.0 then 5 else if target <= 12.0 then 6
               else if target <= 16.0 then 7 else if target <= 24.0 then 8 else 9;
      hide Part, Together, IsShare, MixFor;
      var f := Ratio(target, u);
      assert f == if u == 5 then (target - 6.0) / 2.0 else if u == 6 then (target - 8.0) / 4.0
                  else if u == 7 then (target - 12.0) / 4.0 else if u == 8 then (target - 16.0) / 8.0
                  else (target - 24.0) / 8.0;
      Shares(nb, target, u, f);
      Complement(target);
    }
  }

  lemma Complement(target: real)
    ensures 1.0 - (target - 6.0) / 2.0 == (8.0 - target) / 2.0
    ensures 1.0 - (target - 12.0) / 4.0 == (16.0 - target) / 4.0
    ensures 1.0 - (target - 16.0) / 8.0 == (24.0 - target) / 8.0
  {
  }

  lemma LowEnd(nb: nat, target: real)
    requires target <= 1.0
    ensures MixFor(nb, target) == Mix(0, 0, 0, 0, 0, 0, nb)
  {
    PartsOfWhole(0.0, nb);
    EndUsed(nb, target, 9);
    hide Part, Used;
  }

  lemma HighEnd(nb: nat, target: real)
    requires target >= 32.0
    ensures MixFor(nb, target) == Mix(nb, 0, 0, 0, 0, 0, 0)
  {
    PartsOfWhole(0.0, nb);
    EndUsed(nb, target, 9);
    hide Part, Used;
  }
}
