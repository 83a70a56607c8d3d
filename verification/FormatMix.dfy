/** `compute_format_mix` of `src/codec/format_planner.cpp`, over the reals: how many blocks get
    which width for a target number of bits per weight. */
module FormatMix {
  import opened Reals

  /** The widths on offer. */
  const LADDER: seq<real> := [1.0, 2.0, 3.0, 4.0, 6.0, 8.0, 12.0, 16.0, 24.0, 32.0]

  lemma LadderRises(i: nat, j: nat)
    requires i < j < 10
    ensures LADDER[i] < LADDER[j]
  {
  }

  /** The first rung from u on that is not below the target. */
  function UpperFrom(target: real, u: nat): (r: nat)
    requires u <= 10
    ensures u <= r <= 10
    decreases 10 - u
  {
    if u < 10 && LADDER[u] < target then UpperFrom(target, u + 1) else u
  }

  lemma {:induction false} UpperFromIs(target: real, u: nat, r: nat)
    requires u <= r < 10 && target <= LADDER[r] && (u < r ==> LADDER[r - 1] < target)
    ensures UpperFrom(target, u) == r
    decreases r - u
  {
    if u < r {
      if u < r - 1 { LadderRises(u, r - 1); }
      UpperFromIs(target, u + 1, r);
    }
  }

  lemma {:induction false} UpperFound(target: real, u: nat)
    requires u <= 9 && target <= 32.0
    ensures UpperFrom(target, u) <= 9 && target <= LADDER[UpperFrom(target, u)]
    ensures u < UpperFrom(target, u) ==> LADDER[UpperFrom(target, u) - 1] < target
    decreases 9 - u
  {
    if LADDER[u] < target {
      assert u < 9;
      UpperFound(target, u + 1);
    }
  }

  /** Where the target lies between two neighbouring rungs. */
  function Ratio(target: real, u: nat): real
    requires 1 <= u <= 9
  {
    LadderRises(u - 1, u);
    (target - LADDER[u - 1]) / (LADDER[u] - LADDER[u - 1])
  }

  lemma RatioInUnit(target: real, u: nat)
    requires 1 <= u <= 9 && LADDER[u - 1] <= target <= LADDER[u]
    ensures 0.0 <= Ratio(target, u) <= 1.0
  {
    LadderRises(u - 1, u);
    QuotientBetween(0.0, 1.0, target - LADDER[u - 1], LADDER[u] - LADDER[u - 1]);
  }

  /** The share of rung i. */
  function Fraction(target: real, i: nat): (f: real)
    requires i < 10
    ensures 0.0 <= f <= 1.0
  {
    if target >= 32.0 then (if i == 9 then 1.0 else 0.0)
    else if target <= 1.0 then (if i == 0 then 1.0 else 0.0)
    else
      UpperFound(target, 1);
      var u := UpperFrom(target, 1);
      RatioInUnit(target, u);
      if i == u - 1 then 1.0 - Ratio(target, u) else if i == u then Ratio(target, u) else 0.0
  }

  /** `std::round` of a share of the blocks. */
  function Part(f: real, nb: nat): (c: nat)
    requires 0.0 <= f <= 1.0
  {
    MulNonNegative(f, nb as real);
    Round(Times(f, nb as real))
  }

  function Used(nb: nat, target: real, n: nat): nat
    requires n <= 9
  {
    if n == 0 then 0 else Used(nb, target, n - 1) + Part(Fraction(target, n - 1), nb)
  }

  /** The blocks of rung i; the last rung takes what is left, if anything is. */
  function CountAt(nb: nat, target: real, i: nat): nat
    requires i < 10
  {
    if i < 9 then Part(Fraction(target, i), nb)
    else if Used(nb, target, 9) < nb then nb - Used(nb, target, 9) else 0
  }

  /** `compute_format_mix_extended`. */
  method ComputeExtended(nb: nat, target: real) returns (counts: array<nat>)
    ensures counts.Length == 10 && fresh(counts) && forall i | 0 <= i < 10 :: counts[i] == CountAt(nb, target, i)
  {
    hide Part;
    var fractions := ComputeFractions(target);
    counts := new nat[10](_ => 0);
    var used := 0;
    for i := 0 to 9
      invariant used == Used(nb, target, i)
      invariant forall k | 0 <= k < i :: counts[k] == CountAt(nb, target, k)
    {
      counts[i] := RoundPart(fractions[i], nb);
      used := used + counts[i];
    }
    counts[9] := if nb - used < 0 then 0 else nb - used;
  }

  method RoundPart(f: real, nb: nat) returns (c: nat)
    requires 0.0 <= f <= 1.0
    ensures c == Part(f, nb)
  {
    MulNonNegative(f, nb as real);
    c := Round(f * nb as real);
  }

  method ComputeFractions(target: real) returns (fractions: seq<real>)
    ensures |fractions| == 10 && forall i | 0 <= i < 10 :: fractions[i] == Fraction(target, i)
  {
    fractions := seq(10, _ => 0.0);
    if target >= 32.0 {
      fractions := fractions[9 := 1.0];
    } else if target <= 1.0 {
      fractions := fractions[0 := 1.0];
    } else {
      UpperFound(target, 1);
      var upper := 1;
      while upper < 10 && LADDER[upper] < target
        invariant 1 <= upper <= 10 && UpperFrom(target, upper) == UpperFrom(target, 1)
        decreases 10 - upper
      {
        upper := upper + 1;
      }
      var lower := upper - 1;
      LadderRises(lower, upper);
      var range := LADDER[upper] - LADDER[lower];
      var ratioUpper := (target - LADDER[lower]) / range;
      assert ratioUpper == Ratio(target, upper);
      hide Ratio;
      fractions := fractions[lower := 1.0 - ratioUpper][upper := ratioUpper];
    }
  }

  /** The seven counts of the interface the quantizers use. */
  datatype Mix = Mix(o32: nat, o16: nat, o8: nat, o4: nat, o2: nat, sp: nat, o1: nat)

  function Alloc(m: Mix): nat { m.o32 + m.o16 + m.o8 + m.o4 + m.o2 + m.sp + m.o1 }

  /** Ten rungs folded into the seven counts. */
  function MixFor(nb: nat, target: real): Mix {
    Mix(CountAt(nb, target, 8) + CountAt(nb, target, 9), CountAt(nb, target, 7),
        CountAt(nb, target, 5) + CountAt(nb, target, 6), CountAt(nb, target, 3) + CountAt(nb, target, 4),
        CountAt(nb, target, 1) + CountAt(nb, target, 2), 0, CountAt(nb, target, 0))
  }

  method ComputeFormatMix(nb: nat, target: real) returns (m: Mix)
    ensures m == MixFor(nb, target)
  {
    hide CountAt;
    var c := ComputeExtended(nb, target);
    m := Mix(c[8] + c[9], c[7], c[5] + c[6], c[3] + c[4], c[1] + c[2], 0, c[0]);
  }

  // ----- What the counts are

  /** A share of the blocks that lies halfway between two counts. */
  predicate Halfway(f: real, nb: nat) {
    Times(f, nb as real) - Times(f, nb as real).Floor as real == 0.5
  }

  /** The share and its complement are rounded apart: together they are all blocks, or one
      more when both are halfway. */
  lemma PartsOfWhole(f: real, nb: nat)
    requires 0.0 <= f <= 1.0
    ensures Part(f, nb) + Part(1.0 - f, nb) == nb + if Halfway(f, nb) then 1 else 0
    ensures Part(f, nb) <= nb && Part(0.0, nb) == 0 && Part(1.0, nb) == nb
    ensures Halfway(1.0 - f, nb) == Halfway(f, nb)
  {
    var x, y := Times(f, nb as real), Times(1.0 - f, nb as real);
    MulNonNegative(f, nb as real);
    MulNonNegative(1.0 - f, nb as real);
    assert (1.0 - f) * nb as real == nb as real - f * nb as real;
    assert x + y == nb as real;
    hide Times;
    Floors(x, y, nb);
    assert Times(0.0, nb as real) == 0.0 && Times(1.0, nb as real) == nb as real by { UnitTimes(nb as real); }
  }

  lemma UnitTimes(x: real)
    ensures Times(0.0, x) == 0.0 && Times(1.0, x) == x
  {
  }

  lemma Floors(x: real, y: real, nb: nat)
    requires x >= 0.0 && y >= 0.0 && x + y == nb as real
    ensures Round(x) + Round(y) == nb + if x - x.Floor as real == 0.5 then 1 else 0
    ensures 0 <= Round(x) <= nb && (y - y.Floor as real == 0.5 <==> x - x.Floor as real == 0.5)
  {
    var k := x.Floor;
    var e := x - k as real;
    hide Round;
    RoundIs(x, if e < 0.5 then k else k + 1);
    RoundIs(y, if e <= 0.5 then nb - k else nb - k - 1);
    FloorIs(y, if e == 0.0 then nb - k else nb - k - 1);
  }

  lemma FloorIs(x: real, k: int)
    requires k as real <= x < k as real + 1.0
    ensures x.Floor == k
  {
  }

  lemma RoundIs(x: real, k: int)
    requires x >= 0.0 && k as real - 0.5 <= x < k as real + 0.5
    ensures Round(x) == k
  {
    FloorIs(x + 0.5, k);
  }
}
