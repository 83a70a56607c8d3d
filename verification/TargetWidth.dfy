/** How the width that `mix_quantize_dequantize` achieves follows the target it is given. The
    blocks planned for more than twelve bits get no format of their own: they fall to the
    lowest tier. */
module TargetWidth {
  import B = Bits
  import opened FormatMix
  import opened Importance
  import opened Reals

  /** A share of the blocks rounded to the nearest count, halves down. */
  function HalfDown(f: real, nb: nat): (c: nat)
    requires 0.0 <= f <= 1.0
    ensures c as real - 0.5 < Times(f, nb as real) <= c as real + 0.5
    ensures c == Part(f, nb) - if Halfway(f, nb) then 1 else 0
    ensures c <= nb
  {
    MulNonNegative(f, nb as real);
    RoundedBetween(Times(f, nb as real));
    PartsOfWhole(f, nb);
    Part(f, nb) - if Halfway(f, nb) then 1 else 0
  }

  lemma RoundedBetween(x: real)
    requires x >= 0.0
    ensures var k := Round(x) - if x - x.Floor as real == 0.5 then 1 else 0;
            k >= 0 && k as real - 0.5 < x <= k as real + 0.5
  {
    var k := x.Floor;
    hide Round;
    RoundIs(x, if x - k as real < 0.5 then k else k + 1);
  }

  lemma HalfDownMonotone(f: real, g: real, nb: nat)
    requires 0.0 <= f <= g <= 1.0
    ensures HalfDown(f, nb) <= HalfDown(g, nb)
  {
    assert Times(f, nb as real) <= Times(g, nb as real) by { ProductBetween(f, f, g, nb as real); }
  }

  /** The target lies halfway between two counts of eight-bit blocks. */
  predicate Tie(nb: nat, target: real) { 6.0 < target <= 8.0 && Halfway((target - 6.0) / 2.0, nb) }

  /** Blocks that get eight bits. */
  function Top8(nb: nat, target: real): (c: nat)
    ensures c <= nb
  {
    if target <= 6.0 then 0
    else if target <= 8.0 then HalfDown((target - 6.0) / 2.0, nb)
    else if target <= 12.0 then nb
    else if target < 16.0 then HalfDown((16.0 - target) / 4.0, nb)
    else 0
  }

  /** Blocks that get four bits or eight. */
  function Top(nb: nat, target: real): (c: nat)
    ensures c <= nb
  {
    if target <= 3.0 then 0
    else if target <= 4.0 then HalfDown(target - 3.0, nb)
    else if target <= 12.0 then
      TieNeedsBlocks(nb, target);
      nb - if Tie(nb, target) then 1 else 0
    else if target < 16.0 then HalfDown((16.0 - target) / 4.0, nb)
    else 0
  }

  lemma TieNeedsBlocks(nb: nat, target: real)
    ensures Tie(nb, target) ==> nb > 0
  {
  }

  // ----- The planned counts, scaled down where needed, are these

  lemma {:induction false} UsedIs(nb: nat, target: real, u: nat, n: nat)
    requires 1.0 < target < 32.0 && 1 <= u <= 9 && UpperFrom(target, 1) == u && n <= 9
    requires 0.0 <= Ratio(target, u) <= 1.0
    ensures Used(nb, target, n) == (if u - 1 < n then Part(1.0 - Ratio(target, u), nb) else 0)
                                   + if u < n then Part(Ratio(target, u), nb) else 0
  {
    hide Part, Ratio;
    PartsOfWhole(0.0, nb);
    if n > 0 {
      UsedIs(nb, target, u, n - 1);
    }
  }

  /** Only the two rungs around the target get blocks. */
  lemma RungCounts(nb: nat, target: real, u: nat)
    requires 1.0 < target < 32.0 && 1 <= u <= 9 && LADDER[u - 1] < target <= LADDER[u]
    ensures 0.0 <= Ratio(target, u) <= 1.0
    ensures forall i | 0 <= i < 9 ::
              CountAt(nb, target, i) == if i == u - 1 then Part(1.0 - Ratio(target, u), nb)
                                        else if i == u then Part(Ratio(target, u), nb) else 0
    ensures CountAt(nb, target, 9) == if u == 9 then nb - Part(1.0 - Ratio(target, u), nb) else 0
    ensures Alloc(MixFor(nb, target)) == nb + if u < 9 && Halfway(Ratio(target, u), nb) then 1 else 0
  {
    UpperFromIs(target, 1, u);
    RatioInUnit(target, u);
    UsedIs(nb, target, u, 9);
    PartsOfWhole(Ratio(target, u), nb);
    PartsOfWhole(1.0 - Ratio(target, u), nb);
    PartsOfWhole(0.0, nb);
    hide Part, Ratio, Halfway;
  }

  /** One block too many is taken from each count that has one. */
  lemma ScaledByOne(x: nat, nb: nat)
    requires x <= nb + 1
    ensures Scale(x, nb, nb + 1) == if x == 0 then 0 else x - 1
  {
    hide Scale;
    ScaleFits(x, nb, nb + 1);
    var c := Scale(x, nb, nb + 1);
    assert (nb + 1) * (x - 1) == x * nb + x - (nb + 1);
    assert (nb + 1) * (c - (x - 1)) == (nb + 1) * c - (nb + 1) * (x - 1);
    B.MulGrows(nb + 1, c - (x - 1));
  }

  lemma TopRungs(nb: nat, target: real, o8: nat, o4: nat, tie: bool)
    requires MixFor(nb, target).o8 == o8 && MixFor(nb, target).o4 == o4 && o8 <= nb + 1 && o4 <= nb + 1
    requires Alloc(MixFor(nb, target)) == nb + if tie then 1 else 0
    ensures TopCounts(MixFor(nb, target), nb)
         == if tie then (if o8 == 0 then 0 else o8 - 1, if o4 == 0 then 0 else o4 - 1) else (o8, o4)
  {
    hide Scale, MixFor, Alloc;
    ScaledByOne(o8, nb);
    ScaledByOne(o4, nb);
  }

  /** The counts the assignment works with, for every number of blocks and every target. */
  lemma CountsAre(nb: nat, target: real)
    ensures Top8(nb, target) <= Top(nb, target)
    ensures TopCounts(MixFor(nb, target), nb) == (Top8(nb, target), Top(nb, target) - Top8(nb, target))
  {
    if target <= 1.0 || target >= 32.0 {
      EndCounts(nb, target);
    } else if target <= 4.0 {
      LowCounts(nb, target);
    } else if target <= 6.0 {
      FourBitCounts(nb, target);
    } else if target <= 8.0 {
      MiddleCounts(nb, target);
    } else if target <= 12.0 {
      EightBitCounts(nb, target);
    } else if target <= 16.0 {
      FallingCounts(nb, target);
    } else {
      LostCounts(nb, target);
    }
  }

  lemma EndCounts(nb: nat, target: real)
    requires target <= 1.0 || target >= 32.0
    ensures TopCounts(MixFor(nb, target), nb) == (0, 0)
  {
    PartsOfWhole(0.0, nb);
    EndUsed(nb, target, 9);
    hide Part, Used;
    assert MixFor(nb, target).o8 == 0 && MixFor(nb, target).o4 == 0;
    assert Alloc(MixFor(nb, target)) == nb;
  }

  lemma {:induction false} EndUsed(nb: nat, target: real, n: nat)
    requires (target <= 1.0 || target >= 32.0) && n <= 9
    ensures Used(nb, target, n) == if target <= 1.0 && n > 0 then nb else 0
  {
    PartsOfWhole(0.0, nb);
    hide Part;
    if n > 0 { EndUsed(nb, target, n - 1); }
  }

  lemma LowCounts(nb: nat, target: real)
    requires 1.0 < target <= 4.0
    ensures Top8(nb, target) <= Top(nb, target)
    ensures TopCounts(MixFor(nb, target), nb) == (Top8(nb, target), Top(nb, target) - Top8(nb, target))
  {
    hide Part, Halfway, CountAt, Alloc, TopCounts;
    var u := if target <= 2.0 then 1 else if target <= 3.0 then 2 else 3;
    RungCounts(nb, target, u);
    var r := Ratio(target, u);
    PartsOfWhole(r, nb);
    assert u == 3 ==> r == target - 3.0;
    hide Ratio;
    TopRungs(nb, target, 0, if u == 3 then Part(r, nb) else 0, Halfway(r, nb));
    hide MixFor;
  }

  lemma FourBitCounts(nb: nat, target: real)
    requires 4.0 < target <= 6.0
    ensures Top8(nb, target) <= Top(nb, target)
    ensures TopCounts(MixFor(nb, target), nb) == (Top8(nb, target), Top(nb, target) - Top8(nb, target))
  {
    hide Part, Halfway, CountAt, Alloc, TopCounts;
    RungCounts(nb, target, 4);
    var r := Ratio(target, 4);
    PartsOfWhole(r, nb);
    PartsOfWhole(1.0 - r, nb);
    hide Ratio;
    TopRungs(nb, target, 0, Part(r, nb) + Part(1.0 - r, nb), Halfway(r, nb));
    hide MixFor;
  }

  lemma MiddleCounts(nb: nat, target: real)
    requires 6.0 < target <= 8.0
    ensures Top8(nb, target) <= Top(nb, target)
    ensures TopCounts(MixFor(nb, target), nb) == (Top8(nb, target), Top(nb, target) - Top8(nb, target))
  {
    hide Part, Halfway, CountAt, Alloc, TopCounts;
    RungCounts(nb, target, 5);
    var r := Ratio(target, 5);
    PartsOfWhole(r, nb);
    PartsOfWhole(1.0 - r, nb);
    assert r == (target - 6.0) / 2.0;
    hide Ratio;
    TopRungs(nb, target, Part(r, nb), Part(1.0 - r, nb), Halfway(r, nb));
    assert Tie(nb, target) == Halfway(r, nb) && HalfDown(r, nb) <= nb;
    hide MixFor;
  }

  lemma EightBitCounts(nb: nat, target: real)
    requires 8.0 < target <= 12.0
    ensures Top8(nb, target) <= Top(nb, target)
    ensures TopCounts(MixFor(nb, target), nb) == (Top8(nb, target), Top(nb, target) - Top8(nb, target))
  {
    hide Part, Halfway, CountAt, Alloc, TopCounts;
    RungCounts(nb, target, 6);
    var r := Ratio(target, 6);
    PartsOfWhole(r, nb);
    PartsOfWhole(1.0 - r, nb);
    hide Ratio;
    TopRungs(nb, target, Part(r, nb) + Part(1.0 - r, nb), 0, Halfway(r, nb));
    hide MixFor;
  }

  lemma FallingCounts(nb: nat, target: real)
    requires 12.0 < target <= 16.0
    ensures Top8(nb, target) <= Top(nb, target)
    ensures TopCounts(MixFor(nb, target), nb) == (Top8(nb, target), Top(nb, target) - Top8(nb, target))
  {
    hide Part, Halfway, CountAt, Alloc, TopCounts;
    RungCounts(nb, target, 7);
    var r := Ratio(target, 7);
    PartsOfWhole(r, nb);
    PartsOfWhole(1.0 - r, nb);
    PartsOfWhole(0.0, nb);
    assert 1.0 - r == (16.0 - target) / 4.0;
    hide Ratio;
    TopRungs(nb, target, Part(1.0 - r, nb), 0, Halfway(r, nb));
    assert HalfDown(1.0 - r, nb) <= nb;
    hide MixFor;
  }

  lemma LostCounts(nb: nat, target: real)
    requires 16.0 < target < 32.0
    ensures Top8(nb, target) <= Top(nb, target)
    ensures TopCounts(MixFor(nb, target), nb) == (Top8(nb, target), Top(nb, target) - Top8(nb, target))
  {
    hide Part, Halfway, CountAt, Alloc, TopCounts;
    var u := if target <= 24.0 then 8 else 9;
    RungCounts(nb, target, u);
    hide Ratio;
    TopRungs(nb, target, 0, 0, u < 9 && Halfway(Ratio(target, u), nb));
    hide MixFor;
  }

  // ----- A larger target

  /** No format of a higher tier is narrower. */
  predicate Ordered(fs: Formats) { fs.rest.bpw <= fs.f4.bpw <= fs.f8.bpw }

  /** `assign` is what the loops make of `order` for this target. */
  predicate Planned(assign: seq<Tier>, order: seq<nat>, target: real) {
    Assigned(assign, order, Top8(|order|, target), Top(|order|, target) - Top8(|order|, target))
  }

  /** The procedure's assignment is the planned one. */
  lemma AssignmentIsPlanned(assign: seq<Tier>, order: seq<nat>, target: real)
    ensures var (o8, o4) := TopCounts(MixFor(|order|, target), |order|);
            Assigned(assign, order, o8, o4) <==> Planned(assign, order, target)
  {
    CountsAre(|order|, target);
    hide TopCounts, MixFor;
  }

  lemma Top8Order(nb: nat, t: real, t': real)
    requires t <= t' && Top(nb, t) <= Top(nb, t')
    ensures Top8(nb, t) <= Top8(nb, t')
  {
    CountsAre(nb, t);
    hide TopCounts, MixFor, HalfDown;
    if 6.0 < t && t' <= 8.0 {
      HalfDownMonotone((t - 6.0) / 2.0, (t' - 6.0) / 2.0, nb);
    }
  }

  lemma {:induction false} BitsMonotone(fs: Formats, a: seq<Tier>, a': seq<Tier>, n: nat)
    requires |a| == |a'| && n <= |a| * BSZ
    requires forall b | 0 <= b < |a| :: FormatOf(fs, a[b]).bpw <= FormatOf(fs, a'[b]).bpw
    ensures Bits(fs, a, n) <= Bits(fs, a', n)
  {
    hide FormatOf;
    if n > 0 { BitsMonotone(fs, a, a', n - 1); }
  }

  /** One block that got narrower, with the others no wider. */
  lemma {:induction false} BitsStrict(fs: Formats, a: seq<Tier>, a': seq<Tier>, n: nat, b: nat)
    requires |a| == |a'| && b < |a| && b * BSZ < n <= |a| * BSZ
    requires forall c | 0 <= c < |a| :: FormatOf(fs, a'[c]).bpw <= FormatOf(fs, a[c]).bpw
    requires FormatOf(fs, a'[b]).bpw < FormatOf(fs, a[b]).bpw
    ensures Bits(fs, a', n) < Bits(fs, a, n)
  {
    hide FormatOf;
    if b * BSZ < n - 1 {
      BitsStrict(fs, a, a', n - 1, b);
    } else {
      assert (n - 1) / BSZ == b;
      BitsMonotone(fs, a', a, n - 1);
    }
  }

  /** Blocks of the given order, all of them used. */
  predicate Fills(n: nat, nb: nat) { n <= nb * BSZ && Blocks(n) == nb }

  lemma WidthsRise(fs: Formats, order: seq<nat>, a: seq<Tier>, a': seq<Tier>, t: real, t': real, n: nat)
    requires t <= t' && Planned(a, order, t) && Planned(a', order, t') && Fills(n, |order|) && Ordered(fs)
    requires Top(|order|, t) <= Top(|order|, t')
    ensures Bits(fs, a, n) <= Bits(fs, a', n)
  {
    var nb := |order|;
    CountsAre(nb, t);
    CountsAre(nb, t');
    Top8Order(nb, t, t');
    hide TopCounts, MixFor, Top, Top8;
    forall b | 0 <= b < nb
      ensures FormatOf(fs, a[b]).bpw <= FormatOf(fs, a'[b]).bpw
    {
      assert b in order;
      var k :| 0 <= k < nb && order[k] == b;
    }
    BitsMonotone(fs, a, a', n);
  }

  /** Four and eight bits cost one, the lowest tier nothing. */
  const STEEP: Formats := Formats(Format(1.0), Format(1.0), Format(0.0))

  lemma WidthsFall(order: seq<nat>, a: seq<Tier>, a': seq<Tier>, t: real, t': real, n: nat)
    requires Planned(a, order, t) && Planned(a', order, t') && Fills(n, |order|)
    requires Top(|order|, t) > Top(|order|, t')
    ensures Ordered(STEEP) && Bits(STEEP, a', n) < Bits(STEEP, a, n)
  {
    var nb := |order|;
    CountsAre(nb, t);
    CountsAre(nb, t');
    hide TopCounts, MixFor, Top8;
    var top := Top(nb, t');
    assert Top(nb, t) <= nb;
    hide Top;
    forall b | 0 <= b < nb
      ensures FormatOf(STEEP, a'[b]).bpw <= FormatOf(STEEP, a[b]).bpw
    {
      assert b in order;
      var k :| 0 <= k < nb && order[k] == b;
    }
    var b := order[top];
    BlockFits(b, n);
    BitsStrict(STEEP, a, a', n, b);
  }

  /** For the same data a larger target gives no smaller width, whatever the widths of the
      formats as long as higher tiers are no narrower, exactly if it does not lower the number
      of blocks with four bits or more. */
  lemma LargerTargetIff(order: seq<nat>, a: seq<Tier>, a': seq<Tier>, t: real, t': real, n: nat)
    requires t <= t' && Planned(a, order, t) && Planned(a', order, t') && Fills(n, |order|)
    ensures (forall fs | Ordered(fs) :: Bits(fs, a, n) <= Bits(fs, a', n))
       <==> Top(|order|, t) <= Top(|order|, t')
  {
    if Top(|order|, t) <= Top(|order|, t') {
      forall fs | Ordered(fs)
        ensures Bits(fs, a, n) <= Bits(fs, a', n)
      {
        WidthsRise(fs, order, a, a', t, t', n);
      }
    } else {
      WidthsFall(order, a, a', t, t', n);
      assert Ordered(STEEP);
    }
  }

  /** Up to a target of 12 that is always so, unless the larger target is a tie. */
  lemma UpToTwelve(nb: nat, t: real, t': real)
    requires t <= t' <= 12.0 && !Tie(nb, t')
    ensures Top(nb, t) <= Top(nb, t')
  {
    hide HalfDown;
    if 3.0 < t && t' <= 4.0 {
      HalfDownMonotone(t - 3.0, t' - 3.0, nb);
    }
  }

  /** Beyond 12 the number falls, and from 16 on nothing is left of it. */
  lemma BeyondTwelve(nb: nat, t: real, t': real)
    requires 12.0 <= t <= t'
    ensures Top(nb, t') <= Top(nb, t) && Top(nb, 12.0) == nb && (t' >= 16.0 ==> Top(nb, t') == 0)
  {
    hide HalfDown;
    if 12.0 < t && t' < 16.0 {
      HalfDownMonotone((16.0 - t') / 4.0, (16.0 - t) / 4.0, nb);
    }
  }

  /** A single block gets four bits at target 6 and the lowest tier at target 7, a tie. */
  lemma OneBlockAtSeven()
    ensures Top(1, 6.0) == 1 && Tie(1, 7.0) && Top(1, 7.0) == 0
  {
  }

  // ----- The formats of the registry

  /** `Q_8`, `Q_4` and, as no single format is called `QG1sparse`, `Q_2`. */
  const REGISTRY: Formats := Formats(Format(8.0), Format(4.0), Format(2.0))

  /** The widths of the first m blocks, added up. */
  function BlockBits(fs: Formats, a: seq<Tier>, m: nat): real
    requires m <= |a|
  {
    if m == 0 then 0.0 else BlockBits(fs, a, m - 1) + FormatOf(fs, a[m - 1]).bpw
  }

  lemma {:induction false} WholeBlockBits(fs: Formats, a: seq<Tier>, m: nat)
    requires m <= |a|
    ensures Bits(fs, a, m * BSZ) == 256.0 * BlockBits(fs, a, m)
  {
    hide Bits;
    if m == 0 {
      assert Bits(fs, a, 0) == 0.0 by { NoBits(fs, a); }
    } else {
      WholeBlockBits(fs, a, m - 1);
      BitsOfStretch(fs, a, m - 1, (m - 1) * BSZ, m * BSZ);
    }
  }

  lemma NoBits(fs: Formats, a: seq<Tier>)
    ensures Bits(fs, a, 0) == 0.0
  {
  }

  lemma {:induction false} BlockBitsByTier(a: seq<Tier>, m: nat)
    requires m <= |a|
    ensures |InTier(a[..m], Q8)| + |InTier(a[..m], Q4)| + |InTier(a[..m], Rest)| == m
    ensures BlockBits(REGISTRY, a, m)
         == 2.0 * m as real + 6.0 * |InTier(a[..m], Q8)| as real + 2.0 * |InTier(a[..m], Q4)| as real
  {
    if m == 0 {
      assert InTier(a[..0], Q8) == InTier(a[..0], Q4) == InTier(a[..0], Rest) == {};
    } else {
      BlockBitsByTier(a, m - 1);
      InTierStep(a, m, Q8);
      InTierStep(a, m, Q4);
      InTierStep(a, m, Rest);
    }
  }

  lemma InTierStep(a: seq<Tier>, m: nat, t: Tier)
    requires 0 < m <= |a|
    ensures |InTier(a[..m], t)| == |InTier(a[..m - 1], t)| + if a[m - 1] == t then 1 else 0
  {
    if a[m - 1] == t {
      assert InTier(a[..m], t) == InTier(a[..m - 1], t) + {m - 1};
    } else {
      assert InTier(a[..m], t) == InTier(a[..m - 1], t);
    }
  }

  lemma RegistryBits(order: seq<nat>, a: seq<Tier>, t: real)
    requires Planned(a, order, t)
    ensures var nb := |order|;
            Bits(REGISTRY, a, nb * BSZ) == 256.0 * (2.0 * nb as real + (2 * Top(nb, t) + 4 * Top8(nb, t)) as real)
  {
    var nb := |order|;
    hide Bits, InTier;
    CountsAre(nb, t);
    WholeBlockBits(REGISTRY, a, nb);
    BlockBitsByTier(a, nb);
    assert a[..nb] == a;
    TierSizes(a, order, Top8(nb, t), Top(nb, t) - Top8(nb, t));
    hide TopCounts, MixFor, Top, Top8, BlockBits;
  }

  /** The width achieved on whole blocks, as a function of the target alone: two bits for every
      block, two more with four bits or eight, another four with eight. */
  lemma WidthOfWholeBlocks(order: seq<nat>, a: seq<Tier>, t: real)
    requires Planned(a, order, t) && order != []
    ensures var nb := |order|;
            Bits(REGISTRY, a, nb * BSZ) / (nb * BSZ) as real
            == 2.0 + (2 * Top(nb, t) + 4 * Top8(nb, t)) as real / nb as real
  {
    var nb := |order|;
    RegistryBits(order, a, t);
    hide Bits, Top, Top8, Planned;
    Average(nb, 2 * Top(nb, t) + 4 * Top8(nb, t), 2.0 * nb as real + (2 * Top(nb, t) + 4 * Top8(nb, t)) as real);
  }

  lemma Average(nb: nat, extra: nat, bits: real)
    requires nb > 0 && bits == 2.0 * nb as real + extra as real
    ensures 256.0 * bits / (nb * BSZ) as real == 2.0 + extra as real / nb as real
  {
    var e := extra as real / nb as real;
    assert e * nb as real == extra as real;
    assert 256.0 * bits == (2.0 + e) * (nb * BSZ) as real;
    QuotientBetween(2.0 + e, 2.0 + e, 256.0 * bits, (nb * BSZ) as real);
  }

  /** With the formats of the registry and whole blocks, a larger target gives no smaller width
      exactly if it does not lower this sum. */
  lemma RegistryWidthIff(order: seq<nat>, a: seq<Tier>, a': seq<Tier>, t: real, t': real)
    requires Planned(a, order, t) && Planned(a', order, t') && order != []
    ensures var nb := |order|;
            (Bits(REGISTRY, a, nb * BSZ) <= Bits(REGISTRY, a', nb * BSZ))
            <==> Top(nb, t) + 2 * Top8(nb, t) <= Top(nb, t') + 2 * Top8(nb, t')
  {
    hide Bits, Top, Top8, Planned;
    RegistryBits(order, a, t);
    RegistryBits(order, a', t');
  }
}
