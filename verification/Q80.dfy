/** `rt_gguf_q80`: blocks of 32 weights whose scale, a binary32, is rounded through the half
    conversion before it is used. */
module Q80 {
  import opened BlockFormats
  import opened Common
  import opened Half
  import opened Reals
  import opened Shifts

  /** The step of a block: its scale after the trip through binary16. */
  function StepOf(scale: F32): real
    requires InRange(scale)
  {
    RoundTripIdempotent(scale);
    Real32(RoundTrip(scale))
  }

  /** `scale` is amax / 127 up to the rounding of one binary32 division. */
  ghost predicate IsQuotient(scale: F32, amax: real) {
    Finite32(scale) && !Negative32(scale)
    && AbsR(127.0 * Real32(scale) - amax) * 16777216.0 <= amax
  }

  /** The binary16 0x3C00 widens to the scale 1, which belongs to a largest weight of 127. */
  lemma OneIsQuotient(h: F16)
    requires h == 0x3C00
    ensures var one := ToSingle(h); InRange(one) && Exp32(one) >= 113 && IsQuotient(one, 127.0)
  {
    hide ToSingle, ToHalf, Mag16, Mag32, Low15, Shl, Exp32, Real32, InRange;
    OneFields(h);
    WidenedInRange(h);
    ToSingleIsExact(h);
    OneValue(ToSingle(h));
  }

  lemma WidenedInRange(h: F16)
    requires Finite16(h)
    ensures InRange(ToSingle(h))
  {
    hide ToSingle, ToHalf, Mag16, Mag32, Low15;
    ToSingleIsExact(h);
    ToHalfUndoesToSingle(h);
    OverflowExact(ToSingle(h));
  }

  lemma OneValue(x: F32)
    requires Finite32(x) && !Negative32(x) && Mag32(x) == Shl(1, 149)
    ensures Real32(x) == 1.0
  {
    hide Mag32, Shl;
    assert Val32(x) as real == Unit();
    hide Val32, Unit;
    Ratio(1, Unit(), Unit());
  }

  /** Quotients by a positive unit. */
  lemma Ratio(n: nat, v: real, u: real)
    requires u > 0.0 && v == n as real * u
    ensures v / u == n as real
  {
    QuotientBetween(n as real, n as real, v, u);
  }

  lemma QuotientSign(n: nat, u: real)
    requires u > 0.0
    ensures n as real / u >= 0.0 && (n as real / u == 0.0 <==> n == 0)
  {
    QuotientOrder(n as real, u, 0.0);
  }

  lemma OneFields(h: F16)
    requires h == 0x3C00
    ensures Finite16(h) && !Negative16(h) && Exp32(ToSingle(h)) == 127
    ensures Mag16(Low15(h)) == Shl(1, 149)
  {
    var ten := 10;
    ShlShl(1, ten, 139);
    assert Shl(1, ten) == 1024 by { hide Mag16; assert Shl(1, 4) == 16 && Shl(1, 8) == 256; }
  }

  /** Rounding to binary16 takes at most one part in 2048 off a positive scale in
      the normal range. */
  lemma StepError(scale: F32)
    requires !Negative32(scale) && InRange(scale) && Exp32(scale) >= 113
    ensures Real32(scale) > 0.0 && StepOf(scale) > 0.0
    ensures 2048.0 * (Real32(scale) - StepOf(scale)) <= Real32(scale)
  {
    RoundTripError(scale);
    RoundTripIdempotent(scale);
    NormalMagPositive(scale);
    hide RoundTrip, Mag32, Unit, InRange;
    ScaleDown(Val32(scale) as real, Val32(RoundTrip(scale)) as real, Unit(), Real32(scale), StepOf(scale));
  }

  /** In the normal range of binary16 the step undershoots amax / 127 by so little
      that 127 and a half of them still reach beyond amax. */
  lemma StepReaches(scale: F32, amax: real)
    requires IsQuotient(scale, amax) && InRange(scale) && Exp32(scale) >= 113
    ensures StepOf(scale) > 0.0 && amax < 127.5 * StepOf(scale)
  {
    hide Real32, StepOf, Exp32, InRange;
    StepError(scale);
    Reaches(Real32(scale), StepOf(scale), amax);
  }

  lemma Reaches(s: real, d: real, amax: real)
    requires s > 0.0 && 2048.0 * (s - d) <= s && AbsR(127.0 * s - amax) * 16777216.0 <= amax
    ensures amax < 127.5 * d
  {
  }

  lemma NormalMagPositive(x: F32)
    requires Finite32(x) && Exp32(x) >= 1
    ensures Mag32(x) > 0
  {
    ShlGrows(0x80_0000 + Mant32(x), Exp32(x) - 1);
  }

  lemma ScaleDown(v: real, v': real, u: real, s: real, d: real)
    requires u > 0.0 && s == v / u && d == v' / u && v > 0.0 && 2048.0 * (v - v') <= v
    ensures s > 0.0 && 2048.0 * (s - d) <= s && d > 0.0
  {
    assert v == s * u && v' == d * u;
    assert (s - 2048.0 * (s - d)) * u >= 0.0;
    SignOfProduct(s, u);
    SignOfProduct(s - 2048.0 * (s - d), u);
  }

  /** One block of `rt_gguf_q80`: with the scale in the normal range of binary16,
      no code is clamped and every reconstruction is within half a step. */
  lemma Q80Block(block: seq<real>, scale: F32, i: nat)
    requires i < |block| && IsQuotient(scale, AbsMax(block)) && InRange(scale) && Exp32(scale) >= 113
    ensures var d := StepOf(scale);
            && d > 0.0
            && -128 <= Round(block[i] / d) <= 127
            && 2.0 * AbsR(Stepped(block[i], d, -128, 127) - block[i]) <= d
  {
    var d := StepOf(scale);
    StepReaches(scale, AbsMax(block));
    assert AbsR(block[i]) <= AbsMax(block);
    WellSpanned(block[i], d);
  }

  lemma WellSpanned(w: real, d: real)
    requires d > 0.0 && AbsR(w) < 127.5 * d
    ensures -128 <= Round(w / d) <= 127
    ensures 2.0 * AbsR(Stepped(w, d, -128, 127) - w) <= d
  {
    assert SpansStrictly(w, d, -128, 127) && Spans(w, d, -128, 127);
    ClampInactiveIff(w, d, -128, 127);
    HalfStepIff(w, d, -128, 127);
  }

  /** 1.25 times 2^-24, below the normal range of binary16: it rounds to 2^-24. */
  const COARSE: F32 := 103 * 0x80_0000 + 0x20_0000

  lemma CoarseHalf()
    ensures Exp32(COARSE) == 103 && !Negative32(COARSE) && ToHalf(COARSE) == 1
  {
    assert Exp32(COARSE) == 103 && Mant32(COARSE) == 0x20_0000;
    ShrDivides(0xA0_0000);
    assert Shr(0xA0_0000, 13) == 1280;
    assert Shr(0xA0_0000, 18) == 40;
    assert Shr(0xA0_0000, 22) == 2 && Shr(0xA0_0000, 23) == 1;
  }

  lemma CoarseValues()
    ensures InRange(COARSE)
    ensures 4 * Val32(COARSE) == 5 * Val32(RoundTrip(COARSE)) > 0
  {
    CoarseHalf();
    OverflowExact(COARSE);
    InRangeExponent(COARSE);
    RoundTripValue(COARSE, Rounded(COARSE));
    hide RoundTrip, ToHalf, InRange;
    var u := Shl(1, 123);
    assert Rounded(COARSE) == 1 by { HalfFields(false, 1); }
    assert Mag16(1) == 4 * u by { ShlShl(1, 2, 123); FourFold(1); FourFold(u); ShlShl(1, 123, 2); }
    assert Mag32(COARSE) == 5 * u by { CoarseMagnitude(); }
    ShlGrows(1, 123);
  }

  lemma FourFold(a: nat)
    ensures Shl(a, 2) == 4 * a
  {
    assert Shl(a, 1) == 2 * a;
  }

  lemma CoarseMagnitude()
    ensures Mag32(COARSE) == 5 * Shl(1, 123)
  {
    assert Exp32(COARSE) == 103 && Mant32(COARSE) == 0x20_0000;
    ShlMultiplies(5);
    assert Shl(40960, 4) == 655360;
    assert Shl(40960, 8) == 0xA0_0000;
    ShlShl(5, 13, 8);
    ShlShl(5, 21, 102);
    ShlAdd(1, 4, 123);
    ShlAdd(2, 2, 123);
    ShlAdd(1, 1, 123);
  }

  lemma CoarseStep()
    ensures InRange(COARSE)
    ensures StepOf(COARSE) > 0.0 && 4.0 * Real32(COARSE) == 5.0 * StepOf(COARSE)
  {
    CoarseValues();
    RoundTripIdempotent(COARSE);
    hide RoundTrip, Val32, Unit, InRange;
    var v, v' := Val32(COARSE) as real, Val32(RoundTrip(COARSE)) as real;
    RatioScales(v, v', Unit(), Real32(COARSE), StepOf(COARSE));
  }

  lemma BeyondTheCodes(w: real, d: real)
    requires d > 0.0 && w > 127.5 * d
    ensures Round(w / d) > 127 && !Spans(w, d, -128, 127)
  {
    QuotientOrder(w, d, 127.5);
  }

  lemma RatioScales(v: real, v': real, u: real, s: real, d: real)
    requires u > 0.0 && s == v / u && d == v' / u && 4.0 * v == 5.0 * v' && v' > 0.0
    ensures 4.0 * s == 5.0 * d && d > 0.0
  {
    assert v == s * u && v' == d * u;
    assert (4.0 * s - 5.0 * d) * u == 0.0;
    SignOfProduct(4.0 * s - 5.0 * d, u);
    SignOfProduct(d, u);
  }

  // ----- The arrays

  /** The binary32 scale of a block; `quotient` is the binary32 division by 127. */
  function Q80Scale(block: seq<real>, quotient: real -> F32): F32 {
    var amax := AbsMax(block);
    if amax > 0.0 then quotient(amax) else 0
  }

  function ScaleAt(w: seq<real>, quotient: real -> F32, i: nat): F32
    requires i < |w|
  {
    Q80Scale(Block(w, i / 32 * 32, 32), quotient)
  }

  /** What position i comes back as; None, not a number, where the scale overflows to infinity
      and 0 times infinity is stored. */
  function Q80At(w: seq<real>, quotient: real -> F32, i: nat): Option<real>
    requires i < |w|
  {
    var scale := ScaleAt(w, quotient, i);
    if InRange(scale) then Some(Stepped(w[i], StepOf(scale), -128, 127)) else None
  }

  lemma FiniteTripIff(x: F32)
    ensures Finite32(RoundTrip(x)) <==> InRange(x)
    ensures InRange(x) ==> StepOf(x) == Real32(RoundTrip(x))
  {
    if InRange(x) {
      RoundTripIdempotent(x);
    } else {
      if Finite32(x) { OverflowExact(x); }
      InfinityStays(ToHalf(x));
    }
  }

  lemma InfinityStays(h: F16)
    requires !Finite16(h)
    ensures !Finite32(ToSingle(h))
  {
    assert Exp32(ToSingle(h)) == 255;
  }

  /** `rt_gguf_q80`. */
  method RtQ80(w: seq<real>, quotient: real -> F32) returns (out: array<Option<real>>)
    ensures out.Length == |w|
    ensures forall i | 0 <= i < |w| :: out[i] == Q80At(w, quotient, i)
  {
    hide AbsMax, Q80At;
    out := new Option<real>[|w|](_ => None);
    var start := 0;
    while start < |w|
      invariant start % 32 == 0
      invariant forall i | 0 <= i < start && i < |w| :: out[i] == Q80At(w, quotient, i)
      decreases |w| - start
    {
      var end := if start + 32 < |w| then start + 32 else |w|;
      var amax := FindAbsMax(w, start, end);
      var scale := if amax > 0.0 then quotient(amax) else 0;
      Fill(w, quotient, start, end, scale, out);
      start := start + 32;
    }
  }

  method Fill(w: seq<real>, quotient: real -> F32, start: nat, end: nat, scale: F32, out: array<Option<real>>)
    requires out.Length == |w| && start < |w| && start % 32 == 0
    requires end == (if start + 32 < |w| then start + 32 else |w|) && scale == Q80Scale(w[start..end], quotient)
    modifies out
    ensures forall i | start <= i < end :: out[i] == Q80At(w, quotient, i)
    ensures forall i | 0 <= i < start :: out[i] == old(out[i])
  {
    hide InRange, StepOf, Real32, Stepped, Q80Scale, RoundTrip;
    var back := RoundTrip(scale);
    FiniteTripIff(scale);
    for i := start to end
      invariant forall j | start <= j < i :: out[j] == Q80At(w, quotient, j)
      invariant forall j | 0 <= j < start :: out[j] == old(out[j])
    {
      assert i / 32 * 32 == start;
      assert ScaleAt(w, quotient, i) == scale;
      out[i] := if Finite32(back) then Some(Stepped(w[i], Real32(back), -128, 127)) else None;
    }
  }

  /** A block of zeros comes back as zeros, whatever the division by 127 does. */
  lemma ZerosStay(w: seq<real>, quotient: real -> F32, i: nat)
    requires i < |w| && forall j | i / 32 * 32 <= j < i / 32 * 32 + 32 && j < |w| :: w[j] == 0.0
    ensures Q80At(w, quotient, i) == Some(0.0)
  {
    var block := Block(w, i / 32 * 32, 32);
    assert AbsMax(block) == 0.0;
    assert ScaleAt(w, quotient, i) == 0;
    ZeroInRange(0);
    hide InRange, StepOf;
    ZeroStepped(StepOf(0));
  }

  lemma ZeroInRange(x: F32)
    requires x == 0
    ensures InRange(x)
  {
    assert Exp32(x) == 0 && Mant32(x) == 0;
    hide Exp32, Mant32;
    GapPositive(0);
    Mag16Monotone(0, 0x7BFF);
    Mag16Monotone(0x7BFF, 0x7C00);
  }

  lemma ZeroStepped(d: real)
    ensures Stepped(0.0, d, -128, 127) == 0.0
  {
  }

  /** What a position comes back as depends on its own block of 32 alone. */
  lemma Q80BlocksAreIndependent(w: seq<real>, w': seq<real>, quotient: real -> F32, i: nat)
    requires i < |w| && SameBlock(w, w', i, 32)
    ensures Q80At(w, quotient, i) == Q80At(w', quotient, i)
  {
    hide InRange, StepOf, Stepped, AbsMax;
    SameBlocks(w, w', i, 32, i / 32);
  }

  /** The whole array, short tail included: wherever the block's scale is in the
      normal range of binary16, no clamp and half a step at most. */
  lemma Q80Error(w: seq<real>, quotient: real -> F32, i: nat)
    requires i < |w| && InRange(ScaleAt(w, quotient, i))
    requires IsQuotient(ScaleAt(w, quotient, i), AbsMax(Block(w, i / 32 * 32, 32)))
    requires Exp32(ScaleAt(w, quotient, i)) >= 113
    ensures var d := StepOf(ScaleAt(w, quotient, i));
            && d > 0.0
            && -128 <= Round(w[i] / d) <= 127
            && Q80At(w, quotient, i).Some?
            && 2.0 * AbsR(Q80At(w, quotient, i).value - w[i]) <= d
  {
    hide InRange, StepOf, Stepped, AbsMax, IsQuotient, Exp32, Round, AbsR;
    var start := i / 32 * 32;
    assert start <= i < start + 32;
    var block := Block(w, start, 32);
    assert block[i - start] == w[i];
    Q80Block(block, Q80Scale(block, quotient), i - start);
  }

  // ----- Exactly when

  /** The step in units of 2^-149. */
  lemma StepUnits(scale: F32)
    requires InRange(scale) && !Negative32(scale)
    ensures Exp32(scale) <= 142 && StepOf(scale) == Mag16(Rounded(scale)) as real / Unit()
    ensures StepOf(scale) >= 0.0 && (StepOf(scale) == 0.0 <==> Mag16(Rounded(scale)) == 0)
  {
    hide RoundTrip, Unit, Mag16, Rounded, InRange, Exp32, Negative32, Val32;
    RoundTripIdempotent(scale);
    InRangeExponent(scale);
    RoundTripValue(scale, Rounded(scale));
    QuotientSign(Mag16(Rounded(scale)), Unit());
  }

  /** Every position of every array, all-zero blocks and vanishing scales included: a weight
      comes back within half a step of the rounded scale exactly if it lies at most half a step
      beyond the extreme codes, and its code escapes the clamp exactly if it lies less than
      half a step beyond them; where the rounded scale is 0, only the weight 0 comes back. */
  lemma Q80WithinHalfStepIff(w: seq<real>, quotient: real -> F32, i: nat)
    requires i < |w| && InRange(ScaleAt(w, quotient, i)) && !Negative32(ScaleAt(w, quotient, i))
    ensures var d := StepOf(ScaleAt(w, quotient, i));
            && d >= 0.0 && Q80At(w, quotient, i).Some?
            && (2.0 * AbsR(Q80At(w, quotient, i).value - w[i]) <= d <==> -128.5 * d <= w[i] <= 127.5 * d)
            && (-128 <= Round(w[i] / Divisor(d)) <= 127 <==> -128.5 * Divisor(d) < w[i] < 127.5 * Divisor(d))
            && (d == 0.0 ==> Q80At(w, quotient, i) == Some(0.0) && (-128.5 * d <= w[i] <= 127.5 * d <==> w[i] == 0.0))
  {
    hide InRange, StepOf, Stepped, AbsMax, Round, AbsR, Divisor;
    var d := StepOf(ScaleAt(w, quotient, i));
    StepUnits(ScaleAt(w, quotient, i));
    HalfStepIff(w[i], d, -128, 127);
    ClampInactiveIff(w[i], d, -128, 127);
  }

  /** The rounded scale is 0 exactly below 2^-25, which is 2^124 units. */
  lemma StepVanishesIff(scale: F32)
    requires InRange(scale) && !Negative32(scale)
    ensures StepOf(scale) == 0.0 <==> Mag32(scale) < Shl(1, 124)
  {
    hide StepOf, Unit, Mag16, Mag32, InRange, Trunc, RoundBit, Shl, Exp32, Negative32;
    StepUnits(scale);
    Bracket(scale);
    LeastMagnitudes(Rounded(scale));
    LeastMagnitudes(Trunc(scale));
  }

  lemma LeastMagnitudes(k: nat)
    ensures Mag16(0) == 0 && Mag16(1) == 2 * Shl(1, 124) > 0
    ensures Mag16(k) == 0 <==> k == 0
    ensures k > 0 ==> Mag16(k) >= Mag16(1)
  {
    var one := 1;
    ShlZero(125);
    ShlGrows(one, 124);
    assert Mag16(one) == Shl(one, 125);
    hide Shl;
    if k > 0 { Mag16Monotone(one, k); }
  }

  // ----- Two arrays on which the half-step promise fails

  /** The division by 127 as far as one array needs it. */
  function Always(x: F32): real -> F32 { (amax: real) => x }

  function OneWeight(scale: F32): (w: seq<real>)
    requires Finite32(scale)
  {
    [127.0 * Real32(scale)]
  }

  lemma OneWeightBlock(scale: F32)
    requires Finite32(scale) && Real32(scale) > 0.0
    ensures AbsMax(Block(OneWeight(scale), 0, 32)) == 127.0 * Real32(scale)
    ensures ScaleAt(OneWeight(scale), Always(scale), 0) == scale
  {
    hide Real32;
    var w := OneWeight(scale);
    assert Block(w, 0, 32) == w;
    assert w[..0] == [];
    assert AbsMax(w) == w[0];
  }

  /** The weight 127 times 1.25 * 2^-24, in a block of its own: the scale is the exact
      quotient, it is rounded to 2^-24, the code is clamped and the weight comes back off by
      more than half a step. */
  lemma CoarseScaleFails()
    ensures var w, q := OneWeight(COARSE), Always(COARSE);
            && IsQuotient(ScaleAt(w, q, 0), AbsMax(Block(w, 0, 32)))
            && InRange(ScaleAt(w, q, 0))
            && Q80At(w, q, 0).Some?
            && 2.0 * AbsR(Q80At(w, q, 0).value - w[0]) > StepOf(ScaleAt(w, q, 0)) > 0.0
            && Round(w[0] / StepOf(ScaleAt(w, q, 0))) > 127
  {
    CoarseHalf();
    CoarseStep();
    hide InRange, StepOf, Real32, Stepped, AbsMax, Round, Exp32, Negative32, Block;
    OneWeightBlock(COARSE);
    var w := OneWeight(COARSE);
    Q80WithinHalfStepIff(w, Always(COARSE), 0);
    BeyondTheCodes(w[0], StepOf(COARSE));
  }

  /** 2^-26: it rounds to 0. */
  const FAINT: F32 := 101 * 0x80_0000

  lemma FaintStep()
    ensures Finite32(FAINT) && !Negative32(FAINT) && InRange(FAINT)
    ensures StepOf(FAINT) == 0.0 && Real32(FAINT) > 0.0
  {
    FaintFields();
    hide RoundTrip, ToHalf, Unit, Mag32, Mag16, Exp32, Negative32, Rounded;
    OverflowExact(FAINT);
    NormalMagPositive(FAINT);
    StepUnits(FAINT);
    QuotientSign(Mag32(FAINT), Unit());
  }

  lemma FaintFields()
    ensures Exp32(FAINT) == 101 && !Negative32(FAINT)
    ensures Finite16(ToHalf(FAINT)) && Mag16(Rounded(FAINT)) == 0
  {
    assert Exp32(FAINT) == 101;
    ShlZero(125);
  }

  /** The weight 127 * 2^-26, in a block of its own: the scale is the exact quotient, it is
      rounded to 0, and the weight comes back as 0. */
  lemma FaintScaleFails()
    ensures var w, q := OneWeight(FAINT), Always(FAINT);
            && IsQuotient(ScaleAt(w, q, 0), AbsMax(Block(w, 0, 32)))
            && InRange(ScaleAt(w, q, 0)) && StepOf(ScaleAt(w, q, 0)) == 0.0
            && Q80At(w, q, 0) == Some(0.0) && w[0] > 0.0
  {
    FaintStep();
    hide InRange, StepOf, Real32, Stepped, AbsMax, Exp32, Negative32, Block;
    OneWeightBlock(FAINT);
    Q80WithinHalfStepIff(OneWeight(FAINT), Always(FAINT), 0);
  }
}
