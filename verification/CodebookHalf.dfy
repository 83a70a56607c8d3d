/** The conversions of `CodebookQ4` between binary32 and binary16, through which every codeword
    is stored and read: bit patterns and exact magnitudes as in `Half`, whose conversions round
    and normalise differently. */
module CodebookHalf {
  import opened Half
  import opened Shifts

  /** `float_to_half`. */
  function Narrow(x: F32): F16 {
    var sign := if Negative32(x) then 0x8000 else 0;
    var exp := Exp32(x) - 127 + 15;
    if exp <= 0 then
      if exp < -10 then sign
      else
        TwoShifts(x);
        sign + Shr(Shr(Mant32(x) + 0x80_0000, 1 - exp), 13)
    else if exp >= 31 then sign + 0x7C00 + (if Mant32(x) != 0 then 0x200 else 0)
    else
      ShrDivides(Mant32(x));
      sign + exp * 1024 + Shr(Mant32(x), 13)
  }

  /** The normalising loop: the shifted mantissa and what is left of the shift. */
  function Shifted(mant: nat, shift: int): (nat, int)
    requires 0 < mant
    decreases 1024 - mant
  {
    if mant >= 1024 then (mant, shift) else Shifted(2 * mant, shift - 1)
  }

  /** `half_to_float`; the shifted mantissa is put into 16 bits. */
  function Widen(h: F16): F32 {
    var sign := if Negative16(h) then 0x8000_0000 else 0;
    var exp := Exp16(h);
    var mant := Mant16(h);
    if exp == 0 then
      if mant == 0 then sign
      else
        ShiftedIsNormalized(mant, 10, 113);
        NormalizedRange(mant);
        var (m, shift) := Shifted(mant, 10);
        sign + (1 - shift + 127 - 15) * 0x80_0000 + m % 1024 * 8192 % 0x1_0000
    else if exp == 31 then sign + 0x7F80_0000 + mant * 8192
    else sign + (exp - 15 + 127) * 0x80_0000 + mant * 8192
  }

  /** `half_to_float`, as the code computes it. */
  method HalfToFloat(h: F16) returns (x: F32)
    ensures x == Widen(h)
  {
    var sign := h / 0x8000 * 0x8000_0000;
    var exp := h / 1024 % 32;
    var mant := h % 1024;
    assert sign == (if Negative16(h) then 0x8000_0000 else 0) && exp == Exp16(h) && mant == Mant16(h);
    hide Negative16, Exp16, Mant16;
    if exp == 0 {
      if mant == 0 {
        x := sign;
      } else {
        var shift: int := 10;
        ShiftedIsNormalized(mant, 10, 113);
        NormalizedRange(mant);
        while mant < 1024
          invariant mant > 0 && Shifted(mant, shift) == Shifted(Mant16(h), 10)
          decreases 1024 - mant
        {
          mant := 2 * mant;
          shift := shift - 1;
        }
        exp := 1 - shift + 127 - 15;
        mant := mant % 1024 * 8192 % 0x1_0000;
        x := sign + exp * 0x80_0000 + mant;
      }
    } else if exp == 31 {
      x := sign + 0x7F80_0000 + mant * 8192;
    } else {
      x := sign + (exp - 15 + 127) * 0x80_0000 + mant * 8192;
    }
  }

  lemma {:induction false} ShrShr(m: nat, j: nat, k: nat)
    ensures Shr(Shr(m, j), k) == Shr(m, j + k)
  {
    if k > 0 { ShrShr(m, j, k - 1); }
  }

  lemma TwoShifts(x: F32)
    requires 102 <= Exp32(x) <= 112
    ensures var m := Mant32(x) + 0x80_0000;
            Shr(Shr(m, 113 - Exp32(x)), 13) == Shr(m, 126 - Exp32(x)) < 1024
  {
    ShrShr(Mant32(x) + 0x80_0000, 113 - Exp32(x), 13);
    ShrSmall(Mant32(x) + 0x80_0000, 126 - Exp32(x));
  }

  lemma {:induction false} ShiftedIsNormalized(mant: nat, shift: int, exp: int)
    requires 0 < mant
    ensures Shifted(mant, shift).0 == Normalized(mant, exp).0
    ensures Shifted(mant, shift).1 - shift == Normalized(mant, exp).1 - exp
    decreases 1024 - mant
  {
    if mant < 1024 { ShiftedIsNormalized(2 * mant, shift - 1, exp - 1); }
  }

  // ----- Narrowing rounds toward zero

  lemma NarrowFields(x: F32)
    requires Exp32(x) <= 142
    ensures Narrow(x) == (if Negative32(x) then 0x8000 else 0) + Trunc(x)
    ensures Negative16(Narrow(x)) == Negative32(x) && Low15(Narrow(x)) == Trunc(x) && Finite16(Narrow(x))
  {
    if 102 <= Exp32(x) <= 112 { TwoShifts(x); }
    HalfFields(Negative32(x), Trunc(x));
  }

  /** Every binary32 below 65536 in magnitude becomes, under its own sign, the greatest
      binary16 magnitude that does not exceed it: roundTowardZero (section 4.3.2). */
  lemma NarrowRoundsTowardZero(x: F32, l: nat)
    requires Exp32(x) <= 142
    ensures Finite16(Narrow(x)) && Negative16(Narrow(x)) == Negative32(x)
    ensures Mag16(l) <= Mag32(x) <==> l <= Low15(Narrow(x))
  {
    hide Mag16, Mag32, Trunc, RoundBit, Narrow;
    NarrowFields(x);
    Bracket(x);
    if l <= Trunc(x) {
      Mag16Monotone(l, Trunc(x));
    } else {
      Mag16Monotone(Trunc(x) + 1, l);
    }
  }

  predicate IsNaN16(h: F16) { Exp16(h) == 31 && Mant16(h) != 0 }

  /** A finite binary32 stays finite exactly below 65536; from there on only powers of two become
      an infinity, and everything else no number at all. */
  lemma OverflowIsNaNIff(x: F32)
    requires Finite32(x)
    ensures Finite16(Narrow(x)) <==> Mag32(x) < Mag16(0x7C00)
    ensures IsNaN16(Narrow(x)) <==> Mag32(x) >= Mag16(0x7C00) && Mant32(x) != 0
  {
    if Exp32(x) >= 143 {
      hide Mag16, Mag32;
      LargeMag(x);
    } else {
      hide Mag16, Mag32, Narrow, Trunc;
      NarrowFields(x);
      NarrowRoundsTowardZero(x, 0x7C00);
    }
  }

  /** Signs stay; infinities stay infinities and NaNs stay NaNs. */
  lemma NarrowSpecials(x: F32)
    ensures Negative16(Narrow(x)) == Negative32(x)
    ensures !Finite32(x) ==> !Finite16(Narrow(x)) && (IsNaN16(Narrow(x)) <==> Mant32(x) != 0)
  {
    if Exp32(x) <= 142 {
      hide Narrow, Trunc;
      NarrowFields(x);
    }
  }

  // ----- Widening

  /** The exponent counts up with the shifts where it should count down, and of the
      mantissa three bits are left. */
  lemma SubnormalFields(h: F16)
    requires Exp16(h) == 0 && Mant16(h) != 0
    ensures var (m, e) := Normalized(Mant16(h), 113);
            && 103 <= e <= 113 && 1024 <= m < 2048 && m == Shl(Mant16(h), 113 - e)
            && Exp32(ToSingle(h)) == e && Mant32(ToSingle(h)) == 8192 * (m - 1024)
            && Exp32(Widen(h)) == 216 - e && Mant32(Widen(h)) == 8192 * (m % 8)
            && Negative32(Widen(h)) == Negative16(h) == Negative32(ToSingle(h))
  {
    NormalizedShifts(Mant16(h));
    ShiftedIsNormalized(Mant16(h), 10, 113);
    var (m, e) := Normalized(Mant16(h), 113);
    LowBits(m);
    hide Normalized, Shifted, Shl, Exp32, Mant32, Negative32, Exp16, Mant16, Negative16;
    SingleFields(Negative16(h), e, m - 1024);
    SingleFields(Negative16(h), 216 - e, m % 8);
  }

  lemma NormalizedShifts(mant: nat)
    requires 0 < mant < 1024
    ensures var (m, e) := Normalized(mant, 113);
            103 <= e <= 113 && 1024 <= m < 2048 && m == Shl(mant, 113 - e)
  {
    NormalizedRange(mant);
    hide Normalized, Shl;
    var (m, e) := Normalized(mant, 113);
    ShlShl(mant, 113 - e, e - 103);
    ShlMonotone(m, Shl(mant, 113 - e), e - 103);
    ShlMonotone(Shl(mant, 113 - e), m, e - 103);
  }

  lemma LowBits(m: nat)
    requires 1024 <= m < 2048
    ensures m % 1024 == m - 1024 && m % 1024 * 8192 % 0x1_0000 == 8192 * (m % 8)
  {
    var q := (m - 1024) / 8;
    assert m % 8 == m - 1024 - 8 * q;
    assert m % 1024 * 8192 == 0x1_0000 * q + 8192 * (m % 8);
  }

  /** More than five shifts normalise the mantissas below 32, fewer those from 64 on. */
  lemma FiveShifts(mant: nat, m: nat, n: nat)
    requires m == Shl(mant, n) && 1024 <= m < 2048
    ensures (n > 5 <==> mant < 32) && (n < 5 <==> mant >= 64)
    ensures n == 5 ==> m == 32 * mant
  {
    assert Shl(mant, 1) == 2 * mant && Shl(mant, 2) == 4 * mant && Shl(mant, 3) == 8 * mant;
    assert Shl(mant, 4) == 16 * mant && Shl(mant, 5) == 32 * mant;
    if n < 5 {
      ShlShl(mant, n, 5 - n);
      Doubles(m, 5 - n);
    } else if n > 5 {
      ShlShl(mant, 5, n - 5);
      Doubles(32 * mant, n - 5);
    }
  }

  lemma Doubles(a: nat, k: nat)
    requires k > 0
    ensures Shl(a, k) >= 2 * a
  {
    ShlGrows(a, k - 1);
  }

  /** What the fields of a subnormal are worth, read and true. */
  lemma ReadMagnitudes(mant: nat, m: nat, e: nat)
    requires 103 <= e <= 113 && m == Shl(mant, 113 - e) && 1024 <= m < 2048
    ensures var read := Shl(0x80_0000 + 8192 * (m % 8), 215 - e);
            && (mant < 32 ==> read >= Mag16(64))
            && (mant == 32 ==> e == 108 && m == 1024)
            && (mant > 32 ==> read < Shl(0x80_0000 + 8192 * (m - 1024), e - 1))
  {
    FiveShifts(mant, m, 113 - e);
    hide Shl, Mag16;
    if mant < 32 {
      ReadHigh(e, 8192 * (m % 8));
    } else if e == 108 {
      assert m % 8 == 0;
      ShlMonotone(0x80_0000 + 8192 * (m - 1024), 0x80_0000, 107);
    } else {
      ReadLow(e, 8192 * (m % 8), 8192 * (m - 1024));
    }
  }

  /** A subnormal with mantissa below 32 is read as more than twice what it is, one above 32
      as less than it is, and only 32 itself as what it is. */
  lemma SubnormalRead(h: F16)
    requires Exp16(h) == 0 && Mant16(h) != 0
    ensures Negative32(Widen(h)) == Negative16(h)
    ensures Mant16(h) < 32 ==> Mag32(Widen(h)) >= Mag16(64)
    ensures Mant16(h) == 32 ==> Widen(h) == ToSingle(h)
    ensures Mant16(h) > 32 ==> Mag32(Widen(h)) < Mag16(Low15(h))
  {
    hide Mag16, Widen, ToSingle, Normalized, Shl, Exp32, Mant32, Exp16, Mant16, Low15, Negative16, Negative32;
    SubnormalFields(h);
    ToSingleIsExact(h);
    var (m, e) := Normalized(Mant16(h), 113);
    ReadMagnitudes(Mant16(h), m, e);
    if Mant16(h) == 32 { SameFields(Widen(h), ToSingle(h)); }
  }

  lemma SameFields(x: F32, y: F32)
    requires Negative32(x) == Negative32(y) && Exp32(x) == Exp32(y) && Mant32(x) == Mant32(y)
    ensures x == y
  {
  }

  lemma ReadHigh(e: nat, k: nat)
    requires 103 <= e <= 107
    ensures Shl(0x80_0000 + k, 215 - e) >= Mag16(64)
  {
    LeastNormal(0x80_0000);
    ShlMonotone(0x80_0000, 0x80_0000 + k, 215 - e);
    ShlShl(0x80_0000, 108, 107 - e);
    ShlGrows(Shl(0x80_0000, 108), 107 - e);
  }

  lemma LeastNormal(a: nat)
    requires a == 0x80_0000
    ensures Shl(a, 108) == Mag16(64)
  {
    ShlMultiplies(64);
    assert Shl(0x8_0000, 4) == a;
    ShlShl(64, 13, 4);
    ShlShl(64, 17, 108);
  }

  lemma ReadLow(e: nat, k: nat, k': nat)
    requires 109 <= e <= 113 && k < 0x80_0000
    ensures Shl(0x80_0000 + k, 215 - e) < Shl(0x80_0000 + k', e - 1)
  {
    ShlMonotone(0x100_0000, 0x80_0000 + k, 215 - e);
    ShlShl(0x80_0000, 1, 215 - e);
    assert Shl(0x80_0000, 1) == 0x100_0000;
    ShlShl(0x80_0000, 216 - e, 2 * e - 217);
    ShlGrows(Shl(0x80_0000, 216 - e), 2 * e - 217);
    ShlMonotone(0x80_0000 + k', 0x80_0000, e - 1);
  }

  predicate ReadRight(h: F16) { Exp16(h) != 0 || Mant16(h) == 0 || Mant16(h) == 32 }

  /** Of the subnormals exactly the one with mantissa 32 is read as its value; everything
      else is. */
  lemma WidenExactIff(h: F16)
    requires Finite16(h)
    ensures Val32(Widen(h)) == Val16(h) <==> ReadRight(h)
    ensures ReadRight(h) ==> Widen(h) == ToSingle(h)
  {
    hide Mag16, Mag32;
    ToSingleIsExact(h);
    if Exp16(h) == 0 && Mant16(h) != 0 {
      SubnormalRead(h);
      SubnormalPositive(h);
      if Mant16(h) < 32 { Mag16Monotone(Low15(h), 64); }
    }
  }

  lemma SubnormalPositive(h: F16)
    requires Exp16(h) == 0 && Mant16(h) != 0
    ensures Low15(h) == Mant16(h) && Mag16(Low15(h)) > 0
  {
    Mag16Monotone(0, Low15(h));
  }

  /** Narrowing gets back what was widened if and only if it was read right. */
  lemma NarrowUndoesWidenIff(h: F16)
    requires Finite16(h) && Exp32(Widen(h)) <= 142
    ensures Narrow(Widen(h)) == h <==> ReadRight(h)
  {
    hide Mag16, Mag32, Widen, ToSingle, Narrow;
    WidenExactIff(h);
    ToSingleIsExact(h);
    NarrowRoundsTowardZero(Widen(h), Low15(h));
    NarrowRoundsTowardZero(Widen(h), Low15(h) + 1);
    if ReadRight(h) {
      Mag16Monotone(Low15(h), Low15(h) + 1);
    } else {
      SubnormalRead(h);
      SubnormalPositive(h);
      if Mant16(h) < 32 { Mag16Monotone(Low15(h) + 1, 64); }
    }
  }

  /** Infinities and NaNs stay what they are. */
  lemma WidenOverflow(h: F16)
    requires !Finite16(h)
    ensures Exp32(Widen(h)) == 255 && Negative32(Widen(h)) == Negative16(h)
    ensures Mant32(Widen(h)) != 0 <==> Mant16(h) != 0
  {
    SingleFields(Negative16(h), 255, Mant16(h));
  }

  lemma TwentyThree(a: nat)
    requires a == 0x80_0000
    ensures Shl(1, 23) == a
  {
    ShlShl(1, 10, 13);
    ShlMultiplies(1024);
    assert Shl(1, 10) == 1024;
  }

  // ----- A stored codeword

  /** What a codeword is after it was stored. */
  function Kept(x: F32): F32 { Widen(Narrow(x)) }

  /** The magnitudes that survive: at least 2^-14, below 2^-24, or between the subnormals 32 and
      33, from 2^-19 on. */
  predicate KeptRight(x: F32) {
    Mag16(1024) <= Mag32(x) || Mag32(x) < Mag16(1) || Mag16(32) <= Mag32(x) < Mag16(33)
  }

  /** A codeword below 65536 comes back as the binary16 it was rounded to if and only if its
      magnitude is one of those. */
  lemma KeptIsTruncationIff(x: F32)
    requires Exp32(x) <= 142
    ensures Val32(Kept(x)) == Val16(Narrow(x)) <==> KeptRight(x)
  {
    hide Mag16, Mag32, Narrow, Widen;
    var h := Narrow(x);
    NarrowRoundsTowardZero(x, 1);
    NarrowRoundsTowardZero(x, 32);
    NarrowRoundsTowardZero(x, 33);
    NarrowRoundsTowardZero(x, 1024);
    WidenExactIff(h);
    FieldsOfLow15(h);
  }

  lemma FieldsOfLow15(h: F16)
    ensures Exp16(h) == Low15(h) / 1024 && Mant16(h) == Low15(h) % 1024
  {
  }

  /** From 2^-14 up to 65536 storing a codeword keeps its sign, never makes it longer, and shortens
      it by at most one part in 1024; storing it again changes nothing. */
  lemma KeptWithin(x: F32)
    requires 113 <= Exp32(x) <= 142
    ensures Negative32(Kept(x)) == Negative32(x) && Kept(Kept(x)) == Kept(x)
    ensures Mag32(Kept(x)) <= Mag32(x) && 1024 * (Mag32(x) - Mag32(Kept(x))) <= Mag32(x)
  {
    NormalIsNotSubnormal(x);
    hide Mag16, Mag32, Narrow, Widen, ToSingle, Trunc, RoundBit, Gap;
    var h := Narrow(x);
    NarrowFields(x);
    WidenExactIff(h);
    ToSingleIsExact(h);
    Bracket(x);
    Mag16Step(Trunc(x));
    NormalGap(x);
    LowExponent(Kept(x), Trunc(x));
    NarrowUndoesWidenIff(h);
  }

  lemma NormalIsNotSubnormal(x: F32)
    requires 113 <= Exp32(x) <= 142
    ensures Exp16(Narrow(x)) != 0
  {
    hide Exp32, Mant32, Narrow;
    NarrowFields(x);
    FieldsOfLow15(Narrow(x));
    assert Trunc(x) >= 1024;
  }

  lemma LowExponent(x: F32, k: nat)
    requires Finite32(x) && k < 0x7C00 && Mag32(x) == Mag16(k)
    ensures Exp32(x) <= 142
  {
    hide Mag16, Mag32;
    Mag16Monotone(k, 0x7C00);
    if Exp32(x) >= 143 { LargeMag(x); }
  }

  /** The binary32 patterns of 0 and 1 are stored as they are. */
  lemma ZeroAndOneAreKept()
    ensures Kept(0) == 0 && Kept(0x3F80_0000) == 0x3F80_0000
  {
    hide Kept;
    ZeroIsKept(0);
    OneIsKept(0x3F80_0000, 0x3C00);
  }

  lemma ZeroIsKept(x: F32)
    requires x == 0
    ensures Kept(x) == x
  {
    assert Exp32(x) == 0 && !Negative32(x);
    assert Narrow(x) == x by { hide Exp32, Negative32; }
    assert Exp16(x) == 0 && Mant16(x) == 0 && !Negative16(x);
    hide Narrow, Exp16, Mant16, Negative16;
  }

  lemma OneIsKept(x: F32, h: F16)
    requires x == 0x3F80_0000 && h == 0x3C00
    ensures Narrow(x) == h && Kept(x) == x
  {
    assert Exp32(x) == 127 && Mant32(x) == 0 && !Negative32(x);
    assert Exp16(h) == 15 && Mant16(h) == 0 && !Negative16(h);
    hide Exp32, Mant32, Negative32, Exp16, Mant16, Negative16;
    ShrDivides(Mant32(x));
  }
}
