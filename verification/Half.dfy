/** The hand-written conversions between binary32 and binary16 (section 3.4 of
    IEEE 754-2008), over bit patterns written as naturals: `|` of fields that do
    not overlap is a sum. Magnitudes are exact integers, in units of 2^-149, the
    least positive binary32. */
module Half {
  import opened Shifts

  type F32 = x: int | 0 <= x < 0x1_0000_0000
  type F16 = h: int | 0 <= h < 0x1_0000

  function Negative32(x: F32): bool { x / 0x8000_0000 == 1 }
  function Exp32(x: F32): (e: nat) ensures e < 256 { x / 0x80_0000 % 256 }
  function Mant32(x: F32): (m: nat) ensures m < 0x80_0000 { x % 0x80_0000 }

  function Negative16(h: F16): bool { h / 0x8000 == 1 }
  function Exp16(h: F16): (e: nat) ensures e < 32 { h / 1024 % 32 }
  function Mant16(h: F16): (m: nat) ensures m < 1024 { h % 1024 }

  predicate Finite32(x: F32) { Exp32(x) != 255 }
  predicate Finite16(h: F16) { Exp16(h) != 31 }

  /** The leading part and the round bit of the conversion of a binary32 whose
      rebased exponent is below 31. */
  function Trunc(x: F32): (k: nat)
    requires Exp32(x) <= 142
    ensures k < 0x7C00
  {
    var exp := Exp32(x) - 127 + 15;
    if exp < -10 then 0
    else if exp <= 0 then
      var m := Mant32(x) + 0x80_0000;
      ShrSmall(m, 14 - exp);
      Shr(m, 14 - exp)
    else
      ShrDivides(Mant32(x));
      exp * 1024 + Shr(Mant32(x), 13)
  }

  function RoundBit(x: F32): (r: nat)
    requires Exp32(x) <= 142
    ensures r <= 1
  {
    var exp := Exp32(x) - 127 + 15;
    if exp < -10 then 0
    else if exp <= 0 then Shr(Mant32(x) + 0x80_0000, 13 - exp) % 2
    else Shr(Mant32(x), 12) % 2
  }

  /** `f32_to_f16`. */
  function ToHalf(x: F32): F16 {
    var sign := if Negative32(x) then 0x8000 else 0;
    if Exp32(x) == 255 then sign + 0x7C00 + (if Mant32(x) != 0 then 0x200 else 0)
    else if Exp32(x) - 127 + 15 >= 31 then sign + 0x7C00
    else sign + Trunc(x) + RoundBit(x)
  }

  lemma {:induction false} ShrSmall(m: nat, k: nat)
    requires m < 0x100_0000 && k >= 14
    ensures Shr(m, k) < 1024
  {
    if k == 14 {
      ShrDivides(m);
      assert Shr(m, 14) == m / 0x4000;
    } else {
      ShrSmall(m, k - 1);
    }
  }

  // ----- Exact values

  /** The magnitude of a finite binary32. */
  function Mag32(x: F32): nat {
    if Exp32(x) == 0 then Mant32(x) else Shl(0x80_0000 + Mant32(x), Exp32(x) - 1)
  }

  /** The magnitude the low 15 bits of a binary16 denote; for 0x7C00, the pattern
      of infinity, the value 65536 that would come next. */
  function Mag16(k: nat): nat {
    if k / 1024 == 0 then Shl(k, 125) else Shl(1024 + k % 1024, k / 1024 + 124)
  }

  function Low15(h: F16): nat { h % 0x8000 }

  function Signed(negative: bool, mag: int): int { if negative then -mag else mag }

  function Val32(x: F32): int { Signed(Negative32(x), Mag32(x)) }

  function Val16(h: F16): int { Signed(Negative16(h), Mag16(Low15(h))) }

  /** 2^149, the number of units in 1. */
  function Unit(): (u: real)
    ensures u > 0.0
  {
    ShlGrows(1, 149);
    Shl(1, 149) as real
  }

  /** The real a finite binary32 denotes. */
  function Real32(x: F32): real
    requires Finite32(x)
  {
    Val32(x) as real / Unit()
  }

  /** The gap between the magnitudes of patterns k and k + 1. */
  function Gap(k: nat): nat { if k / 1024 == 0 then Shl(1, 125) else Shl(1, k / 1024 + 124) }

  lemma Mag16Step(k: nat)
    ensures Mag16(k + 1) == Mag16(k) + Gap(k)
  {
    var e, m := k / 1024, k % 1024;
    if m < 1023 {
      assert (k + 1) / 1024 == e && (k + 1) % 1024 == m + 1;
      if e == 0 { ShlAdd(k, 1, 125); } else { ShlAdd(1024 + m, 1, e + 124); }
    } else {
      assert (k + 1) / 1024 == e + 1 && (k + 1) % 1024 == 0;
      if e == 0 { ShlAdd(k, 1, 125); } else { ShlAdd(2047, 1, e + 124); ShlShl(1024, 1, e + 124); }
      assert Shl(1024, 1) == 2048;
    }
  }

  lemma GapPositive(k: nat)
    ensures Gap(k) > 0
  {
    var s := if k / 1024 == 0 then 125 else k / 1024 + 124;
    ShlMonotone(1, 0, s);
    ShlZero(s);
  }

  lemma {:induction false} Mag16Monotone(k: nat, l: nat)
    requires k <= l
    ensures Mag16(k) <= Mag16(l)
    ensures k < l ==> Mag16(k) < Mag16(l)
  {
    if k < l {
      Mag16Step(l - 1);
      GapPositive(l - 1);
      Mag16Monotone(k, l - 1);
    }
  }

  // ----- Rounding

  /** The pattern lies just below the magnitude, and the round bit says whether the
      magnitude is at or above the midpoint to the next pattern. */
  ghost predicate Brackets(k: nat, r: nat, v: nat) {
    && Mag16(k) <= v < Mag16(k + 1)
    && r == (if 2 * v >= Mag16(k) + Mag16(k + 1) then 1 else 0)
  }

  /** From a bracket of the mantissa to a bracket of the magnitude. */
  lemma ScaledBracket(k: nat, r: nat, m: nat, lo: nat, hi: nat, u: nat)
    requires lo <= m < hi && r == (if 2 * m >= lo + hi then 1 else 0)
    requires Mag16(k) == Shl(lo, u) && Mag16(k + 1) == Shl(hi, u)
    ensures Brackets(k, r, Shl(m, u))
  {
    ShlMonotone(lo, m, u);
    ShlMonotone(hi, m, u);
    ShlAdd(lo, hi, u);
    ShlAdd(m, m, u);
    ShlMonotone(lo + hi, 2 * m, u);
  }

  lemma SubnormalBracket(x: F32)
    requires 102 <= Exp32(x) <= 112
    ensures Brackets(Trunc(x), RoundBit(x), Mag32(x))
  {
    var e := Exp32(x);
    var m := Mant32(x) + 0x80_0000;
    RoundBitIsMidpoint(m, 125 - e);
    var k := Shr(m, 126 - e);
    ShrSmall(m, 126 - e);
    assert Mag16(k) == Shl(k, 125) && Mag16(k + 1) == Shl(k + 1, 125);
    ShlShl(k, 126 - e, e - 1);
    ShlShl(k + 1, 126 - e, e - 1);
    ScaledBracket(k, RoundBit(x), m, Shl(k, 126 - e), Shl(k + 1, 126 - e), e - 1);
  }

  lemma NormalBracket(x: F32)
    requires 113 <= Exp32(x) <= 142
    ensures Brackets(Trunc(x), RoundBit(x), Mag32(x))
  {
    var e := Exp32(x);
    var m := Mant32(x);
    ShrDivides(m);
    var q := m / 8192;
    var k := Trunc(x);
    assert k / 1024 == e - 112 && k % 1024 == q;
    var lo, hi := 8192 * (1024 + q), 8192 * (1025 + q);
    ShlMultiplies(1024 + q);
    ShlMultiplies(1025 + q);
    ShlShl(1024 + q, 13, e - 1);
    ShlShl(1025 + q, 13, e - 1);
    Mag16Step(k);
    ShlAdd(1024 + q, 1, e + 12);
    ScaledBracket(k, RoundBit(x), 0x80_0000 + m, lo, hi, e - 1);
  }

  lemma TinyBracket(x: F32)
    requires Exp32(x) < 102
    ensures Brackets(0, 0, Mag32(x))
  {
    var e := Exp32(x);
    var s := if e == 0 then 0 else e - 1;
    var m := if e == 0 then Mant32(x) else 0x80_0000 + Mant32(x);
    ShlMonotone(0x100_0000, m, s);
    ShlZero(125);
    Shl24();
    ShlShl(1, 24, s);
    ShlShl(1, 24 + s, 100 - s);
    ShlGrows(Shl(1, 24 + s), 100 - s);
    assert Shl(1, 125) == 2 * Shl(1, 124);
  }

  lemma Shl24()
    ensures Shl(1, 24) == 0x100_0000
  {
    assert Shl(1, 8) == 256;
    assert Shl(1, 16) == 0x1_0000;
  }

  lemma {:induction false} ShlGrows(a: nat, k: nat)
    ensures a <= Shl(a, k)
  {
    if k > 0 { ShlGrows(a, k - 1); }
  }

  /** Every finite binary32 below 2^16, normal, subnormal or tiny. */
  lemma Bracket(x: F32)
    requires Exp32(x) <= 142
    ensures Brackets(Trunc(x), RoundBit(x), Mag32(x))
  {
    if Exp32(x) < 102 {
      TinyBracket(x);
    } else if Exp32(x) <= 112 {
      SubnormalBracket(x);
    } else {
      NormalBracket(x);
    }
  }

  // ----- Rounding to nearest, ties away from zero (section 4.3.1)

  function Abs(n: int): nat { if n < 0 then -n else n }

  /** `h` is at least as near to `v` as `g`, and on a tie at least as far from zero. */
  ghost predicate AtLeastAsGood(h: F16, g: F16, v: int) {
    && Abs(Val16(h) - v) <= Abs(Val16(g) - v)
    && (Abs(Val16(h) - v) == Abs(Val16(g) - v) ==> Abs(Val16(g)) <= Abs(Val16(h)))
  }

  /** 65520, halfway between the greatest binary16 and 65536. */
  const OVERFLOW: nat := Mag16(0x7BFF) + Mag16(0x7C00)

  /** Finite, and below the overflow threshold. */
  predicate InRange(x: F32) { Finite32(x) && 2 * Mag32(x) < OVERFLOW }

  /** The conversion's low 15 bits. */
  function Rounded(x: F32): (n: nat)
    requires Exp32(x) <= 142
    ensures n <= 0x7C00
  {
    Trunc(x) + RoundBit(x)
  }

  lemma HalfFields(negative: bool, n: nat)
    requires n <= 0x7C00
    ensures var h := (if negative then 0x8000 else 0) + n;
            && Negative16(h) == negative && Low15(h) == n && (Finite16(h) <==> n < 0x7C00)
  {
  }

  /** A magnitude of 2^16 or more is beyond every binary16. */
  lemma LargeMag(x: F32)
    requires Finite32(x) && Exp32(x) >= 143
    ensures Mag32(x) >= Mag16(0x7C00)
  {
    var e := Exp32(x);
    ShlMonotone(0x80_0000, 0x80_0000 + Mant32(x), e - 1);
    ShlShl(0x80_0000, 142, e - 143);
    ShlGrows(Shl(0x80_0000, 142), e - 143);
    ShlMultiplies(1024);
    ShlShl(1024, 13, 142);
    assert Mag16(0x7C00) == Shl(1024, 155);
  }

  /** Overflow to infinity happens exactly from 65520 on. */
  lemma OverflowExact(x: F32)
    requires Finite32(x)
    ensures Finite16(ToHalf(x)) <==> 2 * Mag32(x) < OVERFLOW
    ensures Finite16(ToHalf(x)) ==> Exp32(x) <= 142
    ensures Negative16(ToHalf(x)) == Negative32(x)
  {
    hide Mag16, Mag32, Trunc, RoundBit;
    if Exp32(x) >= 143 {
      LargeMag(x);
      Mag16Monotone(0x7BFF, 0x7C00);
    } else {
      Bracket(x);
      HalfFields(Negative32(x), Rounded(x));
      Mag16Monotone(Trunc(x), 0x7BFF);
      Mag16Monotone(Trunc(x) + 1, 0x7C00);
      if Trunc(x) < 0x7BFF {
        Mag16Monotone(Trunc(x) + 1, 0x7BFF);
      }
    }
  }

  /** From the overflow threshold on the result is the infinity of the input's sign, and no NaN;
      infinities stay infinities and NaNs stay NaNs. */
  lemma OverflowIsInfinity(x: F32)
    ensures Negative16(ToHalf(x)) == Negative32(x)
    ensures Finite32(x) && 2 * Mag32(x) >= OVERFLOW ==> Exp16(ToHalf(x)) == 31 && Mant16(ToHalf(x)) == 0
    ensures !Finite32(x) ==> Exp16(ToHalf(x)) == 31 && (Mant16(ToHalf(x)) == 0 <==> Mant32(x) == 0)
  {
    hide Mag16, Mag32, Trunc, RoundBit;
    if Finite32(x) {
      OverflowExact(x);
      if Exp32(x) <= 142 { HalfFields(Negative32(x), Rounded(x)); }
    }
  }

  /** Among all magnitudes, the rounded one is nearest, the larger one on a tie. */
  lemma NearestMagnitude(k: nat, r: nat, v: nat, l: nat)
    requires Brackets(k, r, v)
    ensures Abs(Mag16(k + r) - v) <= Abs(Mag16(l) - v)
    ensures Abs(Mag16(k + r) - v) == Abs(Mag16(l) - v) ==> Mag16(l) <= Mag16(k + r)
  {
    if l <= k {
      Mag16Monotone(l, k);
    } else {
      Mag16Monotone(k + 1, l);
    }
  }

  /** With signs: a rounded magnitude under the sign of the input. */
  lemma SignedNearest(negative: bool, n: nat, v: nat, other: bool, l: nat)
    requires Abs(n - v) <= Abs(l - v) && (Abs(n - v) == Abs(l - v) ==> l <= n)
    requires n <= 2 * v
    ensures Abs(Signed(negative, n) - Signed(negative, v)) <= Abs(Signed(other, l) - Signed(negative, v))
    ensures Abs(Signed(negative, n) - Signed(negative, v)) == Abs(Signed(other, l) - Signed(negative, v))
            ==> l <= n
  {
  }

  /** The value of the converted pattern. */
  lemma ToHalfValue(x: F32)
    requires InRange(x)
    ensures Exp32(x) <= 142 && Finite16(ToHalf(x)) && Negative16(ToHalf(x)) == Negative32(x)
    ensures Low15(ToHalf(x)) == Rounded(x)
  {
    OverflowExact(x);
    HalfFields(Negative32(x), Rounded(x));
  }

  lemma NearestMagnitudes(x: F32, l: nat)
    requires Exp32(x) <= 142
    ensures var n, v := Mag16(Rounded(x)), Mag32(x);
            && n <= 2 * v
            && Abs(n - v) <= Abs(Mag16(l) - v)
            && (Abs(n - v) == Abs(Mag16(l) - v) ==> Mag16(l) <= n)
  {
    Bracket(x);
    NearestMagnitude(Trunc(x), RoundBit(x), Mag32(x), l);
    NearestMagnitude(Trunc(x), RoundBit(x), Mag32(x), 0);
    ShlZero(125);
  }

  lemma SignedMagnitude(negative: bool, a: nat)
    ensures Abs(Signed(negative, a)) == a
  {
  }

  /** Every finite binary32 that does not overflow is converted to a nearest
      binary16, ties going away from zero: normal, subnormal, underflowing or
      carrying into the exponent alike. */
  lemma ToHalfIsNearest(x: F32, g: F16)
    requires InRange(x) && Finite16(g)
    ensures Finite16(ToHalf(x)) && Negative16(ToHalf(x)) == Negative32(x)
    ensures AtLeastAsGood(ToHalf(x), g, Val32(x))
  {
    hide Mag16, Mag32, Trunc, RoundBit, ToHalf, Low15;
    ToHalfValue(x);
    var n, v, l := Mag16(Rounded(x)), Mag32(x), Mag16(Low15(g));
    NearestMagnitudes(x, Low15(g));
    SignedNearest(Negative32(x), n, v, Negative16(g), l);
    SignedMagnitude(Negative32(x), n);
    SignedMagnitude(Negative16(g), l);
  }

  // ----- Back to binary32

  /** The normalising loop for subnormals: the shifted mantissa and its exponent. */
  function Normalized(mant: nat, exp: int): (nat, int)
    requires 0 < mant
    decreases 1024 - mant
  {
    if mant >= 1024 then (mant, exp) else Normalized(2 * mant, exp - 1)
  }

  lemma {:induction false} NormalizedKeepsValue(mant: nat, exp: int)
    requires 0 < mant < 2048 && exp >= 103 && Shl(mant, exp - 103) >= 1024
    ensures var (m, e) := Normalized(mant, exp);
            1024 <= m < 2048 && 103 <= e <= exp && Shl(m, e - 103) == Shl(mant, exp - 103)
    decreases 1024 - mant
  {
    if mant < 1024 {
      assert exp > 103;
      ShlShl(mant, 1, exp - 104);
      assert Shl(mant, 1) == 2 * mant;
      NormalizedKeepsValue(2 * mant, exp - 1);
    }
  }

  lemma NormalizedRange(mant: nat)
    requires 0 < mant < 1024
    ensures var (m, e) := Normalized(mant, 113);
            1024 <= m < 2048 && 103 <= e <= 113 && Shl(m, e - 103) == Shl(mant, 10)
  {
    assert Shl(1, 1) == 2 && Shl(1, 2) == 4 && Shl(1, 5) == 32;
    ShlShl(1, 5, 5);
    assert Shl(32, 5) == 1024;
    ShlMonotone(1, mant, 10);
    NormalizedKeepsValue(mant, 113);
  }

  /** `f16_to_f32`, as a function of the pattern. */
  function ToSingle(h: F16): F32 {
    var sign := if Negative16(h) then 0x8000_0000 else 0;
    var exp := Exp16(h);
    var mant := Mant16(h);
    if exp == 0 then
      if mant == 0 then sign
      else
        NormalizedRange(mant);
        var (m, e) := Normalized(mant, 127 - 15 + 1);
        sign + e * 0x80_0000 + m % 1024 * 8192
    else if exp == 31 then sign + 0x7F80_0000 + mant * 8192
    else sign + (exp - 15 + 127) * 0x80_0000 + mant * 8192
  }

  /** `f16_to_f32`, as the code computes it. */
  method ConvertToSingle(h: F16) returns (x: F32)
    ensures x == ToSingle(h)
  {
    var sign := h / 0x8000 * 0x8000_0000;
    var exp := h / 1024 % 32;
    var mant := h % 1024;
    if exp == 0 {
      if mant == 0 {
        x := sign;
      } else {
        exp := 127 - 15 + 1;
        NormalizedRange(mant);
        while mant < 1024
          invariant mant > 0 && Normalized(mant, exp) == Normalized(Mant16(h), 113)
          decreases 1024 - mant
        {
          mant := 2 * mant;
          exp := exp - 1;
        }
        mant := mant % 1024;
        x := sign + exp * 0x80_0000 + mant * 8192;
      }
    } else if exp == 31 {
      x := sign + 0x7F80_0000 + mant * 8192;
    } else {
      x := sign + (exp - 15 + 127) * 0x80_0000 + mant * 8192;
    }
  }

  lemma SingleFields(negative: bool, e: nat, m: nat)
    requires e < 256 && m < 1024
    ensures var x := (if negative then 0x8000_0000 else 0) + e * 0x80_0000 + m * 8192;
            0 <= x < 0x1_0000_0000
            && Negative32(x) == negative && Exp32(x) == e && Mant32(x) == m * 8192
  {
  }

  lemma SubnormalIsExact(negative: bool, mant: nat)
    requires 0 < mant < 1024
    ensures var (m, e) := Normalized(mant, 113);
            && 103 <= e <= 113 && 1024 <= m < 2048
            && var x := (if negative then 0x8000_0000 else 0) + e * 0x80_0000 + m % 1024 * 8192;
               0 <= x < 0x1_0000_0000 && Finite32(x) && Negative32(x) == negative && Mag32(x) == Shl(mant, 125)
  {
    NormalizedRange(mant);
    var (m, e) := Normalized(mant, 113);
    SingleFields(negative, e, m - 1024);
    ShlMultiplies(m);
    ShlShl(m, 13, e - 1);
    ShlShl(m, e - 103, 115);
    ShlShl(mant, 10, 115);
  }

  lemma NormalIsExact(negative: bool, exp: nat, mant: nat)
    requires 0 < exp < 31 && mant < 1024
    ensures var x := (if negative then 0x8000_0000 else 0) + (exp + 112) * 0x80_0000 + mant * 8192;
            0 <= x < 0x1_0000_0000 && Finite32(x) && Negative32(x) == negative
            && Mag32(x) == Shl(1024 + mant, exp + 124)
  {
    SingleFields(negative, exp + 112, mant);
    ShlMultiplies(1024 + mant);
    ShlShl(1024 + mant, 13, exp + 111);
  }

  /** Widening is exact: the binary32 has the very same value. */
  lemma ToSingleIsExact(h: F16)
    requires Finite16(h)
    ensures Finite32(ToSingle(h)) && Negative32(ToSingle(h)) == Negative16(h)
    ensures Mag32(ToSingle(h)) == Mag16(Low15(h)) && Val32(ToSingle(h)) == Val16(h)
  {
    var exp, mant := Exp16(h), Mant16(h);
    assert Low15(h) == exp * 1024 + mant;
    if exp == 0 && mant == 0 {
      SingleFields(Negative16(h), 0, 0);
      ShlZero(125);
    } else if exp == 0 {
      SubnormalIsExact(Negative16(h), mant);
    } else {
      NormalIsExact(Negative16(h), exp, mant);
    }
  }

  /** Infinities and NaNs are widened to infinities and NaNs of the same sign. */
  lemma WidenSpecials(h: F16)
    requires !Finite16(h)
    ensures !Finite32(ToSingle(h)) && Negative32(ToSingle(h)) == Negative16(h)
    ensures Mant32(ToSingle(h)) == 0 <==> Mant16(h) == 0
  {
    SingleFields(Negative16(h), 255, Mant16(h));
  }

  // ----- The round trip

  /** Rounding a value that is a binary16 gives that binary16 back. */
  lemma ToHalfOfExact(x: F32, k: nat)
    requires Finite32(x) && k < 0x7C00 && Mag32(x) == Mag16(k)
    ensures Exp32(x) <= 142 && Rounded(x) == k
  {
    Mag16Monotone(k, 0x7BFF);
    Mag16Monotone(0x7BFF, 0x7C00);
    if Exp32(x) >= 143 {
      LargeMag(x);
    }
    Bracket(x);
    var t := Trunc(x);
    if k < t {
      Mag16Monotone(k, t);
    } else if t < k {
      Mag16Monotone(t + 1, k);
    }
    Mag16Monotone(k, k + 1);
  }

  /** Narrowing undoes widening on every finite binary16, sign of zero included. */
  lemma ToHalfUndoesToSingle(h: F16)
    requires Finite16(h)
    ensures ToHalf(ToSingle(h)) == h
  {
    hide Mag16, Mag32, Trunc, RoundBit, ToSingle;
    ToSingleIsExact(h);
    assert Mag32(ToSingle(h)) == Mag16(Low15(h));
    ToHalfOfExact(ToSingle(h), Low15(h));
  }

  /** `f16_to_f32(f32_to_f16(x))`. */
  function RoundTrip(x: F32): F32 { ToSingle(ToHalf(x)) }

  lemma RoundTripIdempotent(x: F32)
    requires InRange(x)
    ensures RoundTrip(RoundTrip(x)) == RoundTrip(x) && InRange(RoundTrip(x))
  {
    ToHalfValue(x);
    var h := ToHalf(x);
    ToSingleIsExact(h);
    ToHalfUndoesToSingle(h);
    OverflowExact(ToSingle(h));
  }

  /** Larger magnitudes are never rounded below smaller ones. */
  lemma RoundedMonotone(x: F32, y: F32)
    requires Exp32(x) <= 142 && Exp32(y) <= 142 && Mag32(x) <= Mag32(y)
    ensures Rounded(x) <= Rounded(y)
  {
    Bracket(x);
    Bracket(y);
    if Trunc(y) < Trunc(x) {
      Mag16Monotone(Trunc(y) + 1, Trunc(x));
    }
  }

  lemma RoundedZero(x: F32)
    requires Exp32(x) <= 142 && Mag32(x) == 0
    ensures Rounded(x) == 0
  {
    Bracket(x);
    Mag16Monotone(0, Trunc(x));
    Mag16Monotone(Trunc(x), Trunc(x) + 1);
    ShlZero(125);
  }

  /** Signs do not disturb a monotone map of magnitudes that keeps 0. */
  lemma SignedMonotone(m: bool, a: nat, a': nat, n: bool, b: nat, b': nat)
    requires Signed(m, a) <= Signed(n, b)
    requires a <= b ==> a' <= b'
    requires b <= a ==> b' <= a'
    requires (a == 0 ==> a' == 0) && (b == 0 ==> b' == 0)
    ensures Signed(m, a') <= Signed(n, b')
  {
  }

  lemma RoundTripMonotone(x: F32, y: F32)
    requires InRange(x) && InRange(y) && Val32(x) <= Val32(y)
    ensures Val32(RoundTrip(x)) <= Val32(RoundTrip(y))
  {
    InRangeExponent(x);
    RoundTripValue(x, Rounded(x));
    InRangeExponent(y);
    RoundTripValue(y, Rounded(y));
    var m, n := Rounded(x), Rounded(y);
    assert Mag32(x) <= Mag32(y) ==> Mag16(m) <= Mag16(n) by {
      if Mag32(x) <= Mag32(y) { RoundedMonotone(x, y); Mag16Monotone(m, n); }
    }
    assert Mag32(y) <= Mag32(x) ==> Mag16(n) <= Mag16(m) by {
      if Mag32(y) <= Mag32(x) { RoundedMonotone(y, x); Mag16Monotone(n, m); }
    }
    assert Mag16(0) == 0 by { ShlZero(125); }
    if Mag32(x) == 0 { RoundedZero(x); }
    if Mag32(y) == 0 { RoundedZero(y); }
    SignedMonotone(Negative32(x), Mag32(x), Mag16(m), Negative32(y), Mag32(y), Mag16(n));
  }

  lemma InRangeExponent(x: F32)
    requires InRange(x)
    ensures Exp32(x) <= 142
  {
    OverflowExact(x);
  }

  /** n is what the magnitude is rounded to. */
  lemma RoundTripValue(x: F32, n: nat)
    requires InRange(x) && Exp32(x) <= 142 && n == Rounded(x)
    ensures Val32(RoundTrip(x)) == Signed(Negative32(x), Mag16(n))
  {
    OverflowExact(x);
    Bracket(x);
    HalfFields(Negative32(x), Rounded(x));
    ToSingleIsExact(ToHalf(x));
  }

  /** A binary32 in the normal range of binary16 is at least 1024 gaps. */
  lemma NormalGap(x: F32)
    requires 113 <= Exp32(x) <= 142
    ensures 1024 * Gap(Trunc(x)) <= Mag32(x)
  {
    var e := Exp32(x);
    ShrDivides(Mant32(x));
    assert Gap(Trunc(x)) == Shl(1, e + 12);
    ShlMultiplies(1);
    ShlShl(1, 13, e - 1);
    ThousandFold(Gap(Trunc(x)));
    ThousandFold(8192);
    ShlShl(8192, e - 1, 10);
    ShlShl(8192, 10, e - 1);
    ShlMonotone(0x80_0000, 0x80_0000 + Mant32(x), e - 1);
  }

  lemma RoundedError(k: nat, r: nat, v: nat)
    requires Brackets(k, r, v)
    ensures 2 * Abs(Mag16(k + r) - v) <= Gap(k)
  {
    Mag16Step(k);
  }

  lemma SignedDistance(negative: bool, a: nat, b: nat)
    ensures Abs(Signed(negative, a) - Signed(negative, b)) == Abs(a - b)
  {
  }

  /** Within half a unit in the last place of an 11-bit significand. */
  lemma RoundTripError(x: F32)
    requires InRange(x) && Exp32(x) >= 113
    ensures 2048 * Abs(Val32(RoundTrip(x)) - Val32(x)) <= Mag32(x)
  {
    hide Mag16, Mag32, Trunc, RoundBit, RoundTrip, Gap;
    InRangeExponent(x);
    RoundTripValue(x, Rounded(x));
    Bracket(x);
    RoundedError(Trunc(x), RoundBit(x), Mag32(x));
    NormalGap(x);
    SignedDistance(Negative32(x), Mag16(Rounded(x)), Mag32(x));
  }

  lemma ThousandFold(a: nat)
    ensures Shl(a, 10) == 1024 * a
  {
    assert Shl(a, 1) == 2 * a && Shl(a, 2) == 4 * a && Shl(a, 3) == 8 * a && Shl(a, 4) == 16 * a;
    assert Shl(a, 5) == 32 * a && Shl(a, 6) == 64 * a && Shl(a, 7) == 128 * a && Shl(a, 8) == 256 * a;
  }

  /** `rt_fp16`: the round trip of a whole array. */
  method RtFp16(w: array<F32>, out: array<F32>)
    requires out.Length == w.Length && out != w
    modifies out
    ensures forall i | 0 <= i < w.Length :: out[i] == RoundTrip(w[i])
  {
    for i := 0 to w.Length
      invariant forall j | 0 <= j < i :: out[j] == RoundTrip(w[j])
    {
      var h := ToHalf(w[i]);
      var x := ConvertToSingle(h);
      out[i] := x;
    }
  }
}
