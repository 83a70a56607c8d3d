/** Left and right shifts of naturals, by doubling and halving. */
module Shifts {
  function Shl(m: nat, k: nat): nat {
    if k == 0 then m else 2 * Shl(m, k - 1)
  }

  function Shr(m: nat, k: nat): nat {
    if k == 0 then m else Shr(m, k - 1) / 2
  }

  lemma {:induction false} ShlAdd(a: nat, b: nat, k: nat)
    ensures Shl(a + b, k) == Shl(a, k) + Shl(b, k)
  {
    if k > 0 { ShlAdd(a, b, k - 1); }
  }

  lemma {:induction false} ShlShl(a: nat, j: nat, k: nat)
    ensures Shl(Shl(a, j), k) == Shl(a, j + k)
  {
    if k > 0 { ShlShl(a, j, k - 1); }
  }

  lemma {:induction false} ShlMonotone(a: nat, b: nat, k: nat)
    ensures a <= b <==> Shl(a, k) <= Shl(b, k)
  {
    if k > 0 { ShlMonotone(a, b, k - 1); }
  }

  lemma {:induction false} ShlZero(k: nat)
    ensures Shl(0, k) == 0
  {
    if k > 0 { ShlZero(k - 1); }
  }

  /** A right shift keeps the multiples of 2^k around m. */
  lemma {:induction false} ShrBracket(m: nat, k: nat)
    ensures Shl(Shr(m, k), k) <= m < Shl(Shr(m, k) + 1, k)
  {
    if k > 0 {
      var q := Shr(m, k - 1);
      ShrBracket(m, k - 1);
      ShlMonotone(2 * (q / 2), q, k - 1);
      ShlMonotone(q + 1, 2 * (q / 2) + 2, k - 1);
      ShlShl(q / 2, 1, k - 1);
      ShlShl(q / 2 + 1, 1, k - 1);
      assert Shl(q / 2, 1) == 2 * (q / 2) && Shl(q / 2 + 1, 1) == 2 * (q / 2) + 2;
    }
  }

  /** The bit below a right shift says on which side of the midpoint m lies. */
  lemma RoundBitIsMidpoint(m: nat, k: nat)
    ensures var q := Shr(m, k + 1);
            var lo, hi := Shl(q, k + 1), Shl(q + 1, k + 1);
            && lo <= m < hi
            && (Shr(m, k) % 2 == 1 <==> 2 * m >= lo + hi)
  {
    var p := Shr(m, k);
    var q := Shr(m, k + 1);
    ShrBracket(m, k + 1);
    ShrBracket(m, k);
    ShlShl(q, 1, k);
    ShlShl(q + 1, 1, k);
    assert Shl(q, 1) == 2 * q && Shl(q + 1, 1) == 2 * q + 2;
    ShlAdd(2 * q, 1, k);
    ShlAdd(2 * q + 1, 1, k);
    assert p == 2 * q + p % 2;
  }

  lemma ShrDivides(m: nat)
    ensures Shr(m, 12) == m / 0x1000 && Shr(m, 13) == m / 0x2000
  {
    assert Shr(m, 1) == m / 2 && Shr(m, 2) == m / 4;
    assert Shr(m, 3) == m / 8 && Shr(m, 4) == m / 16;
    assert Shr(m, 5) == m / 32 && Shr(m, 6) == m / 64;
    assert Shr(m, 7) == m / 128 && Shr(m, 8) == m / 256;
    assert Shr(m, 9) == m / 512 && Shr(m, 10) == m / 1024;
    assert Shr(m, 11) == m / 2048;
  }

  lemma ShlMultiplies(a: nat)
    ensures Shl(a, 13) == 8192 * a
  {
    assert Shl(a, 1) == 2 * a && Shl(a, 2) == 4 * a;
    assert Shl(a, 3) == 8 * a && Shl(a, 4) == 16 * a;
    assert Shl(a, 5) == 32 * a && Shl(a, 6) == 64 * a;
    assert Shl(a, 7) == 128 * a && Shl(a, 8) == 256 * a;
    assert Shl(a, 9) == 512 * a && Shl(a, 10) == 1024 * a;
    assert Shl(a, 11) == 2048 * a && Shl(a, 12) == 4096 * a;
  }
}
