/** Powers of two, bitwise conjunction and division facts over naturals. */
module Bits {
  /** Bitwise conjunction of two naturals. */
  function And(x: nat, y: nat): nat
    decreases x
  {
    if x == 0 || y == 0 then 0 else 2 * And(x / 2, y / 2) + (if x % 2 == 1 && y % 2 == 1 then 1 else 0)
  }

  function Pow2(k: nat): (p: nat)
    ensures p > 0
  {
    if k == 0 then 1 else 2 * Pow2(k - 1)
  }

  ghost predicate IsPowerOfTwo(a: nat) {
    exists k: nat :: a == Pow2(k)
  }

  lemma {:induction false} AndIdempotent(x: nat)
    ensures And(x, x) == x
  {
    if x > 0 {
      AndIdempotent(x / 2);
    }
  }

  /** The test `a & (a - 1)` recognises exactly the powers of two. */
  lemma {:induction false} PowerOfTwoTest(a: nat)
    requires a > 0
    ensures And(a, a - 1) == 0 <==> IsPowerOfTwo(a)
  {
    if a == 1 {
      assert Pow2(0) == 1;
    } else if a % 2 == 0 {
      assert (a - 1) / 2 == a / 2 - 1 && a % 2 == 0;
      PowerOfTwoTest(a / 2);
      if IsPowerOfTwo(a / 2) {
        var k: nat :| a / 2 == Pow2(k);
        assert a == Pow2(k + 1);
      }
      if IsPowerOfTwo(a) {
        var k: nat :| a == Pow2(k);
        assert k > 0 && a / 2 == Pow2(k - 1);
      }
    } else {
      assert (a - 1) / 2 == a / 2;
      AndIdempotent(a / 2);
      forall k: nat
        ensures a != Pow2(k)
      {
        assert k == 0 || Pow2(k) == 2 * Pow2(k - 1);
      }
    }
  }

  /** Masking a value below 2^n with the complement (in n bits) of 2^k - 1
      clears its low k bits. */
  lemma {:induction false} MaskClearsLowBits(x: nat, k: nat, n: nat)
    requires k <= n && x < Pow2(n)
    ensures Pow2(k) <= Pow2(n)
    ensures And(x, Pow2(n) - Pow2(k)) == x - x % Pow2(k)
  {
    Pow2Monotone(k, n);
    if n == 0 {
    } else if k == 0 {
      MaskAllOnes(x, n);
      assert x % Pow2(0) == 0;
    } else {
      MaskClearsLowBits(x / 2, k - 1, n - 1);
      var mask := Pow2(n) - Pow2(k);
      assert mask == 2 * (Pow2(n - 1) - Pow2(k - 1));
      assert mask / 2 == Pow2(n - 1) - Pow2(k - 1) && mask % 2 == 0;
      ModDouble(x, Pow2(k - 1));
      if x == 0 || mask == 0 {
        if mask == 0 {
          Pow2Injective(k, n);
          SmallMod(x, Pow2(k));
        }
      }
    }
  }

  lemma {:induction false} MaskAllOnes(x: nat, n: nat)
    requires x < Pow2(n)
    ensures And(x, Pow2(n) - 1) == x
  {
    if n > 0 && x > 0 {
      MaskAllOnes(x / 2, n - 1);
      assert (Pow2(n) - 1) / 2 == Pow2(n - 1) - 1 && (Pow2(n) - 1) % 2 == 1;
    }
  }

  lemma {:induction false} Pow2Monotone(k: nat, n: nat)
    requires k <= n
    ensures Pow2(k) <= Pow2(n)
  {
    if k < n { Pow2Monotone(k, n - 1); }
  }

  lemma {:induction false} Pow2Injective(k: nat, n: nat)
    requires k <= n && Pow2(k) == Pow2(n)
    ensures k == n
  {
    if k < n { Pow2Monotone(k, n - 1); }
  }

  lemma SmallMod(x: nat, m: nat)
    requires x < m
    ensures x % m == x
  {
  }

  lemma ModDouble(x: nat, m: nat)
    requires m > 0
    ensures x % (2 * m) == 2 * (x / 2 % m) + x % 2
  {
    var q, r := x / 2 / m, x / 2 % m;
    assert x / 2 == q * m + r;
    assert x == (2 * m) * q + (2 * r + x % 2);
    DivModUnique(x, 2 * m, q, 2 * r + x % 2);
  }

  lemma MulGrows(m: nat, d: int)
    ensures d >= 1 ==> m * d >= m
    ensures d <= -1 ==> m * d + m <= 0
  {
    if d >= 1 {
      assert m * d == m + m * (d - 1);
    } else if d <= -1 {
      assert m * d + m == m * (d + 1);
    }
  }

  lemma DivModUnique(x: nat, m: nat, q: nat, r: nat)
    requires r < m && x == m * q + r
    ensures x / m == q && x % m == r
  {
    var q', r' := x / m, x % m;
    assert m * (q - q') == r' - r;
    MulGrows(m, q - q');
  }

  lemma Pow2Word()
    ensures Pow2(64) == 0x1_0000_0000_0000_0000
  {
    assert Pow2(4) == 16;
    hide Pow2;
    Pow2Sum(4, 4);
    Pow2Sum(8, 8);
    Pow2Sum(16, 16);
    Pow2Sum(32, 32);
  }

  lemma {:induction false} Pow2Sum(a: nat, b: nat)
    ensures Pow2(a + b) == Pow2(a) * Pow2(b)
  {
    if a > 0 {
      Pow2Sum(a - 1, b);
      assert Pow2(a + b) == 2 * (Pow2(a - 1) * Pow2(b));
    }
  }

  lemma {:induction false} Pow2StrictlyMonotone(k: nat, n: nat)
    requires Pow2(k) < Pow2(n)
    ensures k < n
  {
    if n <= k { Pow2Monotone(n, k); }
  }
}
