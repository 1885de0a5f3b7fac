/** 64-bit words as numbers, and the bit operations on them by their binary digits. */
module BitWords {
  const WORD_BITS: nat := 64

  function Pow2(k: nat): (p: nat)
    ensures p >= 1
  {
    if k == 0 then 1 else 2 * Pow2(k - 1)
  }

  function Bit(n: nat, k: nat): bool {
    if k == 0 then n % 2 == 1 else Bit(n / 2, k - 1)
  }

  function Digit(b: bool): nat { if b then 1 else 0 }

  function And(a: nat, b: nat): nat
    decreases a
  {
    if a == 0 || b == 0 then 0 else Digit(a % 2 == 1 && b % 2 == 1) + 2 * And(a / 2, b / 2)
  }

  function Or(a: nat, b: nat): nat
    decreases a + b
  {
    if a == 0 && b == 0 then 0 else Digit(a % 2 == 1 || b % 2 == 1) + 2 * Or(a / 2, b / 2)
  }

  /** a & ~b. */
  function AndNot(a: nat, b: nat): nat
    decreases a
  {
    if a == 0 then 0 else Digit(a % 2 == 1 && b % 2 == 0) + 2 * AndNot(a / 2, b / 2)
  }

  /** a << k, where nothing is shifted out. */
  function Shl(a: nat, k: nat): nat {
    if k == 0 then a else 2 * Shl(a, k - 1)
  }

  /** (1 << k) - 1. */
  function LowMask(k: nat): nat {
    Pow2(k) - 1
  }

  /** __builtin_ctzll. */
  function Ctz(n: nat): nat
    requires n > 0
  {
    if n % 2 == 1 then 0 else 1 + Ctz(n / 2)
  }

  /** __builtin_popcountll. */
  function Popcount(n: nat): nat {
    if n == 0 then 0 else n % 2 + Popcount(n / 2)
  }

  // ---------- What they do to each bit ----------

  lemma {:induction false} ZeroBit(k: nat)
    ensures !Bit(0, k)
  {
    if k > 0 { ZeroBit(k - 1); }
  }

  lemma {:induction false} AndBit(a: nat, b: nat, k: nat)
    ensures Bit(And(a, b), k) <==> Bit(a, k) && Bit(b, k)
    decreases k
  {
    if a == 0 || b == 0 {
      ZeroBit(k);
    } else if k > 0 {
      AndBit(a / 2, b / 2, k - 1);
    }
  }

  lemma {:induction false} OrBit(a: nat, b: nat, k: nat)
    ensures Bit(Or(a, b), k) <==> Bit(a, k) || Bit(b, k)
    decreases k
  {
    if k > 0 {
      if a == 0 && b == 0 {
        ZeroBit(k);
      } else {
        OrBit(a / 2, b / 2, k - 1);
      }
    }
  }

  lemma {:induction false} AndNotBit(a: nat, b: nat, k: nat)
    ensures Bit(AndNot(a, b), k) <==> Bit(a, k) && !Bit(b, k)
    decreases k
  {
    if a == 0 {
      ZeroBit(k);
    } else if k > 0 {
      AndNotBit(a / 2, b / 2, k - 1);
    }
  }

  lemma {:induction false} ShlBit(a: nat, s: nat, k: nat)
    ensures Bit(Shl(a, s), k) <==> k >= s && Bit(a, k - s)
  {
    if s > 0 && k > 0 {
      ShlBit(a, s - 1, k - 1);
    }
  }

  lemma {:induction false} LowMaskBit(s: nat, k: nat)
    ensures Bit(LowMask(s), k) <==> k < s
    decreases k
  {
    if s == 0 {
      ZeroBit(k);
    } else {
      assert LowMask(s) == 1 + 2 * LowMask(s - 1);
      if k > 0 { LowMaskBit(s - 1, k - 1); }
    }
  }

  lemma {:induction false} UnitBit(s: nat, k: nat)
    ensures Bit(Shl(1, s), k) <==> k == s
  {
    ShlBit(1, s, k);
    if k > s {
      assert Bit(1, k - s) == Bit(0, k - s - 1);
      ZeroBit(k - s - 1);
    }
  }

  // ---------- Bounds ----------

  lemma {:induction false} AndBound(a: nat, b: nat)
    ensures And(a, b) <= a && And(a, b) <= b
    decreases a
  {
    if a != 0 && b != 0 { AndBound(a / 2, b / 2); }
  }

  lemma {:induction false} AndNotBound(a: nat, b: nat)
    ensures AndNot(a, b) <= a
    decreases a
  {
    if a != 0 { AndNotBound(a / 2, b / 2); }
  }

  lemma {:induction false} OrBound(a: nat, b: nat, m: nat)
    requires a < Pow2(m) && b < Pow2(m)
    ensures Or(a, b) < Pow2(m)
    decreases m
  {
    if m > 0 { OrBound(a / 2, b / 2, m - 1); }
  }

  lemma {:induction false} ShlBound(a: nat, s: nat, m: nat)
    requires a < Pow2(m)
    ensures Shl(a, s) < Pow2(m + s)
    decreases s
  {
    if s > 0 { ShlBound(a, s - 1, m); }
  }

  lemma {:induction false} Pow2Monotone(a: nat, b: nat)
    requires a <= b
    ensures Pow2(a) <= Pow2(b)
    decreases b
  {
    if a < b { Pow2Monotone(a, b - 1); }
  }

  lemma {:induction false} HighBitsClear(n: nat, m: nat, k: nat)
    requires n < Pow2(m) && k >= m
    ensures !Bit(n, k)
    decreases m
  {
    if m == 0 {
      ZeroBit(k);
    } else {
      HighBitsClear(n / 2, m - 1, k - 1);
    }
  }

  /** A number is its bits. */
  lemma {:induction false} SameBits(a: nat, b: nat, m: nat)
    requires a < Pow2(m) && b < Pow2(m) && forall k | 0 <= k < m :: Bit(a, k) == Bit(b, k)
    ensures a == b
    decreases m
  {
    if m > 0 {
      assert Bit(a, 0) == Bit(b, 0);
      forall k | 0 <= k < m - 1 ensures Bit(a / 2, k) == Bit(b / 2, k) {
        assert Bit(a, k + 1) == Bit(b, k + 1);
      }
      SameBits(a / 2, b / 2, m - 1);
    }
  }

  // ---------- Walking the set bits ----------

  lemma {:induction false} CtzIsLowest(n: nat, k: nat)
    requires n > 0
    ensures k < Ctz(n) ==> !Bit(n, k)
    ensures Bit(n, Ctz(n))
    decreases n
  {
    if n % 2 == 0 {
      CtzIsLowest(n / 2, if k > 0 then k - 1 else 0);
    }
  }

  lemma {:induction false} AndSame(n: nat)
    ensures And(n, n) == n
  {
    if n > 0 { AndSame(n / 2); }
  }

  /** bits & (bits - 1) clears the lowest set bit and no other. */
  lemma {:induction false} ClearLowest(n: nat, k: nat)
    requires n > 0
    ensures Bit(And(n, n - 1), k) <==> Bit(n, k) && k != Ctz(n)
    decreases n
  {
    AndBit(n, n - 1, k);
    if n % 2 == 1 {
      assert (n - 1) / 2 == n / 2;
      if k > 0 { assert Bit(n - 1, k) == Bit(n, k); }
    } else {
      assert (n - 1) / 2 == n / 2 - 1;
      if k > 0 {
        ClearLowest(n / 2, k - 1);
        AndBit(n / 2, n / 2 - 1, k - 1);
      }
    }
  }

  lemma {:induction false} ClearLowestCounts(n: nat)
    requires n > 0
    ensures Popcount(And(n, n - 1)) == Popcount(n) - 1 && And(n, n - 1) < n
    decreases n
  {
    if n % 2 == 1 {
      assert (n - 1) / 2 == n / 2;
      AndSame(n / 2);
      if n > 1 {
        assert And(n, n - 1) == 2 * (n / 2);
      }
    } else {
      assert (n - 1) / 2 == n / 2 - 1;
      ClearLowestCounts(n / 2);
      assert And(n, n - 1) == 2 * And(n / 2, n / 2 - 1);
    }
  }
}
