/** Unsigned machine arithmetic over natural numbers.

The source manipulates bytes and 64-bit words with shifts, masks and bitwise operators. A word of
width w is a natural number below Pow2(w). The operators are defined bit by bit, so that a fact about
an operator is proved by the same recursion; `Low(x, w)` is the truncation to w bits that every
fixed-width C++ operation performs.
*/
module Words {

  const UINT32_MAX: nat := 0xFFFF_FFFF
  const UINT64_MAX: nat := 0xFFFF_FFFF_FFFF_FFFF

  function Pow2(n: nat): (r: nat)
    ensures r > 0
  {
    if n == 0 then 1 else 2 * Pow2(n - 1)
  }

  /** Bit i of x, bit 0 being the least significant one. */
  predicate Bit(x: nat, i: nat) {
    if i == 0 then x % 2 == 1 else Bit(x / 2, i - 1)
  }

  /** x << n without truncation. */
  function Shl(x: nat, n: nat): (r: nat)
    ensures r >= x
  {
    if n == 0 then x else 2 * Shl(x, n - 1)
  }

  /** x >> n. */
  function Shr(x: nat, n: nat): nat {
    if n == 0 then x else Shr(x / 2, n - 1)
  }

  /** The low n bits of x. */
  function Low(x: nat, n: nat): nat {
    if n == 0 then 0 else 2 * Low(x / 2, n - 1) + x % 2
  }

  /** x & y. */
  function And(x: nat, y: nat): nat {
    if x == 0 || y == 0 then 0
    else 2 * And(x / 2, y / 2) + if x % 2 == 1 && y % 2 == 1 then 1 else 0
  }

  /** x | y. */
  function Or(x: nat, y: nat): nat {
    if x == 0 then y else if y == 0 then x
    else 2 * Or(x / 2, y / 2) + if x % 2 == 1 || y % 2 == 1 then 1 else 0
  }

  /** ~x for a word of w bits. */
  function Not(x: nat, w: nat): nat
    requires x < Pow2(w)
  {
    Pow2(w) - 1 - x
  }

  // ----- bits of each operator

  lemma Halves(a: nat, b: nat)
    requires b <= 1
    ensures (2 * a + b) / 2 == a && (2 * a + b) % 2 == b
  {
  }

  lemma {:induction false} BitZero(i: nat)
    ensures !Bit(0, i)
  {
    if i == 0 {
    } else {
      BitZero(i - 1);
    }
  }

  lemma {:induction false} BitShl(x: nat, n: nat, i: nat)
    ensures Bit(Shl(x, n), i) == (i >= n && Bit(x, i - n))
  {
    if n == 0 || i == 0 {
    } else {
      Halves(Shl(x, n - 1), 0);
      BitShl(x, n - 1, i - 1);
    }
  }

  lemma {:induction false} BitShr(x: nat, n: nat, i: nat)
    ensures Bit(Shr(x, n), i) == Bit(x, i + n)
  {
    if n == 0 {
    } else {
      BitShr(x / 2, n - 1, i);
    }
  }

  lemma {:induction false} BitLow(x: nat, n: nat, i: nat)
    ensures Bit(Low(x, n), i) == (i < n && Bit(x, i))
  {
    if n == 0 {
      BitZero(i);
    } else {
      Halves(Low(x / 2, n - 1), x % 2);
    }
    if n == 0 || i == 0 {
    } else {
      BitLow(x / 2, n - 1, i - 1);
    }
  }

  lemma {:induction false} BitAnd(x: nat, y: nat, i: nat)
    ensures Bit(And(x, y), i) == (Bit(x, i) && Bit(y, i))
  {
    if x == 0 || y == 0 {
      BitZero(i);
    } else {
      Halves(And(x / 2, y / 2), if x % 2 == 1 && y % 2 == 1 then 1 else 0);
    }
    if x == 0 || y == 0 || i == 0 {
    } else {
      BitAnd(x / 2, y / 2, i - 1);
    }
  }

  lemma {:induction false} BitOr(x: nat, y: nat, i: nat)
    ensures Bit(Or(x, y), i) == (Bit(x, i) || Bit(y, i))
  {
    if x == 0 || y == 0 {
      BitZero(i);
    } else {
      Halves(Or(x / 2, y / 2), if x % 2 == 1 || y % 2 == 1 then 1 else 0);
    }
    if x == 0 || y == 0 || i == 0 {
    } else {
      BitOr(x / 2, y / 2, i - 1);
    }
  }

  lemma {:induction false} BitNot(x: nat, w: nat, i: nat)
    requires x < Pow2(w)
    ensures Bit(Not(x, w), i) == (i < w && !Bit(x, i))
  {
    if w == 0 {
      BitZero(i);
    } else {
      Halves(Pow2(w - 1) - 1 - x / 2, 1 - x % 2);
      assert Not(x, w) == 2 * Not(x / 2, w - 1) + (1 - x % 2);
    }
    if w == 0 || i == 0 {
    } else {
      BitNot(x / 2, w - 1, i - 1);
    }
  }

  /** The mask of n ones, written `(1 << n) - 1` in the source. */
  lemma {:induction false} BitOnes(n: nat, i: nat)
    ensures Bit(Pow2(n) - 1, i) == (i < n)
  {
    if n == 0 {
      BitZero(i);
    } else {
      Halves(Pow2(n - 1) - 1, 1);
      assert Pow2(n) - 1 == 2 * (Pow2(n - 1) - 1) + 1;
    }
    if n == 0 || i == 0 {
    } else {
      BitOnes(n - 1, i - 1);
    }
  }

  // ----- size and arithmetic meaning

  lemma {:induction false} LowBound(x: nat, n: nat)
    ensures Low(x, n) < Pow2(n)
  {
    if n == 0 {
    } else {
      LowBound(x / 2, n - 1);
    }
  }

  lemma {:induction false} LowSmall(x: nat, n: nat)
    requires x < Pow2(n)
    ensures Low(x, n) == x
  {
    if n == 0 {
    } else {
      LowSmall(x / 2, n - 1);
    }
  }

  lemma {:induction false} ShrBound(x: nat, n: nat, m: nat)
    requires x < Pow2(n + m)
    ensures Shr(x, n) < Pow2(m)
  {
    if n == 0 {
    } else {
      ShrBound(x / 2, n - 1, m);
    }
  }

  lemma {:induction false} ShlBound(x: nat, n: nat, m: nat)
    requires x < Pow2(m)
    ensures Shl(x, n) < Pow2(m + n)
  {
    if n == 0 {
    } else {
      ShlBound(x, n - 1, m);
    }
  }

  lemma {:induction false} ShlOne(n: nat)
    ensures Shl(1, n) == Pow2(n)
  {
    if n == 0 {
    } else {
      ShlOne(n - 1);
    }
  }

  lemma {:induction false} ShlAdd(x: nat, y: nat, n: nat)
    ensures Shl(x + y, n) == Shl(x, n) + Shl(y, n)
  {
    if n == 0 {
    } else {
      ShlAdd(x, y, n - 1);
    }
  }

  lemma {:induction false} ShlShl(x: nat, m: nat, n: nat)
    ensures Shl(Shl(x, m), n) == Shl(x, m + n)
  {
    if n == 0 {
    } else {
      ShlShl(x, m, n - 1);
    }
  }

  lemma {:induction false} Pow2Mono(m: nat, n: nat)
    requires m <= n
    ensures Pow2(m) <= Pow2(n)
  {
    if m == n {
    } else {
      Pow2Mono(m, n - 1);
    }
  }

  lemma {:induction false} Pow2Strict(m: nat, n: nat)
    requires m < n
    ensures Pow2(m) < Pow2(n)
  {
    Pow2Mono(m, n - 1);
  }

  lemma {:induction false} Pow2Add(m: nat, n: nat)
    ensures Pow2(m + n) == Pow2(m) * Pow2(n)
  {
    if n == 0 {
    } else {
      Pow2Add(m, n - 1);
      assert m + n - 1 == m + (n - 1);
    }
  }

  lemma Pow2Values()
    ensures Pow2(0) == 1 && Pow2(1) == 2 && Pow2(2) == 4 && Pow2(3) == 8 && Pow2(4) == 16 && Pow2(5) == 32
    ensures Pow2(6) == 64 && Pow2(7) == 128 && Pow2(8) == 0x100 && Pow2(16) == 0x1_0000
    ensures Pow2(31) == 0x8000_0000 && Pow2(32) == 0x1_0000_0000
    ensures Pow2(63) == 0x8000_0000_0000_0000 && Pow2(64) == 0x1_0000_0000_0000_0000
  {
    assert Pow2(4) == 16;
    Pow2Add(4, 4);
    Pow2Add(8, 8);
    Pow2Add(16, 16);
    Pow2Add(32, 32);
  }

  /** `x & ((1 << n) - 1)` keeps the low n bits. */
  lemma {:induction false} AndOnes(x: nat, n: nat)
    ensures And(x, Pow2(n) - 1) == Low(x, n)
  {
    if n == 0 {
    } else {
      AndOnes(x / 2, n - 1);
      Halves(Pow2(n - 1) - 1, 1);
      assert Pow2(n) - 1 == 2 * (Pow2(n - 1) - 1) + 1;
      if x == 0 { LowSmall(x, n); }
    }
  }

  /** Or-ing disjoint fields is addition. */
  lemma {:induction false} OrDisjoint(a: nat, n: nat, b: nat)
    requires b < Pow2(n)
    ensures Or(Shl(a, n), b) == Shl(a, n) + b
  {
    if n == 0 || Shl(a, n) == 0 || b == 0 {
    } else {
      Halves(Shl(a, n - 1), 0);
      OrDisjoint(a, n - 1, b / 2);
    }
  }

  /** A word is determined by its bits. */
  lemma {:induction false} BitsDetermine(x: nat, y: nat, n: nat)
    requires x < Pow2(n) && y < Pow2(n)
    requires forall i :: 0 <= i < n ==> Bit(x, i) == Bit(y, i)
    ensures x == y
  {
    if n == 0 {
    } else {
      assert Bit(x, 0) == Bit(y, 0);
      forall i | 0 <= i < n - 1 ensures Bit(x / 2, i) == Bit(y / 2, i) {
        assert Bit(x, i + 1) == Bit(y, i + 1);
      }
      BitsDetermine(x / 2, y / 2, n - 1);
    }
  }

  lemma DoubleFactor(x: nat, p: nat)
    ensures 2 * (x * p) == x * (2 * p)
  {
  }

  /** The recursive shifts and truncation are the C++ ones: product, quotient and remainder by a power of two. */
  lemma {:induction false} ShlIsProduct(x: nat, n: nat)
    ensures Shl(x, n) == x * Pow2(n)
  {
    if n == 0 {
    } else {
      ShlIsProduct(x, n - 1);
      DoubleFactor(x, Pow2(n - 1));
    }
  }

  lemma {:induction false} ShrLowIsDivision(x: nat, n: nat)
    ensures x == Shr(x, n) * Pow2(n) + Low(x, n) && Low(x, n) < Pow2(n)
  {
    LowBound(x, n);
    if n == 0 {
    } else {
      ShrLowIsDivision(x / 2, n - 1);
      DoubleFactor(Shr(x / 2, n - 1), Pow2(n - 1));
      assert Low(x, n) == 2 * Low(x / 2, n - 1) + x % 2;
    }
  }

  lemma DivModUnique(x: nat, d: nat, q: nat, r: nat)
    requires d > 0 && r < d && x == q * d + r
    ensures x / d == q && x % d == r
  {
    Multiples(x / d - q, d);
    assert (x / d - q) * d == r - x % d;
  }

  lemma Multiples(k: int, d: int)
    requires d >= 0
    ensures k >= 1 ==> k * d >= d
    ensures k <= -1 ==> k * d <= -d
  {
  }

  /** The quotient and remainder of an explicit decomposition. */
  lemma LowUnique(v: nat, n: nat, q: nat, r: nat)
    requires v == q * Pow2(n) + r && r < Pow2(n)
    ensures Low(v, n) == r && Shr(v, n) == q
  {
    hide Low, Shr, Pow2;
    ShrLowIsDivision(v, n);
    Multiples(Shr(v, n) - q, Pow2(n));
    assert (Shr(v, n) - q) * Pow2(n) == r - Low(v, n);
  }

  // ----- bounds

  lemma {:induction false} ShrAtMost(x: nat, n: nat)
    ensures Shr(x, n) <= x
  {
    if n == 0 {
    } else {
      ShrAtMost(x / 2, n - 1);
    }
  }

  lemma {:induction false} AndAtMost(x: nat, y: nat)
    ensures And(x, y) <= x
  {
    if x == 0 || y == 0 {
    } else {
      AndAtMost(x / 2, y / 2);
    }
  }

  lemma {:induction false} OrBound(x: nat, y: nat, n: nat)
    requires x < Pow2(n) && y < Pow2(n)
    ensures Or(x, y) < Pow2(n)
  {
    if x == 0 || y == 0 {
    } else {
      OrBound(x / 2, y / 2, n - 1);
    }
  }

  lemma {:induction false} HighBits(x: nat, w: nat, i: nat)
    requires x < Pow2(w)
    ensures i >= w ==> !Bit(x, i)
  {
    if i < w {
    } else {
      if w > 0 { HighBits(x / 2, w - 1, i - 1); } else { BitZero(i); }
    }
  }
}
