/** Leading-zero counting, bit_width, bit_floor and bit_ceil: the portable branches. */
module BitWidth {
  import opened Words

  /** The number of binary digits of x. */
  function Width(x: nat): nat {
    if x == 0 then 0 else 1 + Width(x / 2)
  }

  /** Width(x) is the unique n with 2^(n-1) <= x < 2^n, and 0 for 0. */
  lemma {:induction false} WidthBounds(x: nat)
    ensures x < Pow2(Width(x))
    ensures x > 0 ==> Width(x) > 0 && Pow2(Width(x) - 1) <= x
  {
    if x == 0 {
    } else {
      WidthBounds(x / 2);
    }
  }

  lemma WidthUnique(x: nat, n: nat)
    requires x < Pow2(n) && (n > 0 ==> Pow2(n - 1) <= x)
    ensures n == Width(x)
  {
    WidthBounds(x);
    if n < Width(x) {
      Pow2Mono(n, Width(x) - 1);
    } else if Width(x) < n {
      Pow2Mono(Width(x), n - 1);
    }
  }

  lemma {:induction false} WidthAtMost(x: nat, n: nat)
    requires x < Pow2(n)
    ensures Width(x) <= n
  {
    if x == 0 {
    } else {
      WidthAtMost(x / 2, n - 1);
    }
  }

  lemma {:induction false} WidthShr(x: nat, n: nat)
    ensures Width(Shr(x, n)) == if Width(x) >= n then Width(x) - n else 0
  {
    if n == 0 {
    } else {
      WidthShr(x / 2, n - 1);
    }
  }

  /** The top bit of a number is bit Width - 1. */
  lemma {:induction false} TopBit(x: nat, i: nat)
    ensures i >= Width(x) ==> !Bit(x, i)
    ensures x > 0 ==> Bit(x, Width(x) - 1)
  {
    if x == 0 {
      BitZero(i);
    } else if x > 1 {
      TopBit(x / 2, if i > 0 then i - 1 else 0);
    } else if i > 0 {
      BitZero(i - 1);
    }
  }

  /** The 15-character string literal of the source; its terminating zero is entry 15. */
  const NIBBLE_ZEROES: seq<int> := [4, 3, 2, 2, 1, 1, 1, 1, 0, 0, 0, 0, 0, 0, 0, 0]

  lemma NibbleLookup(x: nat)
    requires Width(x) <= 4
    ensures x < 16 && NIBBLE_ZEROES[x] == 4 - Width(x)
  {
    WidthBounds(x);
    Pow2Mono(Width(x), 4);
    assert Pow2(4) == 16;
    WidthUnique(0, 0);
    if x > 0 { WidthUnique(x, if x < 2 then 1 else if x < 4 then 2 else if x < 8 then 3 else 4); }
  }

  /** One rung of the cascade: when the part above n bits is nonzero, keep it and lower the count. */
  method HalveIfHigh(x: nat, zeroes: int, n: nat) returns (y: nat, z: int)
    requires Width(x) <= 2 * n
    ensures Width(y) <= n
    ensures z - Width(y) == zeroes - Width(x)
  {
    y, z := x, zeroes;
    WidthShr(x, n);
    if Shr(x, n) != 0 {
      z := z - n;
      y := Shr(x, n);
    }
  }

  method CountLeadingZeroes32(x: nat) returns (r: int)
    requires x < Pow2(32)
    ensures r == 32 - Width(x)
  {
    WidthAtMost(x, 32);
    var y, zeroes := HalveIfHigh(x, 28, 16);
    y, zeroes := HalveIfHigh(y, zeroes, 8);
    y, zeroes := HalveIfHigh(y, zeroes, 4);
    NibbleLookup(y);
    r := NIBBLE_ZEROES[y] + zeroes;
  }

  method CountLeadingZeroes64(x: nat) returns (r: int)
    requires x < Pow2(64)
    ensures r == 64 - Width(x)
  {
    WidthAtMost(x, 64);
    var y, zeroes := HalveIfHigh(x, 60, 32);
    y, zeroes := HalveIfHigh(y, zeroes, 16);
    y, zeroes := HalveIfHigh(y, zeroes, 8);
    y, zeroes := HalveIfHigh(y, zeroes, 4);
    NibbleLookup(y);
    r := NIBBLE_ZEROES[y] + zeroes;
  }

  /** bit_width at the two unsigned widths the library instantiates it for. */
  method BitWidth32(x: nat) returns (n: nat)
    requires x < Pow2(32)
    ensures n <= 32 && x < Pow2(n) && (n > 0 ==> Pow2(n - 1) <= x)
    ensures n == Width(x)
  {
    var z := CountLeadingZeroes32(x);
    WidthAtMost(x, 32);
    WidthBounds(x);
    n := 32 - z;
  }

  method BitWidth64(x: nat) returns (n: nat)
    requires x < Pow2(64)
    ensures n <= 64 && x < Pow2(n) && (n > 0 ==> Pow2(n - 1) <= x)
    ensures n == Width(x)
  {
    var z := CountLeadingZeroes64(x);
    WidthAtMost(x, 64);
    WidthBounds(x);
    n := 64 - z;
  }

  ghost predicate IsPow2(y: nat) {
    exists k: nat :: y == Pow2(k)
  }

  predicate HasSingleBit(x: nat) {
    x != 0 && And(x, x - 1) == 0
  }

  /** `x != 0 && (x & (x - 1)) == 0` recognises exactly the powers of two. */
  lemma {:induction false} SingleBitIsPow2(x: nat)
    ensures HasSingleBit(x) <==> x != 0 && x == Pow2(Width(x) - 1)
    ensures HasSingleBit(x) <==> IsPow2(x)
  {
    if x <= 1 {
    } else {
      SingleBitIsPow2(x / 2);
      if x % 2 == 0 {
        assert (x - 1) / 2 == x / 2 - 1;
        assert And(x, x - 1) == 2 * And(x / 2, x / 2 - 1);
      } else {
        assert (x - 1) / 2 == x / 2;
        AndSelf(x / 2);
      }
    }
    forall k: nat | x == Pow2(k) ensures x != 0 && x == Pow2(Width(x) - 1) {
      WidthUnique(x, k + 1);
    }
  }

  lemma {:induction false} AndSelf(x: nat)
    ensures And(x, x) == x
  {
    if x == 0 {
    } else {
      AndSelf(x / 2);
    }
  }

  /** y is the greatest power of two not above x. */
  ghost predicate GreatestPow2(y: nat, x: nat) {
    IsPow2(y) && y <= x && forall k: nat :: Pow2(k) <= x ==> Pow2(k) <= y
  }

  /** y is the least power of two not below x. */
  ghost predicate LeastPow2(y: nat, x: nat) {
    IsPow2(y) && x <= y && forall k: nat :: x <= Pow2(k) ==> y <= Pow2(k)
  }

  lemma FloorIs(x: nat)
    requires x > 0
    ensures Width(x) > 0 && GreatestPow2(Shl(1, Width(x) - 1), x)
  {
    hide Width, Shl, Pow2;
    WidthBounds(x);
    var n := Width(x);
    ShlOne(n - 1);
    forall k: nat | Pow2(k) <= x ensures Pow2(k) <= Pow2(n - 1) {
      if k > n - 1 { Pow2Mono(n, k); }
      Pow2Mono(k, n - 1);
    }
  }

  /** The value of bit_ceil, which fits w bits when x is at most 2^(w-1). */
  lemma CeilIs(x: nat, w: nat)
    requires w > 0 && x <= Pow2(w - 1)
    ensures HasSingleBit(x) ==> Width(x) > 0 && LeastPow2(Shl(1, Width(x) - 1), x) && Shl(1, Width(x) - 1) == x
    ensures !HasSingleBit(x) ==> LeastPow2(Shl(1, Width(x)), x) && Shl(1, Width(x)) < Pow2(w)
    ensures x < Pow2(w)
  {
    hide Width, Shl, HasSingleBit, Pow2;
    Pow2Strict(w - 1, w);
    SingleBitIsPow2(x);
    WidthBounds(x);
    if HasSingleBit(x) {
      ShlOne(Width(x) - 1);
    } else {
      var n := Width(x);
      assert x == Pow2(w - 1) ==> IsPow2(x);
      WidthAtMost(x, w - 1);
      ShlOne(n);
      Pow2Mono(n, w - 1);
      forall k: nat | x <= Pow2(k) ensures Pow2(n) <= Pow2(k) {
        CeilLeast(x, k);
      }
    }
  }

  /** bit_floor. */
  method BitFloor32(x: nat) returns (y: nat)
    requires x < Pow2(32)
    ensures if x == 0 then y == 0 else GreatestPow2(y, x)
  {
    hide Width, Shl, Pow2, GreatestPow2;
    if x == 0 {
      y := 0;
    } else {
      FloorIs(x);
      var n := BitWidth32(x);
      y := Shl(1, n - 1);
    }
  }

  method BitFloor64(x: nat) returns (y: nat)
    requires x < Pow2(64)
    ensures if x == 0 then y == 0 else GreatestPow2(y, x)
  {
    hide Width, Shl, Pow2, GreatestPow2;
    if x == 0 {
      y := 0;
    } else {
      FloorIs(x);
      var n := BitWidth64(x);
      y := Shl(1, n - 1);
    }
  }

  /** bit_ceil, when the word can hold it. */
  method BitCeil32(x: nat) returns (y: nat)
    requires x <= Pow2(31)
    ensures LeastPow2(y, x) && y < Pow2(32)
  {
    hide Width, Shl, HasSingleBit, Pow2, LeastPow2;
    CeilIs(x, 32);
    if HasSingleBit(x) {
      var n := BitWidth32(x);
      y := Shl(1, n - 1);
    } else {
      var z := CountLeadingZeroes32(x);
      y := Shl(1, 32 - z);
    }
  }

  method BitCeil64(x: nat) returns (y: nat)
    requires x <= Pow2(63)
    ensures LeastPow2(y, x) && y < Pow2(64)
  {
    hide Width, Shl, HasSingleBit, Pow2, LeastPow2;
    CeilIs(x, 64);
    if HasSingleBit(x) {
      var n := BitWidth64(x);
      y := Shl(1, n - 1);
    } else {
      var z := CountLeadingZeroes64(x);
      y := Shl(1, 64 - z);
    }
  }

  lemma CeilLeast(x: nat, k: nat)
    requires !IsPow2(x) && x <= Pow2(k)
    ensures Pow2(Width(x)) <= Pow2(k)
  {
    assert x != Pow2(k);
    WidthAtMost(x, k);
    Pow2Mono(Width(x), k);
  }
}
