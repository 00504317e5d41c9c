/** Population count, trailing-zero count and rotation: the portable branches. */
module BitCount {
  import opened Words

  // ----- striped masks

  /** n repetitions of b zeros above b ones: 0x5555..., 0x3333..., 0x0F0F..., 0x00FF... and so on. */
  function Stripe(b: nat, n: nat): nat {
    if n == 0 then 0 else Shl(Stripe(b, n - 1), 2 * b) + (Pow2(b) - 1)
  }

  lemma StripeUnfold(b: nat, n: nat)
    requires n > 0
    ensures Stripe(b, n) == Shl(Stripe(b, n - 1), 2 * b) + (Pow2(b) - 1)
  {
  }

  /** Bit t of the mask with stripes of width 2^j is set exactly when binary digit j of t is clear. */
  lemma {:induction false} StripeBit(j: nat, n: nat, t: nat)
    requires t < 2 * Pow2(j) * n
    ensures Bit(Stripe(Pow2(j), n), t) == !Bit(t, j)
  {
    hide *;
    var b := Pow2(j);
    StripeUnfold(b, n);
    var rest, ones := Stripe(b, n - 1), Pow2(b) - 1;
    Pow2Mono(b, 2 * b);
    OrDisjoint(rest, 2 * b, ones);
    BitOr(Shl(rest, 2 * b), ones, t);
    BitShl(rest, 2 * b, t);
    BitOnes(b, t);
    if t < 2 * b {
      TopDigit(t, j);
    } else {
      StripeRange(b, n, t);
      StripeBit(j, n - 1, t - 2 * b);
      DigitBelow(t - 2 * b, j);
    }
  }

  lemma StripeRange(b: nat, n: nat, t: nat)
    requires n > 0 && 2 * b <= t < 2 * b * n
    ensures t - 2 * b < 2 * b * (n - 1)
  {
    assert 2 * b * n == 2 * b * (n - 1) + 2 * b;
  }

  lemma {:induction false} TopDigit(t: nat, j: nat)
    requires t < 2 * Pow2(j)
    ensures Bit(t, j) <==> t >= Pow2(j)
  {
    if j == 0 {
    } else {
      TopDigit(t / 2, j - 1);
    }
  }

  lemma {:induction false} DigitBelow(u: nat, j: nat)
    ensures Bit(u + 2 * Pow2(j), j) == Bit(u, j)
  {
    if j == 0 {
    } else {
      assert (u + 2 * Pow2(j)) / 2 == u / 2 + 2 * Pow2(j - 1);
      DigitBelow(u / 2, j - 1);
    }
  }

  /** The masks of the source. */
  lemma Masks32()
    ensures Stripe(1, 16) == 0x5555_5555 && Stripe(2, 8) == 0x3333_3333 && Stripe(4, 4) == 0x0F0F_0F0F
    ensures Stripe(8, 2) == 0x00FF_00FF && Stripe(16, 1) == 0x0000_FFFF
  {
    hide Shl, Pow2, Stripe;
    Repeat(1, 0, 0x55);
    Repeat(1, 4, 0x5555);
    Repeat(1, 8, 0x55_5555);
    Repeat(1, 12, 0x5555_5555);
    Repeat(2, 0, 0x3333);
    Repeat(2, 4, 0x3333_3333);
    Repeat(4, 0, 0x0F0F_0F0F);
    Repeat(8, 0, 0x00FF_00FF);
    Repeat(16, 0, 0x0000_FFFF);
  }

  lemma Masks64()
    ensures Stripe(1, 32) == 0x5555_5555_5555_5555 && Stripe(2, 16) == 0x3333_3333_3333_3333
    ensures Stripe(4, 8) == 0x0F0F_0F0F_0F0F_0F0F && Stripe(8, 4) == 0x00FF_00FF_00FF_00FF
    ensures Stripe(16, 2) == 0x0000_FFFF_0000_FFFF && Stripe(32, 1) == 0xFFFF_FFFF
  {
    hide Shl, Pow2, Stripe;
    Masks32();
    Repeat(1, 16, 0x55_5555_5555);
    Repeat(1, 20, 0x5555_5555_5555);
    Repeat(1, 24, 0x55_5555_5555_5555);
    Repeat(1, 28, 0x5555_5555_5555_5555);
    Repeat(2, 8, 0x3333_3333_3333);
    Repeat(2, 12, 0x3333_3333_3333_3333);
    Repeat(4, 4, 0x0F0F_0F0F_0F0F_0F0F);
    Repeat(8, 2, 0x00FF_00FF_00FF_00FF);
    Repeat(16, 1, 0x0000_FFFF_0000_FFFF);
    Repeat(32, 0, 0xFFFF_FFFF);
  }

  /** The next few repetitions of a stripe, by arithmetic. */
  lemma Repeat(b: nat, n: nat, m: nat)
    ensures b == 1 && m == 256 * Stripe(1, n) + 0x55 ==> Stripe(1, n + 4) == m
    ensures b == 2 && m == 65536 * Stripe(2, n) + 0x3333 ==> Stripe(2, n + 4) == m
    ensures b == 4 && m == 0x1_0000_0000 * Stripe(4, n) + 0x0F0F_0F0F ==> Stripe(4, n + 4) == m
    ensures b == 8 && m == 0x1_0000_0000 * Stripe(8, n) + 0x00FF_00FF ==> Stripe(8, n + 2) == m
    ensures b == 16 && m == 0x1_0000_0000 * Stripe(16, n) + 0xFFFF ==> Stripe(16, n + 1) == m
    ensures b == 32 && n == 0 && m == 0xFFFF_FFFF ==> Stripe(32, n + 1) == m
    ensures Stripe(b, 0) == 0
  {
    Pow2Values();
    hide Pow2, Shl;
    if b == 1 {
      FourStripes(b, n, 4, 1);
    } else if b == 2 {
      FourStripes(b, n, 16, 3);
    } else if b == 4 {
      FourStripes(b, n, 256, 15);
    } else if b == 8 || b == 16 {
      ShlIsProduct(Stripe(b, n), 2 * b);
      ShlIsProduct(Stripe(b, n + 1), 2 * b);
    } else if b == 32 && n == 0 {
      ShlIsProduct(0, 64);
    }
  }

  lemma FourStripes(b: nat, n: nat, base: nat, ones: nat)
    requires Pow2(2 * b) == base && Pow2(b) - 1 == ones
    ensures Stripe(b, n + 4) == ((((Stripe(b, n) * base) + ones) * base + ones) * base + ones) * base + ones
  {
    hide Pow2, Shl;
    ShlIsProduct(Stripe(b, n), 2 * b);
    ShlIsProduct(Stripe(b, n + 1), 2 * b);
    ShlIsProduct(Stripe(b, n + 2), 2 * b);
    ShlIsProduct(Stripe(b, n + 3), 2 * b);
  }

  // ----- trailing zeroes

  function Ctz(x: nat): nat
    requires x > 0
  {
    if x % 2 == 1 then 0 else 1 + Ctz(x / 2)
  }

  /** `x & (~x + 1)` keeps the lowest set bit of a w-bit word. */
  lemma {:induction false} LowestBit(x: nat, w: nat)
    requires 0 < x < Pow2(w)
    ensures Not(x, w) + 1 == Pow2(w) - x && And(x, Pow2(w) - x) == Pow2(Ctz(x)) && Ctz(x) < w
  {
    NegationHalves(x, Pow2(w - 1));
    if x % 2 == 1 {
      AndNot(x / 2, w - 1);
    } else {
      LowestBit(x / 2, w - 1);
    }
  }

  lemma NegationHalves(x: nat, p: nat)
    requires x < 2 * p
    ensures x / 2 < p
    ensures x % 2 == 1 ==> (2 * p - x) / 2 == p - 1 - x / 2 && (2 * p - x) % 2 == 1
    ensures x % 2 == 0 ==> (2 * p - x) / 2 == p - x / 2 && (2 * p - x) % 2 == 0
  {
  }

  lemma {:induction false} AndNot(x: nat, w: nat)
    requires x < Pow2(w)
    ensures And(x, Not(x, w)) == 0
  {
    if x == 0 {
    } else {
      assert Not(x, w) / 2 == Not(x / 2, w - 1) && Not(x, w) % 2 == 1 - x % 2;
      AndNot(x / 2, w - 1);
    }
  }

  /** A mask test on a single bit asks whether the mask has that bit. */
  lemma {:induction false} MaskTest(t: nat, mask: nat)
    ensures And(Pow2(t), mask) != 0 <==> Bit(mask, t)
  {
    if t == 0 {
    } else {
      Halves(Pow2(t - 1), 0);
      MaskTest(t - 1, mask / 2);
      if mask == 0 { BitZero(t); }
    }
  }

  /** One mask test of the cascade reads one binary digit of the position. */
  lemma StripeTest(t: nat, j: nat, n: nat)
    requires t < 2 * Pow2(j) * n
    ensures And(Pow2(t), Stripe(Pow2(j), n)) != 0 <==> !Bit(t, j)
  {
    hide *;
    MaskTest(t, Stripe(Pow2(j), n));
    StripeBit(j, n, t);
  }

  function Weight(t: nat, j: nat): nat { if Bit(t, j) then Pow2(j) else 0 }

  /** A number below 2^n is the sum of its binary digits' weights. */
  lemma {:induction false} SixDigits(t: nat)
    requires t < 64
    ensures t == Weight(t, 0) + Weight(t, 1) + Weight(t, 2) + Weight(t, 3) + Weight(t, 4) + Weight(t, 5)
    ensures t < 32 ==> Weight(t, 5) == 0
  {
    assert Pow2(6) == 64 && Pow2(5) == 32;
    DigitSum(t, 6);
    TopDigit(t, 5);
    SixWeights(t);
  }

  lemma SixWeights(t: nat)
    ensures WeightSum(t, 6) == Weight(t, 0) + Weight(t, 1) + Weight(t, 2) + Weight(t, 3) + Weight(t, 4) + Weight(t, 5)
  {
    hide Weight;
    assert WeightSum(t, 1) == Weight(t, 0);
    assert WeightSum(t, 3) == WeightSum(t, 2) + Weight(t, 2);
    assert WeightSum(t, 5) == WeightSum(t, 4) + Weight(t, 4);
  }

  function WeightSum(t: nat, n: nat): nat { if n == 0 then 0 else WeightSum(t, n - 1) + Weight(t, n - 1) }

  lemma {:induction false} DigitSum(t: nat, n: nat)
    ensures Low(t, n) == WeightSum(t, n)
    ensures t < Pow2(n) ==> t == WeightSum(t, n)
  {
    if n == 0 {
    } else {
      DigitSum(t, n - 1);
      LowSnoc(t, n);
    }
    if t < Pow2(n) { LowSmall(t, n); }
  }

  lemma {:induction false} LowSnoc(t: nat, n: nat)
    requires n > 0
    ensures Low(t, n) == Low(t, n - 1) + Weight(t, n - 1)
  {
    if n <= 1 {
    } else {
      LowSnoc(t / 2, n - 1);
    }
  }

  method CountTrailingZeroesNonzero32(x: nat) returns (c: int)
    requires 0 < x < Pow2(32)
    ensures c == Ctz(x)
  {
    hide And, Not, Low, Stripe, Pow2, Ctz, Bit;
    Pow2Values();
    LowestBit(x, 32);
    Masks32();
    ghost var t := Ctz(x);
    LowSmall(Not(x, 32) + 1, 32);
    var y := And(x, Low(Not(x, 32) + 1, 32));
    StripeTest(t, 4, 1);
    StripeTest(t, 3, 2);
    StripeTest(t, 2, 4);
    StripeTest(t, 1, 8);
    StripeTest(t, 0, 16);
    SixDigits(t);
    c := 31;
    if And(y, 0x0000_FFFF) != 0 { c := c - 16; }
    if And(y, 0x00FF_00FF) != 0 { c := c - 8; }
    if And(y, 0x0F0F_0F0F) != 0 { c := c - 4; }
    if And(y, 0x3333_3333) != 0 { c := c - 2; }
    if And(y, 0x5555_5555) != 0 { c := c - 1; }
  }

  method CountTrailingZeroesNonzero64(x: nat) returns (c: int)
    requires 0 < x < Pow2(64)
    ensures c == Ctz(x)
  {
    hide And, Not, Low, Stripe, Pow2, Ctz, Bit;
    Pow2Values();
    LowestBit(x, 64);
    Masks64();
    ghost var t := Ctz(x);
    LowSmall(Not(x, 64) + 1, 64);
    var y := And(x, Low(Not(x, 64) + 1, 64));
    StripeTest(t, 5, 1);
    StripeTest(t, 4, 2);
    StripeTest(t, 3, 4);
    StripeTest(t, 2, 8);
    StripeTest(t, 1, 16);
    StripeTest(t, 0, 32);
    SixDigits(t);
    c := 63;
    if And(y, 0x0000_0000_FFFF_FFFF) != 0 { c := c - 32; }
    if And(y, 0x0000_FFFF_0000_FFFF) != 0 { c := c - 16; }
    if And(y, 0x00FF_00FF_00FF_00FF) != 0 { c := c - 8; }
    if And(y, 0x0F0F_0F0F_0F0F_0F0F) != 0 { c := c - 4; }
    if And(y, 0x3333_3333_3333_3333) != 0 { c := c - 2; }
    if And(y, 0x5555_5555_5555_5555) != 0 { c := c - 1; }
  }

  // ----- population count

  function Pop(x: nat): nat {
    if x == 0 then 0 else x % 2 + Pop(x / 2)
  }

  lemma {:induction false} PopSplit(x: nat, k: nat)
    ensures Pop(x) == Pop(Shr(x, k)) + Pop(Low(x, k))
    ensures Pop(Low(x, k)) <= k
  {
    if k == 0 {
    } else {
      PopSplit(x / 2, k - 1);
      Halves(Low(x / 2, k - 1), x % 2);
    }
  }

  /** The population counts of the n lowest b-bit digits of x, each in its place. */
  function Counts(b: nat, x: nat, n: nat): nat
    decreases n
  {
    if n == 0 then 0 else Shl(Counts(b, Shr(x, b), n - 1), b) + Pop(Low(x, b))
  }

  // ----- digits of b bits

  lemma {:induction false} SplitDigit(a: nat, b: nat, x: nat)
    requires x < Pow2(b)
    ensures Shr(Shl(a, b) + x, b) == a && Low(Shl(a, b) + x, b) == x
  {
    if b == 0 {
    } else {
      Halves(Shl(a, b - 1) + x / 2, x % 2);
      assert Shl(a, b) + x == 2 * (Shl(a, b - 1) + x / 2) + x % 2;
      SplitDigit(a, b - 1, x / 2);
    }
  }

  lemma {:induction false} JoinDigit(x: nat, b: nat)
    ensures x == Shl(Shr(x, b), b) + Low(x, b) && Low(x, b) < Pow2(b)
  {
    LowBound(x, b);
    if b == 0 {
    } else {
      JoinDigit(x / 2, b - 1);
    }
  }

  lemma {:induction false} ShrShr(x: nat, b: nat, c: nat)
    ensures Shr(Shr(x, b), c) == Shr(x, b + c)
  {
    if b == 0 {
    } else {
      ShrShr(x / 2, b - 1, c);
    }
  }

  lemma {:induction false} LowParts(x: nat, b: nat, c: nat)
    ensures Low(x, b + c) == Shl(Low(Shr(x, b), c), b) + Low(x, b)
  {
    if b == 0 {
    } else {
      LowParts(x / 2, b - 1, c);
    }
  }

  lemma AndHalves(x: nat, y: nat)
    ensures And(x, y) == 2 * And(x / 2, y / 2) + if x % 2 == 1 && y % 2 == 1 then 1 else 0
  {
  }

  /** And works digit by digit. */
  lemma {:induction false} AndDigits(a: nat, c: nat, x: nat, y: nat, b: nat)
    requires x < Pow2(b) && y < Pow2(b)
    ensures And(Shl(a, b) + x, Shl(c, b) + y) == Shl(And(a, c), b) + And(x, y)
  {
    hide And, Shl, Pow2;
    if b > 0 {
      HalfDigit(a, x, b);
      HalfDigit(c, y, b);
      HalfDigit(And(a, c), 0, b);
      AndHalves(Shl(a, b) + x, Shl(c, b) + y);
      AndHalves(x, y);
      AndDigits(a, c, x / 2, y / 2, b - 1);
    } else {
      NoDigit(a, c, x, y);
    }
  }

  lemma NoDigit(a: nat, c: nat, x: nat, y: nat)
    requires x < Pow2(0) && y < Pow2(0)
    ensures x == y == 0 && Shl(a, 0) == a && Shl(c, 0) == c && Shl(And(a, c), 0) == And(a, c) && And(x, y) == 0
  {
  }

  lemma HalfDigit(a: nat, x: nat, b: nat)
    requires b > 0 && x < Pow2(b)
    ensures (Shl(a, b) + x) / 2 == Shl(a, b - 1) + x / 2 && (Shl(a, b) + x) % 2 == x % 2
    ensures x / 2 < Pow2(b - 1) && Shl(a, b) == 2 * Shl(a, b - 1)
  {
    Halves(Shl(a, b - 1) + x / 2, x % 2);
  }

  /** Masking with a stripe keeps the lower half of each double digit. */
  lemma AndStripe(a: nat, h: nat, l: nat, b: nat, m: nat)
    requires h < Pow2(b) && l < Pow2(b)
    ensures And(Shl(a, 2 * b) + Shl(h, b) + l, Shl(m, 2 * b) + (Pow2(b) - 1)) == Shl(And(a, m), 2 * b) + l
  {
    hide *;
    DoubleDigit(h, l, b);
    Pow2Mono(b, 2 * b);
    AndDigits(a, m, Shl(h, b) + l, Pow2(b) - 1, 2 * b);
    AndOnes(Shl(h, b) + l, b);
    SplitDigit(h, b, l);
  }

  lemma DoubleDigit(h: nat, l: nat, b: nat)
    requires h < Pow2(b) && l < Pow2(b)
    ensures Shl(h, b) + l < Pow2(2 * b)
  {
    hide *;
    ShlIsProduct(h, b);
    Pow2Add(b, b);
    assert b + b == 2 * b;
    ProductBound(h, l, Pow2(b));
  }

  lemma ProductBound(h: nat, l: nat, p: nat)
    requires h < p && l < p
    ensures h * p + l < p * p
  {
    Multiples(p - h, p);
    assert (p - h) * p == p * p - h * p;
  }

  // ----- the steps of the population count

  /** `x - ((x >> 1) & 0x5555...)` counts within pairs. */
  lemma {:induction false} PairStep(x: nat, n: nat)
    requires x < Pow2(2 * n)
    ensures And(Shr(x, 1), Stripe(1, n)) <= x && x - And(Shr(x, 1), Stripe(1, n)) == Counts(2, x, n)
  {
    hide *;
    if n == 0 {
      Nothing(x);
    } else {
      var h, l, m := Shr(x, 2), Low(x, 2), Stripe(1, n - 1);
      JoinDigit(x, 2);
      ShrBound(x, 2, 2 * (n - 1));
      assert 2 + 2 * (n - 1) == 2 * n;
      PairStep(h, n - 1);
      StripeUnfold(1, n);
      CountsUnfold(2, x, n);
      PairShift(x);
      Pow2Values();
      AndStripe(Shr(h, 1), Low(h, 1), Shr(l, 1), 1, m);
      ShlBy(And(Shr(h, 1), m), h);
      ShlBy(Counts(2, h, n - 1), h);
    }
  }

  lemma Nothing(x: nat)
    requires x < Pow2(2 * 0)
    ensures x == 0 && Shr(x, 1) == 0 && Stripe(1, 0) == 0 && And(0, 0) == 0 && Counts(2, x, 0) == 0
  {
  }

  lemma CountsUnfold(b: nat, x: nat, n: nat)
    requires n > 0
    ensures Counts(b, x, n) == Shl(Counts(b, Shr(x, b), n - 1), b) + Pop(Low(x, b))
  {
  }

  lemma ShlBy(y: nat, h: nat)
    ensures Shl(y, 2) == 4 * y && Shl(h, 2) == 4 * h && Shl(y, 2 * 1) == 4 * y
  {
    assert Shl(y, 1) == 2 * y && Shl(h, 1) == 2 * h;
  }

  /** Shifting right by one, as pairs; and the count of a pair. */
  lemma PairShift(x: nat)
    ensures var h, l := Shr(x, 2), Low(x, 2);
            && Shr(x, 1) == Shl(Shr(h, 1), 2 * 1) + Shl(Low(h, 1), 1) + Shr(l, 1)
            && Low(h, 1) < 2 && Shr(l, 1) < 2 && Pop(l) == l - Shr(l, 1)
  {
    OneBit(x);
    OneBit(x / 2);
    OneBit(x / 2 / 2);
    OneBit(Low(x, 2));
    Halves(x / 2 % 2, x % 2);
    ShlBy(x / 2 / 2 / 2, 0);
    PopPair(x / 2 % 2, x % 2);
  }

  lemma OneBit(x: nat)
    ensures Shr(x, 1) == x / 2 && Shr(x, 2) == x / 2 / 2 && Low(x, 1) == x % 2 && Low(x, 2) == 2 * (x / 2 % 2) + x % 2
    ensures Shl(x, 1) == 2 * x
  {
    assert Shr(x / 2, 1) == x / 2 / 2;
    assert Low(x / 2, 1) == x / 2 % 2 && Low(x, 1) == x % 2;
  }

  lemma PopPair(a: nat, b: nat)
    requires a < 2 && b < 2
    ensures Pop(2 * a + b) == a + b
  {
    assert Pop(0) == 0 && Pop(1) == 1 && Pop(2) == 1 && Pop(3) == 2;
  }

  /** `((y >> b) & m) + (y & m)` joins neighbouring digits that do not fill their fields. */
  lemma {:induction false} MergeStep(b: nat, x: nat, n: nat)
    requires b < Pow2(b)
    ensures var y, m := Counts(b, x, 2 * n), Stripe(b, n);
            And(Shr(y, b), m) + And(y, m) == Counts(2 * b, x, n)
    decreases n
  {
    hide *;
    if n == 0 {
      NothingToMerge(b, x);
    } else {
      var y, y2, m := Counts(b, x, 2 * n), Counts(b, Shr(x, 2 * b), 2 * (n - 1)), Stripe(b, n - 1);
      var h, l := Pop(Low(Shr(x, b), b)), Pop(Low(x, b));
      TwoDigits(b, x, n);
      PopSplit(x, b);
      PopSplit(Shr(x, b), b);
      MergeStep(b, Shr(x, 2 * b), n - 1);
      StripeUnfold(b, n);
      AndStripe(y2, h, l, b, m);
      ShiftedDigits(y2, h, l, b);
      JoinDigit(y2, b);
      AndStripe(Shr(y2, b), Low(y2, b), h, b, m);
      ShlAdd(And(Shr(y2, b), m), And(y2, m), 2 * b);
      CountsUnfold(2 * b, x, n);
      PopDouble(x, b);
    }
  }

  lemma NothingToMerge(b: nat, x: nat)
    ensures Counts(b, x, 2 * 0) == 0 && Stripe(b, 0) == 0 && Counts(2 * b, x, 0) == 0
    ensures And(Shr(0, b), 0) == 0 && And(0, 0) == 0
  {
  }

  lemma PopDouble(x: nat, b: nat)
    ensures Pop(Low(x, 2 * b)) == Pop(Low(Shr(x, b), b)) + Pop(Low(x, b))
  {
    hide *;
    LowParts(x, b, b);
    assert b + b == 2 * b;
    LowBound(x, b);
    SplitDigit(Low(Shr(x, b), b), b, Low(x, b));
    PopSplit(Low(x, 2 * b), b);
  }

  /** The two lowest digits of the counts. */
  lemma TwoDigits(b: nat, x: nat, n: nat)
    requires n > 0
    ensures Counts(b, x, 2 * n)
         == Shl(Counts(b, Shr(x, 2 * b), 2 * (n - 1)), 2 * b) + Shl(Pop(Low(Shr(x, b), b)), b) + Pop(Low(x, b))
  {
    hide *;
    TwoMoreDigits(b, x, 2 * (n - 1));
    assert 2 * (n - 1) + 2 == 2 * n;
  }

  lemma TwoMoreDigits(b: nat, x: nat, k: nat)
    ensures Counts(b, x, k + 2)
         == Shl(Counts(b, Shr(x, 2 * b), k), 2 * b) + Shl(Pop(Low(Shr(x, b), b)), b) + Pop(Low(x, b))
  {
    hide *;
    var rest, h := Counts(b, Shr(x, 2 * b), k), Pop(Low(Shr(x, b), b));
    CountsUnfold(b, x, k + 2);
    CountsUnfold(b, Shr(x, b), k + 1);
    ShrShr(x, b, b);
    ShlAdd(Shl(rest, b), h, b);
    ShlShl(rest, b, b);
    Twice(b);
  }

  lemma Twice(b: nat)
    ensures b + b == 2 * b
  {
  }

  /** Dropping the lowest digit. */
  lemma ShiftedDigits(a: nat, h: nat, l: nat, b: nat)
    requires h < Pow2(b) && l < Pow2(b)
    ensures Shr(Shl(a, 2 * b) + Shl(h, b) + l, b) == Shl(a, b) + h
    ensures Shl(a, b) + h == Shl(Shr(a, b), 2 * b) + Shl(Low(a, b), b) + h
  {
    hide *;
    ShlShl(a, b, b);
    assert b + b == 2 * b;
    ShlAdd(Shl(a, b), h, b);
    SplitDigit(Shl(a, b) + h, b, l);
    JoinDigit(a, b);
    ShlAdd(Shl(Shr(a, b), b), Low(a, b), b);
    ShlShl(Shr(a, b), b, b);
  }

  /** `(z + (z >> b)) & m` joins neighbouring digits when their sums fit their fields. */
  lemma {:induction false} FoldStep(b: nat, x: nat, n: nat)
    requires 2 * b < Pow2(b)
    ensures var z, m := Counts(b, x, 2 * n), Stripe(b, n);
            And(z + Shr(z, b), m) == Counts(2 * b, x, n)
    decreases n
  {
    hide *;
    if n == 0 {
      NothingToMerge(b, x);
      NothingToFold(b);
    } else {
      var x2 := Shr(x, 2 * b);
      var z, z2, m := Counts(b, x, 2 * n), Counts(b, x2, 2 * (n - 1)), Stripe(b, n - 1);
      var h, l := Pop(Low(Shr(x, b), b)), Pop(Low(x, b));
      TwoDigits(b, x, n);
      PopSplit(x, b);
      PopSplit(Shr(x, b), b);
      FoldStep(b, x2, n - 1);
      StripeUnfold(b, n);
      ShiftedDigits(z2, h, l, b);
      LowestDigit(b, x2, 2 * (n - 1));
      ShlAdd(z2, Shr(z2, b), 2 * b);
      ShlAdd(h, Low(z2, b), b);
      AndStripe(z2 + Shr(z2, b), h + Low(z2, b), l + h, b, m);
      CountsUnfold(2 * b, x, n);
      PopDouble(x, b);
    }
  }

  lemma NothingToFold(b: nat)
    ensures And(0 + Shr(0, b), 0) == 0
  {
  }

  lemma LowestDigit(b: nat, x: nat, n: nat)
    requires b < Pow2(b)
    ensures Low(Counts(b, x, n), b) <= b
  {
    hide Pow2, Shl, Shr, Low, Pop;
    if n == 0 {
      LowSmall(0, b);
    } else {
      PopSplit(x, b);
      SplitDigit(Counts(b, Shr(x, b), n - 1), b, Pop(Low(x, b)));
    }
  }

  // ----- the last step: adding up octets by a multiplication

  /** The count of the octet of x at bit k. */
  function OctetCount(x: nat, k: nat): nat { Pop(Low(Shr(x, k), 8)) }

  lemma FourOctets(x: nat, k: nat, n: nat)
    requires n >= 4
    ensures var b0, b1, b2, b3 := OctetCount(x, k), OctetCount(x, k + 8), OctetCount(x, k + 16), OctetCount(x, k + 24);
            && b0 <= 8 && b1 <= 8 && b2 <= 8 && b3 <= 8
            && Pop(Shr(x, k)) == b0 + b1 + b2 + b3 + Pop(Shr(x, k + 32))
            && Counts(8, Shr(x, k), n)
               == b0 + 0x100 * b1 + 0x1_0000 * b2 + 0x100_0000 * b3 + 0x1_0000_0000 * Counts(8, Shr(x, k + 32), n - 4)
  {
    hide Pop, Low, Shr, Counts;
    Octet(x, k, n);
    Octet(x, k + 8, n - 1);
    Octet(x, k + 16, n - 2);
    Octet(x, k + 24, n - 3);
  }

  /** One octet: its count, and the counts of what is above it. */
  lemma Octet(x: nat, k: nat, n: nat)
    requires n > 0
    ensures var y, rest := Shr(x, k), Shr(x, k + 8);
            && Pop(y) == Pop(rest) + Pop(Low(y, 8)) && Pop(Low(y, 8)) <= 8
            && Counts(8, y, n) == 0x100 * Counts(8, rest, n - 1) + Pop(Low(y, 8))
  {
    hide *;
    ShrShr(x, k, 8);
    PopSplit(Shr(x, k), 8);
    CountsUnfold(8, Shr(x, k), n);
    ShlIsProduct(Counts(8, Shr(x, k + 8), n - 1), 8);
    Pow2Values();
  }

  lemma ShrZero(x: nat)
    ensures Shr(x, 0) == x
  {
  }

  lemma Finished(x: nat, w: nat)
    requires x < Pow2(w)
    ensures Pop(Shr(x, w)) == 0 && Counts(8, Shr(x, w), 0) == 0
  {
    ShrBound(x, w, 0);
    hide Shr, Low, Shl;
  }

  method Popcount32(x: nat) returns (r: nat)
    requires x < Pow2(32)
    ensures r == Pop(x)
  {
    hide *;
    Pow2Values();
    Masks32();
    Steps32(x);
    var y := x - And(Shr(x, 1), 0x5555_5555);
    y := Low(And(Shr(y, 2), 0x3333_3333) + And(y, 0x3333_3333), 32);
    y := And(Low(y + Shr(y, 4), 32), 0x0F0F_0F0F);
    ShrZero(x);
    FourOctets(x, 0, 4);
    Finished(x, 32);
    Multiply32(OctetCount(x, 0), OctetCount(x, 8), OctetCount(x, 16), OctetCount(x, 24));
    r := Shr(Low(y * 0x0101_0101, 32), 24);
  }

  lemma Steps32(x: nat)
    requires x < Pow2(32)
    ensures And(Shr(x, 1), Stripe(1, 16)) <= x
    ensures var y1 := x - And(Shr(x, 1), Stripe(1, 16));
            var y2 := Low(And(Shr(y1, 2), Stripe(2, 8)) + And(y1, Stripe(2, 8)), 32);
            And(Low(y2 + Shr(y2, 4), 32), Stripe(4, 4)) == Counts(8, x, 4)
  {
    hide *;
    Pow2Values();
    Masks32();
    PairStep(x, 16);
    MergeStep(2, x, 8);
    CountsBound(4, x, 8);
    LowSmall(Counts(4, x, 8), 32);
    FoldStep(4, x, 4);
    var z := Counts(4, x, 8);
    AndLow(z + Shr(z, 4), Stripe(4, 4), 32);
  }

  lemma {:induction false} AndLow(x: nat, m: nat, w: nat)
    requires m < Pow2(w)
    ensures And(Low(x, w), m) == And(x, m)
  {
    if m == 0 {
    } else {
      AndHalves(x, m);
      AndHalves(Low(x, w), m);
      Halves(Low(x / 2, w - 1), x % 2);
      hide And;
      AndLow(x / 2, m / 2, w - 1);
    }
  }

  /** Nibble counts fit the word. */
  lemma {:induction false} CountsBound(b: nat, x: nat, n: nat)
    requires b == 4
    ensures Counts(b, x, n) < Pow2(4 * n)
    decreases n
  {
    hide Shl, Shr, Low, Pop;
    if n == 0 {
    } else {
      CountsBound(b, Shr(x, b), n - 1);
      PopSplit(x, b);
      ShlIsProduct(Counts(b, Shr(x, b), n - 1), 4);
      Pow2Add(4 * (n - 1), 4);
      assert 4 * (n - 1) + 4 == 4 * n && Pow2(4) == 16;
    }
  }

  /** Multiplying by 0x01010101 puts the sum of the octets in the top one. */
  lemma Multiply32(b0: nat, b1: nat, b2: nat, b3: nat)
    requires b0 <= 8 && b1 <= 8 && b2 <= 8 && b3 <= 8
    ensures Shr(Low((b0 + 0x100 * b1 + 0x1_0000 * b2 + 0x100_0000 * b3) * 0x0101_0101, 32), 24) == b0 + b1 + b2 + b3
  {
    hide *;
    Pow2Values();
    assert Pow2(24) == 0x100_0000 by { Pow2Add(8, 16); }
    var sum, tail := b0 + b1 + b2 + b3, b0 + 0x100 * (b0 + b1) + 0x1_0000 * (b0 + b1 + b2);
    var over := b1 + b2 + b3 + 0x100 * (b2 + b3) + 0x1_0000 * b3;
    var v := (b0 + 0x100 * b1 + 0x1_0000 * b2 + 0x100_0000 * b3) * 0x0101_0101;
    LowUnique(v, 32, over, sum * 0x100_0000 + tail);
    LowUnique(sum * 0x100_0000 + tail, 24, sum, tail);
  }

  // ----- the same for 64 bits

  lemma Steps64(x: nat)
    requires x < Pow2(64)
    ensures And(Shr(x, 1), Stripe(1, 32)) <= x
    ensures var y1 := x - And(Shr(x, 1), Stripe(1, 32));
            var y2 := Low(And(Shr(y1, 2), Stripe(2, 16)) + And(y1, Stripe(2, 16)), 64);
            And(Low(y2 + Shr(y2, 4), 64), Stripe(4, 8)) == Counts(8, x, 8)
  {
    hide *;
    Pow2Values();
    Masks64();
    PairStep(x, 32);
    MergeStep(2, x, 16);
    CountsBound(4, x, 16);
    LowSmall(Counts(4, x, 16), 64);
    FoldStep(4, x, 8);
    var z := Counts(4, x, 16);
    AndLow(z + Shr(z, 4), Stripe(4, 8), 64);
  }

  /** Multiplying by 0x0101010101010101 puts the sum of the octets in the top one. */
  lemma Multiply64(b0: nat, b1: nat, b2: nat, b3: nat, b4: nat, b5: nat, b6: nat, b7: nat)
    requires b0 <= 8 && b1 <= 8 && b2 <= 8 && b3 <= 8 && b4 <= 8 && b5 <= 8 && b6 <= 8 && b7 <= 8
    ensures var low := b0 + 0x100 * b1 + 0x1_0000 * b2 + 0x100_0000 * b3;
            var high := b4 + 0x100 * b5 + 0x1_0000 * b6 + 0x100_0000 * b7;
            Shr(Low((low + 0x1_0000_0000 * high) * 0x0101_0101_0101_0101, 64), 56)
            == b0 + b1 + b2 + b3 + b4 + b5 + b6 + b7
  {
    hide *;
    Pow2Values();
    assert Pow2(56) == 0x100_0000_0000_0000 by { Pow2Add(8, 16); Pow2Add(24, 32); }
    var s1, s2, s3 := b0 + b1, b0 + b1 + b2, b0 + b1 + b2 + b3;
    var s4, s5, s6 := s3 + b4, s3 + b4 + b5, s3 + b4 + b5 + b6;
    var sum := s6 + b7;
    var tail := b0 + 0x100 * s1 + 0x1_0000 * s2 + 0x100_0000 * s3
                + 0x1_0000_0000 * (s4 + 0x100 * s5 + 0x1_0000 * s6);
    var over := (sum - b0) + 0x100 * (sum - s1) + 0x1_0000 * (sum - s2) + 0x100_0000 * (sum - s3)
                + 0x1_0000_0000 * ((sum - s4) + 0x100 * (sum - s5) + 0x1_0000 * (sum - s6));
    var v := (b0 + 0x100 * b1 + 0x1_0000 * b2 + 0x100_0000 * b3
              + 0x1_0000_0000 * (b4 + 0x100 * b5 + 0x1_0000 * b6 + 0x100_0000 * b7)) * 0x0101_0101_0101_0101;
    LowUnique(v, 64, over, sum * 0x100_0000_0000_0000 + tail);
    LowUnique(sum * 0x100_0000_0000_0000 + tail, 56, sum, tail);
  }

  method Popcount64(x: nat) returns (r: nat)
    requires x < Pow2(64)
    ensures r == Pop(x)
  {
    hide *;
    Pow2Values();
    Masks64();
    Steps64(x);
    var y := x - And(Shr(x, 1), 0x5555_5555_5555_5555);
    y := Low(And(Shr(y, 2), 0x3333_3333_3333_3333) + And(y, 0x3333_3333_3333_3333), 64);
    y := And(Low(y + Shr(y, 4), 64), 0x0F0F_0F0F_0F0F_0F0F);
    ShrZero(x);
    FourOctets(x, 0, 8);
    FourOctets(x, 32, 4);
    Finished(x, 64);
    Multiply64(OctetCount(x, 0), OctetCount(x, 8), OctetCount(x, 16), OctetCount(x, 24),
               OctetCount(x, 32), OctetCount(x, 40), OctetCount(x, 48), OctetCount(x, 56));
    r := Shr(Low(y * 0x0101_0101_0101_0101, 64), 56);
  }

  // ----- rotation

  /** The bits of a 32-bit int in two's complement. */
  function Pattern(s: int): nat { s % 0x1_0000_0000 }

  /** `s & (w - 1)` for a width w of 2^k bits. */
  function ShiftCount(s: int, k: nat): nat { And(Pattern(s), Pow2(k) - 1) }

  /** `(x << (s & (w-1))) | (x >> (-s & (w-1)))` for a word of w = 2^k bits; s may be negative. */
  function RotateLeft(x: nat, s: int, k: nat): nat {
    Or(Low(Shl(x, ShiftCount(s, k)), Pow2(k)), Shr(x, ShiftCount(-s, k)))
  }

  function RotateRight(x: nat, s: int, k: nat): nat {
    Or(Shr(x, ShiftCount(s, k)), Low(Shl(x, ShiftCount(-s, k)), Pow2(k)))
  }

  /** Masking a count, negative or not, is its remainder by the width. */
  lemma ShiftCountIsMod(s: int, k: nat)
    requires k <= 32
    ensures ShiftCount(s, k) == s % Pow2(k)
  {
    hide And, Pow2, Low;
    var p, d, e := Pattern(s), Pow2(k), Pow2(32 - k);
    AndOnes(p, k);
    LowUnique(p, k, p / d, p % d);
    Pow2Values();
    Pow2Add(k, 32 - k);
    assert k + (32 - k) == 32;
    ModOfMod(s, s / 0x1_0000_0000, d, e, p / d, p % d);
  }

  lemma ModOfMod(s: int, q: int, d: nat, e: nat, j: int, r: nat)
    requires r < d && s == q * (d * e) + (j * d + r)
    ensures s % d == r
  {
    assert q * (d * e) == q * e * d;
    IntMod(s, d, q * e + j, r);
  }

  lemma IntMod(x: int, d: nat, q: int, r: nat)
    requires r < d && x == q * d + r
    ensures x % d == r
  {
    Multiples(x / d - q, d);
    assert (x / d - q) * d == r - x % d;
  }

  /** Where position i comes from, on a ring of w places. */
  lemma RingPositions(s: int, i: nat, w: nat)
    requires i < w
    ensures (-s) % w == if s % w == 0 then 0 else w - s % w
    ensures (i - s) % w == if i >= s % w then i - s % w else i - s % w + w
    ensures (i + s) % w == if i + s % w < w then i + s % w else i + s % w - w
  {
    var q, r := s / w, s % w;
    assert s == q * w + r;
    RingSum(-s, w, -q, -r);
    RingSum(i - s, w, -q, i - r);
    RingSum(i + s, w, q, i + r);
  }

  lemma RingSum(x: int, w: nat, q: int, r: int)
    requires 0 < r + w && r < 2 * w && x == q * w + r
    ensures x % w == if r < 0 then r + w else if r < w then r else r - w
  {
    if r < 0 {
      IntMod(x, w, q - 1, r + w);
    } else if r < w {
      IntMod(x, w, q, r);
    } else {
      IntMod(x, w, q + 1, r - w);
    }
  }

  /** Rotation moves every bit s places, around the word, for any s. */
  lemma RotateBits(x: nat, s: int, k: nat, i: nat)
    requires k <= 32 && x < Pow2(Pow2(k)) && i < Pow2(k)
    ensures Bit(RotateLeft(x, s, k), i) == Bit(x, (i - s) % Pow2(k))
    ensures Bit(RotateRight(x, s, k), i) == Bit(x, (i + s) % Pow2(k))
  {
    hide Or, Low, Shl, Shr, Bit, Pow2, ShiftCount;
    var w, r, n := Pow2(k), ShiftCount(s, k), ShiftCount(-s, k);
    ShiftCountIsMod(s, k);
    ShiftCountIsMod(-s, k);
    RingPositions(s, i, w);
    BitOr(Low(Shl(x, r), w), Shr(x, n), i);
    BitLow(Shl(x, r), w, i);
    BitShl(x, r, i);
    BitShr(x, n, i);
    BitOr(Shr(x, r), Low(Shl(x, n), w), i);
    BitShr(x, r, i);
    BitLow(Shl(x, n), w, i);
    BitShl(x, n, i);
    HighBits(x, w, i + n);
    HighBits(x, w, i + r);
  }

  /** Rotating back restores the word. */
  lemma RotateInverse(x: nat, s: int, k: nat)
    requires k <= 32 && x < Pow2(Pow2(k))
    ensures RotateLeft(x, s, k) < Pow2(Pow2(k)) && RotateRight(RotateLeft(x, s, k), s, k) == x
  {
    hide Or, Low, Shl, Shr, Bit, Pow2, RotateLeft, RotateRight;
    var w, y := Pow2(k), RotateLeft(x, s, k);
    RotateBound(x, s, k);
    RotateBound(y, s, k);
    var z := RotateRight(y, s, k);
    forall i | 0 <= i < w ensures Bit(z, i) == Bit(x, i) {
      RotateBits(y, s, k, i);
      RingBack(s, i, w);
      RotateBits(x, s, k, (i + s) % w);
    }
    BitsDetermine(z, x, w);
  }

  lemma RingBack(s: int, i: nat, w: nat)
    requires i < w
    ensures 0 <= (i + s) % w < w && ((i + s) % w - s) % w == i
  {
    var q := (i + s) / w;
    assert i + s == q * w + (i + s) % w;
    IntMod((i + s) % w - s, w, -q, i);
  }

  lemma RotateBound(x: nat, s: int, k: nat)
    requires x < Pow2(Pow2(k))
    ensures RotateLeft(x, s, k) < Pow2(Pow2(k)) && RotateRight(x, s, k) < Pow2(Pow2(k))
  {
    hide Or, Low, Shl, Shr, Pow2, ShiftCount;
    var w, r, n := Pow2(k), ShiftCount(s, k), ShiftCount(-s, k);
    LowBound(Shl(x, r), w);
    LowBound(Shl(x, n), w);
    ShrAtMost(x, r);
    ShrAtMost(x, n);
    OrBound(Low(Shl(x, r), w), Shr(x, n), w);
    OrBound(Shr(x, r), Low(Shl(x, n), w), w);
  }
}
