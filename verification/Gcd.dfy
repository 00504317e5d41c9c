/** Greatest common divisor, recursive and iterative, and least common multiple, on every integer type. */
module Gcd {
  import opened SafeCompare

  function Abs(x: int): nat { if x < 0 then -x else x }

  /** The remainder of the source language, which takes the sign of the dividend. */
  function Rem(a: int, b: int): int
    requires b != 0
  {
    if a < 0 then -(Abs(a) % Abs(b)) as int else Abs(a) % Abs(b)
  }

  function Times(d: int, k: int): int { d * k }

  ghost predicate Divides(d: nat, n: nat) {
    exists k: nat :: n == Times(d, k)
  }

  /** g divides both numbers, and every common divisor divides g. */
  ghost predicate IsGcd(g: nat, a: nat, b: nat) {
    Divides(g, a) && Divides(g, b) && forall d: nat :: Divides(d, a) && Divides(d, b) ==> Divides(d, g)
  }

  // ----- divisibility

  lemma DividesProduct(d: nat, a: nat, q: nat, b: nat)
    requires Divides(d, a) && Divides(d, b)
    ensures Divides(d, q * a + b)
  {
    var j: nat :| a == Times(d, j);
    var k: nat :| b == Times(d, k);
    Distribute(d, q, j, k);
    assert q * a + b == Times(d, q * j + k);
  }

  lemma Distribute(d: int, q: int, j: int, k: int)
    ensures q * (d * j) + d * k == d * (q * j + k)
  {
  }

  lemma DividesRest(d: nat, a: nat, q: nat, b: nat)
    requires Divides(d, a) && Divides(d, q * a + b)
    ensures Divides(d, b)
  {
    var j: nat :| a == Times(d, j);
    var k: nat :| q * a + b == Times(d, k);
    Distribute(d, 0 - q, j, k);
    var m := k - q * j;
    assert b == d * m;
    Cofactor(d, m);
    assert b == Times(d, if m >= 0 then m else 0);
  }

  lemma Cofactor(d: nat, m: int)
    requires d * m >= 0
    ensures m < 0 ==> d * m == 0 == d * 0
  {
  }

  lemma DividesSelf(a: nat)
    ensures Divides(a, a) && Divides(a, 0)
  {
    assert a == Times(a, 1) && 0 == Times(a, 0);
  }

  lemma DividesEachOther(a: nat, b: nat)
    requires Divides(a, b) && Divides(b, a)
    ensures a == b
  {
    var j: nat :| b == Times(a, j);
    var k: nat :| a == Times(b, k);
    MutualFactors(a, b, j, k);
  }

  lemma MutualFactors(a: nat, b: nat, j: nat, k: nat)
    requires b == a * j && a == b * k
    ensures a == b
  {
    if j >= 1 { assert b >= a; }
    if k >= 1 { assert a >= b; }
  }

  lemma GcdUnique(g: nat, h: nat, a: nat, b: nat)
    requires IsGcd(g, a, b) && IsGcd(h, a, b)
    ensures g == h
  {
    DividesEachOther(g, h);
  }

  // ----- Euclid's algorithm

  function Euclid(a: nat, b: nat): (g: nat)
    ensures a > 0 || b > 0 ==> g > 0
    decreases b
  {
    if b == 0 then a else Euclid(b, a % b)
  }

  lemma {:induction false} EuclidIsGcd(a: nat, b: nat)
    ensures IsGcd(Euclid(a, b), a, b)
    decreases b
  {
    if b == 0 {
      DividesSelf(a);
    } else {
      EuclidIsGcd(b, a % b);
      StepIsGcd(Euclid(b, a % b), a / b, b, a % b);
      assert a == a / b * b + a % b;
    }
  }

  lemma StepIsGcd(g: nat, q: nat, b: nat, r: nat)
    requires IsGcd(g, b, r)
    ensures IsGcd(g, q * b + r, b)
  {
    DividesProduct(g, b, q, r);
    forall d: nat | Divides(d, q * b + r) && Divides(d, b) ensures Divides(d, g) {
      DividesRest(d, b, q, r);
    }
  }

  // ----- the two versions of the source, for a type c

  /** utils::abs. The magnitude of the least integer of a signed type wraps around. */
  function AbsIn(c: IntType, v: int): int { if Signed(c) then Cast(c, Abs(v)) else v }

  /** The recursive version; note that it returns a unchanged when b is zero. */
  function GcdRecursive(c: IntType, a: int, b: int): int
    decreases Abs(b)
  {
    if b == 0 then a else AbsIn(c, GcdRecursive(c, b, Rem(a, b)))
  }

  lemma RemFacts(c: IntType, a: int, b: int)
    requires InRange(c, a) && InRange(c, b) && b != 0
    ensures InRange(c, Rem(a, b)) && Abs(Rem(a, b)) == Abs(a) % Abs(b)
    ensures Euclid(Abs(a), Abs(b)) == Euclid(Abs(b), Abs(Rem(a, b)))
  {
    hide Lowest, Highest;
    RangeFacts(c);
    RemainderAtMost(Abs(a), Abs(b));
    EuclidUnfold(Abs(a), Abs(b));
    hide Euclid;
  }

  lemma RangeFacts(c: IntType)
    ensures Lowest(c) <= 0 < Highest(c)
    ensures if Signed(c) then Highest(c) == -Lowest(c) - 1 else Lowest(c) == 0
  {
  }

  lemma RemainderAtMost(a: nat, b: nat)
    requires b > 0
    ensures a % b <= a && a % b < b
  {
    Division(a, b);
    Signs(b, a / b);
  }

  lemma {:induction false} EuclidBound(a: nat, b: nat)
    ensures b > 0 ==> Euclid(a, b) <= b
    ensures a > 0 ==> Euclid(a, b) <= a
    decreases b
  {
    hide Euclid;
    EuclidUnfold(a, b);
    if b == 0 {
    } else {
      RemainderAtMost(a, b);
      EuclidBound(b, a % b);
      EuclidZero(b);
      if a < b { SmallRemainder(a, b); }
    }
  }

  /** A magnitude that fits, or is that of the least integer, is its own absolute value in the type. */
  lemma AbsCast(c: IntType, e: nat)
    requires e <= if Signed(c) then -Lowest(c) else Highest(c)
    ensures AbsIn(c, Cast(c, e)) == Cast(c, e)
    ensures !Signed(c) ==> Cast(c, e) == e
  {
    hide Lowest, Highest;
    RangeFacts(c);
    if e <= Highest(c) { CastExact(c, e); } else { LeastInteger(c); }
    hide Cast;
  }

  lemma LeastInteger(c: IntType)
    requires Signed(c)
    ensures Cast(c, -Lowest(c)) == Lowest(c)
  {
  }

  lemma {:induction false} RecursiveIsEuclid(c: IntType, a: int, b: int)
    requires InRange(c, a) && InRange(c, b)
    ensures GcdRecursive(c, a, b) == if b == 0 then a else Cast(c, Euclid(Abs(a), Abs(b)))
    decreases Abs(b)
  {
    hide Euclid, Lowest, Highest, Cast, AbsIn, Rem;
    if b == 0 {
    } else {
      var r := Rem(a, b);
      RemFacts(c, a, b);
      RangeFacts(c);
      RemainderAtMost(Abs(a), Abs(b));
      RecursiveIsEuclid(c, b, r);
      EuclidBound(Abs(b), Abs(r));
      EuclidZero(Abs(b));
      AbsCast(c, Euclid(Abs(b), Abs(r)));
      AbsOf(c, b);
    }
  }

  lemma AbsOf(c: IntType, v: int)
    requires InRange(c, v)
    ensures AbsIn(c, v) == Cast(c, Abs(v))
  {
    hide Lowest, Highest;
    RangeFacts(c);
    if !Signed(c) { CastExact(c, v); }
    hide Cast;
  }

  method GcdIterative(c: IntType, a0: int, b0: int) returns (g: int)
    requires InRange(c, a0) && InRange(c, b0)
    ensures g == Cast(c, Euclid(Abs(a0), Abs(b0)))
  {
    hide Euclid, Lowest, Highest, Cast, AbsIn, Rem, InRange;
    var a, b := a0, b0;
    while b != 0
      invariant InRange(c, a) && InRange(c, b)
      invariant Euclid(Abs(a), Abs(b)) == Euclid(Abs(a0), Abs(b0))
      decreases Abs(b)
    {
      RemFacts(c, a, b);
      RemainderAtMost(Abs(a), Abs(b));
      var temp := b;
      b := Rem(a, b);
      a := temp;
    }
    EuclidZero(Abs(a));
    AbsOf(c, a);
    g := AbsIn(c, a);
  }

  /** Both arguments are zero or the least integer of a signed type, and not both are zero. */
  predicate OnlyLeast(c: IntType, a: int, b: int) {
    Signed(c) && (a == 0 || a == Lowest(c)) && (b == 0 || b == Lowest(c)) && (a != 0 || b != 0)
  }

  /** The greatest common divisor is a value of the type, except when it is the magnitude of the least one. */
  lemma GcdFits(c: IntType, a: int, b: int)
    requires InRange(c, a) && InRange(c, b)
    ensures InRange(c, Euclid(Abs(a), Abs(b))) <==> !OnlyLeast(c, a, b)
  {
    hide Euclid, Lowest, Highest, Divides;
    RangeFacts(c);
    var g := Euclid(Abs(a), Abs(b));
    EuclidBound(Abs(a), Abs(b));
    EuclidZero(0);
    if OnlyLeast(c, a, b) {
      EuclidEqual(Abs(Lowest(c)));
    } else if g > Highest(c) {
      EuclidIsGcd(Abs(a), Abs(b));
      DivisorOrZero(g, Abs(a));
      DivisorOrZero(g, Abs(b));
    }
  }

  lemma DivisorOrZero(g: nat, x: nat)
    ensures Divides(g, x) ==> x == 0 || g <= x
  {
    hide Divides;
    if Divides(g, x) && x > 0 { DivisorBound(g, x); }
  }

  lemma EuclidEqual(m: nat)
    ensures Euclid(m, m) == m && Euclid(0, m) == m && Euclid(m, 0) == m
  {
    hide Euclid;
    EuclidUnfold(m, m);
    EuclidUnfold(0, m);
    EuclidZero(m);
    if m > 0 { SmallRemainder(0, m); }
    assert m > 0 ==> m % m == 0;
  }

  /** For every integer type, the iterative version gives the greatest common divisor exactly when the type can
  hold it, and the recursive one exactly when, moreover, b is not zero or a is not negative. */
  lemma GcdExact(c: IntType, a: int, b: int)
    requires InRange(c, a) && InRange(c, b)
    ensures IsGcd(Euclid(Abs(a), Abs(b)), Abs(a), Abs(b))
    ensures Cast(c, Euclid(Abs(a), Abs(b))) == Euclid(Abs(a), Abs(b)) <==> !OnlyLeast(c, a, b)
    ensures GcdRecursive(c, a, b) == Euclid(Abs(a), Abs(b)) <==> !OnlyLeast(c, a, b) && !(b == 0 && a < 0)
  {
    hide Euclid, GcdRecursive, Cast, Lowest, Highest, IsGcd;
    RangeFacts(c);
    EuclidIsGcd(Abs(a), Abs(b));
    GcdFits(c, a, b);
    CastIffInRange(c, Euclid(Abs(a), Abs(b)));
    RecursiveIsEuclid(c, a, b);
    EuclidZero(Abs(a));
  }

  /** The recursive version gives -4 at -4 and 0; both give -128 at two int8_t of -128. */
  lemma GcdExample()
    ensures GcdRecursive(I32, -4, 0) == -4 && Euclid(Abs(-4), Abs(0)) == 4
    ensures OnlyLeast(I8, -128, -128) && GcdRecursive(I8, -128, -128) == Cast(I8, Euclid(128, 128)) == -128
  {
    EuclidEqual(128);
    RecursiveIsEuclid(I8, -128, -128);
    hide Euclid;
  }

  lemma EuclidZero(a: nat)
    ensures Euclid(a, 0) == a
  {
  }

  // ----- least common multiple

  /** lcm in a common type that does not overflow. */
  function Lcm(m: int, n: int): int {
    if m == 0 || n == 0 then 0 else Abs(m) / Euclid(Abs(m), Abs(n)) * Abs(n)
  }

  /** Coefficients that express the greatest common divisor. */
  lemma {:induction false} Bezout(a: nat, b: nat) returns (u: int, v: int)
    ensures Euclid(a, b) == u * a + v * b
    decreases b
  {
    hide Euclid;
    EuclidUnfold(a, b);
    if b == 0 {
      u, v := 1, 0;
    } else {
      var q, r := a / b, a % b;
      Division(a, b);
      var x, y := Bezout(b, r);
      u, v := y, x - y * q;
      BezoutStep(a, b, q, r, x, y);
    }
  }

  lemma EuclidUnfold(a: nat, b: nat)
    ensures b == 0 ==> Euclid(a, b) == a
    ensures b > 0 ==> Euclid(a, b) == Euclid(b, a % b)
  {
  }

  lemma Division(a: nat, b: nat)
    requires b > 0
    ensures a == a / b * b + a % b
  {
  }

  lemma BezoutStep(a: nat, b: nat, q: nat, r: nat, x: int, y: int)
    requires a == q * b + r
    ensures x * b + y * r == y * a + (x - y * q) * b
  {
    assert y * r == y * a - y * (q * b);
  }

  /** l * g == a * b makes l a common multiple that divides every other one. */
  lemma CommonMultiples(a: nat, b: nat, g: nat, x: nat, y: nat, l: nat)
    requires a == g * x && b == g * y && l == x * b
    ensures l == Times(a, y) && l == Times(b, x) && l * g == a * b
  {
    Shuffle(g, x, y);
  }

  lemma Shuffle(g: nat, x: nat, y: nat)
    ensures x * (g * y) == g * x * y == g * y * x
    ensures x * (g * y) * g == (g * x) * (g * y)
  {
    assert x * (g * y) == g * x * y;
  }

  lemma CancelFactor(g: nat, p: int, q: int)
    requires g > 0 && g * p == g * q
    ensures p == q
  {
    assert g * (p - q) == 0;
    Signs(g, p - q);
  }

  lemma Signs(g: nat, d: int)
    requires g > 0
    ensures d > 0 ==> g * d > 0
    ensures d < 0 ==> g * d < 0
  {
  }

  /** c * g == l * g * k, where k combines the two cofactors. */
  lemma CombineCofactors(a: nat, b: nat, g: nat, l: nat, c: nat, p: nat, q: nat, u: int, v: int)
    requires c == a * p == b * q && g == u * a + v * b && l * g == a * b && g > 0
    ensures c == l * (q * u + p * v)
  {
    var k := q * u + p * v;
    assert c * (u * a) == a * b * (q * u) by { Rearrange(a, b, q, u); }
    assert c * (v * b) == a * b * (p * v) by { Rearrange(b, a, p, v); }
    assert g * c == c * (u * a) + c * (v * b);
    assert a * b * k == a * b * (q * u) + a * b * (p * v);
    assert g * (l * k) == l * g * k;
    CancelFactor(g, c, l * k);
  }

  lemma Rearrange(a: nat, b: nat, q: nat, u: int)
    ensures b * q * (u * a) == a * b * (q * u)
  {
    assert b * q * (u * a) == (b * q) * u * a;
    assert a * b * (q * u) == (b * q) * u * a;
  }

  lemma LcmOfPositive(a: nat, b: nat) returns (l: nat)
    requires a > 0 && b > 0
    ensures l == Lcm(a, b) && l > 0 && Divides(a, l) && Divides(b, l)
    ensures forall c: nat :: Divides(a, c) && Divides(b, c) ==> Divides(l, c)
  {
    var g := Euclid(a, b);
    EuclidIsGcd(a, b);
    hide Euclid;
    var x: nat :| a == Times(g, x);
    var y: nat :| b == Times(g, y);
    l := x * b;
    QuotientIs(a, g, x);
    CommonMultiples(a, b, g, x, y, l);
    assert Divides(a, l) && Divides(b, l);
    PositiveProduct(g, x, b);
    var u, v := Bezout(a, b);
    forall c: nat | Divides(a, c) && Divides(b, c) ensures Divides(l, c) {
      var p: nat :| c == Times(a, p);
      var q: nat :| c == Times(b, q);
      CombineCofactors(a, b, g, l, c, p, q, u, v);
      NonNegativeCofactor(l, q * u + p * v);
      assert c == Times(l, q * u + p * v);
    }
  }

  lemma QuotientIs(a: nat, g: nat, x: nat)
    requires g > 0 && a == g * x
    ensures a / g == x
  {
    assert g * (a / g - x) == -(a % g) as int;
    QuotientSigns(g, a / g - x);
  }

  lemma QuotientSigns(g: nat, d: int)
    requires g > 0
    ensures d > 0 ==> g * d > 0
    ensures d < 0 ==> g * d <= 0 - g
  {
  }

  lemma PositiveProduct(g: nat, x: nat, b: nat)
    requires g * x > 0 && b > 0
    ensures x * b > 0
  {
  }

  lemma NonNegativeCofactor(l: nat, k: int)
    requires l > 0 && l * k >= 0
    ensures k >= 0
  {
    Signs(l, k);
  }

  /** lcm is a common multiple, and divides every common multiple; so for nonzero arguments it is the least
  positive one. */
  lemma LcmIsLeast(m: int, n: int)
    ensures Lcm(m, n) >= 0 && Divides(Abs(m), Lcm(m, n)) && Divides(Abs(n), Lcm(m, n))
    ensures forall c: nat :: Divides(Abs(m), c) && Divides(Abs(n), c) ==> Divides(Lcm(m, n), c)
    ensures m != 0 && n != 0 ==>
              Lcm(m, n) > 0 && forall c: nat :: c > 0 && Divides(Abs(m), c) && Divides(Abs(n), c) ==> Lcm(m, n) <= c
  {
    var a, b := Abs(m), Abs(n);
    if m == 0 || n == 0 {
      DividesSelf(a);
      DividesSelf(b);
      forall c: nat | Divides(a, c) && Divides(b, c) ensures Divides(0, c) {
        assert a == 0 || b == 0;
      }
    } else {
      hide Divides, Euclid;
      var l := LcmOfPositive(a, b);
      forall c: nat | c > 0 && Divides(a, c) && Divides(b, c) ensures l <= c {
        DivisorBound(l, c);
      }
    }
  }

  lemma DivisorBound(l: nat, c: nat)
    requires c > 0 && Divides(l, c)
    ensures l <= c
  {
    var k: nat :| c == Times(l, k);
    if k >= 1 { assert l * k >= l; }
  }

  // ----- the conversion to the common type

  /** std::common_type of two integer types. */
  function Common(t: IntType, u: IntType): IntType { if t == u then t else CommonType(t, u) }

  /** Division of the source language, which rounds towards zero. */
  function Quot(a: int, b: int): int {
    if b == 0 then 0 else if (a < 0) == (b < 0) then Abs(a) / Abs(b) else 0 - Abs(a) / Abs(b)
  }

  /** lcm of a t and a u: both are converted to the common type, and so is the product. */
  function LcmTyped(t: IntType, m: int, u: IntType, n: int): int {
    var c := Common(t, u);
    if m == 0 || n == 0 then 0
    else
      var a, b := AbsIn(c, Cast(c, m)), AbsIn(c, Cast(c, n));
      Cast(c, Quot(a, GcdRecursive(c, a, b)) * b)
  }

  /** The common type is no narrower than an argument type, and wider than an unsigned one if it is signed. */
  lemma CommonSize(t: IntType, u: IntType)
    ensures Wider(Common(t, u), t) && Wider(Common(t, u), u)
  {
    hide Promote, Size, Signed;
    PromoteWider(t);
    PromoteWider(u);
  }

  lemma PromoteWider(t: IntType)
    ensures Wider(Promote(t), t)
  {
  }

  predicate Wider(c: IntType, t: IntType) {
    if Signed(c) && !Signed(t) then Size(c) > Size(t) else Size(c) >= Size(t)
  }

  lemma CommonHolds(c: IntType, t: IntType, m: int)
    requires InRange(t, m) && Wider(c, t)
    ensures InRange(c, m) <==> Signed(c) || m >= 0
  {
  }

  /** For magnitudes the type can hold, the product is the mathematical one before its conversion. */
  lemma ProductIsLcm(c: IntType, a: nat, b: nat)
    requires InRange(c, a) && InRange(c, b)
    ensures Quot(a, GcdRecursive(c, a, b)) * b == Lcm(a, b)
  {
    hide Euclid, GcdRecursive, Cast, Lowest, Highest;
    RangeFacts(c);
    RecursiveIsEuclid(c, a, b);
    EuclidBound(a, b);
    if b > 0 { CastExact(c, Euclid(a, b)); }
    if a == 0 && b > 0 { EuclidEqual(b); }
  }

  /** lcm of two types gives the mathematical result exactly when the common type can hold it, provided that
  type is signed, or neither argument is negative, or one is zero. For an unsigned type the result is always
  that of the converted arguments, converted. */
  lemma LcmTypedExact(t: IntType, m: int, u: IntType, n: int)
    requires InRange(t, m) && InRange(u, n)
    ensures var c := Common(t, u);
            Signed(c) || (m >= 0 && n >= 0) || m == 0 || n == 0 ==>
              (LcmTyped(t, m, u, n) == Lcm(m, n) <==> InRange(c, Lcm(m, n)))
    ensures var c := Common(t, u);
            !Signed(c) && m != 0 && n != 0 ==> LcmTyped(t, m, u, n) == Cast(c, Lcm(Cast(c, m), Cast(c, n)))
  {
    hide Lcm, Cast, Common, Signed, Wider, GcdRecursive, Quot, Lowest, Highest, AbsIn;
    var c := Common(t, u);
    RangeFacts(c);
    CommonSize(t, u);
    CommonHolds(c, t, m);
    CommonHolds(c, u, n);
    LcmZero(m, n);
    if m != 0 && n != 0 {
      CastIffInRange(c, m);
      CastIffInRange(c, n);
      if Signed(c) { LcmSigned(c, m, n); } else { LcmUnsigned(c, m, n); }
    }
  }

  lemma LcmUnsigned(c: IntType, m: int, n: int)
    requires !Signed(c)
    ensures var a, b := AbsIn(c, Cast(c, m)), AbsIn(c, Cast(c, n));
            Cast(c, Quot(a, GcdRecursive(c, a, b)) * b) == Cast(c, Lcm(Cast(c, m), Cast(c, n)))
    ensures InRange(c, m) && InRange(c, n) ==>
              (Cast(c, Lcm(Cast(c, m), Cast(c, n))) == Lcm(m, n) <==> InRange(c, Lcm(m, n)))
  {
    hide Lcm, Cast, GcdRecursive, Quot, Lowest, Highest;
    RangeFacts(c);
    CastBounds(c, m);
    CastBounds(c, n);
    ProductIsLcm(c, Cast(c, m), Cast(c, n));
    CastIffInRange(c, m);
    CastIffInRange(c, n);
    CastIffInRange(c, Lcm(m, n));
  }

  lemma LcmSigned(c: IntType, m: int, n: int)
    requires Signed(c) && InRange(c, m) && InRange(c, n) && m != 0 && n != 0
    ensures var a, b := AbsIn(c, m), AbsIn(c, n);
            Cast(c, Quot(a, GcdRecursive(c, a, b)) * b) == Lcm(m, n) <==> InRange(c, Lcm(m, n))
  {
    hide Lcm, Cast, GcdRecursive, Quot, Lowest, Highest, Divides;
    RangeFacts(c);
    var a, b := AbsIn(c, m), AbsIn(c, n);
    if m == Lowest(c) || n == Lowest(c) {
      LcmIsLeast(m, n);
      DivisorBound(Abs(m), Lcm(m, n));
      DivisorBound(Abs(n), Lcm(m, n));
      CastBounds(c, Quot(a, GcdRecursive(c, a, b)) * b);
    } else {
      CastExact(c, Abs(m));
      CastExact(c, Abs(n));
      ProductIsLcm(c, Abs(m), Abs(n));
      LcmOfAbs(m, n);
      CastIffInRange(c, Lcm(m, n));
    }
  }

  lemma LcmOfAbs(m: int, n: int)
    ensures Lcm(Abs(m), Abs(n)) == Lcm(m, n)
  {
    hide Euclid;
  }

  lemma LcmZero(m: int, n: int)
    ensures m == 0 || n == 0 ==> Lcm(m, n) == 0
  {
  }

  lemma CastIffInRange(t: IntType, v: int)
    ensures Cast(t, v) == v <==> InRange(t, v)
  {
    if InRange(t, v) { CastExact(t, v); } else { CastBounds(t, v); }
  }

  lemma CastBounds(t: IntType, v: int)
    ensures InRange(t, Cast(t, v))
  {
    assert Highest(t) - Lowest(t) == 2 * Half(Size(t)) - 1;
    hide Lowest, Highest, Half, Size;
    RemainderBounds(v - Lowest(t), 2 * Half(Size(t)));
  }

  lemma RemainderBounds(x: int, m: int)
    requires m > 0
    ensures 0 <= x % m < m
  {
  }

  /** lcm(-1, 1u) is 2^32 - 1, not 1; and lcm(65536u, 65537u) wraps around to 65536. */
  lemma LcmTypedExample()
    ensures LcmTyped(I32, -1, U32, 1) == 0xFFFF_FFFF && Lcm(-1, 1) == 1
    ensures LcmTyped(U32, 65536, U32, 65537) == 65536 && Lcm(65536, 65537) == 65536 * 65537
  {
    hide *;
    LcmWrapsArgument();
    LcmWrapsProduct();
  }

  lemma LcmWrapsArgument()
    ensures LcmTyped(I32, -1, U32, 1) == 0xFFFF_FFFF && Lcm(-1, 1) == 1
  {
    hide Lcm, LcmTyped, Euclid;
    LcmTypedExact(I32, -1, U32, 1);
    LcmWithOne(0xFFFF_FFFF);
    LcmWithOne(-1);
    assert Cast(U32, -1) == 0xFFFF_FFFF && Cast(U32, 1) == 1 && Cast(U32, 0xFFFF_FFFF) == 0xFFFF_FFFF;
  }

  lemma LcmWrapsProduct()
    ensures LcmTyped(U32, 65536, U32, 65537) == 65536 && Lcm(65536, 65537) == 65536 * 65537
  {
    hide Lcm, LcmTyped, Euclid;
    LcmTypedExact(U32, 65536, U32, 65537);
    CoprimeLcm();
    assert Cast(U32, 65536) == 65536 && Cast(U32, 65537) == 65537 && Cast(U32, 65536 * 65537) == 65536;
  }

  lemma CoprimeLcm()
    ensures Lcm(65536, 65537) == 65536 * 65537
  {
    EuclidUnfold(65536, 65537);
    EuclidUnfold(65537, 65536);
    EuclidUnfold(65536, 1);
    EuclidUnfold(1, 0);
    hide Euclid;
  }

  lemma LcmWithOne(m: int)
    requires m != 0
    ensures Lcm(m, 1) == Abs(m)
  {
    assert Euclid(Abs(m), 1) == 1;
  }
}
