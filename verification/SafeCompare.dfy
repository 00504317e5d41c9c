/** Mixed-sign comparison of fixed-width integers, on a machine with 8-byte pointers. */
module SafeCompare {
  import opened Wrappers

  datatype IntType = I8 | I16 | I32 | I64 | U8 | U16 | U32 | U64

  predicate Signed(t: IntType) { t.I8? || t.I16? || t.I32? || t.I64? }

  function Size(t: IntType): nat {
    match t
    case I8 => 1 case U8 => 1
    case I16 => 2 case U16 => 2
    case I32 => 4 case U32 => 4
    case I64 => 8 case U64 => 8
  }

  /** Half the number of values of a type of that size. */
  function Half(size: nat): nat {
    if size == 1 then 0x80 else if size == 2 then 0x8000 else if size == 4 then 0x8000_0000 else 0x8000_0000_0000_0000
  }

  function Lowest(t: IntType): int { if Signed(t) then 0 - Half(Size(t)) else 0 }

  function Highest(t: IntType): int { if Signed(t) then Half(Size(t)) - 1 else 2 * Half(Size(t)) - 1 }

  predicate InRange(t: IntType, v: int) { Lowest(t) <= v <= Highest(t) }

  /** static_cast: the value of the type congruent to v. */
  function Cast(t: IntType, v: int): int {
    Lowest(t) + (v - Lowest(t)) % (2 * Half(Size(t)))
  }

  lemma CastExact(t: IntType, v: int)
    requires InRange(t, v)
    ensures Cast(t, v) == v
  {
    assert Highest(t) - Lowest(t) == 2 * Half(Size(t)) - 1;
    hide Lowest, Highest, Half, Size;
    SmallRemainder(v - Lowest(t), 2 * Half(Size(t)));
  }

  lemma SmallRemainder(x: int, m: int)
    requires 0 <= x < m
    ensures x % m == x
  {
  }

  // ----- the built-in comparison

  datatype Op = Eq | Ne | Lt | Le | Gt | Ge

  /** Comparison of mathematical integers. */
  predicate Compare(op: Op, a: int, b: int) {
    match op
    case Eq => a == b
    case Ne => a != b
    case Lt => a < b
    case Le => a <= b
    case Gt => a > b
    case Ge => a >= b
  }

  /** Integral promotion, which unary plus performs. */
  function Promote(t: IntType): IntType { if Size(t) < 4 then I32 else t }

  /** The usual arithmetic conversions. */
  function CommonType(t: IntType, u: IntType): IntType {
    var p, q := Promote(t), Promote(u);
    if Signed(p) == Signed(q) then if Size(p) >= Size(q) then p else q
    else if Signed(p) then if Size(q) >= Size(p) then q else p
    else if Size(p) >= Size(q) then p else q
  }

  /** `a op b` in the source language: both operands are converted first. */
  predicate BuiltIn(op: Op, t: IntType, a: int, u: IntType, b: int) {
    var c := CommonType(t, u);
    Compare(op, Cast(c, a), Cast(c, b))
  }

  /** The built-in comparison says that -1 is not below 0u. */
  lemma BuiltInIsNotIntegerOrder()
    ensures !BuiltIn(Lt, I32, -1, U32, 0) && Compare(Lt, -1, 0)
  {
  }

  /** It agrees with integer order when the common type holds both operands. */
  lemma BuiltInExact(op: Op, t: IntType, a: int, u: IntType, b: int)
    requires InRange(CommonType(t, u), a) && InRange(CommonType(t, u), b)
    ensures BuiltIn(op, t, a, u, b) == Compare(op, a, b)
  {
    CastExact(CommonType(t, u), a);
    CastExact(CommonType(t, u), b);
  }

  // ----- the overloads

  /** A signed type larger than t, and no larger than the larger of u and a pointer. */
  function LargerInt(t: IntType, u: IntType): Option<IntType> {
    var n := if Size(t) < Size(u) || Size(t) < 8 then Size(t) else 0;
    if n == 1 then Some(I16) else if n == 2 then Some(I32) else if n == 4 then Some(I64) else None
  }

  function MakeUnsigned(t: IntType): IntType {
    match Size(t)
    case 1 => U8
    case 2 => U16
    case 4 => U32
    case _ => U64
  }

  /** The five overloads of cmp. */
  predicate Cmp(op: Op, t: IntType, a: int, u: IntType, b: int) {
    if Signed(t) == Signed(u) then BuiltIn(op, t, a, u, b)
    else if Signed(t) then
      match LargerInt(u, t)
      case Some(w) => BuiltIn(op, t, a, w, Cast(w, b))
      case None =>
        if a < 0 then BuiltIn(op, I32, -1, I32, 0)
        else BuiltIn(op, MakeUnsigned(t), Cast(MakeUnsigned(t), a), u, b)
    else
      match LargerInt(t, u)
      case Some(w) => BuiltIn(op, w, Cast(w, a), u, b)
      case None =>
        if b < 0 then BuiltIn(op, I32, 0, I32, -1)
        else BuiltIn(op, t, a, MakeUnsigned(u), Cast(MakeUnsigned(u), b))
  }

  /** SafeEq, SafeNe, SafeLt, SafeLe, SafeGt and SafeGe. */
  predicate Safe(op: Op, t: IntType, a: int, u: IntType, b: int) {
    Cmp(op, Promote(t), a, Promote(u), b)
  }

  lemma SameSign(op: Op, t: IntType, a: int, u: IntType, b: int)
    requires InRange(t, a) && InRange(u, b) && Signed(t) == Signed(u)
    ensures BuiltIn(op, t, a, u, b) == Compare(op, a, b)
  {
    hide Compare, Cast;
    BuiltInExact(op, t, a, u, b);
  }

  /** The comparison functions agree with integer order for every pair of types and values. */
  lemma SafeIsIntegerOrder(op: Op, t: IntType, a: int, u: IntType, b: int)
    requires InRange(t, a) && InRange(u, b)
    ensures Safe(op, t, a, u, b) == Compare(op, a, b)
  {
    hide Compare, Cmp, InRange, Promote;
    var p, q := Promote(t), Promote(u);
    PromoteKeeps(t, a);
    PromoteKeeps(u, b);
    if Signed(p) == Signed(q) {
      SameSigns(op, p, a, q, b);
    } else if Signed(p) {
      SignedUnsigned(op, p, a, q, b);
    } else {
      UnsignedSigned(op, p, a, q, b);
    }
  }

  lemma PromoteKeeps(t: IntType, a: int)
    requires InRange(t, a)
    ensures InRange(Promote(t), a) && Size(Promote(t)) >= 4
  {
  }

  lemma SameSigns(op: Op, t: IntType, a: int, u: IntType, b: int)
    requires InRange(t, a) && InRange(u, b) && Signed(t) == Signed(u)
    ensures Cmp(op, t, a, u, b) == Compare(op, a, b)
  {
    hide Compare, BuiltIn, InRange;
    SameSign(op, t, a, u, b);
  }

  lemma SignedUnsigned(op: Op, t: IntType, a: int, u: IntType, b: int)
    requires InRange(t, a) && InRange(u, b) && Signed(t) && !Signed(u) && Size(t) >= 4 && Size(u) >= 4
    ensures Cmp(op, t, a, u, b) == Compare(op, a, b)
  {
    hide Compare, Cast, BuiltIn;
    if u == U32 {
      CastExact(I64, b);
      SameSign(op, t, a, I64, b);
    } else if a < 0 {
      SameSign(op, I32, -1, I32, 0);
      NegativeFirst(op, a, b);
    } else {
      CastExact(MakeUnsigned(t), a);
      SameSign(op, MakeUnsigned(t), a, u, b);
    }
  }

  lemma UnsignedSigned(op: Op, t: IntType, a: int, u: IntType, b: int)
    requires InRange(t, a) && InRange(u, b) && !Signed(t) && Signed(u) && Size(t) >= 4 && Size(u) >= 4
    ensures Cmp(op, t, a, u, b) == Compare(op, a, b)
  {
    hide Compare, Cast, BuiltIn;
    if t == U32 {
      CastExact(I64, a);
      SameSign(op, I64, a, u, b);
    } else if b < 0 {
      SameSign(op, I32, 0, I32, -1);
      NegativeFirst(op, a, b);
    } else {
      CastExact(MakeUnsigned(u), b);
      SameSign(op, t, a, MakeUnsigned(u), b);
    }
  }

  lemma NegativeFirst(op: Op, a: int, b: int)
    ensures a < 0 <= b ==> Compare(op, a, b) == Compare(op, -1, 0)
    ensures b < 0 <= a ==> Compare(op, a, b) == Compare(op, 0, -1)
  {
  }
}
