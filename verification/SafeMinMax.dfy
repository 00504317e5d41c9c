/** Minimum, maximum and clamp of mixed integer types, with the selection of the result type. */
module SafeMinMax {
  import opened Wrappers
  import opened SafeCompare

  /** A value together with its static type. */
  datatype Typed = Typed(t: IntType, v: int)

  predicate Valid(x: Typed) { InRange(x.t, x.v) }

  function LowestOf(t: IntType): Typed { Typed(t, Lowest(t)) }

  function HighestOf(t: IntType): Typed { Typed(t, Highest(t)) }

  predicate Sf(op: Op, x: Typed, y: Typed) { Safe(op, x.t, x.v, y.t, y.v) }

  // ----- minimum and maximum

  /** MType::min_t. */
  function MinType(t: IntType, u: IntType): IntType {
    if Sf(Lt, LowestOf(t), LowestOf(u)) then t
    else if Sf(Gt, LowestOf(t), LowestOf(u)) then u
    else if Sf(Le, HighestOf(t), HighestOf(u)) then t else u
  }

  /** MType::max_t. */
  function MaxType(t: IntType, u: IntType): IntType {
    if Sf(Ge, HighestOf(t), HighestOf(u)) then t else u
  }

  /** SafeMin<R>, where the caller may choose a result type that holds the selected one. */
  function SafeMinAs(r: IntType, x: Typed, y: Typed): int { Cast(r, if Sf(Lt, x, y) then x.v else y.v) }

  function SafeMaxAs(r: IntType, x: Typed, y: Typed): int { Cast(r, if Sf(Gt, x, y) then x.v else y.v) }

  function SafeMin(x: Typed, y: Typed): Typed {
    var r := MinType(x.t, y.t);
    Typed(r, SafeMinAs(r, x, y))
  }

  function SafeMax(x: Typed, y: Typed): Typed {
    var r := MaxType(x.t, y.t);
    Typed(r, SafeMaxAs(r, x, y))
  }

  function Min(a: int, b: int): int { if a < b then a else b }

  function Max(a: int, b: int): int { if a > b then a else b }

  /** u can represent every value of t. */
  predicate Holds(u: IntType, t: IntType) { Lowest(u) <= Lowest(t) && Highest(t) <= Highest(u) }

  lemma Extremes(t: IntType)
    ensures InRange(t, Lowest(t)) && InRange(t, Highest(t)) && Lowest(t) <= 0 < Highest(t)
  {
  }

  lemma Order(op: Op, x: Typed, y: Typed)
    requires Valid(x) && Valid(y)
    ensures Sf(op, x, y) == Compare(op, x.v, y.v)
  {
    SafeIsIntegerOrder(op, x.t, x.v, y.t, y.v);
  }

  /** The selected types in terms of integer order. */
  lemma TypesByRange(t: IntType, u: IntType)
    ensures MinType(t, u) ==
              if Lowest(t) < Lowest(u) || (Lowest(t) == Lowest(u) && Highest(t) <= Highest(u)) then t else u
    ensures MaxType(t, u) == if Highest(t) >= Highest(u) then t else u
  {
    hide Sf, Lowest, Highest;
    Extremes(t);
    Extremes(u);
    Order(Lt, LowestOf(t), LowestOf(u));
    Order(Gt, LowestOf(t), LowestOf(u));
    Order(Le, HighestOf(t), HighestOf(u));
    Order(Ge, HighestOf(t), HighestOf(u));
  }

  /** SafeMin returns the true minimum, in any type that holds the selected one. */
  lemma SafeMinExact(r: IntType, x: Typed, y: Typed)
    requires Valid(x) && Valid(y) && Holds(r, MinType(x.t, y.t))
    ensures SafeMinAs(r, x, y) == Min(x.v, y.v) && InRange(r, Min(x.v, y.v))
  {
    hide Sf, MinType, MaxType, Cast, Lowest, Highest;
    Order(Lt, x, y);
    TypesByRange(x.t, y.t);
    CastExact(r, Min(x.v, y.v));
  }

  lemma SafeMaxExact(r: IntType, x: Typed, y: Typed)
    requires Valid(x) && Valid(y) && Holds(r, MaxType(x.t, y.t))
    ensures SafeMaxAs(r, x, y) == Max(x.v, y.v) && InRange(r, Max(x.v, y.v))
  {
    hide Sf, MinType, MaxType, Cast, Lowest, Highest;
    Order(Gt, x, y);
    TypesByRange(x.t, y.t);
    CastExact(r, Max(x.v, y.v));
  }

  /** The selected type is one of the two: for the minimum the one with the least maximum among those that can
  hold every minimum, for the maximum one with the highest maximum. */
  lemma MTypeLaws(t: IntType, u: IntType)
    ensures (MinType(t, u) == t || MinType(t, u) == u) && (MaxType(t, u) == t || MaxType(t, u) == u)
    ensures Lowest(MinType(t, u)) == Min(Lowest(t), Lowest(u)) && Highest(MaxType(t, u)) == Max(Highest(t), Highest(u))
    ensures forall r :: (r == t || r == u) && Lowest(r) <= Min(Lowest(t), Lowest(u)) ==>
              Highest(MinType(t, u)) <= Highest(r)
  {
    hide Lowest, Highest, MinType, MaxType;
    TypesByRange(t, u);
  }

  /** The default result types. */
  lemma DefaultExact(x: Typed, y: Typed)
    requires Valid(x) && Valid(y)
    ensures SafeMin(x, y).v == Min(x.v, y.v) && Valid(SafeMin(x, y))
    ensures SafeMax(x, y).v == Max(x.v, y.v) && Valid(SafeMax(x, y))
  {
    hide MinType, MaxType, SafeMinAs, SafeMaxAs, Lowest, Highest;
    SafeMinExact(MinType(x.t, y.t), x, y);
    SafeMaxExact(MaxType(x.t, y.t), x, y);
  }

  // ----- clamp

  /** The range of possible results. */
  function RMin(t: IntType, l: IntType, h: IntType): Typed { SafeMax(LowestOf(l), SafeMin(LowestOf(h), LowestOf(t))) }

  function RMax(t: IntType, l: IntType, h: IntType): Typed { SafeMin(HighestOf(h), SafeMax(HighestOf(l),
      HighestOf(t))) }

  predicate Acceptable(a: IntType, t: IntType, l: IntType, h: IntType) {
    && (Size(a) <= Size(l) || Size(a) <= Size(h) || Size(a) <= Size(t))
    && Sf(Le, LowestOf(a), RMin(t, l, h)) && Sf(Le, RMax(t, l, h), HighestOf(a))
  }

  function BestSigned(t: IntType, l: IntType, h: IntType): IntType {
    if Acceptable(I8, t, l, h) then I8
    else if Acceptable(I16, t, l, h) then I16
    else if Acceptable(I32, t, l, h) then I32 else I64
  }

  function BestUnsigned(t: IntType, l: IntType, h: IntType): IntType {
    if Acceptable(U8, t, l, h) then U8
    else if Acceptable(U16, t, l, h) then U16
    else if Acceptable(U32, t, l, h) then U32 else U64
  }

  function ClampType(t: IntType, l: IntType, h: IntType): IntType {
    if Signed(t) then if Acceptable(BestSigned(t, l, h), t, l, h) then BestSigned(t, l, h) else BestUnsigned(t, l, h)
    else if Acceptable(BestUnsigned(t, l, h), t, l, h) then BestUnsigned(t, l, h) else BestSigned(t, l, h)
  }

  /** What acceptability asks for, without the compile-time comparisons. */
  predicate Suits(a: IntType, t: IntType, l: IntType, h: IntType) {
    && Size(a) <= Max(Size(l), Max(Size(h), Size(t)))
    && Lowest(a) <= Max(Lowest(l), Min(Lowest(h), Lowest(t)))
    && Min(Highest(h), Max(Highest(l), Highest(t))) <= Highest(a)
  }

  lemma AcceptableIsSuits(a: IntType, t: IntType, l: IntType, h: IntType)
    ensures Acceptable(a, t, l, h) <==> Suits(a, t, l, h)
  {
    hide Sf, Lowest, Highest, SafeMin, SafeMax, Size;
    Extremes(a);
    Extremes(t);
    Extremes(l);
    Extremes(h);
    DefaultExact(LowestOf(h), LowestOf(t));
    DefaultExact(LowestOf(l), SafeMin(LowestOf(h), LowestOf(t)));
    DefaultExact(HighestOf(l), HighestOf(t));
    DefaultExact(HighestOf(h), SafeMax(HighestOf(l), HighestOf(t)));
    Order(Le, LowestOf(a), RMin(t, l, h));
    Order(Le, RMax(t, l, h), HighestOf(a));
  }

  function OfSize(signed: bool, size: nat): IntType {
    if signed then if size == 1 then I8 else if size == 2 then I16 else if size == 4 then I32 else I64
    else if size == 1 then U8 else if size == 2 then U16 else if size == 4 then U32 else U64
  }

  /** Facts about types of one size bound. */
  lemma Fits(t: IntType, size: nat)
    requires Size(t) <= size && (size == 1 || size == 2 || size == 4 || size == 8)
    ensures Size(OfSize(true, size)) == Size(OfSize(false, size)) == size
    ensures Lowest(OfSize(false, size)) == 0 && Highest(t) <= Highest(OfSize(false, size))
    ensures Lowest(OfSize(true, size)) <= Lowest(t) <= 0
    ensures Signed(t) ==> Highest(t) <= Highest(OfSize(true, size))
    ensures !Signed(t) ==> Lowest(t) == 0
  {
  }

  lemma Sizes(t: IntType)
    ensures Size(t) == 1 || Size(t) == 2 || Size(t) == 4 || Size(t) == 8
  {
  }

  function SuitableType(t: IntType, l: IntType, h: IntType): IntType {
    OfSize(Max(Lowest(l), Min(Lowest(h), Lowest(t))) < 0, Max(Size(l), Max(Size(h), Size(t))))
  }

  /** A type of the largest argument size always suits: unsigned if no result is negative, else signed. */
  lemma SomeTypeSuits(t: IntType, l: IntType, h: IntType)
    ensures Suits(SuitableType(t, l, h), t, l, h)
  {
    hide Lowest, Highest, OfSize, Signed, Size;
    var size := Max(Size(l), Max(Size(h), Size(t)));
    Sizes(t);
    Sizes(l);
    Sizes(h);
    Fits(t, size);
    Fits(l, size);
    Fits(h, size);
  }

  /** The best type of one sign suits if any type of that sign does, and none of that sign that suits is smaller. */
  lemma BestOfSign(t: IntType, l: IntType, h: IntType, a: IntType)
    ensures Suits(a, t, l, h) && Signed(a) ==>
              Suits(BestSigned(t, l, h), t, l, h) && Size(BestSigned(t, l, h)) <= Size(a)
    ensures Suits(a, t, l, h) && !Signed(a) ==>
              Suits(BestUnsigned(t, l, h), t, l, h) && Size(BestUnsigned(t, l, h)) <= Size(a)
    ensures Signed(BestSigned(t, l, h)) && !Signed(BestUnsigned(t, l, h))
  {
    hide Suits, Acceptable, Lowest, Highest, Half;
    AcceptableIsSuits(I8, t, l, h);
    AcceptableIsSuits(I16, t, l, h);
    AcceptableIsSuits(I32, t, l, h);
    AcceptableIsSuits(U8, t, l, h);
    AcceptableIsSuits(U16, t, l, h);
    AcceptableIsSuits(U32, t, l, h);
  }

  /** The three laws of the clamp type, for all argument types: it can represent every possible result and is
  no larger than the largest argument type; it has the sign of the first argument if any such type does
  that; and among the types of its sign that do, it is smallest. */
  lemma ClampTypeLaws(t: IntType, l: IntType, h: IntType)
    ensures Acceptable(ClampType(t, l, h), t, l, h) && Suits(ClampType(t, l, h), t, l, h)
    ensures forall a :: Suits(a, t, l, h) && Signed(a) == Signed(t) ==> Signed(ClampType(t, l, h)) == Signed(t)
    ensures forall a :: Suits(a, t, l, h) && Signed(a) == Signed(ClampType(t, l, h)) ==>
              Size(ClampType(t, l, h)) <= Size(a)
  {
    hide Suits, Acceptable, BestSigned, BestUnsigned, Lowest, Highest, SuitableType, Signed, Size;
    SomeTypeSuits(t, l, h);
    var some := SuitableType(t, l, h);
    BestOfSign(t, l, h, some);
    AcceptableIsSuits(BestSigned(t, l, h), t, l, h);
    AcceptableIsSuits(BestUnsigned(t, l, h), t, l, h);
    forall a | Suits(a, t, l, h)
      ensures Signed(a) == Signed(t) ==> Signed(ClampType(t, l, h)) == Signed(t)
      ensures Signed(a) == Signed(ClampType(t, l, h)) ==> Size(ClampType(t, l, h)) <= Size(a)
    {
      BestOfSign(t, l, h, a);
    }
  }

  /** SafeClamp with result type r, which the caller may choose if it holds the selected type. */
  function SafeClamp(r: IntType, x: Typed, lo: Typed, hi: Typed): int {
    if Sf(Le, x, lo) then Cast(r, lo.v) else if Sf(Ge, x, hi) then Cast(r, hi.v) else Cast(r, x.v)
  }

  /** SafeClamp returns the mathematical clamp, whatever the three types, and without wrap-around. */
  lemma SafeClampExact(r: IntType, x: Typed, lo: Typed, hi: Typed)
    requires Valid(x) && Valid(lo) && Valid(hi) && lo.v <= hi.v && Holds(r, ClampType(x.t, lo.t, hi.t))
    ensures SafeClamp(r, x, lo, hi) == Clamp(x.v, lo.v, hi.v) && InRange(r, Clamp(x.v, lo.v, hi.v))
  {
    hide Sf, Cast, ClampType, Acceptable, Lowest, Highest, Size, Signed;
    Order(Le, x, lo);
    Order(Ge, x, hi);
    ClampTypeLaws(x.t, lo.t, hi.t);
    CastExact(r, Clamp(x.v, lo.v, hi.v));
  }
}
