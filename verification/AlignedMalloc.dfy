/** Aligned allocation with a hidden header, on a machine with 64-bit addresses. */
module AlignedMalloc {
  import opened Words
  import opened BitWidth

  type Address = nat

  const HEADER: nat := 8  // sizeof(uintptr_t)

  predicate ValidAlignment(alignment: nat) {
    if alignment == 0 then false else And(alignment, alignment - 1) == 0
  }

  lemma ValidAlignmentIsPow2(alignment: nat)
    ensures ValidAlignment(alignment) <==> IsPow2(alignment)
  {
    SingleBitIsPow2(alignment);
  }

  /** `(start + alignment - 1) & ~(alignment - 1)` in 64-bit arithmetic. */
  function RightAlign(start: nat, alignment: nat): nat
    requires 0 < alignment < Pow2(64)
  {
    And(Low(start + alignment - 1, 64), Not(alignment - 1, 64))
  }

  /** Masking off the low k bits rounds down to a multiple of 2^k. */
  lemma MaskRoundsDown(x: nat, k: nat, w: nat)
    requires x < Pow2(w) && k <= w
    ensures Pow2(k) - 1 < Pow2(w) && And(x, Not(Pow2(k) - 1, w)) == Shl(Shr(x, k), k)
  {
    hide And, Not, Shl, Shr, Bit, Pow2;
    Pow2Mono(k, w);
    ShrLowIsDivision(x, k);
    ShlIsProduct(Shr(x, k), k);
    var m := Not(Pow2(k) - 1, w);
    AndAtMost(x, m);
    forall i | 0 <= i < w ensures Bit(And(x, m), i) == Bit(Shl(Shr(x, k), k), i) {
      BitAnd(x, m, i);
      BitNot(Pow2(k) - 1, w, i);
      BitOnes(k, i);
      BitShl(Shr(x, k), k, i);
      if i >= k { BitShr(x, k, i - k); }
    }
    BitsDetermine(And(x, m), Shl(Shr(x, k), k), w);
  }

  predicate Multiple(x: int, a: nat)
    requires a > 0
  {
    x % a == 0
  }

  /** r is the least multiple of a that is not below start. */
  ghost predicate LeastMultiple(r: int, start: nat, a: nat)
    requires a > 0
  {
    r >= start && Multiple(r, a) && forall m :: m >= start && Multiple(m, a) ==> r <= m
  }

  lemma RoundUp(start: nat, a: nat, q: nat, r: nat)
    requires a > 0 && start + a - 1 == q * a + r && r < a
    ensures LeastMultiple(q * a, start, a) && q * a <= start + a - 1
  {
    ProductIsMultiple(q, a);
    forall m | m >= start && Multiple(m, a) ensures q * a <= m {
      var n := m / a;
      assert m == n * a;
      NextMultiple(q, n, a, r);
    }
  }

  lemma ProductIsMultiple(q: nat, a: nat)
    requires a > 0
    ensures q * a % a == 0
  {
    DivModUnique(q * a, a, q, 0);
  }

  lemma NextMultiple(q: nat, n: int, a: nat, r: nat)
    requires a > 0 && r < a && n * a > q * a + r - a
    ensures n * a >= q * a
  {
    Multiples(n - q, a);
    assert (n - q) * a == n * a - q * a;
  }

  /** getRightAlign gives the least multiple of the alignment not below the address exactly when adding
  alignment - 1 does not wrap around; otherwise it gives zero. */
  lemma RightAlignIsLeast(start: nat, alignment: nat)
    requires ValidAlignment(alignment) && start < Pow2(64) && alignment < Pow2(64)
    ensures LeastMultiple(RightAlign(start, alignment), start, alignment) <==> start + alignment - 1 < Pow2(64)
    ensures start + alignment - 1 < Pow2(64) ==> RightAlign(start, alignment) <= start + alignment - 1
    ensures start + alignment - 1 >= Pow2(64) ==> RightAlign(start, alignment) == 0
  {
    hide *;
    AlignmentWidth(alignment);
    var k := Width(alignment) - 1;
    var sum := start + alignment - 1;
    RightAlignRounds(start, alignment, k);
    var x := Low(sum, 64);
    ShrLowIsDivision(x, k);
    ShlIsProduct(Shr(x, k), k);
    if sum < Pow2(64) {
      LowSmall(sum, 64);
      RoundUp(start, alignment, Shr(x, k), Low(x, k));
    } else {
      WrappedSum(start, alignment, k);
      NotLeast(start, alignment);
    }
  }

  lemma AlignmentWidth(alignment: nat)
    requires ValidAlignment(alignment) && alignment < Pow2(64)
    ensures alignment > 0 && 0 < Width(alignment) <= 64 && alignment == Pow2(Width(alignment) - 1)
  {
    hide And, Pow2, Width;
    SingleBitIsPow2(alignment);
    WidthBounds(alignment);
    WidthAtMost(alignment, 64);
  }

  lemma RightAlignRounds(start: nat, alignment: nat, k: nat)
    requires k < 64 && alignment == Pow2(k) && 0 < alignment < Pow2(64)
    ensures RightAlign(start, alignment) == Shl(Shr(Low(start + alignment - 1, 64), k), k)
  {
    hide And, Not, Shl, Shr, Low, Pow2;
    LowBound(start + alignment - 1, 64);
    MaskRoundsDown(Low(start + alignment - 1, 64), k, 64);
  }

  /** A wrapped sum is below the alignment, so rounding down leaves nothing. */
  lemma WrappedSum(start: nat, alignment: nat, k: nat)
    requires k < 64 && alignment == Pow2(k) && start < Pow2(64) && start + alignment - 1 >= Pow2(64)
    ensures Shr(Low(start + alignment - 1, 64), k) == 0 && Shl(0, k) == 0
  {
    hide Shr, Low, Shl, Pow2;
    var sum := start + alignment - 1;
    ShrLowIsDivision(sum, 64);
    Pow2Strict(k, 64);
    QuotientOne(Shr(sum, 64), Pow2(64), Low(sum, 64), sum);
    var x := Low(sum, 64);
    ShrLowIsDivision(x, k);
    SmallQuotient(Shr(x, k), Pow2(k), x);
    ShlIsProduct(0, k);
  }

  lemma QuotientOne(q: nat, p: nat, r: nat, sum: nat)
    requires p > 0 && sum == q * p + r && r < p && p <= sum < 2 * p
    ensures r == sum - p
  {
    Multiples(q - 1, p);
    assert (q - 1) * p == q * p - p;
  }

  lemma SmallQuotient(q: nat, p: nat, x: nat)
    requires q * p <= x < p
    ensures q == 0
  {
    Multiples(q, p);
  }

  lemma NotLeast(start: nat, alignment: nat)
    requires 0 < start && alignment > 0
    ensures !LeastMultiple(0, start, alignment)
  {
  }

  /** The last address rounded up to an even one comes out as zero. */
  lemma RightAlignExample()
    ensures RightAlign(UINT64_MAX, 2) == 0 && !LeastMultiple(0, UINT64_MAX, 2)
  {
    hide *;
    Pow2Values();
    TwoIsValid();
    RightAlignIsLeast(UINT64_MAX, 2);
  }

  lemma TwoIsValid()
    ensures ValidAlignment(1) && ValidAlignment(2) && UINT64_MAX == 0xFFFF_FFFF_FFFF_FFFF
  {
  }

  // ----- allocations

  /** An allocation: what the caller asked for, and the block behind it. */
  datatype Allocation = Allocation(size: nat, alignment: nat, base: Address)

  predicate Disjoint(a: nat, n: nat, b: nat, m: nat) { a + n <= b || b + m <= a }

  /** malloc's promise for a request of n bytes. */
  ghost predicate Fresh(blocks: map<Address, nat>, base: Address, n: nat) {
    && 0 < base && base + n <= Pow2(64) && base !in blocks
    && forall b :: b in blocks ==> Disjoint(b, blocks[b], base, n)
  }

  /** The size passed to malloc; the sum is taken in 64-bit arithmetic. */
  function Request(size: nat, alignment: nat): nat
    requires alignment > 0
  {
    Low(size + HEADER + alignment - 1, 64)
  }

  /** Whether header and user region of p lie inside the block at base. */
  predicate Inside(p: Address, size: nat, base: Address, n: nat) {
    base <= p - HEADER && p + size <= base + n
  }

  /** The pointer handed out for a block; the room for the header is added in 64-bit arithmetic. */
  function Placed(base: Address, alignment: nat): nat
    requires 0 < alignment < Pow2(64)
  {
    RightAlign(Low(base + HEADER, 64), alignment)
  }

  /** The user region fits the block malloc was asked for exactly when the requested sum did not wrap; the
  pointer is then the least suitable multiple that leaves room for the header. */
  lemma FitsIffNoWrap(size: nat, alignment: nat, base: Address)
    requires 0 < size < Pow2(64) && ValidAlignment(alignment) && alignment < Pow2(64)
    requires 0 < base && base + Request(size, alignment) <= Pow2(64)
    ensures Inside(Placed(base, alignment), size, base, Request(size, alignment))
            <==> size + HEADER + alignment - 1 < Pow2(64)
    ensures size + HEADER + alignment - 1 < Pow2(64) ==>
              LeastMultiple(Placed(base, alignment), base + HEADER, alignment)
  {
    hide *;
    AlignmentWidth(alignment);
    InsideMeans(Placed(base, alignment), size, base, Request(size, alignment));
    if size + HEADER + alignment - 1 < Pow2(64) {
      RequestNoWrap(size, alignment);
      PlacedIs(base, alignment);
      RightAlignIsLeast(base + HEADER, alignment);
      LeastIsAbove(RightAlign(base + HEADER, alignment), base + HEADER, alignment);
    } else {
      RequestTooSmall(size, alignment);
    }
  }

  lemma PlacedIs(base: Address, alignment: nat)
    requires 0 < alignment < Pow2(64) && base + HEADER < Pow2(64)
    ensures Placed(base, alignment) == RightAlign(base + HEADER, alignment)
  {
    hide Low, Pow2, RightAlign;
    LowSmall(base + HEADER, 64);
  }

  /** For 2^64 - 8 bytes the request wraps to a block of no bytes at all. */
  lemma WrappedRequestExample(base: Address)
    requires 0 < base < Pow2(64)
    ensures Request(0xFFFF_FFFF_FFFF_FFF8, 1) == 0
    ensures !Inside(Placed(base, 1), 0xFFFF_FFFF_FFFF_FFF8, base, 0)
  {
    hide *;
    Pow2Values();
    TwoIsValid();
    InsideMeans(0, 0, 0, 0);
    WrappedSize();
    FitsIffNoWrap(0xFFFF_FFFF_FFFF_FFF8, 1, base);
  }

  lemma WrappedSize()
    ensures Request(0xFFFF_FFFF_FFFF_FFF8, 1) == 0
  {
    hide Low, Pow2;
    Pow2Values();
    LowUnique(0x1_0000_0000_0000_0000, 64, 1, 0);
  }

  lemma InsideMeans(p: Address, size: nat, base: Address, n: nat)
    ensures Inside(p, size, base, n) <==> base <= p - HEADER && p + size <= base + n
    ensures HEADER == 8
  {
  }

  lemma LeastIsAbove(r: int, start: nat, a: nat)
    requires a > 0 && LeastMultiple(r, start, a)
    ensures r >= start
  {
  }

  lemma RequestNoWrap(size: nat, alignment: nat)
    requires alignment > 0 && size + HEADER + alignment - 1 < Pow2(64)
    ensures Request(size, alignment) == size + HEADER + alignment - 1
  {
    hide Low, Pow2;
    LowSmall(size + HEADER + alignment - 1, 64);
  }

  lemma RequestTooSmall(size: nat, alignment: nat)
    requires 0 < size < Pow2(64) && ValidAlignment(alignment) && alignment < Pow2(64)
    requires size + HEADER + alignment - 1 >= Pow2(64)
    ensures Request(size, alignment) < size
  {
    hide Low, Pow2, ValidAlignment;
    AlignmentWidth(alignment);
    var k := Width(alignment) - 1;
    Pow2Values();
    Pow2Mono(k, 63);
    var sum := size + HEADER + alignment - 1;
    ShrLowIsDivision(sum, 64);
    QuotientOne(Shr(sum, 64), Pow2(64), Low(sum, 64), sum);
  }

  // ----- runs of allocations

  /** Storing n bytes at x destroys every header word that overlaps them. */
  function Overwrite(words: map<Address, Address>, x: Address, n: nat): map<Address, Address> {
    map h | h in words && Disjoint(h, HEADER, x, n) :: words[h]
  }

  /** What holds of one live allocation p. */
  ghost predicate AllocationOk(blocks: map<Address, nat>, words: map<Address, Address>, p: Address, a: Allocation) {
    && a.base in blocks && Inside(p, a.size, a.base, blocks[a.base])
    && p - HEADER in words && words[p - HEADER] == a.base
    && a.size > 0 && a.alignment > 0 && LeastMultiple(p, a.base + HEADER, a.alignment)
  }

  ghost predicate BlocksApart(blocks: map<Address, nat>) {
    forall b, c :: b in blocks && c in blocks && b != c ==> Disjoint(b, blocks[b], c, blocks[c])
  }

  ghost predicate LiveOk(blocks: map<Address, nat>, words: map<Address, Address>, live: map<Address, Allocation>) {
    forall p :: p in live ==> AllocationOk(blocks, words, p, live[p])
  }

  /** Every block belongs to exactly one allocation. */
  ghost predicate Owned(blocks: map<Address, nat>, live: map<Address, Allocation>) {
    && (forall p, q :: p in live && q in live && p != q ==> live[p].base != live[q].base)
    && (forall b :: b in blocks ==> exists p :: p in live && live[p].base == b)
  }

  /** The live blocks are disjoint; each holds exactly one live allocation, with its header in place. */
  ghost predicate MemoryOk(blocks: map<Address, nat>, words: map<Address, Address>, live: map<Address, Allocation>) {
    BlocksApart(blocks) && LiveOk(blocks, words, live) && Owned(blocks, live)
  }

  /** The word before a live pointer is the address of its block. */
  lemma HeaderHolds(blocks: map<Address, nat>, words: map<Address, Address>, live: map<Address, Allocation>, p: Address)
    requires MemoryOk(blocks, words, live) && p in live
    ensures p >= HEADER && p - HEADER in words && words[p - HEADER] == live[p].base
  {
    hide LeastMultiple, Owned, BlocksApart;
    assert AllocationOk(blocks, words, p, live[p]);
  }

  /** Live allocations keep away from each other: neither user region nor header of one meets those of another. */
  lemma AllocationsApart(blocks: map<Address, nat>, words: map<Address, Address>, live: map<Address, Allocation>,
      p: Address, q: Address)
    requires MemoryOk(blocks, words, live) && p in live && q in live
    ensures p >= HEADER && q >= HEADER
    ensures p != q ==> Disjoint(p - HEADER, HEADER + live[p].size, q - HEADER, HEADER + live[q].size)
    ensures Disjoint(p, live[p].size, q - HEADER, HEADER)
  {
    hide LeastMultiple;
    assert AllocationOk(blocks, words, p, live[p]) && AllocationOk(blocks, words, q, live[q]);
  }

  /** A store that misses a header leaves its allocation intact. */
  lemma OverwriteKeeps(blocks: map<Address, nat>, words: map<Address, Address>, p: Address, a: Allocation,
      x: Address, n: nat)
    requires AllocationOk(blocks, words, p, a) && Disjoint(p - HEADER, HEADER, x, n)
    ensures AllocationOk(blocks, Overwrite(words, x, n), p, a)
  {
    hide LeastMultiple;
  }

  lemma AllocateKeeps(blocks: map<Address, nat>, words: map<Address, Address>, live: map<Address, Allocation>,
      p: Address, a: Allocation, n: nat)
    requires MemoryOk(blocks, words, live) && Fresh(blocks, a.base, n) && Inside(p, a.size, a.base, n)
    requires a.size > 0 && a.alignment > 0 && LeastMultiple(p, a.base + HEADER, a.alignment)
    ensures p !in live
    ensures MemoryOk(blocks[a.base := n], Overwrite(words, p - HEADER, HEADER)[p - HEADER := a.base], live[p := a])
  {
    hide LeastMultiple, Pow2, Overwrite, Owned, AllocationOk;
    var words1 := Overwrite(words, p - HEADER, HEADER);
    forall q | q in live
      ensures q != p && live[q].base != a.base
      ensures AllocationOk(blocks[a.base := n], words1[p - HEADER := a.base], q, live[q])
    {
      ApartFromNew(blocks, words, q, live[q], p, a, n);
    }
    NewAllocationOk(blocks, words1, p, a, n);
    AddOwned(blocks, live, p, a, n);
  }

  lemma NewAllocationOk(blocks: map<Address, nat>, words: map<Address, Address>, p: Address, a: Allocation, n: nat)
    requires Inside(p, a.size, a.base, n)
    requires a.size > 0 && a.alignment > 0 && LeastMultiple(p, a.base + HEADER, a.alignment)
    ensures AllocationOk(blocks[a.base := n], words[p - HEADER := a.base], p, a)
  {
    hide LeastMultiple;
  }

  lemma ApartFromNew(blocks: map<Address, nat>, words: map<Address, Address>, q: Address, b: Allocation,
      p: Address, a: Allocation, n: nat)
    requires AllocationOk(blocks, words, q, b) && Fresh(blocks, a.base, n) && Inside(p, a.size, a.base, n)
    ensures q != p && b.base != a.base
    ensures AllocationOk(blocks[a.base := n], Overwrite(words, p - HEADER, HEADER)[p - HEADER := a.base], q, b)
  {
    hide LeastMultiple, Pow2;
  }

  lemma AddOwned(blocks: map<Address, nat>, live: map<Address, Allocation>, p: Address, a: Allocation, n: nat)
    requires Owned(blocks, live) && p !in live && forall q :: q in live ==> live[q].base != a.base
    ensures Owned(blocks[a.base := n], live[p := a])
  {
    var blocks2, live2 := blocks[a.base := n], live[p := a];
    forall b | b in blocks2 ensures exists q :: q in live2 && live2[q].base == b {
      if b == a.base {
        assert live2[p].base == b;
      } else {
        var q :| q in live && live[q].base == b;
        assert q in live2 && live2[q].base == b;
      }
    }
  }

  lemma FreeKeeps(blocks: map<Address, nat>, words: map<Address, Address>, live: map<Address, Allocation>, p: Address)
    requires MemoryOk(blocks, words, live) && p in live
    ensures MemoryOk(blocks - {live[p].base}, words, live - {p})
  {
    DropOwned(blocks, live, p);
    BasesDiffer(blocks, live, p);
    hide Owned, AllocationOk;
    forall q | q in live && q != p ensures AllocationOk(blocks - {live[p].base}, words, q, live[q]) {
      OtherBlock(blocks, words, q, live[q], live[p].base);
    }
  }

  lemma BasesDiffer(blocks: map<Address, nat>, live: map<Address, Allocation>, p: Address)
    requires Owned(blocks, live) && p in live
    ensures forall q :: q in live && q != p ==> live[q].base != live[p].base
  {
  }

  lemma OtherBlock(blocks: map<Address, nat>, words: map<Address, Address>, q: Address, a: Allocation, base: Address)
    requires AllocationOk(blocks, words, q, a) && a.base != base
    ensures AllocationOk(blocks - {base}, words, q, a)
  {
    hide LeastMultiple;
  }

  lemma DropOwned(blocks: map<Address, nat>, live: map<Address, Allocation>, p: Address)
    requires Owned(blocks, live) && p in live
    ensures Owned(blocks - {live[p].base}, live - {p})
  {
    var blocks2, live2 := blocks - {live[p].base}, live - {p};
    forall b | b in blocks2 ensures exists q :: q in live2 && live2[q].base == b {
      var q :| q in live && live[q].base == b;
      assert q in live2 && live2[q].base == b;
    }
  }

  lemma WriteKeeps(blocks: map<Address, nat>, words: map<Address, Address>, live: map<Address, Allocation>,
      p: Address, x: Address, n: nat)
    requires MemoryOk(blocks, words, live) && p in live && p <= x && x + n <= p + live[p].size
    ensures MemoryOk(blocks, Overwrite(words, x, n), live)
  {
    hide LeastMultiple, Overwrite, Owned;
    forall q | q in live ensures AllocationOk(blocks, Overwrite(words, x, n), q, live[q]) {
      assert AllocationOk(blocks, words, q, live[q]);
      AllocationsApart(blocks, words, live, p, q);
      OverwriteKeeps(blocks, words, q, live[q], x, n);
    }
  }

  /** The memory of a program that allocates through alignedMalloc: the live blocks of malloc, and the header
  words. `live` names, for each pointer handed out and not yet freed, its request and its block. */
  class Memory {
    var blocks: map<Address, nat>
    var words: map<Address, Address>
    ghost var live: map<Address, Allocation>

    ghost predicate Valid()
      reads this
    {
      MemoryOk(blocks, words, live)
    }

    constructor ()
      ensures Valid() && live == map[]
    {
      blocks, words, live := map[], map[], map[];
    }

    /** alignedMalloc, where `base` is what malloc returns. A null pointer is 0. */
    method Allocate(size: nat, alignment: nat, base: Address) returns (p: Address)
      requires Valid() && size < Pow2(64) && alignment < Pow2(64)
      requires size > 0 && ValidAlignment(alignment) ==> size + HEADER + alignment <= Pow2(64)
      requires size > 0 && ValidAlignment(alignment) ==> Fresh(blocks, base, Request(size, alignment))
      modifies this
      ensures Valid()
      ensures p == 0 <==> size == 0 || !ValidAlignment(alignment)
      ensures p == 0 ==> live == old(live) && blocks == old(blocks) && words == old(words)
      ensures p != 0 ==> p !in old(live) && live == old(live)[p := Allocation(size, alignment, base)]
      ensures p != 0 ==> blocks == old(blocks)[base := Request(size, alignment)]
      ensures p != 0 ==> LeastMultiple(p, base + HEADER, alignment)
    {
      hide Pow2, Low, And, Not, Placed, Request, ValidAlignment, LeastMultiple, MemoryOk, Overwrite;
      if size == 0 || !ValidAlignment(alignment) {
        p := 0;
      } else {
        PlacedInside(size, alignment, base);
        p := Placed(base, alignment);
        AllocateKeeps(blocks, words, live, p, Allocation(size, alignment, base), Request(size, alignment));
        blocks := blocks[base := Request(size, alignment)];
        words := Overwrite(words, p - HEADER, HEADER)[p - HEADER := base];
        live := live[p := Allocation(size, alignment, base)];
      }
    }

    /** alignedFree frees exactly the block that the allocation got from malloc. */
    method Free(p: Address)
      requires Valid() && (p == 0 || p in live)
      modifies this
      ensures Valid() && words == old(words)
      ensures p == 0 ==> blocks == old(blocks) && live == old(live)
      ensures p != 0 ==> blocks == old(blocks) - {old(live)[p].base} && live == old(live) - {p}
    {
      hide MemoryOk;
      if p != 0 {
        FreeKeeps(blocks, words, live, p);
        HeaderHolds(blocks, words, live, p);
        var memoryStart := words[p - HEADER];
        blocks := blocks - {memoryStart};
        live := live - {p};
      }
    }

    /** The program stores n bytes at x, anywhere inside an allocation it owns. */
    method UserWrite(p: Address, x: Address, n: nat)
      requires Valid() && p in live && p <= x && x + n <= p + live[p].size
      modifies this`words
      ensures Valid()
    {
      WriteKeeps(blocks, words, live, p, x, n);
      hide MemoryOk;
      words := Overwrite(words, x, n);
    }
  }

  lemma PlacedInside(size: nat, alignment: nat, base: Address)
    requires 0 < size < Pow2(64) && ValidAlignment(alignment) && alignment < Pow2(64)
    requires size + HEADER + alignment <= Pow2(64) && 0 < base && base + Request(size, alignment) <= Pow2(64)
    ensures alignment > 0
    ensures var p := Placed(base, alignment);
            Inside(p, size, base, Request(size, alignment)) && LeastMultiple(p, base + HEADER, alignment) && p > 0
  {
    hide *;
    AlignmentWidth(alignment);
    RequestNoWrap(size, alignment);
    InsideMeans(0, 0, 0, 0);
    FitsIffNoWrap(size, alignment, base);
    InsideMeans(Placed(base, alignment), size, base, Request(size, alignment));
  }
}
