/** BitBufferReader: a cursor over a byte buffer that never fails a call but may enter a failure state. */
module BitBufferReader {
  import opened Words
  import opened BitSeq
  import opened BitWidth
  import opened BitCodes

  // ----- what the byte-chunk arithmetic computes

  /** `x & ((1 << n) - 1)`. */
  lemma MaskLow(x: nat, n: nat)
    ensures And(x, Shl(1, n) - 1) == Low(x, n)
  {
    ShlOne(n);
    AndOnes(x, n);
  }

  /** Bits i..j of a byte, counted from its most significant bit, as shift and mask. */
  lemma ByteSlice(b: Byte, i: nat, j: nat)
    requires i <= j <= 8
    ensures Num(ToBits(b, 8)[i..j]) == Low(Shr(b, 8 - j), j - i)
  {
    hide ToBits, Shr, Low, Num;
    var top := Shr(b, 8 - j);
    ToBitsSplit(b, j, 8 - j);
    ToBitsSplit(top, i, j - i);
    assert ToBits(b, 8)[i..j] == ToBits(top, j)[i..j] == ToBits(top, j - i);
    NumToBits(top, j - i);
  }

  lemma ByteTop(b: Byte, j: nat)
    requires j <= 8
    ensures Num(ToBits(b, 8)[0..j]) == Shr(b, 8 - j)
  {
    ByteSlice(b, 0, j);
    assert Pow2(8) == 256;
    ShrBound(b, 8 - j, j);
    LowSmall(Shr(b, 8 - j), j);
  }

  lemma StreamSlice(bytes: seq<Byte>, p: nat, i: nat, j: nat)
    requires p < |bytes| && i <= j <= 8
    ensures BufBits(bytes)[8 * p + i..8 * p + j] == ToBits(bytes[p], 8)[i..j]
  {
    BufBitsByte(bytes, p);
    SliceOfSlice(BufBits(bytes), 8 * p, 8 * p + 8, i, j);
  }

  /** Or-ing the next n bits below the bits already accumulated. */
  lemma AccumulateBits(s: Bits, t: Bits, k: nat)
    ensures Or(Shl(Num(s), |t| + k), Shl(Num(t), k)) == Shl(Num(s + t), k)
  {
    hide *;
    NumBound(t);
    ShlBound(Num(t), k, |t|);
    OrDisjoint(Num(s), |t| + k, Shl(Num(t), k));
    ShlShl(Num(s), |t|, k);
    ShlAdd(Shl(Num(s), |t|), Num(t), k);
    NumAppend(s, t);
  }

  lemma NoShift(x: nat)
    ensures Shl(x, 0) == x && Shr(x, 0) == x
  {
  }

  /** The accumulator step of ReadBits: the next whole byte, or the top `n` bits of it. */
  lemma AccumulateByte(bytes: seq<Byte>, start: nat, p: nat, n: nat, k: nat)
    requires p < |bytes| && start <= 8 * p && n <= 8
    ensures var all := BufBits(bytes);
            Or(Shl(Num(all[start..8 * p]), n + k), Shl(Shr(bytes[p], 8 - n), k)) == Shl(Num(all[start..8 * p + n]), k)
  {
    hide *;
    var all := BufBits(bytes);
    StreamSlice(bytes, p, 0, n);
    ByteTop(bytes[p], n);
    AccumulateBits(all[start..8 * p], all[8 * p..8 * p + n], k);
    SliceJoin(all, start, 8 * p, 8 * p + n);
  }

  lemma FixedAt(all: Bits, start: int, n: nat)
    requires 0 <= start
    ensures start <= |all| < start + n ==> ParseFixed(all[start..], n) == Failed
    ensures start + n <= |all| ==> ParseFixed(all[start..], n) == Parsed(Num(all[start..start + n]), n)
  {
    if start + n <= |all| {
      assert all[start..][..n] == all[start..start + n];
    }
  }

  /** Where the cursor stands in its byte. */
  lemma FirstByte(room: nat, remaining: nat)
    requires remaining <= 8 * room < remaining + 8
    ensures remaining % 8 == 0 ==> 8 * room == remaining
    ensures remaining % 8 > 0 ==> 8 * room == remaining - remaining % 8 + 8
  {
  }

  // ----- LEB128 accumulation

  /** What has been decoded so far together with what the rest parses to gives the whole. */
  ghost predicate LebSoFar(total: Parsed<nat>, tail: Parsed<nat>, decoded: nat, i: nat) {
    match tail
    case Failed => total == Failed
    case Parsed(v, n) => total == Parsed(decoded + Shl(v, 7 * i), n + 8 * i)
  }

  lemma LebAdvance(total: Parsed<nat>, s: Bits, decoded: nat, i: nat)
    requires i < 9 && |s| >= 8 && Num(s[..8]) >= 128
    requires LebSoFar(total, ParseLebFrom(s, i), decoded, i)
    ensures LebSoFar(total, ParseLebFrom(s[8..], i + 1), decoded + Shl(Num(s[..8]) - 128, 7 * i), i + 1)
  {
    var b := Num(s[..8]) - 128;
    match ParseLebFrom(s[8..], i + 1)
    case Failed =>
    case Parsed(v, n) => LebShift(b, v, i);
  }

  lemma LebShift(b: nat, v: nat, i: nat)
    ensures Shl(b + 128 * v, 7 * i) == Shl(b, 7 * i) + Shl(v, 7 * (i + 1))
  {
    hide Shl;
    assert Pow2(7) == 128;
    ShlAdd(b, 128 * v, 7 * i);
    ShlIsProduct(v, 7);
    ShlShl(v, 7, 7 * i);
    assert 7 + 7 * i == 7 * (i + 1);
  }

  lemma LowSeven(b: Byte)
    ensures And(b, 0x7f) == if b < 128 then b else b - 128
    ensures And(b, 0x80) != 0 <==> b >= 128
  {
    hide *;
    Pow2Values();
    AndOnes(b, 7);
    var top := if b < 128 then 0 else 1;
    assert b == top * 128 + (if b < 128 then b else b - 128);
    LowUnique(b, 7, top, if b < 128 then b else b - 128);
    TopBitTest(b, top);
  }

  /** The continuation bit is the quotient by 128. */
  lemma TopBitTest(b: Byte, top: nat)
    requires Shr(b, 7) == top <= 1
    ensures And(b, 0x80) != 0 <==> top == 1
  {
    hide And, Shr;
    AndHalvesSeven(b);
    assert And(top, 1) == top by { AndBit(top); }
  }

  lemma AndBit(x: nat)
    requires x <= 1
    ensures And(x, 1) == x
  {
  }

  lemma AndHalvesSeven(b: nat)
    ensures And(b, 0x80) == 128 * And(Shr(b, 7), 1)
  {
    AndTopBit(b, 7);
    Pow2Values();
    hide And, Shr;
    ShlIsProduct(And(Shr(b, 7), 1), 7);
  }

  lemma {:induction false} AndTopBit(b: nat, n: nat)
    ensures And(b, Pow2(n)) == Shl(And(Shr(b, n), 1), n)
  {
    if n == 0 {
    } else {
      AndTopBit(b / 2, n - 1);
      Halves(Pow2(n - 1), 0);
    }
  }

  /** The decoded value stays within 64 bits, so the source's unsigned additions do not wrap. */
  lemma LebNoWrap(decoded: nat, part: nat, i: nat)
    requires i <= 9 && decoded < Pow2(7 * i) && part < (if i == 9 then 2 else 128)
    ensures Low(Shl(part, 7 * i), 64) == Shl(part, 7 * i)
    ensures Low(decoded + Shl(part, 7 * i), 64) == decoded + Shl(part, 7 * i)
    ensures i < 9 ==> decoded + Shl(part, 7 * i) < Pow2(7 * (i + 1))
  {
    hide *;
    var k := if i == 9 then 1 else 7;
    Pow2Values();
    ShlPacked(decoded, part, 7 * i, k);
    Pow2Mono(7 * i + k, 64);
    LowSmall(Shl(part, 7 * i), 64);
    LowSmall(decoded + Shl(part, 7 * i), 64);
    assert i < 9 ==> 7 * i + k == 7 * (i + 1);
  }

  lemma ShlPacked(low: nat, high: nat, m: nat, k: nat)
    requires low < Pow2(m) && high < Pow2(k)
    ensures low + Shl(high, m) < Pow2(m + k)
  {
    hide *;
    ShlIsProduct(high, m);
    Pow2Add(m, k);
    Packed(low, high, Pow2(m), Pow2(k));
  }

  lemma Packed(low: nat, high: nat, p: nat, q: nat)
    requires low < p && high < q
    ensures low + high * p < p * q
  {
    assert (high + 1) * p <= q * p;
  }

  // ----- the class

  class BitBufferReader {
    const bytes: seq<Byte>
    var pos: nat        // index of the next byte with an unread bit
    var remaining: int  // unread bits, or -1 after a failure

    /** Until a failure the byte index is the total minus the bytes that still hold an unread bit. */
    ghost predicate Valid()
      reads this
    {
      remaining == -1 || (pos <= |bytes| && 0 <= remaining <= 8 * (|bytes| - pos) < remaining + 8)
    }

    predicate Ok()
      reads this
    {
      remaining >= 0
    }

    /** The unread bits. */
    ghost function Rest(): (s: Bits)
      requires Valid() && Ok()
      reads this
      ensures |s| == remaining
    {
      BufBits(bytes)[8 * |bytes| - remaining..]
    }

    /** The reader did to `before`, its unread bits, what the parser says: it used up that many bits and
        returned r, or it failed. The buffer never changes, so the count fixes the unread bits. */
    ghost predicate Took<T>(p: Parsed<T>, before: Bits, r: T)
      reads this
    {
      match p
      case Failed => remaining == -1
      case Parsed(v, n) => n <= |before| && remaining == |before| - n && r == v
    }

    /** Using n bits of `before` leaves its suffix. */
    lemma RestIsSuffix(before: Bits, n: nat)
      requires Valid() && Ok() && n + remaining == |before| <= 8 * |bytes|
      requires before == BufBits(bytes)[8 * |bytes| - |before|..]
      ensures Rest() == before[n..]
    {
    }

    constructor (bytes: seq<Byte>)
      requires 8 * |bytes| <= 0x7FFF_FFFF
      ensures this.bytes == bytes
      ensures Valid() && Ok() && Rest() == BufBits(bytes)
    {
      this.bytes := bytes;
      pos := 0;
      remaining := 8 * |bytes|;
    }

    method Invalidate()
      modifies this
      ensures Valid() && !Ok()
    {
      remaining := -1;
    }

    method ReadBits(n: nat) returns (r: nat)
      requires Valid() && n <= 64
      modifies this
      ensures Valid()
      ensures !old(Ok()) ==> !Ok() && r == 0
      ensures old(Ok()) ==> Took(ParseFixed(old(Rest()), n), old(Rest()), r)
      ensures !Ok() ==> r == 0
    {
      hide BufBits, ToBits, Num, Low, Shl, Shr, And, Or, ParseFixed;
      FixedAt(BufBits(bytes), 8 * |bytes| - remaining, n);
      if remaining < n {
        Invalidate();
        return 0;
      }
      ghost var all := BufBits(bytes);
      ghost var start := 8 * |bytes| - remaining;
      var bits := n;
      var first := remaining % 8;
      FirstByte(|bytes| - pos, remaining);
      remaining := remaining - n;
      if bits < first {
        var offset := first - bits;
        StreamSlice(bytes, pos, 8 - first, 8 - offset);
        ByteSlice(bytes[pos], 8 - first, 8 - offset);
        MaskLow(Shr(bytes[pos], offset), bits);
        return And(Shr(bytes[pos], offset), Shl(1, bits) - 1);
      }
      var result := 0;
      if first > 0 {
        bits := bits - first;
        StreamSlice(bytes, pos, 8 - first, 8);
        ByteSlice(bytes[pos], 8 - first, 8);
        MaskLow(bytes[pos], first);
        NoShift(bytes[pos]);
        var mask := Shl(1, first) - 1;
        result := Shl(And(bytes[pos], mask), bits);
        pos := pos + 1;
      } else {
        NumEmpty(bits);
        assert all[start..8 * pos] == [];
      }
      assert result == Shl(Num(all[start..8 * pos]), bits);
      r := ReadWholeBytes(result, bits, start);
    }

    /** The rest of ReadBits, once the cursor is at a byte boundary: whole bytes, then the top of the last one. */
    method ReadWholeBytes(acc: nat, n: nat, ghost start: nat) returns (r: nat)
      requires start <= 8 * pos && 8 * pos + n <= 8 * |bytes|
      requires acc == Shl(Num(BufBits(bytes)[start..8 * pos]), n)
      modifies `pos
      ensures old(pos) <= pos && 8 * pos <= 8 * old(pos) + n < 8 * pos + 8
      ensures r == Num(BufBits(bytes)[start..8 * old(pos) + n])
    {
      hide BufBits, Num, Shl, Shr, Or;
      ghost var all := BufBits(bytes);
      ghost var end := 8 * pos + n;
      var bits := n;
      r := acc;
      while bits >= 8
        invariant start <= 8 * pos && 8 * pos + bits == end && old(pos) <= pos
        invariant r == Shl(Num(all[start..8 * pos]), bits)
      {
        bits := bits - 8;
        AccumulateByte(bytes, start, pos, 8, bits);
        NoShift(bytes[pos]);
        r := Or(r, Shl(bytes[pos], bits));
        pos := pos + 1;
      }
      NoShift(Num(all[start..end]));
      if bits > 0 {
        AccumulateByte(bytes, start, pos, bits, 0);
        NoShift(Shr(bytes[pos], 8 - bits));
        r := Or(r, Shr(bytes[pos], 8 - bits));
      }
    }

    method ReadBit() returns (r: nat)
      requires Valid()
      modifies this
      ensures Valid() && r <= 1
      ensures !old(Ok()) ==> !Ok()
      ensures old(Ok()) && old(Rest()) == [] ==> !Ok()
      ensures old(Ok()) && old(Rest()) != [] ==>
                remaining == old(remaining) - 1 && r == (if old(Rest())[0] then 1 else 0)
      ensures !Ok() ==> r == 0
    {
      hide BufBits, And, Shr;
      if remaining <= 0 {
        Invalidate();
        return 0;
      }
      FirstByte(|bytes| - pos, remaining);
      remaining := remaining - 1;
      var position := remaining % 8;
      BitAt(bytes, pos, position);
      r := And(Shr(bytes[pos], position), 0x01);
      if position == 0 {
        pos := pos + 1;
      }
    }

    method ConsumeBits(n: nat)
      requires Valid()
      modifies this
      ensures Valid()
      ensures Ok() <==> old(Ok()) && n <= old(remaining)
      ensures Ok() ==> remaining == old(remaining) - n
    {
      if remaining < n {
        Invalidate();
        return;
      }
      var remainingBytes := (remaining + 7) / 8;
      remaining := remaining - n;
      var newRemainingBytes := (remaining + 7) / 8;
      pos := pos + (remainingBytes - newRemainingBytes);
    }

    method ReadNonSymmetric(num: nat) returns (r: nat)
      requires Valid() && 0 < num < 0x8000_0000
      modifies this
      ensures Valid()
      ensures !old(Ok()) ==> !Ok()
      ensures old(Ok()) ==> Took(ParseNonSymmetric(old(Rest()), num), old(Rest()), r)
    {
      hide BufBits, Num, Width, Pow2;
      ghost var before := if Ok() then Rest() else [];
      NarrowCount(num);
      var width := BitWidth32(num);
      ShlOne(width);
      var shortForms := Shl(1, width) - num;
      var val := ReadBits(width - 1);
      if val < shortForms {
        return val;
      }
      if Ok() && Rest() != [] {
        NumGrow(before, width);
      }
      var bit := ReadBit();
      assert Shl(val, 1) == 2 * val;
      r := Shl(val, 1) + bit - shortForms;
    }

    method ReadExponentialGolomb() returns (r: nat)
      requires Valid()
      modifies this
      ensures Valid()
      ensures !old(Ok()) ==> !Ok()
      ensures old(Ok()) ==> Took(ParseGolomb(old(Rest())), old(Rest()), r)
    {
      hide BufBits, Num, Shl, ParseGolomb, LeadingZeros;
      var zeros := CountZeroBits();
      if !Ok() {
        return 0;
      }
      GolombSplit(old(Rest()), zeros);
      RestIsSuffix(old(Rest()), zeros + 1);
      var low := ReadBits(zeros);
      r := Shl(1, zeros) + low - 1;
    }

    /** The loop of ReadExponentialGolomb: skip zeros up to and including the first one bit. */
    method CountZeroBits() returns (zeros: nat)
      requires Valid()
      modifies this
      ensures Valid()
      ensures Ok() ==> old(Ok()) && zeros < 32 && remaining == old(remaining) - zeros - 1
      ensures Ok() ==> old(Rest())[zeros] && forall i :: 0 <= i < zeros ==> !old(Rest())[i]
      ensures old(Ok()) && !Ok() ==> ParseGolomb(old(Rest())) == Failed
    {
      hide BufBits, ParseGolomb, LeadingZeros;
      ghost var before := if Ok() then Rest() else [];
      zeros := 0;
      if Ok() { AllZeros(before, 0); }
      var bit := ReadBit();
      while bit == 0
        invariant Valid() && zeros < 32
        invariant Ok() ==> old(Ok()) && remaining == |before| - zeros - 1 >= 0
        invariant Ok() ==> bit == (if before[zeros] then 1 else 0)
        invariant Ok() ==> forall i :: 0 <= i < zeros ==> !before[i]
        invariant old(Ok()) && !Ok() ==> ParseGolomb(before) == Failed
        invariant !Ok() ==> bit == 0
        decreases 32 - zeros
      {
        zeros := zeros + 1;
        if Ok() { AllZeros(before, zeros); }
        if zeros >= 32 {
          Invalidate();
          return;
        }
        bit := ReadBit();
      }
    }

    method ReadSignedExponentialGolomb() returns (r: int)
      requires Valid()
      modifies this
      ensures Valid()
      ensures !old(Ok()) ==> !Ok()
      ensures old(Ok()) ==> Took(ParseSigned(old(Rest())), old(Rest()), r)
    {
      hide ParseGolomb, BufBits;
      var u := ReadExponentialGolomb();
      LowBit(u);
      if And(u, 1) == 0 {
        var half: int := u / 2;
        return -half;
      } else {
        return (u + 1) / 2;
      }
    }

    method ReadLeb128() returns (r: nat)
      requires Valid()
      modifies this
      ensures Valid()
      ensures !old(Ok()) ==> !Ok()
      ensures old(Ok()) ==> Took(ParseLeb(old(Rest())), old(Rest()), r)
      ensures !Ok() ==> r == 0
    {
      hide BufBits, Num, Low, Shl, And, Pow2, ParseLeb, ParseLebFrom, LebSoFar;
      ghost var live := Ok();
      ghost var before := if Ok() then Rest() else [];
      LebStart(before);
      var decoded: nat, i: nat, byte: Byte, more := 0, 0, 0, true;
      while more
        invariant Valid() && i <= 10 && (more ==> i <= 9)
        invariant Ok() ==> live && remaining == |before| - 8 * i
        invariant more && Ok() ==> decoded < Pow2(7 * i)
        invariant more && Ok() ==> LebSoFar(ParseLeb(before), ParseLebFrom(before[8 * i..], i), decoded, i)
        invariant more && !Ok() ==> !live
        invariant live && !Ok() ==> ParseLeb(before) == Failed && byte == 0
        invariant !more && Ok() && i == 10 && byte > 1 ==> ParseLeb(before) == Failed
        invariant !more && Ok() && !(i == 10 && byte > 1) ==> ParseLeb(before) == Parsed(decoded, 8 * i)
        decreases 10 - i
      {
        if Ok() {
          RestIsSuffix(before, 8 * i);
          LebStep(before, decoded, i);
        }
        byte := ReadByte();
        LowSeven(byte);
        decoded := Low(decoded + Low(Shl(And(byte, 0x7f), 7 * i), 64), 64);
        i := i + 1;
        more := i < 10 && And(byte, 0x80) != 0;
      }
      if i == 10 && byte > 1 {
        Invalidate();
      }
      r := if Ok() then decoded else 0;
    }

    /** Read<uint8_t>(). */
    method ReadByte() returns (b: Byte)
      requires Valid()
      modifies this
      ensures Valid()
      ensures old(remaining) < 8 ==> !Ok() && b == 0
      ensures old(remaining) >= 8 ==> remaining == old(remaining) - 8 && b == Num(old(Rest())[..8])
    {
      hide BufBits, Num;
      var v := ReadBits(8);
      if Ok() {
        NumBound(old(Rest())[..8]);
        assert Pow2(8) == 256;
      }
      b := v;
    }

    method ReadString(n: nat) returns (res: seq<Byte>)
      requires Valid()
      modifies this
      ensures Valid()
      ensures !old(Ok()) ==> !Ok()
      ensures old(Ok()) ==> Took(ParseText(old(Rest()), n), old(Rest()), res)
      ensures !Ok() ==> res == []
    {
      hide BufBits, Num;
      ghost var live := Ok();
      ghost var before := if Ok() then Rest() else [];
      res := [];
      for i := 0 to n
        invariant Valid()
        invariant Ok() ==> live && remaining == |before| - 8 * i && res == BytesAt(before, i)
        invariant !Ok() && live ==> |before| < 8 * n
        invariant !live ==> !Ok()
      {
        if Ok() {
          RestIsSuffix(before, 8 * i);
          if 8 * i + 8 <= |before| { assert before[8 * i..][..8] == before[8 * i..8 * i + 8]; }
        }
        var b := ReadByte();
        res := res + [b];
      }
      if !Ok() { res := []; }
    }
  }

  /** One bit of one byte. */
  lemma BitAt(bytes: seq<Byte>, p: nat, position: nat)
    requires p < |bytes| && position < 8
    ensures var bit := And(Shr(bytes[p], position), 0x01);
            bit <= 1 && (bit == 1 <==> BufBits(bytes)[8 * p + 7 - position])
  {
    assert (8 * p + 7 - position) / 8 == p && (8 * p + 7 - position) % 8 == 7 - position;
    BitShr(bytes[p], position, 0);
    LowBit(Shr(bytes[p], position));
  }

  lemma LowBit(u: nat)
    ensures And(u, 1) == u % 2
  {
    assert Pow2(1) == 2;
    AndOnes(u, 1);
    assert Low(u, 1) == 2 * Low(u / 2, 0) + u % 2;
  }

  lemma LebStart(s: Bits)
    ensures 0 < Pow2(7 * 0)
    ensures LebSoFar(ParseLeb(s), ParseLebFrom(s[8 * 0..], 0), 0, 0)
  {
    assert s[8 * 0..] == s;
    assert forall v :: Shl(v, 0) == v;
  }

  /** One round of the decoding loop, at byte number i. */
  lemma LebStep(s: Bits, decoded: nat, i: nat)
    requires i <= 9 && 8 * i <= |s| && decoded < Pow2(7 * i)
    requires LebSoFar(ParseLeb(s), ParseLebFrom(s[8 * i..], i), decoded, i)
    ensures |s| < 8 * i + 8 ==> ParseLeb(s) == Failed
    ensures |s| >= 8 * i + 8 ==>
              var byte := Num(s[8 * i..][..8]);
              var next := Low(decoded + Low(Shl(And(byte, 0x7f), 7 * i), 64), 64);
              && byte < 256
              && (i == 9 && byte > 1 ==> ParseLeb(s) == Failed)
              && ((if i == 9 then byte <= 1 else byte < 128) ==> ParseLeb(s) == Parsed(next, 8 * (i + 1)))
              && (i < 9 && byte >= 128 ==>
                    && next < Pow2(7 * (i + 1))
                    && LebSoFar(ParseLeb(s), ParseLebFrom(s[8 * (i + 1)..], i + 1), next, i + 1))
  {
    hide Low, Shl, And, Num;
    if |s| >= 8 * i + 8 {
      var tail := s[8 * i..];
      var byte := Num(tail[..8]);
      NumBound(tail[..8]);
      assert Pow2(8) == 256;
      LowSeven(byte);
      var part := And(byte, 0x7f);
      if i < 9 || byte <= 1 { LebNoWrap(decoded, part, i); }
      if i < 9 && byte >= 128 {
        LebAdvance(ParseLeb(s), tail, decoded, i);
        assert tail[8..] == s[8 * (i + 1)..];
      }
    }
  }

  /** A prefix of zeros that is too long, or is all there is, fails the parse. */
  lemma AllZeros(s: Bits, z: nat)
    requires z <= |s| && forall i :: 0 <= i < z ==> !s[i]
    ensures LeadingZeros(s) >= z
    ensures z == |s| || z >= 32 ==> ParseGolomb(s) == Failed
  {
    LeadingZerosStop(s);
  }

  /** After z zeros and a one, z more digits complete the code. */
  lemma GolombSplit(s: Bits, z: nat)
    requires z < 32 && z < |s| && s[z] && forall i :: 0 <= i < z ==> !s[i]
    ensures |s[z + 1..]| < z ==> ParseGolomb(s) == Failed
    ensures |s[z + 1..]| >= z ==>
              ParseGolomb(s) == Parsed(Shl(1, z) + Num(s[z + 1..][..z]) - 1, 2 * z + 1)
  {
    LeadingZerosAre(s, z);
    assert Num([true]) == 1;
    hide Num, Shl;
    if 2 * z + 1 <= |s| {
      NumAppend([s[z]], s[z + 1..][..z]);
      assert s[z..2 * z + 1] == [s[z]] + s[z + 1..][..z];
    }
  }

  lemma {:induction false} NumEmpty(n: nat)
    ensures Shl(Num([]), n) == 0
  {
    if n == 0 {
    } else {
      NumEmpty(n - 1);
    }
  }
}
