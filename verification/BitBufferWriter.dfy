/** BitBufferWriter: writes bit strings into a byte array in place, at any bit offset. */
module BitBufferWriter {
  import opened Words
  import opened BitSeq
  import opened BitWidth
  import opened BitCodes

  // ----- splicing bits into a stream

  /** s with the bits from q on replaced by w. */
  function Splice(s: Bits, q: nat, w: Bits): (r: Bits)
    requires q + |w| <= |s|
    ensures |r| == |s|
  {
    s[..q] + w + s[q + |w|..]
  }

  lemma SpliceSplice(s: Bits, q: nat, w: Bits, x: Bits)
    requires q + |w| + |x| <= |s|
    ensures Splice(Splice(s, q, w), q + |w|, x) == Splice(s, q, w + x)
  {
  }

  /** Replacing part of one aligned byte. */
  lemma SpliceByte(s: Bits, p: nat, off: nat, w: Bits)
    requires 8 * p + 8 <= |s| && off + |w| <= 8
    ensures var byte := s[8 * p..8 * p + 8];
            s[..8 * p] + (byte[..off] + w + byte[off + |w|..]) + s[8 * p + 8..] == Splice(s, 8 * p + off, w)
  {
    var q := 8 * p;
    var byte := s[q..q + 8];
    assert byte[..off] == s[q..q + off];
    assert byte[off + |w|..] == s[q + off + |w|..q + 8];
  }

  /** Storing a byte that keeps all but the bits w. */
  lemma StoreByte(b: seq<Byte>, p: nat, x: Byte, off: nat, w: Bits)
    requires p < |b| && off + |w| <= 8
    requires ToBits(x, 8) == ToBits(b[p], 8)[..off] + w + ToBits(b[p], 8)[off + |w|..]
    ensures BufBits(b[p := x]) == Splice(BufBits(b), 8 * p + off, w)
  {
    hide BufBits, ToBits, Splice;
    BufBitsUpdate(b, p, x);
    BufBitsByte(b, p);
    SpliceByte(BufBits(b), p, off, w);
  }

  // ----- the byte-level operations

  /** The highest byte of a 64-bit value. */
  function HighestByte(val: nat): (h: Byte)
    requires val < Pow2(64)
  {
    ShrBound(val, 56, 8);
    assert Pow2(8) == 256;
    Shr(val, 56)
  }

  lemma HighestByteBits(val: nat)
    requires val < Pow2(64)
    ensures ToBits(HighestByte(val), 8) == ToBits(val, 64)[..8]
  {
    hide ToBits;
    ToBitsSplit(val, 8, 56);
  }

  /** `source` holds n bits at its top; they go into `target` at offset `off` from its top. */
  function WritePartialByte(source: Byte, n: nat, target: Byte, off: nat): (r: Byte)
    requires off < 8 && n <= 8 - off
  {
    var mask := PartialMask(n, off);
    PartialByteBound(source, target, off, mask);
    Or(And(target, Not(mask, 8)), Shr(source, off))
  }

  /** static_cast<uint8_t>(0xFF << (8 - n)) >> off. */
  function PartialMask(n: nat, off: nat): (m: nat)
    requires n <= 8
    ensures m < Pow2(8)
  {
    var top := Low(Shl(0xFF, 8 - n), 8);
    LowBound(Shl(0xFF, 8 - n), 8);
    ShrAtMost(top, off);
    Shr(top, off)
  }

  lemma PartialByteBound(source: Byte, target: Byte, off: nat, mask: nat)
    requires mask < Pow2(8)
    ensures Or(And(target, Not(mask, 8)), Shr(source, off)) < 256
  {
    assert Pow2(8) == 256;
    hide *;
    AndAtMost(target, Not(mask, 8));
    ShrAtMost(source, off);
    OrBound(And(target, Not(mask, 8)), Shr(source, off), 8);
  }

  /** Bit i of the mask, counted from the bottom: the n bits that start `off` from the top. */
  lemma PartialMaskBit(n: nat, off: nat, i: nat)
    requires off < 8 && n <= 8 - off && i < 8
    ensures Bit(PartialMask(n, off), i) == (off <= 7 - i < off + n)
  {
    hide Bit, Low, Shl, Shr, Pow2;
    var top := Low(Shl(0xFF, 8 - n), 8);
    BitShr(top, off, i);
    BitLow(Shl(0xFF, 8 - n), 8, i + off);
    BitShl(0xFF, 8 - n, i + off);
    Pow2Values();
    if i + off >= 8 - n { BitOnes(8, i + off - (8 - n)); }
  }

  /** The n bits replace the bits of `target` from `off` on, and every other bit of it is kept. */
  lemma WritePartialByteBits(source: Byte, n: nat, target: Byte, off: nat)
    requires off < 8 && n <= 8 - off
    requires forall i :: n <= i < 8 - off ==> !ToBits(source, 8)[i]
    ensures ToBits(WritePartialByte(source, n, target, off), 8) ==
            ToBits(target, 8)[..off] + ToBits(source, 8)[..n] + ToBits(target, 8)[off + n..]
  {
    hide Bit, WritePartialByte;
    var r := WritePartialByte(source, n, target, off);
    var a, b := ToBits(target, 8), ToBits(source, 8);
    var t := a[..off] + b[..n] + a[off + n..];
    forall k | 0 <= k < 8 ensures ToBits(r, 8)[k] == t[k] {
      PartialByteBit(source, n, target, off, 7 - k);
      if k < off {
        assert t[k] == a[k];
      } else {
        assert b[k - off] == Bit(source, 7 - k + off);
        assert t[k] == if k < off + n then b[k - off] else a[k];
      }
    }
  }

  lemma PartialByteBit(source: Byte, n: nat, target: Byte, off: nat, i: nat)
    requires off < 8 && n <= 8 - off && i < 8
    ensures Bit(WritePartialByte(source, n, target, off), i) ==
            ((Bit(target, i) && !(off <= 7 - i < off + n)) || Bit(source, i + off))
    ensures 7 - i < off ==> !Bit(source, i + off)
  {
    hide Bit, Or, And, Not, Shr, PartialMask;
    var mask := PartialMask(n, off);
    BitOr(And(target, Not(mask, 8)), Shr(source, off), i);
    BitAnd(target, Not(mask, 8), i);
    BitNot(mask, 8, i);
    PartialMaskBit(n, off, i);
    BitShr(source, off, i);
    Pow2Values();
    HighBits(source, 8, i + off);
  }

  // ----- the value being written, kept at the top of a 64-bit word

  /** The bits of w from `done` on are at the top of v, and below them all is zero. */
  ghost predicate Pending(v: nat, w: Bits, done: nat) {
    v < Pow2(64) && done <= |w| <= 64 && ToBits(v, 64) == w[done..] + Zeros(64 - |w| + done)
  }

  lemma PendingStart(val: nat, n: nat)
    requires n <= 64
    ensures Pending(Low(Shl(val, 64 - n), 64), ToBits(val, n), 0)
  {
    hide ToBits, Low, Shl, Pow2;
    LowBound(Shl(val, 64 - n), 64);
    ToBitsShl(val, 64 - n, 64);
    assert ToBits(val, n)[0..] == ToBits(val, n);
  }

  lemma PendingShift(v: nat, w: Bits, done: nat, k: nat)
    requires Pending(v, w, done) && done + k <= |w|
    ensures Pending(Low(Shl(v, k), 64), w, done + k)
  {
    hide Low, Shl, Pow2, Bit;
    LowBound(Shl(v, k), 64);
    ToBitsShl(v, k, 64);
    assert ToBits(v, 64 - k) == ToBits(v, 64)[k..];
    assert w[done..][k..] == w[done + k..];
  }

  /** The top byte holds the next bits, followed by zeros when fewer than eight are left. */
  lemma PendingTop(v: nat, w: Bits, done: nat, n: nat)
    requires Pending(v, w, done) && n <= 8 && done + n <= |w|
    ensures ToBits(HighestByte(v), 8)[..n] == w[done..done + n]
    ensures done + n == |w| ==> forall i :: n <= i < 8 ==> !ToBits(HighestByte(v), 8)[i]
  {
    hide ToBits, HighestByte, Pow2;
    HighestByteBits(v);
    var s := w[done..] + Zeros(64 - |w| + done);
    assert s[..8][..n] == w[done..done + n];
  }

  // ----- the class

  class BitBufferWriter {
    const buf: array<Byte>
    var byteOffset: nat
    var bitOffset: nat

    ghost predicate Valid()
      reads this
    {
      bitOffset < 8 && byteOffset <= buf.Length && (byteOffset == buf.Length ==> bitOffset == 0)
    }

    /** The number of bits before the cursor. */
    ghost function Position(): nat
      reads this
    {
      8 * byteOffset + bitOffset
    }

    ghost function Stream(): (s: Bits)
      reads this, buf
      ensures |s| == 8 * buf.Length
    {
      BufBits(buf[..])
    }

    constructor (bytes: array<Byte>)
      requires bytes.Length <= UINT32_MAX
      ensures buf == bytes && Valid() && Position() == 0
    {
      buf := bytes;
      byteOffset, bitOffset := 0, 0;
    }

    function RemainingBitCount(): (n: nat)
      requires Valid()
      reads this
      ensures Position() + n == 8 * buf.Length
    {
      (buf.Length - byteOffset) * 8 - bitOffset
    }

    method ConsumeBits(n: nat) returns (ok: bool)
      requires Valid()
      modifies `byteOffset, `bitOffset
      ensures Valid() && ok == (n <= old(RemainingBitCount()))
      ensures Position() == old(Position()) + if ok then n else 0
    {
      if n > RemainingBitCount() {
        return false;
      }
      var total := bitOffset + n;
      byteOffset := byteOffset + total / 8;
      bitOffset := total % 8;
      return true;
    }

    /** The current offset moves only to a bit of the buffer or to its end. */
    method Seek(newByte: nat, newBit: nat) returns (ok: bool)
      requires Valid()
      modifies `byteOffset, `bitOffset
      ensures Valid()
      ensures ok <==> newBit <= 7 && 8 * newByte + newBit <= 8 * buf.Length
      ensures Position() == if ok then 8 * newByte + newBit else old(Position())
    {
      if newByte > buf.Length || newBit > 7 || (newByte == buf.Length && newBit > 0) {
        return false;
      }
      byteOffset, bitOffset := newByte, newBit;
      return true;
    }

    /** Exactly the bits from the cursor to cursor + n change, to the low n bits of val. */
    method WriteBits(val: nat, n: nat) returns (ok: bool)
      requires Valid() && val <= UINT64_MAX && 1 <= n <= 64
      modifies this, buf
      ensures Valid() && ok == (n <= old(RemainingBitCount()))
      ensures Position() == old(Position()) + if ok then n else 0
      ensures Stream() == if ok then Splice(old(Stream()), old(Position()), ToBits(val, n)) else old(Stream())
    {
      hide BufBits, ToBits, Splice, Low, Shl, Pow2, Pending, HighestByte, WritePartialByte;
      if n > RemainingBitCount() {
        return false;
      }
      ghost var w := ToBits(val, n);
      ghost var base, start := Stream(), Position();
      var v := Low(Shl(val, 64 - n), 64);
      PendingStart(val, n);
      PendingRange(v, w, 0);
      var inCurrent := 8 - bitOffset;
      var inFirst := if n < inCurrent then n else inCurrent;
      PendingTop(v, w, 0, inFirst);
      WritePartialByteBits(HighestByte(v), inFirst, buf[byteOffset], bitOffset);
      var first := WritePartialByte(HighestByte(v), inFirst, buf[byteOffset], bitOffset);
      StoreByte(buf[..], byteOffset, first, bitOffset, w[0..inFirst]);
      ghost var after := buf[..][byteOffset := first];
      buf[byteOffset] := first;
      assert buf[..] == after;
      if n <= inCurrent {
        assert w[0..inFirst] == w;
        ok := ConsumeBits(n);
        return;
      }
      PendingShift(v, w, 0, inFirst);
      v := Low(Shl(v, inFirst), 64);
      PendingRange(v, w, inFirst);
      WriteWholeBytes(v, n - inFirst, w, base, start);
      ok := ConsumeBits(n);
    }

    /** The rest of WriteBits after its first byte: whole bytes, then the top bits of the last one. */
    method WriteWholeBytes(val: nat, n: nat, ghost w: Bits, ghost base: Bits, ghost start: nat)
      requires Valid() && start == Position() && |base| == 8 * buf.Length
      requires 1 <= n < |w| && |w| - n == 8 - bitOffset && start + |w| <= |base|
      requires Pending(val, w, |w| - n) && val < Pow2(64)
      requires Stream() == Splice(base, start, w[0..|w| - n])
      modifies buf
      ensures Stream() == Splice(base, start, w)
    {
      hide BufBits, ToBits, Splice, Low, Shl, Pow2, Pending, HighestByte, WritePartialByte;
      var v: nat, count: nat, p: nat := val, n, byteOffset + 1;
      while count >= 8
        invariant count <= n && v < Pow2(64) && 8 * p == start + |w| - count
        invariant Pending(v, w, |w| - count)
        invariant Stream() == Splice(base, start, w[0..|w| - count])
      {
        ghost var done := |w| - count;
        PendingTop(v, w, done, 8);
        assert ToBits(HighestByte(v), 8)[..8] == ToBits(HighestByte(v), 8);
        PutBits(buf[..], p, HighestByte(v), 0, base, start, w, done, 8);
        ghost var after := buf[..][p := HighestByte(v)];
        buf[p] := HighestByte(v);
        assert buf[..] == after;
        p := p + 1;
        PendingShift(v, w, done, 8);
        v := Low(Shl(v, 8), 64);
        PendingRange(v, w, done + 8);
        count := count - 8;
      }
      if count > 0 {
        ghost var done := |w| - count;
        PendingTop(v, w, done, count);
        WritePartialByteBits(HighestByte(v), count, buf[p], 0);
        var last := WritePartialByte(HighestByte(v), count, buf[p], 0);
        PutBits(buf[..], p, last, 0, base, start, w, done, count);
        ghost var after := buf[..][p := last];
        buf[p] := last;
        assert buf[..] == after;
      }
      assert w[0..|w|] == w;
    }

    /** All of `code` was spliced in at `start` when it fits; otherwise nothing changed. */
    ghost predicate Appended(base: Bits, start: nat, code: Bits, ok: bool)
      requires Valid()
      reads this, buf
    {
      && ok == (start + |code| <= |base|)
      && Position() == start + (if ok then |code| else 0)
      && Stream() == if ok then Splice(base, start, code) else base
    }

    /** The bytes of `data` that fit were spliced in at `start`; ok says whether that is all of them. */
    ghost predicate AppendedBytes(base: Bits, start: nat, data: seq<Byte>, ok: bool)
      requires Valid()
      reads this, buf
    {
      var k := BytesThatFit(base, start, data);
      && ok == (k == |data|)
      && start + 8 * k <= |base|
      && Position() == start + 8 * k
      && Stream() == Splice(base, start, BufBits(data[..k]))
    }

    method WriteNonSymmetric(val: nat, num: nat) returns (ok: bool)
      requires Valid() && val < num < 0x8000_0000
      modifies this, buf
      ensures Valid()
      ensures Appended(old(Stream()), old(Position()), EncNonSymmetric(val, num), ok)
    {
      hide BufBits, ToBits, Pow2, Width;
      if num == 1 {
        OneValue();
        assert Stream() == Splice(Stream(), Position(), []);
        return true;
      }
      NarrowCount(num);
      var width := BitWidth32(num);
      ShlOne(width);
      var shortForms := Shl(1, width) - num;
      if val < shortForms {
        ok := WriteBits(val, width - 1);
      } else {
        ok := WriteBits(val + shortForms, width);
      }
    }

    static method SizeNonSymmetricBits(val: nat, num: nat) returns (n: nat)
      requires val < num < 0x8000_0000
      ensures n == |EncNonSymmetric(val, num)|
    {
      hide ToBits, Pow2, Width;
      NarrowCount(num);
      var width := BitWidth32(num);
      ShlOne(width);
      var shortForms := Shl(1, width) - num;
      n := if val < shortForms then width - 1 else width;
    }

    method WriteExponentialGolomb(val: nat) returns (ok: bool)
      requires Valid() && val <= UINT32_MAX
      modifies this, buf
      ensures Valid()
      ensures val == UINT32_MAX ==> !ok && Stream() == old(Stream()) && Position() == old(Position())
      ensures val < UINT32_MAX ==> Appended(old(Stream()), old(Position()), EncGolomb(val), ok)
    {
      hide BufBits, ToBits, Pow2, Width, Splice;
      if val == UINT32_MAX {
        return false;
      }
      GolombWidth(val);
      GolombWord(val);
      var width := BitWidth64(val + 1);
      ok := WriteBits(val + 1, width * 2 - 1);
    }

    method WriteSignedExponentialGolomb(val: int) returns (ok: bool)
      requires Valid() && -0x8000_0000 <= val < 0x8000_0000
      modifies this, buf
      ensures Valid()
      ensures val == -0x8000_0000 ==> !ok && Stream() == old(Stream()) && Position() == old(Position())
      ensures val > -0x8000_0000 ==> Appended(old(Stream()), old(Position()), EncGolomb(SignedCode(val)), ok)
    {
      hide BufBits, EncGolomb;
      if val == 0 {
        ok := WriteExponentialGolomb(0);
      } else if val > 0 {
        var signed := val;
        ok := WriteExponentialGolomb(signed * 2 - 1);
      } else {
        if val == -0x8000_0000 {
          return false;
        }
        var signed := -val;
        ok := WriteExponentialGolomb(signed * 2);
      }
    }

    /** WriteUInt8: a byte is written whole or not at all. */
    method WriteUInt8(b: Byte, ghost base: Bits, ghost start: nat, ghost data: seq<Byte>, ghost success: bool)
      returns (ok: bool)
      requires Valid() && |base| == 8 * buf.Length && start <= |base|
      requires AppendedBytes(base, start, data, success)
      modifies this, buf
      ensures Valid() && AppendedBytes(base, start, data + [b], ok && success)
    {
      hide BufBits, ToBits, Splice;
      NextByte(base, start, data, b);
      ok := WriteBits(b, 8);
    }

    method WriteLeb128(val: nat) returns (success: bool)
      requires Valid() && val <= UINT64_MAX
      modifies this, buf
      ensures Valid()
      ensures AppendedBytes(old(Stream()), old(Position()), LebBytes(val), success)
    {
      hide BufBits, And, Shr, Or, LebBytes, AppendedBytes;
      ghost var base, start := Stream(), Position();
      ghost var data: seq<Byte> := [];
      success := true;
      NothingYet(base, start);
      var v: nat, more := val, true;
      while more
        invariant Valid() && v <= UINT64_MAX
        invariant AppendedBytes(base, start, data, success)
        invariant more ==> LebBytes(val) == data + LebBytes(v)
        invariant !more ==> LebBytes(val) == data
        decreases v, more
      {
        LebByte(v);
        ghost var rest := LebBytes(v);
        var byte := And(v, 0x7f);
        v := Shr(v, 7);
        if v > 0 {
          byte := Or(byte, 0x80);
        }
        MoveByte(data, byte, rest, if v > 0 then LebBytes(v) else []);
        var ok := WriteUInt8(byte, base, start, data, success);
        success := ok && success;
        data := data + [byte];
        more := v > 0;
      }
    }

    method WriteString(text: seq<Byte>) returns (success: bool)
      requires Valid()
      modifies this, buf
      ensures Valid()
      ensures AppendedBytes(old(Stream()), old(Position()), text, success)
    {
      hide BufBits, AppendedBytes;
      ghost var base, start := Stream(), Position();
      success := true;
      NothingYet(base, start);
      for i := 0 to |text|
        invariant Valid() && AppendedBytes(base, start, text[..i], success)
      {
        var ok := WriteUInt8(text[i], base, start, text[..i], success);
        success := ok && success;
        assert text[..i] + [text[i]] == text[..i + 1];
      }
      assert text[..|text|] == text;
    }

    lemma NothingYet(base: Bits, start: nat)
      requires Valid() && base == Stream() && start == Position()
      ensures AppendedBytes(base, start, [], true)
    {
      assert BufBits([]) == [];
      assert Splice(base, start, []) == base;
    }
  }

  /** How many bytes of data fit between start and the end of the stream. */
  function BytesThatFit(base: Bits, start: nat, data: seq<Byte>): (k: nat)
    ensures k <= |data|
  {
    if start + 8 * |data| <= |base| then |data| else if start <= |base| then (|base| - start) / 8 else 0
  }

  lemma OneValue()
    ensures EncNonSymmetric(0, 1) == []
  {
    assert Width(1) == 1;
  }

  lemma GolombWord(val: nat)
    requires val < UINT32_MAX
    ensures val + 1 < Pow2(64)
  {
    Pow2Values();
  }

  /** Appending one more byte to what was written. */
  lemma NextByte(base: Bits, start: nat, data: seq<Byte>, b: Byte)
    requires start <= |base|
    ensures var k := BytesThatFit(base, start, data);
            var more := data + [b];
            if k == |data| && start + 8 * k + 8 <= |base|
            then BytesThatFit(base, start, more) == |more| &&
                 Splice(Splice(base, start, BufBits(data[..k])), start + 8 * k, ToBits(b, 8))
                 == Splice(base, start, BufBits(more[..|more|]))
            else BytesThatFit(base, start, more) == k && more[..k] == data[..k] && |base| - (start + 8 * k) < 8
  {
    hide BufBits, ToBits, Splice;
    var k := BytesThatFit(base, start, data);
    var more := data + [b];
    if k == |data| && start + 8 * k + 8 <= |base| {
      assert data[..k] == data && more[..|more|] == more;
      BufBitsAppend(data, [b]);
      BufBitsByte([b], 0);
      assert BufBits([b])[8 * 0..8 * 0 + 8] == BufBits([b]);
      SpliceSplice(base, start, BufBits(data), ToBits(b, 8));
    }
  }

  /** One LEB128 byte: seven low bits, and the top bit when more follow. */
  lemma MoveByte(data: seq<Byte>, b: Byte, rest: seq<Byte>, tail: seq<Byte>)
    requires rest == [b] + tail
    ensures data + rest == (data + [b]) + tail
    ensures tail == [] ==> data + rest == data + [b]
  {
  }

  lemma LebByte(v: nat)
    ensures And(v, 0x7f) < 128 && Or(And(v, 0x7f), 0x80) < 256
    ensures Shr(v, 7) <= v && (Shr(v, 7) > 0 ==> Shr(v, 7) < v)
    ensures LebBytes(v) == if Shr(v, 7) > 0 then [Or(And(v, 0x7f), 0x80)] + LebBytes(Shr(v, 7)) else [And(v, 0x7f)]
  {
    hide And, Or, Shl, Low, Shr, Pow2;
    Pow2Values();
    AndOnes(v, 7);
    ShrLowIsDivision(v, 7);
    var low, high := Low(v, 7), Shr(v, 7);
    assert v == 128 * high + low;
    ShlOne(7);
    OrDisjoint(1, 7, low);
    OrCommutes(low, 0x80);
    if high > 0 { LebBytesStep(low, high); }
  }

  lemma {:induction false} OrCommutes(x: nat, y: nat)
    ensures Or(x, y) == Or(y, x)
  {
    if x == 0 || y == 0 {
    } else {
      OrCommutes(x / 2, y / 2);
    }
  }

  lemma PendingRange(v: nat, w: Bits, done: nat)
    requires Pending(v, w, done)
    ensures v < Pow2(64)
  {
  }

  /** One store extends the spliced prefix of w by the k bits the byte receives. */
  lemma PutBits(b: seq<Byte>, p: nat, x: Byte, off: nat, base: Bits, start: nat, w: Bits, done: nat, k: nat)
    requires p < |b| && off + k <= 8 && done + k <= |w| && start + |w| <= |base|
    requires 8 * p + off == start + done
    requires BufBits(b) == Splice(base, start, w[0..done])
    requires ToBits(x, 8) == ToBits(b[p], 8)[..off] + w[done..done + k] + ToBits(b[p], 8)[off + k..]
    ensures BufBits(b[p := x]) == Splice(base, start, w[0..done + k])
  {
    hide BufBits, ToBits, Splice;
    StoreByte(b, p, x, off, w[done..done + k]);
    SpliceSplice(base, start, w[0..done], w[done..done + k]);
    assert w[0..done] + w[done..done + k] == w[0..done + k];
  }
}
