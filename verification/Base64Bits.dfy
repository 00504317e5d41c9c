/** What Base64 text means, bit by bit (section 4 of RFC 4648): the bits of the bytes, most significant first,
are the bits of the digits, six each, followed by zero bits up to a whole digit. */
module Base64Bits {
  import opened Words
  import opened BitSeq
  import opened Spelling
  import opened Base64
  import opened Base64Decode
  import opened Base64Strict
  import opened Base64Modes

  /** The bits of a digit string in order, six for each digit. */
  function DigitBits(ds: seq<Sextet>): (s: Bits)
    ensures |s| == 6 * |ds|
  {
    if ds == [] then [] else DigitBits(ds[..|ds| - 1]) + ToBits(ds[|ds| - 1], 6)
  }

  lemma NumSnoc(s: Bits, x: nat, n: nat)
    requires x < Pow2(n)
    ensures Num(s + ToBits(x, n)) == Num(s) * Pow2(n) + x
  {
    hide *;
    NumToBits(x, n);
    LowSmall(x, n);
    NumAppend(s, ToBits(x, n));
    ShlIsProduct(Num(s), n);
  }

  lemma {:induction false} DigitsNum(ds: seq<Sextet>)
    ensures Num(DigitBits(ds)) == Spelled(ds, 64)
  {
    if ds == [] {
    } else {
      hide Num, ToBits, Pow2;
      assert Pow2(6) == 64 by { SmallPowers(); }
      DigitsNum(ds[..|ds| - 1]);
      NumSnoc(DigitBits(ds[..|ds| - 1]), ds[|ds| - 1], 6);
    }
  }

  lemma {:induction false} BytesNum(d: seq<Byte>)
    ensures Num(BufBits(d)) == Spelled(d, 256)
  {
    if d == [] {
    } else {
      hide Num, BufBits, ToBits, Pow2;
      var k := |d| - 1;
      assert Pow2(8) == 256 by { SmallPowers(); }
      BytesNum(d[..k]);
      assert d == d[..k] + [d[k]];
      BufBitsAppend(d[..k], [d[k]]);
      BufBitsByte([d[k]], 0);
      assert BufBits([d[k]])[8 * 0..8 * 0 + 8] == BufBits([d[k]]);
      NumSnoc(BufBits(d[..k]), d[k], 8);
    }
  }

  lemma SmallPowers()
    ensures Pow2(0) == 1 && Pow2(2) == 4 && Pow2(4) == 16 && Pow2(6) == 64 && Pow2(8) == 256
  {
  }

  /** Bit strings of one length that spell the same number are the same. */
  lemma SameNum(s: Bits, t: Bits)
    requires |s| == |t| && Num(s) == Num(t)
    ensures s == t
  {
    hide *;
    ToBitsNum(s);
    ToBitsNum(t);
  }

  lemma NumSplit(s: Bits, k: nat)
    requires k <= |s|
    ensures Num(s) == Num(s[..k]) * Pow2(|s| - k) + Num(s[k..])
  {
    hide *;
    NumAppend(s[..k], s[k..]);
    assert s == s[..k] + s[k..];
    ShlIsProduct(Num(s[..k]), |s| - k);
  }

  lemma {:induction false} ZerosNum(n: nat)
    ensures |Zeros(n)| == n && Num(Zeros(n)) == 0
  {
    if n == 0 {
    } else {
      ZerosNum(n - 1);
      assert Zeros(n)[..n - 1] == Zeros(n - 1);
    }
  }

  // ----- one group

  /** The number of whole bytes in n digits. */
  function WholeBytes(n: nat): nat { 6 * n / 8 }

  /** The bytes of a group are the top bits of the number its digits spell; the rest is unused. */
  lemma GroupNumber(ds: seq<Sextet>, high: nat, low: nat)
    requires 0 < |ds| <= 4
    requires match |ds|
             case 1 => Spelled(ds, 64) == high * 64 + low && low < 64
             case 2 => Spelled(ds, 64) == high * 16 + low && low < 16
             case 3 => Spelled(ds, 64) == high * 4 + low && low < 4
             case _ => Spelled(ds, 64) == high && low == 0
    ensures |QuantumBytes(ds)| == WholeBytes(|ds|) && high == Spelled(QuantumBytes(ds), 256)
    ensures low == 0 <==> Unused(ds) == 0
  {
    hide Byte0, Byte1, Byte2, Spelled;
    SpelledShort(ds, 64);
    SpelledShort(QuantumBytes(ds), 256);
    match |ds|
    case 1 => One(ds[0], high, low);
    case 2 => Two(ds[0], ds[1], high, low);
    case 3 => Three(ds[0], ds[1], ds[2], high, low);
    case _ => Four(ds[0], ds[1], ds[2], ds[3]);
  }

  lemma SpelledShort(ds: seq<int>, b: nat)
    ensures |ds| == 0 ==> Spelled(ds, b) == 0
    ensures |ds| == 1 ==> Spelled(ds, b) == ds[0]
    ensures |ds| == 2 ==> Spelled(ds, b) == ds[0] * b + ds[1]
    ensures |ds| == 3 ==> Spelled(ds, b) == (ds[0] * b + ds[1]) * b + ds[2]
    ensures |ds| == 4 ==> Spelled(ds, b) == ((ds[0] * b + ds[1]) * b + ds[2]) * b + ds[3]
  {
    if |ds| > 0 && |ds| <= 4 { SpelledShort(ds[..|ds| - 1], b); }
  }

  lemma One(p: Sextet, high: nat, low: nat)
    requires p == high * 64 + low && low < 64
    ensures high == 0 && (low == 0 <==> Byte0(p, 0) == 0)
  {
  }

  lemma Two(p: Sextet, q: Sextet, high: nat, low: nat)
    requires p * 64 + q == high * 16 + low && low < 16
    ensures high == Byte0(p, q) && (low == 0 <==> Byte1(q, 0) == 0)
  {
  }

  lemma Three(p: Sextet, q: Sextet, r: Sextet, high: nat, low: nat)
    requires (p * 64 + q) * 64 + r == high * 4 + low && low < 4
    ensures high == Byte0(p, q) * 256 + Byte1(q, r) && (low == 0 <==> Byte2(r, 0) == 0)
  {
  }

  lemma Four(p: Sextet, q: Sextet, r: Sextet, s: Sextet)
    ensures ((p * 64 + q) * 64 + r) * 64 + s == (Byte0(p, q) * 256 + Byte1(q, r)) * 256 + Byte2(r, s)
  {
  }

  /** One group: its whole bytes are its first bits, and what is unused is the rest of them. */
  lemma GroupBits(ds: seq<Sextet>)
    requires 0 < |ds| <= 4
    ensures var k := 8 * WholeBytes(|ds|);
            && k <= 6 * |ds| && |QuantumBytes(ds)| == WholeBytes(|ds|)
            && BufBits(QuantumBytes(ds)) == DigitBits(ds)[..k]
            && (Unused(ds) == 0 <==> DigitBits(ds)[k..] == Zeros(6 * |ds| - k))
  {
    hide Num, BufBits, DigitBits, Pow2, Zeros, QuantumBytes, Unused, Spelled;
    var k, s, d := 8 * WholeBytes(|ds|), DigitBits(ds), QuantumBytes(ds);
    DigitsNum(ds);
    NumSplit(s, k);
    NumBound(s[k..]);
    SmallPowers();
    GroupNumber(ds, Num(s[..k]), Num(s[k..]));
    BytesNum(d);
    SameNum(BufBits(d), s[..k]);
    ZerosNum(6 * |ds| - k);
    if Unused(ds) == 0 { SameNum(s[k..], Zeros(6 * |ds| - k)); }
  }

  // ----- whole texts

  lemma {:induction false} DigitBitsAppend(a: seq<Sextet>, b: seq<Sextet>)
    ensures DigitBits(a + b) == DigitBits(a) + DigitBits(b)
  {
    hide ToBits;
    if b == [] {
      assert a + b == a;
    } else {
      var k := |b| - 1;
      DigitBitsAppend(a, b[..k]);
      assert (a + b)[..|a| + k] == a + b[..k];
    }
  }

  lemma JoinAt(s: Bits, t: Bits, k: nat)
    requires k <= |t|
    ensures (s + t)[..|s| + k] == s + t[..k] && (s + t)[|s| + k..] == t[k..]
  {
  }

  /** What digits decode to: the whole bytes of their bits. What is unused are the bits left over. */
  lemma {:induction false} UnpackBits(ds: seq<Sextet>)
    ensures var k := 8 * WholeBytes(|ds|);
            && |Unpack(ds)| == WholeBytes(|ds|) && k <= 6 * |ds|
            && BufBits(Unpack(ds)) == DigitBits(ds)[..k]
            && (Unused(LastGroup(ds)) == 0 <==> DigitBits(ds)[k..] == Zeros(6 * |ds| - k))
    decreases |ds|
  {
    hide BufBits, DigitBits, QuantumBytes, Unused;
    if ds == [] {
      NoBytes();
    } else if |ds| < 4 {
      GroupBits(ds);
    } else {
      var head, rest := ds[..4], ds[4..];
      UnpackBits(rest);
      GroupBits(head);
      assert ds == head + rest;
      DigitBitsAppend(head, rest);
      BufBitsAppend(QuantumBytes(head), Unpack(rest));
      JoinAt(DigitBits(head), DigitBits(rest), 8 * WholeBytes(|rest|));
    }
  }

  /** The number of padding characters after n bytes. */
  function PadCount(n: nat): nat { (3 - n % 3) % 3 }

  /** What bytes are written as: digits whose bits are the bits of the bytes and two zero bits for each padding
  character, then the padding characters. */
  lemma EncodeBits(d: seq<Byte>)
    ensures var ds, n := DigitsOf(Encode(d)), PadCount(|d|);
            && DigitBits(ds) == BufBits(d) + Zeros(2 * n)
            && Encode(d) == Text(ds) + Pads(n)
  {
    hide *;
    UnpackEncode(d);
    EncodeText(d);
    DigitBitsOf(DigitsOf(Encode(d)), d, PadCount(|d|));
  }

  /** Digits that decode to d, with nothing unused, spell the bits of d and zeros. */
  lemma DigitBitsOf(ds: seq<Sextet>, d: seq<Byte>, n: nat)
    requires Unpack(ds) == d && Unused(LastGroup(ds)) == 0 && 3 * |ds| == 4 * |d| + n
    ensures DigitBits(ds) == BufBits(d) + Zeros(2 * n)
  {
    hide *;
    UnpackBits(ds);
    assert 8 * WholeBytes(|ds|) == 8 * |d|;
    BitsLeft(DigitBits(ds), BufBits(d), 8 * |d|, Zeros(2 * n));
  }

  lemma BitsLeft(s: Bits, t: Bits, k: nat, z: Bits)
    requires k <= |s| && t == s[..k] && s[k..] == z
    ensures s == t + z
  {
  }

  lemma {:induction false} EncodeText(d: seq<Byte>)
    ensures var ds, n := DigitsOf(Encode(d)), PadCount(|d|);
            Encode(d) == Text(ds) + Pads(n) && 3 * |ds| == 4 * |d| + n
    decreases |d|
  {
    hide DigitsOf, Encode, Text, Pads, DigitsOfBytes, PadCount;
    PadCounts(|d|);
    if d == [] {
      EmptyText();
    } else if |d| <= 3 {
      QuantumText(d, []);
      EmptyText();
    } else {
      var head, rest := d[..3], d[3..];
      assert head + rest == d;
      EncodeText(rest);
      QuantumText(head, rest);
      var hs, rs := DigitsOfBytes(head), DigitsOf(Encode(rest));
      TextAppend(hs, rs);
    }
  }

  lemma PadCounts(n: nat)
    ensures PadCount(0) == PadCount(3) == 0 && PadCount(1) == 2 && PadCount(2) == 1
    ensures n > 3 ==> PadCount(n) == PadCount(n - 3)
  {
  }

  lemma QuantumText(head: seq<Byte>, rest: seq<Byte>)
    requires 1 <= |head| <= 3 && (|head| == 3 || rest == [])
    ensures var hs := DigitsOfBytes(head);
            && |hs| == |head| + 1 && Encode(head + rest) == Text(hs) + Pads(3 - |head|) + Encode(rest)
            && DigitsOf(Encode(head + rest)) == hs + DigitsOf(Encode(rest))
            && (|head| == 3 ==> Encode(head + rest) == Text(hs) + Encode(rest))
            && (rest == [] ==> head + rest == head && Encode(head) == Text(hs) + Pads(3 - |head|))
            && (rest == [] ==> DigitsOf(Encode(head)) == hs)
  {
    hide DigitsOf, Encode, Text, EncodeQuantum, DigitsOfBytes;
    var hs := DigitsOfBytes(head);
    EncodeCons(head, rest);
    QuantumOfBytes(head);
    DigitsOfText(hs, 4 - |hs|, Encode(rest));
    EmptyText();
    if rest == [] { assert head + rest == head; }
  }

  lemma EmptyText()
    ensures Encode([]) == [] && DigitsOf([]) == [] && Text([]) + Pads(0) == []
  {
  }

  lemma TextAppend(a: seq<Sextet>, b: seq<Sextet>)
    ensures Text(a + b) == Text(a) + Text(b)
  {
    hide Base64Table;
  }
}
