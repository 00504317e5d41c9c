/** Base64 (section 4 of RFC 4648): the tables, the meaning of a quantum, and the encoder. */
module Base64 {
  import opened Words
  import opened BitSeq
  import opened Spelling

  type Sextet = x: int | 0 <= x < 64

  const PAD: Byte := 61        // '='
  const PADDING: Byte := 0xFD  // table mark of the padding character
  const SPACE: Byte := 0xFE    // table mark of a whitespace character
  const ILLEGAL: Byte := 0xFF  // table mark of every other non-alphabet character

  /** The alphabet, in the order of the values it stands for. */
  const ALPHABET: string := UPPER + LOWER + DIGITS + "+/"

  /** The 64-character alphabet A-Z a-z 0-9 + /. */
  function Base64Table(c: Sextet): Byte {
    if c < 26 then c + 65
    else if c < 52 then c + 71
    else if c < 62 then c - 4
    else if c == 62 then 43
    else 47
  }

  /** The index of a character in the alphabet, or a mark above 63. */
  function DecodeTable(ch: Byte): Byte {
    if 65 <= ch <= 90 then ch - 65
    else if 97 <= ch <= 122 then ch - 71
    else if 48 <= ch <= 57 then ch + 4
    else if ch == 43 then 62
    else if ch == 47 then 63
    else if 9 <= ch <= 13 || ch == 32 then SPACE
    else if ch == PAD then PADDING
    else ILLEGAL
  }

  predicate IsBase64Char(ch: Byte) {
    65 <= ch <= 90 || 97 <= ch <= 122 || 48 <= ch <= 57 || ch == 43 || ch == 47
  }

  /** Tab, line feed, vertical tab, form feed, carriage return and space. */
  predicate IsSpace(ch: Byte) { ch == 9 || ch == 10 || ch == 11 || ch == 12 || ch == 13 || ch == 32 }

  /** The arithmetic of the encoding table is the alphabet, character by character. */
  lemma TableIsAlphabet(c: Sextet)
    ensures |ALPHABET| == 64 && Base64Table(c) == ALPHABET[c] as int
  {
    UpperAt(c);
    LowerAt(c - 26);
    DigitAt(c - 52);
    assert ALPHABET == UPPER + LOWER + DIGITS + "+/";
    hide *;
    JoinedAt(UPPER, LOWER, DIGITS, "+/", c);
  }

  lemma JoinedAt(p: string, q: string, r: string, s: string, c: nat)
    requires c < |p + q + r + s|
    ensures (p + q + r + s)[c] ==
              if c < |p| then p[c]
              else if c < |p + q| then q[c - |p|]
              else if c < |p + q + r| then r[c - |p + q|]
              else s[c - |p + q + r|]
  {
  }

  /** The two tables are inverse, and the marks are exactly the characters outside the alphabet. */
  lemma TablesInverse(c: Sextet, ch: Byte)
    ensures DecodeTable(Base64Table(c)) == c
    ensures DecodeTable(ch) < 64 ==> Base64Table(DecodeTable(ch)) == ch
    ensures DecodeTable(ch) < 64 <==> IsBase64Char(ch)
    ensures DecodeTable(ch) >= 64 ==> DecodeTable(ch) in {PADDING, SPACE, ILLEGAL}
    ensures DecodeTable(ch) == PADDING <==> ch == PAD
    ensures DecodeTable(ch) == SPACE <==> IsSpace(ch)
  {
  }

  // ----- sextets of bytes and bytes of sextets

  function Sextet0(a: Byte): Sextet { a / 4 }

  function Sextet1(a: Byte, b: Byte): Sextet { a % 4 * 16 + b / 16 }

  function Sextet2(b: Byte, c: Byte): Sextet { b % 16 * 4 + c / 64 }

  function Sextet3(c: Byte): Sextet { c % 64 }

  function Byte0(p: Sextet, q: Sextet): Byte { p * 4 + q / 16 }

  function Byte1(q: Sextet, r: Sextet): Byte { q % 16 * 16 + r / 4 }

  function Byte2(r: Sextet, s: Sextet): Byte { r % 4 * 64 + s }

  /** Three bytes and four sextets determine each other. */
  lemma Regrouping(a: Byte, b: Byte, c: Byte, p: Sextet, q: Sextet, r: Sextet, s: Sextet)
    ensures Byte0(Sextet0(a), Sextet1(a, b)) == a
    ensures Byte1(Sextet1(a, b), Sextet2(b, c)) == b
    ensures Byte2(Sextet2(b, c), Sextet3(c)) == c
    ensures Sextet0(Byte0(p, q)) == p
    ensures Sextet1(Byte0(p, q), Byte1(q, r)) == q
    ensures Sextet2(Byte1(q, r), Byte2(r, s)) == r
    ensures Sextet3(Byte2(r, s)) == s
  {
  }

  /** The encoder's shifts and masks compute the sextets. */
  lemma EncoderMasks(a: Byte, b: Byte)
    ensures And(Shr(a, 2), 0x3f) == Sextet0(a)
    ensures And(Shl(a, 4), 0x3f) == Sextet1(a, 0)
    ensures Or(And(Shl(a, 4), 0x3f), And(Shr(b, 4), 0x0f)) == Sextet1(a, b)
    ensures And(Shl(a, 2), 0x3f) == Sextet2(a, 0)
    ensures Or(And(Shl(a, 2), 0x3f), And(Shr(b, 6), 0x03)) == Sextet2(a, b)
    ensures And(a, 0x3f) == Sextet3(a)
  {
    assert Pow2(2) == 4 && Pow2(4) == 16 && Pow2(6) == 64;
    hide *;
    MaskIsMod(Shr(a, 2), 6);
    MaskIsMod(Shl(a, 4), 6);
    MaskIsMod(Shr(b, 4), 4);
    MaskIsMod(Shl(a, 2), 6);
    MaskIsMod(Shr(b, 6), 2);
    MaskIsMod(a, 6);
    ShiftValues(a);
    ShiftValues(b);
    OrAdds(a % 4, 4, b / 16);
    OrAdds(a % 16, 2, b / 64);
    MaskArithmetic(a, b);
  }

  lemma MaskArithmetic(a: Byte, b: Byte)
    ensures a / 4 % 64 == Sextet0(a)
    ensures 16 * a % 64 == 16 * (a % 4) == Sextet1(a, 0)
    ensures b / 16 % 16 == b / 16 && 16 * (a % 4) + b / 16 == Sextet1(a, b)
    ensures 4 * a % 64 == 4 * (a % 16) == Sextet2(a, 0)
    ensures b / 64 % 4 == b / 64 && 4 * (a % 16) + b / 64 == Sextet2(a, b)
    ensures a % 64 == Sextet3(a)
  {
  }

  lemma MaskIsMod(x: nat, n: nat)
    ensures And(x, Pow2(n) - 1) == x % Pow2(n)
  {
    hide *;
    AndOnes(x, n);
    LowIsMod(x, n);
  }

  lemma LowIsMod(x: nat, n: nat)
    ensures Low(x, n) == x % Pow2(n) && Shr(x, n) == x / Pow2(n)
  {
    hide *;
    ShrLowIsDivision(x, n);
    DivModUnique(x, Pow2(n), Shr(x, n), Low(x, n));
  }

  lemma ShiftValues(x: nat)
    ensures Shr(x, 2) == x / 4 && Shr(x, 4) == x / 16 && Shr(x, 6) == x / 64
    ensures Shl(x, 2) == 4 * x && Shl(x, 4) == 16 * x && Shl(x, 6) == 64 * x
  {
    assert Pow2(2) == 4 && Pow2(4) == 16 && Pow2(6) == 64;
    hide *;
    LowIsMod(x, 2);
    LowIsMod(x, 4);
    LowIsMod(x, 6);
    ShlIsProduct(x, 2);
    ShlIsProduct(x, 4);
    ShlIsProduct(x, 6);
  }

  lemma OrAdds(x: nat, n: nat, y: nat)
    requires y < Pow2(n)
    ensures Or(Pow2(n) * x, y) == Pow2(n) * x + y
  {
    hide *;
    ShlIsProduct(x, n);
    OrDisjoint(x, n, y);
  }

  // ----- encoding

  /** One quantum: one, two or three bytes give four characters. */
  function EncodeQuantum(d: seq<Byte>): (r: seq<Byte>)
    requires 1 <= |d| <= 3
    ensures |r| == 4
  {
    var first := Base64Table(Sextet0(d[0]));
    if |d| == 1 then
      [first, Base64Table(Sextet1(d[0], 0)), PAD, PAD]
    else
      var second := Base64Table(Sextet1(d[0], d[1]));
      if |d| == 2 then
        [first, second, Base64Table(Sextet2(d[1], 0)), PAD]
      else
        [first, second, Base64Table(Sextet2(d[1], d[2])), Base64Table(Sextet3(d[2]))]
  }

  function Encode(d: seq<Byte>): seq<Byte> {
    if d == [] then []
    else if |d| <= 3 then EncodeQuantum(d)
    else EncodeQuantum(d[..3]) + Encode(d[3..])
  }

  lemma {:induction false} EncodeLength(d: seq<Byte>)
    ensures |Encode(d)| == (|d| + 2) / 3 * 4
  {
    hide EncodeQuantum;
    if |d| <= 3 {
    } else {
      EncodeLength(d[3..]);
    }
  }

  /** EncodeFromArray: the result is sized in advance and filled in place. */
  method EncodeFromArray(data: seq<Byte>) returns (encoded: seq<Byte>)
    ensures encoded == Encode(data)
  {
    hide *;
    var len := |data|;
    var result := new Byte[(len + 2) / 3 * 4];
    EncodeLength(data);
    assert data[0..] == data;
    var i: nat, dest: nat := 0, 0;
    while i < len
      invariant i <= len && dest <= result.Length
      invariant result[..dest] + Encode(data[i..]) == Encode(data)
      decreases len - i
    {
      var c0, c1, c2, c3, next := EncodeStep(data, i);
      EncodeSplit(data, i, next - i);
      LengthLeft(result[..dest], Encode(data[i..]), Encode(data));
      Regroup(result[..dest], [c0, c1, c2, c3], Encode(data[next..]));
      Store(result, dest, c0, c1, c2, c3);
      i, dest := next, dest + 4;
    }
    assert data[i..] == [];
    EncodeLength([]);
    LengthLeft(result[..dest], Encode([]), Encode(data));
    assert result[..dest] == result[..];
    encoded := result[..];
  }

  lemma LengthLeft(a: seq<Byte>, b: seq<Byte>, whole: seq<Byte>)
    requires a + b == whole
    ensures |a| + |b| == |whole|
    ensures b == [] ==> a == whole
  {
  }

  lemma Regroup(a: seq<Byte>, b: seq<Byte>, c: seq<Byte>)
    ensures (a + b) + c == a + (b + c)
  {
  }

  method Store(result: array<Byte>, dest: nat, c0: Byte, c1: Byte, c2: Byte, c3: Byte)
    requires dest + 4 <= result.Length
    modifies result
    ensures result[..dest + 4] == old(result[..dest]) + [c0, c1, c2, c3]
  {
    result[dest], result[dest + 1], result[dest + 2], result[dest + 3] := c0, c1, c2, c3;
  }

  /** The body of the encoding loop: the characters of the quantum at `start`, and the index after it. */
  method EncodeStep(data: seq<Byte>, start: nat) returns (c0: Byte, c1: Byte, c2: Byte, c3: Byte, i: nat)
    requires start < |data|
    ensures i == if start + 3 <= |data| then start + 3 else |data|
    ensures [c0, c1, c2, c3] == EncodeQuantum(data[start..i])
  {
    hide Base64Table, And, Or, Shl, Shr, Sextet0, Sextet1, Sextet2, Sextet3;
    i := start;
    EncoderMasks(data[i], if i + 1 < |data| then data[i + 1] else 0);
    var c := And(Shr(data[i], 2), 0x3f);
    c0 := Base64Table(c);
    c := And(Shl(data[i], 4), 0x3f);
    i := i + 1;
    if i < |data| {
      c := Or(c, And(Shr(data[i], 4), 0x0f));
    }
    c1 := Base64Table(c);
    if i < |data| {
      EncoderMasks(data[i], if i + 1 < |data| then data[i + 1] else 0);
      c := And(Shl(data[i], 2), 0x3f);
      i := i + 1;
      if i < |data| {
        c := Or(c, And(Shr(data[i], 6), 0x03));
      }
      c2 := Base64Table(c);
    } else {
      c2 := PAD;
    }
    if i < |data| {
      EncoderMasks(data[i], 0);
      c := And(data[i], 0x3f);
      c3 := Base64Table(c);
      i := i + 1;
    } else {
      c3 := PAD;
    }
    ghost var d := data[start..i];
    assert d[0] == data[start] && (|d| > 1 ==> d[1] == data[start + 1]) && (|d| > 2 ==> d[2] == data[start + 2]);
  }

  lemma EncodeSplit(data: seq<Byte>, i: nat, k: nat)
    requires i < |data| && k == if i + 3 <= |data| then 3 else |data| - i
    ensures Encode(data[i..]) == EncodeQuantum(data[i..i + k]) + Encode(data[i + k..])
  {
    hide EncodeQuantum;
    if k < 3 || i + 3 == |data| {
      assert data[i..i + k] == data[i..];
      assert data[i + k..] == [];
    } else {
      assert data[i..][..3] == data[i..i + 3];
      assert data[i..][3..] == data[i + 3..];
    }
  }
}
