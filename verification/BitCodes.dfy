/** The variable-length codes of the bit buffer, as functions on bit strings.

Every code has an encoder, which gives the bits a write appends, and a parser, which says what the
matching read makes of a bit string: the value and the number of bits used, or failure. Both
directions are proved for each code, then for whole streams of items.
*/
module BitCodes {
  import opened Words
  import opened BitSeq
  import opened BitWidth

  datatype Parsed<+T> = Failed | Parsed(value: T, used: nat)

  // ----- fixed width

  function ParseFixed(s: Bits, n: nat): Parsed<nat> {
    if |s| < n then Failed else Parsed(Num(s[..n]), n)
  }

  lemma FixedRoundTrip(v: nat, n: nat, t: Bits)
    ensures ParseFixed(ToBits(v, n) + t, n) == Parsed(Low(v, n), n)
  {
    NumToBits(v, n);
    assert (ToBits(v, n) + t)[..n] == ToBits(v, n);
  }

  // ----- non-symmetric codes: the shortest codes of num values, the low ones one bit shorter

  /** The number of values that take the shorter form. */
  function ShortForms(num: nat): nat {
    WidthBounds(num);
    Pow2(Width(num)) - num
  }

  lemma NarrowCount(num: nat)
    requires 0 < num < 0x8000_0000
    ensures num < Pow2(32) && 0 < Width(num) <= 31 && Pow2(Width(num)) > num
  {
    Pow2Values();
    WidthAtMost(num, 31);
    WidthBounds(num);
  }

  function EncNonSymmetric(v: nat, num: nat): Bits
    requires v < num
  {
    if v < ShortForms(num) then ToBits(v, Width(num) - 1) else ToBits(v + ShortForms(num), Width(num))
  }

  function ParseNonSymmetric(s: Bits, num: nat): Parsed<nat>
    requires num > 0
  {
    var w := Width(num);
    if |s| < w - 1 then Failed
    else if Num(s[..w - 1]) < ShortForms(num) then Parsed(Num(s[..w - 1]), w - 1)
    else if |s| < w then Failed
    else
      NumGrow(s, w);
      Parsed(Num(s[..w]) - ShortForms(num), w)
  }

  lemma NumGrow(s: Bits, w: nat)
    requires 0 < w <= |s|
    ensures Num(s[..w]) == 2 * Num(s[..w - 1]) + if s[w - 1] then 1 else 0
  {
    assert s[..w][..w - 1] == s[..w - 1];
  }

  lemma NonSymmetricRoundTrip(v: nat, num: nat, t: Bits)
    requires v < num
    ensures ParseNonSymmetric(EncNonSymmetric(v, num) + t, num) == Parsed(v, |EncNonSymmetric(v, num)|)
  {
    hide Num, ToBits, Low, Width;
    var w, k := Width(num), ShortForms(num);
    WidthBounds(num);
    var code := EncNonSymmetric(v, num);
    var s := code + t;
    if v < k {
      assert s[..w - 1] == code;
      NumToBits(v, w - 1);
      LowSmall(v, w - 1);
    } else {
      assert s[..w] == code;
      NumToBits(v + k, w);
      LowSmall(v + k, w);
      NumGrow(s, w);
    }
  }

  lemma NonSymmetricCanonical(s: Bits, num: nat)
    requires num > 0 && ParseNonSymmetric(s, num).Parsed?
    ensures var p := ParseNonSymmetric(s, num);
            p.value < num && p.used <= |s| && EncNonSymmetric(p.value, num) == s[..p.used]
  {
    var w, k := Width(num), ShortForms(num);
    WidthBounds(num);
    NumBound(s[..w - 1]);
    if Num(s[..w - 1]) < k {
      ToBitsNum(s[..w - 1]);
    } else {
      NumGrow(s, w);
      NumBound(s[..w]);
      ToBitsNum(s[..w]);
    }
  }

  lemma NonSymmetricPrefixFree(a: nat, b: nat, num: nat)
    requires a < num && b < num && EncNonSymmetric(a, num) <= EncNonSymmetric(b, num)
    ensures a == b
  {
    var ca, cb := EncNonSymmetric(a, num), EncNonSymmetric(b, num);
    NonSymmetricRoundTrip(a, num, cb[|ca|..]);
    NonSymmetricRoundTrip(b, num, []);
    assert ca + cb[|ca|..] == cb + [];
  }

  /** Read as a binary fraction, a code of n bits covers Pow2(w - n) of the Pow2(w) steps of the unit interval:
  those of the strings of w bits that start with it. This is the first of them, and NextStep the one after. */
  function FirstStep(code: Bits, w: nat): nat
    requires |code| <= w
  {
    Num(code) * Pow2(w - |code|)
  }

  function NextStep(code: Bits, w: nat): nat
    requires |code| <= w
  {
    (Num(code) + 1) * Pow2(w - |code|)
  }

  /** The ns(n) codes are the only prefix code whose codes are as long as the width of n or one bit shorter, no
  shorter for a greater value, and in the order of the values: the first starts at zero, each one ends where the
  next one starts, and the last one ends the interval. */
  lemma NonSymmetricTiles(v: nat, num: nat)
    requires v < num
    ensures var w, code := Width(num), EncNonSymmetric(v, num);
            && w - 1 <= |code| <= w
            && (v == 0 ==> FirstStep(code, w) == 0)
            && (v + 1 == num ==> NextStep(code, w) == Pow2(w))
            && (v + 1 < num ==>
                  && |code| <= |EncNonSymmetric(v + 1, num)| <= w
                  && NextStep(code, w) == FirstStep(EncNonSymmetric(v + 1, num), w))
  {
    WidthBounds(num);
    NonSymmetricSteps(v, num);
    if v + 1 < num { NonSymmetricSteps(v + 1, num); }
    hide EncNonSymmetric, FirstStep, NextStep, Width;
  }

  lemma NonSymmetricSteps(v: nat, num: nat)
    requires v < num
    ensures var w, k, code := Width(num), ShortForms(num), EncNonSymmetric(v, num);
            if v < k then |code| == w - 1 && FirstStep(code, w) == 2 * v && NextStep(code, w) == 2 * v + 2
            else |code| == w && FirstStep(code, w) == v + k && NextStep(code, w) == v + k + 1
  {
    hide Num, ToBits, Low, Width;
    var w, k := Width(num), ShortForms(num);
    WidthBounds(num);
    assert Pow2(0) == 1 && Pow2(1) == 2;
    if v < k {
      NumToBits(v, w - 1);
      LowSmall(v, w - 1);
    } else {
      NumToBits(v + k, w);
      LowSmall(v + k, w);
    }
  }

  // ----- exponential Golomb codes

  function EncGolomb(v: nat): Bits {
    ToBits(v + 1, 2 * Width(v + 1) - 1)
  }

  function LeadingZeros(s: Bits): (n: nat)
    ensures n <= |s|
  {
    if s != [] && !s[0] then 1 + LeadingZeros(s[1..]) else 0
  }

  /** z zeros, z < 32, then z + 1 binary digits of the value plus one. */
  function ParseGolomb(s: Bits): Parsed<nat> {
    var z := LeadingZeros(s);
    if z >= 32 || |s| < 2 * z + 1 then Failed
    else GolombPositive(s, z); Parsed(Num(s[z..2 * z + 1]) - 1, 2 * z + 1)
  }

  lemma {:induction false} LeadingZerosStop(s: Bits)
    ensures forall i :: 0 <= i < LeadingZeros(s) ==> !s[i]
    ensures LeadingZeros(s) < |s| ==> s[LeadingZeros(s)]
  {
    if s == [] || s[0] {
    } else {
      LeadingZerosStop(s[1..]);
      forall i | 0 <= i < LeadingZeros(s) ensures !s[i] {
        if i > 0 { assert s[i] == s[1..][i - 1]; }
      }
    }
  }

  lemma {:induction false} LeadingZerosAre(s: Bits, z: nat)
    requires z < |s| && s[z] && forall i :: 0 <= i < z ==> !s[i]
    ensures LeadingZeros(s) == z
  {
    if z == 0 {
    } else {
      LeadingZerosAre(s[1..], z - 1);
    }
  }

  /** A bit string that starts with a one spells a number of full width. */
  lemma NumTopBit(s: Bits)
    requires s != [] && s[0]
    ensures Pow2(|s| - 1) <= Num(s) < Pow2(|s|)
  {
    NumAppend(s[..1], s[1..]);
    assert s == s[..1] + s[1..];
    assert s[..1][..0] == [];
    ShlOne(|s| - 1);
    NumBound(s);
  }

  lemma GolombPositive(s: Bits, z: nat)
    requires z == LeadingZeros(s) && 2 * z + 1 <= |s|
    ensures Pow2(z) <= Num(s[z..2 * z + 1]) < Pow2(z + 1)
  {
    LeadingZerosStop(s);
    NumTopBit(s[z..2 * z + 1]);
  }

  /** The encoder's single wide write is the documented form: leading zeros, then the digits. */
  lemma GolombForm(v: nat)
    ensures EncGolomb(v) == Zeros(Width(v + 1) - 1) + ToBits(v + 1, Width(v + 1))
    ensures ToBits(v + 1, Width(v + 1))[0]
  {
    hide Width;
    var w := Width(v + 1);
    TopBit(v + 1, w);
    var s, t := EncGolomb(v), Zeros(w - 1) + ToBits(v + 1, w);
    forall i | 0 <= i < 2 * w - 1 ensures s[i] == t[i] {
      if i < w - 1 { TopBit(v + 1, 2 * w - 2 - i); }
    }
  }

  lemma GolombWidth(v: nat)
    requires v < UINT32_MAX
    ensures 0 < Width(v + 1) <= 32
  {
    Pow2Values();
    WidthAtMost(v + 1, 32);
  }

  lemma GolombRoundTrip(v: nat, t: Bits)
    requires v < UINT32_MAX
    ensures ParseGolomb(EncGolomb(v) + t) == Parsed(v, |EncGolomb(v)|)
  {
    hide Num, Low, Pow2, ToBits, EncGolomb, LeadingZeros;
    var w := Width(v + 1);
    var s := EncGolomb(v) + t;
    GolombForm(v);
    GolombWidth(v);
    LeadingZerosAre(s, w - 1);
    assert s[w - 1..2 * w - 1] == ToBits(v + 1, w);
    NumToBits(v + 1, w);
    WidthBounds(v + 1);
    LowSmall(v + 1, w);
  }

  lemma GolombDigits(digits: Bits, z: nat)
    requires |digits| == z + 1 && Pow2(z) <= Num(digits) < Pow2(z + 1)
    ensures EncGolomb(Num(digits) - 1) == Zeros(z) + digits
  {
    WidthUnique(Num(digits), z + 1);
    GolombForm(Num(digits) - 1);
    ToBitsNum(digits);
  }

  lemma GolombCanonical(s: Bits)
    requires ParseGolomb(s).Parsed?
    ensures var p := ParseGolomb(s);
            p.value < UINT32_MAX && p.used <= |s| && EncGolomb(p.value) == s[..p.used]
  {
    hide Num, EncGolomb, Pow2, LeadingZeros;
    var z := LeadingZeros(s);
    var digits := s[z..2 * z + 1];
    GolombPositive(s, z);
    Pow2Mono(z + 1, 32);
    Pow2Values();
    GolombDigits(digits, z);
    LeadingZerosStop(s);
    assert Zeros(z) == s[..z];
    assert s[..2 * z + 1] == s[..z] + digits;
  }

  lemma GolombPrefixFree(a: nat, b: nat)
    requires a < UINT32_MAX && b < UINT32_MAX && EncGolomb(a) <= EncGolomb(b)
    ensures a == b
  {
    var ca, cb := EncGolomb(a), EncGolomb(b);
    GolombRoundTrip(a, cb[|ca|..]);
    GolombRoundTrip(b, []);
    assert ca + cb[|ca|..] == cb + [];
  }

  // ----- signed values in the order 0, 1, -1, 2, -2, ...

  function SignedCode(v: int): nat {
    if v > 0 then 2 * v - 1 else -2 * v
  }

  function SignedValue(u: nat): int {
    if u % 2 == 0 then -(u / 2) else (u + 1) / 2
  }

  lemma SignedBijection(v: int, u: nat)
    ensures SignedValue(SignedCode(v)) == v
    ensures SignedCode(SignedValue(u)) == u
    ensures -0x8000_0000 < v < 0x8000_0000 <==> SignedCode(v) <= 0xFFFF_FFFE
  {
  }

  function Abs(v: int): nat { if v < 0 then -v else v }

  /** The code numbers run through the integers by magnitude, a positive value before its negative. */
  lemma SignedOrder(v: int, w: int)
    ensures SignedCode(v) < SignedCode(w) <==> Abs(v) < Abs(w) || (Abs(v) == Abs(w) && w < v)
  {
  }

  /** (-1)^n. */
  function Alternating(n: nat): int { if n == 0 then 1 else -Alternating(n - 1) }

  /** Clause 9.1.1 of H.264: code number k stands for (-1)^(k + 1) times half of k, rounded up. */
  lemma {:induction false} SignedForm(k: nat)
    ensures Alternating(k + 1) == (if k % 2 == 0 then -1 else 1)
    ensures SignedValue(k) == Alternating(k + 1) * ((k + 1) / 2)
  {
    if k == 0 {
    } else {
      SignedForm(k - 1);
    }
  }

  function ParseSigned(s: Bits): Parsed<int> {
    match ParseGolomb(s)
    case Failed => Failed
    case Parsed(u, n) => Parsed(SignedValue(u), n)
  }

  // ----- LEB128

  function LebBytes(v: nat): seq<Byte> {
    if v < 128 then [v] else [128 + v % 128] + LebBytes(v / 128)
  }

  /** The number that bytes spell: seven bits each, least significant byte first. */
  function LebNumber(bytes: seq<Byte>): nat {
    if bytes == [] then 0
    else
      var k := |bytes| - 1;
      LebNumber(bytes[..k]) + bytes[k] % 128 * Pow2(7 * k)
  }

  lemma {:induction false} LebNumberCons(b: Byte, rest: seq<Byte>)
    ensures LebNumber([b] + rest) == b % 128 + 128 * LebNumber(rest)
  {
    if rest == [] {
      assert ([b] + rest)[..0] == [];
      assert Pow2(0) == 1;
    } else {
      hide Pow2;
      var k, all := |rest| - 1, [b] + rest;
      LebNumberCons(b, rest[..k]);
      assert all[..k + 1] == [b] + rest[..k] && all[k + 1] == rest[k];
      Pow2Seven(7 * k);
      var x, p := rest[k] % 128, Pow2(7 * k);
      assert x * (128 * p) == 128 * (x * p);
    }
  }

  lemma Pow2Seven(n: nat)
    ensures Pow2(7 + n) == 128 * Pow2(n)
  {
    Pow2Add(7, n);
    assert Pow2(7) == 128;
  }

  /** The bytes written spell the value; all but the last are marked, and a last byte that is not the only one
  is not zero, so no shorter code spells it. */
  lemma {:induction false} LebForm(v: nat)
    ensures var bytes := LebBytes(v);
            && |bytes| > 0 && LebNumber(bytes) == v
            && (forall i :: 0 <= i < |bytes| ==> (bytes[i] >= 128 <==> i < |bytes| - 1))
            && (|bytes| > 1 ==> bytes[|bytes| - 1] > 0)
  {
    hide LebNumber;
    if v < 128 {
      LebNumberCons(v, []);
      NoLebNumber();
      assert [v] + [] == [v];
    } else {
      LebForm(v / 128);
      LebNumberCons(128 + v % 128, LebBytes(v / 128));
      assert (128 + v % 128) % 128 == v % 128;
      if v / 128 < 128 { assert LebBytes(v / 128) == [v / 128]; }
    }
  }

  lemma NoLebNumber()
    ensures LebNumber([]) == 0
  {
  }

  /** Byte number i of the code is at the front; the tenth byte must end the code and carry one bit. */
  function ParseLebFrom(s: Bits, i: nat): (p: Parsed<nat>)
    requires i <= 9
    ensures p.Parsed? ==> 8 <= p.used <= |s| && p.used % 8 == 0
    decreases 9 - i
  {
    if |s| < 8 then Failed
    else
      var b := Num(s[..8]);
      if i == 9 then (if b > 1 then Failed else Parsed(b, 8))
      else if b < 128 then Parsed(b, 8)
      else
        match ParseLebFrom(s[8..], i + 1)
        case Failed => Failed
        case Parsed(v, n) => Parsed(b - 128 + 128 * v, n + 8)
  }

  function ParseLeb(s: Bits): Parsed<nat> {
    ParseLebFrom(s, 0)
  }

  /** The parser's cases, for a code that parses. */
  lemma LebCases(s: Bits, i: nat)
    requires i <= 9 && ParseLebFrom(s, i).Parsed?
    ensures |s| >= 8 && Num(s[..8]) < 256
    ensures var p, b := ParseLebFrom(s, i), Num(s[..8]);
            if i == 9 then b <= 1 && p == Parsed(b, 8)
            else if b < 128 then p == Parsed(b, 8)
            else
              var q := ParseLebFrom(s[8..], i + 1);
              q.Parsed? && p == Parsed(b - 128 + 128 * q.value, q.used + 8)
  {
    NumBound(s[..8]);
    assert Pow2(8) == 256;
  }

  /** The values that bytes number i to 9 can spell are those below this bound. */
  function LebLimit(i: nat): (r: nat)
    requires i <= 9
    ensures r >= 2
    decreases 9 - i
  {
    if i == 9 then 2 else 128 * LebLimit(i + 1)
  }

  lemma LebLimitIs64Bits()
    ensures LebLimit(0) == UINT64_MAX + 1
  {
    assert LebLimit(5) == 128 * 128 * 128 * 128 * 2;
  }

  lemma BufBitsCons(b: Byte, rest: seq<Byte>, t: Bits)
    ensures BufBits([b] + rest) == ToBits(b, 8) + BufBits(rest)
    ensures BufBits([b] + rest) + t == ToBits(b, 8) + (BufBits(rest) + t)
  {
    BufBitsAppend([b], rest);
    BufBitsByte([b], 0);
  }

  lemma NumByte(b: Byte)
    ensures Num(ToBits(b, 8)) == b
  {
    NumToBits(b, 8);
    assert Pow2(8) == 256;
    LowSmall(b, 8);
  }

  /** One step of the parser on a stream that starts with byte b. */
  lemma ParseLebStep(b: Byte, rest: Bits, i: nat)
    requires i <= 9
    ensures var p := ParseLebFrom(ToBits(b, 8) + rest, i);
            if i == 9 then p == (if b > 1 then Failed else Parsed(b, 8))
            else if b < 128 then p == Parsed(b, 8)
            else match ParseLebFrom(rest, i + 1)
                 case Failed => p == Failed
                 case Parsed(v, n) => p == Parsed(b - 128 + 128 * v, n + 8)
  {
    var s := ToBits(b, 8) + rest;
    assert s[..8] == ToBits(b, 8);
    assert s[8..] == rest;
    NumByte(b);
  }

  lemma LebRoundTripSmall(v: nat, i: nat, t: Bits)
    requires i <= 9 && v < if i == 9 then 2 else 128
    ensures ParseLebFrom(BufBits(LebBytes(v)) + t, i) == Parsed(v, 8 * |LebBytes(v)|)
  {
    hide BufBits, ToBits, ParseLebFrom;
    BufBitsCons(v, [], t);
    assert [v] + [] == [v];
    ParseLebStep(v, BufBits([]) + t, i);
  }

  lemma LebRoundTripStep(low: nat, v: nat, i: nat, t: Bits)
    requires i < 9 && low < 128 && v > 0
    requires ParseLebFrom(BufBits(LebBytes(v)) + t, i + 1) == Parsed(v, 8 * |LebBytes(v)|)
    ensures ParseLebFrom(BufBits(LebBytes(low + 128 * v)) + t, i)
         == Parsed(low + 128 * v, 8 * |LebBytes(low + 128 * v)|)
  {
    hide BufBits, ToBits, ParseLebFrom, LebBytes;
    LebBytesStep(low, v);
    BufBitsCons(128 + low, LebBytes(v), t);
    ParseLebStep(128 + low, BufBits(LebBytes(v)) + t, i);
  }

  lemma {:induction false} LebRoundTripFrom(v: nat, i: nat, t: Bits)
    requires i <= 9 && v < LebLimit(i)
    ensures ParseLebFrom(BufBits(LebBytes(v)) + t, i) == Parsed(v, 8 * |LebBytes(v)|)
    decreases 9 - i
  {
    hide BufBits, LebBytes, ParseLebFrom;
    if v < 128 {
      LebRoundTripSmall(v, i, t);
    } else {
      Div128(v, LebLimit(i + 1));
      LebRoundTripFrom(v / 128, i + 1, t);
      LebRoundTripStep(v % 128, v / 128, i, t);
    }
  }

  lemma Div128(v: nat, p: nat)
    requires v < 128 * p
    ensures v / 128 < p
  {
  }

  lemma LebRoundTrip(v: nat, t: Bits)
    requires v <= UINT64_MAX
    ensures ParseLeb(BufBits(LebBytes(v)) + t) == Parsed(v, 8 * |LebBytes(v)|)
  {
    LebLimitIs64Bits();
    LebRoundTripFrom(v, 0, t);
  }

  lemma {:induction false} LebRange(s: Bits, i: nat)
    requires i <= 9 && ParseLebFrom(s, i).Parsed?
    ensures ParseLebFrom(s, i).value < LebLimit(i)
    decreases 9 - i
  {
    hide Num, ParseLebFrom;
    LebCases(s, i);
    if i >= 9 || Num(s[..8]) < 128 {
    } else {
      LebRange(s[8..], i + 1);
    }
  }

  /** The number of bytes up to and including the first one below 128, or byte number 9. */
  function LebLength(s: Bits, i: nat): (n: nat)
    requires i <= 9
    ensures n > 0
    decreases 9 - i
  {
    if i == 9 || |s| < 8 || Num(s[..8]) < 128 then 1 else 1 + LebLength(s[8..], i + 1)
  }

  lemma {:induction false} LebUsed(s: Bits, i: nat)
    requires i <= 9 && ParseLebFrom(s, i).Parsed?
    ensures ParseLebFrom(s, i).used == 8 * LebLength(s, i)
    decreases 9 - i
  {
    hide Num;
    if i >= 9 || Num(s[..8]) < 128 {
    } else {
      LebUsed(s[8..], i + 1);
    }
  }

  /** The code ends at the first byte that is not marked, or at the tenth. */
  lemma {:induction false} LebLengthIs(s: Bits, i: nat, k: nat)
    requires i <= 9 && k < LebLength(s, i) && 8 * LebLength(s, i) <= |s|
    ensures LebLength(s, i) <= 10 - i
    ensures var b := Num(s[8 * k..8 * k + 8]);
            if k < LebLength(s, i) - 1 then b >= 128 else b < 128 || i + k == 9
    decreases 9 - i
  {
    hide Num;
    assert s[8 * 0..8 * 0 + 8] == s[..8];
    if i == 9 || Num(s[..8]) < 128 {
    } else {
      LebLengthIs(s[8..], i + 1, if k == 0 then 0 else k - 1);
      if k > 0 { assert s[8..][8 * (k - 1)..8 * (k - 1) + 8] == s[8 * k..8 * k + 8]; }
    }
  }

  /** What is read: the number its bytes spell. Reading fails exactly when the code is cut short or its tenth
  byte is more than one. */
  lemma LebParses(s: Bits)
    ensures var n := LebLength(s, 0);
            var good := 8 * n <= |s| && (n == 10 ==> ByteAt(s, 9) <= 1);
            ParseLeb(s) == if good then Parsed(LebNumber(BytesAt(s, n)), 8 * n) else Failed
  {
    hide LebLength, LebNumber, ParseLebFrom, ByteAt;
    LebParsesFrom(s, 0);
  }

  /** What parsing from byte number i on gives, if the code has n bytes from there on. */
  function LebRead(s: Bits, i: nat, n: nat): Parsed<nat>
    requires n > 0
  {
    if 8 * n <= |s| && (i + n == 10 ==> ByteAt(s, n - 1) <= 1) then Parsed(LebNumber(BytesAt(s, n)), 8 * n) else Failed
  }

  lemma {:induction false} LebParsesFrom(s: Bits, i: nat)
    requires i <= 9
    ensures ParseLebFrom(s, i) == LebRead(s, i, LebLength(s, i))
    decreases 9 - i
  {
    hide Num, LebNumber, ByteAt, BytesAt, LebRead;
    if |s| < 8 {
      LebTooShort(s, i);
    } else {
      assert ByteAt(s, 0) == Num(s[..8]) by { ByteInFront(s); }
      if i == 9 || Num(s[..8]) < 128 {
        LebReadOne(s, i);
      } else {
        LebParsesFrom(s[8..], i + 1);
        LebReadMore(s, i, LebLength(s[8..], i + 1));
      }
    }
  }

  lemma ByteInFront(s: Bits)
    requires |s| >= 8
    ensures ByteAt(s, 0) == Num(s[..8])
  {
    assert s[8 * 0..8 * 0 + 8] == s[..8];
  }

  lemma LebTooShort(s: Bits, i: nat)
    requires |s| < 8
    ensures LebRead(s, i, 1) == Failed
  {
  }

  lemma LebReadOne(s: Bits, i: nat)
    requires |s| >= 8 && (i == 9 || (i < 9 && ByteAt(s, 0) < 128))
    ensures LebRead(s, i, 1) == if i == 9 && ByteAt(s, 0) > 1 then Failed else Parsed(ByteAt(s, 0), 8)
  {
    hide Num, LebNumber, ByteAt;
    var b := ByteAt(s, 0);
    assert BytesAt(s, 1) == [b] + [];
    LebNumberCons(b, []);
    NoLebNumber();
  }

  lemma LebReadMore(s: Bits, i: nat, n: nat)
    requires |s| >= 8 && ByteAt(s, 0) >= 128 && n > 0
    ensures LebRead(s, i, n + 1) ==
              match LebRead(s[8..], i + 1, n)
              case Failed => Failed
              case Parsed(v, k) => Parsed(ByteAt(s, 0) - 128 + 128 * v, k + 8)
  {
    hide Num, LebNumber, ByteAt, BytesAt;
    if 8 * n + 8 <= |s| {
      BytesCons(s, n);
      LebNumberCons(ByteAt(s, 0), BytesAt(s[8..], n));
      assert ByteAt(s, n - 1 + 1) == ByteAt(s[8..], n - 1);
    }
  }

  lemma BytesCons(s: Bits, n: nat)
    requires 8 * n + 8 <= |s|
    ensures BytesAt(s, n + 1) == [ByteAt(s, 0)] + BytesAt(s[8..], n)
    ensures forall i :: 0 <= i < n ==> ByteAt(s, i + 1) == ByteAt(s[8..], i)
  {
    hide Num;
    forall i | 0 <= i < n ensures ByteAt(s, i + 1) == ByteAt(s[8..], i) {
      assert s[8 * (i + 1)..8 * (i + 1) + 8] == s[8..][8 * i..8 * i + 8];
    }
  }

  /** LEB128 reading also accepts padded codes. Writing the value back reproduces the bits that were read
      exactly when the input's first byte below 128 (or byte 9) is the first byte or is not zero. */
  lemma LebCanonical(s: Bits)
    requires ParseLeb(s).Parsed?
    ensures var p, n := ParseLeb(s), LebLength(s, 0);
            && p.used == 8 * n <= |s|
            && (BufBits(LebBytes(p.value)) == s[..8 * n] <==> n == 1 || Num(s[8 * n - 8..8 * n]) != 0)
  {
    hide Num, BufBits, LebLength;
    LebUsed(s, 0);
    LebCanonicalFrom(s, 0);
  }

  /** The bytes 0x80 0x00 read as zero, which is written as one byte. */
  lemma OverlongLebExample()
    ensures ParseLeb(BufBits([0x80, 0])) == Parsed(0, 16) && LebBytes(0) == [0]
    ensures BufBits(LebBytes(0)) != BufBits([0x80, 0])
  {
    hide Num, BufBits, ToBits;
    BufBitsCons(0x80, [0], []);
    BufBitsCons(0, [], []);
    assert [0x80] + [0] == [0x80, 0] && [0] + [] == [0];
    ParseLebStep(0x80, BufBits([0]), 0);
    ParseLebStep(0, BufBits([]), 1);
  }

  lemma {:induction false} LebCanonicalFrom(s: Bits, i: nat)
    requires i <= 9 && ParseLebFrom(s, i).Parsed?
    ensures var p := ParseLebFrom(s, i);
            BufBits(LebBytes(p.value)) == s[..p.used] <==> p.used == 8 || Num(s[p.used - 8..p.used]) != 0
    decreases 9 - i
  {
    hide BufBits, ToBits, Num, ParseLebFrom;
    var p := ParseLebFrom(s, i);
    var b := Num(s[..8]);
    LebCases(s, i);
    ToBitsNum(s[..8]);
    if b < 128 {
      BufBitsCons(b, [], []);
      assert [b] + [] == [b];
    } else {
      LebCanonicalFrom(s[8..], i + 1);
      LebCanonicalStep(s, i);
      assert s[8..][p.used - 16..p.used - 8] == s[p.used - 8..p.used];
      assert s[..p.used] == s[..8] + s[8..][..p.used - 8];
    }
  }

  lemma LebBytesStep(low: nat, v: nat)
    requires low < 128 && v > 0
    ensures LebBytes(low + 128 * v) == [128 + low] + LebBytes(v)
  {
    assert (low + 128 * v) / 128 == v && (low + 128 * v) % 128 == low;
  }

  lemma LebJoin(head: Bits, tail: Bits, v: nat)
    requires |head| == 8 && Num(head) >= 128 && v > 0
    ensures BufBits(LebBytes(Num(head) - 128 + 128 * v)) == head + tail <==> BufBits(LebBytes(v)) == tail
  {
    NumBound(head);
    assert Pow2(8) == 256;
    ToBitsNum(head);
    LebBytesStep(Num(head) - 128, v);
    BufBitsCons(Num(head), LebBytes(v), []);
    AppendEqual(head, BufBits(LebBytes(v)), tail);
  }

  lemma LebCanonicalStep(s: Bits, i: nat)
    requires i < 9 && ParseLebFrom(s, i).Parsed? && Num(s[..8]) >= 128
    requires var q := ParseLebFrom(s[8..], i + 1);
             BufBits(LebBytes(q.value)) == s[8..][..q.used] <==> q.used == 8 || Num(s[8..][q.used - 8..q.used]) != 0
    ensures var p := ParseLebFrom(s, i);
            BufBits(LebBytes(p.value)) == s[..8] + s[8..][..p.used - 8] <==> Num(s[8..][p.used - 16..p.used - 8]) != 0
  {
    hide BufBits, Num, ParseLebFrom;
    LebCases(s, i);
    var q := ParseLebFrom(s[8..], i + 1);
    if q.value == 0 {
      LebZero(s[8..], i + 1);
    } else {
      LebJoin(s[..8], s[8..][..q.used], q.value);
      if q.used == 8 { LebSingle(s[8..], i + 1); }
    }
  }

  lemma LebSingle(s: Bits, i: nat)
    requires i <= 9 && ParseLebFrom(s, i).Parsed? && ParseLebFrom(s, i).used == 8
    ensures ParseLebFrom(s, i).value == Num(s[0..8])
  {
    assert s[0..8] == s[..8];
  }

  lemma AppendEqual(a: Bits, b: Bits, c: Bits)
    ensures a + b == a + c <==> b == c
  {
    assert (a + b)[|a|..] == b;
    assert (a + c)[|a|..] == c;
  }

  lemma {:induction false} LebZero(s: Bits, i: nat)
    requires i <= 9 && ParseLebFrom(s, i).Parsed? && ParseLebFrom(s, i).value == 0
    ensures var n := ParseLebFrom(s, i).used; Num(s[n - 8..n]) == 0
    decreases 9 - i
  {
    hide Num, ParseLebFrom;
    LebCases(s, i);
    var n := ParseLebFrom(s, i).used;
    if Num(s[..8]) < 128 {
    } else {
      LebZero(s[8..], i + 1);
      assert s[8..][n - 16..n - 8] == s[n - 8..n];
    }
  }

  // ----- byte strings

  function BytesAt(s: Bits, n: nat): (r: seq<Byte>)
    requires 8 * n <= |s|
    ensures |r| == n
  {
    seq(n, i requires 0 <= i < n => ByteAt(s, i))
  }

  function ByteAt(s: Bits, i: nat): Byte
    requires 8 * i + 8 <= |s|
  {
    NumBound(s[8 * i..8 * i + 8]);
    assert Pow2(8) == 256;
    Num(s[8 * i..8 * i + 8])
  }

  function ParseText(s: Bits, n: nat): Parsed<seq<Byte>> {
    if |s| < 8 * n then Failed else Parsed(BytesAt(s, n), 8 * n)
  }

  lemma TextRoundTrip(text: seq<Byte>, t: Bits)
    ensures ParseText(BufBits(text) + t, |text|) == Parsed(text, 8 * |text|)
  {
    var s := BufBits(text) + t;
    forall i | 0 <= i < |text| ensures BytesAt(s, |text|)[i] == text[i] {
      BufBitsByte(text, i);
      assert s[8 * i..8 * i + 8] == BufBits(text)[8 * i..8 * i + 8];
      NumByte(text[i]);
    }
    assert BytesAt(s, |text|) == text;
  }

  // ----- streams of items

  datatype Item =
    | Fixed(v: nat, n: nat)
    | NonSymmetric(v: nat, num: nat)
    | Golomb(v: nat)
    | SignedGolomb(i: int)
    | Leb128(v: nat)
    | Text(text: seq<Byte>)

  /** What a reader must know in advance to read an item. */
  datatype Shape =
    | FixedShape(n: nat)
    | NonSymmetricShape(num: nat)
    | GolombShape
    | SignedShape
    | LebShape
    | TextShape(len: nat)

  /** The domain of the writing methods: the asserted argument ranges, and values the code can hold. */
  predicate ValidItem(x: Item) {
    match x
    case Fixed(v, n) => 1 <= n <= 64 && v < Pow2(n)
    case NonSymmetric(v, num) => v < num < 0x8000_0000
    case Golomb(v) => v < UINT32_MAX
    case SignedGolomb(i) => -0x8000_0000 < i < 0x8000_0000
    case Leb128(v) => v <= UINT64_MAX
    case Text(_) => true
  }

  predicate ValidShape(h: Shape) {
    match h
    case FixedShape(n) => 1 <= n <= 64
    case NonSymmetricShape(num) => 0 < num < 0x8000_0000
    case _ => true
  }

  function ShapeOf(x: Item): (h: Shape)
    ensures ValidItem(x) ==> ValidShape(h)
  {
    match x
    case Fixed(_, n) => FixedShape(n)
    case NonSymmetric(_, num) => NonSymmetricShape(num)
    case Golomb(_) => GolombShape
    case SignedGolomb(_) => SignedShape
    case Leb128(_) => LebShape
    case Text(text) => TextShape(|text|)
  }

  function EncItem(x: Item): Bits
    requires ValidItem(x)
  {
    match x
    case Fixed(v, n) => ToBits(v, n)
    case NonSymmetric(v, num) => EncNonSymmetric(v, num)
    case Golomb(v) => EncGolomb(v)
    case SignedGolomb(i) => EncGolomb(SignedCode(i))
    case Leb128(v) => BufBits(LebBytes(v))
    case Text(text) => BufBits(text)
  }

  function ParseItem(h: Shape, s: Bits): Parsed<Item>
    requires ValidShape(h)
  {
    match h
    case FixedShape(n) => (match ParseFixed(s, n) case Failed => Failed case Parsed(v, k) => Parsed(Fixed(v, n), k))
    case NonSymmetricShape(num) =>
      (match ParseNonSymmetric(s, num) case Failed => Failed case Parsed(v, k) => Parsed(NonSymmetric(v, num), k))
    case GolombShape => (match ParseGolomb(s) case Failed => Failed case Parsed(v, k) => Parsed(Golomb(v), k))
    case SignedShape => (match ParseSigned(s) case Failed => Failed case Parsed(v, k) => Parsed(SignedGolomb(v), k))
    case LebShape => (match ParseLeb(s) case Failed => Failed case Parsed(v, k) => Parsed(Leb128(v), k))
    case TextShape(len) => (match ParseText(s, len) case Failed => Failed case Parsed(v, k) => Parsed(Text(v), k))
  }

  lemma ItemRoundTrip(x: Item, t: Bits)
    requires ValidItem(x)
    ensures ParseItem(ShapeOf(x), EncItem(x) + t) == Parsed(x, |EncItem(x)|)
  {
    hide ToBits, Low, Pow2, ParseFixed, EncNonSymmetric, ParseNonSymmetric, EncGolomb, ParseGolomb, LebBytes, ParseLeb,
         BufBits, ParseText;
    match x
    case Fixed(v, n) =>
      FixedRoundTrip(v, n, t);
      LowSmall(v, n);
    case NonSymmetric(v, num) =>
      NonSymmetricRoundTrip(v, num, t);
    case Golomb(v) =>
      GolombRoundTrip(v, t);
    case SignedGolomb(i) =>
      SignedBijection(i, 0);
      GolombRoundTrip(SignedCode(i), t);
    case Leb128(v) =>
      LebRoundTrip(v, t);
    case Text(text) =>
      TextRoundTrip(text, t);
  }

  predicate ValidItems(xs: seq<Item>) {
    forall i :: 0 <= i < |xs| ==> ValidItem(xs[i])
  }

  predicate ValidShapes(hs: seq<Shape>) {
    forall i :: 0 <= i < |hs| ==> ValidShape(hs[i])
  }

  function Shapes(xs: seq<Item>): (hs: seq<Shape>)
    ensures ValidItems(xs) ==> ValidShapes(hs)
  {
    seq(|xs|, i requires 0 <= i < |xs| => ShapeOf(xs[i]))
  }

  function EncItems(xs: seq<Item>): Bits
    requires ValidItems(xs)
  {
    if xs == [] then [] else EncItem(xs[0]) + EncItems(xs[1..])
  }

  function ParseItems(hs: seq<Shape>, s: Bits): Parsed<seq<Item>>
    requires ValidShapes(hs)
  {
    if hs == [] then Parsed([], 0)
    else
      match ParseItem(hs[0], s)
      case Failed => Failed
      case Parsed(x, n) =>
        if n > |s| then Failed
        else
          match ParseItems(hs[1..], s[n..])
          case Failed => Failed
          case Parsed(xs, m) => Parsed([x] + xs, n + m)
  }

  lemma ParseItemsCons(hs: seq<Shape>, s: Bits, x: Item, xs: seq<Item>, m: nat)
    requires ValidShapes(hs) && hs != []
    requires ParseItem(hs[0], s).Parsed? && ParseItem(hs[0], s).value == x && ParseItem(hs[0], s).used <= |s|
    requires ParseItems(hs[1..], s[ParseItem(hs[0], s).used..]) == Parsed(xs, m)
    ensures ParseItems(hs, s) == Parsed([x] + xs, ParseItem(hs[0], s).used + m)
  {
  }

  /** Whatever follows it, an encoded stream parses back to exactly the items written. */
  lemma {:induction false} StreamRoundTrip(xs: seq<Item>, t: Bits)
    requires ValidItems(xs)
    ensures ParseItems(Shapes(xs), EncItems(xs) + t) == Parsed(xs, |EncItems(xs)|)
  {
    if xs == [] {
    } else {
      StreamRoundTrip(xs[1..], t);
      StreamStep(xs[0], xs[1..], t);
      assert [xs[0]] + xs[1..] == xs;
    }
  }

  lemma StreamStep(x: Item, xs: seq<Item>, t: Bits)
    requires ValidItem(x) && ValidItems(xs)
    requires ParseItems(Shapes(xs), EncItems(xs) + t) == Parsed(xs, |EncItems(xs)|)
    ensures ValidItems([x] + xs)
    ensures ParseItems(Shapes([x] + xs), EncItems([x] + xs) + t) == Parsed([x] + xs, |EncItems([x] + xs)|)
  {
    hide EncItem, ParseItem, ParseItems, ValidItem, ShapeOf;
    var code, tail, all := EncItem(x), EncItems(xs) + t, [x] + xs;
    ItemRoundTrip(x, tail);
    assert all[1..] == xs;
    assert EncItems(all) + t == code + tail;
    assert (code + tail)[|code|..] == tail;
    assert Shapes(all)[1..] == Shapes(xs);
    ParseItemsCons(Shapes(all), code + tail, x, xs, |EncItems(xs)|);
  }
}
