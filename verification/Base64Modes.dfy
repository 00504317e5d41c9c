/** What the tolerant parse modes compute, in terms of the characters they ignore. */
module Base64Modes {
  import opened BitSeq
  import opened Base64
  import opened Base64Decode
  import opened Base64Strict

  // ----- whitespace

  function Strip(data: seq<Byte>): (r: seq<Byte>)
    ensures |r| <= |data|
  {
    if data == [] then []
    else
      var k := |data| - 1;
      if IsSpace(data[k]) then Strip(data[..k]) else Strip(data[..k]) + [data[k]]
  }

  /** Where position i of the input lands in the stripped input. */
  function At(data: seq<Byte>, i: nat): nat
    requires i <= |data|
  {
    |Strip(data[..i])|
  }

  lemma {:induction false} StripSplit(data: seq<Byte>, i: nat)
    requires i <= |data|
    ensures Strip(data[..i]) <= Strip(data)
  {
    if i == |data| {
      assert data[..i] == data;
    } else {
      var k := |data| - 1;
      StripSplit(data[..k], i);
      assert data[..k][..i] == data[..i];
    }
  }

  lemma AtSteps(data: seq<Byte>, i: nat)
    requires i <= |data|
    ensures At(data, 0) == 0 && At(data, |data|) == |Strip(data)|
    ensures At(data, i) <= |Strip(data)|
    ensures i < |data| && IsSpace(data[i]) ==> At(data, i + 1) == At(data, i)
    ensures i < |data| && !IsSpace(data[i]) ==>
              At(data, i) < |Strip(data)| && Strip(data)[At(data, i)] == data[i] && At(data, i + 1) == At(data, i) + 1
  {
    hide IsSpace, Strip;
    assert data[..|data|] == data;
    assert data[..0] == [];
    StripEmpty();
    StripSplit(data, i);
    if i < |data| {
      StripSplit(data, i + 1);
      StripSnoc(data, i);
    }
  }

  lemma StripEmpty()
    ensures Strip([]) == []
  {
  }

  lemma StripSnoc(data: seq<Byte>, i: nat)
    requires i < |data|
    ensures Strip(data[..i + 1]) == Strip(data[..i]) + if IsSpace(data[i]) then [] else [data[i]]
  {
    hide IsSpace;
    var prefix := data[..i + 1];
    assert prefix[..i] == data[..i] && prefix[i] == data[i];
  }

  /** The strict scan state that mirrors a whitespace-tolerant one. */
  function Image(data: seq<Byte>, st: Scan): Scan
    requires st.pos <= |data| && st.padStart <= |data|
  {
    Scan(At(data, st.pos), st.digits, st.pads, At(data, st.padStart))
  }

  /** Positions of a tolerant scan: whitespace is never where it stops, starts padding or ends a full quantum. */
  ghost predicate OnText(data: seq<Byte>, st: Scan) {
    && st.pos <= |data| && st.padStart <= |data|
    && (st.pads > 0 ==> st.padStart < |data| && !IsSpace(data[st.padStart]))
    && (|st.digits| == 4 ==> st.pos > 0 && !IsSpace(data[st.pos - 1]))
    && |st.digits| <= 4
  }

  lemma NextMirrors(illegalPads: bool, data: seq<Byte>, st: Scan)
    requires OnText(data, st) && st.pos < |data| && |st.digits| < 4
    ensures var w := Next(White, illegalPads, data, st);
            OnText(data, w)
            && if IsSpace(data[st.pos]) then w.pos == st.pos + 1 && Image(data, w) == Image(data, st)
               else
                 At(data, st.pos) < |Strip(data)|
                 && Next(Strict, illegalPads, Strip(data), Image(data, st)) == Image(data, w)
                 && (w.pos == st.pos <==> Image(data, w).pos == Image(data, st).pos)
  {
    hide At, Strip, DecodeTable;
    AtSteps(data, st.pos);
    DecodeMarks(data[st.pos]);
    TablesInverse(0, data[st.pos]);
  }

  /** The tolerant scan mirrors the strict scan of the stripped input. */
  lemma {:induction false} ScanMirrors(illegalPads: bool, data: seq<Byte>, st: Scan)
    requires OnText(data, st) && At(data, st.pos) <= |Strip(data)|
    ensures var w := ScanFrom(White, illegalPads, data, st);
            OnText(data, w)
            && ScanFrom(Strict, illegalPads, Strip(data), Image(data, st)) == Image(data, w)
            && (|w.digits| < 4 ==> w.pos == |data| || !IsSpace(data[w.pos]))
    decreases |data| - st.pos
  {
    hide At, Strip, Next, ScanFrom, IsSpace;
    ScanStep(White, illegalPads, data, st);
    AtSteps(data, st.pos);
    if |st.digits| >= 4 || st.pos == |data| {
    } else {
      NextMirrors(illegalPads, data, st);
      var w := Next(White, illegalPads, data, st);
      AtSteps(data, w.pos);
      if w.pos != st.pos { ScanMirrors(illegalPads, data, w); }
    }
    ScanStep(Strict, illegalPads, Strip(data), Image(data, st));
  }

  lemma QuantumMirrors(illegalPads: bool, data: seq<Byte>, pos: nat)
    requires pos <= |data| && At(data, pos) <= |Strip(data)|
    ensures var w := NextQuantum(White, illegalPads, data, pos);
            var s := NextQuantum(Strict, illegalPads, Strip(data), At(data, pos));
            s == w.(pos := At(data, w.pos))
            && (|w.digits| == 4 ==> !IsSpace(data[w.pos - 1]))
            && (|w.digits| < 4 ==> (w.pos == |data| <==> s.pos == |Strip(data)|))
            && (|w.digits| < 4 ==> w.pos == |data| || !IsSpace(data[w.pos]))
  {
    hide At, Strip, ScanFrom, IsSpace;
    var st := Scan(pos, [], 0, 0);
    AtSteps(data, 0);
    ScanMirrors(illegalPads, data, st);
    var w := ScanFrom(White, illegalPads, data, st);
    AtSteps(data, Finish(w).pos);
  }

  /** The rest of the input, from pos on, is whole quanta of alphabet characters followed by whitespace. */
  ghost predicate DanglingFrom(data: seq<Byte>, pos: nat)
    requires pos <= |data|
  {
    var s, p := Strip(data), At(data, pos);
    && pos < |data| && IsSpace(data[|data| - 1])
    && p <= |s| && (|s| - p) % 4 == 0 && forall i :: p <= i < |s| ==> IsBase64Char(s[i])
  }

  /** Unpadded text in whole quanta that ends in whitespace. */
  ghost predicate Dangling(data: seq<Byte>) {
    && data != [] && IsSpace(data[|data| - 1])
    && |Strip(data)| % 4 == 0 && forall ch :: ch in Strip(data) ==> IsBase64Char(ch)
  }

  ghost predicate Mirrors(f: Flags, data: seq<Byte>, pos: nat)
    requires pos <= |data| && At(data, pos) <= |Strip(data)|
  {
    var w := DecodeFrom(f.(parse := White), data, pos);
    var s := DecodeFrom(f.(parse := Strict), Strip(data), At(data, pos));
    && w.bytes == s.bytes && At(data, w.used) == s.used && (w.used == |data| || !IsSpace(data[w.used]))
    && (w.success == s.success <==> !(f.pad == PadYes && DanglingFrom(data, pos)))
  }

  lemma {:induction false} DecodeMirrors(f: Flags, data: seq<Byte>, pos: nat)
    requires pos <= |data| && At(data, pos) <= |Strip(data)|
    ensures Mirrors(f, data, pos)
    decreases |data| - pos
  {
    hide At, Strip, DecodeFrom, NextQuantum, QuantumBytes, Unused, IsSpace, DanglingFrom;
    DecodeStep(f.(parse := White), data, pos);
    DecodeStep(f.(parse := Strict), Strip(data), At(data, pos));
    AtSteps(data, pos);
    if pos < |data| {
      var w := NextQuantum(White, f.pad == PadNo, data, pos);
      AtSteps(data, w.pos);
      QuantumMirrors(f.pad == PadNo, data, pos);
      if |w.digits| == 4 {
        DecodeMirrors(f, data, w.pos);
        if f.pad == PadYes { DanglingStep(data, pos); }
      } else if At(data, pos) == |Strip(data)| {
        OnlySpaces(f.pad == PadNo, data, pos);
        NoBytes();
      } else {
        if f.pad == PadYes { NotDangling(data, pos); }
      }
    } else {
      EndNotDangling(data);
    }
  }

  lemma EndNotDangling(data: seq<Byte>)
    ensures !DanglingFrom(data, |data|)
  {
  }

  /** A full quantum takes four alphabet characters of the stripped input. */
  lemma DanglingStep(data: seq<Byte>, pos: nat)
    requires pos < |data| && At(data, pos) <= |Strip(data)|
    requires |NextQuantum(White, false, data, pos).digits| == 4
    ensures DanglingFrom(data, pos) <==> DanglingFrom(data, NextQuantum(White, false, data, pos).pos)
  {
    hide At, Strip, NextQuantum, IsSpace, Base64Table, IsBase64Char;
    QuantumMirrors(false, data, pos);
    var w := NextQuantum(White, false, data, pos);
    var s, p := Strip(data), At(data, pos);
    StrictQuantum(s, p);
    var text := s[p..At(data, w.pos)];
    assert text == Text(w.digits) + Pads(0) == Text(w.digits);
    forall i | p <= i < p + 4 ensures IsBase64Char(s[i]) {
      assert s[i] == text[i - p] == Base64Table(w.digits[i - p]);
      TableInAlphabet(w.digits[i - p]);
    }
  }

  lemma TableInAlphabet(c: Sextet)
    ensures IsBase64Char(Base64Table(c))
  {
  }

  /** Four alphabet characters make a full quantum, so a partial one before the end is not dangling. */
  lemma NotDangling(data: seq<Byte>, pos: nat)
    requires pos < |data| && At(data, pos) < |Strip(data)|
    requires |NextQuantum(White, false, data, pos).digits| < 4
    ensures !DanglingFrom(data, pos)
  {
    hide At, Strip, NextQuantum, IsSpace, Base64Table, IsBase64Char;
    QuantumMirrors(false, data, pos);
    var s, p := Strip(data), At(data, pos);
    if DanglingFrom(data, pos) {
      FullQuantum(s, p);
    }
  }

  lemma FullQuantum(s: seq<Byte>, p: nat)
    requires p + 4 <= |s| && forall i :: p <= i < p + 4 ==> IsBase64Char(s[i])
    ensures |NextQuantum(Strict, false, s, p).digits| == 4
  {
    hide NextQuantum, IsBase64Char, Base64Table, DecodeTable;
    forall i | p <= i < p + 4 ensures DecodeTable(s[i]) < 64 && Base64Table(DecodeTable(s[i])) == s[i] {
      TablesInverse(0, s[i]);
    }
    var ds: seq<Sextet> := [DecodeTable(s[p]), DecodeTable(s[p + 1]), DecodeTable(s[p + 2]), DecodeTable(s[p + 3])];
    assert s[p..p + 4] == Text(ds) + Pads(0);
    QuantumFromText(s, p, ds);
  }

  /** With only whitespace left, the tolerant decoder still takes one empty quantum. */
  lemma OnlySpaces(illegalPads: bool, data: seq<Byte>, pos: nat)
    requires pos < |data| && At(data, pos) == |Strip(data)|
    ensures NextQuantum(White, illegalPads, data, pos) == Quantum([], false, |data|)
    ensures DanglingFrom(data, pos)
  {
    hide At, Strip, ScanFrom, IsSpace;
    QuantumMirrors(illegalPads, data, pos);
    ScanStep(Strict, illegalPads, Strip(data), Scan(|Strip(data)|, [], 0, 0));
    AtMonotone(data, pos, |data| - 1);
    AtSteps(data, |data| - 1);
  }

  lemma {:induction false} AtMonotone(data: seq<Byte>, i: nat, j: nat)
    requires i <= j <= |data|
    ensures At(data, i) <= At(data, j)
  {
    assert data[..j][..i] == data[..i];
    StripSplit(data[..j], i);
  }

  /** Whitespace-tolerant decoding is strict-character decoding of the stripped input: always the same bytes,
  the same position, past any whitespace there, and the same verdict except for required padding on dangling
  input. */
  lemma WhiteIsStrictOnStripped(f: Flags, data: seq<Byte>)
    ensures var w, s := Decode(f.(parse := White), data), Decode(f.(parse := Strict), Strip(data));
            w.bytes == s.bytes && |Strip(data[..w.used])| == s.used && (w.used == |data| || !IsSpace(data[w.used]))
            && (w.success == s.success <==> !(f.pad == PadYes && Dangling(data)))
  {
    hide Strip, DecodeFrom, IsSpace;
    AtSteps(data, 0);
    DecodeMirrors(f, data, 0);
    DanglingAgrees(data);
  }

  lemma DanglingAgrees(data: seq<Byte>)
    ensures DanglingFrom(data, 0) <==> Dangling(data)
  {
    hide Strip, IsSpace, IsBase64Char;
    AtSteps(data, 0);
  }

  const ABC_TEXT: seq<Byte> := [81, 85, 74, 68]
  const ABC_LINE: seq<Byte> := [81, 85, 74, 68, 32]

  /** "QUJD " needs no padding, and is refused by the tolerant decoder when padding is required. */
  lemma DanglingExample()
    ensures Dangling(ABC_LINE) && Decode(DO_STRICT, Strip(ABC_LINE)).success
    ensures !Decode(Flags(White, PadYes, TermBuffer), ABC_LINE).success
  {
    hide Strip, Decode, Encode, IsSpace, IsBase64Char, Dangling;
    AbcLine();
    WhiteIsStrictOnStripped(DO_STRICT, ABC_LINE);
    AbcEncodes();
    DecodeEncode([65, 66, 67]);
  }

  lemma AbcEncodes()
    ensures Encode([65, 66, 67]) == ABC_TEXT
  {
  }

  lemma AbcLine()
    ensures Strip(ABC_LINE) == ABC_TEXT && Dangling(ABC_LINE)
  {
    StripNone(ABC_TEXT);
    assert ABC_LINE[..4] == ABC_TEXT;
  }

  lemma {:induction false} StripNone(data: seq<Byte>)
    requires forall i :: 0 <= i < |data| ==> !IsSpace(data[i])
    ensures Strip(data) == data
  {
    hide IsSpace;
    if data == [] {
    } else {
      StripNone(data[..|data| - 1]);
    }
  }

  // ----- everything outside the alphabet

  /** The alphabet characters of the input, as digits. */
  function DigitsOf(data: seq<Byte>): seq<Sextet> {
    if data == [] then []
    else if IsBase64Char(data[0]) then
      TablesInverse(0, data[0]);
      [DecodeTable(data[0])] + DigitsOf(data[1..])
    else DigitsOf(data[1..])
  }

  /** The whole bytes of a digit string, and its last partial quantum. */
  function Unpack(ds: seq<Sextet>): seq<Byte> {
    if |ds| < 4 then QuantumBytes(ds) else QuantumBytes(ds[..4]) + Unpack(ds[4..])
  }

  function LastGroup(ds: seq<Sextet>): (r: seq<Sextet>)
    ensures |r| < 4
  {
    if |ds| < 4 then ds else LastGroup(ds[4..])
  }

  /** The digits of "QQ". */
  lemma OneByteUnpacked()
    ensures Unpack([16, 16]) == [65] && LastGroup([16, 16]) == [16, 16] && Unused([16, 16]) == 0
  {
  }

  /** A parse-any scan keeps every digit: taken ones and those still ahead. */
  lemma {:induction false} AnyKeepsDigits(illegalPads: bool, data: seq<Byte>, st: Scan)
    requires st.pos <= |data| && |st.digits| <= 4
    ensures var r := ScanFrom(Any, illegalPads, data, st);
            r.digits + DigitsOf(data[r.pos..]) == st.digits + DigitsOf(data[st.pos..])
            && |r.digits| <= 4 && (|r.digits| < 4 ==> r.pos == |data|)
    decreases |data| - st.pos
  {
    hide ScanFrom, DigitsOf, DecodeTable, IsBase64Char;
    ScanStep(Any, illegalPads, data, st);
    if |st.digits| >= 4 || st.pos == |data| {
    } else {
      DigitsStep(data, st.pos);
      DecodeMarks(data[st.pos]);
      TablesInverse(0, data[st.pos]);
      AnyKeepsDigits(illegalPads, data, Next(Any, illegalPads, data, st));
    }
  }

  lemma DigitsStep(data: seq<Byte>, pos: nat)
    requires pos < |data|
    ensures DigitsOf(data[pos + 1..]) ==
              if IsBase64Char(data[pos]) then DigitsOf(data[pos..])[1..] else DigitsOf(data[pos..])
    ensures IsBase64Char(data[pos]) ==>
              |DigitsOf(data[pos..])| > 0 && DigitsOf(data[pos..])[0] == DecodeTable(data[pos])
  {
    hide IsBase64Char, DecodeTable;
    assert data[pos..][1..] == data[pos + 1..];
  }

  lemma {:induction false} AnyUnpacks(f: Flags, data: seq<Byte>, pos: nat)
    requires f.parse == Any && pos <= |data|
    ensures var r, ds := DecodeFrom(f, data, pos), DigitsOf(data[pos..]);
            r.bytes == Unpack(ds)
            && (f.pad != PadYes && f.term != TermBuffer ==>
                  (r.success <==> f.term == TermAny || Unused(LastGroup(ds)) == 0))
    decreases |data| - pos
  {
    hide DecodeFrom, ScanFrom, DigitsOf, QuantumBytes, Unused;
    DecodeStep(f, data, pos);
    assert DigitsOf([]) == [] by { NoDigits(); }
    if pos == |data| {
      assert data[pos..] == [];
      NoBytes();
    } else {
      var st := Scan(pos, [], 0, 0);
      AnyKeepsDigits(f.pad == PadNo, data, st);
      var r := ScanFrom(Any, f.pad == PadNo, data, st);
      var ds := DigitsOf(data[pos..]);
      assert r.digits + DigitsOf(data[r.pos..]) == ds;
      if |r.digits| == 4 {
        AnyUnpacks(f, data, r.pos);
        assert ds[..4] == r.digits && ds[4..] == DigitsOf(data[r.pos..]);
      } else {
        assert data[r.pos..] == [] && ds == r.digits;
      }
    }
  }

  lemma NoDigits()
    ensures DigitsOf([]) == []
  {
  }

  lemma NoBytes()
    ensures QuantumBytes([]) == [] && Unused([]) == 0
  {
  }

  /** In parse-any mode the bytes depend only on the alphabet characters; so does the verdict when
  padding is not required and the input may end early. */
  lemma AnyDependsOnAlphabetOnly(f: Flags, data: seq<Byte>, other: seq<Byte>)
    requires f.parse == Any && DigitsOf(data) == DigitsOf(other)
    ensures Decode(f, data).bytes == Decode(f, other).bytes == Unpack(DigitsOf(data))
    ensures f.pad != PadYes && f.term != TermBuffer ==> Decode(f, data).success == Decode(f, other).success
  {
    hide DecodeFrom, DigitsOf, Unpack, Unused, LastGroup;
    assert data[0..] == data && other[0..] == other;
    AnyUnpacks(f, data, 0);
    AnyUnpacks(f, other, 0);
  }

  /** Any interleaving of an encoding with characters outside the alphabet still gives the bytes. */
  lemma AnyRecoversNoisyEncoding(f: Flags, data: seq<Byte>, d: seq<Byte>)
    requires f.parse == Any && DigitsOf(data) == DigitsOf(Encode(d))
    ensures Decode(f, data).bytes == d
    ensures f.pad != PadYes && f.term != TermBuffer ==> Decode(f, data).success
  {
    hide DecodeFrom, DigitsOf, Unpack, Unused, LastGroup, Encode;
    assert data[0..] == data;
    AnyUnpacks(f, data, 0);
    UnpackEncode(d);
  }

  /** The lax options decode every encoding to its bytes. */
  lemma LaxDecodesEncodings(d: seq<Byte>)
    ensures Decode(DO_LAX, Encode(d)).success && Decode(DO_LAX, Encode(d)).bytes == d
  {
    hide Decode, Encode, DigitsOf;
    AnyRecoversNoisyEncoding(DO_LAX, Encode(d), d);
  }

  lemma {:induction false} UnpackEncode(d: seq<Byte>)
    ensures Unpack(DigitsOf(Encode(d))) == d && Unused(LastGroup(DigitsOf(Encode(d)))) == 0
    decreases |d|
  {
    hide DigitsOf, DigitsOfBytes, EncodeQuantum, QuantumBytes, Unused, Text;
    if d == [] {
      NoDigits();
      NoBytes();
    } else {
      var head, rest := if |d| <= 3 then d else d[..3], if |d| <= 3 then [] else d[3..];
      assert head + rest == d;
      EncodeCons(head, rest);
      QuantumOfBytes(head);
      var ds := DigitsOfBytes(head);
      DigitsOfText(ds, 4 - |ds|, Encode(rest));
      var all := DigitsOf(Encode(d));
      if |ds| == 4 {
        UnpackEncode(rest);
        assert all[..4] == ds && all[4..] == DigitsOf(Encode(rest));
      } else {
        NoDigits();
        assert all == ds;
      }
    }
  }

  lemma {:induction false} DigitsOfText(ds: seq<Sextet>, n: nat, rest: seq<Byte>)
    ensures DigitsOf(Text(ds) + Pads(n) + rest) == ds + DigitsOf(rest)
    decreases |ds| + n
  {
    hide Base64Table, DecodeTable, IsBase64Char;
    var text := Text(ds) + Pads(n) + rest;
    if ds != [] {
      TablesInverse(ds[0], text[0]);
      TableInAlphabet(ds[0]);
      assert text[1..] == Text(ds[1..]) + Pads(n) + rest;
      DigitsOfText(ds[1..], n, rest);
    } else if n > 0 {
      TablesInverse(0, text[0]);
      PadIsMarked();
      assert text[1..] == Text(ds) + Pads(n - 1) + rest;
      DigitsOfText(ds, n - 1, rest);
    } else {
      assert text == rest;
    }
  }

  lemma PadIsMarked()
    ensures !IsBase64Char(PAD)
  {
  }
}
