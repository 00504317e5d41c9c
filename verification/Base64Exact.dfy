/** The exact result of strict-character decoding under every padding and termination option, from the text
alone: the longest run of alphabet characters, and the padding characters right after it. */
module Base64Exact {
  import opened BitSeq
  import opened Base64
  import opened Base64Decode
  import opened Base64Strict
  import opened Base64Modes

  /** The number of alphabet characters from position i on, up to the first other character. */
  function AlphabetRun(data: seq<Byte>, i: nat): (n: nat)
    requires i <= |data|
    ensures i + n <= |data|
    decreases |data| - i
  {
    if i < |data| && IsBase64Char(data[i]) then 1 + AlphabetRun(data, i + 1) else 0
  }

  /** The same for padding characters. */
  function PadRun(data: seq<Byte>, i: nat): (n: nat)
    requires i <= |data|
    ensures i + n <= |data|
    decreases |data| - i
  {
    if i < |data| && data[i] == PAD then 1 + PadRun(data, i + 1) else 0
  }

  /** n digits of a group and the padding characters that follow them fill the group. */
  predicate Fills(f: Flags, n: nat, pads: nat) {
    f.pad != PadNo && 2 <= n < 4 && n + pads >= 4
  }

  /** What strict-character decoding from position pos on gives. The digits are those of the longest run of
  alphabet characters. Padding is used only if it fills the last group; what follows is not used. */
  function Exact(f: Flags, data: seq<Byte>, pos: nat): Decoded
    requires pos <= |data|
  {
    var run := AlphabetRun(data, pos);
    var ds, end := DigitsOf(data[pos..pos + run]), pos + run;
    var last := LastGroup(ds);
    var filled := Fills(f, |last|, PadRun(data, end));
    var used := if filled then end + 4 - |last| else end;
    Decoded(
      || (|last| == 0 && end == |data|)
      || (&& (f.term == TermAny || Unused(last) == 0)
          && (f.pad == PadYes ==> filled)
          && (f.term == TermBuffer ==> used == |data|)),
      Unpack(ds), used)
  }

  // ----- one quantum

  /** The scan takes m digits, as long as there are that many and there is room. */
  lemma {:induction false} TakesRun(illegalPads: bool, data: seq<Byte>, st: Scan, m: nat)
    requires st.pos + m <= |data| && |st.digits| + m <= 4 && st.pads == 0
    requires forall i :: st.pos <= i < st.pos + m ==> IsBase64Char(data[i])
    ensures ScanFrom(Strict, illegalPads, data, st) ==
              ScanFrom(Strict, illegalPads, data,
                       Scan(st.pos + m, st.digits + DigitsOf(data[st.pos..st.pos + m]), 0, st.padStart))
    decreases m
  {
    hide ScanFrom, DecodeTable, IsBase64Char, DigitsOf;
    var text := data[st.pos..st.pos + m];
    if m == 0 {
      NoDigits();
      assert text == [];
      assert st.digits + [] == st.digits;
    } else {
      ScanStep(Strict, illegalPads, data, st);
      TablesInverse(0, data[st.pos]);
      var next := Next(Strict, illegalPads, data, st);
      TakesRun(illegalPads, data, next, m - 1);
      DigitsCons(text);
      assert text[1..] == data[st.pos + 1..st.pos + m];
      assert next.digits + DigitsOf(text[1..]) == st.digits + DigitsOf(text);
    }
  }

  lemma DigitsCons(text: seq<Byte>)
    requires text != [] && IsBase64Char(text[0])
    ensures DecodeTable(text[0]) < 64 && DigitsOf(text) == [DecodeTable(text[0])] + DigitsOf(text[1..])
  {
    hide IsBase64Char, DecodeTable;
    TablesInverse(0, text[0]);
  }

  /** After a partial group no alphabet character is taken; padding counts if it may, up to a full group. */
  lemma {:induction false} TakesPadding(illegalPads: bool, data: seq<Byte>, st: Scan)
    requires st.pos <= |data| && |st.digits| < 4 && |st.digits| + st.pads <= 4
    requires st.pads > 0 ==> !illegalPads && |st.digits| >= 2
    requires st.pads == 0 && st.pos < |data| ==> !IsBase64Char(data[st.pos])
    ensures var r, n := ScanFrom(Strict, illegalPads, data, st), |st.digits|;
            var pads := st.pads + PadRun(data, st.pos);
            && r.digits == st.digits
            && (if illegalPads || n < 2 then r.pads == st.pads == 0 && r.pos == st.pos
                else
                  && r.pads == (if n + pads < 4 then pads else 4 - n) && r.pos == st.pos + r.pads - st.pads
                  && (r.pads > 0 ==> r.padStart == if st.pads > 0 then st.padStart else st.pos))
    decreases |data| - st.pos
  {
    hide ScanFrom, DecodeTable, IsBase64Char;
    ScanStep(Strict, illegalPads, data, st);
    if st.pos == |data| {
    } else {
      TablesInverse(0, data[st.pos]);
      var next := Next(Strict, illegalPads, data, st);
      if next.pos != st.pos { TakesPadding(illegalPads, data, next); }
    }
  }

  lemma {:induction false} RunIs(data: seq<Byte>, i: nat)
    requires i <= |data|
    ensures var n := AlphabetRun(data, i);
            && (forall k :: i <= k < i + n ==> IsBase64Char(data[k]))
            && (i + n < |data| ==> !IsBase64Char(data[i + n]))
    decreases |data| - i
  {
    hide IsBase64Char;
    if i == |data| || !IsBase64Char(data[i]) {
    } else {
      RunIs(data, i + 1);
    }
  }

  lemma {:induction false} RunAfter(data: seq<Byte>, i: nat, m: nat)
    requires i <= |data| && m <= AlphabetRun(data, i)
    ensures AlphabetRun(data, i + m) == AlphabetRun(data, i) - m
    decreases m
  {
    hide IsBase64Char;
    if m == 0 {
    } else {
      RunAfter(data, i + 1, m - 1);
    }
  }

  lemma {:induction false} AllDigits(text: seq<Byte>)
    requires forall i :: 0 <= i < |text| ==> IsBase64Char(text[i])
    ensures |DigitsOf(text)| == |text|
  {
    hide IsBase64Char;
    if text == [] {
    } else {
      AllDigits(text[1..]);
    }
  }

  lemma {:induction false} DigitsJoin(a: seq<Byte>, b: seq<Byte>)
    requires forall i :: 0 <= i < |a| ==> IsBase64Char(a[i])
    ensures DigitsOf(a + b) == DigitsOf(a) + DigitsOf(b)
  {
    hide IsBase64Char, DecodeTable;
    if a == [] {
      assert a + b == b;
    } else {
      DigitsJoin(a[1..], b);
      DigitsCons(a);
      DigitsCons(a + b);
      assert (a + b)[1..] == a[1..] + b;
    }
  }

  /** A run of four or more gives a full quantum. */
  lemma FullQuantumFrom(illegalPads: bool, data: seq<Byte>, pos: nat)
    requires pos <= |data| && AlphabetRun(data, pos) >= 4
    ensures var q := NextQuantum(Strict, illegalPads, data, pos);
            q.pos == pos + 4 && q.digits == DigitsOf(data[pos..pos + 4]) && |q.digits| == 4
  {
    hide ScanFrom, DigitsOf, IsBase64Char, AlphabetRun;
    RunIs(data, pos);
    var st := Scan(pos, [], 0, 0);
    TakesRun(illegalPads, data, st, 4);
    AllDigits(data[pos..pos + 4]);
    var ds := DigitsOf(data[pos..pos + 4]);
    assert [] + ds == ds;
    ScanStep(Strict, illegalPads, data, Scan(pos + 4, ds, 0, 0));
  }

  /** A shorter run gives its digits, and a quantum that is padded if the padding fills it. */
  lemma PartialQuantumFrom(f: Flags, data: seq<Byte>, pos: nat)
    requires pos <= |data| && AlphabetRun(data, pos) < 4
    ensures var q, n := NextQuantum(Strict, f.pad == PadNo, data, pos), AlphabetRun(data, pos);
            && q.digits == DigitsOf(data[pos..pos + n]) && |q.digits| == n
            && q.padded == Fills(f, n, PadRun(data, pos + n))
            && q.pos == if q.padded then pos + 4 else pos + n
  {
    hide ScanFrom, DigitsOf, IsBase64Char, AlphabetRun, PadRun;
    RunIs(data, pos);
    var st, n := Scan(pos, [], 0, 0), AlphabetRun(data, pos);
    TakesRun(f.pad == PadNo, data, st, n);
    AllDigits(data[pos..pos + n]);
    var ds := DigitsOf(data[pos..pos + n]);
    assert [] + ds == ds;
    TakesPadding(f.pad == PadNo, data, Scan(pos + n, ds, 0, 0));
  }

  // ----- the whole text

  /** A full quantum in front adds its bytes and changes nothing else. */
  lemma ExactStep(f: Flags, data: seq<Byte>, pos: nat)
    requires pos <= |data| && AlphabetRun(data, pos) >= 4
    ensures |DigitsOf(data[pos..pos + 4])| == 4
    ensures Exact(f, data, pos) == Prepend(QuantumBytes(DigitsOf(data[pos..pos + 4])), Exact(f, data, pos + 4))
  {
    hide DigitsOf, IsBase64Char, AlphabetRun, PadRun, QuantumBytes, Unused;
    var n := AlphabetRun(data, pos);
    RunIs(data, pos);
    RunAfter(data, pos, 4);
    var head, rest := data[pos..pos + 4], data[pos + 4..pos + n];
    assert data[pos..pos + n] == head + rest;
    DigitsJoin(head, rest);
    AllDigits(head);
    var ds := DigitsOf(head) + DigitsOf(rest);
    assert ds[..4] == DigitsOf(head) && ds[4..] == DigitsOf(rest);
  }

  lemma {:induction false} StrictExactFrom(f: Flags, data: seq<Byte>, pos: nat)
    requires f.parse == Strict && pos <= |data|
    ensures DecodeFrom(f, data, pos) == Exact(f, data, pos)
    decreases |data| - pos
  {
    hide DecodeFrom, NextQuantum, DigitsOf, IsBase64Char, AlphabetRun, PadRun, QuantumBytes, Unused;
    DecodeStep(f, data, pos);
    var n := AlphabetRun(data, pos);
    if n >= 4 {
      hide Exact;
      FullQuantumFrom(f.pad == PadNo, data, pos);
      ExactStep(f, data, pos);
      StrictExactFrom(f, data, pos + 4);
    } else {
      PartialQuantumFrom(f, data, pos);
      if pos == |data| {
        assert data[pos..pos + n] == [];
        NoDigits();
        NoBytes();
      }
    }
  }

  /** Verdict, bytes and position of strict-character decoding, whatever the other options are. */
  lemma StrictExact(f: Flags, data: seq<Byte>)
    requires f.parse == Strict
    ensures Decode(f, data) == Exact(f, data, 0)
  {
    hide DecodeFrom, Exact;
    StrictExactFrom(f, data, 0);
  }

  /** The same for whitespace-tolerant decoding: it does what strict-character decoding does to the text without
  its whitespace, stops past any whitespace, and refuses dangling text when padding is required. */
  lemma WhiteExact(f: Flags, data: seq<Byte>)
    requires f.parse == White
    ensures var w, e := Decode(f, data), Exact(f, Strip(data), 0);
            && w.bytes == e.bytes
            && |Strip(data[..w.used])| == e.used && (w.used == |data| || !IsSpace(data[w.used]))
            && w.success == (e.success && !(f.pad == PadYes && Dangling(data)))
  {
    hide Decode, Strip, IsSpace;
    WhiteIsStrictOnStripped(f, data);
    StrictExact(f.(parse := Strict), Strip(data));
    if Dangling(data) { DanglingIsWhole(f, Strip(data)); }
  }

  /** Whole quanta without padding are accepted under every option. */
  lemma DanglingIsWhole(f: Flags, text: seq<Byte>)
    requires |text| % 4 == 0 && forall ch :: ch in text ==> IsBase64Char(ch)
    ensures Exact(f, text, 0).success
  {
    hide DigitsOf, AlphabetRun, IsBase64Char, PadRun, Unpack, Unused;
    var n := AlphabetRun(text, 0);
    RunIs(text, 0);
    assert n == |text|;
    assert text[0..0 + n] == text;
    AllDigits(text);
    LastGroupLength(DigitsOf(text));
  }

  lemma {:induction false} LastGroupLength(ds: seq<Sextet>)
    ensures |LastGroup(ds)| == |ds| % 4
  {
    if |ds| < 4 {
    } else {
      LastGroupLength(ds[4..]);
    }
  }

  // ----- padding that is not allowed

  /** Where padding is not allowed and the end must be reached, a text with a padding character is refused. */
  lemma PaddingRefused(f: Flags, data: seq<Byte>)
    requires f.parse != Any && f.pad == PadNo && f.term == TermBuffer && PAD in data
    ensures !Decode(f, data).success
  {
    hide Decode, Strip, IsSpace, Exact;
    if f.parse == Strict {
      StrictExact(f, data);
      StopsBeforePad(f, data);
    } else {
      WhiteExact(f, data);
      StripKeepsPad(data);
      StopsBeforePad(f, Strip(data));
    }
  }

  lemma StopsBeforePad(f: Flags, text: seq<Byte>)
    requires f.pad == PadNo && f.term == TermBuffer && PAD in text
    ensures !Exact(f, text, 0).success
  {
    hide DigitsOf, AlphabetRun, PadRun, Unpack, Unused;
    RunIs(text, 0);
    var i :| 0 <= i < |text| && text[i] == PAD;
    PadIsMarked();
    assert AlphabetRun(text, 0) <= i;
  }

  lemma {:induction false} StripKeepsPad(data: seq<Byte>)
    requires PAD in data
    ensures PAD in Strip(data)
  {
    var k := |data| - 1;
    if data[k] == PAD {
    } else {
      assert data == data[..k] + [data[k]];
      StripKeepsPad(data[..k]);
    }
  }

  const PADDED_TEXT: seq<Byte> := [81, 81, 61, 61]

  /** "QQ==" without padding allowed: one byte, two characters used, and refused at the end of the buffer. */
  lemma PaddingRefusedExample(term: Term)
    ensures Decode(Flags(Strict, PadNo, term), PADDED_TEXT) == Decoded(term != TermBuffer, [65], 2)
  {
    hide Decode, AlphabetRun, PadRun, DigitsOf, Unpack, LastGroup, Unused;
    StrictExact(Flags(Strict, PadNo, term), PADDED_TEXT);
    PaddedRun();
    PaddedDigits();
    OneByteUnpacked();
    assert PADDED_TEXT[0..0 + 2] == PADDED_TEXT[..2];
  }

  lemma PaddedRun()
    ensures AlphabetRun(PADDED_TEXT, 0) == 2
  {
    assert AlphabetRun(PADDED_TEXT, 2) == 0;
    assert AlphabetRun(PADDED_TEXT, 1) == 1;
  }

  lemma PaddedDigits()
    ensures DigitsOf(PADDED_TEXT[..2]) == [16, 16]
  {
    assert PADDED_TEXT[..2] == [81, 81] && PADDED_TEXT[..2][1..] == [81] && [81 as Byte][1..] == [];
    NoDigits();
  }
}
