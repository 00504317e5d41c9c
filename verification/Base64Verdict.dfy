/** The verdict of the parse-any mode under every padding and termination option, and how much of the input it
uses, from the text alone: the digits of the last group, and the padding characters after the last alphabet
character. */
module Base64Verdict {
  import opened BitSeq
  import opened Base64
  import opened Base64Decode
  import opened Base64Modes

  /** The number of padding characters after the last alphabet character. */
  function PadsAfter(data: seq<Byte>): nat {
    if data == [] then 0
    else
      var k := |data| - 1;
      if IsBase64Char(data[k]) then 0 else PadsAfter(data[..k]) + if data[k] == PAD then 1 else 0
  }

  /** The text ends with the last digit of a full group, or is empty. */
  predicate Complete(data: seq<Byte>) {
    data == [] || (|LastGroup(DigitsOf(data))| == 0 && IsBase64Char(data[|data| - 1]))
  }

  /** Padding can fill the last group. */
  predicate Fills(n: nat, pads: nat) {
    n >= 2 && n + pads >= 4
  }

  /** What the decoder accepts in parse-any mode. */
  predicate Acceptable(f: Flags, data: seq<Byte>) {
    var last, pads := LastGroup(DigitsOf(data)), PadsAfter(data);
    Complete(data)
    || (&& (f.term == TermAny || Unused(last) == 0)
        && (f.pad == PadYes ==> Fills(|last|, pads))
        && (f.term == TermBuffer && f.pad != PadNo && |last| >= 2 && pads > 0 ==> Fills(|last|, pads)))
  }

  lemma PadsSnoc(data: seq<Byte>, i: nat, j: nat)
    requires i <= j < |data|
    ensures PadsAfter(data[i..j + 1]) ==
              if IsBase64Char(data[j]) then 0 else PadsAfter(data[i..j]) + if data[j] == PAD then 1 else 0
  {
    hide IsBase64Char;
    var text := data[i..j + 1];
    assert text[..j - i] == data[i..j] && text[j - i] == data[j];
  }

  /** Only the text after an alphabet character matters. */
  lemma {:induction false} PadsCut(data: seq<Byte>, i: nat, j: nat, k: nat)
    requires i < j <= k <= |data| && IsBase64Char(data[j - 1])
    ensures PadsAfter(data[i..k]) == PadsAfter(data[j..k])
  {
    hide IsBase64Char, PadsAfter;
    PadsSnoc(data, i, k - 1);
    if j == k {
      assert data[j..k] == [];
      NoPads();
    } else {
      PadsSnoc(data, j, k - 1);
      PadsCut(data, i, j, k - 1);
    }
  }

  lemma NoPads()
    ensures PadsAfter([]) == 0
  {
  }

  /** Position u holds the first padding character after the last alphabet character of data[pos..end]. */
  ghost predicate FirstPad(data: seq<Byte>, pos: nat, u: nat, end: nat) {
    && pos <= u < end <= |data| && data[u] == PAD && PadsAfter(data[pos..u]) == 0
    && forall i :: u <= i < end ==> !IsBase64Char(data[i])
  }

  // ----- the padding a scan counts

  /** Padding counts from the second digit on, up to four characters together. */
  function Counted(illegalPads: bool, n: nat, pads: nat): int {
    if illegalPads || n < 2 then 0 else if n + pads < 4 then pads else 4 - n
  }

  ghost predicate Counting(illegalPads: bool, data: seq<Byte>, pos: nat, st: Scan) {
    && pos <= st.pos && Scanning(data, st)
    && st.pads == Counted(illegalPads, |st.digits|, PadsAfter(data[pos..st.pos]))
    && (|st.digits| == 4 ==> st.pos > pos && IsBase64Char(data[st.pos - 1]))
    && (st.pads > 0 ==> FirstPad(data, pos, st.padStart, st.pos))
  }

  lemma CountingStep(illegalPads: bool, data: seq<Byte>, pos: nat, st: Scan)
    requires Counting(illegalPads, data, pos, st) && st.pos < |data| && |st.digits| < 4
    ensures Counting(illegalPads, data, pos, Next(Any, illegalPads, data, st))
    ensures Next(Any, illegalPads, data, st).pos == st.pos + 1
  {
    hide PadsAfter, IsBase64Char, DecodeTable;
    PadsSnoc(data, pos, st.pos);
    TablesInverse(0, data[st.pos]);
    DecodeMarks(data[st.pos]);
  }

  lemma {:induction false} ScanCounts(illegalPads: bool, data: seq<Byte>, pos: nat, st: Scan)
    requires Counting(illegalPads, data, pos, st)
    ensures Counting(illegalPads, data, pos, ScanFrom(Any, illegalPads, data, st))
    decreases |data| - st.pos
  {
    hide PadsAfter, IsBase64Char, Next, ScanFrom;
    ScanStep(Any, illegalPads, data, st);
    if |st.digits| >= 4 || st.pos == |data| {
    } else {
      CountingStep(illegalPads, data, pos, st);
      ScanCounts(illegalPads, data, pos, Next(Any, illegalPads, data, st));
    }
  }

  // ----- the verdict

  /** A full group at the front of the text does not matter. */
  lemma AcceptableCut(f: Flags, data: seq<Byte>, pos: nat, next: nat)
    requires pos < next <= |data| && IsBase64Char(data[next - 1])
    requires var ds := DigitsOf(data[pos..]); |ds| >= 4 && ds[4..] == DigitsOf(data[next..])
    ensures Acceptable(f, data[pos..]) <==> Acceptable(f, data[next..])
  {
    hide PadsAfter, IsBase64Char, DigitsOf, Unused;
    PadsCut(data, pos, next, |data|);
    assert data[pos..|data|] == data[pos..] && data[next..|data|] == data[next..];
    NoDigits();
  }

  /** The last, partial group. */
  lemma TailVerdict(f: Flags, data: seq<Byte>, pos: nat, st: Scan)
    requires pos < |data| && st.pos == |data| && |st.digits| < 4
    requires Counting(f.pad == PadNo, data, pos, st) && DigitsOf(data[pos..]) == st.digits
    ensures !Complete(data[pos..]) ==> (AcceptsTail(f, Finish(st), |data|) <==> Acceptable(f, data[pos..]))
  {
    hide PadsAfter, IsBase64Char, DigitsOf, Unused;
    assert data[pos..|data|] == data[pos..];
  }

  /** A text without digits does not end with one. */
  lemma {:induction false} LastIsDigit(data: seq<Byte>)
    requires data != [] && IsBase64Char(data[|data| - 1])
    ensures DigitsOf(data) != []
    decreases |data|
  {
    hide IsBase64Char;
    if |data| <= 1 {
    } else {
      LastIsDigit(data[1..]);
    }
  }

  lemma {:induction false} AnyVerdictFrom(f: Flags, data: seq<Byte>, pos: nat)
    requires f.parse == Any && pos <= |data|
    ensures DecodeFrom(f, data, pos).success <==> Acceptable(f, data[pos..])
    decreases |data| - pos
  {
    hide DecodeFrom, ScanFrom, DigitsOf, QuantumBytes, Unused, PadsAfter, IsBase64Char, Acceptable, AcceptsTail;
    DecodeStep(f, data, pos);
    if pos == |data| {
      EmptyAcceptable(f, data);
    } else {
      var illegalPads, st := f.pad == PadNo, Scan(pos, [], 0, 0);
      AnyKeepsDigits(illegalPads, data, st);
      ScanCounts(illegalPads, data, pos, st);
      var r, ds := ScanFrom(Any, illegalPads, data, st), DigitsOf(data[pos..]);
      assert r.digits + DigitsOf(data[r.pos..]) == ds;
      if |r.digits| == 4 {
        assert ds[4..] == DigitsOf(data[r.pos..]);
        AcceptableCut(f, data, pos, r.pos);
        AnyVerdictFrom(f, data, r.pos);
      } else {
        assert data[r.pos..] == [];
        NoDigits();
        assert ds == r.digits;
        if Complete(data[pos..]) { LastIsDigit(data[pos..]); }
        TailVerdict(f, data, pos, r);
      }
    }
  }

  lemma EmptyAcceptable(f: Flags, data: seq<Byte>)
    ensures Acceptable(f, data[|data|..])
  {
  }

  /** The exact verdict of parse-any decoding, whatever the other options are. */
  lemma AnyVerdict(f: Flags, data: seq<Byte>)
    requires f.parse == Any
    ensures Decode(f, data).success <==> Acceptable(f, data)
  {
    hide DecodeFrom, Acceptable;
    assert data[0..] == data;
    AnyVerdictFrom(f, data, 0);
  }

  // ----- the position

  /** Padding that counts, but does not fill the last group. */
  predicate Incomplete(f: Flags, data: seq<Byte>) {
    var n, pads := |LastGroup(DigitsOf(data))|, PadsAfter(data);
    f.pad != PadNo && n >= 2 && pads > 0 && n + pads < 4
  }

  lemma IncompleteCut(f: Flags, data: seq<Byte>, pos: nat, next: nat)
    requires pos < next <= |data| && IsBase64Char(data[next - 1])
    requires var ds := DigitsOf(data[pos..]); |ds| >= 4 && ds[4..] == DigitsOf(data[next..])
    ensures Incomplete(f, data[pos..]) <==> Incomplete(f, data[next..])
    ensures forall u :: FirstPad(data, next, u, |data|) ==> FirstPad(data, pos, u, |data|)
  {
    hide PadsAfter, IsBase64Char, DigitsOf;
    PadsCut(data, pos, next, |data|);
    assert data[pos..|data|] == data[pos..] && data[next..|data|] == data[next..];
    forall u | FirstPad(data, next, u, |data|) ensures FirstPad(data, pos, u, |data|) {
      PadsCut(data, pos, next, u);
    }
  }

  lemma TailUsed(f: Flags, data: seq<Byte>, pos: nat, st: Scan)
    requires pos < |data| && st.pos == |data| && |st.digits| < 4
    requires Counting(f.pad == PadNo, data, pos, st) && DigitsOf(data[pos..]) == st.digits
    ensures var u := Finish(st).pos;
            if Incomplete(f, data[pos..]) then FirstPad(data, pos, u, |data|) else u == |data|
  {
    hide PadsAfter, IsBase64Char, DigitsOf, FirstPad;
    assert data[pos..|data|] == data[pos..];
  }

  lemma {:induction false} AnyUsedFrom(f: Flags, data: seq<Byte>, pos: nat)
    requires f.parse == Any && pos <= |data|
    ensures var u := DecodeFrom(f, data, pos).used;
            if Incomplete(f, data[pos..]) then FirstPad(data, pos, u, |data|) else u == |data|
    decreases |data| - pos
  {
    hide DecodeFrom, ScanFrom, DigitsOf, QuantumBytes, PadsAfter, IsBase64Char, Incomplete, FirstPad, AcceptsTail;
    DecodeStep(f, data, pos);
    if pos == |data| {
      EmptyComplete(f, data);
    } else {
      var illegalPads, st := f.pad == PadNo, Scan(pos, [], 0, 0);
      AnyKeepsDigits(illegalPads, data, st);
      ScanCounts(illegalPads, data, pos, st);
      var r, ds := ScanFrom(Any, illegalPads, data, st), DigitsOf(data[pos..]);
      assert r.digits + DigitsOf(data[r.pos..]) == ds;
      if |r.digits| == 4 {
        assert ds[4..] == DigitsOf(data[r.pos..]);
        IncompleteCut(f, data, pos, r.pos);
        AnyUsedFrom(f, data, r.pos);
      } else {
        assert data[r.pos..] == [];
        NoDigits();
        assert ds == r.digits;
        TailUsed(f, data, pos, r);
      }
    }
  }

  lemma EmptyComplete(f: Flags, data: seq<Byte>)
    ensures !Incomplete(f, data[|data|..])
  {
  }

  /** Parse-any decoding uses all the input, except that it stops at the first of some padding characters that
  count and do not fill the last group. */
  lemma AnyUsed(f: Flags, data: seq<Byte>)
    requires f.parse == Any
    ensures var u := Decode(f, data).used;
            if Incomplete(f, data) then FirstPad(data, 0, u, |data|) else u == |data|
  {
    hide DecodeFrom, Incomplete, FirstPad;
    assert data[0..] == data;
    AnyUsedFrom(f, data, 0);
  }

  // ----- an input

  const TRAILING_NOISE: seq<Byte> := [81, 81, 61, 33]

  /** "QQ=!" ends in one padding character where two are needed: its byte is decoded either way, and the
  text is refused when padding is required or the end of the buffer must be reached. */
  lemma PartialPaddingExample(pad: Padding, term: Term)
    ensures var r := Decode(Flags(Any, pad, term), TRAILING_NOISE);
            r.bytes == [65] && (r.success <==> pad != PadYes && (term == TermBuffer ==> pad == PadNo))
  {
    hide Decode, DecodeFrom, PadsAfter, DigitsOf, Complete;
    var f, data := Flags(Any, pad, term), TRAILING_NOISE;
    NoisePads();
    NoiseDigits();
    OneByteUnpacked();
    AnyVerdict(f, data);
    AnyDependsOnAlphabetOnly(f, data, data);
  }

  lemma NoisePads()
    ensures PadsAfter(TRAILING_NOISE) == 1 && !Complete(TRAILING_NOISE)
  {
    assert TRAILING_NOISE[..3] == [81, 81, 61] && TRAILING_NOISE[..3][..2] == [81, 81];
    assert PadsAfter([81, 81]) == 0;
  }

  lemma NoiseDigits()
    ensures DigitsOf(TRAILING_NOISE) == [16, 16]
  {
    assert TRAILING_NOISE[1..] == [81, 61, 33] && TRAILING_NOISE[1..][1..] == [61, 33];
    assert [61 as Byte, 33][1..] == [33 as Byte];
    assert DigitsOf([33 as Byte]) == [];
  }
}
