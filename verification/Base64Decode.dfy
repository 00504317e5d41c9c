/** The Base64 decoder: a character scan that collects one quantum at a time, under parse, padding and
termination options. The functions describe a scan; the two methods at the end are the source's loops. */
module Base64Decode {
  import opened Words
  import opened BitSeq
  import opened Base64

  datatype Parse = Strict | White | Any
  datatype Padding = PadYes | PadAny | PadNo
  datatype Term = TermBuffer | TermChar | TermAny

  /** The decode options; the source packs them into one integer with a non-zero value for each field. */
  datatype Flags = Flags(parse: Parse, pad: Padding, term: Term)

  const DO_STRICT := Flags(Strict, PadYes, TermBuffer)
  const DO_LAX := Flags(Any, PadAny, TermChar)

  // ----- scanning one quantum

  /** A scan in progress: the next position, the alphabet indices taken, the padding characters
  counted since the last one, and where the first of those was. */
  datatype Scan = Scan(pos: nat, digits: seq<Sextet>, pads: nat, padStart: nat)

  datatype Action = Stop | Skip | CountPad | Take

  /** What the scan does with a character when it holds n digits and has counted p pads. */
  function OnChar(parse: Parse, illegalPads: bool, ch: Byte, n: nat, p: nat): Action {
    var lax := if parse == Any then Skip else Stop;
    var code := DecodeTable(ch);
    if code == ILLEGAL || (illegalPads && code == PADDING) then lax
    else if code == SPACE then if parse == Strict then Stop else Skip
    else if code == PADDING then if n < 2 || n + p >= 4 then lax else CountPad
    else if p > 0 && parse != Any then Stop
    else Take
  }

  ghost predicate Scanning(data: seq<Byte>, st: Scan) {
    && st.pos <= |data| && |st.digits| <= 4
    && (st.pads > 0 ==> st.padStart < st.pos && |st.digits| + st.pads <= 4)
  }

  /** The state after the character at st.pos; the same state when the scan stops there. */
  function Next(parse: Parse, illegalPads: bool, data: seq<Byte>, st: Scan): (r: Scan)
    requires st.pos < |data| && |st.digits| < 4
    ensures Scanning(data, st) ==> Scanning(data, r)
    ensures st.pos <= r.pos <= st.pos + 1 && |r.digits| <= |st.digits| + r.pos - st.pos
  {
    var ch := data[st.pos];
    match OnChar(parse, illegalPads, ch, |st.digits|, st.pads)
    case Stop => st
    case Skip => st.(pos := st.pos + 1)
    case CountPad =>
      st.(pos := st.pos + 1, pads := st.pads + 1, padStart := if st.pads == 0 then st.pos else st.padStart)
    case Take => Scan(st.pos + 1, st.digits + [DecodeTable(ch)], 0, st.padStart)
  }

  function ScanFrom(parse: Parse, illegalPads: bool, data: seq<Byte>, st: Scan): (r: Scan)
    requires st.pos <= |data|
    ensures Scanning(data, st) ==> Scanning(data, r)
    ensures st.pos <= r.pos <= |data| && |r.digits| <= |st.digits| + r.pos - st.pos
    decreases |data| - st.pos
  {
    if |st.digits| >= 4 || st.pos == |data| then st
    else
      var next := Next(parse, illegalPads, data, st);
      if next.pos == st.pos then st else ScanFrom(parse, illegalPads, data, next)
  }

  /** One quantum: its digits, whether digits and padding fill it, and the position after it. */
  datatype Quantum = Quantum(digits: seq<Sextet>, padded: bool, pos: nat)

  /** Padding that does not complete a quantum is given back. */
  function Finish(st: Scan): Quantum {
    var padded := |st.digits| + st.pads == 4;
    Quantum(st.digits, padded, if !padded && st.pads > 0 then st.padStart else st.pos)
  }

  function NextQuantum(parse: Parse, illegalPads: bool, data: seq<Byte>, pos: nat): (q: Quantum)
    requires pos <= |data|
    ensures |q.digits| <= 4 && q.pos <= |data|
    ensures |q.digits| == 4 ==> q.pos >= pos + 4
  {
    Finish(ScanFrom(parse, illegalPads, data, Scan(pos, [], 0, 0)))
  }

  // ----- decoding

  /** The whole bytes of up to four digits. */
  function QuantumBytes(ds: seq<Sextet>): seq<Byte>
    requires |ds| <= 4
  {
    if |ds| < 2 then []
    else if |ds| == 2 then [Byte0(ds[0], ds[1])]
    else if |ds| == 3 then [Byte0(ds[0], ds[1]), Byte1(ds[1], ds[2])]
    else [Byte0(ds[0], ds[1]), Byte1(ds[1], ds[2]), Byte2(ds[2], ds[3])]
  }

  /** The bits of the digits beyond the last whole byte, as the next byte they would start. */
  function Unused(ds: seq<Sextet>): Byte
    requires |ds| <= 4
  {
    match |ds|
    case 1 => Byte0(ds[0], 0)
    case 2 => Byte1(ds[1], 0)
    case 3 => Byte2(ds[2], 0)
    case _ => 0
  }

  datatype Decoded = Decoded(success: bool, bytes: seq<Byte>, used: nat)

  /** Whether a last, partial quantum is acceptable. */
  predicate AcceptsTail(f: Flags, q: Quantum, len: nat)
    requires |q.digits| <= 4
  {
    && (f.term == TermAny || Unused(q.digits) == 0)
    && (f.pad == PadYes ==> q.padded)
    && (f.term == TermBuffer ==> q.pos == len)
  }

  function DecodeFrom(f: Flags, data: seq<Byte>, pos: nat): (r: Decoded)
    requires pos <= |data|
    ensures r.used <= |data|
    decreases |data| - pos
  {
    if pos == |data| then Decoded(true, [], pos)
    else
      var q := NextQuantum(f.parse, f.pad == PadNo, data, pos);
      if |q.digits| == 4 then
        var rest := DecodeFrom(f, data, q.pos);
        rest.(bytes := QuantumBytes(q.digits) + rest.bytes)
      else
        Decoded(AcceptsTail(f, q, |data|), QuantumBytes(q.digits), q.pos)
  }

  function Decode(f: Flags, data: seq<Byte>): Decoded {
    DecodeFrom(f, data, 0)
  }

  // ----- the source's loops

  /** The decoder's shifts and masks compute the bytes of the digits. */
  lemma Byte0Mask(p: Sextet, q: Sextet)
    ensures Or(Low(Shl(p, 2), 8), And(Shr(q, 4), 0x3)) == Byte0(p, q)
  {
    hide *;
    Pow2Values();
    ByteArithmetic(p, q, 0, 0);
    ShiftValues(p);
    ShiftValues(q);
    LowSmall(4 * p, 8);
    MaskIsMod(q / 16, 2);
    OrAdds(p, 2, q / 16);
  }

  lemma Byte1Mask(q: Sextet, r: Sextet)
    ensures Or(And(Low(Shl(q, 4), 8), 0xf0), And(Shr(r, 2), 0xf)) == Byte1(q, r)
  {
    hide *;
    Pow2Values();
    ByteArithmetic(0, q, r, 0);
    MaskIsMod(r / 4, 4);
    ShiftValues(r);
    ShiftValues(15);
    FieldOr(q, 4, 4, r / 4);
  }

  lemma Byte2Mask(r: Sextet, s: Sextet)
    ensures Or(And(Low(Shl(r, 6), 8), 0xc0), s) == Byte2(r, s)
  {
    hide *;
    Pow2Values();
    ByteArithmetic(0, 0, r, s);
    assert Shl(3, 6) == 0xc0 by { ShiftValues(3); }
    FieldOr(r, 6, 2, s);
  }

  lemma FieldOr(x: nat, n: nat, m: nat, y: nat)
    requires y < Pow2(n)
    ensures Or(And(Low(Shl(x, n), n + m), Shl(Pow2(m) - 1, n)), y) == Pow2(n) * (x % Pow2(m)) + y
  {
    hide *;
    HighField(x, n, m);
    OrDisjoint(x % Pow2(m), n, y);
    ShlIsProduct(x % Pow2(m), n);
  }

  /** Truncating to n + m bits and masking with m ones above bit n keeps m bits of x. */
  lemma HighField(x: nat, n: nat, m: nat)
    ensures And(Low(Shl(x, n), n + m), Shl(Pow2(m) - 1, n)) == Shl(x % Pow2(m), n)
  {
    hide *;
    LowShl(x, n, m);
    AndShl(Low(x, m), Pow2(m) - 1, n);
    MaskIsMod(Low(x, m), m);
    LowIsMod(x, m);
    LowBound(x, m);
    LowSmall(Low(x, m), m);
    LowIsMod(Low(x, m), m);
  }

  lemma {:induction false} LowShl(x: nat, n: nat, m: nat)
    ensures Low(Shl(x, n), n + m) == Shl(Low(x, m), n)
  {
    if n == 0 {
    } else {
      LowShl(x, n - 1, m);
      Halves(Shl(x, n - 1), 0);
    }
  }

  lemma ByteArithmetic(p: Sextet, q: Sextet, r: Sextet, s: Sextet)
    ensures q / 16 % 4 == q / 16 < 4 && 4 * p + q / 16 == Byte0(p, q)
    ensures r / 4 % 16 == r / 4 < 16 && 16 * (q % 16) + r / 4 == Byte1(q, r)
    ensures 64 * (r % 4) + s == Byte2(r, s)
  {
  }

  lemma {:induction false} AndShl(x: nat, y: nat, n: nat)
    ensures And(Shl(x, n), Shl(y, n)) == Shl(And(x, y), n)
  {
    if n == 0 {
    } else {
      AndShl(x, y, n - 1);
      Halves(Shl(x, n - 1), 0);
      Halves(Shl(y, n - 1), 0);
    }
  }

  /** GetNextQuantum: qbuf receives the digits, zero-filled. */
  method GetNextQuantum(parse: Parse, illegalPads: bool, data: seq<Byte>, start: nat, qbuf: array<Byte>)
    returns (byteLen: nat, dpos: nat, padded: bool)
    requires start <= |data| && qbuf.Length == 4
    modifies qbuf
    ensures var q := NextQuantum(parse, illegalPads, data, start);
            byteLen == |q.digits| && dpos == q.pos && padded == q.padded
            && (forall i :: 0 <= i < 4 ==> qbuf[i] == if i < byteLen then q.digits[i] else 0)
  {
    hide ScanFrom, DecodeTable, Scanning;
    dpos, byteLen := start, 0;
    var padLen: nat, padStart: nat := 0, 0;
    ghost var st := Scan(start, [], 0, 0);
    ghost var final := ScanFrom(parse, illegalPads, data, st);
    var stopped := false;
    while !stopped && byteLen < 4 && dpos < |data|
      invariant dpos == st.pos <= |data| && byteLen == |st.digits| <= 4
      invariant padLen == st.pads && padStart == st.padStart
      invariant forall i :: 0 <= i < byteLen ==> qbuf[i] == st.digits[i]
      invariant ScanFrom(parse, illegalPads, data, st) == final
      invariant stopped ==> st == final
      decreases |data| - dpos, !stopped
    {
      ScanStep(parse, illegalPads, data, st);
      DecodeMarks(data[dpos]);
      ghost var next := Next(parse, illegalPads, data, st);
      qbuf[byteLen] := DecodeTable(data[dpos]);
      if qbuf[byteLen] == ILLEGAL || (illegalPads && qbuf[byteLen] == PADDING) {
        stopped := parse != Any;
      } else if qbuf[byteLen] == SPACE {
        stopped := parse == Strict;
      } else if qbuf[byteLen] == PADDING {
        if byteLen < 2 || byteLen + padLen >= 4 {
          stopped := parse != Any;
        } else {
          padLen := padLen + 1;
          if padLen == 1 { padStart := dpos; }
        }
      } else if padLen > 0 && parse != Any {
        stopped := true;
      } else {
        padLen := 0;
        byteLen := byteLen + 1;
      }
      if !stopped { dpos := dpos + 1; }
      st := next;
    }
    ScanStep(parse, illegalPads, data, st);
    assert st == final;
    ghost var digits := st.digits;
    for i := byteLen to 4
      invariant forall j :: 0 <= j < byteLen ==> qbuf[j] == digits[j]
      invariant forall j :: byteLen <= j < i ==> qbuf[j] == 0
    {
      qbuf[i] := 0;
    }
    if byteLen + padLen == 4 {
      padded := true;
    } else {
      padded := false;
      if padLen > 0 { dpos := padStart; }
    }
  }

  lemma DecodeMarks(ch: Byte)
    ensures DecodeTable(ch) < 64 || DecodeTable(ch) in {ILLEGAL, SPACE, PADDING}
  {
  }

  /** One unfolding of the scan. */
  lemma ScanStep(parse: Parse, illegalPads: bool, data: seq<Byte>, st: Scan)
    requires st.pos <= |data|
    ensures var r := ScanFrom(parse, illegalPads, data, st);
            if |st.digits| >= 4 || st.pos == |data| then r == st
            else
              var next := Next(parse, illegalPads, data, st);
              if next.pos == st.pos then r == st else r == ScanFrom(parse, illegalPads, data, next)
  {
  }

  /** DecodeFromArrayTemplate. */
  method DecodeFromArray(f: Flags, data: seq<Byte>) returns (success: bool, result: seq<Byte>, dataUsed: nat)
    ensures Decoded(success, result, dataUsed) == Decode(f, data)
  {
    hide DecodeFrom, NextQuantum, QuantumBytes, Unused;
    result := [];
    var dpos: nat := 0;
    success := true;
    var done := false;
    var qbuf := new Byte[4];
    ghost var goal := Decode(f, data);
    while !done && dpos < |data|
      invariant dpos <= |data|
      invariant !done ==> success && goal == Prepend(result, DecodeFrom(f, data, dpos))
      invariant done ==> goal == Decoded(success && (f.term == TermBuffer ==> dpos == |data|), result, dpos)
      decreases !done, |data| - dpos
    {
      DecodeStep(f, data, dpos);
      ghost var q := NextQuantum(f.parse, f.pad == PadNo, data, dpos);
      ghost var before := result;
      var qlen, next, padded := GetNextQuantum(f.parse, f.pad == PadNo, data, dpos, qbuf);
      var bytes, c := BytesOfQuantum(qbuf, qlen, q.digits);
      result := result + bytes;
      dpos := next;
      if qlen < 4 {
        if f.term != TermAny && c != 0 { success := false; }
        if f.pad == PadYes && !padded { success := false; }
        done := true;
      } else {
        PrependTwice(before, bytes, DecodeFrom(f, data, dpos));
      }
    }
    if !done { DecodeStep(f, data, dpos); }
    if f.term == TermBuffer && dpos != |data| { success := false; }
    dataUsed := dpos;
  }

  /** The bytes one iteration appends, and what is left in c. */
  method BytesOfQuantum(qbuf: array<Byte>, qlen: nat, ghost ds: seq<Sextet>) returns (bytes: seq<Byte>, c: Byte)
    requires qbuf.Length == 4 && |ds| == qlen <= 4
    requires forall i :: 0 <= i < 4 ==> qbuf[i] == if i < qlen then ds[i] else 0
    ensures bytes == QuantumBytes(ds) && c == Unused(ds)
  {
    hide And, Or, Low, Shl, Shr, Byte0, Byte1, Byte2;
    bytes := [];
    Byte0Mask(qbuf[0], qbuf[1]);
    c := Or(Low(Shl(qbuf[0], 2), 8), And(Shr(qbuf[1], 4), 0x3));
    if qlen == 0 { ZeroByte(); }
    if qlen >= 2 {
      bytes := bytes + [c];
      Byte1Mask(qbuf[1], qbuf[2]);
      c := Or(And(Low(Shl(qbuf[1], 4), 8), 0xf0), And(Shr(qbuf[2], 2), 0xf));
      if qlen >= 3 {
        bytes := bytes + [c];
        Byte2Mask(qbuf[2], qbuf[3]);
        c := Or(And(Low(Shl(qbuf[2], 6), 8), 0xc0), qbuf[3]);
        if qlen >= 4 {
          bytes := bytes + [c];
          c := 0;
        }
      }
    }
  }

  lemma ZeroByte()
    ensures Byte0(0, 0) == 0
  {
  }

  function Prepend(b: seq<Byte>, r: Decoded): Decoded {
    r.(bytes := b + r.bytes)
  }

  lemma PrependTwice(a: seq<Byte>, b: seq<Byte>, r: Decoded)
    ensures Prepend(a, Prepend(b, r)) == Prepend(a + b, r)
  {
    assert a + (b + r.bytes) == a + b + r.bytes;
  }

  /** One unfolding of the decoding loop. */
  lemma DecodeStep(f: Flags, data: seq<Byte>, pos: nat)
    requires pos <= |data|
    ensures pos == |data| ==> DecodeFrom(f, data, pos) == Decoded(true, [], pos)
    ensures pos < |data| ==>
              var q := NextQuantum(f.parse, f.pad == PadNo, data, pos);
              DecodeFrom(f, data, pos) ==
                if |q.digits| == 4 then Prepend(QuantumBytes(q.digits), DecodeFrom(f, data, q.pos))
                else Decoded(AcceptsTail(f, q, |data|), QuantumBytes(q.digits), q.pos)
  {
    hide NextQuantum, QuantumBytes;
  }
}
