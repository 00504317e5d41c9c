/** Encoding and strict decoding are mutually inverse bijections. */
module Base64Strict {
  import opened BitSeq
  import opened Base64
  import opened Base64Decode

  function Text(ds: seq<Sextet>): (r: seq<Byte>)
    ensures |r| == |ds|
  {
    seq(|ds|, i requires 0 <= i < |ds| => Base64Table(ds[i]))
  }

  function Pads(n: nat): seq<Byte> {
    seq(n, _ => PAD)
  }

  /** The digits of one quantum of bytes. */
  function DigitsOfBytes(d: seq<Byte>): seq<Sextet>
    requires 1 <= |d| <= 3
  {
    if |d| == 1 then [Sextet0(d[0]), Sextet1(d[0], 0)]
    else if |d| == 2 then [Sextet0(d[0]), Sextet1(d[0], d[1]), Sextet2(d[1], 0)]
    else [Sextet0(d[0]), Sextet1(d[0], d[1]), Sextet2(d[1], d[2]), Sextet3(d[2])]
  }

  /** A quantum of bytes is written as its digits and padding, and the digits give the bytes back. */
  lemma QuantumOfBytes(d: seq<Byte>)
    requires 1 <= |d| <= 3
    ensures var ds := DigitsOfBytes(d);
            |ds| == |d| + 1 && EncodeQuantum(d) == Text(ds) + Pads(4 - |ds|)
            && QuantumBytes(ds) == d && Unused(ds) == 0
  {
    hide Base64Table, Sextet0, Sextet1, Sextet2, Sextet3, Byte0, Byte1, Byte2;
    ZeroTails(d[|d| - 1]);
    Regrouping(d[0], 0, 0, 0, 0, 0, 0);
    if |d| > 1 { Regrouping(d[0], d[1], 0, 0, 0, 0, 0); }
    if |d| > 2 { Regrouping(d[0], d[1], d[2], 0, 0, 0, 0); }
  }

  lemma ZeroTails(a: Byte)
    ensures Byte1(Sextet1(a, 0), 0) == 0 && Byte2(Sextet2(a, 0), 0) == 0
  {
  }

  /** Digits without unused bits are exactly the digits of the bytes they give. */
  lemma QuantumOfDigits(ds: seq<Sextet>)
    requires 2 <= |ds| <= 4 && Unused(ds) == 0
    ensures 1 <= |QuantumBytes(ds)| <= 3 && DigitsOfBytes(QuantumBytes(ds)) == ds
  {
    hide Sextet0, Sextet1, Sextet2, Sextet3, Byte0, Byte1, Byte2;
    var r, s := if |ds| > 2 then ds[2] else 0, if |ds| > 3 then ds[3] else 0;
    Regrouping(0, 0, 0, ds[0], ds[1], r, s);
  }

  // ----- what a strict scan has read

  /** The characters from `start` up to a strict scan's position are its digits and its padding. */
  ghost predicate Spells(data: seq<Byte>, start: nat, st: Scan) {
    && start <= st.pos <= |data| && |st.digits| + st.pads <= 4
    && data[start..st.pos] == Text(st.digits) + Pads(st.pads)
    && (st.pads > 0 ==> |st.digits| >= 2)
  }

  lemma {:induction false} StrictSpells(data: seq<Byte>, start: nat, st: Scan)
    requires Spells(data, start, st)
    ensures Spells(data, start, ScanFrom(Strict, false, data, st))
    decreases |data| - st.pos
  {
    hide ScanFrom, Next, Spells;
    SpellsBounds(data, start, st);
    ScanStep(Strict, false, data, st);
    if |st.digits| >= 4 || st.pos == |data| {
    } else {
      var next := Next(Strict, false, data, st);
      if next.pos != st.pos {
        NextSpells(data, start, st);
        StrictSpells(data, start, next);
      }
    }
  }

  lemma SpellsBounds(data: seq<Byte>, start: nat, st: Scan)
    requires Spells(data, start, st)
    ensures start <= st.pos <= |data|
  {
  }

  lemma NextSpells(data: seq<Byte>, start: nat, st: Scan)
    requires Spells(data, start, st) && st.pos < |data| && |st.digits| < 4
    ensures Spells(data, start, Next(Strict, false, data, st))
  {
    hide DecodeTable, Base64Table;
    var ch := data[st.pos];
    TablesInverse(0, ch);
    assert data[start..st.pos + 1] == data[start..st.pos] + [ch];
    if OnChar(Strict, false, ch, |st.digits|, st.pads) == Take {
      assert Text(st.digits + [DecodeTable(ch)]) == Text(st.digits) + [ch];
    } else {
      assert Pads(st.pads + 1) == Pads(st.pads) + [PAD];
    }
  }

  /** Successful strict decoding reads the encoding of its result, up to the end. */
  lemma {:induction false} StrictSound(data: seq<Byte>, pos: nat)
    requires pos <= |data| && DecodeFrom(DO_STRICT, data, pos).success
    ensures data[pos..] == Encode(DecodeFrom(DO_STRICT, data, pos).bytes)
    ensures DecodeFrom(DO_STRICT, data, pos).used == |data|
    decreases |data| - pos
  {
    hide ScanFrom, EncodeQuantum, Text, QuantumBytes, DecodeFrom, NextQuantum;
    DecodeStep(DO_STRICT, data, pos);
    if pos == |data| {
    } else {
      var q := NextQuantum(Strict, false, data, pos);
      StrictQuantum(data, pos);
      if |q.digits| == 4 {
        StrictSound(data, q.pos);
        QuantumEncodes(q.digits);
        EncodeCons(QuantumBytes(q.digits), DecodeFrom(DO_STRICT, data, q.pos).bytes);
        assert data[pos..] == data[pos..q.pos] + data[q.pos..];
      } else {
        QuantumEncodes(q.digits);
        EncodeCons(QuantumBytes(q.digits), []);
        assert data[pos..q.pos] == data[pos..];
      }
    }
  }

  /** The text of a padded quantum. */
  lemma StrictQuantum(data: seq<Byte>, pos: nat)
    requires pos <= |data|
    ensures var q := NextQuantum(Strict, false, data, pos);
            q.padded ==> 2 <= |q.digits| <= 4 && pos <= q.pos <= |data|
                         && data[pos..q.pos] == Text(q.digits) + Pads(4 - |q.digits|)
    ensures |NextQuantum(Strict, false, data, pos).digits| == 4 ==> NextQuantum(Strict, false, data, pos).padded
  {
    hide ScanFrom;
    var st := Scan(pos, [], 0, 0);
    assert data[pos..pos] == Text([]) + Pads(0);
    StrictSpells(data, pos, st);
  }

  lemma QuantumEncodes(ds: seq<Sextet>)
    requires 2 <= |ds| <= 4 && Unused(ds) == 0
    ensures 1 <= |QuantumBytes(ds)| <= 3
    ensures |ds| == 4 ==> |QuantumBytes(ds)| == 3
    ensures EncodeQuantum(QuantumBytes(ds)) == Text(ds) + Pads(4 - |ds|)
  {
    QuantumOfDigits(ds);
    hide Unused, EncodeQuantum, DigitsOfBytes, Text;
    QuantumOfBytes(QuantumBytes(ds));
  }

  lemma EncodeCons(d: seq<Byte>, rest: seq<Byte>)
    requires 1 <= |d| <= 3 && (|d| == 3 || rest == [])
    ensures Encode(d + rest) == EncodeQuantum(d) + Encode(rest)
  {
    hide EncodeQuantum;
    if rest == [] {
      assert d + rest == d;
    } else {
      assert (d + rest)[..3] == d && (d + rest)[3..] == rest;
    }
  }

  // ----- strict decoding of an encoding

  /** A strict scan over text that spells ds takes exactly those digits. */
  lemma {:induction false} TakesDigits(data: seq<Byte>, pos: nat, ds: seq<Sextet>, k: nat)
    requires k <= |ds| <= 4 && pos + |ds| <= |data|
    requires forall i :: 0 <= i < |ds| ==> data[pos + i] == Base64Table(ds[i])
    ensures ScanFrom(Strict, false, data, Scan(pos + k, ds[..k], 0, 0))
         == ScanFrom(Strict, false, data, Scan(pos + |ds|, ds, 0, 0))
    decreases |ds| - k
  {
    hide ScanFrom, DecodeTable, Base64Table;
    if k == |ds| {
      assert ds[..k] == ds;
    } else {
      var st := Scan(pos + k, ds[..k], 0, 0);
      ScanStep(Strict, false, data, st);
      assert data[st.pos] == Base64Table(ds[k]);
      TablesInverse(ds[k], data[st.pos]);
      assert ds[..k + 1] == ds[..k] + [ds[k]];
      TakesDigits(data, pos, ds, k + 1);
    }
  }

  lemma {:induction false} TakesPads(data: seq<Byte>, st: Scan, n: nat)
    requires 2 <= |st.digits| && |st.digits| + st.pads + n == 4 && st.pos + n <= |data|
    requires forall i :: st.pos <= i < st.pos + n ==> data[i] == PAD
    ensures var r := ScanFrom(Strict, false, data, st);
            r.pos == st.pos + n && r.digits == st.digits && |r.digits| + r.pads == 4
    decreases n
  {
    hide ScanFrom, DecodeTable;
    ScanStep(Strict, false, data, st);
    if |st.digits| >= 4 || st.pos == |data| {
    } else {
      TablesInverse(0, data[st.pos]);
      if n > 0 { TakesPads(data, Next(Strict, false, data, st), n - 1); }
    }
  }

  lemma QuantumFromText(data: seq<Byte>, pos: nat, ds: seq<Sextet>)
    requires 2 <= |ds| <= 4 && pos + 4 <= |data|
    requires data[pos..pos + 4] == Text(ds) + Pads(4 - |ds|)
    ensures NextQuantum(Strict, false, data, pos) == Quantum(ds, true, pos + 4)
  {
    hide ScanFrom, Base64Table;
    var text := data[pos..pos + 4];
    forall i | 0 <= i < |ds| ensures data[pos + i] == Base64Table(ds[i]) {
      assert text[i] == Text(ds)[i];
    }
    forall i | pos + |ds| <= i < pos + 4 ensures data[i] == PAD {
      assert text[i - pos] == Pads(4 - |ds|)[i - pos - |ds|];
    }
    TakesDigits(data, pos, ds, 0);
    assert ds[..0] == [];
    TakesPads(data, Scan(pos + |ds|, ds, 0, 0), 4 - |ds|);
  }

  /** Strict decoding of an encoding gives the bytes and uses all the input. */
  lemma {:induction false} StrictComplete(data: seq<Byte>, pos: nat, d: seq<Byte>)
    requires pos <= |data| && data[pos..] == Encode(d)
    ensures DecodeFrom(DO_STRICT, data, pos) == Decoded(true, d, |data|)
    decreases |d|
  {
    hide DecodeFrom, NextQuantum, EncodeQuantum, Text, QuantumBytes, Unused, DigitsOfBytes;
    DecodeStep(DO_STRICT, data, pos);
    if d == [] {
    } else {
      var head, rest := if |d| <= 3 then d else d[..3], if |d| <= 3 then [] else d[3..];
      assert head + rest == d;
      EncodeCons(head, rest);
      QuantumOfBytes(head);
      var ds := DigitsOfBytes(head);
      var text := data[pos..];
      assert text[..4] == EncodeQuantum(head) && text[4..] == Encode(rest);
      assert data[pos..pos + 4] == text[..4] && data[pos + 4..] == text[4..];
      QuantumFromText(data, pos, ds);
      if |ds| == 4 { StrictComplete(data, pos + 4, rest); }
    }
  }

  /** Encode then decode strictly: the identity, with all input used. */
  lemma DecodeEncode(d: seq<Byte>)
    ensures Decode(DO_STRICT, Encode(d)) == Decoded(true, d, |Encode(d)|)
  {
    hide Encode, DecodeFrom;
    assert Encode(d)[0..] == Encode(d);
    StrictComplete(Encode(d), 0, d);
  }

  /** Strict decoding accepts exactly the encodings, and re-encoding its result gives the input back. */
  lemma StrictAcceptsExactlyEncodings(s: seq<Byte>)
    ensures Decode(DO_STRICT, s).success <==> exists d :: Encode(d) == s
    ensures Decode(DO_STRICT, s).success ==> Encode(Decode(DO_STRICT, s).bytes) == s && Decode(DO_STRICT, s).used == |s|
  {
    hide Encode, DecodeFrom;
    if Decode(DO_STRICT, s).success {
      StrictSound(s, 0);
      assert s[0..] == s;
    }
    if d :| Encode(d) == s {
      DecodeEncode(d);
    }
  }

  /** Distinct byte sequences have distinct encodings. */
  lemma EncodeInjective(d: seq<Byte>, e: seq<Byte>)
    requires Encode(d) == Encode(e)
    ensures d == e
  {
    DecodeEncode(d);
    DecodeEncode(e);
  }
}
