/** Integer parsing with saturation: _parse_long_long, ascii_strtoll and ascii_strtoull. */
module AsciiParse {
  import opened Words
  import opened BitSeq
  import opened Wrappers
  import opened Spelling
  import opened AsciiGrammar

  const INT64_MAX: int := 0x7FFF_FFFF_FFFF_FFFF
  const INT64_MIN: int := -0x8000_0000_0000_0000

  /** The value limited to 64 bits. */
  function Saturated(v: nat): nat { if v > UINT64_MAX then UINT64_MAX else v }

  // ----- the overflow test

  ghost predicate Cutoffs(cutoff: nat, cutlim: nat, b: nat) {
    cutlim < b && UINT64_MAX == cutoff * b + cutlim
  }

  /** The test against cutoff and cutlim asks whether the next value still fits 64 bits. */
  lemma CutoffTest(v: nat, c: nat, b: nat, cutoff: nat, cutlim: nat)
    requires c < b && Cutoffs(cutoff, cutlim, b)
    ensures v > cutoff || (v == cutoff && c > cutlim) <==> Horner(v, b, c) > UINT64_MAX
  {
    Multiples(v - cutoff, b);
    assert (v - cutoff) * b == v * b - cutoff * b;
  }

  lemma HornerGrows(v: nat, b: nat, c: nat)
    requires b > 0
    ensures Horner(v, b, c) >= v
  {
    Multiples(b - 1, v);
    assert (b - 1) * v == b * v - v;
  }

  // ----- the loops

  method SkipSpaces(data: seq<Byte>) returns (s: nat)
    ensures s == SpacesFrom(data, 0) && s <= |data|
  {
    s := 0;
    while IsSpace(At(data, s))
      invariant s <= |data| && SpacesFrom(data, s) == SpacesFrom(data, 0)
      decreases |data| - s
    {
      s := s + 1;
    }
  }

  /** The digit loop: the value of the run from `save` on, saturated at the 64-bit maximum. */
  method ParseDigits(data: seq<Byte>, save: nat, base: nat) returns (s: nat, result: nat)
    requires save <= |data| && 2 <= base <= 36
    ensures s == save + RunLength(data, save, base)
    ensures result == Saturated(Value(data, save, s - save, base))
  {
    hide RunLength, Value, Horner, Cutoffs, DigitValue, IsUpper, IsLower;
    var cutoff, cutlim := Divide(base);
    var overflow := false;
    var ui64: nat := 0;
    s := save;
    NoValue(data, save, base);
    while At(data, s) != 0
      invariant save <= s <= |data| && ui64 <= UINT64_MAX
      invariant forall k :: save <= k < s ==> DigitValue(data[k]) < base
      invariant !overflow ==> ui64 == Value(data, save, s - save, base)
      invariant overflow ==> Value(data, save, s - save, base) > UINT64_MAX
      decreases |data| - s
    {
      var c := ConvertDigit(At(data, s));
      if c >= base { break; }
      CutoffTest(ui64, c, base, cutoff, cutlim);
      HornerGrows(Value(data, save, s - save, base), base, c);
      ValueStep(data, save, s - save, base);
      if ui64 > cutoff || (ui64 == cutoff && c > cutlim) {
        overflow := true;
      } else {
        ui64 := Horner(ui64, base, c);
      }
      s := s + 1;
    }
    if s < |data| && data[s] == 0 { EndOfRun(data, s, base); }
    RunIs(data, save, base, s - save);
    result := if overflow then UINT64_MAX else ui64;
  }

  lemma EndOfRun(data: seq<Byte>, s: nat, b: nat)
    requires s < |data| && b <= 36 && data[s] == 0
    ensures DigitValue(data[s]) >= b
  {
  }

  method Divide(base: nat) returns (cutoff: nat, cutlim: nat)
    requires base > 0
    ensures Cutoffs(cutoff, cutlim, base)
  {
    cutoff, cutlim := UINT64_MAX / base, UINT64_MAX % base;
  }

  /** The branches on a character; one that is no digit ends the run in every base. */
  method ConvertDigit(ch: Byte) returns (c: nat)
    ensures c == DigitValue(ch)
  {
    if 48 <= ch <= 57 {
      c := ch - 48;
    } else if IsUpper(ch) || IsLower(ch) {
      c := ToUpper(ch) - 65 + 10;
    } else {
      c := 36;
    }
  }

  /** The sign and the prefix, from position p on. */
  method ScanPrefix(data: seq<Byte>, p: nat, base0: nat) returns (negative: bool, base: nat, s: nat)
    requires p == SpacesFrom(data, 0) <= |data|
    ensures var m := Scan(data, base0); negative == m.negative && base == m.base && s == m.start
    ensures s <= |data|
  {
    hide SpacesFrom;
    negative, base, s := false, base0, p;
    if At(data, s) == 45 {
      negative := true;
      s := s + 1;
    } else if At(data, s) == 43 {
      s := s + 1;
    }
    if At(data, s) == 48 {
      if (base == 0 || base == 16) && ToUpper(At(data, s + 1)) == 88 {
        s := s + 2;
        base := 16;
      } else if base == 0 {
        base := 8;
      }
    } else if base == 0 {
      base := 10;
    }
  }

  /** _parse_long_long. */
  method ParseLongLong(data: seq<Byte>, base0: nat) returns (result: nat, end: nat, negative: bool)
    ensures var m := Meaning(data, base0);
            end == m.end && negative == m.negative && result == Saturated(m.magnitude)
    ensures forall t :: Reads(data, base0, t) ==>
              && negative == (t.sign == MINUS) && end == |data| - |t.rest|
              && result == Clamp(Spelled(t.values, BaseOf(base0, t)), 0, UINT64_MAX)
    ensures (forall t :: !Reads(data, base0, t)) ==> result == 0 && end == 0
  {
    hide SpacesFrom, RunLength, Value, Scan, Reads, Spelled, BaseOf;
    forall t | Reads(data, base0, t) { MeaningOfText(data, base0, t); }
    if forall t :: !Reads(data, base0, t) { MeaningOfOther(data, base0); }
    negative, result, end := false, 0, 0;
    if base0 == 1 || base0 > 36 {
      return;
    }
    var save := 0;
    var s := SkipSpaces(data);
    BeforeDigits(data, base0);
    if At(data, s) != 0 {
      var base;
      negative, base, save := ScanPrefix(data, s, base0);
      BaseInRange(data, base0);
      var stop, value := ParseDigits(data, save, base);
      if stop != save {
        end, result := stop, value;
        return;
      }
    } else {
      NothingThere(data, base0);
    }
    if save >= 2 && ToUpper(data[save - 1]) == 88 && data[save - 2] == 48 {
      end := save - 1;
    }
  }

  lemma BaseInRange(data: seq<Byte>, base: nat)
    requires base != 1 && base <= 36
    ensures 2 <= Scan(data, base).base <= 36
  {
    hide SpacesFrom;
  }

  lemma NothingThere(data: seq<Byte>, base: nat)
    requires At(data, SpacesFrom(data, 0)) == 0
    ensures var m := Scan(data, base); !m.negative && !m.prefixed && RunLength(data, m.start, m.base) == 0
  {
    hide SpacesFrom;
  }

  /** Only a hexadecimal prefix puts an x right before the digits. */
  lemma BeforeDigits(data: seq<Byte>, base: nat)
    ensures var m := Scan(data, base);
            && (m.prefixed ==> 2 <= m.start <= |data| && ToUpper(data[m.start - 1]) == 88 && data[m.start - 2] == 48)
            && (!m.prefixed && 1 <= m.start <= |data| ==> ToUpper(data[m.start - 1]) != 88)
  {
    hide SpacesFrom;
    SpacesAre(data, 0);
  }

  // ----- the public functions

  function Signed(negative: bool, v: int): int { if negative then -v else v }

  /** Conversion of a 64-bit word to a signed integer. */
  function ToSigned(x: nat): int { if x > INT64_MAX then x - 0x1_0000_0000_0000_0000 else x }

  /** Negation in 64-bit two's complement: the least integer is its own negation. */
  function Negate(x: int): int { if x == INT64_MIN then INT64_MIN else -x }

  /** ascii_strtoll: the mathematical value of the numeral at the start of the text, clamped to the signed 64-bit
  range, and the position after it; zero and the start if there is none. */
  method Strtoll(data: seq<Byte>, base: nat) returns (value: int, end: nat)
    ensures var m := Meaning(data, base);
            value == Clamp(Signed(m.negative, m.magnitude), INT64_MIN, INT64_MAX) && end == m.end
    ensures forall t :: Reads(data, base, t) ==>
              && value == Clamp(Signed(t.sign == MINUS, Spelled(t.values, BaseOf(base, t))), INT64_MIN, INT64_MAX)
              && end == |data| - |t.rest|
    ensures (forall t :: !Reads(data, base, t)) ==> value == 0 && end == 0
  {
    hide Meaning, Reads, Spelled, BaseOf;
    forall t | Reads(data, base, t) { MeaningOfText(data, base, t); }
    if forall t :: !Reads(data, base, t) { MeaningOfOther(data, base); }
    var result, stop, negative := ParseLongLong(data, base);
    end := stop;
    if negative && result > 0x8000_0000_0000_0000 {
      value := INT64_MIN;
    } else if !negative && result > 0x7FFF_FFFF_FFFF_FFFF {
      value := INT64_MAX;
    } else if negative {
      value := Negate(ToSigned(result));
    } else {
      value := ToSigned(result);
    }
  }

  /** ascii_strtoull: the value clamped to 64 bits, negated modulo 2^64 for a minus sign, of the numeral at the
  start of the text; zero and the start if there is none. */
  method Strtoull(data: seq<Byte>, base: nat) returns (value: nat, end: nat)
    ensures value <= UINT64_MAX
    ensures var m := Meaning(data, base);
            var v := Clamp(m.magnitude, 0, UINT64_MAX);
            end == m.end && (if m.negative then (value + v) % (UINT64_MAX + 1) == 0 else value == v)
    ensures forall t :: Reads(data, base, t) ==>
              var v := Clamp(Spelled(t.values, BaseOf(base, t)), 0, UINT64_MAX);
              && end == |data| - |t.rest|
              && (if t.sign == MINUS then (value + v) % (UINT64_MAX + 1) == 0 else value == v)
    ensures (forall t :: !Reads(data, base, t)) ==> value == 0 && end == 0
  {
    hide Meaning, Reads, Spelled, BaseOf;
    forall t | Reads(data, base, t) { MeaningOfText(data, base, t); }
    if forall t :: !Reads(data, base, t) { MeaningOfOther(data, base); }
    var result, stop, negative := ParseLongLong(data, base);
    end := stop;
    value := if negative then (UINT64_MAX + 1 - result) % (UINT64_MAX + 1) else result;
  }

}
