/** What the integer parser reads from a text: its scan, and the grammar of numerals that the scan decides. */
module AsciiGrammar {
  import opened Words
  import opened BitSeq
  import opened Spelling

  // ----- characters

  /** The characters before the terminating zero are data; reading at the end gives the terminator. */
  function At(data: seq<Byte>, i: nat): Byte { if i < |data| then data[i] else 0 }

  predicate IsSpace(c: Byte) { c == 32 || 9 <= c <= 13 }

  predicate IsUpper(c: Byte) { 65 <= c <= 90 }

  predicate IsLower(c: Byte) { 97 <= c <= 122 }

  function ToUpper(c: Byte): Byte { if IsLower(c) then c - 32 else c }

  /** The value of a digit in bases up to 36, or 36 for any other character. */
  function DigitValue(c: Byte): nat {
    if 48 <= c <= 57 then c - 48 else if IsUpper(c) || IsLower(c) then ToUpper(c) - 65 + 10 else 36
  }

  // ----- what a numeral means

  /** The length of the longest run of base-b digits from i on. */
  function RunLength(data: seq<Byte>, i: nat, b: nat): nat
    decreases |data| - i
  {
    if i < |data| && b <= 36 && DigitValue(data[i]) < b then 1 + RunLength(data, i + 1, b) else 0
  }

  /** The number that n digits from i on spell in base b. */
  function Value(data: seq<Byte>, i: nat, n: nat, b: nat): nat {
    if n == 0 then 0 else Horner(Value(data, i, n - 1, b), b, DigitValue(At(data, i + n - 1)))
  }

  /** Appending a digit to a number. */
  function Horner(v: nat, b: nat, c: nat): nat { v * b + c }

  function SpacesFrom(data: seq<Byte>, i: nat): (j: nat)
    ensures j >= i
    decreases |data| - i
  {
    if i < |data| && IsSpace(data[i]) then SpacesFrom(data, i + 1) else i
  }

  /** The parts of a numeral: its sign, its base, and where its digits start. */
  datatype Numeral = Numeral(negative: bool, base: nat, prefixed: bool, start: nat)

  function Scan(data: seq<Byte>, base: nat): Numeral {
    var p := SpacesFrom(data, 0);
    var signed := At(data, p) == 45 || At(data, p) == 43;
    var q := if signed then p + 1 else p;
    var prefixed := At(data, q) == 48 && (base == 0 || base == 16) && ToUpper(At(data, q + 1)) == 88;
    Numeral(
      At(data, p) == 45,
      if prefixed then 16 else if base != 0 then base else if At(data, q) == 48 then 8 else 10,
      prefixed,
      if prefixed then q + 2 else q)
  }

  /** The result of parsing: the magnitude as a mathematical number, and the end position. */
  datatype Parsed = Parsed(negative: bool, magnitude: nat, end: nat)

  /** What the numeral at the start of the text means. Without digits the value is zero, and the end is the
  start of the text, or the x of a hexadecimal prefix. */
  function Meaning(data: seq<Byte>, base: nat): Parsed {
    if base == 1 || base > 36 then Parsed(false, 0, 0)
    else
      var m := Scan(data, base);
      var n := RunLength(data, m.start, m.base);
      if n > 0 then Parsed(m.negative, Value(data, m.start, n, m.base), m.start + n)
      else Parsed(m.negative, 0, if m.prefixed then m.start - 1 else 0)
  }

  // ----- the scan

  /** What is before the sign and the digits is whitespace. */
  lemma {:induction false} SpacesAre(data: seq<Byte>, i: nat)
    ensures SpacesFrom(data, i) <= |data| || SpacesFrom(data, i) == i
    ensures forall k :: i <= k < SpacesFrom(data, i) ==> k < |data| && IsSpace(data[k])
    decreases |data| - i
  {
    hide IsSpace;
    if i >= |data| || !IsSpace(data[i]) {
    } else {
      SpacesAre(data, i + 1);
    }
  }

  /** A run ends at its first character that is not a digit. */
  lemma {:induction false} RunIs(data: seq<Byte>, i: nat, b: nat, n: nat)
    requires b <= 36 && i + n <= |data| && forall k :: i <= k < i + n ==> DigitValue(data[k]) < b
    requires i + n == |data| || DigitValue(data[i + n]) >= b
    ensures RunLength(data, i, b) == n
    decreases n
  {
    if n == 0 {
    } else {
      RunIs(data, i + 1, b, n - 1);
    }
  }

  lemma ValueStep(data: seq<Byte>, i: nat, n: nat, b: nat)
    requires i + n < |data|
    ensures Value(data, i, n + 1, b) == Horner(Value(data, i, n, b), b, DigitValue(data[i + n]))
  {
    hide Horner, DigitValue;
  }

  lemma NoValue(data: seq<Byte>, i: nat, b: nat)
    ensures Value(data, i, 0, b) == 0
  {
  }

  // ----- the grammar of numerals

  /** The parts of a text that starts with a numeral, and the values of its digits. */
  datatype Parts = Parts(
    spaces: seq<Byte>, sign: seq<Byte>, prefix: seq<Byte>, digits: seq<Byte>, values: seq<int>, rest: seq<Byte>)

  const WHITESPACE: set<Byte> := {9, 10, 11, 12, 13, 32}
  const MINUS: seq<Byte> := [45]
  const PLUS: seq<Byte> := [43]

  /** Character c is the digit of value d, a letter in either case. */
  predicate IsDigit(c: Byte, d: int) {
    if 0 <= d < 10 then c == DIGITS[d] as int
    else 10 <= d < 36 && (c == UPPER[d - 10] as int || c == LOWER[d - 10] as int)
  }

  ghost predicate DigitIn(c: Byte, b: nat) {
    exists d :: 0 <= d < b && IsDigit(c, d)
  }

  /** "0x" or "0X". */
  predicate HexPrefix(text: seq<Byte>) { text == [48, 120] || text == [48, 88] }

  /** A hexadecimal prefix that the base allows, and a digit after it. */
  ghost predicate HexAhead(text: seq<Byte>, base: nat) {
    (base == 0 || base == 16) && |text| > 2 && HexPrefix(text[..2]) && DigitIn(text[2], 16)
  }

  /** The base of the digits: for base zero, a prefix means 16, a leading zero 8, and anything else 10. */
  function BaseOf(base: nat, t: Parts): nat {
    if t.prefix != [] then 16
    else if base != 0 then base
    else if t.digits != [] && t.digits[0] == 48 then 8
    else 10
  }

  /** The digits have their values, all below b, and no digit follows. */
  ghost predicate WholeRun(t: Parts, b: nat) {
    && |t.values| == |t.digits| > 0
    && (forall i :: 0 <= i < |t.digits| ==> 0 <= t.values[i] < b && IsDigit(t.digits[i], t.values[i]))
    && (t.rest != [] ==> !DigitIn(t.rest[0], b))
  }

  /** The text is whitespace, an optional sign, a prefix if there is one, as many digits as there are, and the
  rest. */
  ghost predicate Reads(data: seq<Byte>, base: nat, t: Parts) {
    && (base == 0 || 2 <= base <= 36)
    && data == t.spaces + (t.sign + (t.prefix + (t.digits + t.rest)))
    && (forall i :: 0 <= i < |t.spaces| ==> t.spaces[i] in WHITESPACE)
    && (t.sign == [] || t.sign == MINUS || t.sign == PLUS)
    && (if HexAhead(t.prefix + (t.digits + t.rest), base) then HexPrefix(t.prefix) else t.prefix == [])
    && WholeRun(t, BaseOf(base, t))
  }

  // ----- the scan decides the grammar

  lemma DigitMeans(c: Byte, d: int)
    ensures IsDigit(c, d) <==> 0 <= d < 36 && DigitValue(c) == d
  {
    DigitAt(d);
    UpperAt(d - 10);
    LowerAt(d - 10);
    hide DIGITS, UPPER, LOWER;
  }

  lemma DigitInMeans(c: Byte, b: nat)
    requires b <= 36
    ensures DigitIn(c, b) <==> DigitValue(c) < b
  {
    hide IsDigit, DigitValue;
    if DigitIn(c, b) {
      var d :| 0 <= d < b && IsDigit(c, d);
      DigitMeans(c, d);
    }
    DigitMeans(c, DigitValue(c));
  }

  /** Digits, signs and whitespace are different characters. */
  lemma CharacterClasses(c: Byte)
    ensures IsSpace(c) <==> c in WHITESPACE
    ensures DigitValue(c) < 36 ==> !IsSpace(c) && c != 45 && c != 43
    ensures IsSpace(c) ==> c != 45 && c != 43
    ensures ToUpper(c) == 88 <==> c == 88 || c == 120
    ensures ToUpper(c) == 88 ==> DigitValue(c) == 33
    ensures DigitValue(c) == 0 <==> c == 48
  {
  }

  lemma {:induction false} SpacesEnd(data: seq<Byte>, i: nat, p: nat)
    requires i <= p <= |data| && forall k :: i <= k < p ==> IsSpace(data[k])
    requires p < |data| ==> !IsSpace(data[p])
    ensures SpacesFrom(data, i) == p
    decreases p - i
  {
    hide IsSpace;
    if i == p {
    } else {
      SpacesEnd(data, i + 1, p);
    }
  }

  lemma SignsRead(data: seq<Byte>, base: nat, t: Parts)
    requires Reads(data, base, t)
    ensures t.sign == [] || t.sign == MINUS || t.sign == PLUS
    ensures base == 0 || 2 <= base <= 36
  {
    hide HexAhead, IsDigit, DigitIn;
  }

  lemma DigitFacts(data: seq<Byte>, base: nat, t: Parts)
    requires Reads(data, base, t)
    ensures |t.values| == |t.digits| > 0 && 2 <= BaseOf(base, t) <= 36
    ensures forall i :: 0 <= i < |t.digits| ==> t.values[i] < BaseOf(base, t) && DigitValue(t.digits[i]) == t.values[i]
    ensures t.rest != [] ==> DigitValue(t.rest[0]) >= BaseOf(base, t)
  {
    hide HexAhead, IsDigit, DigitIn, DigitValue;
    forall i | 0 <= i < |t.digits| ensures DigitValue(t.digits[i]) == t.values[i] {
      DigitMeans(t.digits[i], t.values[i]);
    }
    if t.rest != [] { DigitInMeans(t.rest[0], BaseOf(base, t)); }
  }

  lemma PrefixFacts(data: seq<Byte>, base: nat, t: Parts)
    requires Reads(data, base, t)
    ensures var text := t.prefix + (t.digits + t.rest);
            if HexAhead(text, base) then HexPrefix(t.prefix) && text[..2] == t.prefix else t.prefix == []
  {
    hide IsDigit, DigitIn;
  }

  lemma ReadsText(data: seq<Byte>, base: nat, t: Parts)
    requires Reads(data, base, t)
    ensures data == t.spaces + (t.sign + (t.prefix + (t.digits + t.rest)))
    ensures |t.sign| <= 1 && |t.digits| > 0
    ensures forall i :: 0 <= i < |t.spaces| ==> t.spaces[i] in WHITESPACE
  {
    hide HexAhead, IsDigit, DigitIn;
  }

  /** Where the parts of the text are. */
  lemma PartsAt(data: seq<Byte>, base: nat, t: Parts)
    requires Reads(data, base, t)
    ensures var p, q := |t.spaces|, |t.spaces| + |t.sign|;
            var start := q + |t.prefix|;
            var n := |t.digits|;
            && start + n + |t.rest| == |data| && start < |data|
            && data[q..] == t.prefix + (t.digits + t.rest)
            && (forall i :: 0 <= i < p ==> data[i] == t.spaces[i])
            && (forall i :: 0 <= i < n ==> data[start + i] == t.digits[i])
            && (t.rest != [] ==> data[start + n] == t.rest[0])
            && (t.sign != [] ==> data[p] == t.sign[0]) && (t.prefix != [] ==> data[q] == t.prefix[0])
  {
    hide Reads;
    ReadsText(data, base, t);
    var after := t.digits + t.rest;
    JoinedParts(t.spaces, t.sign + (t.prefix + after), data);
    JoinedParts(t.sign, t.prefix + after, data[|t.spaces|..]);
    JoinedParts(t.prefix, after, data[|t.spaces| + |t.sign|..]);
    JoinedParts(t.digits, t.rest, data[|t.spaces| + |t.sign| + |t.prefix|..]);
  }

  lemma JoinedParts(a: seq<Byte>, b: seq<Byte>, data: seq<Byte>)
    requires data == a + b
    ensures |data| == |a| + |b| && data[|a|..] == b
    ensures forall i :: 0 <= i < |a| ==> data[i] == a[i]
  {
  }

  /** The first character after whitespace is a sign or a digit. */
  lemma FirstCharacter(data: seq<Byte>, base: nat, t: Parts)
    requires Reads(data, base, t)
    ensures |t.spaces| < |data|
    ensures var c := data[|t.spaces|];
            if t.sign == [] then !IsSpace(c) && c != 45 && c != 43 else c == t.sign[0]
  {
    hide Reads, HexAhead, DigitValue, IsSpace;
    PartsAt(data, base, t);
    DigitFacts(data, base, t);
    PrefixFacts(data, base, t);
    CharacterClasses(data[|t.spaces|]);
    if t.sign == [] && t.prefix == [] { assert data[|t.spaces| + 0] == t.digits[0]; }
  }

  /** A hexadecimal prefix that the base allows is at position q. */
  predicate PrefixedAt(data: seq<Byte>, base: nat, q: nat) {
    (base == 0 || base == 16) && q + 2 <= |data| && HexPrefix(data[q..q + 2])
  }

  lemma PrefixTest(data: seq<Byte>, base: nat, q: nat)
    ensures PrefixedAt(data, base, q) <==>
              At(data, q) == 48 && (base == 0 || base == 16) && ToUpper(At(data, q + 1)) == 88
  {
    hide ToUpper;
    CharacterClasses(At(data, q + 1));
    if q + 2 <= |data| { assert data[q..q + 2] == [data[q], data[q + 1]]; }
  }

  lemma ScanOf(data: seq<Byte>, base: nat, t: Parts)
    requires Reads(data, base, t)
    ensures var q := |t.spaces| + |t.sign|;
            var m := Scan(data, base);
            && q < |data| && m.negative == (t.sign == MINUS) && m.prefixed == PrefixedAt(data, base, q)
            && m.base == (if m.prefixed then 16 else if base != 0 then base else if data[q] == 48 then 8 else 10)
            && m.start == if m.prefixed then q + 2 else q
  {
    hide Reads, IsSpace, SpacesFrom, ToUpper, PrefixedAt;
    PartsAt(data, base, t);
    FirstCharacter(data, base, t);
    SpacesRead(data, base, t);
    SignsRead(data, base, t);
    PrefixTest(data, base, |t.spaces| + |t.sign|);
  }

  lemma SpacesRead(data: seq<Byte>, base: nat, t: Parts)
    requires Reads(data, base, t)
    ensures SpacesFrom(data, 0) == |t.spaces|
  {
    hide Reads, IsSpace, SpacesFrom;
    PartsAt(data, base, t);
    ReadsText(data, base, t);
    SignsRead(data, base, t);
    FirstCharacter(data, base, t);
    CharacterClasses(data[|t.spaces|]);
    forall i | 0 <= i < |t.spaces| ensures IsSpace(data[i]) {
      assert data[i] == t.spaces[i];
      CharacterClasses(data[i]);
    }
    SpacesEnd(data, 0, |t.spaces|);
  }

  /** The digits are the whole run, and spell its value. */
  lemma DigitsRead(data: seq<Byte>, base: nat, t: Parts)
    requires Reads(data, base, t)
    ensures var start, b := |t.spaces| + |t.sign| + |t.prefix|, BaseOf(base, t);
            && RunLength(data, start, b) == |t.digits|
            && Value(data, start, |t.digits|, b) == Spelled(t.values, b)
  {
    hide Reads, BaseOf, DigitValue, RunLength, Value, Spelled;
    PartsAt(data, base, t);
    DigitFacts(data, base, t);
    RunAt(data, |t.spaces| + |t.sign| + |t.prefix|, t.digits, t.values, t.rest, BaseOf(base, t));
  }

  lemma RunAt(data: seq<Byte>, start: nat, digits: seq<Byte>, values: seq<int>, rest: seq<Byte>, b: nat)
    requires |values| == |digits| && start + |digits| + |rest| == |data| && b <= 36
    requires forall i :: 0 <= i < |digits| ==> data[start + i] == digits[i]
    requires forall i :: 0 <= i < |digits| ==> values[i] < b && DigitValue(digits[i]) == values[i]
    requires rest != [] ==> data[start + |digits|] == rest[0] && DigitValue(rest[0]) >= b
    ensures RunLength(data, start, b) == |digits| && Value(data, start, |digits|, b) == Spelled(values, b)
  {
    hide DigitValue, RunLength, Value, Spelled;
    forall k | start <= k < start + |digits| ensures DigitValue(data[k]) == values[k - start] {
      assert data[start + (k - start)] == digits[k - start];
    }
    RunIs(data, start, b, |digits|);
    SpelledValue(data, start, values, b);
  }

  lemma {:induction false} SpelledValue(data: seq<Byte>, i: nat, values: seq<int>, b: nat)
    requires i + |values| <= |data| && forall k :: 0 <= k < |values| ==> values[k] == DigitValue(data[i + k])
    ensures Value(data, i, |values|, b) == Spelled(values, b)
  {
    hide DigitValue;
    if values == [] {
    } else {
      var k := |values| - 1;
      SpelledValue(data, i, values[..k], b);
    }
  }

  /** With a prefix that no hexadecimal digit follows, the numeral is its zero. */
  lemma BarePrefix(data: seq<Byte>, base: nat, t: Parts)
    requires Reads(data, base, t) && t.prefix == [] && PrefixedAt(data, base, |t.spaces| + |t.sign|)
    ensures |t.digits| == 1 && Spelled(t.values, BaseOf(base, t)) == 0
    ensures RunLength(data, |t.spaces| + |t.sign| + 2, 16) == 0
  {
    hide Reads, DigitIn, DigitValue, RunLength, Spelled, PrefixedAt, ToUpper;
    var q := |t.spaces| + |t.sign|;
    PartsAt(data, base, t);
    DigitFacts(data, base, t);
    PrefixBounds(data, base, q);
    CharacterClasses(data[q]);
    CharacterClasses(data[q + 1]);
    assert data[q + 0] == t.digits[0];
    if |t.digits| > 1 {
      SecondDigit(data, base, t);
      assert false;
    }
    assert t.values == [0];
    SpelledZero(BaseOf(base, t));
    NothingAhead(data, base, t);
  }

  lemma SecondDigit(data: seq<Byte>, base: nat, t: Parts)
    requires Reads(data, base, t) && |t.digits| > 1
    ensures var i := |t.spaces| + |t.sign| + |t.prefix| + 1;
            && i < |data| && |t.values| > 1 && data[i] == t.digits[1]
            && DigitValue(data[i]) == t.values[1] < BaseOf(base, t)
  {
    hide Reads, DigitValue, BaseOf;
    PartsAt(data, base, t);
    DigitFacts(data, base, t);
  }

  lemma SpelledZero(b: nat)
    ensures Spelled([0], b) == 0
  {
  }

  lemma NothingAhead(data: seq<Byte>, base: nat, t: Parts)
    requires Reads(data, base, t) && t.prefix == [] && PrefixedAt(data, base, |t.spaces| + |t.sign|)
    ensures RunLength(data, |t.spaces| + |t.sign| + 2, 16) == 0
  {
    hide Reads, DigitIn, DigitValue;
    var q := |t.spaces| + |t.sign|;
    PartsAt(data, base, t);
    PrefixFacts(data, base, t);
    assert data[q..q + 2] == data[q..][..2];
    if q + 2 < |data| {
      assert data[q..][2] == data[q + 2];
      DigitInMeans(data[q + 2], 16);
    }
  }

  lemma PrefixRead(data: seq<Byte>, base: nat, t: Parts)
    requires Reads(data, base, t)
    ensures var q := |t.spaces| + |t.sign|;
            if t.prefix != [] then |t.prefix| == 2 && PrefixedAt(data, base, q)
            else q < |data| && |t.digits| > 0 && data[q] == t.digits[0]
  {
    hide Reads, DigitIn;
    var q := |t.spaces| + |t.sign|;
    PartsAt(data, base, t);
    PrefixFacts(data, base, t);
    DigitFacts(data, base, t);
    if t.prefix != [] {
      assert data[q..q + 2] == data[q..][..2];
    } else {
      assert data[q + 0] == t.digits[0];
    }
  }

  /** Whatever numeral the grammar finds at the start of a text is what the text means. */
  lemma MeaningOfText(data: seq<Byte>, base: nat, t: Parts)
    requires Reads(data, base, t)
    ensures var m := Meaning(data, base);
            && m.negative == (t.sign == MINUS) && m.magnitude == Spelled(t.values, BaseOf(base, t))
            && m.end == |data| - |t.rest|
  {
    hide Reads, PrefixedAt, Scan, RunLength, Value, Spelled;
    PartsAt(data, base, t);
    SignsRead(data, base, t);
    ScanOf(data, base, t);
    DigitFacts(data, base, t);
    DigitsRead(data, base, t);
    PrefixRead(data, base, t);
    if t.prefix == [] && Scan(data, base).prefixed { BarePrefix(data, base, t); }
  }

  // ----- a text that means something has a numeral

  /** The text cut at p, q, start and start + n. */
  function Cut(data: seq<Byte>, p: nat, q: nat, start: nat, n: nat): Parts
    requires p <= q <= start <= start + n <= |data|
  {
    Parts(data[..p], data[p..q], data[q..start], data[start..start + n],
          seq(n, i requires 0 <= i < n => DigitValue(data[start + i])), data[start + n..])
  }

  lemma CutReads(data: seq<Byte>, base: nat, p: nat, q: nat, start: nat, n: nat)
    requires (base == 0 || 2 <= base <= 36) && p <= q <= start < start + n <= |data|
    requires forall i :: 0 <= i < p ==> IsSpace(data[i])
    requires q == p || (q == p + 1 && (data[p] == 45 || data[p] == 43))
    requires if HexAhead(data[q..], base) then HexPrefix(data[q..start]) else start == q
    requires var b := BaseOf(base, Cut(data, p, q, start, n));
             && (forall i :: start <= i < start + n ==> DigitValue(data[i]) < b)
             && (start + n < |data| ==> DigitValue(data[start + n]) >= b)
    ensures Reads(data, base, Cut(data, p, q, start, n))
  {
    hide HexAhead, DigitValue, IsSpace, WholeRun, HexPrefix;
    var t := Cut(data, p, q, start, n);
    CutJoins(data, p, q, start, n);
    forall i | 0 <= i < p ensures t.spaces[i] in WHITESPACE { CharacterClasses(data[i]); }
    CutRun(data, p, q, start, n, BaseOf(base, t));
  }

  lemma CutRun(data: seq<Byte>, p: nat, q: nat, start: nat, n: nat, b: nat)
    requires p <= q <= start < start + n <= |data| && b <= 36
    requires forall i :: start <= i < start + n ==> DigitValue(data[i]) < b
    requires start + n < |data| ==> DigitValue(data[start + n]) >= b
    ensures WholeRun(Cut(data, p, q, start, n), b)
  {
    hide IsDigit, DigitIn, DigitValue;
    var t := Cut(data, p, q, start, n);
    forall i | 0 <= i < n ensures 0 <= t.values[i] < b && IsDigit(t.digits[i], t.values[i]) {
      DigitMeans(data[start + i], t.values[i]);
    }
    if start + n < |data| { DigitInMeans(data[start + n], b); }
  }

  lemma CutJoins(data: seq<Byte>, p: nat, q: nat, start: nat, n: nat)
    requires p <= q <= start <= start + n <= |data|
    ensures var t := Cut(data, p, q, start, n);
            && data[start..] == t.digits + t.rest && data[q..] == t.prefix + (t.digits + t.rest)
            && data[p..] == t.sign + (t.prefix + (t.digits + t.rest))
            && data == t.spaces + (t.sign + (t.prefix + (t.digits + t.rest)))
  {
    hide DigitValue;
    SplitFrom(data, start, start + n);
    SplitFrom(data, q, start);
    SplitFrom(data, p, q);
    SplitFrom(data, 0, p);
    assert data[0..p] == data[..p];
  }

  lemma SplitFrom(data: seq<Byte>, i: nat, j: nat)
    requires i <= j <= |data|
    ensures data[i..] == data[i..j] + data[j..]
    ensures i == 0 ==> data[i..] == data
  {
  }

  /** The characters of a run are digits, and the one after it is not. */
  lemma {:induction false} RunFacts(data: seq<Byte>, i: nat, b: nat)
    requires i <= |data| && b <= 36
    ensures var n := RunLength(data, i, b);
            && i + n <= |data| && (forall k :: i <= k < i + n ==> DigitValue(data[k]) < b)
            && (i + n < |data| ==> DigitValue(data[i + n]) >= b)
    decreases |data| - i
  {
    hide DigitValue;
    if i == |data| || DigitValue(data[i]) >= b {
    } else {
      RunFacts(data, i + 1, b);
    }
  }

  /** What the scan finds before the digits. */
  lemma ScanFacts(data: seq<Byte>, base: nat, p: nat, q: nat)
    requires p == SpacesFrom(data, 0) && q == if At(data, p) == 45 || At(data, p) == 43 then p + 1 else p
    ensures var m := Scan(data, base);
            && p <= q <= |data| && (forall i :: 0 <= i < p ==> IsSpace(data[i]))
            && m.prefixed == PrefixedAt(data, base, q) && m.start == (if m.prefixed then q + 2 else q)
            && m.base == (if m.prefixed then 16 else if base != 0 then base else if At(data, q) == 48 then 8 else 10)
  {
    hide SpacesFrom, IsSpace, ToUpper, PrefixedAt;
    SpacesAre(data, 0);
    PrefixTest(data, base, q);
  }

  lemma DigitsAreNumeral(data: seq<Byte>, base: nat, p: nat, q: nat)
    requires (base == 0 || 2 <= base <= 36) && p == SpacesFrom(data, 0)
    requires q == if At(data, p) == 45 || At(data, p) == 43 then p + 1 else p
    requires var m := Scan(data, base); m.start <= |data| && 2 <= m.base <= 36 && RunLength(data, m.start, m.base) > 0
    ensures exists t :: Reads(data, base, t)
  {
    hide SpacesFrom, IsSpace, RunLength, Scan, DigitValue, HexAhead, PrefixedAt, HexPrefix, Reads;
    var m := Scan(data, base);
    var n := RunLength(data, m.start, m.base);
    ScanFacts(data, base, p, q);
    PrefixBounds(data, base, q);
    RunFacts(data, m.start, m.base);
    HexAheadMeans(data, base, q);
    CutReads(data, base, p, q, m.start, n);
  }

  lemma ZeroIsNumeral(data: seq<Byte>, base: nat, p: nat, q: nat)
    requires (base == 0 || 2 <= base <= 36) && p == SpacesFrom(data, 0)
    requires q == if At(data, p) == 45 || At(data, p) == 43 then p + 1 else p
    requires Scan(data, base).prefixed && RunLength(data, q + 2, 16) == 0
    ensures exists t :: Reads(data, base, t)
  {
    hide SpacesFrom, IsSpace, RunLength, Scan, DigitValue, HexAhead, PrefixedAt, HexPrefix, Reads, ToUpper;
    ScanFacts(data, base, p, q);
    PrefixBounds(data, base, q);
    RunFacts(data, q + 2, 16);
    HexAheadMeans(data, base, q);
    CharacterClasses(data[q + 1]);
    CharacterClasses(data[q]);
    CutReads(data, base, p, q, q, 1);
  }

  lemma PrefixBounds(data: seq<Byte>, base: nat, q: nat)
    ensures PrefixedAt(data, base, q) ==>
              && q + 2 <= |data| && HexPrefix(data[q..q + 2]) && (base == 0 || base == 16)
              && data[q] == 48 && ToUpper(data[q + 1]) == 88
  {
    PrefixTest(data, base, q);
    hide ToUpper;
  }

  lemma HexAheadMeans(data: seq<Byte>, base: nat, q: nat)
    requires q <= |data|
    ensures HexAhead(data[q..], base) <==>
              PrefixedAt(data, base, q) && q + 2 < |data| && DigitValue(data[q + 2]) < 16
  {
    hide DigitIn, DigitValue, HexPrefix;
    if q + 2 < |data| {
      assert data[q..][..2] == data[q..q + 2] && data[q..][2] == data[q + 2];
      DigitInMeans(data[q + 2], 16);
    }
  }

  /** A text without a numeral means zero, and nothing of it is used. */
  lemma MeaningOfOther(data: seq<Byte>, base: nat)
    requires forall t :: !Reads(data, base, t)
    ensures Meaning(data, base).magnitude == 0 && Meaning(data, base).end == 0
  {
    hide Reads, SpacesFrom, RunLength, Value, Scan, PrefixedAt;
    if Meaning(data, base).end > 0 {
      var p := SpacesFrom(data, 0);
      var q, m := if At(data, p) == 45 || At(data, p) == 43 then p + 1 else p, Scan(data, base);
      ScanFacts(data, base, p, q);
      PrefixBounds(data, base, q);
      if RunLength(data, m.start, m.base) > 0 {
        DigitsAreNumeral(data, base, p, q);
      } else {
        ZeroIsNumeral(data, base, p, q);
      }
    }
  }

  // ----- what the digits mean

  /** Writing v in base b with n digits, most significant first. */
  function Numerals(v: nat, b: nat, n: nat): (r: seq<Byte>)
    requires 2 <= b <= 36
    ensures |r| == n
  {
    if n == 0 then [] else Numerals(v / b, b, n - 1) + [DigitChar(v % b)]
  }

  function DigitChar(d: nat): (c: Byte)
    requires d < 36
    ensures DigitValue(c) == d
  {
    if d < 10 then 48 + d else 97 + d - 10
  }

  function Power(b: nat, n: nat): nat { if n == 0 then 1 else b * Power(b, n - 1) }

  /** Reading back a written number gives the number, for any base, width and surrounding text. */
  lemma {:induction false} ValueOfNumerals(v: nat, b: nat, n: nat, data: seq<Byte>, i: nat)
    requires 2 <= b <= 36 && v < Power(b, n) && i + n <= |data| && data[i..i + n] == Numerals(v, b, n)
    ensures Value(data, i, n, b) == v
    ensures RunLength(data, i, b) >= n
    decreases n
  {
    hide DigitValue, RunLength, Value, Horner, Power, Numerals;
    if n == 0 {
      NoValue(data, i, b);
      NoPower(b, v);
    } else {
      NumeralsStep(v, b, n);
      var text, q := data[i..i + n], v / b;
      assert text[..n - 1] == Numerals(q, b, n - 1) && text[n - 1] == DigitChar(v % b);
      assert data[i..i + n - 1] == text[..n - 1] && data[i + n - 1] == text[n - 1];
      ValueOfNumerals(q, b, n - 1, data, i);
      RunExtends(data, i, b, n - 1);
      ValueStep(data, i, n - 1, b);
      HornerQuotient(v, b);
    }
  }

  lemma NoPower(b: nat, v: nat)
    requires v < Power(b, 0)
    ensures v == 0
  {
  }

  lemma NumeralsStep(v: nat, b: nat, n: nat)
    requires 2 <= b <= 36 && v < Power(b, n) && n > 0
    ensures v / b < Power(b, n - 1) && v % b < b
    ensures Numerals(v, b, n) == Numerals(v / b, b, n - 1) + [DigitChar(v % b)]
  {
    QuotientBound(v, b, Power(b, n - 1));
  }

  lemma HornerQuotient(v: nat, b: nat)
    requires b > 0
    ensures Horner(v / b, b, v % b) == v
  {
  }

  lemma QuotientBound(v: nat, b: nat, p: nat)
    requires b > 0 && v < b * p
    ensures v / b < p
  {
    assert v == b * (v / b) + v % b;
    Multiples(v / b - p, b);
    assert (v / b - p) * b == b * (v / b) - b * p;
  }

  lemma {:induction false} RunExtends(data: seq<Byte>, i: nat, b: nat, n: nat)
    requires b <= 36 && i + n < |data| && RunLength(data, i, b) >= n && DigitValue(data[i + n]) < b
    ensures RunLength(data, i, b) >= n + 1
    decreases n
  {
    hide DigitValue;
    if n == 0 {
    } else {
      RunExtends(data, i + 1, b, n - 1);
    }
  }

  /** The values of those digits. */
  function NumeralValues(v: nat, b: nat, n: nat): (r: seq<int>)
    requires 2 <= b
    ensures |r| == n
  {
    if n == 0 then [] else NumeralValues(v / b, b, n - 1) + [v % b]
  }

  lemma {:induction false} NumeralsSpell(v: nat, b: nat, n: nat)
    requires 2 <= b <= 36 && v < Power(b, n)
    ensures Spelled(NumeralValues(v, b, n), b) == v
  {
    hide DigitValue, Power, DigitChar, Spelled, Numerals, Horner;
    if n == 0 {
      NoPower(b, v);
      SpelledSnoc([], 0, b);
    } else {
      NumeralsStep(v, b, n);
      NumeralsSpell(v / b, b, n - 1);
      SpelledSnoc(NumeralValues(v / b, b, n - 1), v % b, b);
      HornerQuotient(v, b);
    }
  }

  lemma {:induction false} NumeralsAreDigits(v: nat, b: nat, n: nat)
    requires 2 <= b <= 36
    ensures forall i :: 0 <= i < n ==>
              0 <= NumeralValues(v, b, n)[i] < b && IsDigit(Numerals(v, b, n)[i], NumeralValues(v, b, n)[i])
  {
    hide IsDigit, DigitValue, DigitChar;
    if n == 0 {
    } else {
      NumeralsAreDigits(v / b, b, n - 1);
      DigitMeans(DigitChar(v % b), v % b);
    }
  }

  lemma SpelledSnoc(ds: seq<int>, d: int, b: nat)
    ensures Spelled([], b) == 0
    ensures Spelled(ds, b) >= 0 && d >= 0 ==> Spelled(ds + [d], b) == Horner(Spelled(ds, b), b, d)
  {
    assert (ds + [d])[..|ds|] == ds;
  }

  /** A number written after any whitespace, sign and prefix of its base is read back. */
  lemma WrittenNumber(data: seq<Byte>, base: nat, t: Parts, v: nat, n: nat)
    requires (base == 0 || 2 <= base <= 36) && n > 0 && v < Power(BaseOf(base, t), n)
    requires data == t.spaces + (t.sign + (t.prefix + (t.digits + t.rest)))
    requires forall i :: 0 <= i < |t.spaces| ==> t.spaces[i] in WHITESPACE
    requires t.sign == [] || t.sign == MINUS || t.sign == PLUS
    requires if HexAhead(t.prefix + (t.digits + t.rest), base) then HexPrefix(t.prefix) else t.prefix == []
    requires t.digits == Numerals(v, BaseOf(base, t), n) && t.values == NumeralValues(v, BaseOf(base, t), n)
    requires t.rest != [] ==> !DigitIn(t.rest[0], BaseOf(base, t))
    ensures Reads(data, base, t)
    ensures var m := Meaning(data, base);
            m.negative == (t.sign == MINUS) && m.magnitude == v && m.end == |data| - |t.rest|
  {
    assert Reads(data, base, t) by {
      hide HexAhead, HexPrefix, IsDigit, DigitIn, Numerals, NumeralValues, Power;
      NumeralsAreDigits(v, BaseOf(base, t), n);
    }
    hide *;
    MeaningOfText(data, base, t);
    NumeralsSpell(v, BaseOf(base, t), n);
  }
}
