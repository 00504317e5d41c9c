/** Whole runs: items written one after another, from any bit offset, read back as the same items. */
module BitBufferStream {
  import opened Words
  import opened BitSeq
  import opened BitCodes
  import R = BitBufferReader
  import opened BitBufferWriter

  /** How many bits of an item's code a writer with that much room writes: all if they fit; otherwise the
  whole bytes that fit, for the codes that are written byte by byte, and none of the others. */
  function Fitting(x: Item, room: nat): (k: nat)
    requires ValidItem(x)
    ensures k <= |EncItem(x)| && k <= room
  {
    if |EncItem(x)| <= room then |EncItem(x)| else if x.Leb128? || x.Text? then 8 * (room / 8) else 0
  }

  /** The same for items written one after another, up to the first that does not fit. */
  function AllFitting(xs: seq<Item>, room: nat): nat
    requires ValidItems(xs)
  {
    if xs == [] then 0
    else if |EncItem(xs[0])| > room then Fitting(xs[0], room)
    else |EncItem(xs[0])| + AllFitting(xs[1..], room - |EncItem(xs[0])|)
  }

  /** Calls the writing method that belongs to an item. */
  method WriteItem(w: BitBufferWriter, x: Item) returns (ok: bool)
    requires w.Valid() && ValidItem(x)
    modifies w, w.buf
    ensures w.Valid() && ok == (|EncItem(x)| <= old(w.RemainingBitCount()))
    ensures var k := Fitting(x, old(w.RemainingBitCount()));
            w.Appended(old(w.Stream()), old(w.Position()), EncItem(x)[..k], true)
  {
    hide EncItem, ValidItem, Splice, BufBits, BytesThatFit;
    ghost var base, start, code := w.Stream(), w.Position(), EncItem(x);
    assert code[..|code|] == code && code[..0] == [];
    SpliceNothing(base, start);
    if x.Leb128? || x.Text? {
      ghost var data := DataOf(x);
      FittingBytes(base, start, data);
      CodeOfData(x);
      ok := WriteByBytes(w, x);
    } else {
      ok := WriteAtOnce(w, x);
    }
  }

  /** The bytes of an item that is written byte by byte. */
  function DataOf(x: Item): seq<Byte>
    requires x.Leb128? || x.Text?
  {
    if x.Leb128? then LebBytes(x.v) else x.text
  }

  lemma CodeOfData(x: Item)
    requires ValidItem(x) && (x.Leb128? || x.Text?)
    ensures EncItem(x) == BufBits(DataOf(x))
  {
    hide BufBits;
  }

  method WriteByBytes(w: BitBufferWriter, x: Item) returns (ok: bool)
    requires w.Valid() && ValidItem(x) && (x.Leb128? || x.Text?)
    modifies w, w.buf
    ensures w.Valid() && w.AppendedBytes(old(w.Stream()), old(w.Position()), DataOf(x), ok)
  {
    hide BufBits, Splice, BytesThatFit;
    match x
    case Leb128(v) => ok := w.WriteLeb128(v);
    case Text(text) => ok := w.WriteString(text);
  }

  method WriteAtOnce(w: BitBufferWriter, x: Item) returns (ok: bool)
    requires w.Valid() && ValidItem(x) && !x.Leb128? && !x.Text?
    modifies w, w.buf
    ensures w.Valid() && w.Appended(old(w.Stream()), old(w.Position()), EncItem(x), ok)
  {
    hide BufBits, Splice, ToBits;
    match x
    case Fixed(v, n) =>
      WordRange(v, n);
      ok := w.WriteBits(v, n);
    case NonSymmetric(v, num) => ok := w.WriteNonSymmetric(v, num);
    case Golomb(v) => ok := w.WriteExponentialGolomb(v);
    case SignedGolomb(i) => ok := w.WriteSignedExponentialGolomb(i);
  }

  /** The bytes that fit are a prefix of the code. */
  lemma FittingBytes(base: Bits, start: nat, data: seq<Byte>)
    requires start <= |base|
    ensures var k := BytesThatFit(base, start, data);
            && BufBits(data[..k]) == BufBits(data)[..8 * k]
            && 8 * k == (if 8 * |data| <= |base| - start then 8 * |data| else 8 * ((|base| - start) / 8))
            && (k == |data| <==> 8 * |data| <= |base| - start)
  {
    hide BufBits;
    var k := BytesThatFit(base, start, data);
    BufBitsAppend(data[..k], data[k..]);
    assert data[..k] + data[k..] == data;
  }

  lemma WordRange(v: nat, n: nat)
    requires n <= 64 && v < Pow2(n)
    ensures v <= UINT64_MAX
  {
    Pow2Mono(n, 64);
    Pow2Values();
  }

  /** Writes items until one does not fit. Whatever happens, the stream changes only by the bits that fitted. */
  method WriteItems(w: BitBufferWriter, xs: seq<Item>) returns (ok: bool)
    requires w.Valid() && ValidItems(xs)
    modifies w, w.buf
    ensures w.Valid() && ok == (|EncItems(xs)| <= old(w.RemainingBitCount()))
    ensures var k := AllFitting(xs, old(w.RemainingBitCount()));
            k <= |EncItems(xs)| && w.Appended(old(w.Stream()), old(w.Position()), EncItems(xs)[..k], true)
    ensures ok ==> w.Appended(old(w.Stream()), old(w.Position()), EncItems(xs), true)
  {
    hide EncItem, ValidItem, Splice, BufBits, Fitting, AllFitting;
    ghost var base, start, room := w.Stream(), w.Position(), w.RemainingBitCount();
    ok := true;
    EncItemsTake(xs, 0);
    assert xs[..0] == [];
    SpliceNothing(base, start);
    for i := 0 to |xs|
      invariant w.Valid() && ok
      invariant w.Appended(base, start, EncItems(xs[..i]), true)
    {
      EncItemsTake(xs, i);
      ghost var left := w.RemainingBitCount();
      ghost var k := Fitting(xs[i], left);
      ok := WriteItem(w, xs[i]);
      SpliceSplice(base, start, EncItems(xs[..i]), EncItem(xs[i])[..k]);
      if !ok {
        StoppedAt(xs, i, room);
        return;
      }
      AllOfIt(xs[i], left);
    }
    assert xs[..|xs|] == xs;
    EverythingFits(xs, room);
  }

  lemma AllOfIt(x: Item, room: nat)
    requires ValidItem(x) && |EncItem(x)| <= room
    ensures EncItem(x)[..Fitting(x, room)] == EncItem(x)
  {
    hide EncItem;
  }

  lemma {:induction false} EverythingFits(xs: seq<Item>, room: nat)
    requires ValidItems(xs) && |EncItems(xs)| <= room
    ensures AllFitting(xs, room) == |EncItems(xs)| && EncItems(xs)[..AllFitting(xs, room)] == EncItems(xs)
  {
    hide EncItem, ValidItem, Fitting;
    if xs == [] {
    } else {
      EverythingFits(xs[1..], room - |EncItem(xs[0])|);
    }
  }

  /** Item number i is the first that does not fit. */
  lemma {:induction false} StoppedAt(xs: seq<Item>, i: nat, room: nat)
    requires ValidItems(xs) && i < |xs| && |EncItems(xs[..i])| <= room < |EncItems(xs[..i])| + |EncItem(xs[i])|
    ensures room < |EncItems(xs)|
    ensures var done, k := EncItems(xs[..i]), Fitting(xs[i], room - |EncItems(xs[..i])|);
            && AllFitting(xs, room) == |done| + k <= |EncItems(xs)|
            && EncItems(xs)[..|done| + k] == done + EncItem(xs[i])[..k]
    decreases i
  {
    hide EncItem, ValidItem, Fitting, AllFitting, EncItems;
    var head := EncItem(xs[0]);
    EncItemsUnfold(xs, room);
    if i == 0 {
      assert xs[..0] == [];
      EncItemsUnfold([], room);
    } else {
      var tail := xs[1..];
      assert xs[..i][1..] == tail[..i - 1] && xs[..i][0] == xs[0] && tail[i - 1] == xs[i];
      EncItemsUnfold(xs[..i], room);
      StoppedAt(tail, i - 1, room - |head|);
      var done, k := EncItems(tail[..i - 1]), Fitting(xs[i], room - |EncItems(xs[..i])|);
      assert (head + EncItems(tail))[..|head| + (|done| + k)] == head + EncItems(tail)[..|done| + k];
    }
  }

  lemma EncItemsUnfold(xs: seq<Item>, room: nat)
    requires ValidItems(xs)
    ensures xs == [] ==> EncItems(xs) == []
    ensures xs != [] ==> EncItems(xs) == EncItem(xs[0]) + EncItems(xs[1..])
    ensures xs != [] && |EncItem(xs[0])| > room ==> AllFitting(xs, room) == Fitting(xs[0], room)
    ensures xs != [] && |EncItem(xs[0])| <= room ==>
              AllFitting(xs, room) == |EncItem(xs[0])| + AllFitting(xs[1..], room - |EncItem(xs[0])|)
  {
    hide EncItem, ValidItem, Fitting;
  }

  lemma SpliceNothing(s: Bits, q: nat)
    requires q <= |s|
    ensures Splice(s, q, []) == s
  {
  }

  lemma EncItemsTake(xs: seq<Item>, i: nat)
    requires ValidItems(xs)
    ensures EncItems([]) == []
    ensures i < |xs| ==> EncItems(xs[..i + 1]) == EncItems(xs[..i]) + EncItem(xs[i])
  {
    hide EncItem, ValidItem;
    if i < |xs| {
      EncItemsAppend(xs[..i], [xs[i]]);
      EncItemsOne(xs[i]);
      assert xs[..i + 1] == xs[..i] + [xs[i]];
    }
  }

  lemma EncItemsOne(x: Item)
    requires ValidItem(x)
    ensures EncItems([x]) == EncItem(x)
  {
    hide EncItem, ValidItem;
    assert [x][1..] == [];
  }

  lemma {:induction false} EncItemsAppend(xs: seq<Item>, ys: seq<Item>)
    requires ValidItems(xs) && ValidItems(ys)
    ensures EncItems(xs + ys) == EncItems(xs) + EncItems(ys)
  {
    hide EncItem, ValidItem;
    if xs == [] {
      assert xs + ys == ys;
    } else {
      EncItemsAppend(xs[1..], ys);
      assert (xs + ys)[1..] == xs[1..] + ys;
    }
  }

  /** n single-bit reads, folded most significant first, do what ReadBits(n) is proved to do. */
  method ReadBitByBit(r: R.BitBufferReader, n: nat) returns (v: nat)
    requires r.Valid() && r.Ok()
    modifies r
    ensures r.Valid() && r.Took(ParseFixed(old(r.Rest()), n), old(r.Rest()), v)
  {
    hide BufBits, Num;
    ghost var before := r.Rest();
    v := 0;
    NumStep(before, 0);
    for i := 0 to n
      invariant r.Valid() && before == BufBits(r.bytes)[8 * |r.bytes| - |before|..] && |before| <= 8 * |r.bytes|
      invariant r.Ok() ==> i + r.remaining == |before| && v == Num(before[..i])
      invariant !r.Ok() ==> r.remaining == -1 && |before| < n
    {
      if r.Ok() {
        r.RestIsSuffix(before, i);
        NumStep(before, i);
      }
      var bit := r.ReadBit();
      v := 2 * v + bit;
    }
  }

  lemma NumStep(s: Bits, i: nat)
    requires i <= |s|
    ensures Num(s[..0]) == 0
    ensures i < |s| ==> Num(s[..i + 1]) == 2 * Num(s[..i]) + if s[i] then 1 else 0
  {
    if i < |s| { assert s[..i + 1][..i] == s[..i]; }
  }

  /** Calls the reading method that belongs to a shape. */
  method ReadItem(r: R.BitBufferReader, h: Shape) returns (x: Item)
    requires r.Valid() && r.Ok() && ValidShape(h)
    modifies r
    ensures r.Valid() && r.Took(ParseItem(h, old(r.Rest())), old(r.Rest()), x)
  {
    hide BufBits, ParseFixed, ParseNonSymmetric, ParseGolomb, ParseSigned, ParseLeb, ParseText;
    match h
    case FixedShape(n) =>
      var v := r.ReadBits(n);
      x := Fixed(v, n);
    case NonSymmetricShape(num) =>
      var v := r.ReadNonSymmetric(num);
      x := NonSymmetric(v, num);
    case GolombShape =>
      var v := r.ReadExponentialGolomb();
      x := Golomb(v);
    case SignedShape =>
      var v := r.ReadSignedExponentialGolomb();
      x := SignedGolomb(v);
    case LebShape =>
      var v := r.ReadLeb128();
      x := Leb128(v);
    case TextShape(len) =>
      var v := r.ReadString(len);
      x := Text(v);
  }

  /** Reads one item of each shape, as long as the reader is Ok. */
  method ReadItems(r: R.BitBufferReader, hs: seq<Shape>) returns (xs: seq<Item>)
    requires r.Valid() && r.Ok() && ValidShapes(hs)
    modifies r
    ensures r.Valid() && r.Took(ParseItems(hs, old(r.Rest())), old(r.Rest()), xs)
    decreases |hs|
  {
    hide BufBits, ParseItem, ValidShape;
    xs := [];
    if hs != [] {
      ghost var before := r.Rest();
      var x := ReadItem(r, hs[0]);
      if r.Ok() {
        r.RestIsSuffix(before, |before| - r.remaining);
        var rest := ReadItems(r, hs[1..]);
        xs := [x] + rest;
      }
    }
  }

  /** A fresh reader that skips to `start` reads back a stream encoded there. */
  method ReadBack(bytes: seq<Byte>, start: nat, ghost items: seq<Item>, shapes: seq<Shape>, ghost tail: Bits)
    returns (back: seq<Item>, ok: bool, end: int)
    requires 8 * |bytes| <= 0x7FFF_FFFF && start <= 8 * |bytes|
    requires ValidItems(items) && shapes == Shapes(items)
    requires BufBits(bytes)[start..] == EncItems(items) + tail
    ensures back == items && ok && end == start + |EncItems(items)|
  {
    hide BufBits, EncItems, ParseItems, ValidItem, ShapeOf, Shapes;
    var r := new R.BitBufferReader(bytes);
    r.ConsumeBits(start);
    r.RestIsSuffix(BufBits(bytes), start);
    StreamRoundTrip(items, tail);
    back := ReadItems(r, shapes);
    ok, end := r.Ok(), 8 * |bytes| - r.remaining;
  }

  /** The round trip over whole runs. The items are written into buf from bit offset `start` on; when they
      all fit, a fresh reader that skips to the same offset reads exactly those items and ends, without a
      failure, at the writer's position. No bit outside the written range has changed. */
  method WriteThenRead(buf: array<Byte>, start: nat, items: seq<Item>)
    returns (ok: bool, back: seq<Item>, readerOk: bool, writerEnd: nat, readerEnd: int)
    requires ValidItems(items) && start <= 8 * buf.Length <= 0x7FFF_FFFF
    modifies buf
    ensures ok <==> start + |EncItems(items)| <= 8 * buf.Length
    ensures ok ==> back == items && readerOk && readerEnd == writerEnd == start + |EncItems(items)|
    ensures ok ==> BufBits(buf[..]) == Splice(old(BufBits(buf[..])), start, EncItems(items))
  {
    hide BufBits, EncItems, Splice, ValidItem, Shapes;
    var w := new BitBufferWriter(buf);
    var there := w.Seek(start / 8, start % 8);
    ok := WriteItems(w, items);
    writerEnd := 8 * w.byteOffset + w.bitOffset;
    back, readerOk, readerEnd := [], true, start;
    if ok {
      SplicedAt(old(BufBits(buf[..])), start, EncItems(items));
      back, readerOk, readerEnd :=
        ReadBack(buf[..], start, items, Shapes(items), BufBits(buf[..])[start + |EncItems(items)|..]);
    }
  }

  lemma SplicedAt(s: Bits, q: nat, w: Bits)
    requires q + |w| <= |s|
    ensures Splice(s, q, w)[q..] == w + Splice(s, q, w)[q + |w|..]
  {
  }
}
