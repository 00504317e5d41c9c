/** Bit strings, most significant bit first: the stream both bit-buffer classes are about. */
module BitSeq {
  import opened Words

  type Bits = seq<bool>
  type Byte = x: int | 0 <= x < 256

  /** The low n bits of x, most significant first. */
  function ToBits(x: nat, n: nat): (s: Bits)
    ensures |s| == n
  {
    seq(n, i requires 0 <= i < n => Bit(x, n - 1 - i))
  }

  /** The number a bit string spells. */
  function Num(s: Bits): nat {
    if s == [] then 0 else 2 * Num(s[..|s| - 1]) + if s[|s| - 1] then 1 else 0
  }

  function Zeros(n: nat): Bits {
    seq(n, _ => false)
  }

  /** The bits of a byte buffer in stream order. */
  function BufBits(b: seq<Byte>): (s: Bits)
    ensures |s| == 8 * |b|
  {
    seq(8 * |b|, k requires 0 <= k < 8 * |b| => Bit(b[k / 8], 7 - k % 8))
  }

  lemma ToBitsSnoc(x: nat, n: nat)
    requires n > 0
    ensures ToBits(x, n) == ToBits(x / 2, n - 1) + [x % 2 == 1]
  {
    var s := ToBits(x / 2, n - 1) + [x % 2 == 1];
    forall i | 0 <= i < n ensures Bit(x, n - 1 - i) == s[i] {
      assert n - 1 - 1 - i == n - 1 - i - 1;
    }
  }

  /** Bit strings of numbers agree when the numbers agree bit by bit. */
  lemma ToBitsEqual(x: nat, n: nat, s: Bits)
    requires |s| == n
    requires forall i :: 0 <= i < n ==> Bit(x, n - 1 - i) == s[i]
    ensures ToBits(x, n) == s
  {
  }

  lemma {:induction false} NumToBits(x: nat, n: nat)
    ensures Num(ToBits(x, n)) == Low(x, n)
  {
    if n == 0 {
    } else {
      NumToBits(x / 2, n - 1);
      ToBitsSnoc(x, n);
      assert ToBits(x, n)[..n - 1] == ToBits(x / 2, n - 1);
    }
  }

  lemma {:induction false} ToBitsNum(s: Bits)
    ensures ToBits(Num(s), |s|) == s
  {
    if s == [] {
    } else {
      ToBitsNum(s[..|s| - 1]);
      ToBitsSnoc(Num(s), |s|);
      assert Num(s) / 2 == Num(s[..|s| - 1]);
    }
  }

  lemma {:induction false} NumBound(s: Bits)
    ensures Num(s) < Pow2(|s|)
  {
    if s == [] {
    } else {
      NumBound(s[..|s| - 1]);
    }
  }

  lemma {:induction false} NumAppend(s: Bits, t: Bits)
    ensures Num(s + t) == Shl(Num(s), |t|) + Num(t)
  {
    if t == [] {
      assert s + t == s;
    } else {
      NumAppend(s, t[..|t| - 1]);
      assert (s + t)[..|s + t| - 1] == s + t[..|t| - 1];
    }
  }

  /** The top m of m + n bits are the bits of x >> n. */
  lemma ToBitsSplit(x: nat, m: nat, n: nat)
    ensures ToBits(x, m + n) == ToBits(Shr(x, n), m) + ToBits(x, n)
  {
    var s := ToBits(Shr(x, n), m) + ToBits(x, n);
    forall i | 0 <= i < m + n ensures Bit(x, m + n - 1 - i) == s[i] {
      if i < m { BitShr(x, n, m - 1 - i); }
    }
  }

  lemma ToBitsShl(x: nat, n: nat, w: nat)
    requires n <= w
    ensures ToBits(Low(Shl(x, n), w), w) == ToBits(x, w - n) + Zeros(n)
  {
    var s := ToBits(x, w - n) + Zeros(n);
    forall i | 0 <= i < w ensures Bit(Low(Shl(x, n), w), w - 1 - i) == s[i] {
      BitLow(Shl(x, n), w, w - 1 - i);
      BitShl(x, n, w - 1 - i);
    }
    ToBitsEqual(Low(Shl(x, n), w), w, s);
  }

  lemma SliceOfSlice<T>(s: seq<T>, a: nat, b: nat, i: nat, j: nat)
    requires a <= b <= |s| && i <= j <= b - a
    ensures s[a..b][i..j] == s[a + i..a + j]
  {
    forall k | 0 <= k < j - i ensures s[a..b][i..j][k] == s[a + i..a + j][k] {
      assert s[a..b][i + k] == s[a + i + k];
    }
  }

  lemma SliceJoin<T>(s: seq<T>, a: nat, b: nat, c: nat)
    requires a <= b <= c <= |s|
    ensures s[a..b] + s[b..c] == s[a..c]
  {
  }

  // ----- byte buffers

  lemma BufBitsAppend(a: seq<Byte>, b: seq<Byte>)
    ensures BufBits(a + b) == BufBits(a) + BufBits(b)
  {
    var s, t := BufBits(a + b), BufBits(a) + BufBits(b);
    forall k | 0 <= k < 8 * |a + b| ensures s[k] == t[k] {
      if k >= 8 * |a| {
        assert (k - 8 * |a|) / 8 == k / 8 - |a| && (k - 8 * |a|) % 8 == k % 8;
      }
    }
  }

  lemma BufBitsByte(b: seq<Byte>, i: nat)
    requires i < |b|
    ensures BufBits(b)[8 * i..8 * i + 8] == ToBits(b[i], 8)
  {
    var s := BufBits(b);
    forall k | 0 <= k < 8 ensures s[8 * i..8 * i + 8][k] == ToBits(b[i], 8)[k] {
      assert (8 * i + k) / 8 == i && (8 * i + k) % 8 == k;
    }
  }

  /** Storing a byte replaces its eight bits and no others. */
  lemma BufBitsUpdate(b: seq<Byte>, i: nat, x: Byte)
    requires i < |b|
    ensures BufBits(b[i := x]) == BufBits(b)[..8 * i] + ToBits(x, 8) + BufBits(b)[8 * i + 8..]
  {
    var s, t := BufBits(b[i := x]), BufBits(b)[..8 * i] + ToBits(x, 8) + BufBits(b)[8 * i + 8..];
    forall k | 0 <= k < 8 * |b| ensures s[k] == t[k] {
      if 8 * i <= k < 8 * i + 8 {
        assert k / 8 == i && k % 8 == k - 8 * i;
      }
    }
  }
}
