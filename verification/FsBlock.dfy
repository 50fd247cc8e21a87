/** The contents of disk blocks (kernel/fs.h, kernel/fs.c): bitmap bits and 32-bit words
  as bytes, least significant byte first.
 */
module FsBlock {
  import opened Arith

  const BSIZE := 1024
  const BPB := 8192          // BSIZE * 8
  const NWORDS := 256        // BSIZE / sizeof(uint)

  type Byte = x: int | 0 <= x < 256

  type Block = seq<Byte>

  function Zeroed(): (d: Block)
    ensures |d| == BSIZE && forall k :: 0 <= k < BSIZE ==> d[k] == 0
  {
    seq(BSIZE, k => 0)
  }

  // ---------------------------------------------------------------- bits

  /** 1 << k, for k < 8 */
  function Mask(k: int): int
    requires 0 <= k < 8
  {
    if k == 0 then 1 else if k == 1 then 2 else if k == 2 then 4 else if k == 3 then 8
    else if k == 4 then 16 else if k == 5 then 32 else if k == 6 then 64 else 128
  }

  /** (x & (1 << k)) != 0 */
  predicate Has(x: Byte, k: int)
    requires 0 <= k < 8
  {
    x / Mask(k) % 2 == 1
  }

  /** x | (1 << k), for a clear bit k */
  function With(x: Byte, k: int): (y: Byte)
    requires 0 <= k < 8 && !Has(x, k)
  {
    x + Mask(k)
  }

  /** x & ~(1 << k), for a set bit k */
  function Minus(x: Byte, k: int): (y: Byte)
    requires 0 <= k < 8 && Has(x, k)
  {
    x - Mask(k)
  }

  /** The byte with the given bits. */
  function Value(c: seq<int>): int
    requires |c| == 8
  {
    c[0] + 2 * c[1] + 4 * c[2] + 8 * c[3] + 16 * c[4] + 32 * c[5] + 64 * c[6] + 128 * c[7]
  }

  function Bits(x: int): (c: seq<int>)
    ensures |c| == 8
  {
    [x % 2, x / 2 % 2, x / 4 % 2, x / 8 % 2, x / 16 % 2, x / 32 % 2, x / 64 % 2, x / 128 % 2]
  }

  lemma BitsOfValue(c: seq<int>)
    requires |c| == 8 && forall k :: 0 <= k < 8 ==> 0 <= c[k] <= 1
    ensures Bits(Value(c)) == c
  {
    var x := Value(c);
    assert x / 2 == c[1] + 2 * c[2] + 4 * c[3] + 8 * c[4] + 16 * c[5] + 32 * c[6] + 64 * c[7];
    assert x / 4 == c[2] + 2 * c[3] + 4 * c[4] + 8 * c[5] + 16 * c[6] + 32 * c[7];
    assert x / 8 == c[3] + 2 * c[4] + 4 * c[5] + 8 * c[6] + 16 * c[7];
    assert x / 16 == c[4] + 2 * c[5] + 4 * c[6] + 8 * c[7];
    assert x / 32 == c[5] + 2 * c[6] + 4 * c[7];
    assert x / 64 == c[6] + 2 * c[7];
    assert x / 128 == c[7];
  }

  lemma ValueOfBits(x: Byte)
    ensures Value(Bits(x)) == x
  {
    Halve(x, 1);
    Halve(x, 2);
    Halve(x, 4);
    Halve(x, 8);
    Halve(x, 16);
    Halve(x, 32);
    Halve(x, 64);
  }

  lemma Halve(x: nat, m: nat)
    requires m > 0
    ensures x / m == 2 * (x / (2 * m)) + x / m % 2
  {
    HalfDiv(x, m);
  }

  lemma HasBit(x: Byte, k: int)
    requires 0 <= k < 8
    ensures Has(x, k) <==> Bits(x)[k] == 1
    ensures 0 <= Bits(x)[k] <= 1
  {
  }

  lemma ChangeBit(c: seq<int>, k: int, v: int)
    requires |c| == 8 && 0 <= k < 8
    ensures Value(c[k := v]) == Value(c) + Mask(k) * (v - c[k])
  {
  }

  lemma WithBit(x: Byte, k: int, j: int)
    requires 0 <= k < 8 && 0 <= j < 8 && !Has(x, k)
    ensures Has(With(x, k), j) == (j == k || Has(x, j))
  {
    hide Value, Bits, Has, Mask;
    forall i | 0 <= i < 8 ensures 0 <= Bits(x)[i] <= 1 { HasBit(x, i); }
    ValueOfBits(x);
    ChangeBit(Bits(x), k, 1);
    BitsOfValue(Bits(x)[k := 1]);
    HasBit(x, k);
    HasBit(x, j);
    HasBit(With(x, k), j);
  }

  lemma MinusBit(x: Byte, k: int, j: int)
    requires 0 <= k < 8 && 0 <= j < 8 && Has(x, k)
    ensures Has(Minus(x, k), j) == (j != k && Has(x, j))
  {
    hide Value, Bits, Has, Mask;
    forall i | 0 <= i < 8 ensures 0 <= Bits(x)[i] <= 1 { HasBit(x, i); }
    ValueOfBits(x);
    ChangeBit(Bits(x), k, 0);
    BitsOfValue(Bits(x)[k := 0]);
    HasBit(x, k);
    HasBit(x, j);
    HasBit(Minus(x, k), j);
  }

  predicate BitOf(d: Block, bi: int)
    requires |d| == BSIZE && 0 <= bi < BPB
  {
    Has(d[bi / 8], bi % 8)
  }

  function SetBit(d: Block, bi: int): (d': Block)
    requires |d| == BSIZE && 0 <= bi < BPB && !BitOf(d, bi)
    ensures |d'| == BSIZE && forall bj :: 0 <= bj < BPB ==> BitOf(d', bj) == (bj == bi || BitOf(d, bj))
  {
    var d' := d[bi / 8 := With(d[bi / 8], bi % 8)];
    assert forall bj :: 0 <= bj < BPB ==> BitOf(d', bj) == (bj == bi || BitOf(d, bj)) by {
      hide With, Has;
      forall bj | 0 <= bj < BPB
        ensures BitOf(d', bj) == (bj == bi || BitOf(d, bj))
      {
        WithBit(d[bi / 8], bi % 8, bj % 8);
      }
    }
    d'
  }

  function ClearBit(d: Block, bi: int): (d': Block)
    requires |d| == BSIZE && 0 <= bi < BPB && BitOf(d, bi)
    ensures |d'| == BSIZE && forall bj :: 0 <= bj < BPB ==> BitOf(d', bj) == (bj != bi && BitOf(d, bj))
  {
    var d' := d[bi / 8 := Minus(d[bi / 8], bi % 8)];
    assert forall bj :: 0 <= bj < BPB ==> BitOf(d', bj) == (bj != bi && BitOf(d, bj)) by {
      hide Minus, Has;
      forall bj | 0 <= bj < BPB
        ensures BitOf(d', bj) == (bj != bi && BitOf(d, bj))
      {
        MinusBit(d[bi / 8], bi % 8, bj % 8);
      }
    }
    d'
  }

  // ---------------------------------------------------------------- words

  /** ((uint*)d)[i] */
  function Word(d: Block, i: int): (w: int)
    requires |d| == BSIZE && 0 <= i < NWORDS
  {
    var b0: int, b1: int, b2: int, b3: int := d[4 * i], d[4 * i + 1], d[4 * i + 2], d[4 * i + 3];
    b0 + 0x100 * b1 + 0x1_0000 * b2 + 0x100_0000 * b3
  }

  /** ((uint*)d)[i] = w */
  function SetWord(d: Block, i: int, w: int): (d': Block)
    requires |d| == BSIZE && 0 <= i < NWORDS && 0 <= w < 0x1_0000_0000
    ensures |d'| == BSIZE
  {
    d[4 * i := w % 0x100][4 * i + 1 := w / 0x100 % 0x100][4 * i + 2 := w / 0x1_0000 % 0x100][4 * i
            + 3 := w / 0x100_0000]
  }

  lemma WordOfSet(d: Block, i: int, w: int, j: int)
    requires |d| == BSIZE && 0 <= i < NWORDS && 0 <= w < 0x1_0000_0000 && 0 <= j < NWORDS
    ensures Word(SetWord(d, i, w), j) == if j == i then w else Word(d, j)
  {
    var d' := SetWord(d, i, w);
    if j == i {
      FourBytes(w);
    } else {
      assert forall k :: 0 <= k < BSIZE && (k < 4 * i || 4 * i + 3 < k) ==> d'[k] == d[k];
    }
  }

  lemma FourBytes(w: int)
    ensures w == w % 0x100 + 0x100 * (w / 0x100 % 0x100) + 0x1_0000 * (w / 0x1_0000 % 0x100)
            + 0x100_0000 * (w / 0x100_0000)
  {
    assert w / 0x100 / 0x100 == w / 0x1_0000;
    assert w / 0x1_0000 / 0x100 == w / 0x100_0000;
  }

  lemma ZeroWord(i: int)
    requires 0 <= i < NWORDS
    ensures Word(Zeroed(), i) == 0
  {
  }

  // ---------------------------------------------------------------- blocks made of words or bits

  /** Byte k of the word w. */
  function ByteOf(w: int, k: int): (b: Byte)
    requires 0 <= w < 0x1_0000_0000 && 0 <= k < 4
  {
    if k == 0 then w % 0x100 else if k == 1 then w / 0x100 % 0x100
    else if k == 2 then w / 0x1_0000 % 0x100 else w / 0x100_0000
  }

  /** The block whose i-th word is f(i). */
  function FromWords(f: int -> int): (d: Block)
    requires forall i :: 0 <= f(i) < 0x1_0000_0000
    ensures |d| == BSIZE
  {
    seq<Byte>(BSIZE, k => ByteOf(f(k / 4), k % 4))
  }

  lemma WordOfWords(f: int -> int, i: int)
    requires (forall j :: 0 <= f(j) < 0x1_0000_0000) && 0 <= i < NWORDS
    ensures Word(FromWords(f), i) == f(i)
  {
    FourBytes(f(i));
  }

  /** The byte whose bit k is p(base + k). */
  function BitByte(p: int -> bool, base: int): (b: Byte) {
    ByteRange(seq(8, k => if p(base + k) then 1 else 0));
    Value(seq(8, k => if p(base + k) then 1 else 0))
  }

  lemma ByteRange(c: seq<int>)
    requires |c| == 8 && forall k :: 0 <= k < 8 ==> 0 <= c[k] <= 1
    ensures 0 <= Value(c) < 256
  {
  }

  /** The block whose bit bi is p(bi). */
  function FromBits(p: int -> bool): (d: Block)
    ensures |d| == BSIZE
  {
    seq<Byte>(BSIZE, k => BitByte(p, 8 * k))
  }

  lemma BitOfBits(p: int -> bool, bi: int)
    requires 0 <= bi < BPB
    ensures BitOf(FromBits(p), bi) <==> p(bi)
  {
    hide Has, Bits, Value;
    var base := 8 * (bi / 8);
    var c := seq(8, k => if p(base + k) then 1 else 0);
    ByteRange(c);
    BitsOfValue(c);
    HasBit(Value(c), bi % 8);
    assert base + bi % 8 == bi;
  }

  // ---------------------------------------------------------------- bytes

  /** memmove(d + o, bytes, |bytes|) */
  function Splice(d: Block, o: int, bytes: seq<Byte>): (d': Block)
    requires |d| == BSIZE && 0 <= o && o + |bytes| <= BSIZE
    ensures |d'| == BSIZE
    ensures forall k :: 0 <= k < BSIZE ==> d'[k] == if o <= k < o + |bytes| then bytes[k - o] else d[k]
  {
    d[..o] + bytes + d[o + |bytes|..]
  }
}
