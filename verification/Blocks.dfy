/**
 Disk blocks as the kernel sees them: BSIZE bytes, read and written either as
 bytes, as little-endian 32-bit words (log header, indirect blocks, inodes) or
 as single bits (the free map).  Only the laws stated here are used elsewhere.
 */
module Blocks {
  import opened Basics

  const BSIZE := 512
  const NWORDS := 128          // BSIZE / sizeof(uint)
  const BPB := 4096            // bitmap bits per block, BSIZE*8

  type byte = x: int | 0 <= x < 256
  type uint = x: int | 0 <= x < UINT_LIMIT
  type Block = b: seq<byte> | |b| == BSIZE witness seq(BSIZE, _ => 0)
  type Disk = seq<Block>

  function ZeroBlock(): (b: Block)
  {
    seq(BSIZE, _ => 0)
  }

  // --- 32-bit words ---------------------------------------------------------

  function GetWord(b: Block, i: nat): (w: uint)
    requires i < NWORDS
  {
    var b0: int, b1: int, b2: int, b3: int := b[4*i], b[4*i+1], b[4*i+2], b[4*i+3];
    b0 + 256 * b1 + 65536 * b2 + 16777216 * b3
  }

  function PutWord(b: Block, i: nat, w: uint): (r: Block)
    requires i < NWORDS
  {
    b[4*i := w % 256]
     [4*i+1 := (w / 256) % 256]
     [4*i+2 := (w / 65536) % 256]
     [4*i+3 := w / 16777216]
  }

  lemma WordBytes(w: uint)
    ensures w % 256 + 256 * ((w / 256) % 256) + 65536 * ((w / 65536) % 256) + 16777216 * (w / 16777216) == w
  {
    assert w / 65536 == (w / 256) / 256;
    assert w / 16777216 == (w / 65536) / 256;
  }

  // Reading a word back gives what was put there, and no other word changes.
  lemma WordRoundTrip(b: Block, i: nat, w: uint)
    requires i < NWORDS
    ensures GetWord(PutWord(b, i, w), i) == w
    ensures forall j: nat :: j < NWORDS && j != i ==> GetWord(PutWord(b, i, w), j) == GetWord(b, j)
  {
    WordBytes(w);
  }

  lemma ZeroWords()
    ensures forall j: nat :: j < NWORDS ==> GetWord(ZeroBlock(), j) == 0
  {
  }

  // --- bits -----------------------------------------------------------------

  // Bit k of x, counting from the least significant.
  predicate BitOf(x: nat, k: nat)
  {
    if k == 0 then x % 2 == 1 else BitOf(x / 2, k - 1)
  }

  // x with bit k made v: x | 1<<k, or x & ~(1<<k).
  function WithBit(x: nat, k: nat, v: bool): (r: nat)
  {
    if k == 0 then x - x % 2 + (if v then 1 else 0)
    else 2 * WithBit(x / 2, k - 1, v) + x % 2
  }

  function Pow2(k: nat): (p: nat)
  {
    if k == 0 then 1 else 2 * Pow2(k - 1)
  }

  lemma {:induction false} WithBitLaw(x: nat, k: nat, v: bool, j: nat)
    ensures BitOf(WithBit(x, k, v), j) == if j == k then v else BitOf(x, j)
  {
    if k > 0 && j > 0 {
      WithBitLaw(x / 2, k - 1, v, j - 1);
      assert WithBit(x, k, v) / 2 == WithBit(x / 2, k - 1, v);
    } else if k == 0 && j > 0 {
      assert WithBit(x, k, v) / 2 == x / 2;
    }
  }

  lemma {:induction false} WithBitRange(x: nat, k: nat, v: bool, n: nat)
    requires x < Pow2(n) && k < n
    ensures WithBit(x, k, v) < Pow2(n)
  {
    var p := Pow2(n - 1);
    assert Pow2(n) == 2 * p;
    hide Pow2;
    Halves(x, p);
    if k > 0 {
      WithBitRange(x / 2, k - 1, v, n - 1);
      hide WithBit;
      assert WithBit(x, k, v) == 2 * WithBit(x / 2, k - 1, v) + x % 2 by { WithBitIs(x, k, v); }
    }
  }

  lemma Halves(x: nat, p: nat)
    requires x < 2 * p
    ensures x / 2 < p && x == 2 * (x / 2) + x % 2 && 0 <= x % 2 <= 1
  {
  }

  lemma WithBitIs(x: nat, k: nat, v: bool)
    requires k > 0
    ensures WithBit(x, k, v) == 2 * WithBit(x / 2, k - 1, v) + x % 2
  {
  }

  predicate GetBit(b: Block, bi: nat)
    requires bi < BPB
  {
    BitOf(b[bi / 8], bi % 8)
  }

  // data[bi/8] with bit bi%8 set or cleared
  function PutBit(b: Block, bi: nat, v: bool): (r: Block)
    requires bi < BPB
  {
    assert Pow2(8) == 256 by { assert Pow2(4) == 16; assert Pow2(7) == 128; }
    WithBitRange(b[bi / 8], bi % 8, v, 8);
    b[bi / 8 := WithBit(b[bi / 8], bi % 8, v)]
  }

  // Writing a bit changes that bit and no other.
  lemma BitRoundTrip(b: Block, bi: nat, v: bool)
    requires bi < BPB
    ensures forall j: nat :: j < BPB ==> GetBit(PutBit(b, bi, v), j) == if j == bi then v else GetBit(b, j)
  {
    forall j: nat | j < BPB
      ensures GetBit(PutBit(b, bi, v), j) == if j == bi then v else GetBit(b, j)
    {
      WithBitLaw(b[bi / 8], bi % 8, v, j % 8);
    }
  }
}
