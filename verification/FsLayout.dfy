/**
 On-disk layout of the file system (xv6/fs.h) and the free map: which block
 holds bit b, inode i, and what allocating and freeing a block do to the disk.
 */
module FsLayout {
  import opened Basics
  import opened Blocks

  const NDIRECT := 12
  const NINDIRECT := 128            // BSIZE / sizeof(uint)
  const MAXFILE := NDIRECT + NINDIRECT
  const IPB := 8                    // inodes per block

  // nmeta is the number of blocks before the data area (boot, super, log, inodes, bitmap).
  datatype Super = Super(size: nat, ninodes: nat, inodestart: nat, bmapstart: nat, nmeta: nat)

  predicate Layout(sb: Super)
  {
    && 2 <= sb.inodestart
    && sb.inodestart + sb.ninodes / IPB + 1 <= sb.bmapstart
    && sb.bmapstart + sb.size / BPB + 1 <= sb.nmeta
    && sb.nmeta <= sb.size < UINT_LIMIT
  }

  function IBlock(sb: Super, i: nat): (b: nat) { i / IPB + sb.inodestart }
  function BBlock(sb: Super, b: nat): (r: nat) { b / BPB + sb.bmapstart }

  predicate IsBitmap(sb: Super, b: nat) { sb.bmapstart <= b <= sb.bmapstart + sb.size / BPB }

  // Is block b marked in use?
  predicate Bit(sb: Super, d: Disk, b: nat)
    requires Layout(sb) && |d| == sb.size && b < sb.size
  {
    GetBit(d[BBlock(sb, b)], b % BPB)
  }

  // The metadata blocks are marked in use, as mkfs leaves them.
  predicate MetaUsed(sb: Super, d: Disk)
    requires Layout(sb) && |d| == sb.size
  {
    forall c: nat :: c < sb.nmeta ==> Bit(sb, d, c)
  }

  // The free map with bit b made v.
  function MarkBlock(sb: Super, d: Disk, b: nat, v: bool): (r: Disk)
    requires Layout(sb) && |d| == sb.size && b < sb.size
    ensures |r| == |d|
  {
    d[BBlock(sb, b) := PutBit(d[BBlock(sb, b)], b % BPB, v)]
  }

  // balloc's effect: mark b and zero it.
  function Allocated(sb: Super, d: Disk, b: nat): (r: Disk)
    requires Layout(sb) && |d| == sb.size && b < sb.size
    ensures |r| == |d|
  {
    MarkBlock(sb, d, b, true)[b := ZeroBlock()]
  }

  // Marking a block changes its own bit and no other.
  lemma MarkBits(sb: Super, d: Disk, b: nat, v: bool)
    requires Layout(sb) && |d| == sb.size && b < sb.size
    ensures forall c: nat :: c < sb.size ==> Bit(sb, MarkBlock(sb, d, b, v), c) == if c == b then v else Bit(sb, d, c)
  {
    BitRoundTrip(d[BBlock(sb, b)], b % BPB, v);
    forall c: nat | c < sb.size
      ensures Bit(sb, MarkBlock(sb, d, b, v), c) == if c == b then v else Bit(sb, d, c)
    {
      if BBlock(sb, c) == BBlock(sb, b) && c % BPB == b % BPB { assert c == b; }
    }
  }

  // The bits depend only on the bitmap blocks.
  lemma SameBits(sb: Super, d: Disk, e: Disk)
    requires Layout(sb) && |d| == |e| == sb.size
    requires forall c: nat :: c < sb.size && IsBitmap(sb, c) ==> d[c] == e[c]
    ensures forall c: nat :: c < sb.size ==> Bit(sb, d, c) == Bit(sb, e, c)
  {
    assert forall c: nat :: c < sb.size ==> IsBitmap(sb, BBlock(sb, c));
  }

  lemma AllocatedBits(sb: Super, d: Disk, b: nat)
    requires Layout(sb) && |d| == sb.size && sb.nmeta <= b < sb.size
    ensures forall c: nat :: c < sb.size ==> Bit(sb, Allocated(sb, d, b), c) == (c == b || Bit(sb, d, c))
  {
    MarkBits(sb, d, b, true);
    SameBits(sb, MarkBlock(sb, d, b, true), Allocated(sb, d, b));
  }

  // --- balloc's scan ---------------------------------------------------------------

  predicate MarkedBelow(sb: Super, d: Disk, n: nat)
    requires Layout(sb) && |d| == sb.size
  {
    forall c: nat :: c < n && c < sb.size ==> Bit(sb, d, c)
  }

  predicate Aligned(b: nat) { b % BPB == 0 }

  lemma ScanStart(sb: Super, d: Disk)
    requires Layout(sb) && |d| == sb.size
    ensures Aligned(0) && MarkedBelow(sb, d, 0) && 0 < BPB
  {
  }

  lemma ScanBlock(sb: Super, b: nat)
    requires Layout(sb) && Aligned(b) && b < sb.size
    ensures BBlock(sb, b) < sb.size && Aligned(b + BPB) && 0 < BPB
  {
  }

  // Bit bi of the bitmap block that starts with block b.
  lemma BitmapOf(sb: Super, b: nat, bi: nat)
    requires Layout(sb) && Aligned(b) && b + bi < sb.size && bi < BPB
    ensures BBlock(sb, b + bi) == BBlock(sb, b) < sb.size && (b + bi) % BPB == bi
  {
    assert (b + bi) / BPB == b / BPB;
  }

  lemma MarkedFurther(sb: Super, d: Disk, b: nat, bi: nat)
    requires Layout(sb) && |d| == sb.size && Aligned(b) && b < sb.size && bi <= BPB && BBlock(sb, b) < |d|
    requires MarkedBelow(sb, d, b) && forall j: nat :: j < bi ==> GetBit(d[BBlock(sb, b)], j)
    ensures MarkedBelow(sb, d, b + bi)
  {
    hide GetBit;
    forall c: nat | b <= c < b + bi && c < sb.size
      ensures Bit(sb, d, c)
    {
      BitmapOf(sb, b, c - b);
    }
  }

  // A bitmap block without a clear bit is done with.
  lemma MarkedPast(sb: Super, d: Disk, b: nat, bi: nat)
    requires Layout(sb) && |d| == sb.size && MarkedBelow(sb, d, b + bi) && (bi >= BPB || b + bi >= sb.size)
    ensures MarkedBelow(sb, d, b + BPB)
  {
    hide Bit;
  }

  // The first clear bit is the lowest free block, and setting it allocates that.
  lemma LowestFree(sb: Super, d: Disk, b: nat, bi: nat)
    requires Layout(sb) && |d| == sb.size && MetaUsed(sb, d) && MarkedBelow(sb, d, b + bi)
    requires Aligned(b) && b + bi < sb.size && bi < BPB && BBlock(sb, b) < |d| && !GetBit(d[BBlock(sb, b)], bi)
    ensures sb.nmeta <= b + bi && !Bit(sb, d, b + bi) && !MarkedBelow(sb, d, sb.size)
    ensures (forall c: nat :: c < b + bi ==> Bit(sb, d, c)) && BBlock(sb, b + bi) == BBlock(sb, b)
    ensures d[BBlock(sb, b) := PutBit(d[BBlock(sb, b)], bi, true)][b + bi := ZeroBlock()] == Allocated(sb, d, b + bi)
  {
    hide GetBit, PutBit, ZeroBlock;
    BitmapOf(sb, b, bi);
    assert !Bit(sb, d, b + bi);
    hide BBlock;
  }
}
