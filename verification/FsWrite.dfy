/**
 How growing and writing one file affects the block map: what other files and
 inodes keep, and why copying a run of bytes block by block amounts to splicing
 it into the file's contents.
 */
module FsWrite {
  import opened Basics
  import opened Blocks
  import opened FsLayout
  import opened FsTree

  // Disk e with table u differs from d with t only in inode i's file: other inodes
  // keep their fields, block numbers and data, and the inode blocks are the same.
  predicate OthersSame(sb: Super, d: Disk, t: Table, e: Disk, u: Table, i: nat)
    requires Shapes(sb, d, t) && Shapes(sb, e, u)
  {
    && u.Keys == t.Keys
    && (forall j :: j in t && j != i ==> u[j] == t[j])
    && (forall j, r :: j in t && j != i && 0 <= r < NSLOTS ==> SlotBlock(e, u[j], r) == SlotBlock(d, t[j], r))
    && (forall j, r :: j in t && j != i && 0 <= r < NSLOTS && r != NDIRECT && 0 < SlotBlock(d, t[j], r) < |d| ==>
          e[SlotBlock(d, t[j], r)] == d[SlotBlock(d, t[j], r)])
    && (forall c: nat :: c < sb.bmapstart ==> e[c] == d[c])
  }

  // Inode i has gained blocks but lost none, and its old data is in place.
  predicate Grown(d: Disk, ip: Inode, e: Disk, iq: Inode)
    requires |ip.addrs| == |iq.addrs| == NDIRECT + 1 && ip.addrs[NDIRECT] < |d| && iq.addrs[NDIRECT] < |e|
  {
    && |e| == |d| && iq == ip.(addrs := iq.addrs)
    && (forall r :: 0 <= r < NSLOTS && SlotBlock(d, ip, r) != 0 ==> SlotBlock(e, iq, r) == SlotBlock(d, ip, r))
    && (forall r :: 0 <= r < NSLOTS && r != NDIRECT && 0 < SlotBlock(d, ip, r) < |d| ==>
          e[SlotBlock(d, ip, r)] == d[SlotBlock(d, ip, r)])
  }

  lemma SameAsSelf(sb: Super, d: Disk, t: Table, i: nat)
    requires Shapes(sb, d, t) && i in t
    ensures OthersSame(sb, d, t, d, t, i) && Grown(d, t[i], d, t[i])
  {
  }

  lemma AllocGrows(sb: Super, d: Disk, t: Table, o: Owner, i: nat, s: nat, b: nat)
    requires Allocatable(sb, d, t, o, i, s, b)
    ensures var e, u := AllocDisk(sb, d, t[i], s, b), AllocTable(t, i, s, b);
            && Shapes(sb, e, u)
            && OthersSame(sb, d, t, e, u, i)
            && Grown(d, t[i], e, u[i])
  {
    AllocKeepsData(sb, d, t, o, i, s, b);
    AllocSlots(sb, d, t, o, i, s, b);
    hide SlotBlock, AllocDisk, Owned, Marked;
  }

  // Data blocks and inode blocks are not touched by an allocation.
  lemma AllocKeepsData(sb: Super, d: Disk, t: Table, o: Owner, i: nat, s: nat, b: nat)
    requires Allocatable(sb, d, t, o, i, s, b)
    ensures var e := AllocDisk(sb, d, t[i], s, b);
            && (forall j, r :: j in t && 0 <= r < NSLOTS && r != NDIRECT && 0 < SlotBlock(d, t[j], r) < |d| ==>
                  e[SlotBlock(d, t[j], r)] == d[SlotBlock(d, t[j], r)])
            && (forall c: nat :: c < sb.bmapstart ==> e[c] == d[c])
  {
    hide GetWord, PutWord, AllocDisk, Marked;
    var e := AllocDisk(sb, d, t[i], s, b);
    AllocFrame(sb, d, t, o, i, s, b);
    assert SlotBlock(d, t[i], NDIRECT) == t[i].addrs[NDIRECT];
    forall j, r | j in t && 0 <= r < NSLOTS && r != NDIRECT && 0 < SlotBlock(d, t[j], r) < |d|
      ensures e[SlotBlock(d, t[j], r)] == d[SlotBlock(d, t[j], r)]
    {
      assert Untouched(sb, t[i], s, b, SlotBlock(d, t[j], r));
    }
    assert AddrOk(sb, t[i].addrs[NDIRECT]);
    forall c: nat | c < sb.bmapstart
      ensures e[c] == d[c]
    {
      assert Untouched(sb, t[i], s, b, c);
    }
  }

  // All that an allocation does, in one place.
  lemma AllocEverything(sb: Super, d: Disk, t: Table, o: Owner, i: nat, s: nat, b: nat)
    requires Allocatable(sb, d, t, o, i, s, b)
    ensures var e, u := AllocDisk(sb, d, t[i], s, b), AllocTable(t, i, s, b);
            && Tree(sb, e, u, o[b := Slot(i, s)])
            && OthersSame(sb, d, t, e, u, i) && Grown(d, t[i], e, u[i])
            && e[b] == ZeroBlock()
            && (forall q :: 0 <= q < NSLOTS ==>
                  SlotBlock(e, u[i], q) == if q == s then b else SlotBlock(d, t[i], q))
  {
    hide GetWord, PutWord, Owned, Marked, OthersSame, Grown, SlotBlock, AllocDisk;
    AllocSlots(sb, d, t, o, i, s, b);
    AllocFrame(sb, d, t, o, i, s, b);
    AllocKeepsTree(sb, d, t, o, i, s, b);
    AllocGrows(sb, d, t, o, i, s, b);
  }

  lemma GrownTrans(d: Disk, ip: Inode, e: Disk, iq: Inode, f: Disk, ir: Inode)
    requires |ip.addrs| == |iq.addrs| == |ir.addrs| == NDIRECT + 1
    requires ip.addrs[NDIRECT] < |d| && iq.addrs[NDIRECT] < |e| && ir.addrs[NDIRECT] < |f|
    requires Grown(d, ip, e, iq) && Grown(e, iq, f, ir)
    ensures Grown(d, ip, f, ir)
  {
  }

  lemma OthersTrans(sb: Super, d: Disk, t: Table, e: Disk, u: Table, f: Disk, v: Table, i: nat)
    requires Shapes(sb, d, t) && Shapes(sb, e, u) && Shapes(sb, f, v)
    requires OthersSame(sb, d, t, e, u, i) && OthersSame(sb, e, u, f, v, i)
    ensures OthersSame(sb, d, t, f, v, i)
  {
  }

  // --- splicing bytes -----------------------------------------------------------------

  // memmove(bp->data + at, s, |s|)
  function CopyIn(b: Block, at: nat, s: seq<byte>): (r: Block)
    requires at + |s| <= BSIZE
  {
    b[..at] + s + b[at + |s|..]
  }

  // The bytes from off0 up to off have been replaced by those of src.
  predicate Written(d: Disk, ip: Inode, e: Disk, iq: Inode, off0: nat, src: seq<byte>, off: nat)
    requires |ip.addrs| == |iq.addrs| == NDIRECT + 1 && ip.addrs[NDIRECT] < |d| && iq.addrs[NDIRECT] < |e|
    requires Backed(d, ip, ip.size) && off0 <= ip.size && off0 <= off <= off0 + |src|
  {
    && iq.size == ip.size
    && Backed(e, iq, Max(ip.size, off))
    && forall pos :: 0 <= pos < Max(ip.size, off) ==>
         ByteAt(e, iq, pos) == if off0 <= pos < off then src[pos - off0] else ByteAt(d, ip, pos)
  }

  // bmap keeps what has been written so far.
  lemma GrownKeepsWritten(d: Disk, ip: Inode, e: Disk, iq: Inode, f: Disk, ir: Inode,
                          off0: nat, src: seq<byte>, off: nat)
    requires |ip.addrs| == |iq.addrs| == |ir.addrs| == NDIRECT + 1
    requires ip.addrs[NDIRECT] < |d| && iq.addrs[NDIRECT] < |e| && ir.addrs[NDIRECT] < |f|
    requires Backed(d, ip, ip.size) && off0 <= ip.size && off0 <= off <= off0 + |src|
    requires Written(d, ip, e, iq, off0, src, off) && Grown(e, iq, f, ir)
    ensures Written(d, ip, f, ir, off0, src, off)
  {
    var m := Max(ip.size, off);
    forall pos | 0 <= pos < m
      ensures 0 < SlotBlock(f, ir, SlotOf(pos / BSIZE)) < |f| && ByteAt(f, ir, pos) == ByteAt(e, iq, pos)
    {
      assert (pos / BSIZE) * BSIZE < m;
    }
    assert Backed(f, ir, m);
  }

  // Storing blk as file block bn changes the bytes of that block and no others.
  lemma StoreByte(sb: Super, e: Disk, t: Table, o: Owner, i: nat, bn: nat, blk: Block, pos: nat)
    requires Tree(sb, e, t, o) && i in t && bn < MAXFILE && pos < MAXFILE * BSIZE
    requires 0 < SlotBlock(e, t[i], SlotOf(bn)) < |e| && 0 < SlotBlock(e, t[i], SlotOf(pos / BSIZE)) < |e|
    ensures var f := e[SlotBlock(e, t[i], SlotOf(bn)) := blk];
            && SlotBlock(f, t[i], SlotOf(pos / BSIZE)) == SlotBlock(e, t[i], SlotOf(pos / BSIZE))
            && ByteAt(f, t[i], pos) == if pos / BSIZE == bn then blk[pos % BSIZE] else ByteAt(e, t[i], pos)
  {
    DataWriteKeepsTree(sb, e, t, o, i, SlotOf(bn), blk);
    if SlotBlock(e, t[i], SlotOf(pos / BSIZE)) == SlotBlock(e, t[i], SlotOf(bn)) {
      NoSharing(sb, e, t, o, i, SlotOf(pos / BSIZE), i, SlotOf(bn));
    }
  }

  predicate InStep(d: Disk, ip: Inode, off0: nat, src: seq<byte>, off: nat, m: nat)
  {
    && |ip.addrs| == NDIRECT + 1 && ip.addrs[NDIRECT] < |d| && Backed(d, ip, ip.size)
    && off0 <= ip.size && off0 <= off && off + m <= off0 + |src|
    && 0 < m <= BSIZE - off % BSIZE && off + m <= MAXFILE * BSIZE
  }

  // The block holding off, with its share of src copied in.
  function StepBlock(b: Block, off0: nat, src: seq<byte>, off: nat, m: nat): (r: Block)
    requires off0 <= off && off + m <= off0 + |src| && m <= BSIZE - off % BSIZE
  {
    CopyIn(b, off % BSIZE, src[off - off0..off - off0 + m])
  }

  lemma StepBacked(e: Disk, iq: Inode, size: nat, off: nat, m: nat)
    requires |iq.addrs| == NDIRECT + 1 && iq.addrs[NDIRECT] < |e|
    requires Backed(e, iq, Max(size, off)) && 0 < m <= BSIZE - off % BSIZE && off + m <= MAXFILE * BSIZE
    requires 0 < SlotBlock(e, iq, SlotOf(off / BSIZE)) < |e|
    ensures Backed(e, iq, Max(size, off + m))
  {
    forall bn | 0 <= bn < MAXFILE && bn * BSIZE < Max(size, off + m)
      ensures 0 < SlotBlock(e, iq, SlotOf(bn)) < |e|
    {
      if bn != off / BSIZE { assert bn * BSIZE < Max(size, off); }
    }
  }

  lemma StepByte(sb: Super, d: Disk, ip: Inode, e: Disk, t: Table, o: Owner, i: nat,
                 off0: nat, src: seq<byte>, off: nat, m: nat, pos: nat)
    requires InStep(d, ip, off0, src, off, m)
    requires Tree(sb, e, t, o) && i in t && Written(d, ip, e, t[i], off0, src, off)
    requires 0 < SlotBlock(e, t[i], SlotOf(off / BSIZE)) < |e| && pos < Max(ip.size, off + m)
    ensures var a := SlotBlock(e, t[i], SlotOf(off / BSIZE));
            var f := e[a := StepBlock(e[a], off0, src, off, m)];
            && t[i].addrs[NDIRECT] < |f| && 0 < SlotBlock(f, t[i], SlotOf(pos / BSIZE)) < |f|
            && ByteAt(f, t[i], pos) == if off0 <= pos < off + m then src[pos - off0] else ByteAt(d, ip, pos)
  {
    hide GetWord, Owned, Marked;
    var a := SlotBlock(e, t[i], SlotOf(off / BSIZE));
    StepBacked(e, t[i], ip.size, off, m);
    assert (pos / BSIZE) * BSIZE < Max(ip.size, off + m);
    StoreByte(sb, e, t, o, i, off / BSIZE, StepBlock(e[a], off0, src, off, m), pos);
    if !(off <= pos < off + m) {
      assert pos < Max(ip.size, off);
      if pos / BSIZE == off / BSIZE { assert ByteAt(e, t[i], pos) == e[a][pos % BSIZE]; }
    }
  }

  // One turn of writei's loop after bmap: m bytes go into the block holding off.
  lemma WriteStep(sb: Super, d: Disk, ip: Inode, e: Disk, t: Table, o: Owner, i: nat,
                  off0: nat, src: seq<byte>, off: nat, m: nat)
    requires InStep(d, ip, off0, src, off, m)
    requires Tree(sb, e, t, o) && i in t && Written(d, ip, e, t[i], off0, src, off)
    requires 0 < SlotBlock(e, t[i], SlotOf(off / BSIZE)) < |e|
    ensures var a := SlotBlock(e, t[i], SlotOf(off / BSIZE));
            var f := e[a := StepBlock(e[a], off0, src, off, m)];
            && Tree(sb, f, t, o)
            && Written(d, ip, f, t[i], off0, src, off + m)
            && OthersSame(sb, e, t, f, t, i)
  {
    var a := SlotBlock(e, t[i], SlotOf(off / BSIZE));
    var f := e[a := StepBlock(e[a], off0, src, off, m)];
    DataWriteKeepsTree(sb, e, t, o, i, SlotOf(off / BSIZE), f[a]);
    StepBacked(e, t[i], ip.size, off, m);
    forall pos | 0 <= pos < Max(ip.size, off + m)
      ensures 0 < SlotBlock(f, t[i], SlotOf(pos / BSIZE)) < |f|
      ensures ByteAt(f, t[i], pos) == if off0 <= pos < off + m then src[pos - off0] else ByteAt(d, ip, pos)
    {
      StepByte(sb, d, ip, e, t, o, i, off0, src, off, m, pos);
    }
    assert Backed(f, t[i], Max(ip.size, off + m));
  }

  // A run of bytes inside one block is a slice of that block.
  lemma ReadStep(d: Disk, ip: Inode, pos: nat, m: nat)
    requires |ip.addrs| == NDIRECT + 1 && ip.addrs[NDIRECT] < |d| && Backed(d, ip, ip.size)
    requires pos + m <= ip.size && 0 < m <= BSIZE - pos % BSIZE
    ensures 0 < SlotBlock(d, ip, SlotOf(pos / BSIZE)) < |d|
    ensures Content(d, ip)[pos..pos + m] == d[SlotBlock(d, ip, SlotOf(pos / BSIZE))][pos % BSIZE..pos % BSIZE + m]
  {
    assert (pos / BSIZE) * BSIZE < ip.size;
    var bp := d[SlotBlock(d, ip, SlotOf(pos / BSIZE))];
    var c := Content(d, ip)[pos..pos + m];
    forall k | 0 <= k < m
      ensures c[k] == bp[pos % BSIZE..pos % BSIZE + m][k]
    {
      assert (pos + k) / BSIZE == pos / BSIZE && (pos + k) % BSIZE == pos % BSIZE + k;
      assert c[k] == ByteAt(d, ip, pos + k);
    }
  }

  // When all of src is in and the size is set, the file is the old one spliced.
  lemma WrittenIsSplice(d: Disk, ip: Inode, e: Disk, iq: Inode, off0: nat, src: seq<byte>)
    requires |ip.addrs| == |iq.addrs| == NDIRECT + 1 && ip.addrs[NDIRECT] < |d| && iq.addrs[NDIRECT] < |e|
    requires Backed(d, ip, ip.size) && off0 <= ip.size
    requires Written(d, ip, e, iq, off0, src, off0 + |src|)
    ensures var iq' := iq.(size := Max(ip.size, off0 + |src|));
            Backed(e, iq', iq'.size) && Content(e, iq') == Splice(Content(d, ip), off0, src)
  {
    var iq' := iq.(size := Max(ip.size, off0 + |src|));
    SizeIrrelevant(e, iq, iq');
    var c, c' := Content(d, ip), Content(e, iq');
    forall pos | 0 <= pos < iq'.size
      ensures c'[pos] == Splice(c, off0, src)[pos]
    {
      assert ByteAt(e, iq', pos) == ByteAt(e, iq, pos);
    }
  }

  // The block map of an inode does not depend on its size.
  lemma SizeIrrelevant(e: Disk, iq: Inode, iq': Inode)
    requires |iq.addrs| == NDIRECT + 1 && iq.addrs[NDIRECT] < |e| && iq' == iq.(size := iq'.size)
    ensures forall s :: 0 <= s < NSLOTS ==> SlotBlock(e, iq', s) == SlotBlock(e, iq, s)
    ensures Backed(e, iq, iq'.size) ==> Backed(e, iq', iq'.size)
  {
  }

  // Other files read the same.
  lemma OthersKeepContent(sb: Super, d: Disk, t: Table, e: Disk, u: Table, i: nat, j: nat)
    requires Shapes(sb, d, t) && Shapes(sb, e, u) && OthersSame(sb, d, t, e, u, i)
    requires j in t && j != i && Backed(d, t[j], t[j].size)
    ensures Backed(e, u[j], u[j].size) && Content(e, u[j]) == Content(d, t[j])
  {
    forall pos | 0 <= pos < t[j].size
      ensures ByteAt(e, u[j], pos) == ByteAt(d, t[j], pos)
    {
      assert (pos / BSIZE) * BSIZE < t[j].size;
    }
  }

  // --- whole writes -------------------------------------------------------------------

  // How many blocks the bytes off .. off+n-1 touch.
  function Spanned(off: nat, n: nat): (k: nat)
  {
    if n == 0 then 0 else (off + n - 1) / BSIZE - off / BSIZE + 1
  }

  // Log entries a write can cost: data and bitmap blocks, the indirect block and
  // its bitmap block, the inode.  An unaligned first block is already allocated.
  function WriteCost(off: nat, n: nat): (c: int)
  {
    2 * Spanned(off, n) + 3 - if n > 0 && off % BSIZE != 0 then 1 else 0
  }

  // Copying up to the next block boundary reaches one more block.
  lemma SpanStep(off: nat, tot: nat, n: nat)
    requires tot < n && (tot == 0 || (off + tot) % BSIZE == 0)
    ensures var m := Min(n - tot, BSIZE - (off + tot) % BSIZE);
            && Spanned(off, tot + m) == Spanned(off, tot) + 1
            && (tot + m == n || (off + tot + m) % BSIZE == 0)
  {
    var m := Min(n - tot, BSIZE - (off + tot) % BSIZE);
    assert (off + tot + m - 1) / BSIZE == (off + tot) / BSIZE;
    if tot > 0 { assert (off + tot - 1) / BSIZE == (off + tot) / BSIZE - 1; }
  }

  // The indirect block's share of the cost so far: two entries once this write has
  // allocated it, one once an existing one has been logged.
  function IndCost(ind0: nat, ind: nat, logged: set<nat>): (c: nat)
  {
    if ind0 == 0 then (if ind != 0 then 2 else 0)
    else (if ind in logged then 1 else 0)
  }

  predicate IndTracked(ind0: nat, ind: nat, logged: set<nat>)
  {
    (ind0 != 0 ==> ind == ind0) && (ind0 == 0 && ind != 0 ==> ind in logged)
  }

  // One block of a write costs at most its data block and its bitmap block, beyond
  // the indirect block's share.
  lemma BlockCost(ind0: nat, ind: nat, ind': nat, logged: set<nat>, logged': set<nat>, extra: set<nat>, a: nat, ba: nat, bi: nat)
    requires IndTracked(ind0, ind, logged)
    requires logged' == logged + {ba, a} + extra
    requires (extra == {} && ind' == ind) || (ind != 0 && ind' == ind && extra == {ind}) ||
             (ind == 0 && ind' != 0 && extra == {bi, ind'})
    ensures IndTracked(ind0, ind', logged')
    ensures |logged'| + IndCost(ind0, ind, logged) <= |logged| + 2 + IndCost(ind0, ind', logged')
  {
    assert |logged + {ba, a}| <= |logged| + 2 by {
      assert logged + {ba, a} == (logged + {ba}) + {a};
    }
    if extra == {} {
      assert logged' == logged + {ba, a};
    } else if extra == {ind} {
      if ind in logged { assert logged' == logged + {ba, a}; }
    } else {
      assert logged' == ((logged + {ba, a}) + {bi}) + {ind'};
    }
  }

  // What mapping file block bn logs besides its own block and bitmap block, when
  // the inode's indirect block was ind and is now ind'.
  function Extra(sb: Super, bn: nat, ind: nat, ind': nat): (s: set<nat>)
  {
    if bn < NDIRECT then {} else if ind != 0 then {ind'} else {BBlock(sb, ind'), ind'}
  }

  lemma MapCost(sb: Super, bn: nat, ind0: nat, ind: nat, ind': nat, logged: set<nat>, logged': set<nat>, a: nat)
    requires IndTracked(ind0, ind, logged)
    requires logged' == logged + {BBlock(sb, a), a} + Extra(sb, bn, ind, ind')
    requires (bn < NDIRECT || ind != 0 ==> ind' == ind) && (bn >= NDIRECT ==> ind' != 0)
    ensures IndTracked(ind0, ind', logged' + {a})
    ensures |logged' + {a}| + IndCost(ind0, ind, logged) <= |logged| + 2 + IndCost(ind0, ind', logged' + {a})
  {
    assert logged' + {a} == logged';
    BlockCost(ind0, ind, ind', logged, logged', Extra(sb, bn, ind, ind'), a, BBlock(sb, a), BBlock(sb, ind'));
  }

  // The first tot bytes of a write at off end on a block boundary or the write's
  // end, and have cost no more than two entries a block and the indirect share.
  predicate CostSoFar(off: nat, n: nat, tot: nat, start: nat, ind0: nat, ind: nat, logged: set<nat>)
  {
    && tot <= n && (tot == n || tot == 0 || (off + tot) % BSIZE == 0)
    && IndTracked(ind0, ind, logged)
    && |logged| <= start + 2 * Spanned(off, tot) - (if tot > 0 && off % BSIZE != 0 then 1 else 0)
                    + IndCost(ind0, ind, logged)
  }

  lemma CostStep(off: nat, n: nat, tot: nat, start: nat, ind0: nat, ind: nat, logged: set<nat>, ind': nat, logged': set<nat>)
    requires tot < n && CostSoFar(off, n, tot, start, ind0, ind, logged)
    requires IndTracked(ind0, ind', logged')
    requires |logged'| + IndCost(ind0, ind, logged) <= |logged| + 2 + IndCost(ind0, ind', logged')
    requires tot == 0 && off % BSIZE != 0 ==> ind' == ind == ind0 && |logged'| <= |logged| + 1 && logged <= logged'
    requires tot == 0 ==> |logged| <= start
    ensures CostSoFar(off, n, tot + Min(n - tot, BSIZE - (off + tot) % BSIZE), start, ind0, ind', logged')
  {
    SpanStep(off, tot, n);
  }

  // tot bytes of src have been written at off of inode i's file, starting from d0
  // and t0, and nothing else has changed.
  predicate Progress(sb: Super, d0: Disk, t0: Table, d: Disk, t: Table, o: Owner, i: nat, off: nat, src: seq<byte>, tot: nat)
  {
    && Shapes(sb, d0, t0) && i in t0 && Backed(d0, t0[i], t0[i].size) && off <= t0[i].size && tot <= |src|
    && Tree(sb, d, t, o) && OthersSame(sb, d0, t0, d, t, i)
    && i in t && t[i] == t0[i].(addrs := t[i].addrs)
    && Written(d0, t0[i], d, t[i], off, src, off + tot)
    && (t == t0 || off + tot > t0[i].size)
  }

  lemma ProgressStart(sb: Super, d: Disk, t: Table, o: Owner, i: nat, off: nat, src: seq<byte>)
    requires Tree(sb, d, t, o) && i in t && Backed(d, t[i], t[i].size) && off <= t[i].size
    ensures Progress(sb, d, t, d, t, o, i, off, src, 0)
  {
  }

  lemma ProgressStep(sb: Super, d0: Disk, t0: Table, d: Disk, t: Table, o: Owner, i: nat, off: nat, src: seq<byte>,
                     tot: nat, m: nat, d': Disk, t': Table, o': Owner)
    requires Progress(sb, d0, t0, d, t, o, i, off, src, tot)
    requires InStep(d0, t0[i], off, src, off + tot, m) && Tree(sb, d', t', o')
    requires OthersSame(sb, d, t, d', t', i) && t'[i] == t[i].(addrs := t'[i].addrs)
    requires Written(d0, t0[i], d', t'[i], off, src, off + tot + m)
    requires ((off + tot) / BSIZE) * BSIZE < t0[i].size ==> t' == t
    requires (off + tot) % BSIZE == 0 || tot == 0
    ensures Progress(sb, d0, t0, d', t', o', i, off, src, tot + m)
  {
    OthersTrans(sb, d0, t0, d, t, d', t', i);
  }

  // No block is free.
  predicate Full(sb: Super, d: Disk)
    requires Layout(sb) && |d| == sb.size
  {
    forall c: nat :: c < sb.size ==> Bit(sb, d, c)
  }

  lemma ScanEnd(sb: Super, d: Disk, b: nat)
    requires Layout(sb) && |d| == sb.size && MarkedBelow(sb, d, b) && b >= sb.size
    ensures Full(sb, d)
  {
  }

  lemma NotFull(sb: Super, d: Disk)
    requires Layout(sb) && |d| == sb.size && !MarkedBelow(sb, d, sb.size)
    ensures !Full(sb, d)
  {
  }

  // writei refuses to leave a hole, to wrap its offset and to exceed MAXFILE.
  predicate Rejects(size: nat, off: nat, n: nat)
  {
    off > size || off + n >= UINT_LIMIT || off + n > MAXFILE * BSIZE
  }

  predicate Readable(sb: Super, d: Disk, t: Table)
  {
    Shapes(sb, d, t) && forall j :: j in t ==> Backed(d, t[j], t[j].size)
  }

  // Every inode but i is the same and its file reads the same.
  predicate FilesSame(sb: Super, d: Disk, t: Table, e: Disk, u: Table, i: nat)
    requires Readable(sb, d, t) && Readable(sb, e, u) && u.Keys == t.Keys
  {
    forall j :: j in t && j != i ==> u[j] == t[j] && Content(e, u[j]) == Content(d, t[j])
  }

  // Inode i's file is its old contents with src at off; all else reads the same.
  predicate FileSpliced(sb: Super, d: Disk, t: Table, e: Disk, u: Table, i: nat, off: nat, src: seq<byte>)
    requires Readable(sb, d, t) && Readable(sb, e, u) && i in t && off <= t[i].size
  {
    && u.Keys == t.Keys
    && Content(e, u[i]) == Splice(Content(d, t[i]), off, src)
    && u[i] == t[i].(size := u[i].size, addrs := u[i].addrs)
    && FilesSame(sb, d, t, e, u, i)
  }

  // Changing an inode's size leaves its blocks alone.
  lemma ResizeKeepsTree(sb: Super, d: Disk, t: Table, o: Owner, i: nat, size: nat)
    requires Tree(sb, d, t, o) && i in t && size <= MAXFILE * BSIZE
    ensures Tree(sb, d, t[i := t[i].(size := size)], o)
  {
    hide GetWord, Bit;
    var u := t[i := t[i].(size := size)];
    assert Shapes(sb, d, u);
    SizeIrrelevant(d, t[i], u[i]);
    assert forall j, s :: j in t && 0 <= s < NSLOTS ==> SlotBlock(d, u[j], s) == SlotBlock(d, t[j], s);
  }

  // The end of writei: the new size, and iupdate exactly when the file has grown.
  function FinalTable(t: Table, i: nat, top: nat): (r: Table)
    requires i in t
  {
    if top > t[i].size then t[i := t[i].(size := top)] else t
  }

  function FinalDisk(sb: Super, d: Disk, t: Table, i: nat, top: nat): (r: Disk)
    requires Layout(sb) && |d| == sb.size && i in t && i < sb.ninodes
    requires Encodable(t[i]) && top < UINT_LIMIT
  {
    if top > t[i].size then UpdateDisk(sb, d, i, t[i].(size := top)) else d
  }

  // Inode blocks survive a write's loop.
  lemma InodesKept(sb: Super, d: Disk, t: Table, e: Disk, u: Table, i: nat)
    requires Shapes(sb, d, t) && Shapes(sb, e, u) && OthersSame(sb, d, t, e, u, i) && i in t
    requires forall j :: j in t ==> OnDisk(sb, d, j, t[j])
    ensures u.Keys == t.Keys && OnDisk(sb, e, i, t[i])
    ensures forall j :: j in t && j != i ==> u[j] == t[j] && OnDisk(sb, e, j, u[j])
  {
    hide GetInode;
    forall j | j in t
      ensures OnDisk(sb, e, j, t[j])
    {
      assert IBlock(sb, j) < sb.bmapstart;
      assert OnDisk(sb, d, j, t[j]);
    }
  }

  // iupdate when the size grew suffices: had a block been added below the old size,
  // the inode on disk would now be stale, but those blocks were all there.
  lemma FinishOnDisk(sb: Super, d: Disk, t: Table, e: Disk, u: Table, o: Owner, i: nat, off: nat, src: seq<byte>)
    requires Shapes(sb, d, t) && forall j :: j in t ==> OnDisk(sb, d, j, t[j])
    requires Progress(sb, d, t, e, u, o, i, off, src, |src|) && off + |src| <= MAXFILE * BSIZE
    ensures var v := FinalTable(u, i, off + |src|);
            var f := FinalDisk(sb, e, u, i, off + |src|);
            Tree(sb, f, v, o) && forall j :: j in v ==> OnDisk(sb, f, j, v[j])
  {
    hide Written, OnDisk, OthersSame, Backed, Owned, SlotBlock;
    var top := off + |src|;
    InodesKept(sb, d, t, e, u, i);
    if top > u[i].size {
      var v := FinalTable(u, i, top);
      ResizeKeepsTree(sb, e, u, o, i, top);
      UpdateKeepsTree(sb, e, v, o, i);
    }
  }

  lemma FinishOthers(sb: Super, d: Disk, t: Table, e: Disk, u: Table, i: nat)
    requires Readable(sb, d, t) && Shapes(sb, e, u) && OthersSame(sb, d, t, e, u, i)
    ensures u.Keys == t.Keys
    ensures forall j :: j in t && j != i ==>
      u[j] == t[j] && Backed(e, u[j], u[j].size) && Content(e, u[j]) == Content(d, t[j])
  {
    hide Content, Backed, SlotBlock;
    forall j | j in t && j != i
      ensures Backed(e, u[j], u[j].size) && Content(e, u[j]) == Content(d, t[j])
    {
      OthersKeepContent(sb, d, t, e, u, i, j);
    }
  }

  lemma FinishContent(sb: Super, d: Disk, t: Table, e: Disk, u: Table, o: Owner, i: nat, off: nat, src: seq<byte>)
    requires Readable(sb, d, t)
    requires Progress(sb, d, t, e, u, o, i, off, src, |src|) && off + |src| <= MAXFILE * BSIZE
    ensures var v := FinalTable(u, i, off + |src|);
            && Readable(sb, e, v) && FileSpliced(sb, d, t, e, v, i, off, src)
  {
    hide Content, Backed, SlotBlock, OthersSame, Written, Owned, Marked, Splice;
    WrittenIsSplice(d, t[i], e, u[i], off, src);
    FinishOthers(sb, d, t, e, u, i);
    FinalSize(sb, d, t, e, u, o, i, off, src);
    SplicedIf(sb, d, t, e, FinalTable(u, i, off + |src|), i, off, src);
  }

  // The size of the file at the end of writei.
  lemma FinalSize(sb: Super, d: Disk, t: Table, e: Disk, u: Table, o: Owner, i: nat, off: nat, src: seq<byte>)
    requires Progress(sb, d, t, e, u, o, i, off, src, |src|) && off + |src| <= MAXFILE * BSIZE
    ensures var v := FinalTable(u, i, off + |src|);
            && Shapes(sb, e, v) && v.Keys == u.Keys && v[i] == u[i].(size := Max(t[i].size, off + |src|))
            && (forall j :: j in u && j != i ==> v[j] == u[j])
            && v[i] == t[i].(size := v[i].size, addrs := v[i].addrs)
  {
    hide OthersSame, Written, Owned, Marked, Backed;
  }

  lemma SplicedIf(sb: Super, d: Disk, t: Table, e: Disk, v: Table, i: nat, off: nat, src: seq<byte>)
    requires Readable(sb, d, t) && Shapes(sb, e, v) && v.Keys == t.Keys && i in t && off <= t[i].size
    requires forall j :: j in t && j != i ==> v[j] == t[j] && Backed(e, v[j], v[j].size) && Content(e, v[j]) == Content(d, t[j])
    requires Backed(e, v[i], v[i].size) && Content(e, v[i]) == Splice(Content(d, t[i]), off, src)
    requires v[i] == t[i].(size := v[i].size, addrs := v[i].addrs)
    ensures Readable(sb, e, v) && FileSpliced(sb, d, t, e, v, i, off, src)
  {
    hide Content, Backed, Splice;
  }

  // Blocks of the data area read the same after iupdate.
  lemma UpdateKeepsContent(sb: Super, e: Disk, f: Disk, v: Table, o: Owner)
    requires Readable(sb, e, v) && Tree(sb, f, v, o)
    requires forall j, r :: j in v && 0 <= r < NSLOTS ==> SlotBlock(f, v[j], r) == SlotBlock(e, v[j], r)
    requires forall c: nat :: sb.nmeta <= c < sb.size ==> f[c] == e[c]
    ensures Readable(sb, f, v) && forall j :: j in v ==> Content(f, v[j]) == Content(e, v[j])
  {
    forall j | j in v
      ensures Backed(f, v[j], v[j].size) && Content(f, v[j]) == Content(e, v[j])
    {
      forall pos | 0 <= pos < v[j].size
        ensures ByteAt(f, v[j], pos) == ByteAt(e, v[j], pos)
      {
        assert (pos / BSIZE) * BSIZE < v[j].size;
        assert SlotBlock(f, v[j], SlotOf(pos / BSIZE)) in o;
      }
    }
  }

  lemma FinishWrite(sb: Super, d: Disk, t: Table, e: Disk, u: Table, o: Owner, i: nat, off: nat, src: seq<byte>)
    requires Readable(sb, d, t) && forall j :: j in t ==> OnDisk(sb, d, j, t[j])
    requires Progress(sb, d, t, e, u, o, i, off, src, |src|) && off + |src| <= MAXFILE * BSIZE
    ensures var v := FinalTable(u, i, off + |src|);
            var f := FinalDisk(sb, e, u, i, off + |src|);
            Inv(sb, f, v, o) && FileSpliced(sb, d, t, f, v, i, off, src)
  {
    hide Written, OthersSame, OnDisk, Backed, Owned, Content;
    var top := off + |src|;
    var v, f := FinalTable(u, i, top), FinalDisk(sb, e, u, i, top);
    FinishOnDisk(sb, d, t, e, u, o, i, off, src);
    FinishContent(sb, d, t, e, u, o, i, off, src);
    if top > u[i].size {
      ResizeKeepsTree(sb, e, u, o, i, top);
      UpdateKeepsTree(sb, e, v, o, i);
      UpdateKeepsContent(sb, e, f, v, o);
    }
  }

  // The end of writei in the two cases, and what the inode has kept.
  lemma WrittenInode(sb: Super, d: Disk, t: Table, e: Disk, u: Table, o: Owner, i: nat, off: nat, src: seq<byte>)
    requires Progress(sb, d, t, e, u, o, i, off, src, |src|) && off + |src| <= MAXFILE * BSIZE
    ensures i in u && i < sb.ninodes && u[i].size == t[i].size && Layout(sb) && |e| == sb.size && Encodable(u[i])
    ensures var top := off + |src|;
            && (top <= u[i].size ==> FinalTable(u, i, top) == u && FinalDisk(sb, e, u, i, top) == e)
            && (top > u[i].size ==>
                  && |src| > 0 && FinalTable(u, i, top) == u[i := u[i].(size := top)]
                  && FinalDisk(sb, e, u, i, top) == UpdateDisk(sb, e, i, u[i].(size := top)))
  {
    hide Written, OthersSame, Owned, Marked, Backed, UpdateDisk;
  }

  // --- filewrite ----------------------------------------------------------------------

  // filewrite's chunk: ((MAXOPBLOCKS-1-1-2) / 2) * 512
  const CHUNK := (MAXOPBLOCKS - 1 - 1 - 2) / 2 * 512

  // --- exactly which blocks a write logs ------------------------------------------------

  // Some slot of the indirect block is new.
  predicate Deep(o0: Owner, o: Owner) { exists b :: b in o && b !in o0 && o[b].s > NDIRECT }

  function MapsOf(sb: Super, s: set<nat>): (m: set<nat>) { set b | b in s :: BBlock(sb, b) }

  // The log after l0 when the blocks of o that o0 lacks have been allocated, and data
  // written: new blocks, their bitmap blocks, the indirect block if it has new entries.
  ghost function LogOf(sb: Super, o0: Owner, o: Owner, l0: set<nat>, data: set<nat>, ind: nat): (l: set<nat>)
  {
    l0 + data + (o.Keys - o0.Keys) + MapsOf(sb, o.Keys - o0.Keys) + (if Deep(o0, o) then {ind} else {})
  }

  ghost predicate Logged(sb: Super, i: nat, o0: Owner, o: Owner, l0: set<nat>, l: set<nat>, data: set<nat>, ind: nat)
  {
    && (forall b :: b in o0 ==> b in o && o[b] == o0[b])
    && (forall b :: b in o && b !in o0 ==> o[b].inum == i)
    && l == LogOf(sb, o0, o, l0, data, ind)
  }

  lemma LoggedNone(sb: Super, i: nat, o: Owner, l: set<nat>, ind: nat)
    ensures Logged(sb, i, o, o, l, l, {}, ind)
  {
    assert MapsOf(sb, o.Keys - o.Keys) == {};
  }

  lemma LoggedAlloc(sb: Super, i: nat, o: Owner, l: set<nat>, b: nat, s: nat, ind: nat)
    requires b !in o
    ensures Logged(sb, i, o, o[b := Slot(i, s)], l, l + {BBlock(sb, b), b} + (if s > NDIRECT then {ind} else {}), {}, ind)
  {
    var o' := o[b := Slot(i, s)];
    assert o'.Keys - o.Keys == {b};
    assert MapsOf(sb, {b}) == {BBlock(sb, b)};
    assert Deep(o, o') <==> s > NDIRECT by { assert o'[b].s == s; }
  }

  lemma LoggedData(sb: Super, i: nat, o0: Owner, o: Owner, l0: set<nat>, l: set<nat>, data: set<nat>, ind: nat, a: nat)
    requires Logged(sb, i, o0, o, l0, l, data, ind)
    ensures Logged(sb, i, o0, o, l0, l + {a}, data + {a}, ind)
  {
    hide Deep, MapsOf;
    assert LogOf(sb, o0, o, l0, data, ind) + {a} == LogOf(sb, o0, o, l0, data + {a}, ind);
  }

  lemma LoggedStore(sb: Super, i: nat, o0: Owner, o: Owner, l0: set<nat>, l: set<nat>, ind: nat, a: nat)
    requires Logged(sb, i, o0, o, l0, l, {}, ind)
    ensures Logged(sb, i, o0, o, l0, l + {a}, {a}, ind)
  {
    hide *;
    LoggedData(sb, i, o0, o, l0, l, {}, ind, a);
    var none: set<nat> := {};
    assert none + {a} == {a};
  }

  lemma LoggedThen(sb: Super, i: nat, o0: Owner, o1: Owner, o2: Owner, l0: set<nat>, l1: set<nat>, l2: set<nat>,
                   data1: set<nat>, data2: set<nat>, ind1: nat, ind2: nat)
    requires Logged(sb, i, o0, o1, l0, l1, data1, ind1) && Logged(sb, i, o1, o2, l1, l2, data2, ind2)
    requires Deep(o0, o1) ==> ind1 == ind2
    ensures Logged(sb, i, o0, o2, l0, l2, data1 + data2, ind2)
  {
    var n1, n2 := o1.Keys - o0.Keys, o2.Keys - o1.Keys;
    assert o2.Keys - o0.Keys == n1 + n2;
    assert MapsOf(sb, n1 + n2) == MapsOf(sb, n1) + MapsOf(sb, n2);
    DeepThen(o0, o1, o2);
    hide Deep, MapsOf;
    assert l2 == LogOf(sb, o0, o2, l0, data1 + data2, ind2);
  }

  lemma LoggedTwice(sb: Super, i: nat, o0: Owner, o1: Owner, o2: Owner, l0: set<nat>, l1: set<nat>, l2: set<nat>, ind: nat)
    requires Logged(sb, i, o0, o1, l0, l1, {}, ind) && Logged(sb, i, o1, o2, l1, l2, {}, ind)
    ensures Logged(sb, i, o0, o2, l0, l2, {}, ind)
  {
    hide *;
    LoggedThen(sb, i, o0, o1, o2, l0, l1, l2, {}, {}, ind, ind);
    var none: set<nat> := {};
    assert none + none == none;
  }

  lemma DeepThen(o0: Owner, o1: Owner, o2: Owner)
    requires forall b :: b in o0 ==> b in o1 && o1[b] == o0[b]
    requires forall b :: b in o1 ==> b in o2 && o2[b] == o1[b]
    ensures Deep(o0, o2) <==> Deep(o0, o1) || Deep(o1, o2)
  {
    if Deep(o0, o1) {
      var b :| b in o1 && b !in o0 && o1[b].s > NDIRECT;
      assert b in o2 && o2[b].s > NDIRECT;
    }
    if Deep(o1, o2) {
      var b :| b in o2 && b !in o1 && o2[b].s > NDIRECT;
      assert b !in o0;
    }
  }

  // Slots in use keep their blocks.
  predicate SlotsKept(d: Disk, ip: Inode, e: Disk, iq: Inode)
    requires |ip.addrs| == |iq.addrs| == NDIRECT + 1 && ip.addrs[NDIRECT] < |d| && iq.addrs[NDIRECT] < |e|
  {
    forall r :: 0 <= r < NSLOTS && SlotBlock(d, ip, r) != 0 ==> SlotBlock(e, iq, r) == SlotBlock(d, ip, r)
  }

  // One turn's bmap and store, on the slots.
  lemma TurnSlots(sb: Super, d: Disk, ip: Inode, e: Disk, t: Table, o: Owner, i: nat, s: nat, blk: Block)
    requires Tree(sb, e, t, o) && i in t && s < NSLOTS && s != NDIRECT && 0 < SlotBlock(e, t[i], s)
    requires |ip.addrs| == NDIRECT + 1 && ip.addrs[NDIRECT] < |d| && Grown(d, ip, e, t[i])
    ensures SlotBlock(e, t[i], s) < |e|
    ensures var f := e[SlotBlock(e, t[i], s) := blk];
            SlotsKept(d, ip, f, t[i]) && SlotBlock(f, t[i], s) == SlotBlock(e, t[i], s)
  {
    DataWriteKeepsTree(sb, e, t, o, i, s, blk);
  }

  // The data blocks of file blocks lo to hi-1.
  function DataOf(d: Disk, ip: Inode, lo: nat, hi: nat): (s: set<nat>)
    requires |ip.addrs| == NDIRECT + 1 && ip.addrs[NDIRECT] < |d| && hi <= MAXFILE
  {
    set bn | lo <= bn < hi :: SlotBlock(d, ip, SlotOf(bn))
  }

  // The file block after the last one that [off, off + tot) reaches into.
  function Reach(off: nat, tot: nat): (k: nat)
  {
    if tot == 0 then off / BSIZE else (off + tot - 1) / BSIZE + 1
  }

  // One more block; those before it have kept their places.
  lemma DataStep(d: Disk, ip: Inode, e: Disk, iq: Inode, lo: nat, bn: nat)
    requires |ip.addrs| == |iq.addrs| == NDIRECT + 1 && ip.addrs[NDIRECT] < |d| && iq.addrs[NDIRECT] < |e|
    requires lo <= bn < MAXFILE
    requires forall k :: lo <= k < bn ==> SlotBlock(e, iq, SlotOf(k)) == SlotBlock(d, ip, SlotOf(k))
    ensures DataOf(e, iq, lo, bn + 1) == DataOf(d, ip, lo, bn) + {SlotBlock(e, iq, SlotOf(bn))}
  {
    hide SlotBlock;
  }

  // tot bytes from off have been written, and l is exactly what that has logged.
  ghost predicate Track(sb: Super, i: nat, o0: Owner, o: Owner, l0: set<nat>, l: set<nat>, d: Disk, ip: Inode, off: nat, tot: nat)
  {
    && |ip.addrs| == NDIRECT + 1 && ip.addrs[NDIRECT] < |d| && Reach(off, tot) <= MAXFILE
    && Logged(sb, i, o0, o, l0, l, DataOf(d, ip, off / BSIZE, Reach(off, tot)), ip.addrs[NDIRECT])
  }

  lemma TrackStart(sb: Super, i: nat, o: Owner, l: set<nat>, d: Disk, ip: Inode, off: nat)
    requires |ip.addrs| == NDIRECT + 1 && ip.addrs[NDIRECT] < |d| && off <= MAXFILE * BSIZE
    ensures Track(sb, i, o, o, l, l, d, ip, off, 0)
  {
    LoggedNone(sb, i, o, l, ip.addrs[NDIRECT]);
    assert DataOf(d, ip, off / BSIZE, off / BSIZE) == {};
  }

  lemma ReachStep(off: nat, tot: nat, n: nat)
    requires tot < n && (tot == 0 || (off + tot) % BSIZE == 0) && off + n <= MAXFILE * BSIZE
    ensures var m := Min(n - tot, BSIZE - (off + tot) % BSIZE);
            && Reach(off, tot) == (off + tot) / BSIZE < MAXFILE
            && Reach(off, tot + m) == (off + tot) / BSIZE + 1
  {
  }

  // An entry of the indirect block is new only if there is an indirect block.
  lemma DeepInd(sb: Super, i: nat, o0: Owner, o: Owner, d: Disk, t: Table)
    requires Tree(sb, d, t, o) && i in t && Deep(o0, o) && forall b :: b in o && b !in o0 ==> o[b].inum == i
    ensures t[i].addrs[NDIRECT] != 0
  {
    var b :| b in o && b !in o0 && o[b].s > NDIRECT;
    assert SlotBlock(d, t[i], o[b].s) == b;
  }

  lemma BackedBefore(d: Disk, ip: Inode, size: nat, off: nat, tot: nat, k: nat)
    requires |ip.addrs| == NDIRECT + 1 && ip.addrs[NDIRECT] < |d| && Backed(d, ip, size) && off + tot <= size
    requires k < (off + tot) / BSIZE
    ensures k < MAXFILE && SlotBlock(d, ip, SlotOf(k)) != 0
  {
    assert k * BSIZE < size;
  }

  lemma TrackStep(sb: Super, d0: Disk, t0: Table, d: Disk, t: Table, o: Owner, i: nat, off: nat, src: seq<byte>, tot: nat,
                  o0: Owner, l0: set<nat>, l: set<nat>, e: Disk, iq: Inode, o': Owner, l': set<nat>)
    requires Progress(sb, d0, t0, d, t, o, i, off, src, tot) && tot < |src| && off + |src| <= MAXFILE * BSIZE
    requires tot == 0 || (off + tot) % BSIZE == 0
    requires Track(sb, i, o0, o, l0, l, d, t[i], off, tot)
    requires |iq.addrs| == NDIRECT + 1 && iq.addrs[NDIRECT] < |e| && SlotsKept(d, t[i], e, iq)
    requires (off + tot) / BSIZE < MAXFILE
    requires Logged(sb, i, o, o', l, l', {SlotBlock(e, iq, SlotOf((off + tot) / BSIZE))}, iq.addrs[NDIRECT])
    ensures Track(sb, i, o0, o', l0, l', e, iq, off, tot + Min(|src| - tot, BSIZE - (off + tot) % BSIZE))
  {
    hide Written, OthersSame, Owned, Marked, GetWord, LogOf, Deep, SlotBlock, Logged, DataOf, SlotsKept, Backed;
    ReachStep(off, tot, |src|);
    TrackSlots(d0, t0[i], d, t[i], e, iq, off, src, tot);
    if Deep(o0, o) {
      LoggedOwners(sb, i, o0, o, l0, l, DataOf(d, t[i], off / BSIZE, (off + tot) / BSIZE), t[i].addrs[NDIRECT]);
      DeepInd(sb, i, o0, o, d, t);
      IndKept(d, t[i], e, iq);
    }
    TrackCore(sb, i, o0, o, o', l0, l, l', d, t[i], e, iq, off / BSIZE, (off + tot) / BSIZE);
  }

  lemma LoggedOwners(sb: Super, i: nat, o0: Owner, o: Owner, l0: set<nat>, l: set<nat>, data: set<nat>, ind: nat)
    requires Logged(sb, i, o0, o, l0, l, data, ind)
    ensures forall b :: b in o && b !in o0 ==> o[b].inum == i
  {
  }

  lemma TrackCore(sb: Super, i: nat, o0: Owner, o: Owner, o': Owner, l0: set<nat>, l: set<nat>, l': set<nat>,
                  d: Disk, ip: Inode, e: Disk, iq: Inode, lo: nat, bn: nat)
    requires |ip.addrs| == |iq.addrs| == NDIRECT + 1 && ip.addrs[NDIRECT] < |d| && iq.addrs[NDIRECT] < |e|
    requires lo <= bn < MAXFILE
    requires forall k: nat :: lo <= k < bn ==> SlotBlock(e, iq, SlotOf(k)) == SlotBlock(d, ip, SlotOf(k))
    requires Logged(sb, i, o0, o, l0, l, DataOf(d, ip, lo, bn), ip.addrs[NDIRECT])
    requires Logged(sb, i, o, o', l, l', {SlotBlock(e, iq, SlotOf(bn))}, iq.addrs[NDIRECT])
    requires Deep(o0, o) ==> ip.addrs[NDIRECT] == iq.addrs[NDIRECT]
    ensures Logged(sb, i, o0, o', l0, l', DataOf(e, iq, lo, bn + 1), iq.addrs[NDIRECT])
  {
    hide LogOf, Deep, SlotBlock, Logged, DataOf;
    DataStep(d, ip, e, iq, lo, bn);
    LoggedThen(sb, i, o0, o, o', l0, l, l', DataOf(d, ip, lo, bn), {SlotBlock(e, iq, SlotOf(bn))},
               ip.addrs[NDIRECT], iq.addrs[NDIRECT]);
  }

  lemma IndKept(d: Disk, ip: Inode, e: Disk, iq: Inode)
    requires |ip.addrs| == |iq.addrs| == NDIRECT + 1 && ip.addrs[NDIRECT] < |d| && iq.addrs[NDIRECT] < |e|
    requires SlotsKept(d, ip, e, iq) && ip.addrs[NDIRECT] != 0
    ensures iq.addrs[NDIRECT] == ip.addrs[NDIRECT]
  {
    assert SlotBlock(d, ip, NDIRECT) == ip.addrs[NDIRECT] && SlotBlock(e, iq, NDIRECT) == iq.addrs[NDIRECT];
  }

  lemma TrackSlots(d0: Disk, ip0: Inode, d: Disk, ip: Inode, e: Disk, iq: Inode, off: nat, src: seq<byte>, tot: nat)
    requires |ip0.addrs| == |ip.addrs| == |iq.addrs| == NDIRECT + 1
    requires ip0.addrs[NDIRECT] < |d0| && ip.addrs[NDIRECT] < |d| && iq.addrs[NDIRECT] < |e| && (off + tot) / BSIZE < MAXFILE
    requires Backed(d0, ip0, ip0.size) && off <= ip0.size && tot <= |src|
    requires Written(d0, ip0, d, ip, off, src, off + tot) && SlotsKept(d, ip, e, iq)
    ensures forall k: nat :: off / BSIZE <= k < (off + tot) / BSIZE ==> SlotBlock(e, iq, SlotOf(k)) == SlotBlock(d, ip, SlotOf(k))
  {
    hide SlotBlock, Backed;
    forall k: nat | off / BSIZE <= k < (off + tot) / BSIZE
      ensures SlotBlock(e, iq, SlotOf(k)) == SlotBlock(d, ip, SlotOf(k))
    {
      BackedBefore(d, ip, Max(ip0.size, off + tot), off, tot, k);
    }
  }

  // Everything a write of n bytes at off has logged; grew says whether the inode was too.
  ghost function WriteLog(sb: Super, i: nat, o0: Owner, o: Owner, l0: set<nat>, d: Disk, ip: Inode, off: nat, n: nat, grew: bool)
    : (l: set<nat>)
    requires |ip.addrs| == NDIRECT + 1 && ip.addrs[NDIRECT] < |d| && Reach(off, n) <= MAXFILE
  {
    LogOf(sb, o0, o, l0, DataOf(d, ip, off / BSIZE, Reach(off, n)), ip.addrs[NDIRECT]) + (if grew then {IBlock(sb, i)} else {})
  }

  lemma TrackEnd(sb: Super, i: nat, o0: Owner, o: Owner, l0: set<nat>, l: set<nat>, d: Disk, t: Table, off: nat, n: nat, size: nat)
    requires i in t && Track(sb, i, o0, o, l0, l, d, t[i], off, n)
    requires Tree(sb, d, t[i := t[i].(size := size)], o)
    ensures var t' := t[i := t[i].(size := size)]; var e := UpdateDisk(sb, d, i, t'[i]);
            && Reach(off, n) <= MAXFILE && |t'[i].addrs| == NDIRECT + 1 && t'[i].addrs[NDIRECT] < |e|
            && l + {IBlock(sb, i)} == WriteLog(sb, i, o0, o, l0, e, t'[i], off, n, true)
  {
    var t' := t[i := t[i].(size := size)];
    UpdateKeepsTree(sb, d, t', o, i);
    SameData(d, t[i], UpdateDisk(sb, d, i, t'[i]), t'[i], off / BSIZE, Reach(off, n));
    hide SlotBlock, LogOf, DataOf, UpdateDisk, Tree;
  }

  lemma TrackOver(sb: Super, i: nat, o0: Owner, o: Owner, l0: set<nat>, l: set<nat>, d: Disk, ip: Inode, off: nat, n: nat)
    requires Track(sb, i, o0, o, l0, l, d, ip, off, n)
    ensures |ip.addrs| == NDIRECT + 1 && ip.addrs[NDIRECT] < |d| && Reach(off, n) <= MAXFILE
    ensures l == WriteLog(sb, i, o0, o, l0, d, ip, off, n, false)
  {
    hide LogOf, DataOf;
  }

  lemma SameData(d: Disk, ip: Inode, e: Disk, iq: Inode, lo: nat, hi: nat)
    requires |ip.addrs| == |iq.addrs| == NDIRECT + 1 && ip.addrs[NDIRECT] < |d| && iq.addrs[NDIRECT] < |e| && hi <= MAXFILE
    requires iq.addrs == ip.addrs && forall r :: 0 <= r < NSLOTS ==> SlotBlock(e, iq, r) == SlotBlock(d, iq, r)
    ensures DataOf(e, iq, lo, hi) == DataOf(d, ip, lo, hi)
  {
    forall r: nat | r < NSLOTS
      ensures SlotBlock(d, iq, r) == SlotBlock(d, ip, r)
    {
    }
    hide SlotBlock;
    assert forall bn: nat :: lo <= bn < hi ==> SlotBlock(e, iq, SlotOf(bn)) == SlotBlock(d, ip, SlotOf(bn));
  }

  lemma TenBlocks(sb: Super, added: set<nat>, first: nat, i: nat)
    requires Layout(sb) && i < sb.ninodes && |added| == 4 && first !in added && sb.nmeta <= first < sb.size
    requires forall b :: b in added ==> sb.nmeta <= b < sb.size
    requires forall b, c :: b in added && c in added && b != c ==> BBlock(sb, b) != BBlock(sb, c)
    ensures |{first} + added + MapsOf(sb, added) + {IBlock(sb, i)}| == MAXOPBLOCKS
  {
    var maps := MapsOf(sb, added);
    MapsDistinct(sb, added);
    forall m | m in maps
      ensures m < sb.nmeta && m != IBlock(sb, i)
    {
      var b :| b in added && m == BBlock(sb, b);
      assert IsBitmap(sb, m);
    }
    assert {first} + added + maps + {IBlock(sb, i)} == {first} + (added + (maps + {IBlock(sb, i)}));
  }

  // The bound of ten is exact: a write that starts in block `first`, adds an indirect
  // block and data blocks, four blocks in all, under four different bitmap blocks, and
  // makes the file grow logs ten blocks.
  lemma TenAreReached(sb: Super, i: nat, o0: Owner, o: Owner, d: Disk, ip: Inode, off: nat, n: nat, first: nat)
    requires Layout(sb) && i < sb.ninodes && |ip.addrs| == NDIRECT + 1 && ip.addrs[NDIRECT] < |d| && Reach(off, n) <= MAXFILE
    requires var added := o.Keys - o0.Keys;
             && |added| == 4 && ip.addrs[NDIRECT] in added && first !in added && sb.nmeta <= first < sb.size
             && (forall b :: b in added ==> sb.nmeta <= b < sb.size)
             && (forall b, c :: b in added && c in added && b != c ==> BBlock(sb, b) != BBlock(sb, c))
             && DataOf(d, ip, off / BSIZE, Reach(off, n)) == {first} + (added - {ip.addrs[NDIRECT]})
    ensures |WriteLog(sb, i, o0, o, {}, d, ip, off, n, true)| == MAXOPBLOCKS
  {
    hide DataOf, MapsOf, Deep, BBlock, IBlock, Layout;
    var added, ind := o.Keys - o0.Keys, ip.addrs[NDIRECT];
    TenBlocks(sb, added, first, i);
    assert WriteLog(sb, i, o0, o, {}, d, ip, off, n, true) == {first} + added + MapsOf(sb, added) + {IBlock(sb, i)};
  }

  lemma {:induction false} MapsDistinct(sb: Super, s: set<nat>)
    requires forall b, c :: b in s && c in s && b != c ==> BBlock(sb, b) != BBlock(sb, c)
    ensures |MapsOf(sb, s)| == |s|
    decreases |s|
  {
    if s == {} {
      assert MapsOf(sb, s) == {};
    } else {
      var b :| b in s;
      MapsDistinct(sb, s - {b});
      assert MapsOf(sb, s) == MapsOf(sb, s - {b}) + {BBlock(sb, b)};
      assert BBlock(sb, b) !in MapsOf(sb, s - {b});
    }
  }

  // A chunk fits one transaction, whatever its alignment and however many bitmap
  // blocks it touches.
  lemma ChunkFits(off: nat, n: nat)
    requires n <= CHUNK
    ensures WriteCost(off, n) <= MAXOPBLOCKS == WriteCost(1, CHUNK)
  {
    if n > 0 {
      assert off == BSIZE * (off / BSIZE) + off % BSIZE;
      assert (off + n - 1) / BSIZE <= off / BSIZE + (off % BSIZE + n - 1) / BSIZE;
    }
  }

  // Two adjacent writes are one longer write.
  lemma SpliceSplice(c: seq<byte>, off: nat, a: seq<byte>, b: seq<byte>)
    requires off <= |c|
    ensures off + |a| <= |Splice(c, off, a)|
    ensures Splice(Splice(c, off, a), off + |a|, b) == Splice(c, off, a + b)
  {
    var l, r := Splice(Splice(c, off, a), off + |a|, b), Splice(c, off, a + b);
    assert |l| == |r|;
    forall k | 0 <= k < |l|
      ensures l[k] == r[k]
    {
    }
  }

  // The first `done` bytes of src are in the file, nothing else has changed.
  predicate PrefixWritten(sb: Super, d: Disk, t: Table, e: Disk, u: Table, i: nat, off: nat, src: seq<byte>, done: nat)
  {
    && Readable(sb, d, t) && Readable(sb, e, u) && i in t && done <= |src|
    && if done == 0 then e == d && u == t
       else off <= t[i].size && FileSpliced(sb, d, t, e, u, i, off, src[..done])
  }

  lemma PrefixStep(sb: Super, d: Disk, t: Table, e: Disk, u: Table, f: Disk, v: Table, i: nat, off: nat,
                   src: seq<byte>, done: nat, n: nat)
    requires PrefixWritten(sb, d, t, e, u, i, off, src, done) && done + n <= |src| && n > 0
    requires Readable(sb, f, v) && i in u && off + done <= u[i].size
    requires FileSpliced(sb, e, u, f, v, i, off + done, src[done..done + n])
    ensures PrefixWritten(sb, d, t, f, v, i, off, src, done + n)
  {
    hide Content, Backed;
    if done > 0 {
      SpliceSplice(Content(d, t[i]), off, src[..done], src[done..done + n]);
    }
    assert src[..done] + src[done..done + n] == src[..done + n];
  }

  lemma PrefixStart(sb: Super, d: Disk, t: Table, i: nat, off: nat, src: seq<byte>)
    requires Readable(sb, d, t) && i in t
    ensures PrefixWritten(sb, d, t, d, t, i, off, src, 0)
  {
  }

  // Beyond its contents a spliced file keeps its inode, except size and blocks.
  lemma SplicedKeeps(sb: Super, d: Disk, t: Table, e: Disk, u: Table, i: nat, off: nat, src: seq<byte>)
    requires Readable(sb, d, t) && Readable(sb, e, u) && i in t && off <= t[i].size
    requires FileSpliced(sb, d, t, e, u, i, off, src)
    ensures u.Keys == t.Keys && u[i].typ == t[i].typ && off + |src| <= u[i].size
  {
    hide Backed;
    assert |Splice(Content(d, t[i]), off, src)| == u[i].size;
  }
}
