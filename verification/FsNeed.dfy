/**
 How many new blocks a write needs, and which it gets: one for each block of the
 file that it reaches and that is not there, and one for the indirect block if
 that is missing; the lowest-numbered free ones.  A write panics exactly if
 fewer are free.
 */
module FsNeed {
  import opened Basics
  import opened Blocks
  import opened FsLayout
  import opened FsTree
  import opened FsWrite

  // The slots that mapping file blocks lo to hi-1 uses.
  predicate InSpan(lo: nat, hi: nat, s: nat)
  {
    if s < NDIRECT then lo <= s < hi
    else if s == NDIRECT then lo < hi && NDIRECT < hi
    else lo <= s - 1 < hi
  }

  predicate NeedsSlot(d: Disk, ip: Inode, lo: nat, hi: nat, s: nat)
    requires |ip.addrs| == NDIRECT + 1 && ip.addrs[NDIRECT] < |d| && s < NSLOTS
  {
    InSpan(lo, hi, s) && SlotBlock(d, ip, s) == 0
  }

  // The slots that have to be filled to write file blocks lo to hi-1.
  function Needed(d: Disk, ip: Inode, lo: nat, hi: nat): (ss: set<nat>)
    requires |ip.addrs| == NDIRECT + 1 && ip.addrs[NDIRECT] < |d|
  {
    set s: nat | s < NSLOTS && NeedsSlot(d, ip, lo, hi, s)
  }

  function FreeBlocks(sb: Super, d: Disk): (bs: set<nat>)
    requires Layout(sb) && |d| == sb.size
  {
    set b: nat | b < sb.size && !Bit(sb, d, b)
  }

  // Inode i has taken blocks for slots of the span, always the lowest that was free.
  ghost predicate Took(sb: Super, i: nat, o0: Owner, o: Owner, lo: nat, hi: nat)
  {
    && (forall b :: b in o0 ==> b in o && o[b] == o0[b])
    && (forall b :: b in o && b !in o0 ==> o[b].inum == i && InSpan(lo, hi, o[b].s))
    && Lowest(sb, o0, o)
  }

  ghost predicate Lowest(sb: Super, o0: Owner, o: Owner)
  {
    forall b, c: nat :: b in o && b !in o0 && sb.nmeta <= c < sb.size && c !in o ==> b < c
  }

  // No block is free, and file block bn of inode i has none.
  predicate Stuck(sb: Super, d: Disk, t: Table, i: nat, bn: nat)
  {
    && Layout(sb) && |d| == sb.size && Full(sb, d)
    && i in t && |t[i].addrs| == NDIRECT + 1 && t[i].addrs[NDIRECT] < |d|
    && bn < MAXFILE && SlotBlock(d, t[i], SlotOf(bn)) == 0
  }

  ghost predicate StuckIn(sb: Super, d: Disk, t: Table, i: nat, lo: nat, hi: nat)
  {
    exists bn: nat :: lo <= bn < hi && Stuck(sb, d, t, i, bn)
  }

  // --- along a write ----------------------------------------------------------------

  lemma TookNone(sb: Super, i: nat, o: Owner, lo: nat, hi: nat)
    ensures Took(sb, i, o, o, lo, hi)
  {
  }

  lemma TookOne(sb: Super, i: nat, o: Owner, b: nat, s: nat, lo: nat, hi: nat)
    requires b !in o && InSpan(lo, hi, s) && forall c: nat :: sb.nmeta <= c < b ==> c in o
    ensures Took(sb, i, o, o[b := Slot(i, s)], lo, hi)
  {
  }

  lemma TookThen(sb: Super, i: nat, o0: Owner, o1: Owner, o2: Owner, lo: nat, hi: nat, a: nat, b: nat)
    requires Took(sb, i, o0, o1, lo, hi) && Took(sb, i, o1, o2, a, b) && lo <= a && b <= hi
    ensures Took(sb, i, o0, o2, lo, hi)
  {
  }

  // --- the block map, for bodies that hide it ---------------------------------------------

  lemma BlockNumbers(bn: nat)
    ensures 0 <= NDIRECT < NSLOTS && (bn < NDIRECT ==> bn < MAXFILE) && (bn >= NDIRECT ==> (bn - NDIRECT < NINDIRECT <==> bn < MAXFILE))
    ensures bn < MAXFILE ==> SlotOf(bn) < NSLOTS
  {
  }

  lemma SlotFacts(sb: Super, d: Disk, t: Table, o: Owner, i: nat, bn: nat)
    requires Tree(sb, d, t, o) && i in t && bn < MAXFILE
    ensures |t[i].addrs| == NDIRECT + 1 > NDIRECT >= 0 && t[i].addrs[NDIRECT] < |d| && NDIRECT < NSLOTS && SlotOf(bn) < NSLOTS
    ensures SlotBlock(d, t[i], NDIRECT) == t[i].addrs[NDIRECT]
    ensures bn < NDIRECT ==> SlotOf(bn) == bn < |t[i].addrs| && SlotBlock(d, t[i], bn) == t[i].addrs[bn]
    ensures bn >= NDIRECT ==>
      && SlotOf(bn) == bn + 1 > NDIRECT && bn - NDIRECT < NWORDS
      && (t[i].addrs[NDIRECT] != 0 ==> SlotBlock(d, t[i], SlotOf(bn)) == GetWord(d[t[i].addrs[NDIRECT]], bn - NDIRECT))
    ensures SlotBlock(d, t[i], SlotOf(bn)) != 0 ==> SlotBlock(d, t[i], SlotOf(bn)) in o
  {
  }

  lemma AllocInode(t: Table, i: nat, s: nat, b: nat)
    requires i in t && |t[i].addrs| == NDIRECT + 1
    ensures var u := AllocTable(t, i, s, b);
            && u.Keys == t.Keys && |u[i].addrs| == |t[i].addrs| && (s > NDIRECT ==> u == t)
            && (s < NDIRECT ==> u[i].addrs[NDIRECT] == t[i].addrs[NDIRECT])
            && (s == NDIRECT ==> u[i].addrs[NDIRECT] == b)
  {
  }

  lemma OthersKeys(sb: Super, d: Disk, t: Table, e: Disk, u: Table, i: nat)
    requires Shapes(sb, d, t) && Shapes(sb, e, u) && OthersSame(sb, d, t, e, u, i)
    ensures u.Keys == t.Keys
  {
  }

  lemma ExtraIs(sb: Super, bn: nat, ind: nat, ind': nat)
    ensures Extra(sb, bn, ind, ind') == if bn < NDIRECT then {} else if ind != 0 then {ind'} else {BBlock(sb, ind'), ind'}
  {
  }

  lemma StuckIf(sb: Super, d: Disk, t: Table, o: Owner, i: nat, bn: nat)
    requires Tree(sb, d, t, o) && Full(sb, d) && i in t && bn < MAXFILE && SlotBlock(d, t[i], SlotOf(bn)) == 0
    ensures Stuck(sb, d, t, i, bn)
  {
  }

  // A turn of the loop, within the write's span.
  lemma TurnSpan(off: nat, n: nat, tot: nat)
    requires tot < n && off + n <= MAXFILE * BSIZE
    ensures off / BSIZE <= (off + tot) / BSIZE < Reach(off, n) <= MAXFILE
  {
  }

  lemma StuckFull(sb: Super, d: Disk, t: Table, i: nat, lo: nat, hi: nat)
    requires StuckIn(sb, d, t, i, lo, hi)
    ensures Layout(sb) && |d| == sb.size && Full(sb, d) && i in t
  {
  }

  // Without an indirect block none of its entries is there.
  lemma StuckDeep(sb: Super, d: Disk, t: Table, i: nat, bn: nat)
    requires Layout(sb) && |d| == sb.size && Full(sb, d) && i in t && |t[i].addrs| == NDIRECT + 1 && 0 < |d|
    requires t[i].addrs[NDIRECT] == 0 && NDIRECT <= bn < MAXFILE
    ensures Stuck(sb, d, t, i, bn)
  {
  }

  // --- counting ------------------------------------------------------------------------

  lemma OwnersFit(sb: Super, d: Disk, t: Table, o: Owner)
    requires Tree(sb, d, t, o)
    ensures o.Keys <= Range(sb.nmeta, sb.size)
    ensures FreeBlocks(sb, d) == Range(sb.nmeta, sb.size) - o.Keys
  {
    hide Range, SlotBlock;
  }

  lemma FreeCount(sb: Super, d: Disk, t: Table, o: Owner)
    requires Tree(sb, d, t, o)
    ensures |FreeBlocks(sb, d)| == sb.size - sb.nmeta - |o|
  {
    OwnersFit(sb, d, t, o);
    hide Range, Owned, Marked, FreeBlocks;
    RangeSize(sb.nmeta, sb.size);
    Inside(o.Keys, Range(sb.nmeta, sb.size));
  }

  lemma FullCount(sb: Super, d: Disk, t: Table, o: Owner)
    requires Tree(sb, d, t, o) && Full(sb, d)
    ensures |o| == sb.size - sb.nmeta
  {
    FreeCount(sb, d, t, o);
    hide Owned, Marked;
    assert FreeBlocks(sb, d) == {};
  }

  // A slot that was taken was needed: had it a block before, it would have kept it.
  lemma TookNeeded(sb: Super, d0: Disk, t0: Table, o0: Owner, d: Disk, t: Table, o: Owner, i: nat, lo: nat, hi: nat, b: nat)
    requires Tree(sb, d0, t0, o0) && Tree(sb, d, t, o) && i in t0 && i in t && Took(sb, i, o0, o, lo, hi)
    requires b in o && b !in o0
    ensures o[b].s < NSLOTS && o[b].s in Needed(d0, t0[i], lo, hi) && SlotBlock(d, t[i], o[b].s) == b
  {
    var s := o[b].s;
    assert SlotBlock(d0, t0[i], s) == 0;
    assert SlotBlock(d, t[i], s) == b;
    hide SlotBlock;
  }

  lemma TookKeeps(sb: Super, i: nat, o0: Owner, o: Owner, lo: nat, hi: nat)
    requires Took(sb, i, o0, o, lo, hi)
    ensures forall b :: b in o0 ==> b in o && o[b] == o0[b]
  {
  }

  lemma TreeShape(sb: Super, d: Disk, t: Table, o: Owner, i: nat)
    requires Tree(sb, d, t, o) && i in t
    ensures Layout(sb) && |d| == sb.size && |t[i].addrs| == NDIRECT + 1 > NDIRECT >= 0 && t[i].addrs[NDIRECT] < |d|
    ensures forall bn: nat :: bn < MAXFILE ==> SlotOf(bn) < NSLOTS
  {
  }

  lemma TookSlots(sb: Super, d0: Disk, t0: Table, o0: Owner, d: Disk, t: Table, o: Owner, i: nat, lo: nat, hi: nat,
                  ss: set<nat>) returns (g: map<nat, nat>)
    requires Tree(sb, d0, t0, o0) && Tree(sb, d, t, o) && i in t0 && i in t && Took(sb, i, o0, o, lo, hi)
    requires forall b :: b in o && b !in o0 ==> o[b].s in ss
    ensures g.Keys == o.Keys - o0.Keys && forall b :: b in g ==> g[b] == o[b].s
    ensures |o| == |o0| + |g| && |g| <= |ss|
    ensures (forall s :: s in ss ==> exists b :: b in g && g[b] == s) ==> |g| == |ss|
  {
    hide *;
    TookKeeps(sb, i, o0, o, lo, hi);
    TreeShape(sb, d0, t0, o0, i);
    TreeShape(sb, d, t, o, i);
    g := map b | b in o && b !in o0 :: o[b].s;
    forall x, y | x in g && y in g && x != y
      ensures g[x] != g[y]
    {
      TookNeeded(sb, d0, t0, o0, d, t, o, i, lo, hi, x);
      TookNeeded(sb, d0, t0, o0, d, t, o, i, lo, hi, y);
    }
    ImageSize(g, ss);
    Inside(o0.Keys, o.Keys);
    assert g.Keys == o.Keys - o0.Keys;
  }

  // What a write that goes through has taken: exactly what it needed.
  lemma TookAll(sb: Super, d0: Disk, t0: Table, o0: Owner, d: Disk, t: Table, o: Owner, i: nat, lo: nat, hi: nat)
    requires Tree(sb, d0, t0, o0) && Tree(sb, d, t, o) && i in t0 && i in t && Took(sb, i, o0, o, lo, hi) && hi <= MAXFILE
    requires forall bn: nat :: lo <= bn < hi ==> SlotBlock(d, t[i], SlotOf(bn)) != 0
    ensures |o| == |o0| + |Needed(d0, t0[i], lo, hi)| && |Needed(d0, t0[i], lo, hi)| <= |FreeBlocks(sb, d0)|
  {
    hide *;
    TookKeeps(sb, i, o0, o, lo, hi);
    TreeShape(sb, d0, t0, o0, i);
    TreeShape(sb, d, t, o, i);
    var ss := Needed(d0, t0[i], lo, hi);
    forall b | b in o && b !in o0
      ensures o[b].s in ss
    {
      TookNeeded(sb, d0, t0, o0, d, t, o, i, lo, hi, b);
    }
    var g := TookSlots(sb, d0, t0, o0, d, t, o, i, lo, hi, ss);
    forall s | s in ss
      ensures exists b :: b in g && g[b] == s
    {
      NeededSlot(d0, t0[i], lo, hi, s);
      SlotTaken(sb, d0, t0, o0, d, t, o, i, lo, hi, s);
      var b := SlotBlock(d, t[i], s);
      assert b in g && g[b] == s;
    }
    FreeCount(sb, d0, t0, o0);
    FreeCount(sb, d, t, o);
  }

  lemma NeededSlot(d: Disk, ip: Inode, lo: nat, hi: nat, s: nat)
    requires |ip.addrs| == NDIRECT + 1 && ip.addrs[NDIRECT] < |d| && s in Needed(d, ip, lo, hi)
    ensures s < NSLOTS && SlotBlock(d, ip, s) == 0
  {
  }

  // A needed slot now has a new block.
  lemma SlotTaken(sb: Super, d0: Disk, t0: Table, o0: Owner, d: Disk, t: Table, o: Owner, i: nat, lo: nat, hi: nat, s: nat)
    requires Tree(sb, d0, t0, o0) && Tree(sb, d, t, o) && i in t0 && i in t && hi <= MAXFILE
    requires forall bn: nat :: lo <= bn < hi ==> SlotBlock(d, t[i], SlotOf(bn)) != 0
    requires s < NSLOTS && s in Needed(d0, t0[i], lo, hi)
    requires forall b :: b in o0 ==> b in o && o[b] == o0[b]
    ensures var b := SlotBlock(d, t[i], s); b != 0 && b in o && b !in o0 && o[b] == Slot(i, s)
  {
    if s == NDIRECT {
      assert SlotOf(hi - 1) == hi && SlotBlock(d, t[i], SlotOf(hi - 1)) != 0;
    } else {
      var bn := if s < NDIRECT then s else s - 1;
      assert SlotOf(bn) == s;
    }
    var b := SlotBlock(d, t[i], s);
    assert b != 0 && b in o && o[b] == Slot(i, s);
    assert b !in o0;
  }

  // A slot that still has no block, and was needed.
  lemma LackedSlot(sb: Super, d0: Disk, t0: Table, o0: Owner, d: Disk, t: Table, o: Owner, i: nat, lo: nat, hi: nat)
    returns (s: nat)
    requires Tree(sb, d0, t0, o0) && Tree(sb, d, t, o) && i in t0 && i in t && Took(sb, i, o0, o, lo, hi)
    requires StuckIn(sb, d, t, i, lo, hi)
    ensures s < NSLOTS && s in Needed(d0, t0[i], lo, hi) && SlotBlock(d, t[i], s) == 0
  {
    var bn: nat :| lo <= bn < hi && Stuck(sb, d, t, i, bn);
    hide Full;
    s := SlotOf(bn);
    assert SlotBlock(d0, t0[i], s) == 0;
  }

  lemma NotZero(sb: Super, d: Disk, t: Table, o: Owner, b: nat)
    requires Tree(sb, d, t, o) && b in o
    ensures b != 0
  {
  }

  // A write that gives up on a full disk needed more than was free.
  lemma TookShort(sb: Super, d0: Disk, t0: Table, o0: Owner, d: Disk, t: Table, o: Owner, i: nat, lo: nat, hi: nat)
    requires Tree(sb, d0, t0, o0) && Tree(sb, d, t, o) && i in t0 && i in t && Took(sb, i, o0, o, lo, hi)
    requires StuckIn(sb, d, t, i, lo, hi)
    ensures |FreeBlocks(sb, d0)| < |Needed(d0, t0[i], lo, hi)|
  {
    hide *;
    TookKeeps(sb, i, o0, o, lo, hi);
    TreeShape(sb, d0, t0, o0, i);
    TreeShape(sb, d, t, o, i);
    StuckFull(sb, d, t, i, lo, hi);
    var s := LackedSlot(sb, d0, t0, o0, d, t, o, i, lo, hi);
    var ss := Needed(d0, t0[i], lo, hi);
    forall b | b in o && b !in o0
      ensures o[b].s in ss - {s}
    {
      TookNeeded(sb, d0, t0, o0, d, t, o, i, lo, hi, b);
      NotZero(sb, d, t, o, b);
    }
    var g := TookSlots(sb, d0, t0, o0, d, t, o, i, lo, hi, ss - {s});
    FullCount(sb, d, t, o);
    FreeCount(sb, d0, t0, o0);
  }

  lemma SpanSlots(bn: nat)
    requires bn < MAXFILE
    ensures InSpan(bn, bn + 1, SlotOf(bn)) && (bn >= NDIRECT ==> InSpan(bn, bn + 1, NDIRECT))
  {
  }

  // A write of n bytes at off needs more new blocks than there are.
  predicate NotEnough(sb: Super, d: Disk, ip: Inode, off: nat, n: nat)
    requires Layout(sb) && |d| == sb.size && |ip.addrs| == NDIRECT + 1 && ip.addrs[NDIRECT] < |d|
  {
    |FreeBlocks(sb, d)| < |Needed(d, ip, off / BSIZE, Reach(off, n))|
  }

  // Mapping file blocks lo to hi-1 of inode i needs more new blocks than there are.
  predicate TooFew(sb: Super, d: Disk, t: Table, i: nat, lo: nat, hi: nat)
  {
    && Layout(sb) && |d| == sb.size && i in t && |t[i].addrs| == NDIRECT + 1 && t[i].addrs[NDIRECT] < |d|
    && |FreeBlocks(sb, d)| < |Needed(d, t[i], lo, hi)|
  }

  lemma FewIfStuck(sb: Super, d0: Disk, t0: Table, o0: Owner, d: Disk, t: Table, o: Owner, i: nat, bn: nat)
    requires Tree(sb, d0, t0, o0) && Tree(sb, d, t, o) && i in t0 && i in t && Took(sb, i, o0, o, bn, bn + 1) && Stuck(sb, d, t, i, bn)
    ensures TooFew(sb, d0, t0, i, bn, bn + 1)
  {
    hide Tree, Took, Stuck, Needed, FreeBlocks;
    TreeShape(sb, d0, t0, o0, i);
    assert StuckIn(sb, d, t, i, bn, bn + 1);
    TookShort(sb, d0, t0, o0, d, t, o, i, bn, bn + 1);
  }

  lemma EnoughIfFound(sb: Super, d0: Disk, t0: Table, o0: Owner, d: Disk, t: Table, o: Owner, i: nat, bn: nat)
    requires Tree(sb, d0, t0, o0) && Tree(sb, d, t, o) && i in t0 && i in t && Took(sb, i, o0, o, bn, bn + 1) && bn < MAXFILE
    requires SlotBlock(d, t[i], SlotOf(bn)) != 0
    ensures !TooFew(sb, d0, t0, i, bn, bn + 1)
  {
    hide Tree, Took, Needed, FreeBlocks, SlotBlock;
    TookAll(sb, d0, t0, o0, d, t, o, i, bn, bn + 1);
  }

  lemma PanicsShort(sb: Super, d0: Disk, t0: Table, o0: Owner, d: Disk, t: Table, o: Owner, i: nat, off: nat, n: nat)
    requires Tree(sb, d0, t0, o0) && Tree(sb, d, t, o) && i in t0
    requires Took(sb, i, o0, o, off / BSIZE, Reach(off, n)) && StuckIn(sb, d, t, i, off / BSIZE, Reach(off, n))
    ensures Layout(sb) && |d0| == |d| == sb.size && |t0[i].addrs| == NDIRECT + 1 && t0[i].addrs[NDIRECT] < |d0|
    ensures NotEnough(sb, d0, t0[i], off, n) && Full(sb, d)
  {
    hide Tree, Took, StuckIn, Full, Needed, FreeBlocks;
    TreeShape(sb, d0, t0, o0, i);
    StuckFull(sb, d, t, i, off / BSIZE, Reach(off, n));
    TookShort(sb, d0, t0, o0, d, t, o, i, off / BSIZE, Reach(off, n));
  }

  lemma GoesThrough(sb: Super, d0: Disk, t0: Table, o0: Owner, d: Disk, t: Table, o: Owner, i: nat, off: nat, src: seq<byte>)
    requires Tree(sb, d0, t0, o0) && i in t0 && off + |src| <= MAXFILE * BSIZE
    requires Progress(sb, d0, t0, d, t, o, i, off, src, |src|) && Took(sb, i, o0, o, off / BSIZE, Reach(off, |src|))
    ensures |t0[i].addrs| == NDIRECT + 1 && t0[i].addrs[NDIRECT] < |d0|
    ensures !NotEnough(sb, d0, t0[i], off, |src|)
    ensures |o| == |o0| + |Needed(d0, t0[i], off / BSIZE, Reach(off, |src|))|
  {
    hide OthersSame, Owned, Marked, Took, Needed, FreeBlocks, SlotBlock;
    var lo, hi := off / BSIZE, Reach(off, |src|);
    forall bn: nat | lo <= bn < hi
      ensures bn < MAXFILE && SlotBlock(d, t[i], SlotOf(bn)) != 0
    {
      assert bn * BSIZE < off + |src|;
    }
    TookAll(sb, d0, t0, o0, d, t, o, i, lo, hi);
  }

  // --- filewrite -----------------------------------------------------------------------

  lemma FileLimits()
    ensures 0 < CHUNK && CHUNK < UINT_LIMIT && 0 < MAXOPBLOCKS && MAXFILE * BSIZE < UINT_LIMIT
  {
  }

  lemma NotRejected(size: nat, off: nat, n: nat)
    requires !Rejects(size, off, n)
    ensures off <= size && off + n < UINT_LIMIT
  {
  }

  // filewrite is turned down only for an offset behind the end of the file or a write past
  // the largest file.
  lemma StopsOnly(sb: Super, d: Disk, t: Table, e: Disk, u: Table, i: nat, off: nat, src: seq<byte>, done: nat)
    requires PrefixWritten(sb, d, t, e, u, i, off, src, done) && done < |src| && i in u
    requires Rejects(u[i].size, off + done, Min(|src| - done, CHUNK))
    ensures off > t[i].size || off + |src| > MAXFILE * BSIZE
  {
    hide Content, Backed, Splice, FileSpliced;
    if done > 0 && off <= t[i].size {
      SplicedKeeps(sb, d, t, e, u, i, off, src[..done]);
    }
  }

  // done bytes of src are in the file, on disk e, and the next chunk finds too few
  // free blocks there.
  ghost predicate PanicsAt(sb: Super, d: Disk, t: Table, e: Disk, u: Table, i: nat, off: nat, src: seq<byte>, done: nat)
  {
    && done < |src| && PrefixWritten(sb, d, t, e, u, i, off, src, done)
    && Layout(sb) && |e| == sb.size && i in u && |u[i].addrs| == NDIRECT + 1 && u[i].addrs[NDIRECT] < |e|
    && NotEnough(sb, e, u[i], off + done, Min(|src| - done, CHUNK))
  }

  lemma PanicsIf(sb: Super, d: Disk, t: Table, e: Disk, u: Table, i: nat, off: nat, src: seq<byte>, done: nat, n: nat)
    requires done < |src| && PrefixWritten(sb, d, t, e, u, i, off, src, done) && n == Min(|src| - done, CHUNK)
    requires Layout(sb) && |e| == sb.size && i in u && |u[i].addrs| == NDIRECT + 1 && u[i].addrs[NDIRECT] < |e|
    requires NotEnough(sb, e, u[i], off + done, n)
    ensures PanicsAt(sb, d, t, e, u, i, off, src, done)
  {
    hide PrefixWritten, NotEnough;
  }

  // --- the bound of ten is reached -----------------------------------------------------------

  // The four lowest free blocks, each under a bitmap block of its own.
  ghost predicate LowestFour(sb: Super, d: Disk, four: set<nat>)
    requires Layout(sb) && |d| == sb.size
  {
    && |four| == 4 && four <= FreeBlocks(sb, d)
    && (forall b, c :: b in four && c in FreeBlocks(sb, d) && c !in four ==> b < c)
    && (forall b, c :: b in four && c in four && b != c ==> BBlock(sb, b) != BBlock(sb, c))
  }

  // A chunk that starts inside the last direct block of a file without indirect block.
  predicate Crossing(ip: Inode, off: nat)
  {
    && |ip.addrs| == NDIRECT + 1 && ip.addrs[NDIRECT] == 0
    && off / BSIZE == NDIRECT - 1 && off % BSIZE != 0 && off <= ip.size <= NDIRECT * BSIZE
  }

  lemma CrossingSpan(ip: Inode, off: nat)
    requires Crossing(ip, off)
    ensures Reach(off, CHUNK) == NDIRECT + 3 && off + CHUNK > ip.size && !Rejects(ip.size, off, CHUNK) && CHUNK < UINT_LIMIT
    ensures (NDIRECT - 1) * BSIZE < off <= ip.size && off < UINT_LIMIT
  {
  }

  // It needs the indirect block and three data blocks.
  lemma CrossingNeeds(d: Disk, ip: Inode, off: nat)
    requires Crossing(ip, off) && 0 < |d| && Backed(d, ip, ip.size)
    ensures Needed(d, ip, NDIRECT - 1, NDIRECT + 3) == {NDIRECT, NDIRECT + 1, NDIRECT + 2, NDIRECT + 3}
    ensures |Needed(d, ip, NDIRECT - 1, NDIRECT + 3)| == 4
    ensures SlotBlock(d, ip, NDIRECT - 1) != 0
  {
    CrossingSpan(ip, off);
    assert SlotOf(NDIRECT - 1) == NDIRECT - 1;
    assert 0 < SlotBlock(d, ip, SlotOf(NDIRECT - 1));
  }

  // Two sets of lowest elements of the same size are the same.
  ghost predicate LowestOf(free: set<nat>, a: set<nat>)
  {
    a <= free && forall x, y :: x in a && y in free && y !in a ==> x < y
  }

  lemma LowestUnique(free: set<nat>, a: set<nat>, b: set<nat>)
    requires LowestOf(free, a) && LowestOf(free, b) && |a| == |b|
    ensures a == b
  {
    assert a <= b || b <= a;
    if a <= b {
      Inside(a, b);
      assert b - a == {};
    }
    if b <= a {
      Inside(b, a);
      assert a - b == {};
    }
  }

  lemma TookLowest(sb: Super, d0: Disk, t0: Table, o0: Owner, d: Disk, t: Table, o: Owner, i: nat, lo: nat, hi: nat)
    requires Tree(sb, d0, t0, o0) && Tree(sb, d, t, o) && Took(sb, i, o0, o, lo, hi)
    ensures LowestOf(FreeBlocks(sb, d0), o.Keys - o0.Keys)
  {
    OwnersFit(sb, d0, t0, o0);
    OwnersFit(sb, d, t, o);
    hide Owned, Marked, FreeBlocks, Range, InSpan, Shapes, Layout;
  }

  lemma Based(sb: Super, d: Disk, t: Table, o: Owner)
    requires Tree(sb, d, t, o)
    ensures Layout(sb) && |d| == sb.size
  {
  }

  lemma FourIs(sb: Super, d: Disk, four: set<nat>)
    requires Layout(sb) && |d| == sb.size && LowestFour(sb, d, four)
    ensures LowestOf(FreeBlocks(sb, d), four) && |four| == 4 <= |FreeBlocks(sb, d)|
    ensures forall b, c :: b in four && c in four && b != c ==> BBlock(sb, b) != BBlock(sb, c)
  {
    hide FreeBlocks;
    Inside(four, FreeBlocks(sb, d));
  }

  // So a write that takes four blocks takes the four lowest.
  lemma TookFour(sb: Super, d0: Disk, t0: Table, o0: Owner, d: Disk, t: Table, o: Owner, i: nat, lo: nat, hi: nat, four: set<nat>)
    requires Tree(sb, d0, t0, o0) && Tree(sb, d, t, o) && Took(sb, i, o0, o, lo, hi) && LowestFour(sb, d0, four)
    requires |o| == |o0| + 4
    ensures o.Keys - o0.Keys == four && |four| == 4
    ensures forall b, c :: b in four && c in four && b != c ==> BBlock(sb, b) != BBlock(sb, c)
  {
    hide *;
    Based(sb, d0, t0, o0);
    FourIs(sb, d0, four);
    TookLowest(sb, d0, t0, o0, d, t, o, i, lo, hi);
    TookKeeps(sb, i, o0, o, lo, hi);
    Inside(o0.Keys, o.Keys);
    LowestUnique(FreeBlocks(sb, d0), o.Keys - o0.Keys, four);
  }


  // The blocks it writes: the one it starts in, and three of the four new ones.
  lemma CrossingData(sb: Super, d0: Disk, t0: Table, o0: Owner, d: Disk, t: Table, o: Owner, i: nat, off: nat)
    requires Tree(sb, d0, t0, o0) && Tree(sb, d, t, o) && i in t0 && i in t && Crossing(t0[i], off)
    requires Backed(d0, t0[i], t0[i].size) && Backed(d, t[i], off + CHUNK)
    requires Took(sb, i, o0, o, NDIRECT - 1, NDIRECT + 3)
    ensures var added, first, ind := o.Keys - o0.Keys, SlotBlock(d, t[i], NDIRECT - 1), t[i].addrs[NDIRECT];
            && first !in added && sb.nmeta <= first < sb.size && ind in added
            && (forall b :: b in added ==> sb.nmeta <= b < sb.size)
            && DataOf(d, t[i], NDIRECT - 1, NDIRECT + 3) == {first} + (added - {ind})
  {
    hide *;
    TreeShape(sb, d0, t0, o0, i);
    TreeShape(sb, d, t, o, i);
    Based(sb, d0, t0, o0);
    SlotsCrossed();
    CrossingNeeds(d0, t0[i], off);
    TookKeeps(sb, i, o0, o, NDIRECT - 1, NDIRECT + 3);
    CrossingFilled(d, t[i], t0[i], off);
    forall s: nat | s in Needed(d0, t0[i], NDIRECT - 1, NDIRECT + 3)
      ensures s < NSLOTS && SlotBlock(d, t[i], s) in o && SlotBlock(d, t[i], s) !in o0 && o[SlotBlock(d, t[i], s)] == Slot(i, s)
    {
      NeededSlot(d0, t0[i], NDIRECT - 1, NDIRECT + 3, s);
      SlotTaken(sb, d0, t0, o0, d, t, o, i, NDIRECT - 1, NDIRECT + 3, s);
    }
    forall b | b in o && b !in o0
      ensures o[b].s < NSLOTS && o[b].s in Needed(d0, t0[i], NDIRECT - 1, NDIRECT + 3) && SlotBlock(d, t[i], o[b].s) == b
      ensures sb.nmeta <= b < sb.size
    {
      TookNeeded(sb, d0, t0, o0, d, t, o, i, NDIRECT - 1, NDIRECT + 3, b);
      InArea(sb, d, t, o, b);
    }
    FirstKept(sb, d0, t0, o0, d, t, o, i);
    DataFour(d, t[i]);
  }

  lemma SlotsCrossed()
    ensures 1 <= NDIRECT && NDIRECT + 3 < NSLOTS && NDIRECT + 3 <= MAXFILE
  {
  }

  lemma CrossingFilled(d: Disk, ip: Inode, ip0: Inode, off: nat)
    requires |ip.addrs| == NDIRECT + 1 && ip.addrs[NDIRECT] < |d| && Crossing(ip0, off) && Backed(d, ip, off + CHUNK)
    ensures forall bn: nat :: NDIRECT - 1 <= bn < NDIRECT + 3 ==> SlotBlock(d, ip, SlotOf(bn)) != 0
  {
    CrossingSpan(ip0, off);
    assert off > (NDIRECT - 1) * BSIZE;
    assert forall bn: nat :: NDIRECT - 1 <= bn < NDIRECT + 3 ==> bn * BSIZE < off + CHUNK;
  }

  lemma InArea(sb: Super, d: Disk, t: Table, o: Owner, b: nat)
    requires Tree(sb, d, t, o) && b in o
    ensures sb.nmeta <= b < sb.size
  {
  }

  // A block the file had is still in its place.
  lemma FirstKept(sb: Super, d0: Disk, t0: Table, o0: Owner, d: Disk, t: Table, o: Owner, i: nat)
    requires Tree(sb, d0, t0, o0) && Tree(sb, d, t, o) && i in t0 && i in t
    requires forall b :: b in o0 ==> b in o && o[b] == o0[b]
    requires SlotBlock(d0, t0[i], NDIRECT - 1) != 0
    ensures var first := SlotBlock(d, t[i], NDIRECT - 1); first in o0 && sb.nmeta <= first < sb.size
    ensures SlotBlock(d, t[i], NDIRECT) == t[i].addrs[NDIRECT]
  {
  }

  lemma DataFour(d: Disk, ip: Inode)
    requires |ip.addrs| == NDIRECT + 1 && ip.addrs[NDIRECT] < |d|
    ensures DataOf(d, ip, NDIRECT - 1, NDIRECT + 3) ==
      {SlotBlock(d, ip, NDIRECT - 1), SlotBlock(d, ip, NDIRECT + 1), SlotBlock(d, ip, NDIRECT + 2), SlotBlock(d, ip, NDIRECT + 3)}
  {
    hide SlotBlock;
    assert SlotOf(NDIRECT - 1) == NDIRECT - 1 && SlotOf(NDIRECT) == NDIRECT + 1;
    assert SlotOf(NDIRECT + 1) == NDIRECT + 2 && SlotOf(NDIRECT + 2) == NDIRECT + 3;
  }

  // Such a chunk, where those four blocks are the lowest free ones, is not short of
  // blocks, and logs ten.
  lemma CrossingEnough(sb: Super, d: Disk, t: Table, o: Owner, i: nat, off: nat, four: set<nat>)
    requires Tree(sb, d, t, o) && i in t && Crossing(t[i], off) && Backed(d, t[i], t[i].size) && LowestFour(sb, d, four)
    ensures !NotEnough(sb, d, t[i], off, CHUNK)
  {
    hide Tree, Backed, LowestFour, FreeBlocks, Needed;
    Based(sb, d, t, o);
    TreeShape(sb, d, t, o, i);
    CrossingSpan(t[i], off);
    CrossingNeeds(d, t[i], off);
    FourIs(sb, d, four);
  }

  lemma CrossingTen(sb: Super, d0: Disk, t0: Table, o0: Owner, d: Disk, t: Table, o: Owner, i: nat, off: nat, four: set<nat>)
    requires Tree(sb, d0, t0, o0) && Tree(sb, d, t, o) && i in t0 && i in t && i < sb.ninodes && Crossing(t0[i], off)
    requires Backed(d0, t0[i], t0[i].size) && Backed(d, t[i], off + CHUNK) && LowestFour(sb, d0, four)
    requires Took(sb, i, o0, o, off / BSIZE, Reach(off, CHUNK))
    requires |o| == |o0| + |Needed(d0, t0[i], off / BSIZE, Reach(off, CHUNK))|
    ensures Reach(off, CHUNK) <= MAXFILE && |t[i].addrs| == NDIRECT + 1 && t[i].addrs[NDIRECT] < |d|
    ensures |WriteLog(sb, i, o0, o, {}, d, t[i], off, CHUNK, true)| == MAXOPBLOCKS
  {
    hide Tree, Backed, LowestFour, FreeBlocks, Needed, Took, WriteLog, DataOf, BBlock, SlotBlock, Layout;
    Based(sb, d0, t0, o0);
    TreeShape(sb, d0, t0, o0, i);
    TreeShape(sb, d, t, o, i);
    CrossingSpan(t0[i], off);
    CrossingNeeds(d0, t0[i], off);
    CrossingData(sb, d0, t0, o0, d, t, o, i, off);
    TookFour(sb, d0, t0, o0, d, t, o, i, NDIRECT - 1, NDIRECT + 3, four);
    TenAreReached(sb, i, o0, o, d, t[i], off, CHUNK, SlotBlock(d, t[i], NDIRECT - 1));
  }

  lemma BackedLess(d: Disk, ip: Inode, size: nat, less: nat)
    requires |ip.addrs| == NDIRECT + 1 && ip.addrs[NDIRECT] < |d| && Backed(d, ip, size) && less <= size
    ensures Backed(d, ip, less)
  {
  }
}
