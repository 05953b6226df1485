/**
 Truncating a file: freeing an inode's blocks one by one, in itrunc's order,
 ends with exactly that inode's blocks free and every other file as it was.
 */
module FsTrunc {
  import opened Blocks
  import opened FsLayout
  import opened FsTree
  import opened FsWrite

  // The order in which itrunc frees slots: direct, indirect entries, indirect block.
  function Turn(s: nat): (k: nat)
  {
    if s < NDIRECT then s else if s == NDIRECT then NSLOTS - 1 else s - 1
  }

  function SlotAt(k: nat): (s: nat)
    requires k < NSLOTS
    ensures s < NSLOTS && Turn(s) == k
  {
    if k < NDIRECT then k else if k == NSLOTS - 1 then NDIRECT else k + 1
  }

  predicate FreedBy(o: Owner, i: nat, k: nat, b: nat)
  {
    b in o && o[b].inum == i && Turn(o[b].s) < k
  }

  // After k turns: only bitmap blocks have changed, and exactly the bits of the
  // blocks met so far have been cleared.
  predicate Truncating(sb: Super, d0: Disk, t0: Table, o0: Owner, d: Disk, i: nat, k: nat)
  {
    && Tree(sb, d0, t0, o0) && i in t0 && |d| == |d0|
    && (forall c: nat :: c < sb.size && !IsBitmap(sb, c) ==> d[c] == d0[c])
    && (forall b: nat :: b < sb.size ==> Bit(sb, d, b) == (Bit(sb, d0, b) && !FreedBy(o0, i, k, b)))
  }

  lemma TruncStart(sb: Super, d: Disk, t: Table, o: Owner, i: nat)
    requires Tree(sb, d, t, o) && i in t
    ensures Truncating(sb, d, t, o, d, i, 0)
  {
  }

  // One turn.  The block, if there is one, is still marked: bfree cannot panic.
  lemma TruncStep(sb: Super, d0: Disk, t0: Table, o0: Owner, d: Disk, i: nat, k: nat)
    requires Truncating(sb, d0, t0, o0, d, i, k) && k < NSLOTS
    ensures var b := SlotBlock(d0, t0[i], SlotAt(k));
            if b == 0 then Truncating(sb, d0, t0, o0, d, i, k + 1)
            else b < sb.size && Bit(sb, d, b) && Truncating(sb, d0, t0, o0, MarkBlock(sb, d, b, false), i, k + 1)
  {
    var b := SlotBlock(d0, t0[i], SlotAt(k));
    FreedNext(sb, d0, t0, o0, i, k);
    hide SlotBlock, Bit, Owned, FreedBy;
    if b != 0 {
      MarkBits(sb, d, b, false);
    }
  }

  // Turn k frees the block of its slot, if any, and nothing else.
  lemma FreedNext(sb: Super, d: Disk, t: Table, o: Owner, i: nat, k: nat)
    requires Tree(sb, d, t, o) && i in t && k < NSLOTS
    ensures var b := SlotBlock(d, t[i], SlotAt(k));
            && (forall c: nat :: c < sb.size ==> FreedBy(o, i, k + 1, c) == (FreedBy(o, i, k, c) || (b != 0 && c == b)))
            && (b != 0 ==> b < sb.size && b in o && !FreedBy(o, i, k, b))
  {
    hide SlotBlock, Marked;
    forall c: nat | c < sb.size
      ensures FreedBy(o, i, k + 1, c) == (FreedBy(o, i, k, c) || (SlotBlock(d, t[i], SlotAt(k)) != 0 && c == SlotBlock(d, t[i], SlotAt(k))))
    {
      assert c in o && o[c].inum == i ==> SlotBlock(d, t[i], o[c].s) == c;
    }
  }

  function Emptied(ip: Inode): (r: Inode)
  {
    ip.(size := 0, addrs := seq(NDIRECT + 1, _ => 0))
  }

  function OwnersWithout(o: Owner, i: nat): (r: Owner)
  {
    map b | b in o && o[b].inum != i :: o[b]
  }

  lemma AllFreed(o: Owner, i: nat)
    requires forall b :: b in o ==> o[b].s < NSLOTS
    ensures forall b: nat :: FreedBy(o, i, NSLOTS, b) == (b in o && o[b].inum == i)
  {
  }

  // With the inode cleared its slots are empty and no other slot has changed.
  lemma TruncSlots(sb: Super, d0: Disk, t0: Table, o0: Owner, d: Disk, i: nat)
    requires Truncating(sb, d0, t0, o0, d, i, NSLOTS)
    ensures var t := t0[i := Emptied(t0[i])];
            && Shapes(sb, d, t)
            && forall j, r :: j in t && 0 <= r < NSLOTS ==>
                 SlotBlock(d, t[j], r) == if j == i then 0 else SlotBlock(d0, t0[j], r)
  {
    hide Owned, Marked, Bit, GetWord;
    var t := t0[i := Emptied(t0[i])];
    forall j, r | j in t && 0 <= r < NSLOTS
      ensures SlotBlock(d, t[j], r) == if j == i then 0 else SlotBlock(d0, t0[j], r)
    {
      if j != i && t0[j].addrs[NDIRECT] != 0 {
        assert AddrOk(sb, t0[j].addrs[NDIRECT]);
        assert d[t0[j].addrs[NDIRECT]] == d0[t0[j].addrs[NDIRECT]];
      }
    }
  }

  lemma TruncMarked(sb: Super, d0: Disk, t0: Table, o0: Owner, d: Disk, i: nat)
    requires Truncating(sb, d0, t0, o0, d, i, NSLOTS)
    ensures Marked(sb, d, OwnersWithout(o0, i))
  {
    AllFreed(o0, i);
    hide Bit, SlotBlock, FreedBy;
  }

  // All turns done and the inode cleared: a tree again, in which i owns nothing,
  // its blocks are free, and every other file is untouched.
  lemma TruncEnd(sb: Super, d0: Disk, t0: Table, o0: Owner, d: Disk, i: nat)
    requires Truncating(sb, d0, t0, o0, d, i, NSLOTS)
    ensures var t := t0[i := Emptied(t0[i])];
            && Tree(sb, d, t, OwnersWithout(o0, i))
            && OthersSame(sb, d0, t0, d, t, i)
  {
    hide OthersSame, Owned, Marked, Truncating;
    TruncSlots(sb, d0, t0, o0, d, i);
    TruncMarked(sb, d0, t0, o0, d, i);
    TruncOwned(sb, d0, t0, o0, d, i);
    TruncOthers(sb, d0, t0, o0, d, i);
  }

  lemma TruncOwned(sb: Super, d0: Disk, t0: Table, o0: Owner, d: Disk, i: nat)
    requires Truncating(sb, d0, t0, o0, d, i, NSLOTS)
    ensures var t := t0[i := Emptied(t0[i])];
            Shapes(sb, d, t) && Owned(sb, d, t, OwnersWithout(o0, i))
  {
    TruncSlots(sb, d0, t0, o0, d, i);
    hide Marked, Bit, SlotBlock, Shape;
  }

  lemma TruncOthers(sb: Super, d0: Disk, t0: Table, o0: Owner, d: Disk, i: nat)
    requires Truncating(sb, d0, t0, o0, d, i, NSLOTS)
    ensures var t := t0[i := Emptied(t0[i])];
            Shapes(sb, d, t) && OthersSame(sb, d0, t0, d, t, i)
  {
    TruncSlots(sb, d0, t0, o0, d, i);
    hide Marked, Bit, SlotBlock, Shape;
  }

  // A file without an indirect block has nothing to free past its direct blocks.
  lemma {:induction false} TruncSkip(sb: Super, d0: Disk, t0: Table, o0: Owner, d: Disk, i: nat, k: nat)
    requires Truncating(sb, d0, t0, o0, d, i, k) && NDIRECT <= k <= NSLOTS && t0[i].addrs[NDIRECT] == 0
    ensures Truncating(sb, d0, t0, o0, d, i, NSLOTS)
    decreases NSLOTS - k
  {
    hide Truncating;
    if k < NSLOTS {
      TruncStep(sb, d0, t0, o0, d, i, k);
      TruncSkip(sb, d0, t0, o0, d, i, k + 1);
    }
  }

  lemma TruncContents(sb: Super, d0: Disk, t0: Table, o0: Owner, d: Disk, i: nat)
    requires Readable(sb, d0, t0) && Truncating(sb, d0, t0, o0, d, i, NSLOTS)
    ensures var t := t0[i := Emptied(t0[i])];
            Readable(sb, d, t) && FilesSame(sb, d0, t0, d, t, i)
  {
    var t := t0[i := Emptied(t0[i])];
    TruncEnd(sb, d0, t0, o0, d, i);
    hide Truncating, OthersSame, Owned, Marked, SlotBlock, Content;
    forall j | j in t0 && j != i
      ensures Backed(d, t[j], t[j].size) && Content(d, t[j]) == Content(d0, t0[j])
    {
      OthersKeepContent(sb, d0, t0, d, t, i, j);
    }
  }

  // Storing the cleared inode completes the invariant again.
  lemma TruncFinish(sb: Super, d0: Disk, t0: Table, o0: Owner, d: Disk, i: nat)
    requires Inv(sb, d0, t0, o0) && Truncating(sb, d0, t0, o0, d, i, NSLOTS)
    ensures var t := t0[i := Emptied(t0[i])];
            var f := UpdateDisk(sb, d, i, t[i]);
            && Tree(sb, d, t, OwnersWithout(o0, i))
            && Inv(sb, f, t, OwnersWithout(o0, i))
            && FilesSame(sb, d0, t0, f, t, i)
  {
    var t, o := t0[i := Emptied(t0[i])], OwnersWithout(o0, i);
    var f := UpdateDisk(sb, d, i, t[i]);
    hide Truncating, OthersSame, OnDisk, Content, Owned, Marked, Backed, SlotBlock;
    TruncEnd(sb, d0, t0, o0, d, i);
    TruncContents(sb, d0, t0, o0, d, i);
    InodesKept(sb, d0, t0, d, t, i);
    UpdateKeepsTree(sb, d, t, o, i);
    UpdateKeepsContent(sb, d, f, t, o);
  }

  // The bits after truncation.
  lemma TruncBits(sb: Super, d0: Disk, t0: Table, o0: Owner, d: Disk, i: nat)
    requires Truncating(sb, d0, t0, o0, d, i, NSLOTS)
    ensures forall b: nat :: b < sb.size ==>
      Bit(sb, UpdateDisk(sb, d, i, Emptied(t0[i])), b) == (Bit(sb, d0, b) && !(b in o0 && o0[b].inum == i))
  {
    hide GetBit;
    SameBits(sb, d, UpdateDisk(sb, d, i, Emptied(t0[i])));
    assert forall b :: b in o0 && o0[b].inum == i ==> FreedBy(o0, i, NSLOTS, b);
  }
}
