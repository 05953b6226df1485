/**
 The code of the block and inode layers of xv6/fs.c, inside one transaction:
 disk is the view through the cache, dirtied collects the blocks handed to
 log_write.  A panic is an outcome, not a precondition.
 */
module Fs {
  import opened Basics
  import opened Blocks
  import opened FsLayout
  import opened FsTree
  import opened FsWrite
  import opened FsNeed
  import opened FsTrunc
  import opened Options

  const T_DEV := 3

  // What readi and writei return: -1, a device's business, a panic, or success.
  datatype ReadResult = ReadFail | ReadDevice | ReadOk(data: seq<byte>)
  datatype WriteResult = WriteFail | WriteDevice | WritePanic | WriteOk(n: nat)

  // What filewrite returns: n, -1 (with f->off either way), or a panic.
  datatype FileResult = FilePanic | FileDevice | Returned(ret: int, off: nat)

  class FileSystem {
    const sb: Super
    var disk: Disk
    var table: Table
    ghost var owner: Owner
    ghost var dirtied: set<nat>
    ghost var base: Disk                 // the disk as the transaction found it

    ghost predicate Sound()
      reads this`disk, this`table, this`owner
    {
      Tree(sb, disk, table, owner)
    }

    ghost predicate Valid()
      reads this`disk, this`table, this`owner
    {
      Inv(sb, disk, table, owner)
    }

    // Only blocks handed to log_write differ from what the transaction found.
    ghost predicate InTxn()
      reads this`disk, this`dirtied, this`base
    {
      |base| == |disk| && forall c: nat :: c < |disk| && c !in dirtied ==> disk[c] == base[c]
    }

    // log_write of a modified buffer.
    method LogWrite(b: nat, data: Block)
      requires b < |disk|
      modifies this`disk, this`dirtied
      ensures disk == old(disk)[b := data] && dirtied == old(dirtied) + {b}
      ensures old(InTxn()) ==> InTxn()
    {
      disk := disk[b := data];
      dirtied := dirtied + {b};
    }

    // Allocate a zeroed disk block: the lowest-numbered free one.
    method Balloc() returns (r: Option<nat>)
      requires Layout(sb) && |disk| == sb.size && MetaUsed(sb, disk)
      modifies this`disk, this`dirtied
      ensures r.None? ==> disk == old(disk) && dirtied == old(dirtied)
      ensures r.None? <==> Full(sb, old(disk))
      ensures r.Some? ==>
        && sb.nmeta <= r.value < sb.size && !Bit(sb, old(disk), r.value)
        && (forall c: nat :: c < r.value ==> Bit(sb, old(disk), c))
        && disk == Allocated(sb, old(disk), r.value)
        && dirtied == old(dirtied) + {BBlock(sb, r.value), r.value}
      ensures old(InTxn()) ==> InTxn()
    {
      hide *;
      var b := 0;
      ScanStart(sb, disk);
      while b < sb.size
        invariant disk == old(disk) && dirtied == old(dirtied) && (old(InTxn()) ==> InTxn())
        invariant Aligned(b) && MarkedBelow(sb, disk, b)
        decreases sb.size + BPB - b
      {
        ScanBlock(sb, b);
        var bp := disk[BBlock(sb, b)];
        var bi := FirstClear(bp, sb.size - b);
        MarkedFurther(sb, disk, b, bi);
        if bi < BPB && b + bi < sb.size {
          LowestFree(sb, disk, b, bi);
          NotFull(sb, disk);
          LogWrite(BBlock(sb, b), PutBit(bp, bi, true));
          LogWrite(b + bi, ZeroBlock());
          return Some(b + bi);
        }
        MarkedPast(sb, disk, b, bi);
        b := b + BPB;
      }
      ScanEnd(sb, disk, b);
      r := None;
    }

    // The first clear bit among the first n of a bitmap block.
    method FirstClear(bp: Block, n: nat) returns (bi: nat)
      ensures bi <= BPB && bi <= n && (bi < BPB && bi < n ==> !GetBit(bp, bi))
      ensures forall j: nat :: j < bi ==> GetBit(bp, j)
    {
      bi := 0;
      while bi < BPB && bi < n && GetBit(bp, bi)
        invariant bi <= BPB && bi <= n
        invariant forall j: nat :: j < bi ==> GetBit(bp, j)
      {
        bi := bi + 1;
      }
    }

    // Free a disk block; freeing a free block panics.
    method Bfree(b: nat) returns (panic: bool)
      requires Layout(sb) && |disk| == sb.size && b < sb.size
      modifies this`disk, this`dirtied
      ensures panic <==> !Bit(sb, old(disk), b)
      ensures panic ==> disk == old(disk) && dirtied == old(dirtied)
      ensures !panic ==> disk == MarkBlock(sb, old(disk), b, false) && dirtied == old(dirtied) + {BBlock(sb, b)}
      ensures old(InTxn()) ==> InTxn()
    {
      hide InTxn;
      var bp := disk[BBlock(sb, b)];
      var bi := b % BPB;
      if !GetBit(bp, bi) {
        return true;
      }
      LogWrite(BBlock(sb, b), PutBit(bp, bi, false));
      panic := false;
    }

    // Allocate a block for slot s of inode i: balloc, and store its number.
    method AllocSlot(i: nat, s: nat) returns (r: Option<nat>)
      requires Sound() && i in table && s < NSLOTS && SlotBlock(disk, table[i], s) == 0
      requires s > NDIRECT ==> table[i].addrs[NDIRECT] != 0
      modifies this`disk, this`table, this`owner, this`dirtied
      ensures Sound()
      ensures r.None? ==> disk == old(disk) && table == old(table) && owner == old(owner) && dirtied == old(dirtied)
      ensures r.None? ==> Full(sb, disk)
      ensures OthersSame(sb, old(disk), old(table), disk, table, i)
      ensures Grown(old(disk), old(table)[i], disk, table[i])
      ensures r.Some? ==>
        && sb.nmeta <= r.value < |disk| && r.value !in old(owner) && owner == old(owner)[r.value := Slot(i, s)]
        && table == AllocTable(old(table), i, s, r.value)
        && disk[r.value] == ZeroBlock()
        && (forall q :: 0 <= q < NSLOTS ==>
              SlotBlock(disk, table[i], q) == if q == s then r.value else SlotBlock(old(disk), old(table)[i], q))
        && dirtied == old(dirtied) + {BBlock(sb, r.value), r.value} +
             (if s > NDIRECT then {table[i].addrs[NDIRECT]} else {})
      ensures r.Some? ==> Logged(sb, i, old(owner), owner, old(dirtied), dirtied, {}, table[i].addrs[NDIRECT])
      ensures old(InTxn()) ==> InTxn()
      ensures r.Some? ==> forall c: nat :: sb.nmeta <= c < r.value ==> c in old(owner)
    {
      hide Logged, GetBit, OthersSame, Grown, Owned, ZeroBlock, GetWord, PutWord, InTxn;
      SameAsSelf(sb, disk, table, i);
      r := Balloc();
      if r.None? {
        return;
      }
      assert r.value !in owner;
      AllocEverything(sb, old(disk), table, owner, i, s, r.value);
      if s <= NDIRECT {
        table := table[i := table[i].(addrs := table[i].addrs[s := r.value])];
      } else {
        var ind := table[i].addrs[NDIRECT];
        LogWrite(ind, PutWord(disk[ind], s - NDIRECT - 1, r.value));
      }
      owner := owner[r.value := Slot(i, s)];
      LoggedAlloc(sb, i, old(owner), old(dirtied), r.value, s, table[i].addrs[NDIRECT]);
    }

    // Load the indirect block, allocating it if necessary.
    method IndirectBlock(i: nat, ghost bn: nat) returns (ok: bool)
      requires Sound() && i in table && NDIRECT <= bn < MAXFILE
      modifies this`disk, this`table, this`owner, this`dirtied
      ensures !ok || old(table)[i].addrs[NDIRECT] != 0 ==>
        disk == old(disk) && table == old(table) && owner == old(owner) && dirtied == old(dirtied)
      ensures table.Keys == old(table).Keys
      ensures !ok ==> old(table)[i].addrs[NDIRECT] == 0 && Full(sb, disk)
      ensures Took(sb, i, old(owner), owner, bn, bn + 1)
      ensures Sound()
      ensures OthersSame(sb, old(disk), old(table), disk, table, i)
      ensures Grown(old(disk), old(table)[i], disk, table[i])
      ensures forall s :: 0 <= s < NSLOTS && s != NDIRECT ==>
        SlotBlock(disk, table[i], s) == SlotBlock(old(disk), old(table)[i], s)
      ensures ok ==> table[i].addrs[NDIRECT] != 0
      ensures ok && old(table)[i].addrs[NDIRECT] == 0 ==>
        var ind := table[i].addrs[NDIRECT];
        dirtied == old(dirtied) + {BBlock(sb, ind), ind}
      ensures ok ==> Logged(sb, i, old(owner), owner, old(dirtied), dirtied, {}, table[i].addrs[NDIRECT])
      ensures old(InTxn()) ==> InTxn()
    {
      hide *;
      Treed();
      SlotFacts(sb, disk, table, owner, i, bn);
      SameAsSelf(sb, disk, table, i);
      ok := true;
      LoggedNone(sb, i, owner, dirtied, table[i].addrs[NDIRECT]);
      TookNone(sb, i, owner, bn, bn + 1);
      if table[i].addrs[NDIRECT] == 0 {
        var r := AllocSlot(i, NDIRECT);
        if r.None? {
          return false;
        }
        SpanSlots(bn);
        TookOne(sb, i, old(owner), r.value, NDIRECT, bn, bn + 1);
        Treed();
        AllocInode(old(table), i, NDIRECT, r.value);
        NotZero(sb, disk, table, owner, r.value);
      }
    }

    // Look up an entry of the indirect block, allocating its block if necessary.
    method IndirectEntry(i: nat, bn: nat) returns (r: Option<nat>)
      requires Sound() && i in table && NDIRECT <= bn < MAXFILE && table[i].addrs[NDIRECT] != 0
      modifies this`disk, this`table, this`owner, this`dirtied
      ensures SlotBlock(old(disk), old(table)[i], SlotOf(bn)) != 0 ==>
        && r.Some? && disk == old(disk) && table == old(table) && owner == old(owner) && dirtied == old(dirtied)
      ensures Sound() && table == old(table)
      ensures r.None? ==> Stuck(sb, disk, table, i, bn)
      ensures Took(sb, i, old(owner), owner, bn, bn + 1)
      ensures OthersSame(sb, old(disk), old(table), disk, table, i)
      ensures Grown(old(disk), old(table)[i], disk, table[i])
      ensures r.Some? ==> r.value == SlotBlock(disk, table[i], SlotOf(bn)) && r.value in owner
      ensures r.Some? && SlotBlock(old(disk), old(table)[i], SlotOf(bn)) == 0 ==>
        && disk[r.value] == ZeroBlock()
        && dirtied == old(dirtied) + {BBlock(sb, r.value), r.value} + {table[i].addrs[NDIRECT]}
      ensures r.Some? ==> Logged(sb, i, old(owner), owner, old(dirtied), dirtied, {}, table[i].addrs[NDIRECT])
      ensures old(InTxn()) ==> InTxn()
    {
      hide *;
      Treed();
      SlotFacts(sb, disk, table, owner, i, bn);
      SameAsSelf(sb, disk, table, i);
      LoggedNone(sb, i, owner, dirtied, table[i].addrs[NDIRECT]);
      TookNone(sb, i, owner, bn, bn + 1);
      var addr: nat := GetWord(disk[table[i].addrs[NDIRECT]], bn - NDIRECT);
      if addr == 0 {
        r := AllocSlot(i, bn + 1);
        if r.Some? {
          SpanSlots(bn);
          TookOne(sb, i, old(owner), r.value, bn + 1, bn, bn + 1);
          AllocInode(old(table), i, bn + 1, r.value);
        } else {
          StuckIf(sb, disk, table, owner, i, bn);
        }
      } else {
        r := Some(addr);
      }
    }

    // The indirect half of bmap.
    method BmapIndirect(i: nat, bn: nat) returns (r: Option<nat>)
      requires Sound() && i in table && NDIRECT <= bn < MAXFILE
      modifies this`disk, this`table, this`owner, this`dirtied
      ensures SlotBlock(old(disk), old(table)[i], SlotOf(bn)) != 0 ==>
        && r.Some? && disk == old(disk) && table == old(table) && owner == old(owner) && dirtied == old(dirtied)
      ensures Sound()
      ensures r.None? ==> Stuck(sb, disk, table, i, bn)
      ensures Took(sb, i, old(owner), owner, bn, bn + 1)
      ensures OthersSame(sb, old(disk), old(table), disk, table, i)
      ensures Grown(old(disk), old(table)[i], disk, table[i])
      ensures r.Some? ==> r.value == SlotBlock(disk, table[i], SlotOf(bn)) && r.value in owner
      ensures r.Some? && SlotBlock(old(disk), old(table)[i], SlotOf(bn)) == 0 ==>
        && disk[r.value] == ZeroBlock()
        && var ind := table[i].addrs[NDIRECT];
           dirtied == old(dirtied) + {BBlock(sb, r.value), r.value} +
             (if old(table)[i].addrs[NDIRECT] != 0 then {ind} else {BBlock(sb, ind), ind})
      ensures r.Some? ==> Logged(sb, i, old(owner), owner, old(dirtied), dirtied, {}, table[i].addrs[NDIRECT])
      ensures old(InTxn()) ==> InTxn()
    {
      hide GetWord, OthersSame, Marked, Logged, Grown, Owned, InTxn, Took;
      var ok := IndirectBlock(i, bn);
      if !ok {
        StuckDeep(sb, disk, table, i, bn);
        return None;
      }
      label loaded:
      r := IndirectEntry(i, bn);
      TookThen(sb, i, old(owner), old@loaded(owner), owner, bn, bn + 1, bn, bn + 1);
      OthersTrans(sb, old(disk), old(table), old@loaded(disk), old@loaded(table), disk, table, i);
      GrownTrans(old(disk), old(table)[i], old@loaded(disk), old@loaded(table)[i], disk, table[i]);
      if r.Some? {
        LoggedTwice(sb, i, old(owner), old@loaded(owner), owner, old(dirtied), old@loaded(dirtied), dirtied,
                    table[i].addrs[NDIRECT]);
      }
    }

    // The direct half of bmap.
    method BmapDirect(i: nat, bn: nat) returns (r: Option<nat>)
      requires Sound() && i in table && bn < NDIRECT
      modifies this`disk, this`table, this`owner, this`dirtied
      ensures SlotBlock(old(disk), old(table)[i], SlotOf(bn)) != 0 ==>
        && r.Some? && disk == old(disk) && table == old(table) && owner == old(owner) && dirtied == old(dirtied)
      ensures Sound()
      ensures r.None? ==> Stuck(sb, disk, table, i, bn)
      ensures Took(sb, i, old(owner), owner, bn, bn + 1)
      ensures OthersSame(sb, old(disk), old(table), disk, table, i)
      ensures Grown(old(disk), old(table)[i], disk, table[i])
      ensures r.Some? ==> r.value == SlotBlock(disk, table[i], SlotOf(bn)) && r.value in owner
      ensures r.Some? && SlotBlock(old(disk), old(table)[i], SlotOf(bn)) == 0 ==>
        && disk[r.value] == ZeroBlock()
        && var ind := table[i].addrs[NDIRECT];
           dirtied == old(dirtied) + {BBlock(sb, r.value), r.value} + Extra(sb, bn, old(table)[i].addrs[NDIRECT], ind)
      ensures table[i].addrs[NDIRECT] == old(table)[i].addrs[NDIRECT]
      ensures r.Some? ==> Logged(sb, i, old(owner), owner, old(dirtied), dirtied, {}, table[i].addrs[NDIRECT])
      ensures old(InTxn()) ==> InTxn()
    {
      hide *;
      Treed();
      BlockNumbers(bn);
      SlotFacts(sb, disk, table, owner, i, bn);
      SameAsSelf(sb, disk, table, i);
      LoggedNone(sb, i, owner, dirtied, table[i].addrs[NDIRECT]);
      TookNone(sb, i, owner, bn, bn + 1);
      if table[i].addrs[bn] == 0 {
        r := AllocSlot(i, bn);
        if r.Some? {
          SpanSlots(bn);
          TookOne(sb, i, old(owner), r.value, bn, bn, bn + 1);
          AllocInode(old(table), i, bn, r.value);
          ExtraIs(sb, bn, table[i].addrs[NDIRECT], table[i].addrs[NDIRECT]);
        } else {
          StuckIf(sb, disk, table, owner, i, bn);
        }
      } else {
        r := Some(table[i].addrs[bn]);
      }
    }

    // The disk block of file block bn, allocating it (and the indirect block) if
    // there is none.  None stands for a panic: out of range or out of blocks.
    method Bmap(i: nat, bn: nat) returns (r: Option<nat>)
      requires Sound() && i in table
      modifies this`disk, this`table, this`owner, this`dirtied
      ensures bn >= MAXFILE ==> r.None?
      ensures bn < MAXFILE && SlotBlock(old(disk), old(table)[i], SlotOf(bn)) != 0 ==>
        && r.Some? && disk == old(disk) && table == old(table) && owner == old(owner) && dirtied == old(dirtied)
      ensures Sound()
      ensures r.None? ==> bn >= MAXFILE || Stuck(sb, disk, table, i, bn)
      ensures bn < MAXFILE ==> (r.None? <==> TooFew(sb, old(disk), old(table), i, bn, bn + 1))
      ensures Took(sb, i, old(owner), owner, bn, bn + 1)
      ensures OthersSame(sb, old(disk), old(table), disk, table, i)
      ensures Grown(old(disk), old(table)[i], disk, table[i])
      ensures r.Some? ==> bn < MAXFILE && r.value == SlotBlock(disk, table[i], SlotOf(bn)) && r.value in owner
      ensures r.Some? && SlotBlock(old(disk), old(table)[i], SlotOf(bn)) == 0 ==>
        && disk[r.value] == ZeroBlock()
        && var ind := table[i].addrs[NDIRECT];
           dirtied == old(dirtied) + {BBlock(sb, r.value), r.value} + Extra(sb, bn, old(table)[i].addrs[NDIRECT], ind)
      ensures bn < NDIRECT ==> table[i].addrs[NDIRECT] == old(table)[i].addrs[NDIRECT]
      ensures r.Some? ==> Logged(sb, i, old(owner), owner, old(dirtied), dirtied, {}, table[i].addrs[NDIRECT])
      ensures old(InTxn()) ==> InTxn()
    {
      hide *;
      Treed();
      BlockNumbers(bn);
      if bn < NDIRECT {
        r := BmapDirect(i, bn);
      } else if bn - NDIRECT < NINDIRECT {
        r := BmapIndirect(i, bn);
        if r.Some? {
          Treed();
          OthersKeys(sb, old(disk), old(table), disk, table, i);
          TreeShape(sb, old(disk), old(table), old(owner), i);
          TreeShape(sb, disk, table, owner, i);
          ExtraIs(sb, bn, old(table)[i].addrs[NDIRECT], table[i].addrs[NDIRECT]);
        }
      } else {
        SameAsSelf(sb, disk, table, i);
        TookNone(sb, i, owner, bn, bn + 1);
        return None;
      }
      Treed();
      OthersKeys(sb, old(disk), old(table), disk, table, i);
      if r.None? {
        FewIfStuck(sb, old(disk), old(table), old(owner), disk, table, owner, i, bn);
      } else {
        NotZero(sb, disk, table, owner, r.value);
        EnoughIfFound(sb, old(disk), old(table), old(owner), disk, table, owner, i, bn);
      }
    }

    // Copy the in-memory inode to disk.
    method Iupdate(i: nat)
      requires Sound() && i in table
      modifies this`disk, this`dirtied
      ensures disk == UpdateDisk(sb, old(disk), i, table[i])
      ensures dirtied == old(dirtied) + {IBlock(sb, i)}
      ensures Sound() && OnDisk(sb, disk, i, table[i])
      ensures old(InTxn()) ==> InTxn()
    {
      hide InTxn;
      UpdateKeepsTree(sb, disk, table, owner, i);
      LogWrite(IBlock(sb, i), PutInode(disk[IBlock(sb, i)], i % IPB, table[i]));
    }

    // readi's loop, for a range inside the file.
    method ReadBlocks(i: nat, off: nat, n: nat) returns (dst: seq<byte>)
      requires Sound() && i in table && Backed(disk, table[i], table[i].size) && off + n <= table[i].size
      modifies this`disk, this`table, this`owner, this`dirtied
      ensures disk == old(disk) && table == old(table) && owner == old(owner) && dirtied == old(dirtied)
      ensures dst == Content(disk, table[i])[off..off + n]
    {
      hide Marked, Owned, OthersSame, Grown, GetWord, Took, Stuck, TooFew, Logged, InTxn, Extra, BBlock, ZeroBlock;
      ghost var content := Content(disk, table[i]);
      var tot := 0;
      dst := [];
      while tot < n
        invariant disk == old(disk) && table == old(table) && owner == old(owner) && dirtied == old(dirtied)
        invariant 0 <= tot <= n
        invariant dst == content[off..off + tot]
      {
        var pos := off + tot;
        var m := Min(n - tot, BSIZE - pos % BSIZE);
        ReadStep(disk, table[i], pos, m);
        var addr := Bmap(i, pos / BSIZE);
        var bp := disk[addr.value];
        dst := dst + bp[pos % BSIZE..pos % BSIZE + m];
        assert content[off..off + tot] + content[pos..pos + m] == content[off..off + tot + m];
        tot := tot + m;
      }
    }

    // Read n bytes at offset off.  It finds every block in place: nothing is
    // allocated and nothing is logged.
    method Readi(i: nat, off: nat, n: nat) returns (r: ReadResult)
      requires Valid() && i in table && off < UINT_LIMIT && n < UINT_LIMIT
      modifies this`disk, this`table, this`owner, this`dirtied
      ensures disk == old(disk) && table == old(table) && owner == old(owner) && dirtied == old(dirtied)
      ensures r == if table[i].typ == T_DEV then ReadDevice
                   else if off > table[i].size || off + n >= UINT_LIMIT then ReadFail
                   else ReadOk(Content(disk, table[i])[off..Min(off + n, table[i].size)])
    {
      hide Marked, Owned, OnDisk, GetWord;
      if table[i].typ == T_DEV {
        return ReadDevice;
      }
      if off > table[i].size || (off + n) % UINT_LIMIT < off {
        return ReadFail;
      }
      var len := n;
      if off + n > table[i].size {
        len := table[i].size - off;
      }
      var dst := ReadBlocks(i, off, len);
      r := ReadOk(dst);
    }

    // bmap, with the log entries it and the write of its block will cost.
    method BmapForWrite(i: nat, bn: nat, ghost ind0: nat) returns (r: Option<nat>)
      requires Sound() && i in table && bn < MAXFILE
      requires IndTracked(ind0, table[i].addrs[NDIRECT], dirtied)
      modifies this`disk, this`table, this`owner, this`dirtied
      ensures Sound() && table.Keys == old(table).Keys
      ensures r.None? ==> Stuck(sb, disk, table, i, bn)
      ensures Took(sb, i, old(owner), owner, bn, bn + 1)
      ensures OthersSame(sb, old(disk), old(table), disk, table, i)
      ensures Grown(old(disk), old(table)[i], disk, table[i])
      ensures SlotBlock(old(disk), old(table)[i], SlotOf(bn)) != 0 ==>
        r.Some? && table == old(table) && dirtied == old(dirtied)
      ensures r.Some? ==>
        && r.value == SlotBlock(disk, table[i], SlotOf(bn)) && 0 < r.value < |disk|
        && IndTracked(ind0, table[i].addrs[NDIRECT], dirtied + {r.value})
        && |dirtied + {r.value}| + IndCost(ind0, old(table)[i].addrs[NDIRECT], old(dirtied))
             <= |old(dirtied)| + 2 + IndCost(ind0, table[i].addrs[NDIRECT], dirtied + {r.value})
      ensures r.Some? ==> Logged(sb, i, old(owner), owner, old(dirtied), dirtied, {}, table[i].addrs[NDIRECT])
      ensures old(InTxn()) ==> InTxn()
    {
      hide Logged, InTxn, Took, Stuck;
      r := Bmap(i, bn);
      if r.Some? {
        ghost var ind, ind' := old(table)[i].addrs[NDIRECT], table[i].addrs[NDIRECT];
        assert SlotBlock(old(disk), old(table)[i], NDIRECT) == ind;
        assert SlotBlock(disk, table[i], NDIRECT) == ind';
        if SlotBlock(old(disk), old(table)[i], SlotOf(bn)) != 0 {
          BlockCost(ind0, ind, ind', old(dirtied), dirtied + {r.value}, {}, r.value, r.value, 0);
        } else {
          MapCost(sb, bn, ind0, ind, ind', old(dirtied), dirtied, r.value);
        }
      }
    }

    // One turn of writei's loop: m bytes of src into the block holding off.
    method WriteOne(i: nat, src: seq<byte>, off0: nat, off: nat, m: nat, ghost d0: Disk, ghost ip0: Inode, ghost ind0: nat)
      returns (ok: bool)
      requires Sound() && i in table && InStep(d0, ip0, off0, src, off, m)
      requires Written(d0, ip0, disk, table[i], off0, src, off)
      requires IndTracked(ind0, table[i].addrs[NDIRECT], dirtied)
      modifies this`disk, this`table, this`owner, this`dirtied
      ensures Sound()
      ensures !ok ==> Stuck(sb, disk, table, i, off / BSIZE)
      ensures Took(sb, i, old(owner), owner, off / BSIZE, off / BSIZE + 1)
      ensures OthersSame(sb, old(disk), old(table), disk, table, i)
      ensures table[i] == old(table)[i].(addrs := table[i].addrs)
      ensures ok ==> Written(d0, ip0, disk, table[i], off0, src, off + m)
      ensures (off / BSIZE) * BSIZE < ip0.size ==>
        ok && table == old(table) && |dirtied| <= |old(dirtied)| + 1 && old(dirtied) <= dirtied
      ensures ok ==>
        && IndTracked(ind0, table[i].addrs[NDIRECT], dirtied)
        && |dirtied| + IndCost(ind0, old(table)[i].addrs[NDIRECT], old(dirtied))
             <= |old(dirtied)| + 2 + IndCost(ind0, table[i].addrs[NDIRECT], dirtied)
      ensures ok ==>
        && table.Keys == old(table).Keys && SlotsKept(old(disk), old(table)[i], disk, table[i])
        && Logged(sb, i, old(owner), owner, old(dirtied), dirtied, {SlotBlock(disk, table[i], SlotOf(off / BSIZE))}, table[i].addrs[NDIRECT])
      ensures old(InTxn()) ==> InTxn()
    {
      hide Marked, Owned, OthersSame, GetWord, Logged, InTxn, Took, Stuck;
      var r := BmapForWrite(i, off / BSIZE, ind0);
      if r.None? {
        return false;
      }
      label mapped:
      TurnSlots(sb, old(disk), old(table)[i], disk, table, owner, i, SlotOf(off / BSIZE), StepBlock(disk[r.value], off0, src, off, m));
      LoggedStore(sb, i, old(owner), owner, old(dirtied), dirtied, table[i].addrs[NDIRECT], r.value);
      GrownKeepsWritten(d0, ip0, old(disk), old(table)[i], disk, table[i], off0, src, off);
      WriteStep(sb, d0, ip0, disk, table, owner, i, off0, src, off, m);
      LogWrite(r.value, StepBlock(disk[r.value], off0, src, off, m));
      OthersTrans(sb, old(disk), old(table), old@mapped(disk), table, disk, table, i);
      ok := true;
    }

    // One turn again, in terms of the whole write.
    method WriteTurn(i: nat, src: seq<byte>, off: nat, tot: nat, m: nat, ghost d0: Disk, ghost t0: Table, ghost start: nat,
                     ghost o0: Owner, ghost l0: set<nat>)
      returns (ok: bool)
      requires Progress(sb, d0, t0, disk, table, owner, i, off, src, tot)
      requires tot < |src| && m == Min(|src| - tot, BSIZE - (off + tot) % BSIZE) && off + |src| <= MAXFILE * BSIZE
      requires CostSoFar(off, |src|, tot, start, t0[i].addrs[NDIRECT], table[i].addrs[NDIRECT], dirtied)
      requires tot == 0 ==> |dirtied| <= start && table == t0
      requires Track(sb, i, o0, owner, l0, dirtied, disk, table[i], off, tot)
      requires Took(sb, i, o0, owner, off / BSIZE, Reach(off, |src|))
      modifies this`disk, this`table, this`owner, this`dirtied
      ensures Sound() && OthersSame(sb, d0, t0, disk, table, i)
      ensures table[i] == t0[i].(addrs := table[i].addrs)
      ensures !ok ==> StuckIn(sb, disk, table, i, off / BSIZE, Reach(off, |src|))
      ensures Took(sb, i, o0, owner, off / BSIZE, Reach(off, |src|))
      ensures ok ==> Progress(sb, d0, t0, disk, table, owner, i, off, src, tot + m)
      ensures ok ==> CostSoFar(off, |src|, tot + m, start, t0[i].addrs[NDIRECT], table[i].addrs[NDIRECT], dirtied)
      ensures ok ==> Track(sb, i, o0, owner, l0, dirtied, disk, table[i], off, tot + m)
      ensures old(InTxn()) ==> InTxn()
    {
      hide Written, OthersSame, Track, Logged, SlotsKept, Owned, Marked, GetWord, SlotBlock, Backed, Full, InTxn, Took, Stuck;
      ghost var d, t, o, logged := disk, table, owner, dirtied;
      ok := WriteOne(i, src, off, off + tot, m, d0, t0[i], t0[i].addrs[NDIRECT]);
      TurnSpan(off, |src|, tot);
      TookThen(sb, i, o0, o, owner, off / BSIZE, Reach(off, |src|), (off + tot) / BSIZE, (off + tot) / BSIZE + 1);
      if ok {
        ProgressStep(sb, d0, t0, d, t, o, i, off, src, tot, m, disk, table, owner);
        TrackStep(sb, d0, t0, d, t, o, i, off, src, tot, o0, l0, logged, disk, table[i], owner, dirtied);
        CostStep(off, |src|, tot, start, t0[i].addrs[NDIRECT], t[i].addrs[NDIRECT], logged, table[i].addrs[NDIRECT], dirtied);
      } else {
        assert StuckIn(sb, disk, table, i, off / BSIZE, Reach(off, |src|));
        OthersTrans(sb, d0, t0, d, t, disk, table, i);
      }
    }

    // writei's loop.
    method WriteBlocks(i: nat, src: seq<byte>, off: nat) returns (ok: bool)
      requires Sound() && i in table && Backed(disk, table[i], table[i].size)
      requires off <= table[i].size && off + |src| <= MAXFILE * BSIZE
      modifies this`disk, this`table, this`owner, this`dirtied
      ensures Sound() && OthersSame(sb, old(disk), old(table), disk, table, i)
      ensures table[i] == old(table)[i].(addrs := table[i].addrs)
      ensures !ok ==> StuckIn(sb, disk, table, i, off / BSIZE, Reach(off, |src|))
      ensures Took(sb, i, old(owner), owner, off / BSIZE, Reach(off, |src|))
      ensures ok ==> Progress(sb, old(disk), old(table), disk, table, owner, i, off, src, |src|)
      ensures ok ==> |dirtied| <= |old(dirtied)| + WriteCost(off, |src|) - 1
      ensures ok ==> Track(sb, i, old(owner), owner, old(dirtied), dirtied, disk, table[i], off, |src|)
      ensures old(InTxn()) ==> InTxn()
    {
      ghost var d0, t0, start := disk, table, |dirtied|;
      hide Written, OthersSame, Track, InTxn, Took, StuckIn;
      TookNone(sb, i, owner, off / BSIZE, Reach(off, |src|));
      TrackStart(sb, i, owner, dirtied, disk, table[i], off);
      ProgressStart(sb, disk, table, owner, i, off, src);
      var tot := 0;
      while tot < |src|
        invariant 0 <= tot <= |src|
        invariant Progress(sb, d0, t0, disk, table, owner, i, off, src, tot)
        invariant CostSoFar(off, |src|, tot, start, t0[i].addrs[NDIRECT], table[i].addrs[NDIRECT], dirtied)
        invariant tot == 0 ==> dirtied == old(dirtied) && table == t0
        invariant Took(sb, i, old(owner), owner, off / BSIZE, Reach(off, |src|)) && (old(InTxn()) ==> InTxn())
        invariant Track(sb, i, old(owner), owner, old(dirtied), dirtied, disk, table[i], off, tot)
      {
        var m := Min(|src| - tot, BSIZE - (off + tot) % BSIZE);
        ok := WriteTurn(i, src, off, tot, m, d0, t0, start, old(owner), old(dirtied));
        if !ok {
          return;
        }
        tot := tot + m;
      }
      ok := true;
    }

    // The writing part of writei, past its checks.
    method WriteFile(i: nat, src: seq<byte>, off: nat) returns (ok: bool)
      requires Valid() && i in table && off <= table[i].size && off + |src| <= MAXFILE * BSIZE
      modifies this`disk, this`table, this`owner, this`dirtied
      ensures Layout(sb) && |disk| == sb.size
      ensures !ok ==> Full(sb, disk)
      ensures !ok <==> NotEnough(sb, old(disk), old(table)[i], off, |src|)
      ensures ok ==> Took(sb, i, old(owner), owner, off / BSIZE, Reach(off, |src|))
      ensures ok ==> |owner| == |old(owner)| + |Needed(old(disk), old(table)[i], off / BSIZE, Reach(off, |src|))|
      ensures ok ==> Valid() && FileSpliced(sb, old(disk), old(table), disk, table, i, off, src)
      ensures ok ==> |dirtied| <= |old(dirtied)| + WriteCost(off, |src|)
      ensures ok ==>
        && i in table && Reach(off, |src|) <= MAXFILE && |table[i].addrs| == NDIRECT + 1 && table[i].addrs[NDIRECT] < |disk|
        && dirtied == WriteLog(sb, i, old(owner), owner, old(dirtied), disk, table[i], off, |src|,
                               |src| > 0 && off + |src| > old(table)[i].size)
      ensures old(InTxn()) ==> InTxn()
    {
      hide *;
      Opened(i);
      ok := WriteBlocks(i, src, off);
      Treed();
      if !ok {
        PanicsShort(sb, old(disk), old(table), old(owner), disk, table, owner, i, off, |src|);
        return;
      }
      GoesThrough(sb, old(disk), old(table), old(owner), disk, table, owner, i, off, src);
      FinishWrite(sb, old(disk), old(table), disk, table, owner, i, off, src);
      WrittenInode(sb, old(disk), old(table), disk, table, owner, i, off, src);
      if |src| > 0 && off + |src| > table[i].size {
        ResizeKeepsTree(sb, disk, table, owner, i, off + |src|);
        TrackEnd(sb, i, old(owner), owner, old(dirtied), dirtied, disk, table, off, |src|, off + |src|);
        table := table[i := table[i].(size := off + |src|)];
        SoundIf();
        Iupdate(i);
      } else {
        TrackOver(sb, i, old(owner), owner, old(dirtied), dirtied, disk, table[i], off, |src|);
      }
      ValidIf();
      Opened(i);
    }

    // What the class's predicates say, for bodies that hide them.
    lemma Opened(i: nat)
      requires Valid() && i in table
      ensures Sound() && Tree(sb, disk, table, owner) && Readable(sb, disk, table) && Backed(disk, table[i], table[i].size)
      ensures Layout(sb) && |disk| == sb.size && |table[i].addrs| == NDIRECT + 1 > NDIRECT >= 0 && table[i].addrs[NDIRECT] < |disk|
      ensures forall j :: j in table ==> j < sb.ninodes && OnDisk(sb, disk, j, table[j])
    {
    }

    lemma Whole()
      requires Valid()
      ensures Inv(sb, disk, table, owner)
    {
    }

    lemma Begun()
      requires base == disk
      ensures InTxn()
    {
    }

    lemma OnlyLogged()
      requires InTxn()
      ensures |base| == |disk| && forall c: nat :: c < |disk| && c !in dirtied ==> disk[c] == base[c]
    {
    }

    lemma Treed()
      requires Sound()
      ensures Tree(sb, disk, table, owner) && Shapes(sb, disk, table) && Layout(sb) && |disk| == sb.size
    {
    }

    lemma SoundIf()
      requires Tree(sb, disk, table, owner)
      ensures Sound()
    {
    }

    lemma ValidIf()
      requires Inv(sb, disk, table, owner)
      ensures Valid()
    {
    }

    // Write src at offset off of inode i's file.  On success the file is its old
    // contents with src spliced in, no other file or inode has changed, the inode on
    // disk is current, and the transaction has grown by at most WriteCost entries.
    // It panics exactly if it needs more new blocks than are free.
    method Writei(i: nat, src: seq<byte>, off: nat) returns (r: WriteResult)
      requires Valid() && i in table && off < UINT_LIMIT && |src| < UINT_LIMIT
      modifies this`disk, this`table, this`owner, this`dirtied
      ensures r.WriteDevice? <==> old(table)[i].typ == T_DEV
      ensures r.WriteFail? <==> old(table)[i].typ != T_DEV && Rejects(old(table)[i].size, off, |src|)
      ensures r.WriteDevice? || r.WriteFail? ==>
        disk == old(disk) && table == old(table) && owner == old(owner) && dirtied == old(dirtied)
      ensures r.WritePanic? <==>
        && old(table)[i].typ != T_DEV && !Rejects(old(table)[i].size, off, |src|)
        && NotEnough(sb, old(disk), old(table)[i], off, |src|)
      ensures r.WriteOk? <==>
        && old(table)[i].typ != T_DEV && off <= old(table)[i].size && off + |src| <= MAXFILE * BSIZE
        && |Needed(old(disk), old(table)[i], off / BSIZE, Reach(off, |src|))| <= |FreeBlocks(sb, old(disk))|
      ensures r.WritePanic? ==> Layout(sb) && |disk| == sb.size && Full(sb, disk)
      ensures r.WriteOk? ==> Took(sb, i, old(owner), owner, off / BSIZE, Reach(off, |src|))
      ensures r.WriteOk? ==> |owner| == |old(owner)| + |Needed(old(disk), old(table)[i], off / BSIZE, Reach(off, |src|))|
      ensures r.WriteOk? ==> r.n == |src| && Valid() && FileSpliced(sb, old(disk), old(table), disk, table, i, off, src)
      ensures r.WriteOk? ==> |dirtied| <= |old(dirtied)| + WriteCost(off, |src|)
      ensures r.WriteOk? ==>
        && i in table && Reach(off, |src|) <= MAXFILE && |table[i].addrs| == NDIRECT + 1 && table[i].addrs[NDIRECT] < |disk|
        && dirtied == WriteLog(sb, i, old(owner), owner, old(dirtied), disk, table[i], off, |src|,
                               |src| > 0 && off + |src| > old(table)[i].size)
      ensures old(InTxn()) ==> InTxn()
    {
      hide WriteLog, FileSpliced, Owned, Marked, OnDisk, Backed, InTxn, Took, Needed, FreeBlocks;
      if table[i].typ == T_DEV {
        return WriteDevice;
      }
      if off > table[i].size || (off + |src|) % UINT_LIMIT < off {
        return WriteFail;
      }
      if off + |src| > MAXFILE * BSIZE {
        return WriteFail;
      }
      var ok := WriteFile(i, src, off);
      r := if ok then WriteOk(|src|) else WritePanic;
    }

    // Free one block, if there is one, in itrunc's order.
    method FreeTurn(b: nat, ghost d0: Disk, ghost t0: Table, ghost i: nat, ghost k: nat)
      requires k < NSLOTS && Truncating(sb, d0, t0, owner, disk, i, k) && b == SlotBlock(d0, t0[i], SlotAt(k))
      modifies this`disk, this`dirtied
      ensures Truncating(sb, d0, t0, owner, disk, i, k + 1) && |disk| == |old(disk)|
      ensures old(InTxn()) ==> InTxn()
    {
      TruncStep(sb, d0, t0, owner, disk, i, k);
      hide Bit, Tree, InTxn;
      if b != 0 {
        var panic := Bfree(b);
      }
    }

    // Discard an inode's contents.  Every bfree finds its block marked in use, so
    // "freeing free block" is never reached; exactly the inode's own blocks become
    // free, and all other files stay as they were.
    method Itrunc(i: nat)
      requires Valid() && i in table
      modifies this`disk, this`table, this`owner, this`dirtied
      ensures Valid()
      ensures table == old(table)[i := Emptied(old(table)[i])] && owner == OwnersWithout(old(owner), i)
      ensures FilesSame(sb, old(disk), old(table), disk, table, i)
      ensures forall b: nat :: b < sb.size ==>
        Bit(sb, disk, b) == (Bit(sb, old(disk), b) && !(b in old(owner) && old(owner)[b].inum == i))
      ensures old(InTxn()) ==> InTxn()
    {
      ghost var d0, t0 := disk, table;
      hide Truncating, Owned, Marked, OnDisk, Backed, FilesSame, Bit, InTxn;
      TruncStart(sb, disk, table, owner, i);
      FreeDirect(i);
      var ind := table[i].addrs[NDIRECT];
      if ind != 0 {
        FreeIndirect(i, d0, t0);
      } else {
        TruncSkip(sb, d0, t0, owner, disk, i, NDIRECT);
      }
      TruncFinish(sb, d0, t0, owner, disk, i);
      TruncBits(sb, d0, t0, owner, disk, i);
      table := table[i := table[i].(addrs := table[i].addrs[NDIRECT := 0], size := 0)];
      assert table[i].addrs == Emptied(t0[i]).addrs;
      assert table == t0[i := Emptied(t0[i])];
      owner := OwnersWithout(owner, i);
      Iupdate(i);
    }

    // itrunc's loop over the direct blocks.
    method FreeDirect(i: nat)
      requires Sound() && i in table && Truncating(sb, disk, table, owner, disk, i, 0)
      modifies this`disk, this`table, this`dirtied
      ensures Truncating(sb, old(disk), old(table), owner, disk, i, NDIRECT) && |disk| == |old(disk)|
      ensures i in table && table == old(table)[i := old(table)[i].(addrs := table[i].addrs)]
      ensures |table[i].addrs| == NDIRECT + 1
      ensures forall s :: 0 <= s <= NDIRECT ==> table[i].addrs[s] == if s < NDIRECT then 0 else old(table)[i].addrs[s]
      ensures old(InTxn()) ==> InTxn()
    {
      ghost var d0, t0 := disk, table;
      hide Truncating, Owned, Marked, InTxn;
      for k := 0 to NDIRECT
        invariant Truncating(sb, d0, t0, owner, disk, i, k) && |disk| == |d0|
        invariant i in table && table == t0[i := t0[i].(addrs := table[i].addrs)] && |table[i].addrs| == NDIRECT + 1
        invariant forall s :: 0 <= s <= NDIRECT ==> table[i].addrs[s] == if s < k then 0 else t0[i].addrs[s]
        invariant old(InTxn()) ==> InTxn()
      {
        FreeTurn(table[i].addrs[k], d0, t0, i, k);
        table := table[i := table[i].(addrs := table[i].addrs[k := 0])];
      }
    }

    // itrunc's loop over the indirect block, and the indirect block itself.
    method FreeIndirect(i: nat, ghost d0: Disk, ghost t0: Table)
      requires Tree(sb, d0, t0, owner) && i in t0 && i in table && |disk| == |d0|
      requires |table[i].addrs| == NDIRECT + 1 && table[i].addrs[NDIRECT] == t0[i].addrs[NDIRECT] != 0
      requires Truncating(sb, d0, t0, owner, disk, i, NDIRECT)
      modifies this`disk, this`dirtied
      ensures Truncating(sb, d0, t0, owner, disk, i, NSLOTS)
      ensures old(InTxn()) ==> InTxn()
    {
      var ind := table[i].addrs[NDIRECT];
      assert AddrOk(sb, ind);
      var bp := disk[ind];
      assert bp == d0[ind];
      hide Truncating, Owned, Marked, GetWord, InTxn;
      for j := 0 to NINDIRECT
        invariant Truncating(sb, d0, t0, owner, disk, i, NDIRECT + j) && (old(InTxn()) ==> InTxn())
      {
        FreeTurn(GetWord(bp, j), d0, t0, i, NDIRECT + j);
      }
      FreeTurn(ind, d0, t0, i, NSLOTS - 1);
    }

    // filewrite on an inode at f->off: chunk by chunk, one transaction each.  What
    // has been written is always a prefix of src; n is returned exactly when it is
    // all of src; and no transaction dirties more than MAXOPBLOCKS blocks.  A panic
    // comes at a chunk that needs more new blocks than are free on disk e by then.
    method Filewrite(i: nat, src: seq<byte>, off: nat)
      returns (r: FileResult, ghost done: nat, ghost worst: nat, ghost e: Disk, ghost u: Table)
      requires Valid() && i in table && off < UINT_LIMIT && |src| < UINT_LIMIT
      modifies this`disk, this`table, this`owner, this`dirtied, this`base
      ensures worst <= MAXOPBLOCKS
      ensures r.Returned? ==>
        && Valid() && PrefixWritten(sb, old(disk), old(table), disk, table, i, off, src, done)
        && r.off == off + done && r.ret == (if done == |src| then |src| else -1)
        && (done < |src| ==> i in table && Rejects(table[i].size, off + done, Min(|src| - done, CHUNK)))
        && (done < |src| ==> off > old(table)[i].size || off + |src| > MAXFILE * BSIZE)
      ensures r.FilePanic? ==> done < |src| && PanicsAt(sb, old(disk), old(table), e, u, i, off, src, done)
      ensures r.FilePanic? ==> Layout(sb) && |disk| == sb.size && Full(sb, disk)
      ensures r.FileDevice? ==> old(table)[i].typ == T_DEV
    {
      hide *;
      Opened(i);
      ghost var d0, t0 := disk, table;
      done, worst, e, u := 0, 0, disk, table;
      PrefixStart(sb, d0, t0, i, off, src);
      FileLimits();
      var k := 0;
      while k < |src|
        invariant 0 <= k == done <= |src| && worst <= MAXOPBLOCKS && off + done < UINT_LIMIT
        invariant Valid() && i in table && table[i].typ == t0[i].typ
        invariant PrefixWritten(sb, d0, t0, disk, table, i, off, src, done)
      {
        var n1 := |src| - k;
        if n1 > CHUNK {
          n1 := CHUNK;
        }
        dirtied, base := {}, disk;                                // begin_op
        e, u := disk, table;
        Opened(i);
        var w := Writei(i, src[k..k + n1], off + k);
        ChunkFits(off + k, n1);
        worst := if w.WriteOk? && |dirtied| > worst then |dirtied| else worst;
        match w {
          case WriteDevice =>
            return FileDevice, done, worst, e, u;
          case WritePanic =>
            PanicsIf(sb, d0, t0, e, u, i, off, src, done, n1);
            return FilePanic, done, worst, e, u;
          case WriteFail =>
            StopsOnly(sb, d0, t0, e, u, i, off, src, done);
            return Returned(-1, off + k), done, worst, e, u;
          case WriteOk(_) =>
            Opened(i);
            NotRejected(u[i].size, off + k, n1);
            SplicedKeeps(sb, e, u, disk, table, i, off + k, src[k..k + n1]);
            PrefixStep(sb, d0, t0, e, u, disk, table, i, off, src, k, n1);
            k := k + n1;
            done := k;
        }
      }
      r := Returned(|src|, off + k);
    }
  }

  // MAXOPBLOCKS is reached: a chunk written from inside the last direct block of a file
  // without an indirect block, when the four lowest free blocks are under four
  // different bitmap blocks, makes a transaction of ten blocks.
  method TenAreLogged(fs: FileSystem, i: nat, src: seq<byte>, off: nat, ghost four: set<nat>) returns (r: WriteResult)
    requires fs.Valid() && i in fs.table && fs.table[i].typ != T_DEV && fs.dirtied == {}
    requires Crossing(fs.table[i], off) && |src| == CHUNK && LowestFour(fs.sb, fs.disk, four)
    modifies fs`disk, fs`table, fs`owner, fs`dirtied
    ensures r == WriteOk(CHUNK) && |fs.dirtied| == MAXOPBLOCKS
  {
    hide *;
    fs.Opened(i);
    ghost var d, t, o := fs.disk, fs.table, fs.owner;
    CrossingSpan(t[i], off);
    CrossingEnough(fs.sb, d, t, o, i, off, four);
    r := fs.Writei(i, src, off);
    fs.Opened(i);
    SplicedKeeps(fs.sb, d, t, fs.disk, fs.table, i, off, src);
    BackedLess(fs.disk, fs.table[i], fs.table[i].size, off + CHUNK);
    CrossingTen(fs.sb, d, t, o, fs.disk, fs.table, fs.owner, i, off, four);
  }
}
