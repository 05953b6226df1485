/**
 Inodes and the blocks they own: the on-disk inode format, the direct and
 indirect block map, file contents as byte sequences, and the invariant tying
 the inode table, the block owners and the free map together.
 */
module FsTree {
  import opened Basics
  import opened Blocks
  import opened FsLayout

  datatype Inode = Inode(typ: nat, major: nat, minor: nat, nlink: nat, size: nat, addrs: seq<nat>)

  // --- the on-disk inode --------------------------------------------------------

  const INODE_WORDS := 16

  predicate Encodable(ip: Inode)
  {
    && ip.typ < 65536 && ip.major < 65536 && ip.minor < 65536 && ip.nlink < 65536
    && ip.size < UINT_LIMIT && |ip.addrs| == NDIRECT + 1
    && forall k :: 0 <= k < |ip.addrs| ==> ip.addrs[k] < UINT_LIMIT
  }

  function InodeWords(ip: Inode): (ws: seq<uint>)
    requires Encodable(ip)
    ensures |ws| == INODE_WORDS
  {
    [ip.typ + 65536 * ip.major, ip.minor + 65536 * ip.nlink, ip.size] +
    seq(NDIRECT + 1, k requires 0 <= k <= NDIRECT => ip.addrs[k])
  }

  function PutWords(b: Block, at: nat, ws: seq<uint>): (r: Block)
    requires at + |ws| <= NWORDS
  {
    if ws == [] then b
    else PutWord(PutWords(b, at, ws[..|ws|-1]), at + |ws| - 1, ws[|ws|-1])
  }

  function GetAddr(b: Block, k: nat, j: nat): (a: nat)
    requires k < IPB && j <= NDIRECT
  {
    GetWord(b, INODE_WORDS * k + 3 + j)
  }

  function GetInode(b: Block, k: nat): (ip: Inode)
    requires k < IPB
  {
    var at := INODE_WORDS * k;
    var w0: int, w1: int := GetWord(b, at), GetWord(b, at + 1);
    Inode(w0 % 65536, w0 / 65536, w1 % 65536, w1 / 65536, GetWord(b, at + 2),
          seq(NDIRECT + 1, j requires 0 <= j <= NDIRECT => GetAddr(b, k, j)))
  }

  function PutInode(b: Block, k: nat, ip: Inode): (r: Block)
    requires k < IPB && Encodable(ip)
  {
    PutWords(b, INODE_WORDS * k, InodeWords(ip))
  }

  lemma {:induction false} PutWordsLaw(b: Block, at: nat, ws: seq<uint>, j: nat)
    requires at + |ws| <= NWORDS && j < NWORDS
    ensures GetWord(PutWords(b, at, ws), j) == if at <= j < at + |ws| then ws[j - at] else GetWord(b, j)
  {
    if ws != [] {
      PutWordsLaw(b, at, ws[..|ws|-1], j);
      WordRoundTrip(PutWords(b, at, ws[..|ws|-1]), at + |ws| - 1, ws[|ws|-1]);
    }
  }

  // The words of inode k after it is written are its own; all others are as before.
  lemma InodeWord(b: Block, k: nat, ip: Inode, j: nat)
    requires k < IPB && Encodable(ip) && j < NWORDS
    ensures var at := INODE_WORDS * k;
            GetWord(PutInode(b, k, ip), j) == if at <= j < at + INODE_WORDS then InodeWords(ip)[j - at] else GetWord(b, j)
  {
    PutWordsLaw(b, INODE_WORDS * k, InodeWords(ip), j);
  }

  // What the words say, for one inode.
  lemma SameInode(b: Block, c: Block, k: nat)
    requires k < IPB && forall j: nat :: INODE_WORDS * k <= j < INODE_WORDS * (k + 1) ==> GetWord(b, j) == GetWord(c, j)
    ensures GetInode(b, k) == GetInode(c, k)
  {
    hide GetWord;
    forall j: nat | j <= NDIRECT
      ensures GetAddr(b, k, j) == GetAddr(c, k, j)
    {
    }
    assert GetInode(b, k).addrs == GetInode(c, k).addrs;
  }

  lemma OwnInode(b: Block, k: nat, ip: Inode)
    requires k < IPB && Encodable(ip)
    requires forall j: nat :: j < INODE_WORDS ==> GetWord(b, INODE_WORDS * k + j) == InodeWords(ip)[j]
    ensures GetInode(b, k) == ip
  {
    hide GetWord;
    var at := INODE_WORDS * k;
    assert GetWord(b, at + 0) == InodeWords(ip)[0] && GetWord(b, at + 1) == InodeWords(ip)[1];
    assert GetWord(b, at + 2) == InodeWords(ip)[2];
    forall j: nat | j <= NDIRECT
      ensures GetAddr(b, k, j) == ip.addrs[j]
    {
      assert GetWord(b, at + (3 + j)) == InodeWords(ip)[3 + j];
    }
    assert GetInode(b, k).addrs == ip.addrs;
  }

  // iupdate followed by ilock gives the inode back; its neighbours are untouched.
  lemma InodeRoundTrip(b: Block, k: nat, ip: Inode)
    requires k < IPB && Encodable(ip)
    ensures GetInode(PutInode(b, k, ip), k) == ip
    ensures forall j: nat :: j < IPB && j != k ==> GetInode(PutInode(b, k, ip), j) == GetInode(b, j)
  {
    hide GetWord, GetInode, PutInode, InodeWords, Encodable;
    var c := PutInode(b, k, ip);
    forall j: nat | j < INODE_WORDS
      ensures GetWord(c, INODE_WORDS * k + j) == InodeWords(ip)[j]
    {
      InodeWord(b, k, ip, INODE_WORDS * k + j);
    }
    OwnInode(c, k, ip);
    forall j: nat | j < IPB && j != k
      ensures GetInode(c, j) == GetInode(b, j)
    {
      forall w: nat | INODE_WORDS * j <= w < INODE_WORDS * (j + 1)
        ensures GetWord(c, w) == GetWord(b, w)
      {
        InodeWord(b, k, ip, w);
      }
      SameInode(c, b, j);
    }
  }

  // --- the block map --------------------------------------------------------------

  // An inode's places for block numbers: 0..11 direct, 12 the indirect block,
  // 13..140 the entries of the indirect block.
  const NSLOTS := NDIRECT + 1 + NINDIRECT
  datatype Slot = Slot(inum: nat, s: nat)

  predicate AddrOk(sb: Super, a: nat) { a == 0 || sb.nmeta <= a < sb.size }

  predicate Shape(sb: Super, ip: Inode)
  {
    && Encodable(ip) && ip.size <= MAXFILE * BSIZE
    && forall k :: 0 <= k < |ip.addrs| ==> AddrOk(sb, ip.addrs[k])
  }

  function SlotBlock(d: Disk, ip: Inode, s: nat): (a: nat)
    requires |ip.addrs| == NDIRECT + 1 && ip.addrs[NDIRECT] < |d| && s < NSLOTS
  {
    if s <= NDIRECT then ip.addrs[s]
    else if ip.addrs[NDIRECT] == 0 then 0
    else GetWord(d[ip.addrs[NDIRECT]], s - NDIRECT - 1)
  }

  // The slot that holds the number of file block bn.
  function SlotOf(bn: nat): (s: nat) { if bn < NDIRECT then bn else bn + 1 }

  type Table = map<nat, Inode>
  type Owner = map<nat, Slot>

  predicate Shapes(sb: Super, d: Disk, t: Table)
  {
    && Layout(sb) && |d| == sb.size
    && forall i :: i in t ==> i < sb.ninodes && Shape(sb, t[i])
  }

  // Every block number in use is owned by exactly the slot that holds it.
  predicate Owned(sb: Super, d: Disk, t: Table, o: Owner)
    requires Shapes(sb, d, t)
  {
    && (forall i, s :: i in t && 0 <= s < NSLOTS && SlotBlock(d, t[i], s) != 0 ==>
          SlotBlock(d, t[i], s) in o && o[SlotBlock(d, t[i], s)] == Slot(i, s))
    && (forall b :: b in o ==>
          && sb.nmeta <= b < sb.size && o[b].inum in t && o[b].s < NSLOTS
          && SlotBlock(d, t[o[b].inum], o[b].s) == b)
  }

  // The free map marks exactly the metadata and the owned blocks.
  predicate Marked(sb: Super, d: Disk, o: Owner)
    requires Layout(sb) && |d| == sb.size
  {
    forall b: nat :: b < sb.size ==> (Bit(sb, d, b) <==> b < sb.nmeta || b in o)
  }

  predicate Tree(sb: Super, d: Disk, t: Table, o: Owner)
  {
    Shapes(sb, d, t) && Owned(sb, d, t, o) && Marked(sb, d, o)
  }

  // --- file contents ----------------------------------------------------------------

  // Every file block that holds a byte before `size` is allocated.
  predicate Backed(d: Disk, ip: Inode, size: nat)
    requires |ip.addrs| == NDIRECT + 1 && ip.addrs[NDIRECT] < |d|
  {
    size <= MAXFILE * BSIZE &&
    forall bn :: 0 <= bn < MAXFILE && bn * BSIZE < size ==> 0 < SlotBlock(d, ip, SlotOf(bn)) < |d|
  }

  function ByteAt(d: Disk, ip: Inode, pos: nat): (b: byte)
    requires |ip.addrs| == NDIRECT + 1 && ip.addrs[NDIRECT] < |d| && pos < MAXFILE * BSIZE
    requires SlotBlock(d, ip, SlotOf(pos / BSIZE)) < |d|
  {
    d[SlotBlock(d, ip, SlotOf(pos / BSIZE))][pos % BSIZE]
  }

  // The file as its readers see it.
  function Content(d: Disk, ip: Inode): (c: seq<byte>)
    requires |ip.addrs| == NDIRECT + 1 && ip.addrs[NDIRECT] < |d| && Backed(d, ip, ip.size)
    ensures |c| == ip.size
  {
    seq(ip.size, pos requires 0 <= pos < ip.size => ByteAt(d, ip, pos))
  }

  // Writing s at offset off of file c.
  function Splice(c: seq<byte>, off: nat, s: seq<byte>): (r: seq<byte>)
    requires off <= |c|
  {
    c[..off] + s + if off + |s| <= |c| then c[off + |s|..] else []
  }

  // The inode on disk is the one in memory.
  predicate OnDisk(sb: Super, d: Disk, i: nat, ip: Inode)
    requires Layout(sb) && |d| == sb.size && i < sb.ninodes
  {
    GetInode(d[IBlock(sb, i)], i % IPB) == ip
  }

  // The whole invariant between operations.
  predicate Inv(sb: Super, d: Disk, t: Table, o: Owner)
  {
    && Tree(sb, d, t, o)
    && (forall i :: i in t ==> Backed(d, t[i], t[i].size) && OnDisk(sb, d, i, t[i]))
  }

  // Two inodes never share a block, and no block number is used twice.
  lemma NoSharing(sb: Super, d: Disk, t: Table, o: Owner, i: nat, s: nat, j: nat, r: nat)
    requires Tree(sb, d, t, o) && i in t && j in t && s < NSLOTS && r < NSLOTS
    requires SlotBlock(d, t[i], s) != 0 && SlotBlock(d, t[i], s) == SlotBlock(d, t[j], r)
    ensures i == j && s == r
  {
  }

  // --- what leaves the tree alone -----------------------------------------------------

  // d and e agree on every indirect block.
  predicate SameIndirect(sb: Super, d: Disk, e: Disk, t: Table)
    requires Shapes(sb, d, t) && |e| == |d|
  {
    forall i :: i in t && t[i].addrs[NDIRECT] != 0 ==> e[t[i].addrs[NDIRECT]] == d[t[i].addrs[NDIRECT]]
  }

  lemma SameIndirectSameSlots(sb: Super, d: Disk, e: Disk, t: Table, o: Owner)
    requires Shapes(sb, d, t) && |e| == |d| && SameIndirect(sb, d, e, t)
    ensures forall i, s :: i in t && 0 <= s < NSLOTS ==> SlotBlock(e, t[i], s) == SlotBlock(d, t[i], s)
    ensures Owned(sb, d, t, o) ==> Owned(sb, e, t, o)
  {
  }

  // Storing into a data block a slot owns changes no block number, bit or inode.
  lemma DataWriteKeepsTree(sb: Super, d: Disk, t: Table, o: Owner, i: nat, s: nat, blk: Block)
    requires Tree(sb, d, t, o) && i in t && s < NSLOTS && s != NDIRECT && SlotBlock(d, t[i], s) != 0
    ensures SlotBlock(d, t[i], s) < |d|
    ensures var e := d[SlotBlock(d, t[i], s) := blk];
            && Tree(sb, e, t, o)
            && (forall j, r :: j in t && 0 <= r < NSLOTS ==> SlotBlock(e, t[j], r) == SlotBlock(d, t[j], r))
            && (forall c: nat :: c < sb.nmeta ==> e[c] == d[c])
  {
    var a := SlotBlock(d, t[i], s);
    var e := d[a := blk];
    forall j | j in t && t[j].addrs[NDIRECT] != 0
      ensures e[t[j].addrs[NDIRECT]] == d[t[j].addrs[NDIRECT]]
    {
      assert SlotBlock(d, t[j], NDIRECT) == t[j].addrs[NDIRECT];
    }
    SameIndirectSameSlots(sb, d, e, t, o);
    SameBits(sb, d, e);
  }

  // --- allocation -----------------------------------------------------------------------

  // The table and disk once block b has been allocated for slot s of inode i.
  function AllocTable(t: Table, i: nat, s: nat, b: nat): (r: Table)
    requires i in t && |t[i].addrs| == NDIRECT + 1
  {
    if s <= NDIRECT then t[i := t[i].(addrs := t[i].addrs[s := b])] else t
  }

  function AllocDisk(sb: Super, d: Disk, ip: Inode, s: nat, b: nat): (r: Disk)
    requires Layout(sb) && |d| == sb.size && b < sb.size && s < NSLOTS
    requires |ip.addrs| == NDIRECT + 1 && ip.addrs[NDIRECT] < |d|
    ensures |r| == |d|
  {
    var e := Allocated(sb, d, b);
    if s <= NDIRECT then e
    else
      var ind := ip.addrs[NDIRECT];
      e[ind := PutWord(e[ind], s - NDIRECT - 1, b)]
  }

  predicate Allocatable(sb: Super, d: Disk, t: Table, o: Owner, i: nat, s: nat, b: nat)
  {
    && Tree(sb, d, t, o) && i in t && s < NSLOTS && SlotBlock(d, t[i], s) == 0
    && (s > NDIRECT ==> t[i].addrs[NDIRECT] != 0)
    && sb.nmeta <= b < sb.size && b !in o
  }

  // A fresh block is in no slot.
  lemma FreshInNoSlot(sb: Super, d: Disk, t: Table, o: Owner, b: nat)
    requires Shapes(sb, d, t) && Owned(sb, d, t, o) && b !in o && b != 0
    ensures forall j, r :: j in t && 0 <= r < NSLOTS ==> SlotBlock(d, t[j], r) != b
  {
  }

  // The blocks an allocation does not touch.
  predicate Untouched(sb: Super, ip: Inode, s: nat, b: nat, c: nat)
    requires |ip.addrs| == NDIRECT + 1
  {
    c < sb.size && c != b && !IsBitmap(sb, c) && (s > NDIRECT ==> c != ip.addrs[NDIRECT])
  }

  lemma AllocFrame(sb: Super, d: Disk, t: Table, o: Owner, i: nat, s: nat, b: nat)
    requires Allocatable(sb, d, t, o, i, s, b)
    ensures t[i].addrs[NDIRECT] != b
    ensures var e := AllocDisk(sb, d, t[i], s, b);
            var ind := t[i].addrs[NDIRECT];
            && e[b] == ZeroBlock()
            && (s > NDIRECT ==> e[ind] == PutWord(d[ind], s - NDIRECT - 1, b))
            && (forall c: nat :: Untouched(sb, t[i], s, b, c) ==> e[c] == d[c])
  {
    FreshInNoSlot(sb, d, t, o, b);
    assert SlotBlock(d, t[i], NDIRECT) == t[i].addrs[NDIRECT];
  }

  lemma AllocSlotAt(sb: Super, d: Disk, t: Table, o: Owner, i: nat, s: nat, b: nat, j: nat, r: nat)
    requires Allocatable(sb, d, t, o, i, s, b) && j in t && r < NSLOTS
    ensures var e, u := AllocDisk(sb, d, t[i], s, b), AllocTable(t, i, s, b);
            SlotBlock(e, u[j], r) == if j == i && r == s then b else SlotBlock(d, t[j], r)
  {
    hide Marked, GetWord, PutWord, AllocDisk, ZeroBlock;
    if r > NDIRECT {
      AllocFrame(sb, d, t, o, i, s, b);
      var ind := t[j].addrs[NDIRECT];
      if j == i && s == NDIRECT {
        ZeroWords();
      } else if j == i && s > NDIRECT {
        WordRoundTrip(d[ind], s - NDIRECT - 1, b);
      } else if ind != 0 {
        FreshInNoSlot(sb, d, t, o, b);
        assert SlotBlock(d, t[j], NDIRECT) == ind;
        assert s > NDIRECT ==> SlotBlock(d, t[i], NDIRECT) == t[i].addrs[NDIRECT];
        assert Untouched(sb, t[i], s, b, ind);
      }
    }
  }

  // An allocation fills its slot and disturbs no other slot.
  lemma AllocSlots(sb: Super, d: Disk, t: Table, o: Owner, i: nat, s: nat, b: nat)
    requires Allocatable(sb, d, t, o, i, s, b)
    ensures var e, u := AllocDisk(sb, d, t[i], s, b), AllocTable(t, i, s, b);
            && Shapes(sb, e, u) && u.Keys == t.Keys
            && (forall j, r :: j in t && 0 <= r < NSLOTS ==>
                 SlotBlock(e, u[j], r) == if j == i && r == s then b else SlotBlock(d, t[j], r))
  {
    var e, u := AllocDisk(sb, d, t[i], s, b), AllocTable(t, i, s, b);
    forall j, r | j in t && 0 <= r < NSLOTS
      ensures SlotBlock(e, u[j], r) == if j == i && r == s then b else SlotBlock(d, t[j], r)
    {
      AllocSlotAt(sb, d, t, o, i, s, b, j, r);
    }
  }

  lemma AllocOwned(sb: Super, d: Disk, t: Table, o: Owner, i: nat, s: nat, b: nat)
    requires Allocatable(sb, d, t, o, i, s, b)
    ensures Shapes(sb, AllocDisk(sb, d, t[i], s, b), AllocTable(t, i, s, b))
    ensures Owned(sb, AllocDisk(sb, d, t[i], s, b), AllocTable(t, i, s, b), o[b := Slot(i, s)])
  {
    hide Marked, SlotBlock, AllocDisk;
    AllocSlots(sb, d, t, o, i, s, b);
    FreshInNoSlot(sb, d, t, o, b);
  }

  // Allocation keeps the tree: the block is now owned, by that slot alone, and marked.
  lemma AllocKeepsTree(sb: Super, d: Disk, t: Table, o: Owner, i: nat, s: nat, b: nat)
    requires Allocatable(sb, d, t, o, i, s, b)
    ensures Tree(sb, AllocDisk(sb, d, t[i], s, b), AllocTable(t, i, s, b), o[b := Slot(i, s)])
  {
    AllocOwned(sb, d, t, o, i, s, b);
    AllocatedBits(sb, d, b);
    hide Owned, GetBit, PutBit, SlotBlock;
    SameBits(sb, Allocated(sb, d, b), AllocDisk(sb, d, t[i], s, b));
  }

  // --- updating the inode on disk ---------------------------------------------------------

  function UpdateDisk(sb: Super, d: Disk, i: nat, ip: Inode): (r: Disk)
    requires Layout(sb) && |d| == sb.size && i < sb.ninodes && Encodable(ip)
    ensures |r| == |d|
  {
    d[IBlock(sb, i) := PutInode(d[IBlock(sb, i)], i % IPB, ip)]
  }

  // iupdate makes the disk copy current and leaves the tree and other inodes alone.
  lemma UpdateKeepsTree(sb: Super, d: Disk, t: Table, o: Owner, i: nat)
    requires Tree(sb, d, t, o) && i in t
    ensures var e := UpdateDisk(sb, d, i, t[i]);
            && Tree(sb, e, t, o)
            && OnDisk(sb, e, i, t[i])
            && (forall j, ip :: j in t && j != i && OnDisk(sb, d, j, ip) ==> OnDisk(sb, e, j, ip))
            && (forall j, r :: j in t && 0 <= r < NSLOTS ==> SlotBlock(e, t[j], r) == SlotBlock(d, t[j], r))
            && (forall c: nat :: sb.nmeta <= c < sb.size ==> e[c] == d[c])
  {
    var e := UpdateDisk(sb, d, i, t[i]);
    InodeRoundTrip(d[IBlock(sb, i)], i % IPB, t[i]);
    forall j | j in t && t[j].addrs[NDIRECT] != 0
      ensures e[t[j].addrs[NDIRECT]] == d[t[j].addrs[NDIRECT]]
    {
      assert AddrOk(sb, t[j].addrs[NDIRECT]);
    }
    SameIndirectSameSlots(sb, d, e, t, o);
    SameBits(sb, d, e);
    forall j, ip | j in t && j != i && OnDisk(sb, d, j, ip)
      ensures OnDisk(sb, e, j, ip)
    {
      if IBlock(sb, j) == IBlock(sb, i) { assert j % IPB != i % IPB; }
    }
  }
}
