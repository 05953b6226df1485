/**
 The file system on the log: what a crash leaves of a write.  The blocks a chunk of
 filewrite dirties are committed through the log of Log.dfy; whatever the number of
 block writes the commit got to make, and through whatever crashes in recovery, the
 disk comes back sound, and the file holds the chunk wholly or not at all.
 */
module FsCrash {
  import opened Basics
  import opened Blocks
  import opened FsLayout
  import opened FsTree
  import opened FsWrite
  import opened FsNeed
  import L = Log
  import Fs

  // The log lies before the inodes, and is on the disk.
  predicate Placed(sb: Super, g: L.Geometry)
  {
    0 < g.size && g.start + g.size <= sb.inodestart
  }

  // --- what the log does not touch ------------------------------------------------------

  lemma HomeBlock(sb: Super, g: L.Geometry, d: Disk, e: Disk, b: nat)
    requires Placed(sb, g) && L.SameHome(g, d, e) && sb.inodestart <= b < |d|
    ensures b < |e| && e[b] == d[b]
  {
  }

  lemma HomeSlots(sb: Super, g: L.Geometry, d: Disk, e: Disk, t: Table, o: Owner)
    requires Placed(sb, g) && L.SameHome(g, d, e) && Tree(sb, d, t, o)
    ensures Tree(sb, e, t, o)
    ensures forall j, s :: j in t && 0 <= s < NSLOTS ==> SlotBlock(e, t[j], s) == SlotBlock(d, t[j], s)
  {
    forall j | j in t && t[j].addrs[NDIRECT] != 0
      ensures e[t[j].addrs[NDIRECT]] == d[t[j].addrs[NDIRECT]]
    {
      assert AddrOk(sb, t[j].addrs[NDIRECT]);
      HomeBlock(sb, g, d, e, t[j].addrs[NDIRECT]);
    }
    SameIndirectSameSlots(sb, d, e, t, o);
    SameBits(sb, d, e);
  }

  lemma HomeContent(sb: Super, g: L.Geometry, d: Disk, e: Disk, t: Table, o: Owner, j: nat)
    requires Placed(sb, g) && L.SameHome(g, d, e) && Tree(sb, d, t, o) && j in t && Backed(d, t[j], t[j].size)
    ensures Tree(sb, e, t, o) && Backed(e, t[j], t[j].size) && Content(e, t[j]) == Content(d, t[j])
  {
    HomeSlots(sb, g, d, e, t, o);
    hide SlotBlock, Marked;
    forall pos | 0 <= pos < t[j].size
      ensures SlotBlock(e, t[j], SlotOf(pos / BSIZE)) < |e| && ByteAt(e, t[j], pos) == ByteAt(d, t[j], pos)
    {
      assert (pos / BSIZE) * BSIZE < t[j].size;
      assert SlotBlock(d, t[j], SlotOf(pos / BSIZE)) in o;
      HomeBlock(sb, g, d, e, SlotBlock(d, t[j], SlotOf(pos / BSIZE)));
    }
  }

  // A disk that agrees outside the log is as sound, and its files read the same.
  lemma HomeKeeps(sb: Super, g: L.Geometry, d: Disk, e: Disk, t: Table, o: Owner)
    requires Placed(sb, g) && L.SameHome(g, d, e) && Inv(sb, d, t, o)
    ensures Inv(sb, e, t, o) && forall j :: j in t ==> Content(e, t[j]) == Content(d, t[j])
  {
    HomeSlots(sb, g, d, e, t, o);
    forall j | j in t
      ensures Backed(e, t[j], t[j].size) && Content(e, t[j]) == Content(d, t[j]) && OnDisk(sb, e, j, t[j])
    {
      HomeContent(sb, g, d, e, t, o, j);
      HomeBlock(sb, g, d, e, IBlock(sb, j));
      hide Content, GetInode, Tree, Backed;
    }
  }

  // --- the transaction of a write ----------------------------------------------------------

  // lh lists the blocks of l, in whatever order they were logged.
  predicate Orders(lh: seq<nat>, l: set<nat>) { Distinct(lh) && Elements(lh) == l }

  function TxnOf(d: Disk, lh: seq<nat>): (t: L.Txn)
    requires forall k :: 0 <= k < |lh| ==> lh[k] < |d|
  {
    L.Txn(lh, seq(|lh|, k requires 0 <= k < |lh| => d[lh[k]]))
  }

  predicate InHome(sb: Super, l: set<nat>) { forall b :: b in l ==> sb.inodestart <= b < sb.size }

  // What a write logs lies among inodes, free map and data.
  lemma WriteInHome(sb: Super, d: Disk, t: Table, o0: Owner, o: Owner, i: nat, off: nat, n: nat, grew: bool)
    requires Tree(sb, d, t, o) && i in t && Backed(d, t[i], off + n) && Took(sb, i, o0, o, off / BSIZE, Reach(off, n))
    requires Reach(off, n) <= MAXFILE
    ensures InHome(sb, WriteLog(sb, i, o0, o, {}, d, t[i], off, n, grew))
  {
    var l := WriteLog(sb, i, o0, o, {}, d, t[i], off, n, grew);
    var added := o.Keys - o0.Keys;
    forall b | b in l
      ensures sb.inodestart <= b < sb.size
    {
      if b in DataOf(d, t[i], off / BSIZE, Reach(off, n)) {
        DataInHome(sb, d, t, o, i, off, n, b);
      } else if b in added {
        InArea(sb, d, t, o, b);
      } else if b in MapsOf(sb, added) {
        var c :| c in added && b == BBlock(sb, c);
        InArea(sb, d, t, o, c);
      } else if grew && b == IBlock(sb, i) {
        InodeInHome(sb, d, t, o, i);
      } else {
        DeepInd(sb, i, o0, o, d, t);
        IndInHome(sb, d, t, o, i);
      }
      hide Owned, Marked, SlotBlock, DataOf, Took;
    }
  }

  lemma DataInHome(sb: Super, d: Disk, t: Table, o: Owner, i: nat, off: nat, n: nat, b: nat)
    requires Tree(sb, d, t, o) && i in t && Backed(d, t[i], off + n) && Reach(off, n) <= MAXFILE
    requires b in DataOf(d, t[i], off / BSIZE, Reach(off, n))
    ensures sb.inodestart <= b < sb.size
  {
    var bn :| off / BSIZE <= bn < Reach(off, n) && b == SlotBlock(d, t[i], SlotOf(bn));
    assert bn * BSIZE < off + n;
    assert b in o;
  }

  lemma InodeInHome(sb: Super, d: Disk, t: Table, o: Owner, i: nat)
    requires Tree(sb, d, t, o) && i in t
    ensures sb.inodestart <= IBlock(sb, i) < sb.size
  {
  }

  lemma IndInHome(sb: Super, d: Disk, t: Table, o: Owner, i: nat)
    requires Tree(sb, d, t, o) && i in t && t[i].addrs[NDIRECT] != 0
    ensures sb.inodestart <= t[i].addrs[NDIRECT] < sb.size
  {
    assert AddrOk(sb, t[i].addrs[NDIRECT]);
  }

  // It is a transaction the log can hold.
  lemma TxnFits(sb: Super, g: L.Geometry, d: Disk, lh: seq<nat>, l: set<nat>)
    requires Placed(sb, g) && |d| == sb.size
    requires Orders(lh, l) && InHome(sb, l) && |l| <= Min(L.LOGSIZE, g.size - 1)
    ensures (forall k :: 0 <= k < |lh| ==> lh[k] < |d|) && L.ValidTxn(g, |d|, TxnOf(d, lh)) && |lh| == |l|
  {
    hide Elements;
    ListSize(lh);
    assert forall k :: 0 <= k < |lh| ==> lh[k] in l;
  }

  // Installing it makes the disk what the cache shows.
  lemma InstallsView(g: L.Geometry, p: Disk, base: Disk, d: Disk, lh: seq<nat>, l: set<nat>)
    requires L.SameHome(g, p, base) && |base| == |d| && Orders(lh, l)
    requires forall c: nat :: c < |d| && c !in l ==> d[c] == base[c]
    requires (forall k :: 0 <= k < |lh| ==> lh[k] < |d|) && L.ValidTxn(g, |p|, TxnOf(d, lh))
    ensures L.SameHome(g, d, L.Effect(p, TxnOf(d, lh)))
  {
    var t := TxnOf(d, lh);
    L.EffectPointwise(g, p, t);
    hide L.Effect, Elements;
    forall b: nat | b < |d| && !g.InLog(b)
      ensures L.Effect(p, t)[b] == d[b]
    {
      if b in lh {
        var k :| 0 <= k < |lh| && lh[k] == b;
        assert L.Effect(p, t)[t.lh[k]] == t.vals[k];
      }
    }
  }

  // --- the crash theorem -----------------------------------------------------------------------

  // The disk after a commit of lh from p was cut off after k block writes and recovered
  // through crashes.
  function Recovered(g: L.Geometry, p: Disk, d: Disk, lh: seq<nat>, k: nat, crashes: seq<nat>): (r: Disk)
    requires (forall j :: 0 <= j < |lh| ==> lh[j] < |d|) && L.Idle(g, p) && L.ValidTxn(g, |p|, TxnOf(d, lh))
  {
    L.CrashAtomicity(g, p, TxnOf(d, lh), k, crashes);
    L.Recover(g, L.CrashyRecoveries(g, L.CommitUpTo(g, p, TxnOf(d, lh), k), crashes))
  }

  // Sound, and with the file of inode i as old with m bytes of src at off; all other files
  // as on d0.
  ghost predicate Holds(sb: Super, d0: Disk, t0: Table, r: Disk, t: Table, o: Owner, i: nat, off: nat, src: seq<byte>, m: nat)
  {
    && Readable(sb, d0, t0) && Readable(sb, r, t) && i in t0 && t.Keys == t0.Keys && off <= t0[i].size && m <= |src|
    && Inv(sb, r, t, o)
    && Content(r, t[i]) == Splice(Content(d0, t0[i]), off, src[..m])
    && forall j :: j in t0 && j != i ==> t[j] == t0[j] && Content(r, t[j]) == Content(d0, t0[j])
  }

  // The chunk that takes the file from done to done + n bytes, and inodes and owners from
  // u and o to t' and o', is kept whole if the header reached the disk, and lost whole if not.
  ghost predicate ChunkIsAtomic(sb: Super, g: L.Geometry, p: Disk, d0: Disk, t0: Table, u: Table, o: Owner,
                                d: Disk, t: Table, o': Owner, l: set<nat>, i: nat, off: nat, src: seq<byte>,
                                done: nat, n: nat, lh: seq<nat>, k: nat, crashes: seq<nat>)
  {
    Orders(lh, l) ==>
      && (forall j :: 0 <= j < |lh| ==> lh[j] < |d|) && L.Idle(g, p) && L.ValidTxn(g, |p|, TxnOf(d, lh))
      && var r := Recovered(g, p, d, lh, k, crashes);
         && L.Idle(g, r)
         && if k > |lh| then Holds(sb, d0, t0, r, t, o', i, off, src, done + n)
            else Holds(sb, d0, t0, r, u, o, i, off, src, done)
  }

  // Before the chunk, whatever was written: done bytes.
  lemma HoldsBefore(sb: Super, g: L.Geometry, d0: Disk, t0: Table, e: Disk, u: Table, o: Owner, r: Disk,
                    i: nat, off: nat, src: seq<byte>, done: nat)
    requires Placed(sb, g) && PrefixWritten(sb, d0, t0, e, u, i, off, src, done) && Inv(sb, e, u, o) && L.SameHome(g, e, r)
    requires off <= t0[i].size
    ensures Holds(sb, d0, t0, r, u, o, i, off, src, done)
  {
    hide *;
    HomeKeeps(sb, g, e, r, u, o);
    ReadableIf(sb, r, u, o);
    PrefixMeans(sb, d0, t0, e, u, i, off, src, done);
    HoldsIf(sb, d0, t0, r, u, o, i, off, src, done);
  }

  lemma ReadableIf(sb: Super, d: Disk, t: Table, o: Owner)
    requires Inv(sb, d, t, o)
    ensures Readable(sb, d, t)
  {
  }

  // What is in the files when done bytes have been written.
  lemma PrefixMeans(sb: Super, d0: Disk, t0: Table, e: Disk, u: Table, i: nat, off: nat, src: seq<byte>, done: nat)
    requires PrefixWritten(sb, d0, t0, e, u, i, off, src, done) && off <= t0[i].size
    ensures Readable(sb, d0, t0) && Readable(sb, e, u) && i in t0 && u.Keys == t0.Keys && done <= |src|
    ensures Content(e, u[i]) == Splice(Content(d0, t0[i]), off, src[..done])
    ensures forall j :: j in t0 && j != i ==> u[j] == t0[j] && Content(e, u[j]) == Content(d0, t0[j])
  {
    hide Content, Backed, Splice;
    if done == 0 {
      NothingSpliced(Content(d0, t0[i]), off, src);
    }
  }

  lemma HoldsIf(sb: Super, d0: Disk, t0: Table, r: Disk, u: Table, o: Owner, i: nat, off: nat, src: seq<byte>, done: nat)
    requires Readable(sb, d0, t0) && Readable(sb, r, u) && i in t0 && u.Keys == t0.Keys && done <= |src| && off <= t0[i].size
    requires Inv(sb, r, u, o) && Content(r, u[i]) == Splice(Content(d0, t0[i]), off, src[..done])
    requires forall j :: j in t0 && j != i ==> u[j] == t0[j] && Content(r, u[j]) == Content(d0, t0[j])
    ensures Holds(sb, d0, t0, r, u, o, i, off, src, done)
  {
    hide Inv, Content, Backed, Shapes, Splice;
  }

  lemma NothingSpliced(c: seq<byte>, off: nat, src: seq<byte>)
    requires off <= |c|
    ensures Splice(c, off, src[..0]) == c
  {
  }

  lemma SameHomeThen(g: L.Geometry, d: Disk, e: Disk, f: Disk)
    requires L.SameHome(g, d, e) && (L.SameHome(g, e, f) || L.SameHome(g, f, e))
    ensures L.SameHome(g, d, f) && L.SameHome(g, f, d)
  {
  }

  // One chunk, one crash.  e is the disk the chunk found, d the one it made.
  lemma ChunkCrash(sb: Super, g: L.Geometry, p: Disk, d0: Disk, t0: Table, e: Disk, u: Table, o: Owner,
                   d: Disk, t: Table, o': Owner, l: set<nat>, i: nat, off: nat, src: seq<byte>,
                   done: nat, n: nat, lh: seq<nat>, k: nat, crashes: seq<nat>)
    requires Placed(sb, g) && MAXOPBLOCKS < g.size && L.Idle(g, p) && L.SameHome(g, p, e)
    requires Inv(sb, e, u, o) && PrefixWritten(sb, d0, t0, e, u, i, off, src, done) && off <= t0[i].size
    requires Inv(sb, d, t, o') && PrefixWritten(sb, d0, t0, d, t, i, off, src, done + n)
    requires |e| == |d| == sb.size && InHome(sb, l) && |l| <= MAXOPBLOCKS
    requires forall c: nat :: c < |d| && c !in l ==> d[c] == e[c]
    ensures ChunkIsAtomic(sb, g, p, d0, t0, u, o, d, t, o', l, i, off, src, done, n, lh, k, crashes)
  {
    hide Inv, PrefixWritten, Placed, L.Idle, L.SameHome, L.ValidTxn, L.Effect, L.Recover, L.CrashyRecoveries, L.CommitUpTo,
         InHome, Orders, TxnOf, Holds;
    if Orders(lh, l) {
      SameLength(g, p, e);
      TxnFits(sb, g, d, lh, l);
      TxnNames(d, lh);
      L.CrashAtomicity(g, p, TxnOf(d, lh), k, crashes);
      InstallsView(g, p, e, d, lh, l);
      var r := Recovered(g, p, d, lh, k, crashes);
      if k > |lh| {
        SameHomeThen(g, d, L.Effect(p, TxnOf(d, lh)), r);
        HoldsBefore(sb, g, d0, t0, d, t, o', r, i, off, src, done + n);
      } else {
        SameHomeThen(g, r, p, e);
        HoldsBefore(sb, g, d0, t0, e, u, o, r, i, off, src, done);
      }
    }
  }

  lemma SameLength(g: L.Geometry, p: Disk, e: Disk)
    requires L.SameHome(g, p, e)
    ensures |p| == |e|
  {
  }

  lemma TxnNames(d: Disk, lh: seq<nat>)
    requires forall k :: 0 <= k < |lh| ==> lh[k] < |d|
    ensures TxnOf(d, lh).lh == lh && |TxnOf(d, lh).vals| == |lh|
  {
  }

  // A chunk of filewrite as its own transaction.  p is the physical disk, which at
  // begin_op holds what the cache shows.  Whatever order its blocks were logged in,
  // whatever write of the commit was the last, and whatever crashes recovery met, the
  // disk comes back sound and the file holds the bytes before the chunk, or all of them.
  method CommitChunk(fs: Fs.FileSystem, i: nat, src: seq<byte>, off: nat, done: nat,
                     ghost d0: Disk, ghost t0: Table, ghost g: L.Geometry, ghost p: Disk)
    returns (r: Fs.WriteResult, n: nat)
    requires fs.Valid() && i in fs.table && done < |src| && off + |src| < UINT_LIMIT
    requires PrefixWritten(fs.sb, d0, t0, fs.disk, fs.table, i, off, src, done)
    requires Placed(fs.sb, g) && MAXOPBLOCKS < g.size && L.Idle(g, p) && L.SameHome(g, p, fs.disk)
    modifies fs`disk, fs`table, fs`owner, fs`dirtied, fs`base
    ensures n == Min(|src| - done, CHUNK)
    ensures r.WriteOk? ==>
      forall lh, k, crashes ::
        ChunkIsAtomic(fs.sb, g, p, d0, t0, old(fs.table), old(fs.owner), fs.disk, fs.table, fs.owner, fs.dirtied,
                      i, off, src, done, n, lh, k, crashes)
  {
    hide *;
    FileLimits();
    n := Min(|src| - done, CHUNK);
    ghost var e, u, o := fs.disk, fs.table, fs.owner;
    fs.dirtied, fs.base := {}, fs.disk;
    fs.Opened(i);
    fs.Whole();
    fs.Begun();
    r := fs.Writei(i, src[done..done + n], off + done);
    if r.WriteOk? {
      fs.Opened(i);
      fs.Whole();
      fs.OnlyLogged();
      ghost var d, t, o', l := fs.disk, fs.table, fs.owner, fs.dirtied;
      ghost var grew := n > 0 && off + done + n > u[i].size;
      ChunkFits(off + done, n);
      NotRejected(u[i].size, off + done, n);
      SplicedKeeps(fs.sb, e, u, d, t, i, off + done, src[done..done + n]);
      PrefixStep(fs.sb, d0, t0, e, u, d, t, i, off, src, done, n);
      PrefixIn(fs.sb, d0, t0, d, t, i, off, src, done + n);
      BackedLess(d, t[i], t[i].size, off + done + n);
      WriteInHome(fs.sb, d, t, o, o', i, off + done, n, grew);
      forall lh, k, crashes
        ensures ChunkIsAtomic(fs.sb, g, p, d0, t0, u, o, d, t, o', l, i, off, src, done, n, lh, k, crashes)
      {
        ChunkCrash(fs.sb, g, p, d0, t0, e, u, o, d, t, o', l, i, off, src, done, n, lh, k, crashes);
      }
    }
  }

  lemma PrefixIn(sb: Super, d0: Disk, t0: Table, d: Disk, t: Table, i: nat, off: nat, src: seq<byte>, done: nat)
    requires PrefixWritten(sb, d0, t0, d, t, i, off, src, done) && done > 0
    ensures i in t0 && off <= t0[i].size
  {
  }
}
