/**
 Histories of the file system on the log.  Calls of writei, by whatever processes, are
 committed in groups, each group one transaction; some commits run to their end, others
 are cut off by a crash and recovered, through further crashes.  However that goes, the
 files are those the surviving groups, whole and in order, leave on files that cannot
 crash.
 */
module FsHistory {
  import opened Basics
  import opened Blocks
  import opened FsLayout
  import opened FsTree
  import opened FsWrite
  import opened FsNeed
  import opened FsCrash
  import L = Log
  import Fs

  // --- files that cannot crash ----------------------------------------------------------

  // A call of writei: src at offset off of inode i's file.
  datatype Request = Request(i: nat, off: nat, src: seq<byte>)

  type Files = map<nat, seq<byte>>

  function FilesOf(sb: Super, d: Disk, t: Table): (f: Files)
    requires Readable(sb, d, t)
  {
    map j | j in t :: Content(d, t[j])
  }

  // The inodes that are not devices.
  function Plain(t: Table): (s: set<nat>) { set j | j in t && t[j].typ != Fs.T_DEV }

  // A request that writei turns down changes nothing.
  function Written(plain: set<nat>, f: Files, q: Request): (r: Files)
  {
    if q.i in plain && q.i in f && !Rejects(|f[q.i]|, q.off, |q.src|) then f[q.i := Splice(f[q.i], q.off, q.src)]
    else f
  }

  function WriteAll(plain: set<nat>, f: Files, qs: seq<Request>): (r: Files)
  {
    if qs == [] then f else Written(plain, WriteAll(plain, f, qs[..|qs| - 1]), qs[|qs| - 1])
  }

  lemma {:induction false} WriteAllConcat(plain: set<nat>, f: Files, a: seq<Request>, b: seq<Request>)
    ensures WriteAll(plain, f, a + b) == WriteAll(plain, WriteAll(plain, f, a), b)
    decreases |b|
  {
    if b == [] {
      assert a + b == a;
    } else {
      assert (a + b)[..|a + b| - 1] == a + b[..|b| - 1];
      WriteAllConcat(plain, f, a, b[..|b| - 1]);
    }
  }

  // Pieces appended to file i, one call each, from offset off on.
  function Flat(pieces: seq<seq<byte>>): (s: seq<byte>)
  {
    if pieces == [] then [] else Flat(pieces[..|pieces| - 1]) + pieces[|pieces| - 1]
  }

  function Appends(i: nat, off: nat, pieces: seq<seq<byte>>): (qs: seq<Request>)
  {
    if pieces == [] then []
    else
      var front := pieces[..|pieces| - 1];
      Appends(i, off, front) + [Request(i, off + |Flat(front)|, pieces[|pieces| - 1])]
  }

  // Appends within the largest file all go through: the file, empty or not, then ends in
  // their concatenation, and no other file has changed.
  lemma {:induction false} AppendsConcat(plain: set<nat>, f: Files, i: nat, pieces: seq<seq<byte>>)
    requires i in plain && i in f && |f[i]| + |Flat(pieces)| <= MAXFILE * BSIZE
    ensures WriteAll(plain, f, Appends(i, |f[i]|, pieces)) == f[i := f[i] + Flat(pieces)]
  {
    if pieces == [] {
      assert f[i] + [] == f[i] && f[i := f[i]] == f;
    } else {
      var front, last := pieces[..|pieces| - 1], pieces[|pieces| - 1];
      AppendsConcat(plain, f, i, front);
      var qs, c := Appends(i, |f[i]|, pieces), f[i] + Flat(front);
      assert qs[..|qs| - 1] == Appends(i, |f[i]|, front) && qs[|qs| - 1] == Request(i, |c|, last);
      AppendOne(plain, f, i, c, last);
      assert c + last == f[i] + Flat(pieces);
    }
  }

  lemma AppendOne(plain: set<nat>, f: Files, i: nat, c: seq<byte>, last: seq<byte>)
    requires i in plain && i in f && |c| + |last| <= MAXFILE * BSIZE
    ensures Written(plain, f[i := c], Request(i, |c|, last)) == f[i := c + last]
  {
    assert Splice(c, |c|, last) == c + last;
    assert f[i := c][i := c + last] == f[i := c + last];
  }

  // --- one group --------------------------------------------------------------------------

  // The calls qs, one after the other, take the file system from e, u, o to d, t, o',
  // logging the blocks l.
  ghost predicate GroupWrites(sb: Super, e: Disk, u: Table, o: Owner, d: Disk, t: Table, o': Owner, l: set<nat>,
                              qs: seq<Request>)
  {
    && Inv(sb, e, u, o) && Inv(sb, d, t, o') && |e| == |d| == sb.size && InHome(sb, l)
    && (forall c: nat :: c < |d| && c !in l ==> d[c] == e[c])
    && Plain(t) == Plain(u)
    && Readable(sb, e, u) && Readable(sb, d, t)
    && FilesOf(sb, d, t) == WriteAll(Plain(u), FilesOf(sb, e, u), qs)
  }

  // One successful call.
  lemma RequestWrites(sb: Super, e: Disk, u: Table, d: Disk, t: Table, q: Request)
    requires Readable(sb, e, u) && Readable(sb, d, t) && q.i in u && u[q.i].typ != Fs.T_DEV
    requires !Rejects(u[q.i].size, q.off, |q.src|) && q.off <= u[q.i].size
    requires FileSpliced(sb, e, u, d, t, q.i, q.off, q.src)
    ensures FilesOf(sb, d, t) == Written(Plain(u), FilesOf(sb, e, u), q) && Plain(t) == Plain(u) && t.Keys == u.Keys
  {
    hide Backed, Content, Splice, Shapes, Rejects;
  }

  lemma RequestIgnored(sb: Super, e: Disk, u: Table, q: Request)
    requires Readable(sb, e, u) && q.i in u
    requires u[q.i].typ == Fs.T_DEV || Rejects(u[q.i].size, q.off, |q.src|)
    ensures Written(Plain(u), FilesOf(sb, e, u), q) == FilesOf(sb, e, u)
  {
    hide Backed, Splice, Shapes, Rejects;
  }

  // The calls of one transaction.  A call that runs out of disk blocks panics.
  method WriteGroup(fs: Fs.FileSystem, qs: seq<Request>) returns (ok: bool)
    requires fs.Valid()
    requires forall k :: 0 <= k < |qs| ==> qs[k].i in fs.table && qs[k].off < UINT_LIMIT && |qs[k].src| < UINT_LIMIT
    modifies fs`disk, fs`table, fs`owner, fs`dirtied, fs`base
    ensures ok ==> GroupWrites(fs.sb, old(fs.disk), old(fs.table), old(fs.owner), fs.disk, fs.table, fs.owner, fs.dirtied, qs)
    ensures ok ==> fs.Valid() && |fs.dirtied| <= Cost(qs)
    ensures !ok ==> Layout(fs.sb) && |fs.disk| == fs.sb.size && Full(fs.sb, fs.disk)
  {
    hide *;
    ghost var e, u, o := fs.disk, fs.table, fs.owner;
    fs.dirtied, fs.base := {}, fs.disk;
    fs.Begun();
    fs.Whole();
    NoneWritten(fs.sb, e, u, o);
    for k := 0 to |qs|
      invariant fs.Valid() && fs.base == e && fs.InTxn() && fs.table.Keys == u.Keys
      invariant GroupWrites(fs.sb, e, u, o, fs.disk, fs.table, fs.owner, fs.dirtied, qs[..k])
      invariant |fs.dirtied| <= Cost(qs[..k])
    {
      ghost var d, t, o1, l := fs.disk, fs.table, fs.owner, fs.dirtied;
      fs.Opened(qs[k].i);
      var r := fs.Writei(qs[k].i, qs[k].src, qs[k].off);
      CostSnoc(qs, k);
      if r.WritePanic? {
        return false;
      }
      if r.WriteOk? {
        fs.Opened(qs[k].i);
        fs.Whole();
        fs.OnlyLogged();
        CallIs(fs.sb, d, t, o1, l, fs.disk, fs.table, fs.owner, fs.dirtied, qs[k]);
        ghost var more := CallEffect(fs.sb, d, t, o1, l, fs.disk, fs.table, fs.owner, fs.dirtied, qs[k]);
        GroupSnoc(fs.sb, e, u, o, d, t, o1, l, fs.disk, fs.table, fs.owner, fs.dirtied, more, qs, k);
      } else {
        NextIgnored(fs.sb, e, u, o, d, t, o1, l, qs, k);
      }
    }
    assert qs[..|qs|] == qs;
    ok := true;
  }

  // The log entries a group can need.
  function Cost(qs: seq<Request>): (n: nat)
  {
    if qs == [] then 0 else Cost(qs[..|qs| - 1]) + WriteCost(qs[|qs| - 1].off, |qs[|qs| - 1].src|)
  }

  lemma CostSnoc(qs: seq<Request>, k: nat)
    requires k < |qs|
    ensures Cost(qs[..k]) <= Cost(qs[..k + 1]) == Cost(qs[..k]) + WriteCost(qs[k].off, |qs[k].src|)
  {
    assert qs[..k + 1][..k] == qs[..k];
  }

  // filewrite's chunks cost MAXOPBLOCKS each at most.
  lemma {:induction false} ChunksCost(qs: seq<Request>)
    requires forall k :: 0 <= k < |qs| ==> |qs[k].src| <= CHUNK
    ensures Cost(qs) <= MAXOPBLOCKS * |qs|
  {
    if qs != [] {
      ChunksCost(qs[..|qs| - 1]);
      ChunkFits(qs[|qs| - 1].off, |qs[|qs| - 1].src|);
    }
  }

  lemma NoneWritten(sb: Super, e: Disk, u: Table, o: Owner)
    requires Inv(sb, e, u, o)
    ensures GroupWrites(sb, e, u, o, e, u, o, {}, []) && Cost([]) == 0
  {
    hide Content, Backed, Owned, Marked, OnDisk;
  }

  lemma NextIgnored(sb: Super, e: Disk, u: Table, o: Owner, d: Disk, t: Table, o1: Owner, l: set<nat>, qs: seq<Request>, k: nat)
    requires k < |qs| && GroupWrites(sb, e, u, o, d, t, o1, l, qs[..k]) && qs[k].i in t
    requires t[qs[k].i].typ == Fs.T_DEV || Rejects(t[qs[k].i].size, qs[k].off, |qs[k].src|)
    ensures GroupWrites(sb, e, u, o, d, t, o1, l, qs[..k + 1])
  {
    hide Inv, Content, Backed, Rejects, Shapes, Written;
    RequestIgnored(sb, d, t, qs[k]);
    assert qs[..k + 1][..k] == qs[..k];
  }

  // What writei says of a call q that has succeeded.
  ghost predicate CallWrites(sb: Super, d: Disk, t: Table, o: Owner, l: set<nat>,
                             d': Disk, t': Table, o': Owner, l': set<nat>, q: Request)
  {
    && Inv(sb, d', t', o') && Readable(sb, d, t) && Readable(sb, d', t') && q.i in t && q.i in t'
    && t[q.i].typ != Fs.T_DEV && !Rejects(t[q.i].size, q.off, |q.src|)
    && FileSpliced(sb, d, t, d', t', q.i, q.off, q.src)
    && Took(sb, q.i, o, o', q.off / BSIZE, Reach(q.off, |q.src|)) && Reach(q.off, |q.src|) <= MAXFILE
    && l' == WriteLog(sb, q.i, o, o', l, d', t'[q.i], q.off, |q.src|, |q.src| > 0 && q.off + |q.src| > t[q.i].size)
  }

  lemma CallIs(sb: Super, d: Disk, t: Table, o: Owner, l: set<nat>,
               d': Disk, t': Table, o': Owner, l': set<nat>, q: Request)
    requires Inv(sb, d', t', o') && Readable(sb, d, t) && Readable(sb, d', t') && q.i in t && q.i in t'
    requires t[q.i].typ != Fs.T_DEV && !Rejects(t[q.i].size, q.off, |q.src|)
    requires FileSpliced(sb, d, t, d', t', q.i, q.off, q.src)
    requires Took(sb, q.i, o, o', q.off / BSIZE, Reach(q.off, |q.src|)) && Reach(q.off, |q.src|) <= MAXFILE
    requires l' == WriteLog(sb, q.i, o, o', l, d', t'[q.i], q.off, |q.src|, |q.src| > 0 && q.off + |q.src| > t[q.i].size)
    ensures CallWrites(sb, d, t, o, l, d', t', o', l', q)
  {
    hide Inv, Readable, Rejects, FileSpliced, Took, WriteLog, Reach;
  }

  // Its effect on the files, and what it adds to the log.
  lemma CallEffect(sb: Super, d: Disk, t: Table, o: Owner, l: set<nat>,
                   d': Disk, t': Table, o': Owner, l': set<nat>, q: Request) returns (more: set<nat>)
    requires CallWrites(sb, d, t, o, l, d', t', o', l', q)
    ensures Readable(sb, d, t) && Readable(sb, d', t') && Inv(sb, d', t', o')
    ensures FilesOf(sb, d', t') == Written(Plain(t), FilesOf(sb, d, t), q) && Plain(t') == Plain(t) && t'.Keys == t.Keys
    ensures l' == l + more && InHome(sb, more)
  {
    hide Inv, Readable, Rejects, FileSpliced, Took, WriteLog, FilesOf, Written, Plain, InHome, Reach;
    NotRejected(t[q.i].size, q.off, |q.src|);
    SplicedKeeps(sb, d, t, d', t', q.i, q.off, q.src);
    RequestWrites(sb, d, t, d', t', q);
    BackedTo(sb, d', t', o', q.i, q.off + |q.src|);
    hide CallWrites, Tree, Backed;
    var grew := |q.src| > 0 && q.off + |q.src| > t[q.i].size;
    WriteInHome(sb, d', t', o, o', q.i, q.off, |q.src|, grew);
    LogGrows(sb, q.i, o, o', l, d', t'[q.i], q.off, |q.src|, grew);
    more := WriteLog(sb, q.i, o, o', {}, d', t'[q.i], q.off, |q.src|, grew);
  }

  lemma BackedTo(sb: Super, d: Disk, t: Table, o: Owner, i: nat, size: nat)
    requires Inv(sb, d, t, o) && i in t && size <= t[i].size
    ensures Tree(sb, d, t, o) && |t[i].addrs| == NDIRECT + 1 && t[i].addrs[NDIRECT] < |d| && Backed(d, t[i], size)
  {
  }

  lemma LogGrows(sb: Super, i: nat, o0: Owner, o: Owner, l: set<nat>, d: Disk, ip: Inode, off: nat, n: nat, grew: bool)
    requires |ip.addrs| == NDIRECT + 1 && ip.addrs[NDIRECT] < |d| && Reach(off, n) <= MAXFILE
    ensures WriteLog(sb, i, o0, o, l, d, ip, off, n, grew) == l + WriteLog(sb, i, o0, o, {}, d, ip, off, n, grew)
  {
    hide DataOf, MapsOf, Deep;
  }

  lemma GroupSnoc(sb: Super, e: Disk, u: Table, o: Owner, d: Disk, t: Table, o1: Owner, l: set<nat>,
                  d': Disk, t': Table, o2: Owner, l': set<nat>, more: set<nat>, qs: seq<Request>, k: nat)
    requires k < |qs| && GroupWrites(sb, e, u, o, d, t, o1, l, qs[..k])
    requires Inv(sb, d', t', o2) && |d'| == |e| && forall c: nat :: c < |d'| && c !in l' ==> d'[c] == e[c]
    requires Plain(t') == Plain(t) && Readable(sb, d, t) && Readable(sb, d', t')
    requires FilesOf(sb, d', t') == Written(Plain(t), FilesOf(sb, d, t), qs[k])
    requires l' == l + more && InHome(sb, more)
    ensures GroupWrites(sb, e, u, o, d', t', o2, l', qs[..k + 1])
  {
    hide Inv, Content, Backed, Shapes, Written, FilesOf, Plain;
    assert qs[..k + 1][..k] == qs[..k];
  }

  // --- histories -----------------------------------------------------------------------------

  // The physical disk, the disk as the cache shows it, the inodes in memory, and who owns
  // the blocks.
  datatype State = State(p: Disk, d: Disk, t: Table, o: Owner)

  // All commits are done, and the file system is sound.
  ghost predicate Good(sb: Super, g: L.Geometry, s: State)
  {
    Placed(sb, g) && L.Idle(g, s.p) && L.SameHome(g, s.p, s.d) && Inv(sb, s.d, s.t, s.o) && Readable(sb, s.d, s.t)
  }

  // How a commit goes: to its end, or cut off after some block writes and recovered,
  // through crashes of recovery itself.
  datatype Ending = Completes | Crashes(writes: nat, recoveries: seq<nat>)

  // A group, what it made of the file system, the blocks it logged in the order of the
  // log, and how its commit went.
  datatype Episode = Episode(qs: seq<Request>, d: Disk, t: Table, o: Owner, l: set<nat>, lh: seq<nat>, end: Ending)

  // The group is one of GroupWrites, and fits the log.
  ghost predicate Possible(sb: Super, g: L.Geometry, s: State, e: Episode)
  {
    && GroupWrites(sb, s.d, s.t, s.o, e.d, e.t, e.o, e.l, e.qs)
    && Orders(e.lh, e.l) && |e.l| <= Min(L.LOGSIZE, g.size - 1)
  }

  function EpochOf(e: Episode): (r: L.Epoch)
    requires forall k :: 0 <= k < |e.lh| ==> e.lh[k] < |e.d|
  {
    match e.end
    case Completes => L.Completed(TxnOf(e.d, e.lh))
    case Crashes(writes, recoveries) => L.Crashed(TxnOf(e.d, e.lh), writes, recoveries)
  }

  // The log's header reached the disk.
  predicate Survives(e: Episode) { e.end.Completes? || e.end.writes > |e.lh| }

  lemma EpisodeFits(sb: Super, g: L.Geometry, s: State, e: Episode)
    requires Good(sb, g, s) && Possible(sb, g, s, e)
    ensures forall k :: 0 <= k < |e.lh| ==> e.lh[k] < |e.d|
    ensures L.Idle(g, s.p) && L.ValidTxn(g, |s.p|, EpochOf(e).t)
    ensures EpochOf(e).t == TxnOf(e.d, e.lh) && (L.Kept(EpochOf(e)) <==> Survives(e))
  {
    hide Inv, Readable, L.Idle, L.ValidTxn, FilesOf, WriteAll, Plain, InHome, Orders, Placed;
    TxnFits(sb, g, e.d, e.lh, e.l);
  }

  // A crash loses what is in memory: disk and inodes are read back.
  ghost function After(sb: Super, g: L.Geometry, s: State, e: Episode): (s': State)
    requires Good(sb, g, s) && Possible(sb, g, s, e)
  {
    EpisodeFits(sb, g, s, e);
    var p := L.RunEpoch(g, s.p, EpochOf(e));
    State(p, if e.end.Completes? then e.d else p, if Survives(e) then e.t else s.t, if Survives(e) then e.o else s.o)
  }

  // The files after an episode: the whole group, or nothing of it.
  lemma EpisodeIsAtomic(sb: Super, g: L.Geometry, s: State, e: Episode)
    requires Good(sb, g, s) && Possible(sb, g, s, e)
    ensures var s' := After(sb, g, s, e);
            && Good(sb, g, s') && Plain(s'.t) == Plain(s.t)
            && FilesOf(sb, s'.d, s'.t) ==
               if Survives(e) then WriteAll(Plain(s.t), FilesOf(sb, s.d, s.t), e.qs) else FilesOf(sb, s.d, s.t)
  {
    hide *;
    EpisodeFits(sb, g, s, e);
    GoodMeans(sb, g, s);
    PossibleMeans(sb, g, s, e);
    AfterIs(sb, g, s, e);
    var p := L.RunEpoch(g, s.p, EpochOf(e));
    L.EpochIsAtomic(g, s.p, EpochOf(e));
    TxnNames(e.d, e.lh);
    InstallsView(g, s.p, s.d, e.d, e.lh, e.l);
    if Survives(e) {
      SameHomeThen(g, e.d, L.Effect(s.p, TxnOf(e.d, e.lh)), p);
      GoodAgain(sb, g, e.d, e.t, e.o, p);
    } else {
      SameHomeThen(g, p, s.p, s.d);
      GoodAgain(sb, g, s.d, s.t, s.o, p);
    }
  }

  lemma GoodMeans(sb: Super, g: L.Geometry, s: State)
    requires Good(sb, g, s)
    ensures Placed(sb, g) && L.Idle(g, s.p) && L.SameHome(g, s.p, s.d) && Inv(sb, s.d, s.t, s.o) && Readable(sb, s.d, s.t)
    ensures |s.p| == |s.d|
  {
  }

  lemma PossibleMeans(sb: Super, g: L.Geometry, s: State, e: Episode)
    requires Possible(sb, g, s, e) && Readable(sb, s.d, s.t)
    ensures Orders(e.lh, e.l) && |s.d| == |e.d| && (forall c: nat :: c < |e.d| && c !in e.l ==> e.d[c] == s.d[c])
    ensures Inv(sb, e.d, e.t, e.o) && Readable(sb, e.d, e.t) && Plain(e.t) == Plain(s.t)
    ensures FilesOf(sb, e.d, e.t) == WriteAll(Plain(s.t), FilesOf(sb, s.d, s.t), e.qs)
  {
    hide Inv, Readable, FilesOf, WriteAll, Plain, InHome, Orders;
  }

  lemma AfterIs(sb: Super, g: L.Geometry, s: State, e: Episode)
    requires Good(sb, g, s) && Possible(sb, g, s, e)
    ensures (forall k :: 0 <= k < |e.lh| ==> e.lh[k] < |e.d|) && L.Idle(g, s.p) && L.ValidTxn(g, |s.p|, EpochOf(e).t)
    ensures var s', p := After(sb, g, s, e), L.RunEpoch(g, s.p, EpochOf(e));
            && s'.p == p && (s'.d == p || (s'.d == e.d && Survives(e)))
            && s'.t == (if Survives(e) then e.t else s.t) && s'.o == (if Survives(e) then e.o else s.o)
  {
    EpisodeFits(sb, g, s, e);
    hide Good, Possible, L.RunEpoch, EpochOf, L.Idle, L.ValidTxn;
  }

  // The files of a sound disk, read from p or from the cache.
  lemma GoodAgain(sb: Super, g: L.Geometry, d: Disk, t: Table, o: Owner, p: Disk)
    requires Placed(sb, g) && L.Idle(g, p) && L.SameHome(g, d, p) && L.SameHome(g, p, d) && Inv(sb, d, t, o) && Readable(sb, d, t)
    ensures Good(sb, g, State(p, d, t, o)) && Good(sb, g, State(p, p, t, o))
    ensures FilesOf(sb, p, t) == FilesOf(sb, d, t)
  {
    hide *;
    HomeKeeps(sb, g, d, p, t, o);
    ReadableIf(sb, p, t, o);
    SameFiles(sb, d, p, t);
    SameHomeThen(g, p, d, p);
    GoodIf(sb, g, State(p, d, t, o));
    GoodIf(sb, g, State(p, p, t, o));
  }

  lemma SameFiles(sb: Super, d: Disk, e: Disk, t: Table)
    requires Readable(sb, d, t) && Readable(sb, e, t) && forall j :: j in t ==> Content(e, t[j]) == Content(d, t[j])
    ensures FilesOf(sb, e, t) == FilesOf(sb, d, t)
  {
    hide Content, Backed, Shapes;
  }

  lemma GoodIf(sb: Super, g: L.Geometry, s: State)
    requires Placed(sb, g) && L.Idle(g, s.p) && L.SameHome(g, s.p, s.d) && Inv(sb, s.d, s.t, s.o) && Readable(sb, s.d, s.t)
    ensures Good(sb, g, s)
  {
  }

  ghost predicate History(sb: Super, g: L.Geometry, s: State, es: seq<Episode>)
    requires Good(sb, g, s)
    decreases |es|
  {
    es == [] ||
    (Possible(sb, g, s, es[0]) && (EpisodeIsAtomic(sb, g, s, es[0]); History(sb, g, After(sb, g, s, es[0]), es[1..])))
  }

  ghost function Final(sb: Super, g: L.Geometry, s: State, es: seq<Episode>): (s': State)
    requires Good(sb, g, s) && History(sb, g, s, es)
    decreases |es|
  {
    if es == [] then s
    else
      EpisodeIsAtomic(sb, g, s, es[0]);
      Final(sb, g, After(sb, g, s, es[0]), es[1..])
  }

  // The calls of the surviving groups, in order.
  function Surviving(es: seq<Episode>): (qs: seq<Request>)
  {
    if es == [] then [] else (if Survives(es[0]) then es[0].qs else []) + Surviving(es[1..])
  }

  // Whatever groups were written, wherever their commits were cut off, and whatever
  // crashes recovery met: the disk is sound, and each file is what the surviving calls
  // make of it.
  lemma {:induction false} FilesAreSerial(sb: Super, g: L.Geometry, s: State, es: seq<Episode>)
    requires Good(sb, g, s) && History(sb, g, s, es)
    ensures var s' := Final(sb, g, s, es);
            && Good(sb, g, s') && Plain(s'.t) == Plain(s.t)
            && FilesOf(sb, s'.d, s'.t) == WriteAll(Plain(s.t), FilesOf(sb, s.d, s.t), Surviving(es))
    decreases |es|
  {
    hide Good, Possible, After, FilesOf, Plain, Written;
    if es != [] {
      var s1 := After(sb, g, s, es[0]);
      EpisodeIsAtomic(sb, g, s, es[0]);
      FilesAreSerial(sb, g, s1, es[1..]);
      GoodMeans(sb, g, s);
      if Survives(es[0]) {
        WriteAllConcat(Plain(s.t), FilesOf(sb, s.d, s.t), es[0].qs, Surviving(es[1..]));
      } else {
        assert Surviving(es) == Surviving(es[1..]);
      }
    }
  }
}
