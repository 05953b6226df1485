/**
 Who uses the buffers of the cache.  Processes get buffers, lock them, read, change, log
 or write them, and release them; what a process may do next depends on what it did, not
 on the cache's own bookkeeping.  In every run of such calls the bookkeeping is right: a
 buffer's refcnt is the number of gets of its block not yet released, its B_DIRTY says
 whether the log has the block; so a block somebody has, or the log has, is in its buffer
 and is not recycled, no call finds its buffer gone, and the buffer recycled is the one
 whose last user let go of it longest ago.
 */
module BufferHolders {
  import opened Blocks
  import opened BufferCache
  import opened Options

  // A step of the process who.
  datatype Call = Call(who: nat, s: Step)

  // What has been done with a block: the processes that got its buffer and have not
  // released it, as often as they did; who has its lock; whether that process has read
  // it, and changed it since it locked or wrote it; whether the log has it; and when its
  // last user let go of it, counting such times over all blocks (0 for never).
  datatype Use = Use(got: multiset<nat>, lock: Option<nat>, read: bool, changed: bool, logged: bool, last: nat)

  datatype Users = Users(uses: map<Key, Use>, drops: nat)

  const NOBODY := Users(map[], 0)

  function UseOf(u: Users, k: Key): (x: Use)
  {
    if k in u.uses then u.uses[k] else Use(multiset{}, None, false, false, false, 0)
  }

  // A process locks a buffer it has got, once the lock is free; with the lock it reads the
  // buffer first, and releases it with its changes logged or written.
  predicate MayUse(x: Use, a: Call)
  {
    match a.s
    case Get(_) => true
    case Lock(_) => a.who in x.got && x.lock.None?
    case Fill(_) => x.lock == Some(a.who) && !x.read
    case Release(_) => x.lock == Some(a.who) && x.read && (x.logged || !x.changed)
    case _ => x.lock == Some(a.who) && x.read
  }

  predicate MayCall(c: Cache, u: Users, a: Call)
  {
    a.s.k.dev != 0 && a.s.k in c.disk && MayUse(UseOf(u, a.s.k), a)
  }

  // valid says whether the buffer had been read already when its lock was taken.
  function NextUse(x: Use, a: Call, valid: bool, drops: nat): (y: Use)
  {
    match a.s
    case Get(_) => x.(got := x.got + multiset{a.who})
    case Lock(_) => x.(lock := Some(a.who), read := valid, changed := false)
    case Fill(_) => x.(read := true)
    case Modify(_, _) => x.(changed := true)
    case Pin(_) => x.(logged := true)
    case WriteBack(_) => x.(logged := false, changed := false)
    case Release(_) =>
      x.(got := x.got - multiset{a.who}, lock := None, read := false, last := if |x.got| == 1 then drops + 1 else x.last)
  }

  predicate LetsGo(x: Use, a: Call) { a.s.Release? && |x.got| == 1 }

  function After(u: Users, a: Call, valid: bool): (u': Users)
  {
    var x := UseOf(u, a.s.k);
    Users(u.uses[a.s.k := NextUse(x, a, valid, u.drops)], if LetsGo(x, a) then u.drops + 1 else u.drops)
  }

  // The cache can do the step.
  predicate Served(c: Cache, s: Step) { Allowed(c, s) && Do(c, s).Some? }

  // Each call is one its process may make; the run may end with one that is not served.
  predicate MayRun(c: Cache, u: Users, calls: seq<Call>)
    decreases |calls|
  {
    calls == [] ||
    (&& MayCall(c, u, calls[0])
     && (Served(c, calls[0].s) ==>
           MayRun(Do(c, calls[0].s).value, After(u, calls[0], ValidAt(c, calls[0].s.k)), calls[1..])))
  }

  function Steps(calls: seq<Call>): (ss: seq<Step>)
    ensures |ss| == |calls|
  {
    seq(|calls|, i requires 0 <= i < |calls| => calls[i].s)
  }

  // --- the bookkeeping ------------------------------------------------------------------

  function BufOf(c: Cache, k: Key): (b: Option<Buf>)
  {
    if Holds(c.bufs, k) then Some(c.bufs[Find(c.bufs, k)]) else None
  }

  predicate ValidAt(c: Cache, k: Key) { BufOf(c, k).Some? && BufOf(c, k).value.valid }

  function RefcntOf(c: Cache, k: Key): (n: nat) { if BufOf(c, k).Some? then BufOf(c, k).value.refcnt else 0 }

  function Stored(c: Cache, k: Key): (d: Block) { if k in c.disk then c.disk[k] else ZeroBlock() }

  // A block's buffer, if it has one, shows how the block is used.
  predicate Shows(b: Option<Buf>, stored: Block, x: Use)
  {
    && |x.got| == (if b.Some? then b.value.refcnt else 0)
    && (x.lock.Some? <==> b.Some? && b.value.locked)
    && (x.lock.Some? ==> x.lock.value in x.got && (x.read <==> b.value.valid))
    && (x.logged <==> b.Some? && b.value.dirty)
    && (x.lock.Some? && x.read && !x.logged && !x.changed ==> b.value.data == stored)
    && (b.Some? && |x.got| == 0 ==> x.last > 0 && b.value.released == x.last)
  }

  predicate TiedAt(c: Cache, u: Users, k: Key) { Shows(BufOf(c, k), Stored(c, k), UseOf(u, k)) }

  ghost predicate Tied(c: Cache, u: Users)
  {
    && Inv(c) && c.clock == u.drops + 1
    && (forall k: Key :: k.dev != 0 ==> TiedAt(c, u, k))
    && (forall i :: 0 <= i < |c.bufs| && c.bufs[i].key.dev == 0 ==> c.bufs[i].released <= 0)
  }

  // --- what a step does to a block's buffer -----------------------------------------------

  lemma InPlaceBuf(c: Cache, i: nat, b: Buf, c': Cache, k: Key)
    requires Inv(c) && i < |c.bufs| && b.key == c.bufs[i].key && b.key.dev != 0 && c'.bufs == c.bufs[i := b]
    ensures BufOf(c', k) == if k == b.key then Some(b) else BufOf(c, k)
  {
    FindUpdate(c.bufs, i, b, k);
    FindIs(c.bufs, b.key, i);
  }

  lemma RecycledBuf(c: Cache, v: nat, k: Key, k': Key)
    requires Inv(c) && v < |c.bufs| && !Holds(c.bufs, k) && k.dev != 0 && k in c.disk && Unused(c.bufs[v]) && k'.dev != 0
    ensures BufOf(Recycled(c, v, k), k') ==
            if k' == k then Some(Recycled(c, v, k).bufs[v])
            else if k' == c.bufs[v].key then None
            else BufOf(c, k')
  {
    var c' := Recycled(c, v, k);
    RecycleKeepsInv(c, v, k);
    var i := Find(c.bufs, k');
    if k' == k {
      FindIs(c'.bufs, k, v);
    } else if i < |c.bufs| && i != v {
      FindIs(c'.bufs, k', i);
    } else {
      assert forall j :: 0 <= j < |c.bufs| && j != v ==> c.bufs[j].key != k';
    }
  }

  lemma ReleasedBuf(c: Cache, i: nat, k: Key)
    requires Inv(c) && Releasable(c, i) && k.dev != 0
    ensures BufOf(ReleaseStep(c, i), k) == if k != c.bufs[i].key then BufOf(c, k) else Some(LetGo(c, c.bufs[i]))
  {
    var b := Dropped(c.bufs[i]);
    if b.refcnt == 0 {
      var b1 := b.(released := c.clock);
      InPlaceBuf(c, i, b1, c.(bufs := c.bufs[i := b1]), k);
      FindToFront(c.bufs[i := b1], i, k);
    } else {
      InPlaceBuf(c, i, b, ReleaseStep(c, i), k);
    }
  }

  // What a release leaves of buffer b.
  function LetGo(c: Cache, b: Buf): (r: Buf)
    requires b.refcnt > 0
  {
    b.(locked := false, refcnt := b.refcnt - 1, released := if b.refcnt == 1 then c.clock else b.released)
  }

  // Buffers never used keep their stamps.
  lemma ReleasedOld(c: Cache, i: nat)
    requires Releasable(c, i) && forall j :: 0 <= j < |c.bufs| && c.bufs[j].key.dev == 0 ==> c.bufs[j].released <= 0
    ensures var c' := ReleaseStep(c, i);
            && c'.disk == c.disk && c'.clock == c.clock + (if c.bufs[i].refcnt == 1 then 1 else 0)
            && forall j :: 0 <= j < |c'.bufs| && c'.bufs[j].key.dev == 0 ==> c'.bufs[j].released <= 0
  {
    var b := Dropped(c.bufs[i]);
    var bufs := c.bufs[i := b.(released := c.clock)];
    forall j | 0 <= j < |c.bufs|
      ensures ToFront(bufs, i)[j] == bufs[CameFrom(i, j)]
    {
      ToFrontAt(bufs, i, j);
    }
  }

  // --- one call ----------------------------------------------------------------------------

  lemma StepKeepsInv(c: Cache, s: Step)
    requires Inv(c) && Served(c, s)
    ensures Inv(Do(c, s).value)
  {
    var m := map k | k in c.disk :: View(c, k);
    StepRefines(c, s, m);
  }

  // The process's buffer is there, with a reference for it, and locked if it has the lock.
  lemma CallIsServed(c: Cache, u: Users, a: Call)
    requires Tied(c, u) && MayCall(c, u, a)
    ensures Served(c, a.s) || (a.s.Get? && GetStep(c, a.s.k).None?)
  {
    var x := UseOf(u, a.s.k);
    assert TiedAt(c, u, a.s.k);
    assert !a.s.Get? ==> a.who in x.got;
    hide Find;
  }

  // The buffer after a step that changes it in place.
  function Changed(c: Cache, s: Step, b: Buf): (r: Buf)
  {
    match s
    case Get(_) => b.(refcnt := b.refcnt + 1)
    case Lock(_) => b.(locked := true)
    case Fill(_) => b.(valid := true, data := Stored(c, s.k))
    case Modify(_, d) => b.(data := d)
    case Pin(_) => b.(dirty := true)
    case WriteBack(_) => b.(dirty := false, valid := true)
    case Release(_) => b
  }

  lemma ChangedIs(c: Cache, s: Step)
    requires Served(c, s) && !s.Release? && Holds(c.bufs, s.k)
    ensures var c', i := Do(c, s).value, Find(c.bufs, s.k);
            && c'.bufs == c.bufs[i := Changed(c, s, c.bufs[i])] && c'.clock == c.clock
            && c'.disk == if s.WriteBack? then c.disk[s.k := c.bufs[i].data] else c.disk
  {
    hide Find;
  }

  // How the block is used and what its buffer shows change alike.
  lemma ChangedShows(c: Cache, b: Buf, x: Use, a: Call, drops: nat)
    requires Shows(Some(b), Stored(c, a.s.k), x) && BufOk(b, c.disk) && b.key == a.s.k && b.key.dev != 0 && b.key in c.disk
    requires MayUse(x, a) && !a.s.Release?
    ensures Shows(Some(Changed(c, a.s, b)), if a.s.WriteBack? then b.data else Stored(c, a.s.k), NextUse(x, a, b.valid, drops))
  {
  }

  lemma InPlaceTied(c: Cache, u: Users, a: Call)
    requires Tied(c, u) && MayCall(c, u, a) && Served(c, a.s) && !a.s.Release? && Holds(c.bufs, a.s.k)
    ensures Tied(Do(c, a.s).value, After(u, a, ValidAt(c, a.s.k)))
  {
    hide Inv, TiedAt, ValidAt, Do, Allowed, Changed, NextUse;
    StepKeepsInv(c, a.s);
    ChangedIs(c, a.s);
    ChangedFrame(c, a.s);
    forall x: Key | x.dev != 0
      ensures TiedAt(Do(c, a.s).value, After(u, a, ValidAt(c, a.s.k)), x)
    {
      InPlaceTiedAt(c, u, a, x);
    }
  }

  lemma ChangedFrame(c: Cache, s: Step)
    requires Holds(c.bufs, s.k)
    ensures var b := c.bufs[Find(c.bufs, s.k)]; Changed(c, s, b).key == b.key == s.k && Changed(c, s, b).released == b.released
  {
  }

  lemma InPlaceTiedAt(c: Cache, u: Users, a: Call, x: Key)
    requires Inv(c) && TiedAt(c, u, x) && TiedAt(c, u, a.s.k) && MayCall(c, u, a) && Served(c, a.s) && x.dev != 0
    requires !a.s.Release? && Holds(c.bufs, a.s.k)
    ensures TiedAt(Do(c, a.s).value, After(u, a, ValidAt(c, a.s.k)), x)
  {
    var i := Find(c.bufs, a.s.k);
    assert BufOk(c.bufs[i], c.disk);
    ChangedIs(c, a.s);
    ChangedFrame(c, a.s);
    ChangedShows(c, c.bufs[i], UseOf(u, a.s.k), a, u.drops);
    hide Inv, Do, Allowed, Shows, NextUse, Find, Changed;
    InPlaceBuf(c, i, Changed(c, a.s, c.bufs[i]), Do(c, a.s).value, x);
  }

  // A block without a buffer is not used, and shows as used once when it gets one.
  lemma RecycleShows(c: Cache, x: Use, a: Call, b: Buf, drops: nat)
    requires a.s.Get? && Shows(None, Stored(c, a.s.k), x) && b.refcnt == 1 && !b.locked && !b.dirty
    ensures Shows(Some(b), Stored(c, a.s.k), NextUse(x, a, false, drops))
  {
  }

  // A buffer that is not used shows a block that can do without it.
  lemma UnusedShows(b: Buf, stored: Block, x: Use)
    requires Shows(Some(b), stored, x) && Unused(b) && !b.locked
    ensures Shows(None, stored, x)
  {
  }

  lemma RecycleTied(c: Cache, u: Users, a: Call)
    requires Tied(c, u) && MayCall(c, u, a) && a.s.Get? && !Holds(c.bufs, a.s.k) && Victim(c.bufs).Some?
    ensures Tied(Recycled(c, Victim(c.bufs).value, a.s.k), After(u, a, ValidAt(c, a.s.k)))
  {
    hide Inv, TiedAt, Holds, ValidAt, Victim;
    var k, v := a.s.k, Victim(c.bufs).value;
    RecycleKeepsInv(c, v, k);
    forall x: Key | x.dev != 0
      ensures TiedAt(Recycled(c, v, k), After(u, a, ValidAt(c, k)), x)
    {
      RecycleTiedAt(c, u, a, v, x);
    }
  }

  lemma RecycleTiedAt(c: Cache, u: Users, a: Call, v: nat, x: Key)
    requires Inv(c) && TiedAt(c, u, x) && TiedAt(c, u, a.s.k) && a.s.Get? && !Holds(c.bufs, a.s.k) && x.dev != 0
    requires a.s.k.dev != 0 && a.s.k in c.disk && v < |c.bufs| && Unused(c.bufs[v])
    ensures TiedAt(Recycled(c, v, a.s.k), After(u, a, ValidAt(c, a.s.k)), x)
  {
    assert BufOk(c.bufs[v], c.disk);
    RecycledBuf(c, v, a.s.k, x);
    RecycleShows(c, UseOf(u, a.s.k), a, Recycled(c, v, a.s.k).bufs[v], u.drops);
    if x == c.bufs[v].key {
      HeldAt(c, x, v);
      UnusedShows(c.bufs[v], Stored(c, x), UseOf(u, x));
    }
    hide Inv, Shows, NextUse, Find;
  }

  lemma HeldAt(c: Cache, k: Key, i: nat)
    requires Inv(c) && i < |c.bufs| && c.bufs[i].key == k && k.dev != 0
    ensures BufOf(c, k) == Some(c.bufs[i])
  {
    FindIs(c.bufs, k, i);
  }

  lemma ReleaseShows(c: Cache, b: Buf, x: Use, a: Call, drops: nat)
    requires a.s.Release? && MayUse(x, a) && Shows(Some(b), Stored(c, a.s.k), x) && c.clock == drops + 1 && b.refcnt > 0
    ensures Shows(Some(LetGo(c, b)), Stored(c, a.s.k), NextUse(x, a, b.valid, drops)) && (LetsGo(x, a) <==> b.refcnt == 1)
  {
    assert |x.got - multiset{a.who}| == |x.got| - 1;
  }

  lemma ReleaseTied(c: Cache, u: Users, a: Call)
    requires Tied(c, u) && MayCall(c, u, a) && a.s.Release? && Served(c, a.s)
    ensures Tied(Do(c, a.s).value, After(u, a, ValidAt(c, a.s.k)))
  {
    var k, i := a.s.k, Find(c.bufs, a.s.k);
    var c', u', b := Do(c, a.s).value, After(u, a, ValidAt(c, k)), c.bufs[i];
    StepKeepsInv(c, a.s);
    assert TiedAt(c, u, k);
    ReleaseShows(c, b, UseOf(u, k), a, u.drops);
    ReleasedOld(c, i);
    hide Inv, ReleaseStep, Find, Shows, NextUse;
    forall x: Key | x.dev != 0
      ensures TiedAt(c', u', x)
    {
      assert TiedAt(c, u, x);
      ReleasedBuf(c, i, x);
    }
  }

  // Every call keeps the bookkeeping right.
  lemma CallKeepsTied(c: Cache, u: Users, a: Call)
    requires Tied(c, u) && MayCall(c, u, a) && Served(c, a.s)
    ensures Tied(Do(c, a.s).value, After(u, a, ValidAt(c, a.s.k)))
  {
    hide Tied, MayCall, After, ValidAt;
    if a.s.Release? {
      ReleaseTied(c, u, a);
    } else if a.s.Get? && !Holds(c.bufs, a.s.k) {
      RecycleTied(c, u, a);
    } else {
      InPlaceTied(c, u, a);
    }
  }

  // --- runs ------------------------------------------------------------------------------------

  function UsersAfter(c: Cache, u: Users, calls: seq<Call>): (u': Users)
    requires AllowedRun(c, Steps(calls))
    decreases |calls|
  {
    if calls == [] then u
    else
      StepsCons(calls);
      UsersAfter(Do(c, calls[0].s).value, After(u, calls[0], ValidAt(c, calls[0].s.k)), calls[1..])
  }

  function Gets(ss: seq<Step>, k: Key): (n: nat)
  {
    if ss == [] then 0 else (if ss[0] == Get(k) then 1 else 0) + Gets(ss[1..], k)
  }

  function Releases(ss: seq<Step>, k: Key): (n: nat)
  {
    if ss == [] then 0 else (if ss[0] == Release(k) then 1 else 0) + Releases(ss[1..], k)
  }

  lemma StepsCons(calls: seq<Call>)
    requires calls != []
    ensures Steps(calls)[0] == calls[0].s && Steps(calls)[1..] == Steps(calls[1..])
  {
  }

  lemma InitTied(nbuf: nat, disk: map<Key, Block>)
    ensures Tied(Init(nbuf, disk), NOBODY)
  {
    InitInv(nbuf, disk);
  }

  // Calls are served, with the bookkeeping right, up to the end of the run or to a get
  // that finds no unused buffer.
  lemma {:induction false} CallsAreServed(c: Cache, u: Users, calls: seq<Call>) returns (n: nat)
    requires Tied(c, u) && MayRun(c, u, calls)
    ensures n <= |calls| && AllowedRun(c, Steps(calls[..n])) && MayRun(c, u, calls[..n])
    ensures n < |calls| ==> calls[n].s.Get? && GetStep(Run(c, Steps(calls[..n])), calls[n].s.k).None?
    decreases |calls|
  {
    hide *;
    n := 0;
    NoneServed(c, u, calls);
    if calls != [] {
      var a := calls[0];
      FirstCall(c, u, calls);
      CallIsServed(c, u, a);
      if Served(c, a.s) {
        CallKeepsTied(c, u, a);
        var m := CallsAreServed(Do(c, a.s).value, After(u, a, ValidAt(c, a.s.k)), calls[1..]);
        n := m + 1;
        ServedCons(c, u, calls, m);
      }
    }
  }

  lemma NoneServed(c: Cache, u: Users, calls: seq<Call>)
    ensures var ss := Steps(calls[..0]); AllowedRun(c, ss) && Run(c, ss) == c && MayRun(c, u, calls[..0])
  {
    assert Steps(calls[..0]) == [] && calls[..0] == [];
  }

  lemma FirstCall(c: Cache, u: Users, calls: seq<Call>)
    requires MayRun(c, u, calls) && calls != []
    ensures MayCall(c, u, calls[0])
    ensures Served(c, calls[0].s) ==>
      && Allowed(c, calls[0].s) && Do(c, calls[0].s).Some?
      && MayRun(Do(c, calls[0].s).value, After(u, calls[0], ValidAt(c, calls[0].s.k)), calls[1..])
  {
    hide MayCall, Allowed, Do, After, ValidAt;
  }

  lemma ServedCons(c: Cache, u: Users, calls: seq<Call>, m: nat)
    requires calls != [] && m < |calls| && Allowed(c, calls[0].s) && Do(c, calls[0].s).Some? && MayCall(c, u, calls[0])
    requires var c1 := Do(c, calls[0].s).value;
             && AllowedRun(c1, Steps(calls[1..][..m]))
             && MayRun(c1, After(u, calls[0], ValidAt(c, calls[0].s.k)), calls[1..][..m])
    ensures AllowedRun(c, Steps(calls[..m + 1])) && MayRun(c, u, calls[..m + 1])
    ensures Run(c, Steps(calls[..m + 1])) == Run(Do(c, calls[0].s).value, Steps(calls[1..][..m]))
  {
    hide Allowed, Do, After, MayCall, ValidAt;
    assert calls[..m + 1][1..] == calls[1..][..m];
    StepsCons(calls[..m + 1]);
  }

  lemma {:induction false} RunIsTied(c: Cache, u: Users, calls: seq<Call>)
    requires Tied(c, u) && MayRun(c, u, calls) && AllowedRun(c, Steps(calls))
    ensures Tied(Run(c, Steps(calls)), UsersAfter(c, u, calls))
    decreases |calls|
  {
    hide Tied, After, ValidAt, MayCall;
    if calls != [] {
      StepsCons(calls);
      CallKeepsTied(c, u, calls[0]);
      RunIsTied(Do(c, calls[0].s).value, After(u, calls[0], ValidAt(c, calls[0].s.k)), calls[1..]);
    }
  }

  // What is outstanding is what was got less what was released.
  lemma {:induction false} GotIsOutstanding(c: Cache, u: Users, calls: seq<Call>, k: Key)
    requires Tied(c, u) && MayRun(c, u, calls) && AllowedRun(c, Steps(calls))
    ensures |UseOf(UsersAfter(c, u, calls), k).got| ==
            |UseOf(u, k).got| + Gets(Steps(calls), k) - Releases(Steps(calls), k)
    decreases |calls|
  {
    if calls != [] {
      var a := calls[0];
      StepsCons(calls);
      CallKeepsTied(c, u, a);
      assert TiedAt(c, u, a.s.k);
      GotStep(u, a, ValidAt(c, a.s.k), k);
      hide Tied, TiedAt, Do, Allowed, After, UseOf, MayCall;
      GotIsOutstanding(Do(c, a.s).value, After(u, a, ValidAt(c, a.s.k)), calls[1..], k);
    }
  }

  lemma GotStep(u: Users, a: Call, valid: bool, k: Key)
    requires a.s.Release? ==> a.who in UseOf(u, a.s.k).got
    ensures |UseOf(After(u, a, valid), k).got| ==
            |UseOf(u, k).got| + (if a.s == Get(k) then 1 else 0) - (if a.s == Release(k) then 1 else 0)
  {
    if a.s.Release? {
      assert |UseOf(u, a.s.k).got - multiset{a.who}| == |UseOf(u, a.s.k).got| - 1;
    }
  }

  // Over every run from binit on: a block's refcnt is its gets less its releases, and a
  // block with a get outstanding is in its buffer and is not the one to be recycled.
  lemma RefcntCounts(nbuf: nat, disk: map<Key, Block>, calls: seq<Call>, k: Key)
    requires MayRun(Init(nbuf, disk), NOBODY, calls) && AllowedRun(Init(nbuf, disk), Steps(calls)) && k.dev != 0
    ensures var c, out := Run(Init(nbuf, disk), Steps(calls)), Gets(Steps(calls), k) - Releases(Steps(calls), k);
            && RefcntOf(c, k) == out
            && (out > 0 ==> Holds(c.bufs, k) && !VictimIs(c, k))
  {
    var c0 := Init(nbuf, disk);
    InitTied(nbuf, disk);
    GotIsOutstanding(c0, NOBODY, calls, k);
    RunIsTied(c0, NOBODY, calls);
    var c := Run(c0, Steps(calls));
    assert TiedAt(c, UsersAfter(c0, NOBODY, calls), k);
    hide Init, Run, AllowedRun, MayRun, UsersAfter, Tied;
    NoVictim(c, k);
  }

  predicate VictimIs(c: Cache, k: Key) { Victim(c.bufs).Some? && c.bufs[Victim(c.bufs).value].key == k }

  lemma NoVictim(c: Cache, k: Key)
    requires Unique(c.bufs) && k.dev != 0
    ensures VictimIs(c, k) ==> BufOf(c, k).Some? && BufOf(c, k).value.refcnt == 0 && !BufOf(c, k).value.dirty
  {
    if VictimIs(c, k) {
      FindIs(c.bufs, k, Victim(c.bufs).value);
    }
  }

  // A block is the log's from log_write to its write; B_DIRTY says so, and keeps it.
  lemma LoggedIsPinned(nbuf: nat, disk: map<Key, Block>, calls: seq<Call>, k: Key)
    requires MayRun(Init(nbuf, disk), NOBODY, calls) && AllowedRun(Init(nbuf, disk), Steps(calls)) && k.dev != 0
    ensures var c := Run(Init(nbuf, disk), Steps(calls));
            && (Logged(Steps(calls), k) <==> BufOf(c, k).Some? && BufOf(c, k).value.dirty)
            && (Logged(Steps(calls), k) ==> !VictimIs(c, k))
  {
    var c0 := Init(nbuf, disk);
    InitTied(nbuf, disk);
    LoggedIs(c0, NOBODY, calls, k);
    RunIsTied(c0, NOBODY, calls);
    var c := Run(c0, Steps(calls));
    assert TiedAt(c, UsersAfter(c0, NOBODY, calls), k);
    hide Init, Run, AllowedRun, MayRun, UsersAfter, Tied;
    NoVictim(c, k);
  }

  // The last log_write or write of k is a log_write.
  predicate Logged(ss: seq<Step>, k: Key)
  {
    ss != [] &&
    var s := ss[|ss| - 1];
    s == Pin(k) || (s != WriteBack(k) && Logged(ss[..|ss| - 1], k))
  }

  lemma {:induction false} LoggedCons(ss: seq<Step>, k: Key)
    requires ss != []
    ensures Logged(ss, k) <==> Logged(ss[1..], k) || (ss[0] == Pin(k) && WriteBack(k) !in ss[1..])
  {
    if |ss| > 1 {
      var front := ss[..|ss| - 1];
      assert ss[1..][..|ss| - 2] == front[1..];
      assert ss[1..] == front[1..] + [ss[|ss| - 1]];
      LoggedCons(front, k);
    } else {
      assert ss[..0] == [];
    }
  }

  lemma {:induction false} LoggedIs(c: Cache, u: Users, calls: seq<Call>, k: Key)
    requires AllowedRun(c, Steps(calls))
    ensures UseOf(UsersAfter(c, u, calls), k).logged <==>
            Logged(Steps(calls), k) || (UseOf(u, k).logged && WriteBack(k) !in Steps(calls))
    decreases |calls|
  {
    if calls != [] {
      var a, ss := calls[0], Steps(calls);
      StepsCons(calls);
      LoggedCons(ss, k);
      assert ss == [ss[0]] + ss[1..];
      var u1 := After(u, a, ValidAt(c, a.s.k));
      assert UseOf(u1, k).logged <==> a.s == Pin(k) || (a.s != WriteBack(k) && UseOf(u, k).logged);
      hide After, UseOf, Do, Allowed, ValidAt, Logged;
      LoggedIs(Do(c, a.s).value, u1, calls[1..], k);
    }
  }

  // No caller from binit on finds its buffer gone: a run can only stop at a get, for want
  // of an unused buffer.
  lemma OnlyGetsFail(nbuf: nat, disk: map<Key, Block>, calls: seq<Call>) returns (n: nat)
    requires MayRun(Init(nbuf, disk), NOBODY, calls)
    ensures n <= |calls| && AllowedRun(Init(nbuf, disk), Steps(calls[..n]))
    ensures n < |calls| ==> calls[n].s.Get? && GetStep(Run(Init(nbuf, disk), Steps(calls[..n])), calls[n].s.k).None?
  {
    hide *;
    InitTied(nbuf, disk);
    n := CallsAreServed(Init(nbuf, disk), NOBODY, calls);
  }

  // A process that has locked and read a block has in its buffer what was last stored into
  // the block, by whatever process.
  lemma HoldersSee(nbuf: nat, disk: map<Key, Block>, calls: seq<Call>, k: Key)
    requires MayRun(Init(nbuf, disk), NOBODY, calls) && AllowedRun(Init(nbuf, disk), Steps(calls)) && k in disk && k.dev != 0
    ensures var c, x := Run(Init(nbuf, disk), Steps(calls)), UseOf(UsersAfter(Init(nbuf, disk), NOBODY, calls), k);
            x.lock.Some? && x.read ==> BufOf(c, k).Some? && BufOf(c, k).value.data == LastStore(disk, Steps(calls), k)
  {
    var c0 := Init(nbuf, disk);
    InitTied(nbuf, disk);
    RunIsTied(c0, NOBODY, calls);
    CacheTransparent(nbuf, disk, Steps(calls), k);
    assert TiedAt(Run(c0, Steps(calls)), UsersAfter(c0, NOBODY, calls), k);
    hide Init, Run, AllowedRun, MayRun, UsersAfter, Tied;
  }

  // The buffer recycled is one never used, or the one whose last user let go of it longest
  // ago among all that nobody uses and the log does not have.
  lemma RecyclesLongestIdle(nbuf: nat, disk: map<Key, Block>, calls: seq<Call>, j: nat)
    requires MayRun(Init(nbuf, disk), NOBODY, calls) && AllowedRun(Init(nbuf, disk), Steps(calls))
    requires var c := Run(Init(nbuf, disk), Steps(calls)); j < |c.bufs| && Unused(c.bufs[j])
    ensures var c, u := Run(Init(nbuf, disk), Steps(calls)), UsersAfter(Init(nbuf, disk), NOBODY, calls);
            && Victim(c.bufs).Some?
            && var v := Victim(c.bufs).value;
               v == j || c.bufs[v].key.dev == 0 ||
               (c.bufs[j].key.dev != 0 && 0 < UseOf(u, c.bufs[v].key).last < UseOf(u, c.bufs[j].key).last)
  {
    var c0 := Init(nbuf, disk);
    InitTied(nbuf, disk);
    RunIsTied(c0, NOBODY, calls);
    var c, u := Run(c0, Steps(calls)), UsersAfter(c0, NOBODY, calls);
    var v := Victim(c.bufs).value;
    hide Init, Run, AllowedRun, MayRun, Victim, UsersAfter;
    StampIs(c, u, v);
    StampIs(c, u, j);
  }

  lemma StampIs(c: Cache, u: Users, i: nat)
    requires Tied(c, u) && i < |c.bufs| && Unused(c.bufs[i])
    ensures var k := c.bufs[i].key;
            if k.dev == 0 then c.bufs[i].released <= 0 else c.bufs[i].released == UseOf(u, k).last > 0
    ensures forall j :: i < j < |c.bufs| ==> c.bufs[j].released < c.bufs[i].released
  {
    var k := c.bufs[i].key;
    if k.dev != 0 {
      assert TiedAt(c, u, k);
      FindIs(c.bufs, k, i);
    }
  }
}
