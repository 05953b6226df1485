/**
 When xv6/bio.c's "bget: no buffers" is reachable: the log pins at most as many
 buffers as it has entries, so a buffer can be missing only if, beyond those, enough
 others are in use at once; and then it can.
 */
module BufferPins {
  import opened Basics
  import opened Blocks
  import opened Options
  import opened BufferCache
  import L = Log

  const NBUF := 3 * MAXOPBLOCKS

  // Buffers the log holds, and buffers that are only referenced.
  function Pinned(bufs: seq<Buf>): (n: nat)
  {
    if bufs == [] then 0 else Pinned(bufs[..|bufs| - 1]) + if bufs[|bufs| - 1].dirty then 1 else 0
  }

  predicate InUse(b: Buf) { !b.dirty && b.refcnt > 0 }

  function Held(bufs: seq<Buf>): (n: nat)
  {
    if bufs == [] then 0 else Held(bufs[..|bufs| - 1]) + if InUse(bufs[|bufs| - 1]) then 1 else 0
  }

  lemma {:induction false} BusyIs(bufs: seq<Buf>)
    ensures BusyCount(bufs) == Pinned(bufs) + Held(bufs)
  {
    if bufs != [] {
      BusyIs(bufs[..|bufs| - 1]);
    }
  }

  // Every pinned buffer is for a block of the log's list.
  predicate PinsOf(bufs: seq<Buf>, dev: nat, lh: seq<nat>)
  {
    dev != 0 && forall i :: 0 <= i < |bufs| && bufs[i].dirty ==> bufs[i].key.dev == dev && bufs[i].key.blockno in lh
  }

  function PinnedBlocks(bufs: seq<Buf>): (s: set<nat>)
    ensures forall b :: b in s <==> exists i :: 0 <= i < |bufs| && bufs[i].dirty && bufs[i].key.blockno == b
  {
    if bufs == [] then {}
    else
      var last := bufs[|bufs| - 1];
      assert forall i :: 0 <= i < |bufs| - 1 ==> bufs[..|bufs| - 1][i] == bufs[i];
      PinnedBlocks(bufs[..|bufs| - 1]) + if last.dirty then {last.key.blockno} else {}
  }

  lemma {:induction false} PinnedSize(bufs: seq<Buf>, dev: nat, lh: seq<nat>)
    requires Unique(bufs) && PinsOf(bufs, dev, lh)
    ensures |PinnedBlocks(bufs)| == Pinned(bufs)
  {
    if bufs != [] {
      PinnedSize(bufs[..|bufs| - 1], dev, lh);
    }
  }

  // There are no more pinned buffers than entries in the log.
  lemma PinsFewer(bufs: seq<Buf>, dev: nat, lh: seq<nat>)
    requires Unique(bufs) && PinsOf(bufs, dev, lh) && Distinct(lh)
    ensures Pinned(bufs) <= |lh|
  {
    PinnedSize(bufs, dev, lh);
    ListSize(lh);
    hide Elements, PinnedBlocks, Pinned;
    assert PinnedBlocks(bufs) <= Elements(lh);
    Inside(PinnedBlocks(bufs), Elements(lh));
  }

  // bget panics exactly if the block is not cached and pinned and referenced buffers
  // make up the cache; with the log that mkfs makes, at least one buffer beyond the
  // pinned ones is then in use, and NBUF - n of them if the log has n entries.
  lemma NoBuffers(c: Cache, k: Key, dev: nat, lh: seq<nat>, size: nat)
    requires Inv(c) && |c.bufs| == NBUF && PinsOf(c.bufs, dev, lh) && Distinct(lh) && |lh| <= size - 1 && size <= L.LOGSIZE
    ensures GetStep(c, k).None? <==> !Holds(c.bufs, k) && Pinned(c.bufs) + Held(c.bufs) == NBUF
    ensures GetStep(c, k).None? ==> Held(c.bufs) >= NBUF - |lh| >= 1
  {
    BusyIs(c.bufs);
    EnoughBuffers(c.bufs);
    PinsFewer(c.bufs, dev, lh);
  }

  // --- reaching it -------------------------------------------------------------------------

  function Ones(b: Buf): (p: (nat, nat)) { (if b.dirty then 1 else 0, if InUse(b) then 1 else 0) }

  lemma {:induction false} CountConcat(a: seq<Buf>, b: seq<Buf>)
    ensures Pinned(a + b) == Pinned(a) + Pinned(b) && Held(a + b) == Held(a) + Held(b)
  {
    if b == [] {
      assert a + b == a;
    } else {
      var c := b[..|b| - 1];
      CountConcat(a, c);
      assert (a + b)[..|a + b| - 1] == a + c;
    }
  }

  lemma CountOne(b: Buf)
    ensures Pinned([b]) == Ones(b).0 && Held([b]) == Ones(b).1
  {
    assert [b][..0] == [];
  }

  // Changing one buffer, or moving it to the front.
  lemma CountUpdate(bufs: seq<Buf>, i: nat, b: Buf)
    requires i < |bufs|
    ensures Pinned(bufs[i := b]) == Pinned(bufs) - Ones(bufs[i]).0 + Ones(b).0
    ensures Held(bufs[i := b]) == Held(bufs) - Ones(bufs[i]).1 + Ones(b).1
  {
    hide Pinned, Held, Ones;
    var x, y := bufs[..i], bufs[i + 1..];
    assert bufs == (x + [bufs[i]]) + y && bufs[i := b] == (x + [b]) + y;
    CountConcat(x + [bufs[i]], y);
    CountConcat(x, [bufs[i]]);
    CountConcat(x + [b], y);
    CountConcat(x, [b]);
    CountOne(bufs[i]);
    CountOne(b);
  }

  lemma CountSwap(b: Buf, x: seq<Buf>, y: seq<Buf>)
    ensures Pinned([b] + x + y) == Pinned(x + [b] + y) && Held([b] + x + y) == Held(x + [b] + y)
  {
    hide *;
    CountConcat(x + [b], y);
    CountConcat(x, [b]);
    CountConcat([b] + x, y);
    CountConcat([b], x);
  }

  lemma CountFront(bufs: seq<Buf>, i: nat)
    requires i < |bufs|
    ensures Pinned(ToFront(bufs, i)) == Pinned(bufs) && Held(ToFront(bufs, i)) == Held(bufs)
  {
    hide *;
    FrontIs(bufs, i);
    CountSwap(bufs[i], bufs[..i], bufs[i + 1..]);
  }

  lemma FrontIs(bufs: seq<Buf>, i: nat)
    requires i < |bufs|
    ensures ToFront(bufs, i) == [bufs[i]] + bufs[..i] + bufs[i + 1..] && bufs == bufs[..i] + [bufs[i]] + bufs[i + 1..]
  {
  }

  // There is a buffer to take, and blocks other than those of ks are not cached.
  ghost predicate Ready(c: Cache, ks: set<Key>)
  {
    && Inv(c) && |c.bufs| == NBUF
    && forall k: Key :: k.dev != 0 && Holds(c.bufs, k) ==> k in ks
  }

  lemma TakeOne(c: Cache, k: Key, ks: set<Key>) returns (v: nat, c': Cache)
    requires Ready(c, ks) && k !in ks && k.dev != 0 && k in c.disk && Pinned(c.bufs) + Held(c.bufs) < NBUF
    ensures Allowed(c, Get(k)) && Do(c, Get(k)) == Some(c') && v < |c.bufs| && c' == Recycled(c, v, k)
    ensures Ready(c', ks + {k}) && Find(c'.bufs, k) == v
    ensures |c'.bufs| == |c.bufs| && c'.disk == c.disk
    ensures var b := c'.bufs[v]; b.key == k && b.refcnt == 1 && !b.locked && !b.valid && !b.dirty && BufOk(b, c.disk)
    ensures Pinned(c'.bufs) == Pinned(c.bufs) && Held(c'.bufs) == Held(c.bufs) + 1
  {
    BusyIs(c.bufs);
    EnoughBuffers(c.bufs);
    v := Victim(c.bufs).value;
    c' := Recycled(c, v, k);
    RecycleKeepsInv(c, v, k);
    CountUpdate(c.bufs, v, c'.bufs[v]);
    FindIs(c'.bufs, k, v);
    forall x: Key | x.dev != 0 && Holds(c'.bufs, x)
      ensures x in ks + {k}
    {
      var j := Find(c'.bufs, x);
      assert j != v ==> c.bufs[j].key == x;
    }
  }

  lemma HoldOne(c: Cache, k: Key, ks: set<Key>) returns (steps: seq<Step>)
    requires Ready(c, ks) && k !in ks && k.dev != 0 && k in c.disk && Pinned(c.bufs) + Held(c.bufs) < NBUF
    ensures AllowedRun(c, steps) && Run(c, steps).disk == c.disk && Ready(Run(c, steps), ks + {k})
    ensures Pinned(Run(c, steps).bufs) == Pinned(c.bufs) && Held(Run(c, steps).bufs) == Held(c.bufs) + 1
  {
    var v, c' := TakeOne(c, k, ks);
    steps := [Get(k)];
    hide Ready, Pinned, Held, Allowed, Do;
    assert steps[1..] == [];
  }

  // One more buffer pinned: a transaction reads a block, logs it and lets go of it.
  function PinSteps(k: Key): (steps: seq<Step>) { [Get(k), Lock(k), Fill(k), Pin(k), Release(k)] }

  // The cache with buffer v, for block k, changed to b.
  lemma TouchOne(c: Cache, k: Key, ks: set<Key>, v: nat, b: Buf)
    requires Ready(c, ks) && k.dev != 0 && v < |c.bufs| && c.bufs[v].key == k == b.key && b.released == c.bufs[v].released
    requires BufOk(b, c.disk)
    ensures var c' := c.(bufs := c.bufs[v := b]);
            && Ready(c', ks) && Find(c.bufs, k) == v && Find(c'.bufs, k) == v
            && Pinned(c'.bufs) == Pinned(c.bufs) - Ones(c.bufs[v]).0 + Ones(b).0
            && Held(c'.bufs) == Held(c.bufs) - Ones(c.bufs[v]).1 + Ones(b).1
  {
    UpdateKeepsInv(c, v, b, c.disk);
    CountUpdate(c.bufs, v, b);
    FindIs(c.bufs, k, v);
    FindIs(c.bufs[v := b], k, v);
    hide Inv, Ones, Pinned, Held;
    forall x: Key | x.dev != 0 && Holds(c.bufs[v := b], x)
      ensures x in ks
    {
      FindUpdate(c.bufs, v, b, x);
    }
  }

  lemma DropStep(c: Cache, k: Key, v: nat)
    requires Inv(c) && k.dev != 0 && v < |c.bufs| && c.bufs[v].key == k && c.bufs[v].refcnt == 1
    requires c.bufs[v].locked && c.bufs[v].valid && c.bufs[v].dirty
    ensures var b := Dropped(c.bufs[v]);
            && Allowed(c, Release(k)) && Do(c, Release(k)) == Some(ReleaseStep(c, v)) && BufOk(b, c.disk)
            && ReleaseStep(c, v) == Cache(ToFront(c.bufs[v := b][v := b.(released := c.clock)], v), c.disk, c.clock + 1)
  {
    FindIs(c.bufs, k, v);
    assert BufOk(c.bufs[v], c.disk);
    var b := Dropped(c.bufs[v]);
    assert c.bufs[v := b.(released := c.clock)] == c.bufs[v := b][v := b.(released := c.clock)];
    hide ToFront, Unique, Recency, Find;
  }

  // The newest stamp and the front place change neither counts nor what is cached.
  lemma FrontOne(d: Cache, ks: set<Key>, v: nat)
    requires Ready(d, ks) && v < |d.bufs| && d.bufs[v].key.dev != 0
    ensures var bufs := d.bufs[v := d.bufs[v].(released := d.clock)];
            var e := Cache(ToFront(bufs, v), d.disk, d.clock + 1);
            Ready(e, ks) && Pinned(e.bufs) == Pinned(d.bufs) && Held(e.bufs) == Held(d.bufs)
  {
    var b := d.bufs[v].(released := d.clock);
    var bufs := d.bufs[v := b];
    FrontKeepsInv(d, v);
    CountUpdate(d.bufs, v, b);
    CountFront(bufs, v);
    hide Pinned, Held, BufOk, Recency;
    forall x: Key | x.dev != 0 && Holds(ToFront(bufs, v), x)
      ensures x in ks
    {
      FindToFront(bufs, v, x);
      FindUpdate(d.bufs, v, b, x);
    }
  }

  lemma DropOne(c: Cache, k: Key, ks: set<Key>, v: nat)
    requires Ready(c, ks) && k.dev != 0 && v < |c.bufs| && c.bufs[v].key == k && c.bufs[v].refcnt == 1
    requires c.bufs[v].locked && c.bufs[v].valid && c.bufs[v].dirty
    ensures Allowed(c, Release(k)) && Do(c, Release(k)) == Some(ReleaseStep(c, v)) && ReleaseStep(c, v).disk == c.disk
    ensures Ready(ReleaseStep(c, v), ks)
    ensures Pinned(ReleaseStep(c, v).bufs) == Pinned(c.bufs) && Held(ReleaseStep(c, v).bufs) == Held(c.bufs)
  {
    hide *;
    ReadyInv(c, ks);
    DropStep(c, k, v);
    var b := Dropped(c.bufs[v]);
    DroppedIs(c.bufs[v]);
    TouchOne(c, k, ks, v, b);
    FrontOne(c.(bufs := c.bufs[v := b]), ks, v);
  }

  lemma ReadyInv(c: Cache, ks: set<Key>)
    requires Ready(c, ks)
    ensures Inv(c)
  {
  }

  lemma DroppedIs(b: Buf)
    requires b.refcnt == 1 && b.dirty
    ensures Dropped(b).key == b.key && Dropped(b).released == b.released && Ones(Dropped(b)) == Ones(b)
  {
  }

  lemma MidSteps(c: Cache, k: Key, v: nat)
    requires k.dev != 0 && k in c.disk && v < |c.bufs| && Find(c.bufs, k) == v && c.bufs[v].refcnt > 0
    ensures var b := c.bufs[v];
            && (!b.locked ==> Allowed(c, Lock(k)) && Do(c, Lock(k)) == Some(c.(bufs := c.bufs[v := b.(locked := true)])))
            && (b.locked && !b.valid ==>
                  && Allowed(c, Fill(k))
                  && Do(c, Fill(k)) == Some(c.(bufs := c.bufs[v := b.(valid := true, data := c.disk[k])])))
            && (b.locked && b.valid ==>
                  Allowed(c, Pin(k)) && Do(c, Pin(k)) == Some(c.(bufs := c.bufs[v := b.(dirty := true)])))
  {
  }

  // The three buffers in between.
  lemma MidBufs(b: Buf, k: Key, disk: map<Key, Block>, b2: Buf, b3: Buf, b4: Buf)
    requires b.key == k && k in disk && b.refcnt == 1 && !b.locked && !b.valid && !b.dirty && BufOk(b, disk)
    requires b2 == b.(locked := true) && b3 == b2.(valid := true, data := disk[k]) && b4 == b3.(dirty := true)
    ensures BufOk(b2, disk) && BufOk(b3, disk) && BufOk(b4, disk)
    ensures Ones(b) == Ones(b2) == Ones(b3) == (0, 1) && Ones(b4) == (1, 0)
  {
  }

  lemma PinOne(c: Cache, k: Key, ks: set<Key>)
    requires Ready(c, ks) && k !in ks && k.dev != 0 && k in c.disk && Pinned(c.bufs) + Held(c.bufs) < NBUF
    ensures AllowedRun(c, PinSteps(k)) && Run(c, PinSteps(k)).disk == c.disk && Ready(Run(c, PinSteps(k)), ks + {k})
    ensures Pinned(Run(c, PinSteps(k)).bufs) == Pinned(c.bufs) + 1 && Held(Run(c, PinSteps(k)).bufs) == Held(c.bufs)
  {
    hide *;
    var v, c1 := TakeOne(c, k, ks);
    var b1 := c1.bufs[v];
    var b2 := b1.(locked := true);
    var b3 := b2.(valid := true, data := c.disk[k]);
    var b4 := b3.(dirty := true);
    MidBufs(b1, k, c.disk, b2, b3, b4);
    MidSteps(c1, k, v);
    TouchOne(c1, k, ks + {k}, v, b2);
    var c2 := c1.(bufs := c1.bufs[v := b2]);
    MidSteps(c2, k, v);
    TouchOne(c2, k, ks + {k}, v, b3);
    var c3 := c2.(bufs := c2.bufs[v := b3]);
    MidSteps(c3, k, v);
    TouchOne(c3, k, ks + {k}, v, b4);
    var c4 := c3.(bufs := c3.bufs[v := b4]);
    DropOne(c4, k, ks + {k}, v);
    FiveSteps(c, k, c1, c2, c3, c4, ReleaseStep(c4, v));
  }

  lemma FiveSteps(c: Cache, k: Key, c1: Cache, c2: Cache, c3: Cache, c4: Cache, c5: Cache)
    requires Allowed(c, Get(k)) && Do(c, Get(k)) == Some(c1) && Allowed(c1, Lock(k)) && Do(c1, Lock(k)) == Some(c2)
    requires Allowed(c2, Fill(k)) && Do(c2, Fill(k)) == Some(c3) && Allowed(c3, Pin(k)) && Do(c3, Pin(k)) == Some(c4)
    requires Allowed(c4, Release(k)) && Do(c4, Release(k)) == Some(c5)
    ensures AllowedRun(c, PinSteps(k)) && Run(c, PinSteps(k)) == c5
  {
    hide Allowed, Do;
    var s := PinSteps(k);
    assert s[1..] == [Lock(k), Fill(k), Pin(k), Release(k)] && s[1..][1..] == [Fill(k), Pin(k), Release(k)];
    assert s[1..][1..][1..] == [Pin(k), Release(k)] && s[1..][1..][1..][1..] == [Release(k)];
    assert AllowedRun(c4, [Release(k)]) && Run(c4, [Release(k)]) == c5;
    assert AllowedRun(c3, [Pin(k), Release(k)]) && Run(c3, [Pin(k), Release(k)]) == c5;
    assert AllowedRun(c2, [Fill(k), Pin(k), Release(k)]) && Run(c2, [Fill(k), Pin(k), Release(k)]) == c5;
    assert AllowedRun(c1, s[1..]) && Run(c1, s[1..]) == c5;
  }

  lemma {:induction false} RunThen(c: Cache, a: seq<Step>, b: seq<Step>)
    requires AllowedRun(c, a) && AllowedRun(Run(c, a), b)
    ensures AllowedRun(c, a + b) && Run(c, a + b) == Run(Run(c, a), b)
    decreases |a|
  {
    if a == [] {
      assert a + b == b;
    } else {
      hide Allowed, Do;
      RunThen(Do(c, a[0]).value, a[1..], b);
      assert (a + b)[1..] == a[1..] + b;
    }
  }

  function KeySet(ks: seq<Key>): (s: set<Key>) { set k | k in ks }

  // n of the blocks, the first m of them pinned and the others held.
  lemma {:induction false} FillUp(disk: map<Key, Block>, ks: seq<Key>, m: nat, n: nat) returns (steps: seq<Step>)
    requires Distinct(ks) && n <= |ks| && n <= NBUF && forall i :: 0 <= i < |ks| ==> ks[i].dev != 0 && ks[i] in disk
    ensures AllowedRun(Init(NBUF, disk), steps)
    ensures var c := Run(Init(NBUF, disk), steps);
            && c.disk == disk && Ready(c, KeySet(ks[..n]))
            && Pinned(c.bufs) == Min(m, n) && Held(c.bufs) == n - Min(m, n)
    decreases n
  {
    if n == 0 {
      steps := [];
      InitInv(NBUF, disk);
      NoneUsed(Init(NBUF, disk).bufs);
    } else {
      var before := FillUp(disk, ks, m, n - 1);
      var c, k := Run(Init(NBUF, disk), before), ks[n - 1];
      var seen := KeySet(ks[..n - 1]);
      assert ks[..n] == ks[..n - 1] + [k];
      assert KeySet(ks[..n]) == seen + {k};
      hide Ready, Pinned, Held, Init, AllowedRun, Run;
      var more: seq<Step>;
      if n - 1 < m {
        more := PinSteps(k);
        PinOne(c, k, seen);
      } else {
        more := HoldOne(c, k, seen);
      }
      steps := before + more;
      RunThen(Init(NBUF, disk), before, more);
    }
  }

  lemma {:induction false} NoneUsed(bufs: seq<Buf>)
    requires forall i :: 0 <= i < |bufs| ==> Unused(bufs[i])
    ensures Pinned(bufs) == 0 && Held(bufs) == 0
  {
    if bufs != [] {
      NoneUsed(bufs[..|bufs| - 1]);
    }
  }

  // The panic is reached for any number m of pinned buffers, with NBUF - m others in use.
  lemma NoBuffersReached(disk: map<Key, Block>, ks: seq<Key>, m: nat) returns (steps: seq<Step>)
    requires Distinct(ks) && |ks| == NBUF + 1 && m <= NBUF && forall i :: 0 <= i < |ks| ==> ks[i].dev != 0 && ks[i] in disk
    ensures AllowedRun(Init(NBUF, disk), steps)
    ensures var c := Run(Init(NBUF, disk), steps);
            && Pinned(c.bufs) == m && Held(c.bufs) == NBUF - m
            && Allowed(c, Get(ks[NBUF])) && Do(c, Get(ks[NBUF])).None?
  {
    steps := FillUp(disk, ks, m, NBUF);
    var c := Run(Init(NBUF, disk), steps);
    hide Run, AllowedRun, Init;
    BusyIs(c.bufs);
    EnoughBuffers(c.bufs);
    assert ks[NBUF] !in ks[..NBUF];
  }
}
