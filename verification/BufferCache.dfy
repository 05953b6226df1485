/**
 The block cache of xv6/bio.c as a value: the buffers in list order, most
 recently released first, over a disk.  Its steps are the critical sections of
 bget, bread, bwrite and brelse and what a lock holder may do in between; they
 are taken by any number of processes in any order.

 Main results: a run of the cache cannot be told from a plain table of blocks,
 each block has at most one buffer, and the buffer recycled is the least
 recently released one that is neither in use nor pinned.
 */
module BufferCache {
  import opened Blocks
  import opened Options

  // Every buffer starts as device 0, block 0, so only other devices are served.
  datatype Key = Key(dev: nat, blockno: nat)

  // released is the time of the last brelse that dropped refcnt to zero.
  datatype Buf = Buf(key: Key, valid: bool, dirty: bool, refcnt: nat, locked: bool, data: Block, released: int)

  datatype Cache = Cache(bufs: seq<Buf>, disk: map<Key, Block>, clock: int)

  // --- searching the list -----------------------------------------------------

  // bget's first loop: the first buffer, from the front, holding the block.
  function Find(bufs: seq<Buf>, k: Key): (i: nat)
    ensures i <= |bufs|
    ensures i < |bufs| ==> bufs[i].key == k
    ensures forall j :: 0 <= j < i ==> bufs[j].key != k
  {
    if bufs == [] || bufs[0].key == k then 0 else 1 + Find(bufs[1..], k)
  }

  predicate Holds(bufs: seq<Buf>, k: Key) { Find(bufs, k) < |bufs| }

  predicate Unused(b: Buf) { b.refcnt == 0 && !b.dirty }

  // bget's second loop: the last unused buffer, scanning from the back.
  function Victim(bufs: seq<Buf>): (v: Option<nat>)
    ensures v.Some? ==> v.value < |bufs| && Unused(bufs[v.value])
    ensures v.Some? ==> forall j :: v.value < j < |bufs| ==> !Unused(bufs[j])
    ensures v.None? ==> forall j :: 0 <= j < |bufs| ==> !Unused(bufs[j])
  {
    if bufs == [] then None
    else if Unused(bufs[|bufs|-1]) then Some(|bufs| - 1)
    else Victim(bufs[..|bufs|-1])
  }

  // --- steps --------------------------------------------------------------------

  datatype Step =
    | Get(k: Key)                    // bget under bcache.lock
    | Lock(k: Key)                   // acquiresleep(&b->lock)
    | Fill(k: Key)                   // bread: iderw when the buffer is not valid
    | Modify(k: Key, data: Block)    // the lock holder stores into b->data
    | Pin(k: Key)                    // log_write sets B_DIRTY
    | WriteBack(k: Key)              // bwrite
    | Release(k: Key)                // brelse

  // Hand buffer v over to block k; its contents are stale.
  function Recycled(c: Cache, v: nat, k: Key): (r: Cache)
    requires v < |c.bufs|
  {
    c.(bufs := c.bufs[v := c.bufs[v].(key := k, valid := false, dirty := false, refcnt := 1)])
  }

  // None stands for panic("bget: no buffers").
  function GetStep(c: Cache, k: Key): (r: Option<Cache>)
  {
    var i := Find(c.bufs, k);
    if i < |c.bufs| then
      Some(c.(bufs := c.bufs[i := c.bufs[i].(refcnt := c.bufs[i].refcnt + 1)]))
    else
      match Victim(c.bufs)
      case None => None
      case Some(v) =>
        Some(Recycled(c, v, k))
  }

  // Move buffer i to the front of the list.
  function ToFront(bufs: seq<Buf>, i: nat): (r: seq<Buf>)
    requires i < |bufs|
    ensures |r| == |bufs|
  {
    [bufs[i]] + bufs[..i] + bufs[i+1..]
  }

  // The first half of brelse: unlock and drop a reference.
  function Dropped(b: Buf): (r: Buf)
    requires b.refcnt > 0
  {
    b.(locked := false, refcnt := b.refcnt - 1)
  }

  function ReleaseStep(c: Cache, i: nat): (r: Cache)
    requires i < |c.bufs| && c.bufs[i].refcnt > 0
  {
    var b := Dropped(c.bufs[i]);
    if b.refcnt == 0 then
      c.(bufs := ToFront(c.bufs[i := b.(released := c.clock)], i), clock := c.clock + 1)
    else
      c.(bufs := c.bufs[i := b])
  }

  // What callers promise.  A holder of the lock may modify the data, but must have
  // called log_write or bwrite for it by the time it releases the buffer.
  predicate Allowed(c: Cache, s: Step)
  {
    s.k.dev != 0 && s.k in c.disk &&
    (s.Get? ||
     var i := Find(c.bufs, s.k);
     i < |c.bufs| &&
     var b := c.bufs[i];
     b.refcnt > 0 &&
     match s
     case Get(_) => true
     case Lock(_) => !b.locked
     case Fill(_) => b.locked && !b.valid
     case Modify(_, _) => b.locked && b.valid
     case Pin(_) => b.locked && b.valid
     case WriteBack(_) => b.locked && b.valid
     case Release(_) => b.locked && b.valid && (b.dirty || b.data == c.disk[s.k]))
  }

  function Do(c: Cache, s: Step): (r: Option<Cache>)
    requires Allowed(c, s)
  {
    if s.Get? then GetStep(c, s.k) else
    var i := Find(c.bufs, s.k);
    var b := c.bufs[i];
    match s
    case Lock(_) => Some(c.(bufs := c.bufs[i := b.(locked := true)]))
    case Fill(k) => Some(c.(bufs := c.bufs[i := b.(valid := true, data := c.disk[k])]))
    case Modify(_, d) => Some(c.(bufs := c.bufs[i := b.(data := d)]))
    case Pin(_) => Some(c.(bufs := c.bufs[i := b.(dirty := true)]))
    case WriteBack(k) =>
      Some(c.(bufs := c.bufs[i := b.(dirty := false, valid := true)], disk := c.disk[k := b.data]))
    case Release(_) => Some(ReleaseStep(c, i))
  }

  // --- the invariant --------------------------------------------------------------

  predicate BufOk(b: Buf, disk: map<Key, Block>)
  {
    && (b.locked ==> b.refcnt > 0)
    && (b.dirty ==> b.valid)
    && (b.key.dev != 0 ==> b.key in disk)
    && (b.valid && !b.dirty && !b.locked ==> b.key.dev != 0 && b.data == disk[b.key])
  }

  // No two buffers hold the same block of a real device.
  predicate Unique(bufs: seq<Buf>)
  {
    forall i, j :: 0 <= i < j < |bufs| && bufs[i].key == bufs[j].key ==> bufs[i].key.dev == 0
  }

  // The list is in order of last release, most recent first.
  predicate Recency(c: Cache)
  {
    && (forall i, j :: 0 <= i < j < |c.bufs| ==> c.bufs[i].released > c.bufs[j].released)
    && (forall i :: 0 <= i < |c.bufs| ==> c.bufs[i].released < c.clock)
  }

  predicate Inv(c: Cache)
  {
    && (forall i :: 0 <= i < |c.bufs| ==> BufOk(c.bufs[i], c.disk))
    && Unique(c.bufs)
    && Recency(c)
  }

  // binit: nbuf empty buffers in a list.
  function Init(nbuf: nat, disk: map<Key, Block>): (c: Cache)
  {
    Cache(seq(nbuf, i => Buf(Key(0, 0), false, false, 0, false, ZeroBlock(), -i)), disk, 1)
  }

  lemma InitInv(nbuf: nat, disk: map<Key, Block>)
    ensures Inv(Init(nbuf, disk))
  {
  }

  // What a reader of block k is given.
  function View(c: Cache, k: Key): (b: Block)
    requires k in c.disk
  {
    var i := Find(c.bufs, k);
    if i < |c.bufs| && c.bufs[i].valid then c.bufs[i].data else c.disk[k]
  }

  // No reader can tell the two caches apart.
  ghost predicate SameView(c: Cache, c': Cache)
  {
    c.disk.Keys == c'.disk.Keys && forall k :: k in c.disk && k.dev != 0 ==> View(c', k) == View(c, k)
  }

  // --- step lemmas ------------------------------------------------------------------

  // The position of k's buffer, when unique, does not depend on how it was found.
  lemma FindIs(bufs: seq<Buf>, k: Key, i: nat)
    requires i < |bufs| && bufs[i].key == k && k.dev != 0 && Unique(bufs)
    ensures Find(bufs, k) == i
  {
  }

  // Replacing a buffer by one for the same block disturbs no search.
  lemma FindUpdate(bufs: seq<Buf>, i: nat, b: Buf, k: Key)
    requires i < |bufs| && b.key == bufs[i].key
    ensures Find(bufs[i := b], k) == Find(bufs, k)
  {
    assert forall j :: 0 <= j < |bufs| ==> bufs[i := b][j].key == bufs[j].key;
  }

  // Where the buffer at place j of ToFront(bufs, i) came from.
  function CameFrom(i: nat, j: nat): (r: nat)
  {
    if j == 0 then i else if j <= i then j - 1 else j
  }

  lemma ToFrontAt(bufs: seq<Buf>, i: nat, j: nat)
    requires i < |bufs| && j < |bufs|
    ensures |ToFront(bufs, i)| == |bufs| && CameFrom(i, j) < |bufs|
    ensures ToFront(bufs, i)[j] == bufs[CameFrom(i, j)]
  {
  }

  lemma ToFrontUnique(bufs: seq<Buf>, i: nat)
    requires i < |bufs| && Unique(bufs)
    ensures Unique(ToFront(bufs, i))
  {
    var fr := ToFront(bufs, i);
    forall a, b | 0 <= a < b < |fr| && fr[a].key == fr[b].key
      ensures fr[a].key.dev == 0
    {
      ToFrontAt(bufs, i, a);
      ToFrontAt(bufs, i, b);
      assert CameFrom(i, a) != CameFrom(i, b);
    }
  }

  // Moving a buffer to the front does not change which buffer a search finds.
  lemma FindToFront(bufs: seq<Buf>, i: nat, k: Key)
    requires i < |bufs| && Unique(bufs) && k.dev != 0
    ensures Holds(ToFront(bufs, i), k) == Holds(bufs, k)
    ensures Holds(bufs, k) ==> ToFront(bufs, i)[Find(ToFront(bufs, i), k)] == bufs[Find(bufs, k)]
  {
    var fr := ToFront(bufs, i);
    ToFrontUnique(bufs, i);
    var f, f' := Find(bufs, k), Find(fr, k);
    if f < |bufs| {
      var j := if f == i then 0 else if f < i then f + 1 else f;
      ToFrontAt(bufs, i, j);
      FindIs(fr, k, j);
    } else if f' < |fr| {
      ToFrontAt(bufs, i, f');
    }
  }

  // A step on one buffer that keeps its block and its place keeps the invariant.
  lemma UpdateKeepsInv(c: Cache, i: nat, b: Buf, disk: map<Key, Block>)
    requires Inv(c) && i < |c.bufs| && b.key == c.bufs[i].key && b.released == c.bufs[i].released
    requires b.key.dev != 0 && BufOk(b, disk)
    requires disk.Keys == c.disk.Keys && forall k :: k in disk && k != b.key ==> disk[k] == c.disk[k]
    ensures Inv(Cache(c.bufs[i := b], disk, c.clock))
    ensures forall k :: k in disk && k != b.key ==> View(Cache(c.bufs[i := b], disk, c.clock), k) == View(c, k)
  {
    var c' := Cache(c.bufs[i := b], disk, c.clock);
    forall j | 0 <= j < |c'.bufs|
      ensures BufOk(c'.bufs[j], disk)
    {
      assert BufOk(c.bufs[j], c.disk);
      assert c.bufs[j].key == b.key ==> j == i;
    }
    forall k | k in disk && k != b.key
      ensures View(c', k) == View(c, k)
    {
      FindUpdate(c.bufs, i, b, k);
    }
  }

  lemma RecycleKeepsInv(c: Cache, v: nat, k: Key)
    requires Inv(c) && v < |c.bufs| && Unused(c.bufs[v]) && !Holds(c.bufs, k)
    requires k.dev != 0 && k in c.disk
    ensures Inv(Recycled(c, v, k))
    ensures SameView(c, Recycled(c, v, k))
  {
    var c' := Recycled(c, v, k);
    assert BufOk(c.bufs[v], c.disk);
    assert Unique(c'.bufs);
    forall k' | k' in c.disk && k'.dev != 0
      ensures View(c', k') == View(c, k')
    {
      var i := Find(c.bufs, k');
      if k' == k {
        FindIs(c'.bufs, k, v);
      } else if i < |c.bufs| && i != v {
        FindIs(c'.bufs, k', i);
      } else {
        assert forall j :: 0 <= j < |c.bufs| && j != v ==> c.bufs[j].key != k';
      }
    }
  }

  // Moving a buffer to the front with the newest stamp keeps the invariant.
  lemma FrontKeepsInv(c: Cache, i: nat)
    requires Inv(c) && i < |c.bufs| && c.bufs[i].key.dev != 0
    ensures var c' := Cache(ToFront(c.bufs[i := c.bufs[i].(released := c.clock)], i), c.disk, c.clock + 1);
            Inv(c') && SameView(c, c')
  {
    var b := c.bufs[i].(released := c.clock);
    var bufs := c.bufs[i := b];
    var c' := Cache(ToFront(bufs, i), c.disk, c.clock + 1);
    ToFrontUnique(bufs, i);
    forall j | 0 <= j < |c'.bufs|
      ensures BufOk(c'.bufs[j], c.disk)
      ensures c'.bufs[j].released == if j == 0 then c.clock else c.bufs[CameFrom(i, j)].released
    {
      ToFrontAt(bufs, i, j);
      assert BufOk(c.bufs[CameFrom(i, j)], c.disk);
    }
    forall k | k in c.disk && k.dev != 0
      ensures View(c', k) == View(c, k)
    {
      FindUpdate(c.bufs, i, b, k);
      FindToFront(bufs, i, k);
    }
  }

  predicate Releasable(c: Cache, i: nat)
  {
    && i < |c.bufs| && c.bufs[i].refcnt > 0 && c.bufs[i].key.dev != 0 && c.bufs[i].valid
    && c.bufs[i].key in c.disk && (c.bufs[i].dirty || c.bufs[i].data == c.disk[c.bufs[i].key])
  }

  lemma DropKeepsInv(c: Cache, i: nat)
    requires Inv(c) && Releasable(c, i)
    ensures var c' := Cache(c.bufs[i := Dropped(c.bufs[i])], c.disk, c.clock);
            Inv(c') && SameView(c, c')
  {
    var b := Dropped(c.bufs[i]);
    assert BufOk(c.bufs[i], c.disk);
    UpdateKeepsInv(c, i, b, c.disk);
    FindUpdate(c.bufs, i, b, b.key);
    FindIs(c.bufs, b.key, i);
  }

  lemma ReleaseKeepsInv(c: Cache, i: nat)
    requires Inv(c) && Releasable(c, i)
    ensures Inv(ReleaseStep(c, i)) && SameView(c, ReleaseStep(c, i))
  {
    DropKeepsInv(c, i);
    var c1 := Cache(c.bufs[i := Dropped(c.bufs[i])], c.disk, c.clock);
    if c1.bufs[i].refcnt == 0 {
      FrontKeepsInv(c1, i);
      var b := c1.bufs[i].(released := c.clock);
      assert c1.bufs[i := b] == c.bufs[i := b];
    }
  }

  // The table of blocks the cache stands for, and what a step means there: only
  // a lock holder's stores change it.
  predicate Models(c: Cache, m: map<Key, Block>)
  {
    m.Keys == c.disk.Keys && forall k :: k in m && k.dev != 0 ==> View(c, k) == m[k]
  }

  function Abstract(m: map<Key, Block>, s: Step): (m': map<Key, Block>)
  {
    if s.Modify? then m[s.k := s.data] else m
  }

  // The steps that change one buffer in place.
  lemma InPlaceRefines(c: Cache, s: Step, m: map<Key, Block>)
    requires Inv(c) && Allowed(c, s) && Models(c, m) && !s.Release? && Holds(c.bufs, s.k)
    ensures Do(c, s).Some?
    ensures Inv(Do(c, s).value) && Models(Do(c, s).value, Abstract(m, s))
  {
    var i := Find(c.bufs, s.k);
    var c' := Do(c, s).value;
    assert BufOk(c.bufs[i], c.disk);
    var b := c'.bufs[i];
    assert c'.bufs == c.bufs[i := b];
    UpdateKeepsInv(c, i, b, c'.disk);
    FindUpdate(c.bufs, i, b, s.k);
    assert View(c, s.k) == m[s.k];
    assert View(c', s.k) == Abstract(m, s)[s.k];
  }

  // What a completed read delivers: the buffer holds the table's block.
  predicate Delivers(c: Cache, k: Key, data: Block)
  {
    Holds(c.bufs, k) && c.bufs[Find(c.bufs, k)].valid && c.bufs[Find(c.bufs, k)].data == data
  }

  // One step: the invariant holds on, the table changes only by a store, a read
  // delivers the table's block, and only a write-back changes the disk, to that
  // block.  A step can fail only for want of an unused buffer.
  lemma StepRefines(c: Cache, s: Step, m: map<Key, Block>)
    requires Inv(c) && Allowed(c, s) && Models(c, m)
    ensures Do(c, s).None? ==> s.Get? && forall i :: 0 <= i < |c.bufs| ==> !Unused(c.bufs[i])
    ensures Do(c, s).Some? ==> Inv(Do(c, s).value) && Models(Do(c, s).value, Abstract(m, s))
    ensures s.Fill? ==> Do(c, s).Some? && Delivers(Do(c, s).value, s.k, m[s.k])
    ensures Do(c, s).Some? ==> Do(c, s).value.disk == if s.WriteBack? then c.disk[s.k := m[s.k]] else c.disk
  {
    var i := Find(c.bufs, s.k);
    if s.Get? && i == |c.bufs| {
      match Victim(c.bufs)
      case None =>
      case Some(v) => RecycleKeepsInv(c, v, s.k);
    } else if s.Release? {
      ReleaseKeepsInv(c, i);
    } else {
      InPlaceRefines(c, s, m);
      assert View(c, s.k) == m[s.k];
      if s.Fill? { FindUpdate(c.bufs, i, Do(c, s).value.bufs[i], s.k); }
    }
  }

  // --- runs -----------------------------------------------------------------------

  predicate AllowedRun(c: Cache, steps: seq<Step>)
    decreases |steps|
  {
    steps == [] ||
    (Allowed(c, steps[0]) && Do(c, steps[0]).Some? && AllowedRun(Do(c, steps[0]).value, steps[1..]))
  }

  function Run(c: Cache, steps: seq<Step>): (r: Cache)
    requires AllowedRun(c, steps)
    decreases |steps|
  {
    if steps == [] then c else Run(Do(c, steps[0]).value, steps[1..])
  }

  // The last value stored into block k, or what the disk held at the start.
  function LastStore(m: map<Key, Block>, steps: seq<Step>, k: Key): (b: Block)
    requires k in m
  {
    if steps == [] then m[k]
    else
      var s := steps[|steps|-1];
      if s.Modify? && s.k == k then s.data else LastStore(m, steps[..|steps|-1], k)
  }

  function AbstractRun(m: map<Key, Block>, steps: seq<Step>): (r: map<Key, Block>)
    decreases |steps|
  {
    if steps == [] then m else AbstractRun(Abstract(m, steps[0]), steps[1..])
  }

  lemma {:induction false} AbstractRunIsLastStore(m: map<Key, Block>, steps: seq<Step>, k: Key)
    requires k in m
    ensures k in AbstractRun(m, steps) && AbstractRun(m, steps)[k] == LastStore(m, steps, k)
    decreases |steps|
  {
    if steps != [] {
      var m1 := Abstract(m, steps[0]);
      AbstractRunIsLastStore(m1, steps[1..], k);
      LastStoreCons(m, steps, k);
    }
  }

  lemma {:induction false} LastStoreCons(m: map<Key, Block>, steps: seq<Step>, k: Key)
    requires k in m && steps != []
    ensures LastStore(m, steps, k) == LastStore(Abstract(m, steps[0]), steps[1..], k)
  {
    if |steps| > 1 {
      var front := steps[..|steps|-1];
      LastStoreCons(m, front, k);
      assert steps[1..][..|steps|-2] == front[1..];
    }
  }

  lemma {:induction false} RunRefines(c: Cache, m: map<Key, Block>, steps: seq<Step>)
    requires Inv(c) && Models(c, m) && AllowedRun(c, steps)
    ensures Inv(Run(c, steps)) && Models(Run(c, steps), AbstractRun(m, steps))
    decreases |steps|
  {
    if steps != [] {
      StepRefines(c, steps[0], m);
      RunRefines(Do(c, steps[0]).value, Abstract(m, steps[0]), steps[1..]);
    }
  }

  // Cache transparency: whatever the interleaving and whichever buffers were
  // recycled, a block of a real device reads as the last value stored into it.
  lemma CacheTransparent(nbuf: nat, disk: map<Key, Block>, steps: seq<Step>, k: Key)
    requires AllowedRun(Init(nbuf, disk), steps) && k in disk && k.dev != 0
    ensures Inv(Run(Init(nbuf, disk), steps))
    ensures k in Run(Init(nbuf, disk), steps).disk
    ensures View(Run(Init(nbuf, disk), steps), k) == LastStore(disk, steps, k)
  {
    var c := Init(nbuf, disk);
    InitInv(nbuf, disk);
    assert Models(c, disk);
    RunRefines(c, disk, steps);
    AbstractRunIsLastStore(disk, steps, k);
  }

  // A recycled buffer is the one released longest ago among those neither
  // referenced nor pinned, and recycling changes what no block reads as.
  lemma RecyclesLeastRecent(c: Cache, k: Key)
    requires Inv(c) && k.dev != 0 && k in c.disk && !Holds(c.bufs, k) && Victim(c.bufs).Some?
    ensures var v := Victim(c.bufs).value;
            forall j :: 0 <= j < |c.bufs| && j != v && Unused(c.bufs[j]) ==>
              c.bufs[v].released < c.bufs[j].released
    ensures SameView(c, GetStep(c, k).value)
  {
    RecycleKeepsInv(c, Victim(c.bufs).value, k);
  }

  // bget panics only when every buffer is referenced or pinned; so with fewer
  // pinned and referenced buffers than NBUF there is always one to recycle.
  lemma {:induction false} EnoughBuffers(bufs: seq<Buf>)
    ensures Victim(bufs).None? <==> BusyCount(bufs) == |bufs|
    ensures BusyCount(bufs) <= |bufs|
  {
    if bufs != [] { EnoughBuffers(bufs[..|bufs|-1]); }
  }

  function BusyCount(bufs: seq<Buf>): (n: nat)
  {
    if bufs == [] then 0
    else BusyCount(bufs[..|bufs|-1]) + if Unused(bufs[|bufs|-1]) then 0 else 1
  }
}
