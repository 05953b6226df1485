/**
 The paging simulator of lab-07/sim.c: eight frames of physical memory, sixteen
 slots of secondary memory, and two replacement policies.

 Main results, for every sequence of requests: a page that was ever served is in
 exactly one frame or slot, and the table entry of a page in memory names its frame;
 the simulator stops exactly when a new page comes and every frame and slot is taken;
 FIFO evicts the page that has been in memory longest; with memory full LRU evicts the
 page least recently accessed, whatever requests come, exactly if its search, by stamp
 and then by frame, ranks the frames by last access; and it ranks them so after every
 request of a run exactly if there is never more than one hit between two loads of
 free frames.
 */
module Paging {
  import opened Options

  const FRAMES := 8                 // MEMORIA_FISICA / TAMANIO_PAGINA
  const SLOTS := 16                 // ALMACENAMIENTO_SECUNDARIO / TAMANIO_PAGINA

  datatype Key = Key(pid: nat, page: nat)

  type Memory = seq<Option<Key>>

  // next is indiceRAM, nextDisk indiceDISCO, stamps tiempoRAM, clock tiempo.  The last
  // three are history, which no step looks at: the pages served so far, when each
  // frame was last loaded, and when it was last accessed, in number of requests.
  datatype State = State(ram: Memory, disk: Memory, table: map<Key, nat>, next: nat, nextDisk: nat,
                         stamps: seq<nat>, clock: nat, now: nat, seen: set<Key>, born: seq<nat>, used: seq<nat>)

  datatype Outcome = Next(s: State) | DiskFull

  function Start(): (s: State)
    ensures Sized(s)
  {
    State(seq(FRAMES, _ => None), seq(SLOTS, _ => None), map[], 0, 0, seq(FRAMES, _ => 0), 0,
          0, {}, seq(FRAMES, _ => 0), seq(FRAMES, _ => 0))
  }

  predicate Sized(s: State)
  {
    && |s.ram| == FRAMES && |s.disk| == SLOTS && |s.stamps| == FRAMES && |s.born| == FRAMES && |s.used| == FRAMES
    && s.next < FRAMES && s.nextDisk < SLOTS
  }

  predicate Full(m: Memory) { forall i :: 0 <= i < |m| ==> m[i].Some? }

  // The first place of x in m.
  function Find(m: Memory, x: Option<Key>): (r: Option<nat>)
    ensures r.Some? ==> r.value < |m| && m[r.value] == x && forall i :: 0 <= i < r.value ==> m[i] != x
    ensures r.None? <==> x !in m
  {
    if m == [] then None
    else if m[0] == x then Some(0)
    else
      var r := Find(m[1..], x);
      assert m == [m[0]] + m[1..];
      if r.None? then None else Some(r.value + 1)
  }

  // --- what one request does -----------------------------------------------------------

  // Page k comes into frame f; what was there has been put at place d of the disk.
  function Load(s: State, k: Key, f: nat): (s': State)
    requires Sized(s) && f < FRAMES
  {
    s.(ram := s.ram[f := Some(k)], table := s.table[k := f + 1],
       now := s.now + 1, seen := s.seen + {k}, born := s.born[f := s.now], used := s.used[f := s.now])
  }

  function Store(s: State, f: nat, d: nat): (s': State)
    requires Sized(s) && f < FRAMES && d < SLOTS
  {
    s.(disk := s.disk[d := s.ram[f]])
  }

  function Hit(s: State, f: nat): (s': State)
    requires Sized(s) && f < FRAMES
  {
    s.(now := s.now + 1, used := s.used[f := s.now])
  }

  datatype Case = InMemory(f: nat) | Free | Fresh | Swapped(d: nat) | Stuck

  // Which branch the request takes.
  function CaseOf(s: State, k: Key): (c: Case)
    requires Sized(s)
    ensures c.InMemory? ==> c.f < FRAMES && s.ram[c.f] == Some(k)
    ensures c.Swapped? ==> c.d < SLOTS && s.disk[c.d] == Some(k)
    ensures c.Free? || c.Stuck? ==> None in s.ram
  {
    var f, d, room := Find(s.ram, Some(k)), Find(s.disk, Some(k)), Find(s.ram, None);
    if f.Some? then InMemory(f.value)
    else if d.None? then if room.Some? then Free else Fresh
    else if room.None? then Swapped(d.value)
    else Stuck
  }

  function Fifo(s: State, k: Key): (r: Outcome)
    requires Sized(s)
    ensures r.Next? ==> Sized(r.s)
  {
    var next := s.(next := (s.next + 1) % FRAMES);
    match CaseOf(s, k)
    case InMemory(f) => Next(Hit(s, f))
    case Free => Next(Load(next, k, s.next))
    case Fresh =>
      if s.disk[s.nextDisk].Some? then DiskFull
      else Next(Load(Store(next.(nextDisk := (s.nextDisk + 1) % SLOTS), s.next, s.nextDisk), k, s.next))
    case Swapped(d) => Next(Load(Store(next, s.next, d), k, s.next))
    case Stuck => Next(s)
  }

  // The greatest stamp.
  function Latest(t: seq<nat>): (m: nat)
    requires t != []
    ensures m in t && forall i :: 0 <= i < |t| ==> t[i] <= m
  {
    if |t| == 1 then t[0]
    else
      var m := Latest(t[..|t| - 1]);
      if t[|t| - 1] > m then t[|t| - 1] else m
  }

  // The first place of the least stamp.
  function ArgMin(t: seq<nat>): (f: nat)
    requires t != []
    ensures f < |t| && (forall i :: 0 <= i < |t| ==> t[f] <= t[i]) && forall i :: 0 <= i < f ==> t[f] < t[i]
  {
    if |t| == 1 then 0
    else
      var f := ArgMin(t[..|t| - 1]);
      if t[|t| - 1] < t[f] then |t| - 1 else f
  }

  // Frame f becomes the most recent, and then all stamps go up by one.
  function Restamp(t: seq<nat>, f: nat): (t': seq<nat>)
    requires f < |t|
    ensures |t'| == |t|
  {
    var u := t[f := Latest(t) + 1];
    seq(|t|, i requires 0 <= i < |u| => u[i] + 1)
  }

  function Lru(s: State, k: Key): (r: Outcome)
    requires Sized(s)
    ensures r.Next? ==> Sized(r.s)
  {
    var f := ArgMin(s.stamps);
    var up := s.(stamps := Restamp(s.stamps, f));
    match CaseOf(s, k)
    case InMemory(g) => Next(Hit(s.(stamps := s.stamps[g := Latest(s.stamps) + 1]), g))
    case Free =>
      var g := Find(s.ram, None).value;
      Next(Load(s.(stamps := s.stamps[g := s.clock], clock := s.clock + 1), k, g))
    case Fresh =>
      if s.disk[s.nextDisk].Some? then DiskFull
      else Next(Load(Store(up.(nextDisk := (s.nextDisk + 1) % SLOTS), f, s.nextDisk), k, f))
    case Swapped(d) => Next(Load(Store(up, f, d), k, f))
    case Stuck => Next(s)
  }

  // --- where pages are --------------------------------------------------------------------

  predicate Distinct(m: Memory) { forall i, j :: 0 <= i < j < |m| && m[i].Some? ==> m[i] != m[j] }

  predicate InMem(m: Memory, k: Key) { Some(k) in m }

  // The table entry of a page in memory names its frame.
  predicate Tabled(ram: Memory, table: map<Key, nat>)
  {
    forall i :: 0 <= i < |ram| && ram[i].Some? ==> ram[i].value in table && table[ram[i].value] == i + 1
  }

  // The disk fills up from slot 0.
  predicate Filling(disk: Memory, next: nat)
  {
    if Full(disk) then next == 0 else forall j :: 0 <= j < |disk| ==> (disk[j].Some? <==> j < next)
  }

  predicate Empty(m: Memory) { forall i :: 0 <= i < |m| ==> m[i].None? }

  // Every page seen is in one place, and only those are; memory comes before the disk.
  ghost predicate Placed(s: State)
  {
    && Sized(s) && Distinct(s.ram) && Distinct(s.disk)
    && (forall k :: InMem(s.ram, k) ==> !InMem(s.disk, k))
    && (forall k :: k in s.seen <==> InMem(s.ram, k) || InMem(s.disk, k))
    && Tabled(s.ram, s.table) && (Full(s.ram) || Empty(s.disk)) && Filling(s.disk, s.nextDisk)
  }

  // Putting a page into one place of a memory.
  lemma Put(m: Memory, f: nat, x: Option<Key>)
    requires f < |m| && Distinct(m) && (x.None? || x !in m)
    ensures Distinct(m[f := x])
    ensures forall k :: InMem(m[f := x], k) <==> Some(k) == x || (InMem(m, k) && Some(k) != m[f])
  {
    var n := m[f := x];
    forall k
      ensures InMem(n, k) <==> Some(k) == x || (InMem(m, k) && Some(k) != m[f])
    {
      if InMem(m, k) && Some(k) != m[f] {
        var i :| 0 <= i < |m| && m[i] == Some(k);
        assert n[i] == Some(k);
      }
      if Some(k) == x {
        assert n[f] == Some(k);
      }
    }
  }

  lemma PutTabled(ram: Memory, table: map<Key, nat>, f: nat, k: Key)
    requires f < |ram| && Tabled(ram, table) && !InMem(ram, k)
    ensures Tabled(ram[f := Some(k)], table[k := f + 1])
  {
  }

  lemma PutFull(m: Memory, f: nat, k: Key)
    requires f < |m|
    ensures Full(m) ==> Full(m[f := Some(k)])
  {
  }

  lemma FillNext(disk: Memory, next: nat, k: Key)
    requires |disk| == SLOTS && next < SLOTS && Filling(disk, next) && disk[next].None?
    ensures Filling(disk[next := Some(k)], (next + 1) % SLOTS)
  {
    var d := disk[next := Some(k)];
    assert forall j :: 0 <= j < SLOTS ==> (d[j].Some? <==> j < next + 1);
    if next + 1 < SLOTS {
      assert d[next + 1].None?;
    }
  }

  lemma RefillSlot(disk: Memory, next: nat, d: nat, k: Key)
    requires d < |disk| && Filling(disk, next) && disk[d].Some?
    ensures Filling(disk[d := Some(k)], next)
  {
    var e := disk[d := Some(k)];
    assert forall j :: 0 <= j < |disk| ==> e[j].Some? == disk[j].Some?;
    assert Full(e) <==> Full(disk);
  }

  // The three ways a page comes into memory keep all this, whichever frame is chosen.
  lemma PlaceFree(s: State, k: Key, f: nat)
    requires Placed(s) && f < FRAMES && s.ram[f].None? && !InMem(s.ram, k)
    ensures Placed(Load(s, k, f))
  {
    hide Distinct, InMem, Tabled, Full, Filling;
    Put(s.ram, f, Some(k)) by { NotIn(s.ram, k); }
    PutTabled(s.ram, s.table, f, k);
    RoomLeft(s.ram, f);
    NothingIn(s.disk);
  }

  lemma NotIn(m: Memory, k: Key)
    requires !InMem(m, k)
    ensures Some(k) !in m
  {
  }

  lemma RoomLeft(m: Memory, f: nat)
    requires f < |m| && m[f].None?
    ensures !Full(m)
  {
  }

  lemma NothingIn(m: Memory)
    ensures Empty(m) ==> forall k :: !InMem(m, k)
  {
  }

  lemma PlaceFresh(s: State, k: Key, f: nat)
    requires Placed(s) && f < FRAMES && Full(s.ram) && !InMem(s.ram, k) && !InMem(s.disk, k) && s.disk[s.nextDisk].None?
    ensures Placed(Load(Store(s.(nextDisk := (s.nextDisk + 1) % SLOTS), f, s.nextDisk), k, f))
  {
    var v := s.ram[f].value;
    assert InMem(s.ram, v);
    hide Distinct, InMem, Tabled, Full, Filling;
    Put(s.ram, f, Some(k)) by { NotIn(s.ram, k); }
    Put(s.disk, s.nextDisk, Some(v)) by { NotIn(s.disk, v); }
    PutTabled(s.ram, s.table, f, k);
    PutFull(s.ram, f, k);
    FillNext(s.disk, s.nextDisk, v);
  }

  lemma PlaceSwapped(s: State, k: Key, f: nat, d: nat)
    requires Placed(s) && f < FRAMES && d < SLOTS && Full(s.ram) && !InMem(s.ram, k) && s.disk[d] == Some(k)
    ensures Placed(Load(Store(s, f, d), k, f))
  {
    var v := s.ram[f].value;
    assert InMem(s.ram, v) && InMem(s.disk, k);
    hide Distinct, InMem, Tabled, Full, Filling;
    Put(s.ram, f, Some(k)) by { NotIn(s.ram, k); }
    Put(s.disk, d, Some(v)) by { NotIn(s.disk, v); }
    PutTabled(s.ram, s.table, f, k);
    PutFull(s.ram, f, k);
    RefillSlot(s.disk, s.nextDisk, d, v);
  }

  // What the branch taken says about where the page is.
  lemma Cases(s: State, k: Key)
    requires Placed(s)
    ensures match CaseOf(s, k)
            case InMemory(f) => InMem(s.ram, k)
            case Free => !InMem(s.ram, k) && !Full(s.ram) && k !in s.seen
            case Fresh => !InMem(s.ram, k) && !InMem(s.disk, k) && Full(s.ram) && k !in s.seen
            case Swapped(d) => !InMem(s.ram, k) && Full(s.ram)
            case Stuck => false
  {
    hide Find, Tabled, Filling;
    assert !Full(s.ram) <==> None in s.ram;
  }

  function Serve(lru: bool, s: State, k: Key): (r: Outcome)
    requires Sized(s)
    ensures r.Next? ==> Sized(r.s)
  {
    if lru then Lru(s, k) else Fifo(s, k)
  }

  // Both policies place pages alike.  For FIFO the frame it goes by is next.
  lemma ServeKeepsPlaces(lru: bool, s: State, k: Key)
    requires Placed(s) && Serve(lru, s, k).Next? && (!lru ==> Ordered(s))
    ensures Placed(Serve(lru, s, k).s) && k in Serve(lru, s, k).s.seen
  {
    hide InMem, Distinct, Tabled, Filling, Full, Ordered, Find, ArgMin, Restamp, Latest, CaseOf;
    Cases(s, k);
    CaseFrame(s, k);
    var f := if lru then ArgMin(s.stamps) else s.next;
    match CaseOf(s, k)
    case InMemory(h) => SeenIn(s, k);
    case Free =>
      if !lru {
        FifoRoom(s);
      }
      PlaceFree(s, k, if lru then Find(s.ram, None).value else s.next);
    case Fresh => PlaceFresh(s, k, f);
    case Swapped(d) => PlaceSwapped(s, k, f, d);
  }

  lemma FifoRoom(s: State)
    requires Ordered(s) && !Full(s.ram)
    ensures s.ram[s.next].None?
  {
  }

  lemma CaseFrame(s: State, k: Key)
    requires Sized(s)
    ensures CaseOf(s, k).Free? ==> Find(s.ram, None).Some?
  {
  }

  lemma SeenIn(s: State, k: Key)
    requires Placed(s) && InMem(s.ram, k)
    ensures k in s.seen
  {
  }

  // The simulator gives up exactly when a new page comes and there is no place left.
  lemma StopsWhenFull(lru: bool, s: State, k: Key)
    requires Placed(s)
    ensures Serve(lru, s, k).DiskFull? <==> k !in s.seen && Full(s.ram) && Full(s.disk)
  {
    Cases(s, k);
    assert s.disk[s.nextDisk].Some? <==> Full(s.disk);
  }

  // --- FIFO ---------------------------------------------------------------------------------

  // Frames in the order in which they will be replaced.
  function Turn(next: nat, i: nat): (p: int) { if i >= next then i - next else i - next + FRAMES }

  predicate OrderedAt(s: State, i: nat, j: nat)
    requires Sized(s) && i < FRAMES && j < FRAMES
  {
    s.ram[i].Some? && s.ram[j].Some? && Turn(s.next, i) < Turn(s.next, j) ==> s.born[i] < s.born[j]
  }

  // Occupied frames come up for replacement in the order they were loaded.
  ghost predicate Ordered(s: State)
  {
    && Sized(s)
    && (Full(s.ram) || forall i :: 0 <= i < FRAMES ==> (s.ram[i].Some? <==> i < s.next))
    && (forall i :: 0 <= i < FRAMES && s.ram[i].Some? ==> s.born[i] < s.now)
    && (forall i: nat, j: nat :: i < FRAMES && j < FRAMES ==> OrderedAt(s, i, j))
  }

  lemma FifoKeepsOrder(s: State, k: Key)
    requires Placed(s) && Ordered(s) && Fifo(s, k).Next?
    ensures Ordered(Fifo(s, k).s)
  {
    hide Find, InMem, Distinct, Tabled, Filling, CaseOf;
    Cases(s, k);
    var s' := Fifo(s, k).s;
    forall i: nat, j: nat | i < FRAMES && j < FRAMES
      ensures OrderedAt(s', i, j)
    {
      assert OrderedAt(s, i, j);
    }
  }

  // The victim is the page that has been in memory longest.
  lemma FifoVictim(s: State, j: nat)
    requires Ordered(s) && Full(s.ram) && j < FRAMES && j != s.next
    ensures s.born[s.next] < s.born[j]
  {
    assert OrderedAt(s, s.next, j);
  }

  // --- LRU ------------------------------------------------------------------------------------

  // History: last accesses are in the past, and no two are the same.
  predicate Dated(s: State)
  {
    && Sized(s)
    && (forall i :: 0 <= i < FRAMES && s.ram[i].Some? ==> s.used[i] < s.now)
    && (forall i, j :: 0 <= i < j < FRAMES && s.ram[i].Some? && s.ram[j].Some? ==> s.used[i] != s.used[j])
  }

  // Where the search for the victim looks first: at lower stamps, and at lower frames
  // where stamps are equal.
  predicate Before(s: State, i: nat, j: nat)
    requires Sized(s) && i < FRAMES && j < FRAMES
  {
    s.stamps[i] < s.stamps[j] || (s.stamps[i] == s.stamps[j] && i < j)
  }

  predicate RankedAt(s: State, i: nat, j: nat)
    requires Sized(s) && i < FRAMES && j < FRAMES
  {
    s.ram[i].Some? && s.ram[j].Some? && s.used[i] < s.used[j] ==> Before(s, i, j)
  }

  // The search ranks the frames by last access.
  ghost predicate Ranked(s: State)
  {
    Sized(s) && forall i: nat, j: nat :: i < FRAMES && j < FRAMES ==> RankedAt(s, i, j)
  }

  // Frame f holds the page least recently accessed.
  predicate LeastRecent(s: State, f: nat)
    requires Sized(s) && f < FRAMES
  {
    forall j :: 0 <= j < FRAMES && j != f && s.ram[j].Some? ==> s.used[f] < s.used[j]
  }

  // While the frames are so ranked, the victim is the page least recently accessed.
  lemma LruVictim(s: State)
    requires Ranked(s) && Dated(s) && Full(s.ram)
    ensures LeastRecent(s, ArgMin(s.stamps))
  {
    var f := ArgMin(s.stamps);
    forall j: nat | j < FRAMES && j != f
      ensures s.used[f] < s.used[j]
    {
      assert RankedAt(s, j, f);
    }
  }

  lemma LruKeepsDates(s: State, k: Key)
    requires Placed(s) && Dated(s) && Lru(s, k).Next?
    ensures Dated(Lru(s, k).s)
  {
    hide Find, InMem, Distinct, Tabled, Filling, CaseOf, ArgMin, Restamp, Latest;
    Cases(s, k);
    CaseFrame(s, k);
  }

  // Frames fill up from frame 0, and the load counter counts them; free ones carry no stamp.
  predicate InOrder(s: State)
  {
    && Sized(s) && s.clock <= FRAMES
    && forall i :: 0 <= i < FRAMES ==> (s.ram[i].Some? <==> i < s.clock) && (s.ram[i].None? ==> s.stamps[i] == 0)
  }

  lemma NextFree(s: State)
    requires InOrder(s) && Find(s.ram, None).Some?
    ensures s.clock < FRAMES && Find(s.ram, None) == Some(s.clock)
  {
    hide Find;
    var g := Find(s.ram, None).value;
    assert s.ram[g].None?;
    assert s.clock < g ==> s.ram[s.clock] == None;
  }

  lemma LruKeepsOrder(s: State, k: Key)
    requires Placed(s) && InOrder(s) && Lru(s, k).Next?
    ensures InOrder(Lru(s, k).s)
    ensures CaseOf(s, k).Free? ==> s.clock < FRAMES && Find(s.ram, None) == Some(s.clock)
  {
    hide InMem, Distinct, Tabled, Filling, CaseOf, ArgMin, Latest, Find;
    Cases(s, k);
    CaseFrame(s, k);
    assert Full(s.ram) ==> s.ram[FRAMES - 1].Some?;
    if CaseOf(s, k).Free? {
      NextFree(s);
    }
  }

  // The stamps have not passed the load counter.
  predicate StampsUpTo(s: State)
    requires Sized(s)
  {
    forall i :: 0 <= i < FRAMES && s.ram[i].Some? ==> s.stamps[i] <= s.clock
  }

  predicate Evicts(s: State, k: Key)
    requires Sized(s)
  {
    Lru(s, k).Next? && (CaseOf(s, k).Fresh? || CaseOf(s, k).Swapped?)
  }

  // The frame a request touches: it is now the latest, in both orders.
  predicate Touched(s: State, s': State, g: nat)
  {
    && Sized(s) && Sized(s') && g < FRAMES && s'.used == s.used[g := s.now]
    && (forall x :: 0 <= x < FRAMES && x != g ==> s'.ram[x] == s.ram[x])
    && (forall x: nat, y: nat :: x < FRAMES && y < FRAMES && x != g && y != g ==> (Before(s', x, y) <==> Before(s, x, y)))
    && (forall x: nat :: x < FRAMES && x != g && s.ram[x].Some? ==> Before(s', x, g))
  }

  lemma TouchHit(s: State, k: Key)
    requires Sized(s) && CaseOf(s, k).InMemory?
    ensures Touched(s, Lru(s, k).s, CaseOf(s, k).f)
  {
    hide CaseOf, Latest, ArgMin, Restamp, Find;
  }

  lemma TouchFree(s: State, k: Key)
    requires InOrder(s) && CaseOf(s, k).Free? && Find(s.ram, None) == Some(s.clock) && s.clock < FRAMES && StampsUpTo(s)
    ensures Touched(s, Lru(s, k).s, s.clock)
  {
    hide CaseOf, Latest, ArgMin, Restamp, Find;
  }

  lemma TouchVictim(s: State, k: Key)
    requires Sized(s) && Evicts(s, k)
    ensures Touched(s, Lru(s, k).s, ArgMin(s.stamps))
  {
    hide CaseOf, Latest, ArgMin, Find;
  }

  lemma TouchesOne(s: State, k: Key)
    requires Placed(s) && InOrder(s) && Lru(s, k).Next? && (CaseOf(s, k).Free? ==> StampsUpTo(s))
    ensures exists g: nat :: Touched(s, Lru(s, k).s, g)
  {
    Cases(s, k);
    LruKeepsOrder(s, k);
    hide Placed, CaseOf, Lru, Touched, InOrder;
    match CaseOf(s, k)
    case InMemory(g) => TouchHit(s, k);
    case Free => TouchFree(s, k);
    case _ => TouchVictim(s, k);
  }

  lemma KeepsPair(s: State, s': State, g: nat, i: nat, j: nat)
    requires Dated(s) && Touched(s, s', g) && i < FRAMES && j < FRAMES && RankedAt(s, i, j)
    ensures RankedAt(s', i, j)
  {
    hide Before;
  }

  lemma BreaksPair(s: State, k: Key, i: nat)
    requires Placed(s) && Dated(s) && InOrder(s) && Lru(s, k).Next? && CaseOf(s, k).Free?
    requires i < FRAMES && s.ram[i].Some? && s.stamps[i] > s.clock
    ensures s.clock < FRAMES && !RankedAt(Lru(s, k).s, i, s.clock)
  {
    LruKeepsOrder(s, k);
    hide Find, InMem, Distinct, Tabled, Filling, CaseOf, ArgMin, Latest, Placed;
  }

  // One request keeps the ranking, except that loading a free frame keeps it exactly if
  // no stamp has passed the load counter.
  lemma LruStepExact(s: State, k: Key)
    requires Placed(s) && Dated(s) && InOrder(s) && Ranked(s) && Lru(s, k).Next?
    ensures Ranked(Lru(s, k).s) <==> (CaseOf(s, k).Free? ==> StampsUpTo(s))
  {
    hide Placed, Dated, InOrder, CaseOf, Lru, RankedAt, Touched;
    var s' := Lru(s, k).s;
    if CaseOf(s, k).Free? && !StampsUpTo(s) {
      var i: nat :| i < FRAMES && s.ram[i].Some? && s.stamps[i] > s.clock;
      BreaksPair(s, k, i);
    } else {
      TouchesOne(s, k);
      var g: nat :| Touched(s, s', g);
      forall i: nat, j: nat | i < FRAMES && j < FRAMES
        ensures RankedAt(s', i, j)
      {
        KeepsPair(s, s', g, i, j);
      }
    }
  }

  // --- runs --------------------------------------------------------------------------------------

  function Run(lru: bool, s: State, ks: seq<Key>): (r: Outcome)
    requires Sized(s)
    ensures r.Next? ==> Sized(r.s)
    decreases |ks|
  {
    if ks == [] then Next(s)
    else if Serve(lru, s, ks[0]).DiskFull? then DiskFull
    else Run(lru, Serve(lru, s, ks[0]).s, ks[1..])
  }

  ghost predicate Good(lru: bool, s: State)
  {
    Placed(s) && (if lru then Dated(s) else Ordered(s))
  }

  lemma StartGood(lru: bool)
    ensures Good(lru, Start()) && Ranked(Start()) && InOrder(Start()) && Start().seen == {}
  {
    assert Filling(Start().disk, 0) by { assert Start().disk[0].None?; }
  }

  lemma ServeKeeps(lru: bool, s: State, k: Key)
    requires Good(lru, s) && Serve(lru, s, k).Next?
    ensures Good(lru, Serve(lru, s, k).s)
  {
    hide Placed, Dated, Ordered, Fifo, Lru;
    ServeKeepsPlaces(lru, s, k);
    if lru {
      LruKeepsDates(s, k);
    } else {
      FifoKeepsOrder(s, k);
    }
  }

  lemma SeenGrows(lru: bool, s: State, k: Key)
    requires Placed(s) && Serve(lru, s, k).Next?
    ensures Serve(lru, s, k).s.seen == s.seen + {k}
  {
    hide Find, Tabled, Filling, Full, ArgMin, Restamp, Latest, CaseOf, Distinct;
    Cases(s, k);
    CaseFrame(s, k);
    assert CaseOf(s, k).InMemory? ==> s.seen + {k} == s.seen;
  }

  lemma {:induction false} RunKeeps(lru: bool, s: State, ks: seq<Key>)
    requires Good(lru, s) && Run(lru, s, ks).Next?
    ensures Good(lru, Run(lru, s, ks).s)
    ensures forall k :: k in Run(lru, s, ks).s.seen <==> k in s.seen || k in ks
    decreases |ks|
  {
    hide Good, Serve;
    GoodAny(lru, s);
    if ks != [] {
      ServeKeeps(lru, s, ks[0]);
      SeenGrows(lru, s, ks[0]);
      RunKeeps(lru, Serve(lru, s, ks[0]).s, ks[1..]);
      assert ks == [ks[0]] + ks[1..];
    }
  }

  lemma GoodAny(lru: bool, s: State)
    requires Good(lru, s)
    ensures Placed(s) && Sized(s)
  {
  }

  // Whatever was asked for, and nothing else, is in exactly one place, and a page in
  // memory is where the table of its process says.
  lemma EveryPageOnce(lru: bool, ks: seq<Key>)
    requires Run(lru, Start(), ks).Next?
    ensures var s := Run(lru, Start(), ks).s;
            && (forall k :: k in ks <==> InMem(s.ram, k) || InMem(s.disk, k))
            && (forall k :: !(InMem(s.ram, k) && InMem(s.disk, k)))
            && Distinct(s.ram) && Distinct(s.disk) && Tabled(s.ram, s.table)
  {
    hide Run, InMem, Distinct, Tabled, Dated, Ordered, Filling, Full, Start;
    StartGood(lru);
    RunKeeps(lru, Start(), ks);
  }

  // FIFO over a whole run: the frame that goes next is the one loaded first.
  lemma FifoRun(ks: seq<Key>, j: nat)
    requires Run(false, Start(), ks).Next? && Full(Run(false, Start(), ks).s.ram)
    requires j < FRAMES && j != Run(false, Start(), ks).s.next
    ensures var s := Run(false, Start(), ks).s; s.born[s.next] < s.born[j]
  {
    hide Run, InMem, Distinct, Tabled, Dated, Ordered, Filling, Full, Start, Placed;
    StartGood(false);
    RunKeeps(false, Start(), ks);
    FifoVictim(Run(false, Start(), ks).s, j);
  }

  // --- what the history fields are -------------------------------------------------------------

  // A request dates the frame that has its page afterwards, as used, and as loaded if the
  // page was not in memory; other frames that keep their page keep their dates.
  lemma ServeFrame(lru: bool, s: State, k: Key, f: nat)
    requires Placed(s) && Serve(lru, s, k).Next? && f < FRAMES
    ensures var t := Serve(lru, s, k).s;
            && t.now == s.now + 1
            && (t.ram[f] == Some(k) ==> t.used[f] == s.now)
            && (t.ram[f] == Some(k) && s.ram[f] == Some(k) ==> t.born[f] == s.born[f])
            && (t.ram[f] == Some(k) && s.ram[f] != Some(k) ==> t.born[f] == s.now && !InMem(s.ram, k))
            && (t.ram[f] != Some(k) ==> t.ram[f] == s.ram[f] && t.used[f] == s.used[f] && t.born[f] == s.born[f])
  {
    hide Find, ArgMin, Latest, Restamp, Tabled;
    Cases(s, k);
  }

  lemma {:induction false} RunFront(lru: bool, s: State, ks: seq<Key>)
    requires Sized(s) && ks != [] && Run(lru, s, ks).Next?
    ensures var front := ks[..|ks| - 1];
            Run(lru, s, front).Next? && Run(lru, s, ks) == Serve(lru, Run(lru, s, front).s, ks[|ks| - 1])
    decreases |ks|
  {
    hide Serve;
    var front := ks[..|ks| - 1];
    if |ks| == 1 {
      assert front == [] && ks[1..] == [];
    } else {
      assert front[1..] == ks[1..][..|ks| - 2];
      RunFront(lru, Serve(lru, s, ks[0]).s, ks[1..]);
    }
  }

  predicate Framed(s: State) { |s.ram| == FRAMES && |s.used| == FRAMES && |s.born| == FRAMES }

  // The frame before and after the last request of a run.
  lemma LastFrame(lru: bool, ks: seq<Key>, f: nat)
    requires Run(lru, Start(), ks).Next? && f < FRAMES
    ensures Framed(Run(lru, Start(), ks).s) && (ks == [] ==> Run(lru, Start(), ks).s.ram[f].None?)
    ensures ks != [] ==>
      var front, k := ks[..|ks| - 1], ks[|ks| - 1];
      && Run(lru, Start(), front).Next? && Framed(Run(lru, Start(), front).s)
      && var s, t := Run(lru, Start(), front).s, Run(lru, Start(), ks).s;
         && t.now == s.now + 1
         && (t.ram[f] == Some(k) ==> t.used[f] == s.now)
         && (t.ram[f] == Some(k) && s.ram[f] == Some(k) ==> t.born[f] == s.born[f])
         && (t.ram[f] == Some(k) && s.ram[f] != Some(k) ==> t.born[f] == s.now && !InMem(s.ram, k))
         && (t.ram[f] != Some(k) ==> t.ram[f] == s.ram[f] && t.used[f] == s.used[f] && t.born[f] == s.born[f])
  {
    if ks != [] {
      var front := ks[..|ks| - 1];
      RunFront(lru, Start(), ks);
      StartGood(lru);
      RunKeeps(lru, Start(), front);
      ServeFrame(lru, Run(lru, Start(), front).s, ks[|ks| - 1], f);
      hide Run, Start, Serve, InMem, Distinct, Tabled, Dated, Ordered, Filling, Full;
    }
  }

  lemma {:induction false} NowIs(lru: bool, ks: seq<Key>, f: nat)
    requires Run(lru, Start(), ks).Next? && f < FRAMES
    ensures Run(lru, Start(), ks).s.now == |ks|
    decreases |ks|
  {
    LastFrame(lru, ks, f);
    hide Serve, Sized;
    if ks != [] {
      NowIs(lru, ks[..|ks| - 1], f);
    }
  }

  // used is the last request for the page in a frame.
  lemma {:induction false} UsedIsLast(lru: bool, ks: seq<Key>, f: nat)
    requires Run(lru, Start(), ks).Next? && f < FRAMES && Run(lru, Start(), ks).s.ram[f].Some?
    ensures var s := Run(lru, Start(), ks).s;
            && s.now == |ks| && s.used[f] < |ks| && ks[s.used[f]] == s.ram[f].value
            && forall j :: s.used[f] < j < |ks| ==> ks[j] != s.ram[f].value
    decreases |ks|
  {
    NowIs(lru, ks, f);
    LastFrame(lru, ks, f);
    hide Run, Start, InMem;
    var front, k := ks[..|ks| - 1], ks[|ks| - 1];
    NowIs(lru, front, f);
    if Run(lru, Start(), ks).s.ram[f] != Some(k) {
      UsedIsLast(lru, front, f);
      assert forall j :: 0 <= j < |front| ==> front[j] == ks[j];
    }
  }

  lemma {:induction false} BornBefore(lru: bool, ks: seq<Key>, f: nat)
    requires Run(lru, Start(), ks).Next? && f < FRAMES && Run(lru, Start(), ks).s.ram[f].Some?
    ensures Framed(Run(lru, Start(), ks).s) && Run(lru, Start(), ks).s.born[f] < |ks|
    decreases |ks|
  {
    LastFrame(lru, ks, f);
    hide Run, Start, InMem;
    var front := ks[..|ks| - 1];
    NowIs(lru, front, f);
    if Run(lru, Start(), front).s.ram[f].Some? {
      BornBefore(lru, front, f);
    }
  }

  // born is the request that brought the page in a frame there: it was not in memory
  // before, and has been in that frame since.
  lemma {:induction false} BornIsLoad(lru: bool, ks: seq<Key>, f: nat, n: nat)
    requires Run(lru, Start(), ks).Next? && f < FRAMES && Run(lru, Start(), ks).s.ram[f].Some?
    requires Run(lru, Start(), ks).s.born[f] < n <= |ks|
    ensures var s := Run(lru, Start(), ks).s; var b := s.born[f];
            && b < |ks| && ks[b] == s.ram[f].value
            && Run(lru, Start(), ks[..b]).Next? && !InMem(Run(lru, Start(), ks[..b]).s.ram, ks[b])
            && Run(lru, Start(), ks[..n]).Next? && Framed(Run(lru, Start(), ks[..n]).s)
            && Run(lru, Start(), ks[..n]).s.ram[f] == s.ram[f]
    decreases |ks|
  {
    LastFrame(lru, ks, f);
    hide Run, Start, InMem;
    var front := ks[..|ks| - 1];
    NowIs(lru, front, f);
    var b := Run(lru, Start(), ks).s.born[f];
    assert ks[..|ks|] == ks;
    if Run(lru, Start(), front).s.ram[f].Some? {
      BornBefore(lru, front, f);
    }
    if b < |front| {
      var m := if n == |ks| then |front| else n;
      BornIsLoad(lru, front, f, m);
      assert front[..b] == ks[..b] && front[..m] == ks[..m] && front[b] == ks[b];
    }
  }

  // --- which evictions are right -----------------------------------------------------------------------

  // The page in frame f leaves memory.
  predicate Leaves(s: State, k: Key, f: nat)
    requires Sized(s) && Lru(s, k).Next? && f < FRAMES
  {
    s.ram[f].Some? && s.ram[f] !in Lru(s, k).s.ram
  }

  // Whatever page a request makes leave memory is the one least recently accessed.
  ghost predicate RightStep(s: State, k: Key)
    requires Sized(s) && Lru(s, k).Next?
  {
    forall f: nat :: f < FRAMES && Leaves(s, k, f) ==> LeastRecent(s, f)
  }

  // So it is for every request of a run.
  ghost predicate AllRight(s: State, ks: seq<Key>)
    requires Sized(s)
    decreases |ks|
  {
    ks != [] && Lru(s, ks[0]).Next? ==> RightStep(s, ks[0]) && AllRight(Lru(s, ks[0]).s, ks[1..])
  }

  // The page that leaves is the one the search finds.
  lemma LeavesVictim(s: State, k: Key, f: nat)
    requires Placed(s) && Lru(s, k).Next? && f < FRAMES
    ensures Leaves(s, k, f) <==> Evicts(s, k) && f == ArgMin(s.stamps)
  {
    hide Find, Tabled, Filling, CaseOf, ArgMin, Restamp, Latest;
    Cases(s, k);
    CaseFrame(s, k);
    var s' := Lru(s, k).s;
    if s.ram[f].Some? && !(Evicts(s, k) && f == ArgMin(s.stamps)) {
      assert s'.ram[f] == s.ram[f];
    }
    if Evicts(s, k) && f == ArgMin(s.stamps) {
      assert s.ram[f].Some?;
      assert forall j :: 0 <= j < FRAMES ==> s'.ram[j] != s.ram[f];
    }
  }

  lemma RankedRight(s: State, k: Key)
    requires Good(true, s) && Ranked(s) && Lru(s, k).Next?
    ensures RightStep(s, k)
  {
    hide Ranked, Dated, Lru, Full, LeastRecent, CaseOf;
    forall f: nat | f < FRAMES && Leaves(s, k, f)
      ensures LeastRecent(s, f)
    {
      LeavesVictim(s, k, f);
      Cases(s, k);
      LruVictim(s);
    }
  }

  lemma FullStays(s: State, k: Key)
    requires Placed(s) && Full(s.ram) && Lru(s, k).Next?
    ensures Full(Lru(s, k).s.ram) && !CaseOf(s, k).Free?
  {
    hide Find, InMem, Distinct, Tabled, Filling, CaseOf, ArgMin, Restamp, Latest;
    Cases(s, k);
  }

  // With memory full, a ranking that holds goes on holding.
  lemma {:induction false} FullRight(s: State, ks: seq<Key>)
    requires Good(true, s) && InOrder(s) && Full(s.ram) && Ranked(s)
    ensures AllRight(s, ks)
    decreases |ks|
  {
    GoodSized(s);
    hide Placed, Dated, InOrder, Full, Ranked, Lru, CaseOf, RightStep;
    if ks != [] && Lru(s, ks[0]).Next? {
      RankedRight(s, ks[0]);
      FullStays(s, ks[0]);
      LruStepExact(s, ks[0]);
      LruGood(s, ks[0]);
      FullRight(Lru(s, ks[0]).s, ks[1..]);
    }
  }

  lemma LruGood(s: State, k: Key)
    requires Good(true, s) && InOrder(s) && Lru(s, k).Next?
    ensures Good(true, Lru(s, k).s) && InOrder(Lru(s, k).s)
  {
    GoodSized(s);
    hide Placed, Dated, InOrder, Lru;
    ServeKeeps(true, s, k) by { assert Serve(true, s, k) == Lru(s, k); }
    LruKeepsOrder(s, k);
  }

  lemma GoodSized(s: State)
    requires Good(true, s)
    ensures Sized(s)
  {
  }

  // --- a ranking that is wrong leads to a wrong eviction

  // Frame i was accessed before frame j, and the search looks at j first.
  predicate Misranked(s: State, i: nat, j: nat)
  {
    && Sized(s) && i < FRAMES && j < FRAMES && i != j
    && s.ram[i].Some? && s.ram[j].Some? && s.used[i] < s.used[j] && Before(s, j, i)
  }

  lemma {:induction false} NewPage(seen: set<Key>) returns (n: nat)
    ensures forall k :: k in seen ==> k.page < n
    decreases |seen|
  {
    if seen == {} {
      n := 0;
    } else {
      var k :| k in seen;
      n := NewPage(seen - {k});
      n := if n <= k.page then k.page + 1 else n;
    }
  }

  // A request that evicts: a new page, or, if there is no room for one, a page on disk.
  lemma EvictingRequest(s: State) returns (k: Key)
    requires Placed(s) && Full(s.ram)
    ensures Evicts(s, k)
  {
    var n := NewPage(s.seen);
    k := if Full(s.disk) then s.disk[0].value else Key(0, n);
    assert Full(s.disk) ==> InMem(s.disk, k) by { assert Full(s.disk) ==> s.disk[0] == Some(k); }
    StopsWhenFull(true, s, k);
    Cases(s, k);
    hide Find, Tabled, Filling, CaseOf, Restamp, Latest, ArgMin, Distinct;
    assert k !in s.seen || InMem(s.disk, k);
  }

  // Every other frame has a later stamp than i and j: the victim is j, and it should be i.
  lemma WrongVictim(s: State, i: nat, j: nat) returns (ks: seq<Key>)
    requires Good(true, s) && Full(s.ram) && Misranked(s, i, j)
    requires forall x :: 0 <= x < FRAMES && x != i && x != j ==> s.stamps[x] > s.stamps[i]
    ensures !AllRight(s, ks)
  {
    var k := EvictingRequest(s);
    hide Placed, Dated, Lru, CaseOf, Full;
    assert ArgMin(s.stamps) == j;
    LeavesVictim(s, k, j);
    assert !LeastRecent(s, j);
    assert !RightStep(s, k);
    ks := [k];
  }

  lemma FoundAt(s: State, m: nat)
    requires Placed(s) && m < FRAMES && s.ram[m].Some?
    ensures CaseOf(s, s.ram[m].value) == InMemory(m)
  {
    assert s.ram[m] in s.ram;
    hide Find, Tabled, Filling, Full, InMem;
  }

  lemma HitFrame(s: State, m: nat)
    requires Good(true, s) && m < FRAMES && s.ram[m].Some?
    ensures var k := s.ram[m].value;
            && Lru(s, k) == Next(Hit(s.(stamps := s.stamps[m := Latest(s.stamps) + 1]), m))
            && Good(true, Lru(s, k).s)
  {
    var k := s.ram[m].value;
    FoundAt(s, m);
    GoodSized(s);
    hide Find, Placed, Dated, Latest, CaseOf, ArgMin, Restamp;
    ServeKeeps(true, s, k) by { assert Serve(true, s, k) == Lru(s, k); }
  }

  lemma WrongCons(s: State, k: Key, rest: seq<Key>)
    requires Sized(s) && Lru(s, k).Next? && !AllRight(Lru(s, k).s, rest)
    ensures !AllRight(s, [k] + rest)
  {
    hide Lru, RightStep;
    assert ([k] + rest)[1..] == rest;
  }

  // Hit the frames from m on, apart from i and j; those before m are done.
  lemma {:induction false} HitOthers(s: State, i: nat, j: nat, m: nat) returns (ks: seq<Key>)
    requires Good(true, s) && Full(s.ram) && Misranked(s, i, j) && m <= FRAMES
    requires forall x :: 0 <= x < m && x != i && x != j ==> s.stamps[x] > s.stamps[i]
    ensures !AllRight(s, ks)
    decreases FRAMES - m
  {
    if m == FRAMES {
      ks := WrongVictim(s, i, j);
    } else if m == i || m == j {
      ks := HitOthers(s, i, j, m + 1);
    } else {
      HitFrame(s, m);
      var k := s.ram[m].value;
      hide Placed, Dated, Lru, Latest, RightStep, AllRight;
      var rest := HitOthers(Lru(s, k).s, i, j, m + 1);
      WrongCons(s, k, rest);
      ks := [k] + rest;
    }
  }

  // A new page for a free frame disturbs no pair of frames.
  lemma LoadKeepsPair(s: State, k: Key, i: nat, j: nat)
    requires Placed(s) && InOrder(s) && Misranked(s, i, j) && k !in s.seen && !Full(s.ram)
    ensures Lru(s, k).Next? && CaseOf(s, k).Free? && Misranked(Lru(s, k).s, i, j) && Lru(s, k).s.clock == s.clock + 1
  {
    Cases(s, k);
    CaseFrame(s, k);
    hide Find, Tabled, Filling, CaseOf, Restamp, Latest, ArgMin, Distinct;
    StopsWhenFull(true, s, k);
  }

  lemma {:induction false} FillMemory(s: State, i: nat, j: nat) returns (ks: seq<Key>)
    requires Good(true, s) && InOrder(s) && Misranked(s, i, j)
    ensures !AllRight(s, ks)
    decreases FRAMES - s.clock
  {
    if Full(s.ram) {
      ks := HitOthers(s, i, j, 0);
    } else {
      var n := NewPage(s.seen);
      var k := Key(0, n);
      LoadKeepsPair(s, k, i, j);
      LruGood(s, k);
      hide Placed, Dated, Lru, RightStep, AllRight, Misranked, CaseOf;
      var rest := FillMemory(Lru(s, k).s, i, j);
      WrongCons(s, k, rest);
      ks := [k] + rest;
    }
  }

  // Where the ranking is wrong, some continuation evicts the wrong page.
  lemma UnrankedGoesWrong(s: State) returns (ks: seq<Key>)
    requires Good(true, s) && InOrder(s) && !Ranked(s)
    ensures !AllRight(s, ks)
  {
    var i: nat, j: nat :| i < FRAMES && j < FRAMES && !RankedAt(s, i, j);
    assert Misranked(s, i, j);
    ks := FillMemory(s, i, j);
  }

  // With memory full: LRU evicts the page least recently accessed, whatever requests
  // come, exactly if the search ranks the frames by last access now.
  lemma LruFullExact(s: State)
    requires Good(true, s) && InOrder(s) && Full(s.ram)
    ensures (forall ks :: AllRight(s, ks)) <==> Ranked(s)
  {
    GoodSized(s);
    hide Placed, Dated, InOrder, Full, Ranked, AllRight;
    if Ranked(s) {
      forall ks
        ensures AllRight(s, ks)
      {
        FullRight(s, ks);
      }
    } else {
      var ks := UnrankedGoesWrong(s);
    }
  }

  lemma {:induction false} RunInOrder(s: State, ks: seq<Key>)
    requires Good(true, s) && InOrder(s) && Run(true, s, ks).Next?
    ensures InOrder(Run(true, s, ks).s)
    decreases |ks|
  {
    GoodSized(s);
    hide Placed, Dated, InOrder, Lru;
    if ks != [] {
      LruGood(s, ks[0]);
      RunInOrder(Lru(s, ks[0]).s, ks[1..]);
    }
  }

  // So it is for every run from the start that has filled the memory.
  lemma LruFilledExact(ks: seq<Key>)
    requires Run(true, Start(), ks).Next? && Full(Run(true, Start(), ks).s.ram)
    ensures (forall more :: AllRight(Run(true, Start(), ks).s, more)) <==> Ranked(Run(true, Start(), ks).s)
  {
    hide Run, Start, Placed, Dated, InOrder, Full, Ranked, AllRight;
    StartGood(true);
    RunKeeps(true, Start(), ks);
    RunInOrder(Start(), ks);
    LruFullExact(Run(true, Start(), ks).s);
  }

  // --- LRU over a whole run -------------------------------------------------------------------------

  // The ranking is right now and after every request.
  ghost predicate AlwaysRanked(s: State, ks: seq<Key>)
    requires Sized(s)
    decreases |ks|
  {
    Ranked(s) && (ks != [] && Lru(s, ks[0]).Next? ==> AlwaysRanked(Lru(s, ks[0]).s, ks[1..]))
  }

  // Hits since the last load of a free frame, of which there were h before.
  function HitsAfter(s: State, k: Key, h: nat): (h': nat)
    requires Sized(s)
  {
    match CaseOf(s, k)
    case InMemory(_) => h + 1
    case Free => 0
    case _ => h
  }

  // A free frame is loaded after two hits or more since the one before it was.
  predicate TwoHits(s: State, ks: seq<Key>, h: nat)
    requires Sized(s)
    decreases |ks|
  {
    && ks != [] && Lru(s, ks[0]).Next?
    && ((CaseOf(s, ks[0]).Free? && h >= 2) || TwoHits(Lru(s, ks[0]).s, ks[1..], HitsAfter(s, ks[0], h)))
  }

  // While frames are free: each load leaves the greatest stamp one below the load
  // counter, and each hit since raises it by one.
  ghost predicate Counting(s: State, h: nat)
  {
    InOrder(s) && (!Full(s.ram) ==> if s.clock == 0 then h == 0 else Latest(s.stamps) + 1 == s.clock + h)
  }

  lemma CountStep(s: State, k: Key, h: nat)
    requires Placed(s) && Counting(s, h) && Lru(s, k).Next? && !(CaseOf(s, k).Free? && h >= 2)
    ensures Counting(Lru(s, k).s, HitsAfter(s, k, h))
  {
    LruKeepsOrder(s, k);
    hide Find, InMem, Distinct, Tabled, Filling, CaseOf, ArgMin, Latest;
    Cases(s, k);
    var s' := Lru(s, k).s;
    if CaseOf(s, k).InMemory? {
      var g := CaseOf(s, k).f;
      assert s'.stamps[g] == Latest(s.stamps) + 1;
    } else if CaseOf(s, k).Free? {
      assert s'.stamps[s.clock] == s.clock;
      assert s.clock == 0 ==> forall i :: 0 <= i < FRAMES ==> s.stamps[i] == 0;
    } else {
      FullStays(s, k);
    }
  }

  lemma FreeMeans(s: State, k: Key, h: nat)
    requires Placed(s) && Counting(s, h) && CaseOf(s, k).Free?
    ensures StampsUpTo(s) <==> h < 2
  {
    hide Find, InMem, Distinct, Tabled, Filling, Latest;
    Cases(s, k);
    if h >= 2 {
      var i :| 0 <= i < FRAMES && s.stamps[i] == Latest(s.stamps);
      assert s.ram[i].Some?;
    }
  }

  lemma {:induction false} LruRunExact(s: State, ks: seq<Key>, h: nat)
    requires Good(true, s) && Ranked(s) && Counting(s, h)
    ensures AlwaysRanked(s, ks) <==> !TwoHits(s, ks, h)
    decreases |ks|
  {
    if ks != [] && Lru(s, ks[0]).Next? {
      CountsInOrder(s, h);
      hide Placed, Dated, Ranked, Lru, CaseOf, HitsAfter, Counting;
      var k, s' := ks[0], Lru(s, ks[0]).s;
      LruStepExact(s, k);
      LruGood(s, k);
      if CaseOf(s, k).Free? {
        FreeMeans(s, k, h);
      }
      if CaseOf(s, k).Free? && h >= 2 {
        assert !AlwaysRanked(s', ks[1..]);
      } else {
        CountStep(s, k, h);
        LruRunExact(s', ks[1..], HitsAfter(s, k, h));
      }
    }
  }

  lemma CountsInOrder(s: State, h: nat)
    requires Counting(s, h)
    ensures InOrder(s)
  {
  }

  // From the start: the search ranks the frames by last access after every request
  // exactly if there is never more than one hit between two loads of free frames.
  lemma LruExact(ks: seq<Key>)
    ensures AlwaysRanked(Start(), ks) <==> !TwoHits(Start(), ks, 0)
  {
    StartGood(true);
    assert Counting(Start(), 0);
    LruRunExact(Start(), ks, 0);
  }

  lemma {:induction false} AlwaysRankedRight(s: State, ks: seq<Key>)
    requires Good(true, s) && InOrder(s) && AlwaysRanked(s, ks)
    ensures AllRight(s, ks)
    decreases |ks|
  {
    GoodSized(s);
    hide Placed, Dated, InOrder, Ranked, Lru, RightStep;
    if ks != [] && Lru(s, ks[0]).Next? {
      RankedRight(s, ks[0]);
      LruGood(s, ks[0]);
      AlwaysRankedRight(Lru(s, ks[0]).s, ks[1..]);
    }
  }

  // Then every eviction of the run is right.
  lemma LruRun(ks: seq<Key>)
    requires !TwoHits(Start(), ks, 0)
    ensures AllRight(Start(), ks)
  {
    StartGood(true);
    LruExact(ks);
    AlwaysRankedRight(Start(), ks);
  }

  // Otherwise the run can go on, from where the second hit was followed by a load, to a
  // wrong eviction.
  lemma LruRunWrong(ks: seq<Key>) returns (m: nat, more: seq<Key>)
    requires TwoHits(Start(), ks, 0)
    ensures 0 < m <= |ks| && TwoHits(Start(), ks[..m], 0) && !AllRight(Start(), ks[..m] + more)
  {
    StartGood(true);
    assert Counting(Start(), 0);
    m, more := GoesWrong(Start(), ks, 0);
  }

  lemma {:induction false} GoesWrong(s: State, ks: seq<Key>, h: nat) returns (m: nat, more: seq<Key>)
    requires Good(true, s) && Ranked(s) && Counting(s, h) && TwoHits(s, ks, h)
    ensures 0 < m <= |ks| && TwoHits(s, ks[..m], h) && !AllRight(s, ks[..m] + more)
    decreases |ks|
  {
    hide *;
    GoodSized(s);
    GoodPlaced(s);
    CountsInOrder(s, h);
    TwoHitsHere(s, ks, h);
    var k, rest := ks[0], ks[1..];
    var s' := Lru(s, k).s;
    LruStepExact(s, k);
    LruGood(s, k);
    if CaseOf(s, k).Free? && h >= 2 {
      FreeMeans(s, k, h);
      more := UnrankedGoesWrong(s');
      m := 1;
      TwoHitsCons(s, k, [], h);
      WrongCons(s, k, more);
      assert ks[..1] == [k] + [] && ks[..1] + more == [k] + more;
    } else {
      if CaseOf(s, k).Free? {
        FreeMeans(s, k, h);
      }
      CountStep(s, k, h);
      m, more := GoesWrong(s', rest, HitsAfter(s, k, h));
      TwoHitsCons(s, k, rest[..m], h);
      WrongCons(s, k, rest[..m] + more);
      m := m + 1;
      assert ks[..m] == [k] + rest[..m - 1];
      assert ks[..m] + more == [k] + (rest[..m - 1] + more);
    }
  }

  lemma GoodPlaced(s: State)
    requires Good(true, s)
    ensures Placed(s) && Dated(s)
  {
  }

  lemma TwoHitsHere(s: State, ks: seq<Key>, h: nat)
    requires Sized(s) && TwoHits(s, ks, h)
    ensures ks != [] && Lru(s, ks[0]).Next?
    ensures (CaseOf(s, ks[0]).Free? && h >= 2) || TwoHits(Lru(s, ks[0]).s, ks[1..], HitsAfter(s, ks[0], h))
  {
    hide Lru, CaseOf;
  }

  lemma TwoHitsCons(s: State, k: Key, rest: seq<Key>, h: nat)
    requires Sized(s) && Lru(s, k).Next?
    requires (CaseOf(s, k).Free? && h >= 2) || TwoHits(Lru(s, k).s, rest, HitsAfter(s, k, h))
    ensures TwoHits(s, [k] + rest, h)
  {
    hide Lru, CaseOf;
    assert ([k] + rest)[1..] == rest;
  }

  // --- and where it goes wrong ---------------------------------------------------------------------

  // Page 1 asked for three times, then pages 2 to n.
  function Greedy(n: nat): (ks: seq<Key>)
  {
    if n == 0 then [Key(1, 1), Key(1, 1), Key(1, 1)] else Greedy(n - 1) + [Key(1, n + 1)]
  }

  // After that, page i + 1 is in frame i; page 1 carries the stamp of page 3.
  predicate Loaded(s: State, n: nat)
  {
    && Sized(s) && n <= FRAMES && s.clock == n && s.now == n + 2
    && (forall i :: 0 <= i < FRAMES ==> s.ram[i] == if i < n then Some(Key(1, i + 1)) else None)
    && (forall j :: 0 <= j < SLOTS ==> s.disk[j].None?)
    && (forall i :: 0 <= i < n ==> s.used[i] == i + 2 && s.stamps[i] == if i == 0 then 2 else i)
  }

  lemma LoadOne(s: State, n: nat)
    requires Loaded(s, n) && 0 < n < FRAMES
    ensures Lru(s, Key(1, n + 1)).Next? && Loaded(Lru(s, Key(1, n + 1)).s, n + 1)
  {
    hide ArgMin, Restamp, Latest;
    assert Find(s.ram, Some(Key(1, n + 1))).None?;
    assert Find(s.disk, Some(Key(1, n + 1))).None?;
    assert s.ram[n] == None;
    assert Find(s.ram, None) == Some(n);
  }

  lemma {:induction false} RunLast(lru: bool, s: State, ks: seq<Key>, k: Key)
    requires Sized(s) && Run(lru, s, ks).Next?
    ensures Run(lru, s, ks + [k]) == Serve(lru, Run(lru, s, ks).s, k)
    decreases |ks|
  {
    hide Serve;
    if ks == [] {
      assert ([] + [k])[1..] == [];
    } else {
      assert (ks + [k])[1..] == ks[1..] + [k];
      RunLast(lru, Serve(lru, s, ks[0]).s, ks[1..], k);
    }
  }

  // Page 1 alone is in memory, in frame 0, with stamp t, after n requests.
  predicate Alone(s: State, t: nat, n: nat)
  {
    && Sized(s) && s.clock == 1 && s.now == n + 1
    && (forall i :: 0 <= i < FRAMES ==> s.ram[i] == if i == 0 then Some(Key(1, 1)) else None)
    && (forall j :: 0 <= j < SLOTS ==> s.disk[j].None?)
    && s.used[0] == n && forall i :: 0 <= i < FRAMES ==> s.stamps[i] == if i == 0 then t else 0
  }

  predicate Blank(s: State)
  {
    && Sized(s) && s.clock == 0 && s.now == 0 && Empty(s.ram) && Empty(s.disk)
    && forall i :: 0 <= i < FRAMES ==> s.stamps[i] == 0
  }

  lemma StartBlank()
    ensures Blank(Start())
  {
  }

  lemma FirstLoad(s: State)
    requires Blank(s)
    ensures Lru(s, Key(1, 1)).Next? && Alone(Lru(s, Key(1, 1)).s, 0, 0)
  {
    hide Find, Latest, ArgMin, Restamp;
    assert s.ram[0] == None;
    assert Find(s.ram, None).value == 0;
  }

  lemma HitAgain(s: State, t: nat, n: nat)
    requires Alone(s, t, n)
    ensures Lru(s, Key(1, 1)).Next? && Alone(Lru(s, Key(1, 1)).s, t + 1, n + 1)
  {
    assert Find(s.ram, Some(Key(1, 1))) == Some(0);
    hide Find, Latest, ArgMin, Restamp;
    assert Latest(s.stamps) == t by { assert s.stamps[0] <= Latest(s.stamps); }
  }

  lemma AloneLoaded(s: State)
    requires Alone(s, 2, 2)
    ensures Loaded(s, 1)
  {
  }

  lemma ThreeHits()
    ensures Run(true, Start(), Greedy(0)).Next? && Loaded(Run(true, Start(), Greedy(0)).s, 1)
  {
    var k := Key(1, 1);
    assert Greedy(0) == [k] + [k] + [k];
    assert Run(true, Start(), [k]) == Lru(Start(), k) by { assert [k][1..] == []; }
    hide Run, Start, Greedy, Lru, Alone, Loaded, Blank;
    StartBlank();
    FirstLoad(Start());
    var s1 := Lru(Start(), k).s;
    HitAgain(s1, 0, 0);
    RunLast(true, Start(), [k], k);
    var s2 := Lru(s1, k).s;
    HitAgain(s2, 1, 1);
    RunLast(true, Start(), [k] + [k], k);
    AloneLoaded(Lru(s2, k).s);
  }

  lemma {:induction false} GreedyRun(n: nat)
    requires n < FRAMES
    ensures Run(true, Start(), Greedy(n)).Next? && Loaded(Run(true, Start(), Greedy(n)).s, n + 1)
  {
    hide Run, Start, Loaded, Lru, Fifo;
    if n == 0 {
      ThreeHits();
    } else {
      GreedyRun(n - 1);
      var s := Run(true, Start(), Greedy(n - 1)).s;
      RunLast(true, Start(), Greedy(n - 1), Key(1, n + 1));
      LoadOne(s, n);
    }
  }

  // Memory is full, page 1 is the least recently accessed, and page 2 will be evicted.
  lemma LruEvictsWrongPage()
    ensures Run(true, Start(), Greedy(7)).Next?
    ensures var s := Run(true, Start(), Greedy(7)).s;
            Full(s.ram) && ArgMin(s.stamps) == 1 && s.used[0] < s.used[1]
  {
    hide Run, Start, Greedy;
    GreedyRun(7);
    var s := Run(true, Start(), Greedy(7)).s;
    assert s.stamps[1] == 1 && forall i :: 0 <= i < FRAMES && i != 1 ==> s.stamps[i] > 1;
  }
}
