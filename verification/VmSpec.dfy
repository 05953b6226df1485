/**
 What the functions of xv6/vm.c do, as relations between the contents of frames
 (tables and data), who owns them, and what each directory maps; and the lemmas
 that carry these relations through the functions' loops.
 */
module VmSpec {
  import opened Basics
  import opened Blocks
  import opened Options
  import opened PageTables

  const PHYS_PAGES := 57344        // PHYSTOP / PGSIZE

  // A kernel function's result: it may also run out of memory, or panic.
  datatype Outcome<+T> = Done(value: T) | NoMemory | Panic

  // Pages that sz bytes reach into: PGROUNDUP(sz) / PGSIZE.
  function PageUp(sz: nat): (n: nat)
    ensures (n - 1) * PGSIZE < sz <= n * PGSIZE
  {
    (sz + PGSIZE - 1) / PGSIZE
  }

  // Frame f lies whole between two physical addresses.
  predicate WholePage(start: nat, end: nat, f: nat) { PageUp(start) <= f && (f + 1) * PGSIZE <= end }

  // kfree takes frames between the kernel's end and PHYSTOP.
  predicate Takes(lo: nat, f: nat) { lo <= f < PHYS_PAGES }

  // The free list and the allocated frames make up all frames, without overlap.
  ghost predicate Shared(free: seq<nat>, o: Owner, all: set<nat>, lo: nat)
  {
    && 0 < lo && Distinct(free)
    && (forall f :: f in all <==> f in free || f in o)
    && (forall f :: f in o ==> f !in free)
    && (forall f :: f in all ==> Takes(lo, f))
  }

  // Every user page has contents.
  ghost predicate Filled(o: Owner, data: map<nat, seq<byte>>)
  {
    forall f :: f in o && o[f].Page? ==> f in data
  }

  // The contents of user pages are the same.
  ghost predicate SameData(o: Owner, data: map<nat, seq<byte>>, data': map<nat, seq<byte>>)
  {
    forall f :: f in o && o[f].Page? && f in data ==> f in data' && data'[f] == data[f]
  }

  // o' has the frames of o, used alike, and maybe new tables of d.
  ghost predicate GrewTables(o: Owner, o': Owner, d: nat)
  {
    && (forall f :: f in o ==> f in o' && o'[f] == o[f])
    && (forall f :: f in o' && f !in o ==> o'[f].Table? && o'[f].dir == d)
  }

  // Directory d has lost pages [a, b); nothing else has changed.
  ghost predicate Unmapped(t: Tables, t': Tables, o: Owner, d: nat, a: nat, b: nat)
  {
    forall e, v: nat :: IsDir(o, e) ==>
      Lookup(t', e, v) == if e == d && a <= v < b then Absent else Lookup(t, e, v)
  }

  // Directory d has gained pages [first, first + k), at consecutive frames from pa.
  ghost predicate Mapped(t: Tables, t': Tables, o: Owner, d: nat, first: nat, k: nat, pa: nat, w: bool, u: bool)
  {
    forall e, v: nat :: IsDir(o, e) ==>
      Lookup(t', e, v) ==
        if e == d && first <= v < first + k then Present(pa + (v - first), w, u) else Lookup(t, e, v)
  }

  // Frame f was given to one of the user pages among [first, first + k).
  predicate GivenTo(first: nat, k: nat, pa: nat, f: nat) { pa <= f < pa + k && first + (f - pa) < UPAGES }

  ghost predicate Given(o: Owner, o': Owner, d: nat, first: nat, k: nat, pa: nat)
  {
    && (forall f :: f in o && GivenTo(first, k, pa, f) ==> o[f].Loose?)
    && (forall f :: f in o ==> f in o' && o'[f] == if GivenTo(first, k, pa, f) then Page(d, first + (f - pa)) else o[f])
    && (forall f :: f in o' && f !in o ==> o'[f].Table? && o'[f].dir == d)
  }

  // Pages [a, b) of d are not mapped.
  ghost predicate Clear(t: Tables, d: nat, a: nat, b: nat)
  {
    forall v: nat :: a <= v < b ==> Lookup(t, d, v).Absent?
  }

  // There is a loose frame with contents for each user page among [first, first + n).
  ghost predicate Backed(o: Owner, data: map<nat, seq<byte>>, first: nat, n: nat, pa: nat)
  {
    forall f :: GivenTo(first, n, pa, f) ==> f in o && o[f].Loose? && f in data
  }

  lemma NewTableFacts(free: seq<nat>, t: Tables, o: Owner, all: set<nat>, lo: nat, data: map<nat, seq<byte>>,
                      d: nat, i: nat, f: nat)
    requires Inv(t, o) && Filled(o, data) && IsDir(o, d) && IsTable(t, d) && i < NENTRIES && t[d][i].Absent? && f !in o
    requires Shared(free, o[f := Loose], all, lo)
    ensures |Blank()| == NENTRIES && f != d
    ensures var t', o' := t[f := Blank()][d := t[d][i := Present(f, true, true)]], o[f := Loose][f := Table(d, i)];
            && Shared(free, o', all, lo) && Inv(t', o') && Filled(o', data)
            && SameMaps(t, t', o) && GrewTables(o, o', d) && IsTable(t', d) && IsTable(t', f)
            && t[f := Blank()][d] == t[d] && t'[d][i] == Present(f, true, true)
  {
    LooseFrame(t, o, f);
    LinkLooks(t, o[f := Loose], d, i, f);
    LinkKeeps(t, o[f := Loose], d, i, f);
    LinkTables(t, d, i, f);
    hide Inv, Lookup, Blank;
  }

  // What walkpgdir's two indexings compute.
  lemma LookIs(t: Tables, d: nat, v: nat)
    requires IsTable(t, d) && v < VPAGES
    ensures var e := t[d][Pdx(v)];
            && (e.Present? && IsTable(t, e.frame) ==> e.frame in t && Ptx(v) < |t[e.frame]|)
            && Lookup(t, d, v) == if e.Present? && IsTable(t, e.frame) then t[e.frame][Ptx(v)] else Absent
  {
  }

  lemma MapStart(t: Tables, o: Owner, d: nat, first: nat, pa: nat, w: bool, u: bool)
    ensures Mapped(t, t, o, d, first, 0, pa, w, u) && Given(o, o, d, first, 0, pa) && Clear(t, d, first, first)
  {
  }

  lemma MapNext(t0: Tables, o0: Owner, data: map<nat, seq<byte>>, t: Tables, o: Owner,
                d: nat, first: nat, k: nat, n: nat, pa: nat, w: bool, u: bool)
    requires Mapped(t0, t, o0, d, first, k, pa, w, u) && Given(o0, o, d, first, k, pa) && IsDir(o0, d)
    requires Backed(o0, data, first, n, pa) && k < n && Clear(t0, d, first, first + k)
    ensures IsDir(o, d) && Lookup(t, d, first + k) == Lookup(t0, d, first + k)
    ensures first + k < UPAGES ==> pa + k in o && o[pa + k].Loose? && pa + k in data
    ensures Lookup(t, d, first + k).Absent? ==> Clear(t0, d, first, first + k + 1)
  {
    hide Lookup;
    assert first + k < UPAGES ==> GivenTo(first, n, pa, pa + k);
  }

  lemma MapMore(t0: Tables, o0: Owner, t: Tables, o: Owner, t': Tables, o': Owner,
                d: nat, first: nat, k: nat, pa: nat, w: bool, u: bool)
    requires Mapped(t0, t, o0, d, first, k, pa, w, u) && Given(o0, o, d, first, k, pa)
    requires SameMaps(t, t', o) && GrewTables(o, o', d)
    ensures Mapped(t0, t', o0, d, first, k, pa, w, u) && Given(o0, o', d, first, k, pa)
  {
    hide Lookup;
  }

  lemma MapOnly(t0: Tables, o0: Owner, t: Tables, o: Owner, t': Tables, o': Owner,
                d: nat, a: nat, p: nat, w: bool, u: bool)
    requires SameMaps(t0, t, o0) && GrewTables(o0, o, d)
    requires OnePage(t, t', o, d, a, Present(p, w, u))
    requires o' == if a < UPAGES then o[p := Page(d, a)] else o
    requires a < UPAGES ==> p in o0 && o0[p].Loose?
    ensures Mapped(t0, t', o0, d, a, 1, p, w, u) && Given(o0, o', d, a, 1, p)
  {
    hide Lookup;
  }

  lemma MapStep(t0: Tables, o0: Owner, t: Tables, o: Owner, t': Tables, o': Owner,
                d: nat, first: nat, k: nat, pa: nat, w: bool, u: bool)
    requires Mapped(t0, t, o0, d, first, k, pa, w, u) && Given(o0, o, d, first, k, pa)
    requires Mapped(t, t', o, d, first + k, 1, pa + k, w, u) && Given(o, o', d, first + k, 1, pa + k)
    ensures Mapped(t0, t', o0, d, first, k + 1, pa, w, u) && Given(o0, o', d, first, k + 1, pa)
  {
    hide Lookup;
  }

  // --- taking pages away -----------------------------------------------------------------

  // Pages [a, b) of d are gone, from the map and from the books; all else is as before.
  ghost predicate Dropped(t0: Tables, o0: Owner, t: Tables, o: Owner, d: nat, a: nat, b: nat)
  {
    o == WithoutPages(o0, d, a, b) && Unmapped(t0, t, o0, d, a, b)
  }

  lemma PageUps(newsz: nat, oldsz: nat)
    requires newsz < oldsz <= KERNBASE
    ensures PageUp(newsz) <= PageUp(oldsz) <= UPAGES < VPAGES
  {
  }

  lemma DropFacts(free: seq<nat>, t: Tables, o: Owner, all: set<nat>, lo: nat, data: map<nat, seq<byte>>, d: nat, a: nat)
    requires Shared(free, o, all, lo) && Inv(t, o) && Filled(o, data) && IsDir(o, d) && IsTable(t, d) && a < UPAGES
    requires t[d][Pdx(a)].Present? && Lookup(t, d, a).Present?
    ensures var s, f := t[d][Pdx(a)].frame, Lookup(t, d, a).frame;
            && IsTable(t, s) && s in t - {f} && |(t - {f})[s]| == NENTRIES && (t - {f})[s] == t[s]
            && t[s][Ptx(a)] == Lookup(t, d, a) && f in o && o[f] == Page(d, a) && f in all && f !in free && f != 0 && Takes(lo, f)
            && var t' := (t - {f})[s := t[s][Ptx(a) := Absent]];
               Inv(t', o - {f}) && OnePage(t, t', o, d, a, Absent)
  {
    UnmapKeeps(t, o, d, a);
    TableOf(t, o, d, Pdx(a));
  }

  lemma DropDone(free: seq<nat>, o': Owner, o: Owner, all': set<nat>, all: set<nat>, lo: nat, data: map<nat, seq<byte>>, f: nat)
    requires f in o && f in all && Filled(o, data) && all' == all + {f} && o' == o - {f} && Shared(free, o', all', lo)
    ensures Shared(free, o', all, lo) && all' == all && Filled(o', data - {f}) && SameData(o', data, data - {f})
  {
  }

  lemma DropStart(t: Tables, o: Owner, data: map<nat, seq<byte>>, d: nat, a: nat)
    ensures Dropped(t, o, t, o, d, a, a) && SameData(o, data, data)
  {
    assert WithoutPages(o, d, a, a) == o;
  }

  lemma DropNext(t0: Tables, o0: Owner, t: Tables, o: Owner, d: nat, a: nat, b: nat)
    requires Dropped(t0, o0, t, o, d, a, b) && IsDir(o0, d)
    ensures IsDir(o, d)
  {
  }

  // Pages that were not mapped need no work.
  lemma DropNone(t0: Tables, o0: Owner, t: Tables, o: Owner, d: nat, a: nat, b: nat, c: nat)
    requires Dropped(t0, o0, t, o, d, a, b) && Inv(t, o) && Clear(t, d, b, c) && a <= b <= c && IsDir(o0, d)
    ensures Dropped(t0, o0, t, o, d, a, c)
  {
    forall f | f in o0
      ensures PageIn(o0, d, a, b, f) <==> PageIn(o0, d, a, c, f)
    {
      assert UseAt(t, o, f);
    }
    hide Lookup, Inv;
    assert WithoutPages(o0, d, a, c) == WithoutPages(o0, d, a, b);
  }

  lemma DropOne(t0: Tables, o0: Owner, t: Tables, o: Owner, d: nat, a: nat, b: nat)
    requires Dropped(t0, o0, t, o, d, a, b) && Inv(t, o) && Lookup(t, d, b).Absent? && a <= b && IsDir(o0, d)
    ensures Dropped(t0, o0, t, o, d, a, b + 1)
  {
    assert Clear(t, d, b, b + 1);
    DropNone(t0, o0, t, o, d, a, b, b + 1);
  }

  // The first page of the next table.
  function NextTable(a: nat): (b: nat)
    ensures a < b
  {
    (a / NENTRIES + 1) * NENTRIES
  }

  // A missing table means a whole stretch of unmapped pages.
  lemma SkipTable(t0: Tables, o0: Owner, t: Tables, o: Owner, d: nat, a: nat, b: nat, end: nat)
    requires Dropped(t0, o0, t, o, d, a, b) && Inv(t, o) && IsDir(o0, d) && IsTable(t, d) && a <= b < end <= UPAGES
    requires t[d][Pdx(b)].Absent?
    ensures Dropped(t0, o0, t, o, d, a, if NextTable(b) < end then NextTable(b) else end)
  {
    var e := NextTable(b);
    assert forall v: nat :: b <= v < e ==> v / NENTRIES == b / NENTRIES;
    assert Clear(t, d, b, e);
    DropNone(t0, o0, t, o, d, a, b, if e < end then e else end);
  }

  lemma DropStep(t0: Tables, o0: Owner, t: Tables, o: Owner, t': Tables, o': Owner, d: nat, a: nat, b: nat,
                 data0: map<nat, seq<byte>>, data: map<nat, seq<byte>>, data': map<nat, seq<byte>>)
    requires Dropped(t0, o0, t, o, d, a, b) && Inv(t, o) && IsDir(o0, d) && a <= b < UPAGES && Lookup(t, d, b).Present?
    requires var f := Lookup(t, d, b).frame; f in o && o[f] == Page(d, b) && o' == o - {f}
    requires OnePage(t, t', o, d, b, Absent) && SameData(o', data, data') && SameData(o, data0, data)
    ensures Dropped(t0, o0, t', o', d, a, b + 1) && SameData(o', data0, data')
  {
    var f := Lookup(t, d, b).frame;
    forall g | g in o0
      ensures PageIn(o0, d, a, b + 1, g) <==> PageIn(o0, d, a, b, g) || g == f
    {
      assert UseAt(t, o, g);
    }
    hide Lookup, Inv;
    assert WithoutPages(o0, d, a, b + 1) == WithoutPages(o0, d, a, b) - {f};
  }

  lemma LooseFacts(free: seq<nat>, t: Tables, o: Owner, all: set<nat>, lo: nat, f: nat)
    requires Shared(free, o, all, lo) && Inv(t, o) && f in o && o[f].Loose?
    ensures f in all && f !in free && Takes(lo, f) && Inv(t - {f}, o - {f}) && SameMaps(t, t - {f}, o)
  {
    LooseKeeps(t, o, f);
    ForgetLooks(t, o, f);
  }

  // --- giving up a directory ---------------------------------------------------------------

  lemma NoSize()
    ensures PageUp(0) == 0 && PageUp(KERNBASE) == UPAGES && 0 < KERNBASE && 0 < NENTRIES
  {
  }

  // The tables of directory d below i have been freed; d and the rest of its tables
  // are loose.
  function GivenUp(o: Owner, d: nat, i: nat): (o': Owner)
  {
    map f | f in o && !(o[f].Table? && o[f].dir == d && o[f].i < i) :: if Belongs(o, d, f) then Loose else o[f]
  }

  ghost predicate OthersSame(t: Tables, t': Tables, o: Owner, d: nat)
  {
    forall e, v: nat :: IsDir(o, e) && e != d ==> Lookup(t', e, v) == Lookup(t, e, v)
  }

  ghost predicate Freeing(t0: Tables, o0: Owner, t: Tables, o: Owner, d: nat, i: nat)
  {
    && Inv(t0, o0) && IsDir(o0, d) && IsTable(t0, d) && IsTable(t, d) && t[d] == t0[d]
    && (forall f :: f in o0 && o0[f].Page? ==> o0[f].dir != d)
    && o == GivenUp(o0, d, i) && OthersSame(t0, t, o0, d)
  }

  lemma FreeStart(t0: Tables, o0: Owner, t: Tables, o: Owner, data: map<nat, seq<byte>>, d: nat,
                  free: seq<nat>, all: set<nat>, lo: nat)
    requires Dropped(t0, o0, t, o, d, 0, UPAGES) && Inv(t, o) && Inv(t0, o0) && IsDir(o0, d) && Filled(o, data)
    requires Shared(free, o, all, lo)
    ensures Inv(t, Disowned(o, d)) && Freeing(t, o, t, Disowned(o, d), d, 0) && Filled(Disowned(o, d), data)
    ensures Shared(free, Disowned(o, d), all, lo) && SameData(Disowned(o, d), data, data)
  {
    DisownKeeps(t, o, d);
    assert UseAt(t, o, d);
    forall f | f in o && o[f].Page?
      ensures o[f].dir != d
    {
      assert UseAt(t0, o0, f);
    }
    hide Inv, Lookup;
    assert Disowned(o, d) == GivenUp(o, d, 0);
  }

  // The entry the loop looks at: a loose table, or nothing to do.
  lemma FreeNext(t0: Tables, o0: Owner, t: Tables, o: Owner, d: nat, i: nat)
    requires Freeing(t0, o0, t, o, d, i) && i < NENTRIES
    ensures d in t && i < |t[d]|
    ensures t[d][i].Present? ==> t[d][i].frame in o && o[t[d][i].frame].Loose?
    ensures t[d][i].Absent? ==> Freeing(t0, o0, t, o, d, i + 1)
  {
    assert DirAt(t0, o0, d, i);
    forall f | f in o0
      ensures t[d][i].Absent? ==> o0[f] != Table(d, i)
    {
      assert UseAt(t0, o0, f);
    }
    hide Lookup, Inv;
    assert t[d][i].Absent? ==> GivenUp(o0, d, i) == GivenUp(o0, d, i + 1);
  }

  lemma FreeStep(t0: Tables, o0: Owner, t: Tables, o: Owner, t': Tables, o': Owner, d: nat, i: nat,
                 data0: map<nat, seq<byte>>, data: map<nat, seq<byte>>, data': map<nat, seq<byte>>)
    requires Freeing(t0, o0, t, o, d, i) && i < NENTRIES && t[d][i].Present?
    requires var f := t[d][i].frame; o' == o - {f} && t' == t - {f} && SameMaps(t, t', o)
    requires SameData(o, data0, data) && SameData(o', data, data')
    ensures Freeing(t0, o0, t', o', d, i + 1) && SameData(o', data0, data')
  {
    var f := t[d][i].frame;
    TableOf(t0, o0, d, i);
    forall g | g in o0
      ensures o0[g] == Table(d, i) <==> g == f
    {
      assert UseAt(t0, o0, g);
    }
    hide Lookup, Inv;
    assert GivenUp(o0, d, i + 1) == GivenUp(o0, d, i) - {f};
    assert forall e :: IsDir(o0, e) && e != d ==> IsDir(o, e);
  }

  lemma FreeLast(t0: Tables, o0: Owner, t: Tables, o: Owner, d: nat)
    requires Freeing(t0, o0, t, o, d, NENTRIES)
    ensures d in o && o[d].Loose?
  {
  }

  lemma FreeDone(t0: Tables, o0: Owner, t: Tables, o: Owner, t1: Tables, o1: Owner, t2: Tables, o2: Owner, d: nat,
                 data0: map<nat, seq<byte>>, data: map<nat, seq<byte>>, data1: map<nat, seq<byte>>, data2: map<nat, seq<byte>>)
    requires Dropped(t0, o0, t, o, d, 0, UPAGES) && IsDir(o0, d) && Inv(t0, o0)
    requires Freeing(t, o, t1, o1, d, NENTRIES)
    requires o2 == o1 - {d} && SameMaps(t1, t2, o1)
    requires SameData(o, data0, data) && SameData(o1, data, data1) && SameData(o2, data1, data2)
    ensures o2 == WithoutSpace(o0, d) && SameMaps(t0, t2, o2) && SameData(o2, data0, data2)
  {
    forall f | f in o0
      ensures f in o2 <==> !Belongs(o0, d, f)
    {
      assert UseAt(t0, o0, f);
      assert UseAt(t, o, f);
    }
    hide Lookup, Inv;
    assert o2 == WithoutSpace(o0, d);
    assert forall e :: IsDir(o2, e) ==> IsDir(o1, e) && IsDir(o, e) && IsDir(o0, e) && e != d;
  }

  // --- the kernel's part of every address space ------------------------------------------

  datatype Region = Region(first: nat, last: nat, pa: nat, w: bool)

  // text is the first page after the kernel's code.
  predicate KernelText(text: nat) { UPAGES + 256 < text < UPAGES + PHYS_PAGES }

  // I/O space, kernel code, kernel data and free memory, devices.
  function Kmap(text: nat): (m: seq<Region>)
    requires KernelText(text)
    ensures |m| == 4
  {
    [Region(UPAGES, UPAGES + 255, 0, true),
     Region(UPAGES + 256, text - 1, 256, false),
     Region(text, UPAGES + PHYS_PAGES - 1, text - UPAGES, true),
     Region(0xFE000, VPAGES - 1, 0xFE000, true)]
  }

  // What the first k regions make of page v.
  function KernelEntry(text: nat, k: nat, v: nat): (e: Entry)
    requires KernelText(text) && k <= 4
  {
    if k == 0 then Absent
    else
      var m := Kmap(text)[k - 1];
      if m.first <= v <= m.last then Present(m.pa + (v - m.first), m.w, false) else KernelEntry(text, k - 1, v)
  }

  // The regions do not overlap, and end inside the address space.
  lemma RegionFits(text: nat, k: nat, o: Owner, data: map<nat, seq<byte>>)
    requires KernelText(text) && k < 4
    ensures var m := Kmap(text)[k];
            && UPAGES <= m.first <= m.last < VPAGES && Backed(o, data, m.first, m.last - m.first + 1, m.pa)
            && forall v: nat :: m.first <= v <= m.last ==> KernelEntry(text, k, v).Absent?
  {
    assert k == 0 || k == 1 || k == 2 || k == 3;
    assert forall v: nat :: KernelEntry(text, 0, v).Absent?;
    assert forall v: nat :: v >= UPAGES + 256 ==> KernelEntry(text, 1, v).Absent?;
    assert forall v: nat :: v >= text ==> KernelEntry(text, 2, v).Absent?;
    assert forall v: nat :: v >= UPAGES + PHYS_PAGES ==> KernelEntry(text, 3, v).Absent?;
  }

  // o has the frames of o0, used alike, and beyond them only what belongs to the new d.
  ghost predicate OnlyNew(o0: Owner, o: Owner, d: nat)
  {
    && d !in o0
    && (forall f :: f in o0 ==> f in o && o[f] == o0[f])
    && (forall f :: f in o && f !in o0 ==> Belongs(o, d, f))
  }

  // d is a new directory with the first k regions; only it and its tables are new.
  ghost predicate Kernel(t0: Tables, o0: Owner, t: Tables, o: Owner, d: nat, text: nat, k: nat)
    requires KernelText(text) && k <= 4
  {
    && d !in o0 && IsDir(o, d) && GrewTables(o0[d := Dir], o, d) && SameMaps(t0, t, o0)
    && forall v: nat :: Lookup(t, d, v) == KernelEntry(text, k, v)
  }

  // The kernel's pages: physical memory from KERNBASE on, each page at its own distance,
  // writable but for the kernel's code; device pages at their own addresses; nothing for
  // the user, and nothing else.
  lemma KernelLayout(t0: Tables, o0: Owner, t: Tables, o: Owner, d: nat, text: nat, v: nat)
    requires KernelText(text) && Kernel(t0, o0, t, o, d, text, 4)
    ensures Lookup(t, d, v) ==
            if 0x80000 <= v < 0x80000 + 0xE000 then Present(v - 0x80000, !(0x80100 <= v < text), false)
            else if 0xFE000 <= v < 0x100000 then Present(v, true, false)
            else Absent
  {
    hide Lookup;
    assert Lookup(t, d, v) == KernelEntry(text, 4, v);
    assert KernelEntry(text, 1, v) == if 0x80000 <= v < 0x80100 then Present(v - 0x80000, true, false) else Absent;
    assert KernelEntry(text, 2, v) == if 0x80100 <= v < text then Present(v - 0x80000, false, false) else KernelEntry(text, 1, v);
  }

  lemma SameStart(t: Tables, o: Owner, data: map<nat, seq<byte>>)
    ensures SameMaps(t, t, o) && SameData(o, data, data)
  {
  }

  lemma KernelStart(free: seq<nat>, t: Tables, o: Owner, all: set<nat>, lo: nat, data: map<nat, seq<byte>>, d: nat, text: nat)
    requires Inv(t, o) && d !in o && Filled(o, data) && KernelText(text) && Shared(free, o[d := Loose], all, lo)
    ensures var t', o' := t[d := Blank()], o[d := Loose][d := Dir];
            && Shared(free, o', all, lo) && Inv(t', o') && Filled(o', data) && Kernel(t, o, t', o', d, text, 0)
    ensures d != 0
  {
    LooseFrame(t, o, d);
    NewDir(t, o[d := Loose], d);
    hide Inv, Lookup;
    assert o[d := Loose][d := Dir] == o[d := Dir];
    assert forall e :: IsDir(o, e) ==> IsDir(o[d := Loose], e);
  }

  lemma KernelDir(t0: Tables, o0: Owner, t: Tables, o: Owner, d: nat, text: nat, k: nat)
    requires KernelText(text) && k < 4 && Kernel(t0, o0, t, o, d, text, k)
    ensures IsDir(o, d)
    ensures forall v: nat :: Kmap(text)[k].first <= v <= Kmap(text)[k].last ==> Lookup(t, d, v).Absent?
  {
    RegionFits(text, k, o, map[]);
    hide Lookup, Kmap;
  }

  // A region partly or wholly mapped.
  lemma KernelStep(t0: Tables, o0: Owner, t: Tables, o: Owner, t': Tables, o': Owner, d: nat, text: nat, k: nat, n: nat)
    requires KernelText(text) && k < 4 && Kernel(t0, o0, t, o, d, text, k)
    requires var m := Kmap(text)[k];
             && n <= m.last - m.first + 1 && Mapped(t, t', o, d, m.first, n, m.pa, m.w, false)
             && Given(o, o', d, m.first, n, m.pa)
    ensures IsDir(o', d) && OnlyNew(o0, o', d) && SameMaps(t0, t', o0) && d !in o0 && GrewTables(o0[d := Dir], o', d)
    ensures n == Kmap(text)[k].last - Kmap(text)[k].first + 1 ==> Kernel(t0, o0, t', o', d, text, k + 1)
  {
    RegionFits(text, k, o, map[]);
    hide Lookup, Kmap, KernelText;
    assert forall e :: IsDir(o0, e) ==> IsDir(o, e) && e != d;
    assert forall f :: !GivenTo(Kmap(text)[k].first, n, Kmap(text)[k].pa, f);
  }

  lemma SpaceUndone(t0: Tables, o0: Owner, t: Tables, o: Owner, t': Tables, o': Owner, d: nat,
                     data: map<nat, seq<byte>>, data': map<nat, seq<byte>>)
    requires Inv(t0, o0) && OnlyNew(o0, o, d) && SameMaps(t0, t, o0)
    requires o' == WithoutSpace(o, d) && SameMaps(t, t', o') && SameData(o', data, data')
    ensures o' == o0 && SameMaps(t0, t', o0) && SameData(o0, data, data')
  {
    forall f | f in o0
      ensures !Belongs(o, d, f)
    {
      assert UseAt(t0, o0, f);
    }
    hide Inv, Lookup;
    assert o' == o0;
  }

  lemma SameKernel(t0: Tables, o0: Owner, t: Tables, o: Owner, d: nat, text: nat, k: nat, data: map<nat, seq<byte>>)
    requires KernelText(text) && k <= 4 && Kernel(t0, o0, t, o, d, text, k)
    ensures SameMaps(t0, t, o0) && SameData(o0, data, data)
  {
  }

  // --- counting pages -------------------------------------------------------------------

  predicate UserPage(t: Tables, d: nat, v: nat) { Lookup(t, d, v).Present? && Lookup(t, d, v).u }

  // The pages below n that are present and open to the user.
  function UserPages(t: Tables, d: nat, n: nat): (s: set<nat>)
  {
    set v: nat | v < n && UserPage(t, d, v)
  }

  lemma NoPages(t: Tables, d: nat)
    ensures |UserPages(t, d, 0)| == 0
  {
    assert UserPages(t, d, 0) == {};
  }

  lemma CountOne(t: Tables, d: nat, i: nat, j: nat)
    requires IsTable(t, d) && i < NENTRIES && j < NENTRIES && t[d][i].Present? && IsTable(t, t[d][i].frame)
    ensures var n, e := i * NENTRIES + j, t[t[d][i].frame][j];
            |UserPages(t, d, n + 1)| == |UserPages(t, d, n)| + if e.Present? && e.u then 1 else 0
  {
    var n := i * NENTRIES + j;
    assert Pdx(n) == i && Ptx(n) == j;
    assert UserPages(t, d, n + 1) == UserPages(t, d, n) + if UserPage(t, d, n) then {n} else {};
  }

  lemma CountNone(t: Tables, d: nat, i: nat)
    requires IsTable(t, d) && i < NENTRIES && t[d][i].Absent?
    ensures UserPages(t, d, (i + 1) * NENTRIES) == UserPages(t, d, i * NENTRIES)
  {
    assert forall v: nat :: i * NENTRIES <= v < (i + 1) * NENTRIES ==> v / NENTRIES == i;
  }

  // --- growing a process --------------------------------------------------------------------

  function ZeroPage(): (p: seq<byte>)
  {
    seq(PGSIZE, _ => 0)
  }

  lemma PageUpTo(oldsz: nat, newsz: nat)
    requires oldsz <= newsz < KERNBASE
    ensures PageUp(oldsz) <= PageUp(newsz) <= UPAGES
  {
  }

  lemma UndoSizes(oldsz: nat, newsz: nat, a: nat)
    requires PageUp(oldsz) <= a < PageUp(newsz) && newsz < KERNBASE
    ensures oldsz < newsz <= KERNBASE
  {
  }

  // Pages [a, b) of d are new: zeroed, writable, open to the user, in frames of their own.
  ghost predicate Grown(t0: Tables, o0: Owner, t: Tables, o: Owner, data: map<nat, seq<byte>>, d: nat, a: nat, b: nat)
  {
    && (forall e, v: nat :: IsDir(o0, e) && !(e == d && a <= v < b) ==> Lookup(t, e, v) == Lookup(t0, e, v))
    && (forall v: nat :: a <= v < b ==> NewPage(o0, data, Lookup(t, d, v)))
    && (forall f :: f in o0 ==> f in o && o[f] == o0[f])
    && (forall f :: f in o && f !in o0 ==>
          (o[f].Table? && o[f].dir == d) || (o[f].Page? && o[f].dir == d && a <= o[f].v < b))
  }

  predicate NewPage(o0: Owner, data: map<nat, seq<byte>>, e: Entry)
  {
    e.Present? && e.w && e.u && e.frame !in o0 && e.frame in data && data[e.frame] == ZeroPage()
  }

  // Pages [a, b) of d are gone, with their frames; tables of d may have come.
  ghost predicate ShrunkBack(t0: Tables, o0: Owner, data0: map<nat, seq<byte>>, t: Tables, o: Owner, data: map<nat, seq<byte>>,
                             d: nat, a: nat, b: nat)
  {
    && Unmapped(t0, t, o0, d, a, b) && GrewTables(WithoutPages(o0, d, a, b), o, d)
    && SameData(WithoutPages(o0, d, a, b), data0, data)
  }

  // So a failed allocuvm leaves every map and every page as it was exactly if there was
  // nothing mapped where it meant to grow.
  lemma FailedAllocRestores(t0: Tables, o0: Owner, data0: map<nat, seq<byte>>, t: Tables, o: Owner, data: map<nat, seq<byte>>,
                            d: nat, a: nat, b: nat)
    requires Inv(t0, o0) && IsDir(o0, d) && b <= UPAGES && ShrunkBack(t0, o0, data0, t, o, data, d, a, b)
    ensures SameMaps(t0, t, o0) <==> Clear(t0, d, a, b)
    ensures (forall f :: f in o0 ==> f in o && o[f] == o0[f]) <==> Clear(t0, d, a, b)
    ensures Clear(t0, d, a, b) ==> GrewTables(o0, o, d) && SameData(o0, data0, data)
  {
    if Clear(t0, d, a, b) {
      forall f | f in o0
        ensures !PageIn(o0, d, a, b, f)
      {
        assert UseAt(t0, o0, f);
      }
      assert WithoutPages(o0, d, a, b) == o0;
      hide Lookup, Inv;
    } else {
      var v: nat :| a <= v < b && !Lookup(t0, d, v).Absent?;
      assert PageAt(t0, o0, d, v);
      var f := Lookup(t0, d, v).frame;
      assert PageIn(o0, d, a, b, f);
      assert Lookup(t, d, v) != Lookup(t0, d, v);
      hide Lookup, Inv;
    }
  }

  ghost predicate Fresh(t0: Tables, o0: Owner, data0: map<nat, seq<byte>>, t: Tables, o: Owner, data: map<nat, seq<byte>>,
                        d: nat, a: nat, f: nat, page: seq<byte>, w: bool, u: bool)
  {
    && f !in o0 && Mapped(t0, t, o0, d, a, 1, f, w, u) && data == data0[f := page]
    && f in o && o[f] == Page(d, a) && GrewTables(o0, o - {f}, d)
  }

  ghost predicate Missed(t0: Tables, o0: Owner, data0: map<nat, seq<byte>>, t: Tables, o: Owner, data: map<nat, seq<byte>>,
                         d: nat, mem: Option<nat>, page: seq<byte>)
  {
    && SameMaps(t0, t, o0)
    && (mem.None? ==> GrewTables(o0, o, d) && data == data0)
    && (mem.Some? ==> mem.value !in o0 && GrewTables(o0[mem.value := Loose], o, d) && data == data0[mem.value := page])
  }

  lemma MissNone(t: Tables, o: Owner, data: map<nat, seq<byte>>, d: nat, page: seq<byte>)
    ensures Missed(t, o, data, t, o, data, d, None, page)
  {
  }

  lemma AllocFacts(free: seq<nat>, t: Tables, o: Owner, all: set<nat>, lo: nat, data: map<nat, seq<byte>>,
                   d: nat, a: nat, f: nat, page: seq<byte>)
    requires Inv(t, o) && f !in o && Filled(o, data) && Shared(free, o[f := Loose], all, lo) && IsDir(o, d) && a < UPAGES
    ensures Inv(t, o[f := Loose]) && Filled(o[f := Loose], data[f := page]) && IsDir(o[f := Loose], d)
    ensures Backed(o[f := Loose], data[f := page], a, 1, f) && a < VPAGES
  {
    LooseFrame(t, o, f);
  }

  lemma FreshFacts(t0: Tables, o0: Owner, data: map<nat, seq<byte>>, t: Tables, o: Owner, d: nat, a: nat, f: nat,
                   page: seq<byte>, w: bool, u: bool)
    requires f !in o0 && a < UPAGES && Mapped(t0, t, o0[f := Loose], d, a, 1, f, w, u)
    requires Given(o0[f := Loose], o, d, a, 1, f) && Clear(t0, d, a, a + 1)
    ensures Lookup(t0, d, a).Absent?
    ensures Fresh(t0, o0, data, t, o, data[f := page], d, a, f, page, w, u)
  {
    hide Lookup;
    assert GivenTo(a, 1, f, f);
    assert forall e :: IsDir(o0, e) ==> IsDir(o0[f := Loose], e);
  }

  lemma MissSome(t0: Tables, o0: Owner, data: map<nat, seq<byte>>, t: Tables, o: Owner, d: nat, a: nat, f: nat,
                 page: seq<byte>, w: bool, u: bool)
    requires f !in o0 && Mapped(t0, t, o0[f := Loose], d, a, 0, f, w, u) && Given(o0[f := Loose], o, d, a, 0, f)
    ensures f in o && o[f].Loose? && Missed(t0, o0, data, t, o, data[f := page], d, Some(f), page)
  {
    hide Lookup;
    assert forall e :: IsDir(o0, e) ==> IsDir(o0[f := Loose], e);
  }

  lemma MissDir(t0: Tables, o0: Owner, data0: map<nat, seq<byte>>, t: Tables, o: Owner, data: map<nat, seq<byte>>,
                d: nat, mem: Option<nat>, page: seq<byte>)
    requires IsDir(o0, d) && Missed(t0, o0, data0, t, o, data, d, mem, page)
    ensures IsDir(o, d)
  {
  }

  lemma GrowStart(t: Tables, o: Owner, data: map<nat, seq<byte>>, d: nat, a: nat)
    ensures Grown(t, o, t, o, data, d, a, a) && Clear(t, d, a, a) && SameData(o, data, data)
  {
  }

  lemma GrowNext(t0: Tables, o0: Owner, t: Tables, o: Owner, data: map<nat, seq<byte>>, d: nat, a: nat, b: nat, end: nat)
    requires Grown(t0, o0, t, o, data, d, a, b) && IsDir(o0, d) && Clear(t0, d, a, b) && a <= b < end
    ensures IsDir(o, d) && Lookup(t, d, b) == Lookup(t0, d, b)
    ensures Lookup(t0, d, b).Absent? ==> Clear(t0, d, a, b + 1)
    ensures Lookup(t0, d, b).Present? ==> !Clear(t0, d, a, end)
  {
    hide Lookup;
  }

  lemma GrowStep(t0: Tables, o0: Owner, data0: map<nat, seq<byte>>, t: Tables, o: Owner, data: map<nat, seq<byte>>,
                 t': Tables, o': Owner, data': map<nat, seq<byte>>, d: nat, a: nat, b: nat, f: nat)
    requires Grown(t0, o0, t, o, data, d, a, b) && IsDir(o0, d) && Fresh(t, o, data, t', o', data', d, b, f, ZeroPage(), true, true) && a <= b
    requires SameData(o0, data0, data)
    ensures Grown(t0, o0, t', o', data', d, a, b + 1) && SameData(o0, data0, data')
  {
    hide Lookup, ZeroPage;
    assert forall e :: IsDir(o0, e) ==> IsDir(o, e);
    forall v: nat | a <= v < b + 1
      ensures NewPage(o0, data', Lookup(t', d, v))
    {
      assert v < b ==> NewPage(o0, data, Lookup(t, d, v));
    }
  }

  // Undoing: what deallocuvm leaves, and then what freeing the spare frame leaves.
  lemma GrowBack(t0: Tables, o0: Owner, data0: map<nat, seq<byte>>, t: Tables, o: Owner, data: map<nat, seq<byte>>,
                 t1: Tables, o1: Owner, data1: map<nat, seq<byte>>, t2: Tables, o2: Owner, data2: map<nat, seq<byte>>,
                 d: nat, a: nat, c: nat, b: nat, mem: Option<nat>)
    requires IsDir(o0, d) && a <= c <= b && Grown(t0, o0, t, o, data, d, a, c) && SameData(o0, data0, data)
    requires Missed(t, o, data, t1, o1, data1, d, mem, ZeroPage())
    requires Dropped(t1, o1, t2, o2, d, a, b) && SameData(o2, data1, data2)
    ensures mem.None? ==> ShrunkBack(t0, o0, data0, t2, o2, data2, d, a, b)
    ensures mem.Some? ==> Spare(t0, o0, data0, t2, o2, data2, d, a, b, mem.value)
  {
    hide Lookup, ZeroPage;
    assert forall e :: IsDir(o0, e) ==> IsDir(o, e) && IsDir(o1, e);
  }

  ghost predicate Spare(t0: Tables, o0: Owner, data0: map<nat, seq<byte>>, t: Tables, o: Owner, data: map<nat, seq<byte>>,
                        d: nat, a: nat, b: nat, f: nat)
  {
    && f !in o0 && f in o && o[f].Loose? && Unmapped(t0, t, o0, d, a, b)
    && GrewTables(WithoutPages(o0, d, a, b), o - {f}, d) && SameData(WithoutPages(o0, d, a, b), data0, data)
  }

  lemma SpareLoose(t0: Tables, o0: Owner, data0: map<nat, seq<byte>>, t: Tables, o: Owner, data: map<nat, seq<byte>>,
                   d: nat, a: nat, b: nat, f: nat)
    requires Spare(t0, o0, data0, t, o, data, d, a, b, f)
    ensures f in o && o[f].Loose?
  {
  }

  lemma GrowUndone(t0: Tables, o0: Owner, data0: map<nat, seq<byte>>, t: Tables, o: Owner, data: map<nat, seq<byte>>,
                   t': Tables, o': Owner, data': map<nat, seq<byte>>, d: nat, a: nat, b: nat, f: nat)
    requires Spare(t0, o0, data0, t, o, data, d, a, b, f)
    requires o' == o - {f} && SameMaps(t, t', o) && SameData(o', data, data')
    ensures ShrunkBack(t0, o0, data0, t', o', data', d, a, b)
  {
    hide Lookup;
    var w := WithoutPages(o0, d, a, b);
    assert forall e :: IsDir(o0, e) ==> e in w && IsDir(o - {f}, e);
    assert forall e :: IsDir(o0, e) ==> IsDir(o, e);
  }

  // --- copying a process --------------------------------------------------------------------

  // e' is a page of its own with e's permissions and contents.
  predicate CopyOf(o0: Owner, data0: map<nat, seq<byte>>, data: map<nat, seq<byte>>, e: Entry, e': Entry)
  {
    && e.Present? && e'.Present? && e'.w == e.w && e'.u == e.u && e'.frame !in o0
    && e.frame in data0 && e'.frame in data && data[e'.frame] == data0[e.frame]
  }

  // c is a new directory: copies of d's pages below n, and the kernel's mappings.
  // Nothing that was there before has changed.
  ghost predicate Copied(t0: Tables, o0: Owner, data0: map<nat, seq<byte>>, t: Tables, o: Owner, data: map<nat, seq<byte>>,
                         d: nat, c: nat, text: nat, n: nat)
    requires KernelText(text)
  {
    && OnlyNew(o0, o, c) && IsDir(o, c) && SameMaps(t0, t, o0) && SameData(o0, data0, data)
    && (forall v: nat :: v < n ==> CopyOf(o0, data0, data, Lookup(t0, d, v), Lookup(t, c, v)))
    && (forall v: nat :: n <= v ==> Lookup(t, c, v) == KernelEntry(text, 4, v))
    && (forall v: nat :: v < n ==> Lookup(t, c, v).frame in o)
  }

  // --- what the process sees ----------------------------------------------------------------

  // The byte a user access to an address finds, if the page is there for the user.
  function UserByte(t: Tables, data: map<nat, seq<byte>>, d: nat, a: nat): (r: Option<byte>)
  {
    var e := Lookup(t, d, a / PGSIZE);
    if e.Present? && e.u && e.frame in data && a % PGSIZE < |data[e.frame]| then Some(data[e.frame][a % PGSIZE]) else None
  }

  // No frame is in two places of user memory, of one process or of two.
  lemma PagesApart(t: Tables, o: Owner, d: nat, v: nat, e: nat, w: nat)
    requires Inv(t, o) && IsDir(o, d) && IsDir(o, e) && v < UPAGES && w < UPAGES
    requires Lookup(t, d, v).Present? && Lookup(t, e, w).Present? && Lookup(t, d, v).frame == Lookup(t, e, w).frame
    ensures d == e && v == w
  {
    hide Lookup;
    assert PageAt(t, o, d, v) && PageAt(t, o, e, w);
  }

  // A process that has grown can write its new bytes, and finds them zero.
  lemma GrownReads(t0: Tables, o0: Owner, t: Tables, o: Owner, data: map<nat, seq<byte>>, d: nat, oldsz: nat, newsz: nat, a: nat)
    requires Grown(t0, o0, t, o, data, d, PageUp(oldsz), PageUp(newsz)) && PageUp(oldsz) * PGSIZE <= a < newsz
    ensures UserByte(t, data, d, a) == Some(0) && Lookup(t, d, a / PGSIZE).Present? && Lookup(t, d, a / PGSIZE).w
  {
    hide Lookup;
    var v := a / PGSIZE;
    assert PageUp(oldsz) <= v < PageUp(newsz);
    assert NewPage(o0, data, Lookup(t, d, v));
  }

  // A process that has shrunk finds nothing in the pages it gave up, and below its new size
  // what it found before.
  lemma ShrunkReads(t0: Tables, o0: Owner, data0: map<nat, seq<byte>>, t: Tables, o: Owner, data: map<nat, seq<byte>>,
                    d: nat, oldsz: nat, newsz: nat, a: nat)
    requires Inv(t0, o0) && Filled(o0, data0) && IsDir(o0, d) && a < oldsz <= KERNBASE
    requires Dropped(t0, o0, t, o, d, PageUp(newsz), PageUp(oldsz)) && SameData(o, data0, data)
    ensures a >= PageUp(newsz) * PGSIZE ==> UserByte(t, data, d, a).None?
    ensures a < newsz ==> UserByte(t, data, d, a) == UserByte(t0, data0, d, a)
  {
    hide Lookup;
    var v := a / PGSIZE;
    assert v < PageUp(oldsz) && (a >= PageUp(newsz) * PGSIZE <==> v >= PageUp(newsz));
    if v < PageUp(newsz) {
      assert PageAt(t0, o0, d, v);
      assert Lookup(t, d, v) == Lookup(t0, d, v);
    }
  }

  // A child finds at every address of its parent's memory what the parent found there, in
  // frames nothing else had before.
  lemma CopiedReads(t0: Tables, o0: Owner, data0: map<nat, seq<byte>>, t: Tables, o: Owner, data: map<nat, seq<byte>>,
                    d: nat, c: nat, text: nat, sz: nat, a: nat)
    requires KernelText(text) && Copied(t0, o0, data0, t, o, data, d, c, text, PageUp(sz)) && a < sz
    ensures UserByte(t, data, c, a) == UserByte(t0, data0, d, a)
    ensures var e, e' := Lookup(t0, d, a / PGSIZE), Lookup(t, c, a / PGSIZE);
            e.Present? && e'.Present? && e'.w == e.w && e'.u == e.u && e'.frame !in o0
  {
    hide Lookup, KernelEntry;
    var v := a / PGSIZE;
    assert v < PageUp(sz);
    assert CopyOf(o0, data0, data, Lookup(t0, d, v), Lookup(t, c, v));
  }

  lemma NoUserEntry(text: nat, v: nat)
    requires KernelText(text) && v < UPAGES
    ensures KernelEntry(text, 4, v).Absent?
  {
    assert KernelEntry(text, 0, v).Absent?;
    assert KernelEntry(text, 1, v).Absent?;
    assert KernelEntry(text, 2, v).Absent?;
    assert KernelEntry(text, 3, v).Absent?;
  }

  lemma CopyFacts(t: Tables, o: Owner, data: map<nat, seq<byte>>, d: nat, i: nat)
    requires Inv(t, o) && Filled(o, data) && IsDir(o, d) && i < UPAGES
    ensures Lookup(t, d, i).Present? ==> Lookup(t, d, i).frame in data
    ensures i < VPAGES
  {
    assert PageAt(t, o, d, i);
  }

  lemma CopyNone(t: Tables, o: Owner, data: map<nat, seq<byte>>, c: nat)
    ensures GrewTables(o, o, c) && SameMaps(t, t, o) && SameData(o, data, data)
  {
  }

  lemma CopyMissed(t0: Tables, o0: Owner, data0: map<nat, seq<byte>>, t: Tables, o: Owner, data: map<nat, seq<byte>>,
                   t': Tables, o': Owner, data': map<nat, seq<byte>>, c: nat, f: nat, page: seq<byte>)
    requires Missed(t0, o0, data0, t, o, data, c, Some(f), page)
    requires o' == o - {f} && SameMaps(t, t', o) && SameData(o', data, data')
    ensures GrewTables(o0, o', c) && SameMaps(t0, t', o0) && SameData(o0, data0, data')
  {
    hide Lookup;
    assert forall e :: IsDir(o0, e) ==> e in o0[f := Loose] && IsDir(o, e);
  }

  lemma CopyStart(t0: Tables, o0: Owner, data0: map<nat, seq<byte>>, t: Tables, o: Owner, data: map<nat, seq<byte>>,
                  d: nat, c: nat, text: nat, sz: nat)
    requires KernelText(text) && Kernel(t0, o0, t, o, c, text, 4) && SameData(o0, data0, data) && sz <= KERNBASE
    ensures Copied(t0, o0, data0, t, o, data, d, c, text, 0) && PageUp(sz) <= UPAGES
  {
    hide Lookup;
  }

  lemma CopyNext(t0: Tables, o0: Owner, data0: map<nat, seq<byte>>, t: Tables, o: Owner, data: map<nat, seq<byte>>,
                 d: nat, c: nat, text: nat, i: nat)
    requires KernelText(text) && Copied(t0, o0, data0, t, o, data, d, c, text, i) && IsDir(o0, d) && i < UPAGES
    ensures IsDir(o, d) && IsDir(o, c) && d != c && Lookup(t, c, i).Absent? && Lookup(t, d, i) == Lookup(t0, d, i)
  {
    NoUserEntry(text, i);
    hide Lookup;
  }

  lemma CopyShort(t0: Tables, o0: Owner, data0: map<nat, seq<byte>>, t: Tables, o: Owner, data: map<nat, seq<byte>>,
                  t': Tables, o': Owner, data': map<nat, seq<byte>>, d: nat, c: nat, text: nat, i: nat)
    requires KernelText(text) && Copied(t0, o0, data0, t, o, data, d, c, text, i)
    requires GrewTables(o, o', c) && SameMaps(t, t', o) && SameData(o, data, data')
    ensures IsDir(o', c) && OnlyNew(o0, o', c) && SameMaps(t0, t', o0) && SameData(o0, data0, data')
  {
    hide Lookup;
    assert forall e :: IsDir(o0, e) ==> IsDir(o, e);
  }

  lemma CopyUndone(o: Owner, data0: map<nat, seq<byte>>, data: map<nat, seq<byte>>, data': map<nat, seq<byte>>)
    requires SameData(o, data0, data) && SameData(o, data, data')
    ensures SameData(o, data0, data')
  {
  }

  lemma CopyStep(t0: Tables, o0: Owner, data0: map<nat, seq<byte>>, t: Tables, o: Owner, data: map<nat, seq<byte>>,
                 t': Tables, o': Owner, data': map<nat, seq<byte>>, d: nat, c: nat, text: nat, i: nat, f: nat)
    requires KernelText(text) && Copied(t0, o0, data0, t, o, data, d, c, text, i) && IsDir(o0, d) && Inv(t0, o0) && Filled(o0, data0)
    requires i < UPAGES && Lookup(t, d, i).Present? && Lookup(t, d, i).frame in data
    requires Fresh(t, o, data, t', o', data', c, i, f, data[Lookup(t, d, i).frame], Lookup(t, d, i).w, Lookup(t, d, i).u)
    ensures Copied(t0, o0, data0, t', o', data', d, c, text, i + 1)
  {
    CopyFacts(t0, o0, data0, d, i);
    assert PageAt(t0, o0, d, i);
    hide Lookup, Inv;
    assert forall e :: IsDir(o0, e) ==> IsDir(o, e) && e != c;
    assert Lookup(t, d, i) == Lookup(t0, d, i);
    forall v: nat | v < i + 1
      ensures CopyOf(o0, data0, data', Lookup(t0, d, v), Lookup(t', c, v))
      ensures Lookup(t', c, v).frame in o'
    {
      assert v < i ==> CopyOf(o0, data0, data, Lookup(t0, d, v), Lookup(t, c, v)) && Lookup(t', c, v) == Lookup(t, c, v);
      assert v == i ==> Lookup(t', c, v) == Present(f, Lookup(t, d, i).w, Lookup(t, d, i).u);
    }
  }

  lemma NotNull(free: seq<nat>, o: Owner, all: set<nat>, lo: nat, d: nat)
    requires Shared(free, o, all, lo) && IsDir(o, d)
    ensures d != 0
  {
    assert d in all;
  }

  // --- a process and its size ----------------------------------------------------------------

  // No page above a process of size sz is mapped.
  ghost predicate NoneAbove(t: Tables, d: nat, sz: nat) { Clear(t, d, PageUp(sz), UPAGES) }

  // Every page of it is.
  ghost predicate AllBelow(t: Tables, d: nat, sz: nat)
  {
    forall v: nat :: v < PageUp(sz) ==> Lookup(t, d, v).Present?
  }

  lemma GrownSize(t0: Tables, o0: Owner, t: Tables, o: Owner, data: map<nat, seq<byte>>, d: nat, oldsz: nat, newsz: nat)
    requires IsDir(o0, d) && oldsz <= newsz && Grown(t0, o0, t, o, data, d, PageUp(oldsz), PageUp(newsz))
    ensures NoneAbove(t0, d, oldsz) ==> NoneAbove(t, d, newsz)
    ensures AllBelow(t0, d, oldsz) ==> AllBelow(t, d, newsz)
  {
    hide Lookup;
    forall v: nat | v < PageUp(newsz) && AllBelow(t0, d, oldsz)
      ensures Lookup(t, d, v).Present?
    {
      assert v >= PageUp(oldsz) ==> NewPage(o0, data, Lookup(t, d, v));
    }
  }

  lemma DroppedSize(t0: Tables, o0: Owner, t: Tables, o: Owner, d: nat, oldsz: nat, newsz: nat)
    requires IsDir(o0, d) && newsz <= oldsz && Dropped(t0, o0, t, o, d, PageUp(newsz), PageUp(oldsz))
    ensures NoneAbove(t0, d, oldsz) ==> NoneAbove(t, d, newsz)
    ensures AllBelow(t0, d, oldsz) ==> AllBelow(t, d, newsz)
    ensures PageUp(newsz) < PageUp(oldsz) && AllBelow(t0, d, oldsz) ==> !AllBelow(t, d, oldsz) && !SameMaps(t0, t, o0)
  {
    hide Lookup;
    if PageUp(newsz) < PageUp(oldsz) && AllBelow(t0, d, oldsz) {
      assert Lookup(t0, d, PageUp(newsz)).Present? && Lookup(t, d, PageUp(newsz)).Absent?;
    }
  }

  lemma CopiedSize(t0: Tables, o0: Owner, data0: map<nat, seq<byte>>, t: Tables, o: Owner, data: map<nat, seq<byte>>,
                   d: nat, c: nat, text: nat, sz: nat)
    requires KernelText(text) && Copied(t0, o0, data0, t, o, data, d, c, text, PageUp(sz))
    ensures NoneAbove(t, c, sz) && AllBelow(t, c, sz)
  {
    hide Lookup;
    forall v: nat
      ensures v < PageUp(sz) ==> Lookup(t, c, v).Present?
      ensures PageUp(sz) <= v < UPAGES ==> Lookup(t, c, v).Absent?
    {
      assert v < PageUp(sz) ==> CopyOf(o0, data0, data, Lookup(t0, d, v), Lookup(t, c, v));
      if v < UPAGES {
        NoUserEntry(text, v);
      }
    }
  }

  lemma SameSize(t0: Tables, t: Tables, o0: Owner, d: nat, sz: nat)
    requires IsDir(o0, d) && SameMaps(t0, t, o0)
    ensures NoneAbove(t0, d, sz) ==> NoneAbove(t, d, sz)
    ensures AllBelow(t0, d, sz) ==> AllBelow(t, d, sz)
  {
    hide Lookup;
  }

  // growproc asked to give up all of a process.
  predicate GivesUpAll(sz: nat, n: int) { n < 0 && sz + n == 0 }

  // sz + n as an unsigned 32-bit number.
  function Wrapped(sz: nat, n: int): (m: nat)
    requires sz < KERNBASE && -0x8000_0000 <= n < 0x8000_0000
  {
    if sz + n < 0 then sz + n + UINT_LIMIT else sz + n
  }

  lemma Unsized(sz: nat, n: int)
    requires sz < KERNBASE && -0x8000_0000 <= n < 0x8000_0000
    ensures GivesUpAll(sz, n) <==> n < 0 && sz + n == 0
    ensures n < 0 && sz + n < 0 ==> Wrapped(sz, n) >= KERNBASE > sz
    ensures n < 0 <= sz + n ==> Wrapped(sz, n) == sz + n < sz
    ensures sz > 0 ==> PageUp(0) < PageUp(sz)
    ensures 0 < KERNBASE
  {
  }

  // Maps, uses and pages are as they were; tables of d may have come.
  ghost predicate Restored(t0: Tables, o0: Owner, data0: map<nat, seq<byte>>, t: Tables, o: Owner, data: map<nat, seq<byte>>, d: nat)
  {
    SameMaps(t0, t, o0) && GrewTables(o0, o, d) && SameData(o0, data0, data)
  }

  lemma RestoredIs(t: Tables, o: Owner, data: map<nat, seq<byte>>, d: nat)
    ensures Restored(t, o, data, t, o, data, d)
  {
  }

  lemma GrownDir(t0: Tables, o0: Owner, t: Tables, o: Owner, data: map<nat, seq<byte>>, d: nat, a: nat, b: nat)
    requires IsDir(o0, d) && Grown(t0, o0, t, o, data, d, a, b)
    ensures IsDir(o, d)
  {
  }

  // What has nothing above a size has nothing above a greater one.
  lemma ZeroAbove(t: Tables, d: nat, sz: nat, newsz: nat)
    requires newsz <= sz ==> NoneAbove(t, d, newsz)
    requires newsz > sz ==> NoneAbove(t, d, sz)
    ensures NoneAbove(t, d, sz)
  {
    hide Lookup;
    assert newsz <= sz ==> PageUp(newsz) <= PageUp(sz);
  }

  // A failed allocuvm restores a process that had nothing above its size.
  lemma FailedRestores(t0: Tables, o0: Owner, data0: map<nat, seq<byte>>, t: Tables, o: Owner, data: map<nat, seq<byte>>,
                       d: nat, oldsz: nat, newsz: nat)
    requires Inv(t0, o0) && IsDir(o0, d) && PageUp(newsz) <= UPAGES && NoneAbove(t0, d, oldsz)
    requires ShrunkBack(t0, o0, data0, t, o, data, d, PageUp(oldsz), PageUp(newsz))
    ensures Restored(t0, o0, data0, t, o, data, d) && IsDir(o, d) && NoneAbove(t, d, oldsz) && SameMaps(t0, t, o0)
    ensures AllBelow(t0, d, oldsz) ==> AllBelow(t, d, oldsz)
  {
    RoomToGrow(t0, d, oldsz, newsz);
    FailedAllocRestores(t0, o0, data0, t, o, data, d, PageUp(oldsz), PageUp(newsz));
    SameSize(t0, t, o0, d, oldsz);
  }

  // A frame freed twice is on the list twice, and stays so.
  lemma PutTwice(free: seq<nat>, f: nat)
    ensures f in free ==> !Distinct([f] + free)
    ensures !Distinct(free) ==> !Distinct([f] + free)
  {
    var q := [f] + free;
    assert forall i :: 0 <= i < |free| ==> q[i + 1] == free[i];
    if f in free {
      var j :| 0 <= j < |free| && free[j] == f;
      assert q[0] == q[j + 1];
    }
    if !Distinct(free) {
      var i, j :| 0 <= i < j < |free| && free[i] == free[j];
      assert q[i + 1] == q[j + 1];
    }
  }

  // Above a process there is nothing in the way of its growing.
  lemma RoomToGrow(t: Tables, d: nat, oldsz: nat, newsz: nat)
    requires NoneAbove(t, d, oldsz) && PageUp(newsz) <= UPAGES
    ensures Clear(t, d, PageUp(oldsz), PageUp(newsz))
  {
    hide Lookup;
  }

  // --- what pgcnt sees ------------------------------------------------------------------------

  // Growing by b - a pages makes pgcnt grow by as many.
  lemma PgcntGrows(t0: Tables, o0: Owner, t: Tables, o: Owner, data: map<nat, seq<byte>>, d: nat, a: nat, b: nat)
    requires IsDir(o0, d) && a <= b <= UPAGES && Clear(t0, d, a, b) && Grown(t0, o0, t, o, data, d, a, b)
    ensures |UserPages(t, d, VPAGES)| == |UserPages(t0, d, VPAGES)| + (b - a)
  {
    hide Lookup, Range;
    var s := Range(a, b);
    RangeSize(a, b);
    forall v: nat
      ensures UserPage(t, d, v) <==> UserPage(t0, d, v) || a <= v < b
    {
      assert a <= v < b ==> NewPage(o0, data, Lookup(t, d, v));
    }
    assert UserPages(t, d, VPAGES) == UserPages(t0, d, VPAGES) + s;
  }

  // A child's pgcnt is its parent's, counted below the size that was copied.
  lemma PgcntCopied(t0: Tables, o0: Owner, data0: map<nat, seq<byte>>, t: Tables, o: Owner, data: map<nat, seq<byte>>,
                    d: nat, c: nat, text: nat, n: nat)
    requires KernelText(text) && n <= UPAGES && Copied(t0, o0, data0, t, o, data, d, c, text, n)
    ensures |UserPages(t, c, VPAGES)| == |UserPages(t0, d, n)|
  {
    hide Lookup;
    forall v: nat
      ensures UserPage(t, c, v) <==> v < n && UserPage(t0, d, v)
    {
      assert v < n ==> CopyOf(o0, data0, data, Lookup(t0, d, v), Lookup(t, c, v));
      NotUser(text, 4, v);
    }
    assert UserPages(t, c, VPAGES) == UserPages(t0, d, n);
  }

  // No kernel mapping is open to the user.
  lemma {:induction false} NotUser(text: nat, k: nat, v: nat)
    requires KernelText(text) && k <= 4
    ensures KernelEntry(text, k, v).Present? ==> !KernelEntry(text, k, v).u
  {
    if k > 0 {
      NotUser(text, k - 1, v);
    }
  }
}
