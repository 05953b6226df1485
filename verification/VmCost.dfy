/**
 What the operations of xv6/vm.c cost in frames.  The free list and the frames in
 use make up all frames, so what an operation takes off the free list is what it
 adds to the books: one frame a page, and one a page table that was missing.
 */
module VmCost {
  import opened Basics
  import opened Options
  import opened PageTables
  import opened VmSpec

  // Directory d has a table at index i.
  ghost predicate HasTable(o: Owner, d: nat, i: nat) { exists f :: f in o && o[f] == Table(d, i) }

  predicate Linked(t: Tables, d: nat, i: nat) { IsTable(t, d) && i < NENTRIES && t[d][i].Present? }

  // The directory indices of pages [a, b).
  predicate Spans(a: nat, b: nat, i: nat) { a < b && Pdx(a) <= i <= Pdx(b - 1) }

  function Indices(a: nat, b: nat): (s: set<nat>) { set i: nat | i <= Pdx(b) && Spans(a, b, i) }

  // The tables that directory d lacks for pages [a, b).
  function Missing(t: Tables, d: nat, a: nat, b: nat): (s: set<nat>)
  {
    set i: nat | i <= Pdx(b) && Spans(a, b, i) && !Linked(t, d, i)
  }

  // The frames it takes to map pages [a, b) of d.
  function GrowCost(t: Tables, d: nat, a: nat, b: nat): (n: int) { b - a + |Missing(t, d, a, b)| }

  // The frames of setupkvm: a directory, 56 tables for the memory below PHYSTOP and 8
  // for the devices.
  const KERNEL_COST := 65

  // The frames of copyuvm: besides, n pages and a table for each 1024 of them.
  function CopyCost(n: nat): (m: nat) { KERNEL_COST + n + (n + NENTRIES - 1) / NENTRIES }

  // The tables in o that were not in o0 are at indices of s.
  ghost predicate NewTables(o0: Owner, o: Owner, s: set<nat>)
  {
    forall f :: f in o && f !in o0 && o[f].Table? ==> o[f].i in s
  }

  lemma LinkedIs(t: Tables, o: Owner, d: nat, i: nat)
    requires Inv(t, o) && IsDir(o, d) && i < NENTRIES
    ensures Linked(t, d, i) <==> HasTable(o, d, i)
  {
    TableOf(t, o, d, i);
    if HasTable(o, d, i) {
      var f :| f in o && o[f] == Table(d, i);
      assert UseAt(t, o, f);
    }
  }

  // --- how the tables come ------------------------------------------------------------

  lemma NoTables(o: Owner, s: set<nat>)
    ensures NewTables(o, o, s)
  {
  }

  lemma OneTable(o: Owner, f: nat, d: nat, i: nat)
    requires f !in o
    ensures NewTables(o, o[f := Loose][f := Table(d, i)], {i})
  {
  }

  lemma MapTables(o0: Owner, o: Owner, o': Owner, d: nat, first: nat, k: nat, last: nat, pa: nat)
    requires NewTables(o0, o, Indices(first, last + 1)) && NewTables(o, o', {Pdx(first + k)}) && first + k <= last
    requires Given(o, o', d, first + k, 1, pa + k)
    ensures NewTables(o0, o', Indices(first, last + 1))
  {
    SpanIndex(first, last + 1, first + k);
    hide Indices;
  }

  lemma MoreTables(o0: Owner, o: Owner, o': Owner, d: nat, a: nat, b: nat, v: nat)
    requires NewTables(o0, o, Indices(a, b)) && NewTables(o, o', {Pdx(v)}) && a <= v < b && GrewTables(o, o', d)
    ensures NewTables(o0, o', Indices(a, b))
  {
    SpanIndex(a, b, v);
    hide Indices;
  }

  lemma AllocTables(o0: Owner, o: Owner, d: nat, a: nat, k: nat, f: nat)
    requires f !in o0 && Given(o0[f := Loose], o, d, a, k, f) && k <= 1 && NewTables(o0[f := Loose], o, Indices(a, a + 1))
    ensures NewTables(o0, o, {Pdx(a)})
  {
  }

  lemma GrowTables(o0: Owner, t: Tables, o: Owner, data: map<nat, seq<Blocks.byte>>,
                   t': Tables, o': Owner, data': map<nat, seq<Blocks.byte>>,
                   d: nat, a: nat, b: nat, v: nat, f: nat, page: seq<Blocks.byte>, w: bool, u: bool)
    requires NewTables(o0, o, Indices(a, b)) && NewTables(o, o', {Pdx(v)}) && a <= v < b
    requires Fresh(t, o, data, t', o', data', d, v, f, page, w, u)
    ensures NewTables(o0, o', Indices(a, b))
  {
    SpanIndex(a, b, v);
    hide Indices, Mapped;
  }

  lemma MissTables(o0: Owner, t: Tables, o: Owner, data: map<nat, seq<Blocks.byte>>,
                   t': Tables, o': Owner, data': map<nat, seq<Blocks.byte>>,
                   d: nat, a: nat, b: nat, v: nat, mem: Option<nat>, page: seq<Blocks.byte>)
    requires NewTables(o0, o, Indices(a, b)) && NewTables(o, o', {Pdx(v)}) && a <= v < b
    requires Missed(t, o, data, t', o', data', d, mem, page)
    ensures NewTables(o0, o', Indices(a, b))
  {
    SpanIndex(a, b, v);
    hide Indices, SameMaps;
  }

  lemma LessTables(o0: Owner, o: Owner, s: set<nat>, d: nat, i: nat, f: nat)
    ensures NewTables(o0, o, s) ==> NewTables(o0, o - {f}, s)
    ensures !HasTable(o, d, i) ==> !HasTable(o - {f}, d, i)
  {
  }

  lemma KernelTables(o0: Owner, o: Owner, o': Owner, d: nat, text: nat, k: nat, n: nat)
    requires KernelText(text) && k < 4 && NewTables(o0, o, KernelIndices())
    requires var m := Kmap(text)[k]; NewTables(o, o', Indices(m.first, m.last + 1)) && Given(o, o', d, m.first, n, m.pa)
    ensures NewTables(o0, o', KernelIndices())
    ensures var m := Kmap(text)[k]; m.first + n <= m.last ==> Pdx(m.first + n) in KernelIndices()
  {
    var m := Kmap(text)[k];
    forall i | i in Indices(m.first, m.last + 1)
      ensures i in KernelIndices()
    {
      RegionIndices(text, k, i);
    }
    if m.first + n <= m.last {
      SpanIndex(m.first, m.last + 1, m.first + n);
    }
    hide Indices, KernelIndices, Kmap;
  }

  lemma Costs(n: nat)
    ensures 0 < KERNEL_COST <= CopyCost(n)
  {
  }

  lemma DirTables(o: Owner, d: nat, s: set<nat>)
    requires d !in o
    ensures NewTables(o, o[d := Loose][d := Dir], s)
  {
  }

  lemma GrewSame(o: Owner, o': Owner, c: nat)
    requires GrewTables(o, o', c)
    ensures forall f :: f in o ==> f in o' && (o'[f].Table? ==> o'[f] == o[f])
  {
  }

  lemma FreshSame(t: Tables, o: Owner, data: map<nat, seq<Blocks.byte>>,
                  t': Tables, o': Owner, data': map<nat, seq<Blocks.byte>>, d: nat, c: nat, i: nat, f: nat)
    requires Lookup(t, d, i).Present? && Lookup(t, d, i).frame in data
    requires Fresh(t, o, data, t', o', data', c, i, f, data[Lookup(t, d, i).frame], Lookup(t, d, i).w, Lookup(t, d, i).u)
    ensures forall g :: g in o ==> g in o' && (o'[g].Table? ==> o'[g] == o[g])
  {
    hide Mapped;
  }

  lemma CopyStartTables(o0: Owner, o: Owner, n: nat)
    requires NewTables(o0, o, KernelIndices())
    ensures NewTables(o0, o, KernelIndices() + Indices(0, n))
  {
  }

  lemma CopyTables(o0: Owner, o: Owner, o': Owner, n: nat, i: nat)
    requires NewTables(o0, o, KernelIndices() + Indices(0, n)) && NewTables(o, o', {Pdx(i)}) && i < n
    requires forall f :: f in o ==> f in o' && (o'[f].Table? ==> o'[f] == o[f])
    ensures NewTables(o0, o', KernelIndices() + Indices(0, n))
  {
    SpanIndex(0, n, i);
    hide Indices, KernelIndices;
  }

  // What is not in use is free.
  lemma FreeCount(free: seq<nat>, o: Owner, all: set<nat>, lo: nat)
    requires Shared(free, o, all, lo)
    ensures |free| + |o| == |all|
  {
    ListSize(free);
    hide Elements, Distinct, Takes;
    assert all == Elements(free) + o.Keys;
    Apart(Elements(free), o.Keys);
  }

  // --- the frames an operation added ----------------------------------------------------

  function TablesIn(o0: Owner, o: Owner): (s: set<nat>) { set f | f in o && f !in o0 && o[f].Table? }

  function PagesIn(o0: Owner, o: Owner): (s: set<nat>) { set f | f in o && f !in o0 && o[f].Page? }

  function OthersIn(o0: Owner, o: Owner): (s: set<nat>) { set f | f in o && f !in o0 && !o[f].Table? && !o[f].Page? }

  lemma AddedCount(o0: Owner, o: Owner)
    requires o0.Keys <= o.Keys
    ensures |o| == |o0| + |TablesIn(o0, o)| + |PagesIn(o0, o)| + |OthersIn(o0, o)|
  {
    AddedParts(o0, o);
    hide *;
    var ts, ps, xs := TablesIn(o0, o), PagesIn(o0, o), OthersIn(o0, o);
    Apart(ps, xs);
    Apart(ts, ps + xs);
    Apart(o0.Keys, ts + (ps + xs));
  }

  lemma AddedParts(o0: Owner, o: Owner)
    requires o0.Keys <= o.Keys
    ensures var ts, ps, xs := TablesIn(o0, o), PagesIn(o0, o), OthersIn(o0, o);
            && o.Keys == o0.Keys + (ts + (ps + xs)) && ps !! xs && ts !! ps + xs && o0.Keys !! ts + (ps + xs)
  {
  }

  // d has got tables at all of s.
  ghost predicate AllNew(o0: Owner, o: Owner, d: nat, s: set<nat>)
  {
    && (forall f :: f in o0 ==> f in o && (o[f].Table? ==> o[f] == o0[f]))
    && forall i :: i in s ==> HasTable(o, d, i) && !HasTable(o0, d, i)
  }

  // A table that came was missing; and two that came are at different indices.
  lemma TablesCount(t: Tables, o0: Owner, o: Owner, d: nat, s: set<nat>)
    requires Inv(t, o) && NewTables(o0, o, s)
    requires forall f :: f in TablesIn(o0, o) ==> o[f].dir == d
    ensures |TablesIn(o0, o)| <= |s|
    ensures AllNew(o0, o, d, s) ==> |TablesIn(o0, o)| == |s|
  {
    var ts := TablesIn(o0, o);
    var g := map f | f in ts :: o[f].i;
    assert g.Keys == ts;
    forall x, y | x in g && y in g && x != y
      ensures g[x] != g[y]
    {
      assert UseAt(t, o, x) && UseAt(t, o, y);
    }
    ImageSize(g, s);
    hide Inv;
    if AllNew(o0, o, d, s) {
      forall i | i in s
        ensures exists x :: x in g && g[x] == i
      {
        var f :| f in o && o[f] == Table(d, i);
        assert f in g && g[f] == i;
      }
    }
  }

  // The pages that came are [a, b) of d.
  lemma PagesCount(t: Tables, o0: Owner, o: Owner, d: nat, a: nat, b: nat)
    requires Inv(t, o) && IsDir(o, d) && a <= b <= UPAGES
    requires forall f :: f in PagesIn(o0, o) ==> o[f].dir == d && a <= o[f].v < b
    requires forall v: nat :: a <= v < b ==> Lookup(t, d, v).Present? && Lookup(t, d, v).frame !in o0
    ensures |PagesIn(o0, o)| == b - a
  {
    var ps := PagesIn(o0, o);
    var g := map f | f in ps :: o[f].v;
    assert g.Keys == ps;
    forall x, y | x in g && y in g && x != y
      ensures g[x] != g[y]
    {
      assert UseAt(t, o, x) && UseAt(t, o, y);
    }
    hide Range;
    var s := Range(a, b);
    RangeSize(a, b);
    ImageSize(g, s);
    forall v | v in s
      ensures exists x :: x in g && g[x] == v
    {
      assert PageAt(t, o, d, v);
      var f := Lookup(t, d, v).frame;
      assert f in g && g[f] == v;
    }
  }

  // --- allocuvm ------------------------------------------------------------------------

  lemma MissingIs(t: Tables, o: Owner, d: nat, a: nat, b: nat, i: nat)
    requires Inv(t, o) && IsDir(o, d) && b <= UPAGES
    ensures i in Missing(t, d, a, b) <==> Spans(a, b, i) && !HasTable(o, d, i)
  {
    if Spans(a, b, i) {
      assert i < NENTRIES && i <= Pdx(b);
      LinkedIs(t, o, d, i);
    }
  }

  // A page in the span of an index.
  lemma SpanPage(a: nat, b: nat, i: nat) returns (v: nat)
    requires Spans(a, b, i)
    ensures a <= v < b && Pdx(v) == i
  {
    v := if i == Pdx(a) then a else i * NENTRIES;
  }

  lemma SpanOf(a: nat, b: nat, v: nat)
    requires a <= v < b
    ensures Spans(a, b, Pdx(v))
  {
  }

  lemma SpanIndex(a: nat, b: nat, v: nat)
    requires a <= v < b
    ensures Pdx(v) in Indices(a, b)
  {
    assert Pdx(a) <= Pdx(v) <= Pdx(b - 1) <= Pdx(b);
  }

  lemma GrowPages(t0: Tables, o0: Owner, t: Tables, o: Owner, data: map<nat, seq<Blocks.byte>>, d: nat, a: nat, c: nat)
    requires Inv(t, o) && IsDir(o0, d) && a <= c <= UPAGES && Grown(t0, o0, t, o, data, d, a, c)
    ensures |PagesIn(o0, o)| == c - a && OthersIn(o0, o) == {} && o0.Keys <= o.Keys
    ensures forall f :: f in TablesIn(o0, o) ==> o[f].dir == d
  {
    forall v: nat | a <= v < c
      ensures Lookup(t, d, v).Present? && Lookup(t, d, v).frame !in o0
    {
      assert NewPage(o0, data, Lookup(t, d, v));
    }
    PagesCount(t, o0, o, d, a, c);
  }

  // What a successful allocuvm took.
  lemma GrowExact(t0: Tables, o0: Owner, t: Tables, o: Owner, data: map<nat, seq<Blocks.byte>>, d: nat, a: nat, b: nat)
    requires Inv(t0, o0) && Inv(t, o) && IsDir(o0, d) && a <= b <= UPAGES && Grown(t0, o0, t, o, data, d, a, b)
    requires NewTables(o0, o, Indices(a, b))
    ensures |o| == |o0| + GrowCost(t0, d, a, b)
  {
    GrowPages(t0, o0, t, o, data, d, a, b);
    AddedCount(o0, o);
    var s := Missing(t0, d, a, b);
    forall f | f in TablesIn(o0, o)
      ensures o[f].i in s
    {
      MissingIs(t0, o0, d, a, b, o[f].i);
      TableIsNew(t, o0, o, d, f);
    }
    forall i | i in s
      ensures HasTable(o, d, i) && !HasTable(o0, d, i)
    {
      MissingIs(t0, o0, d, a, b, i);
      var v := SpanPage(a, b, i);
      assert NewPage(o0, data, Lookup(t, d, v));
      LinkedIs(t, o, d, i);
    }
    TablesCount(t, o0, o, d, s);
  }

  lemma TableIsNew(t: Tables, o0: Owner, o: Owner, d: nat, f: nat)
    requires Inv(t, o) && f in o && f !in o0 && o[f].Table? && o[f].dir == d
    requires forall g :: g in o0 && o0[g].Table? ==> g in o && o[g] == o0[g]
    ensures !HasTable(o0, d, o[f].i)
  {
    assert UseAt(t, o, f);
    forall g | g in o0
      ensures o0[g] != Table(d, o[f].i)
    {
      assert UseAt(t, o, g);
    }
  }

  // Where allocuvm gives up at page c, it has taken less than it needs.
  lemma GrowShort(t0: Tables, o0: Owner, t: Tables, o: Owner, data: map<nat, seq<Blocks.byte>>,
                  t1: Tables, o1: Owner, data1: map<nat, seq<Blocks.byte>>, d: nat, a: nat, c: nat, b: nat, mem: Option<nat>)
    requires Inv(t0, o0) && Inv(t1, o1) && IsDir(o0, d) && a <= c < b <= UPAGES && Grown(t0, o0, t, o, data, d, a, c)
    requires Missed(t, o, data, t1, o1, data1, d, mem, ZeroPage())
    requires NewTables(o0, o1, Indices(a, b)) && (mem.Some? ==> !HasTable(o1, d, Pdx(c)))
    ensures |o1| < |o0| + GrowCost(t0, d, a, b)
  {
    hide *;
    var s := Missing(t0, d, a, b);
    MissedPages(t0, o0, t, o, data, t1, o1, data1, d, a, c, mem);
    AddedCount(o0, o1);
    MissedTables(t0, o0, t, o, data, t1, o1, data1, d, a, c, b, mem);
    TablesCount(t1, o0, o1, d, if mem.Some? then s - {Pdx(c)} else s);
    CostIs(t0, d, a, b);
  }

  lemma CostIs(t: Tables, d: nat, a: nat, b: nat)
    ensures GrowCost(t, d, a, b) == b - a + |Missing(t, d, a, b)|
  {
  }

  lemma MissedTables(t0: Tables, o0: Owner, t: Tables, o: Owner, data: map<nat, seq<Blocks.byte>>,
                     t1: Tables, o1: Owner, data1: map<nat, seq<Blocks.byte>>, d: nat, a: nat, c: nat, b: nat, mem: Option<nat>)
    requires Inv(t0, o0) && Inv(t1, o1) && IsDir(o0, d) && a <= c < b <= UPAGES && Grown(t0, o0, t, o, data, d, a, c)
    requires Missed(t, o, data, t1, o1, data1, d, mem, ZeroPage())
    requires NewTables(o0, o1, Indices(a, b)) && (mem.Some? ==> !HasTable(o1, d, Pdx(c)))
    ensures forall f :: f in TablesIn(o0, o1) ==> o1[f].dir == d
    ensures mem.Some? ==> Pdx(c) in Missing(t0, d, a, b)
    ensures NewTables(o0, o1, if mem.Some? then Missing(t0, d, a, b) - {Pdx(c)} else Missing(t0, d, a, b))
  {
    hide ZeroPage;
    forall f | f in TablesIn(o0, o1)
      ensures o1[f].dir == d && o1[f].i in Missing(t0, d, a, b)
    {
      MissingIs(t0, o0, d, a, b, o1[f].i);
      TableIsNew(t1, o0, o1, d, f);
    }
    SpanOf(a, b, c);
    MissingIs(t0, o0, d, a, b, Pdx(c));
    assert forall f :: f in o0 ==> f in o1 && o1[f] == o0[f];
  }

  lemma MissedPages(t0: Tables, o0: Owner, t: Tables, o: Owner, data: map<nat, seq<Blocks.byte>>,
                    t1: Tables, o1: Owner, data1: map<nat, seq<Blocks.byte>>, d: nat, a: nat, c: nat, mem: Option<nat>)
    requires Inv(t1, o1) && IsDir(o0, d) && a <= c <= UPAGES && Grown(t0, o0, t, o, data, d, a, c)
    requires Missed(t, o, data, t1, o1, data1, d, mem, ZeroPage())
    ensures |PagesIn(o0, o1)| == c - a && |OthersIn(o0, o1)| == (if mem.Some? then 1 else 0) && o0.Keys <= o1.Keys
  {
    hide ZeroPage;
    forall v: nat | a <= v < c
      ensures Lookup(t1, d, v).Present? && Lookup(t1, d, v).frame !in o0
    {
      assert NewPage(o0, data, Lookup(t, d, v));
    }
    PagesCount(t1, o0, o1, d, a, c);
    hide Lookup, Inv;
    assert OthersIn(o0, o1) == if mem.Some? then {mem.value} else {};
  }

  // --- setupkvm and copyuvm -----------------------------------------------------------------

  // The directory indices of the kernel's part.
  function KernelIndices(): (s: set<nat>) { set i: nat | i < NENTRIES && InKernel(i) }

  predicate InKernel(i: nat) { 512 <= i < 568 || 1016 <= i < 1024 }

  lemma KernelSize()
    ensures |KernelIndices()| == 64
  {
    hide Range;
    RangeSize(512, 568);
    RangeSize(1016, 1024);
    var low, high := Range(512, 568), Range(1016, 1024);
    assert KernelIndices() == low + high;
    Apart(low, high);
  }

  lemma IndicesSize(n: nat)
    ensures |Indices(0, n)| == (n + NENTRIES - 1) / NENTRIES
  {
    if n == 0 {
      assert Indices(0, n) == {};
    } else {
      hide Range;
      var k := Pdx(n - 1) + 1;
      RangeSize(0, k);
      assert Pdx(n - 1) <= Pdx(n);
      assert Indices(0, n) == Range(0, k);
    }
  }

  // The regions' tables.
  lemma RegionIndices(text: nat, k: nat, i: nat)
    requires KernelText(text) && k < 4
    requires var m := Kmap(text)[k]; Spans(m.first, m.last + 1, i)
    ensures i in KernelIndices()
  {
  }

  // A new space c: itself, its tables, and a frame for each of its pages [0, n).
  lemma SpaceCount(t0: Tables, o0: Owner, t: Tables, o: Owner, c: nat, n: nat)
    requires Inv(t0, o0) && Inv(t, o) && OnlyNew(o0, o, c) && IsDir(o, c) && n <= UPAGES
    requires forall v: nat :: v < n ==> Lookup(t, c, v).Present? && Lookup(t, c, v).frame !in o0
    requires forall v: nat :: n <= v < UPAGES ==> Lookup(t, c, v).Absent?
    ensures |o| == |o0| + 1 + n + |TablesIn(o0, o)|
    ensures forall f :: f in TablesIn(o0, o) ==> o[f].dir == c
  {
    forall f | f in PagesIn(o0, o)
      ensures o[f].dir == c && 0 <= o[f].v < n
    {
      assert UseAt(t, o, f);
    }
    PagesCount(t, o0, o, c, 0, n);
    AddedCount(o0, o);
    hide Inv, Lookup;
    assert OthersIn(o0, o) == {c};
  }

  lemma NoneBefore(t0: Tables, o0: Owner, c: nat, i: nat)
    requires Inv(t0, o0) && c !in o0
    ensures !HasTable(o0, c, i)
  {
    forall f | f in o0
      ensures o0[f] != Table(c, i)
    {
      assert UseAt(t0, o0, f);
    }
  }

  lemma KernelPage(text: nat, i: nat)
    requires KernelText(text) && InKernel(i)
    ensures KernelEntry(text, 4, i * NENTRIES).Present? && Pdx(i * NENTRIES) == i
  {
    var v := i * NENTRIES;
    assert KernelEntry(text, 1, v).Present? <==> v < UPAGES + 256;
    assert i < 1016 ==> KernelEntry(text, 3, v).Present?;
  }

  lemma NoUserPages(t: Tables, d: nat, text: nat)
    requires KernelText(text) && forall v: nat :: Lookup(t, d, v) == KernelEntry(text, 4, v)
    ensures forall v: nat :: v < UPAGES ==> Lookup(t, d, v).Absent?
  {
    forall v: nat | v < UPAGES
      ensures Lookup(t, d, v).Absent?
    {
      NoUserEntry(text, v);
    }
  }

  // What setupkvm took.
  lemma KernelExact(t0: Tables, o0: Owner, t: Tables, o: Owner, d: nat, text: nat)
    requires KernelText(text) && Inv(t0, o0) && Inv(t, o) && Kernel(t0, o0, t, o, d, text, 4)
    requires NewTables(o0, o, KernelIndices())
    ensures |o| == |o0| + KERNEL_COST
  {
    NoUserPages(t, d, text);
    SpaceCount(t0, o0, t, o, d, 0);
    forall i | i in KernelIndices()
      ensures HasTable(o, d, i) && !HasTable(o0, d, i)
    {
      NoneBefore(t0, o0, d, i);
      KernelPage(text, i);
      LinkedIs(t, o, d, i);
      assert Lookup(t, d, i * NENTRIES).Present?;
    }
    TablesCount(t, o0, o, d, KernelIndices());
    KernelSize();
  }

  // Where setupkvm gives up, it has taken less than it needs.
  lemma KernelShort(t0: Tables, o0: Owner, t: Tables, o: Owner, d: nat, j: nat)
    requires Inv(t0, o0) && Inv(t, o) && d !in o0 && GrewTables(o0[d := Dir], o, d)
    requires NewTables(o0, o, KernelIndices()) && j in KernelIndices() && !HasTable(o, d, j)
    ensures |o| < |o0| + KERNEL_COST
  {
    AddedCount(o0, o);
    var s := KernelIndices() - {j};
    assert NewTables(o0, o, s);
    TablesCount(t, o0, o, d, s);
    KernelSize();
    hide Inv;
    assert OthersIn(o0, o) == {d};
    assert PagesIn(o0, o) == {};
  }

  lemma CopyPages(t0: Tables, o0: Owner, data0: map<nat, seq<Blocks.byte>>, t: Tables, o: Owner, data: map<nat, seq<Blocks.byte>>,
                  d: nat, c: nat, text: nat, n: nat)
    requires KernelText(text) && Inv(t0, o0) && Inv(t, o) && n <= UPAGES
    requires Copied(t0, o0, data0, t, o, data, d, c, text, n)
    ensures |o| == |o0| + 1 + n + |TablesIn(o0, o)|
    ensures forall f :: f in TablesIn(o0, o) ==> o[f].dir == c
  {
    forall v: nat | v < UPAGES
      ensures v < n ==> Lookup(t, c, v).Present? && Lookup(t, c, v).frame !in o0
      ensures n <= v ==> Lookup(t, c, v).Absent?
    {
      assert v < n ==> CopyOf(o0, data0, data, Lookup(t0, d, v), Lookup(t, c, v));
      NoUserEntry(text, v);
    }
    SpaceCount(t0, o0, t, o, c, n);
  }

  lemma CopyIndices(n: nat)
    requires n <= UPAGES
    ensures |KernelIndices() + Indices(0, n)| == CopyCost(n) - n - 1
  {
    KernelSize();
    IndicesSize(n);
    assert forall i :: i in Indices(0, n) ==> i < 512;
    Apart(KernelIndices(), Indices(0, n));
  }

  // What copyuvm took.
  lemma CopyExact(t0: Tables, o0: Owner, data0: map<nat, seq<Blocks.byte>>, t: Tables, o: Owner, data: map<nat, seq<Blocks.byte>>,
                  d: nat, c: nat, text: nat, n: nat)
    requires KernelText(text) && Inv(t0, o0) && Inv(t, o) && n <= UPAGES
    requires Copied(t0, o0, data0, t, o, data, d, c, text, n) && NewTables(o0, o, KernelIndices() + Indices(0, n))
    ensures |o| == |o0| + CopyCost(n)
  {
    CopyPages(t0, o0, data0, t, o, data, d, c, text, n);
    forall i | i in KernelIndices() + Indices(0, n)
      ensures HasTable(o, c, i) && !HasTable(o0, c, i)
    {
      NoneBefore(t0, o0, c, i);
      CopyTable(t0, o0, data0, t, o, data, d, c, text, n, i);
    }
    hide Lookup, Inv;
    TablesCount(t, o0, o, c, KernelIndices() + Indices(0, n));
    CopyIndices(n);
  }

  lemma CopyTable(t0: Tables, o0: Owner, data0: map<nat, seq<Blocks.byte>>, t: Tables, o: Owner, data: map<nat, seq<Blocks.byte>>,
                  d: nat, c: nat, text: nat, n: nat, i: nat)
    requires KernelText(text) && Inv(t, o) && n <= UPAGES && Copied(t0, o0, data0, t, o, data, d, c, text, n)
    requires i in KernelIndices() || i in Indices(0, n)
    ensures HasTable(o, c, i)
  {
    LinkedIs(t, o, c, i);
    if i in KernelIndices() {
      KernelPage(text, i);
      assert Lookup(t, c, i * NENTRIES) == KernelEntry(text, 4, i * NENTRIES);
    } else {
      var v := SpanPage(0, n, i);
      assert CopyOf(o0, data0, data, Lookup(t0, d, v), Lookup(t, c, v));
    }
  }

  // Where copyuvm gives up at page i, what it has taken and given back again is less
  // than it needs.
  lemma CopyTooShort(t0: Tables, o0: Owner, data0: map<nat, seq<Blocks.byte>>, t: Tables, o: Owner, data: map<nat, seq<Blocks.byte>>,
                     t1: Tables, o1: Owner, d: nat, c: nat, text: nat, i: nat, n: nat, back: nat)
    requires KernelText(text) && Inv(t0, o0) && Inv(t, o) && Inv(t1, o1) && i < n <= UPAGES
    requires Copied(t0, o0, data0, t, o, data, d, c, text, i) && GrewTables(o, o1, c)
    requires NewTables(o0, o1, KernelIndices() + Indices(0, n))
    requires back == 0 || (back == 1 && !HasTable(o1, c, Pdx(i)))
    ensures |o1| + back < |o0| + CopyCost(n)
  {
    hide *;
    CopyPages(t0, o0, data0, t, o, data, d, c, text, i);
    CopyIndices(n);
    var all := KernelIndices() + Indices(0, n);
    var s := if back == 0 then all else all - {Pdx(i)};
    CopyFrames(t0, o0, data0, t, o, data, o1, d, c, text, i, n, s);
    TablesCount(t1, o0, o1, c, s);
    AddedCount(o0, o1);
    AddedCount(o0, o);
  }

  lemma CopyFrames(t0: Tables, o0: Owner, data0: map<nat, seq<Blocks.byte>>, t: Tables, o: Owner, data: map<nat, seq<Blocks.byte>>,
                   o1: Owner, d: nat, c: nat, text: nat, i: nat, n: nat, s: set<nat>)
    requires KernelText(text) && i < n && Copied(t0, o0, data0, t, o, data, d, c, text, i) && GrewTables(o, o1, c)
    requires NewTables(o0, o1, KernelIndices() + Indices(0, n))
    requires forall f :: f in TablesIn(o0, o) ==> o[f].dir == c
    requires var all := KernelIndices() + Indices(0, n); s == all || (s == all - {Pdx(i)} && !HasTable(o1, c, Pdx(i)))
    ensures o0.Keys <= o.Keys <= o1.Keys && PagesIn(o0, o1) == PagesIn(o0, o) && OthersIn(o0, o1) == OthersIn(o0, o)
    ensures NewTables(o0, o1, s) && forall f :: f in TablesIn(o0, o1) ==> o1[f].dir == c
    ensures Pdx(i) in KernelIndices() + Indices(0, n)
  {
    SpanOf(0, n, i);
    hide Lookup;
  }
}
