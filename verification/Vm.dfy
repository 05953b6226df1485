/**
 The frame allocator of xv6/kalloc.c and the user memory of xv6/vm.c.  Addresses
 are in pages: frame f is physical address f*PGSIZE, page v is virtual address
 v*PGSIZE.  tables and data are the contents of frames, by the way the kernel
 uses them; a frame on the free list has none.

 Every frame handed to the allocator is, at all times, exactly one of: on the free
 list, a directory, a table of one directory, a page of one directory, or loose in
 the hands of kernel code.
 */
module Vm {
  import opened Basics
  import opened Blocks
  import opened Options
  import opened PageTables
  import opened VmSpec
  import opened VmCost

  class Machine {
    const lo: nat                       // first frame after the kernel
    var free: seq<nat>
    var tables: Tables
    var data: map<nat, seq<byte>>
    ghost var owner: Owner
    ghost var all: set<nat>             // every frame the allocator was given

    ghost predicate Frames()
      reads this
    {
      Shared(free, owner, all, lo)
    }

    ghost predicate Valid()
      reads this
    {
      Shared(free, owner, all, lo) && Inv(tables, owner) && Filled(owner, data)
    }

    lemma Open()
      requires Valid()
      ensures Frames() && Shared(free, owner, all, lo) && Inv(tables, owner) && Filled(owner, data)
    {
    }

    lemma OpenFrames()
      requires Frames()
      ensures Shared(free, owner, all, lo)
    {
    }

    lemma Close()
      requires Shared(free, owner, all, lo) && Inv(tables, owner) && Filled(owner, data)
      ensures Valid()
    {
    }

    constructor (lo: nat)
      requires 0 < lo
      ensures Valid() && all == {} && this.lo == lo
    {
      this.lo := lo;
      free, tables, data, owner, all := [], map[], map[], map[], {};
    }

    method Kfree(f: nat) returns (ok: bool)
      modifies this
      ensures ok <==> Takes(lo, f)
      ensures !ok ==> unchanged(this)
      ensures ok ==>
        && free == [f] + old(free) && owner == old(owner) - {f} && all == old(all) + {f}
        && tables == old(tables) - {f} && data == old(data) - {f}
      ensures ok && old(Frames()) ==> (Frames() <==> f !in old(free))
    {
      if f < lo || f >= PHYS_PAGES {
        return false;
      }
      PutTwice(free, f);
      tables, data := tables - {f}, data - {f};
      free := [f] + free;
      owner, all := owner - {f}, all + {f};
      ok := true;
    }

    method Kalloc() returns (r: Option<nat>)
      requires Frames()
      modifies this`free, this`owner
      ensures Frames()
      ensures r.None? <==> old(free) == []
      ensures r.None? ==> free == old(free) && owner == old(owner)
      ensures r.Some? ==>
        && r.value == old(free)[0] && free == old(free)[1..]
        && r.value !in old(owner) && owner == old(owner)[r.value := Loose]
    {
      if free == [] {
        return None;
      }
      r := Some(free[0]);
      owner := owner[free[0] := Loose];
      assert free == [free[0]] + free[1..];
      free := free[1..];
    }

    // Give the whole pages between two addresses to the allocator.  A page it already
    // has spoils its list.
    method Freerange(start: nat, end: nat) returns (ok: bool)
      requires Frames()
      modifies this
      ensures ok <==> forall f :: WholePage(start, end, f) ==> Takes(lo, f)
      ensures ok ==>
        && (forall f :: f in all <==> f in old(all) || WholePage(start, end, f))
        && (forall f :: f in free <==> f in old(free) || WholePage(start, end, f))
        && (forall f :: f in owner <==> f in old(owner) && !WholePage(start, end, f))
        && (forall f :: f in owner ==> owner[f] == old(owner)[f])
        && (Frames() <==> forall f :: WholePage(start, end, f) ==> f !in old(free))
    {
      var p := PageUp(start);
      while (p + 1) * PGSIZE <= end
        invariant PageUp(start) <= p
        invariant forall f: nat :: WholePage(start, end, f) && f < p ==> Takes(lo, f)
        invariant forall f: nat :: f in all <==> f in old(all) || (WholePage(start, end, f) && f < p)
        invariant forall f: nat :: f in free <==> f in old(free) || (WholePage(start, end, f) && f < p)
        invariant forall f: nat :: f in owner <==> f in old(owner) && !(WholePage(start, end, f) && f < p)
        invariant forall f: nat :: f in owner ==> owner[f] == old(owner)[f]
        invariant (forall f: nat :: WholePage(start, end, f) && f < p ==> f !in old(free)) ==> Frames()
        invariant !(forall f: nat :: WholePage(start, end, f) && f < p ==> f !in old(free)) ==> !Distinct(free)
      {
        assert WholePage(start, end, p);
        ghost var was := free;
        ok := Kfree(p);
        if !ok {
          return;
        }
        PutTwice(was, p);
        p := p + 1;
      }
      ok := true;
    }

    // The table that holds page v's entry; a blank one is made if alloc.
    method Walkpgdir(d: nat, v: nat, alloc: bool) returns (s: Option<nat>)
      requires Valid() && IsDir(owner, d) && v < VPAGES
      modifies this`free, this`tables, this`owner
      ensures Valid() && SameMaps(old(tables), tables, old(owner)) && GrewTables(old(owner), owner, d)
      ensures IsTable(tables, d)
      ensures s.Some? ==> IsTable(tables, s.value) && tables[d][Pdx(v)].Present? && tables[d][Pdx(v)].frame == s.value
      ensures s.None? ==> tables[d][Pdx(v)].Absent? && unchanged(this)
      ensures s.None? && alloc ==> free == []
      ensures s.None? ==> !HasTable(owner, d, Pdx(v))
      ensures NewTables(old(owner), owner, {Pdx(v)})
      ensures !alloc ==> unchanged(this)
    {
      TableOf(tables, owner, d, Pdx(v));
      LinkedIs(tables, owner, d, Pdx(v));
      hide Inv, Lookup, Shared, HasTable;
      var pde := tables[d][Pdx(v)];
      if pde.Present? {
        return Some(pde.frame);
      }
      if !alloc {
        return None;
      }
      s := NewTable(d, Pdx(v));
    }

    method NewTable(d: nat, i: nat) returns (s: Option<nat>)
      requires Valid() && IsDir(owner, d) && IsTable(tables, d) && i < NENTRIES && tables[d][i].Absent?
      modifies this`free, this`tables, this`owner
      ensures Valid() && SameMaps(old(tables), tables, old(owner)) && GrewTables(old(owner), owner, d)
      ensures IsTable(tables, d)
      ensures s.Some? ==> IsTable(tables, s.value) && tables[d][i].Present? && tables[d][i].frame == s.value
      ensures s.None? ==> unchanged(this) && free == []
      ensures NewTables(old(owner), owner, {i})
    {
      NoTables(owner, {i});
      var pgtab := Kalloc();
      if pgtab.None? {
        return None;
      }
      var f := pgtab.value;
      NewTableFacts(free, tables, old(owner), all, lo, data, d, i, f);
      OneTable(old(owner), f, d, i);
      hide *;
      tables := tables[f := Blank()];
      tables := tables[d := tables[d][i := Present(f, true, true)]];
      owner := owner[f := Table(d, i)];
      s := Some(f);
    }

    // The store that maps page a of d, whose entry is in table s.
    method StoreEntry(d: nat, a: nat, s: nat, f: nat, w: bool, u: bool)
      requires Valid() && IsDir(owner, d) && IsTable(tables, d) && a < VPAGES
      requires tables[d][Pdx(a)].Present? && tables[d][Pdx(a)].frame == s && Lookup(tables, d, a).Absent?
      requires a < UPAGES ==> f in owner && owner[f].Loose? && f in data
      modifies this`tables, this`owner
      ensures Valid() && OnePage(old(tables), tables, old(owner), d, a, Present(f, w, u))
      ensures owner == if a < UPAGES then old(owner)[f := Page(d, a)] else old(owner)
    {
      var x := Present(f, w, u);
      SetLooks(tables, owner, d, a, x);
      if a < UPAGES {
        MapKeeps(tables, owner, d, a, f, w, u);
      } else {
        KernelKeeps(tables, owner, d, a, x);
      }
      hide Inv, OnePage, Lookup;
      tables := tables[s := tables[s][Ptx(a) := x]];
      if a < UPAGES {
        owner := owner[f := Page(d, a)];
      }
    }

    // One turn of mappages: find or make the table, refuse to remap, store the entry.
    method MapOne(d: nat, a: nat, p: nat, w: bool, u: bool) returns (r: Outcome<()>)
      requires Valid() && IsDir(owner, d) && a < VPAGES
      requires a < UPAGES ==> p in owner && owner[p].Loose? && p in data
      modifies this`free, this`tables, this`owner
      ensures Valid()
      ensures r.Done? ==> Lookup(old(tables), d, a).Absent?
      ensures r.Done? ==> Mapped(old(tables), tables, old(owner), d, a, 1, p, w, u) && Given(old(owner), owner, d, a, 1, p)
      ensures r.Panic? <==> Lookup(old(tables), d, a).Present?
      ensures r.NoMemory? ==> free == [] && !HasTable(owner, d, Pdx(a))
      ensures NewTables(old(owner), owner, {Pdx(a)})
      ensures !r.Done? ==> SameMaps(old(tables), tables, old(owner)) && GrewTables(old(owner), owner, d)
    {
      hide Inv, Shared, HasTable;
      var s := Walkpgdir(d, a, true);
      LookIs(tables, d, a);
      assert Lookup(tables, d, a) == Lookup(old(tables), d, a);
      hide Lookup;
      if s.None? {
        return NoMemory;
      }
      if tables[s.value][Ptx(a)].Present? {
        return Panic;
      }
      ghost var t1, o1 := tables, owner;
      StoreEntry(d, a, s.value, p, w, u);
      MapOnly(old(tables), old(owner), t1, o1, tables, owner, d, a, p, w, u);
      r := Done(());
    }

    // Map pages first..last to the frames from pa on; k pages get mapped.
    method Mappages(d: nat, first: nat, last: nat, pa: nat, w: bool, u: bool) returns (r: Outcome<()>, ghost k: nat)
      requires Valid() && IsDir(owner, d) && first <= last < VPAGES
      requires Backed(owner, data, first, last - first + 1, pa)
      modifies this`free, this`tables, this`owner
      ensures Valid() && k <= last - first + 1
      ensures Mapped(old(tables), tables, old(owner), d, first, k, pa, w, u) && Given(old(owner), owner, d, first, k, pa)
      ensures Clear(old(tables), d, first, first + k)
      ensures r.Done? <==> k == last - first + 1
      ensures r.Panic? ==> Lookup(old(tables), d, first + k).Present?
      ensures r.NoMemory? ==> free == [] && Lookup(old(tables), d, first + k).Absent? && !HasTable(owner, d, Pdx(first + k))
      ensures NewTables(old(owner), owner, Indices(first, last + 1))
    {
      hide *;
      var a, p := first, pa;
      k := 0;
      MapStart(tables, owner, d, first, pa, w, u);
      NoTables(owner, Indices(first, last + 1));
      while true
        invariant Valid() && k == a - first && p == pa + k && a <= last
        invariant Mapped(old(tables), tables, old(owner), d, first, k, pa, w, u)
        invariant Given(old(owner), owner, d, first, k, pa)
        invariant Clear(old(tables), d, first, a)
        invariant NewTables(old(owner), owner, Indices(first, last + 1))
        decreases last - a
      {
        ghost var t, o := tables, owner;
        MapNext(old(tables), old(owner), data, t, o, d, first, k, last - first + 1, pa, w, u);
        r := MapOne(d, a, p, w, u);
        if r.Done? {
          MapStep(old(tables), old(owner), t, o, tables, owner, d, first, k, pa, w, u);
          MapTables(old(owner), o, owner, d, first, k, last, pa);
        } else {
          MoreTables(old(owner), o, owner, d, first, last + 1, a);
          MapMore(old(tables), old(owner), t, o, tables, owner, d, first, k, pa, w, u);
          return;
        }
        k := k + 1;
        if a == last {
          break;
        }
        a, p := a + 1, p + 1;
      }
      r := Done(());
    }

    // Take page a of d away; its entry is in table s.
    method DropPage(d: nat, a: nat, s: nat) returns (panic: bool)
      requires Valid() && IsDir(owner, d) && IsTable(tables, d) && a < UPAGES
      requires tables[d][Pdx(a)].Present? && tables[d][Pdx(a)].frame == s && Lookup(tables, d, a).Present?
      modifies this
      ensures Valid() && !panic && all == old(all)
      ensures var f := Lookup(old(tables), d, a).frame;
              f in old(owner) && old(owner)[f] == Page(d, a) && owner == old(owner) - {f}
      ensures OnePage(old(tables), tables, old(owner), d, a, Absent) && SameData(owner, old(data), data)
    {
      hide *;
      Open();
      DropFacts(free, tables, owner, all, lo, data, d, a);
      var pa := tables[s][Ptx(a)].frame;
      if pa == 0 {
        return true;
      }
      var ok := Kfree(pa);
      if !ok {
        return true;
      }
      OpenFrames();
      DropDone(free, owner, old(owner), all, old(all), lo, old(data), pa);
      tables := tables[s := tables[s][Ptx(a) := Absent]];
      Close();
      panic := false;
    }

    // Take all mapped pages between two sizes away.  Pages whose table is missing are
    // skipped by the tableful.
    method Deallocuvm(d: nat, oldsz: nat, newsz: nat) returns (sz: nat, panic: bool)
      requires Valid() && IsDir(owner, d) && oldsz <= KERNBASE
      modifies this
      ensures Valid() && !panic && all == old(all)
      ensures newsz >= oldsz ==> sz == oldsz && unchanged(this)
      ensures newsz < oldsz ==>
        && sz == newsz && Dropped(old(tables), old(owner), tables, owner, d, PageUp(newsz), PageUp(oldsz))
      ensures SameData(owner, old(data), data)
      ensures NoneAbove(old(tables), d, oldsz) ==> NoneAbove(tables, d, sz)
      ensures AllBelow(old(tables), d, oldsz) ==> AllBelow(tables, d, sz)
    {
      hide *;
      DropStart(tables, owner, data, d, PageUp(newsz));
      if newsz >= oldsz {
        return oldsz, false;
      }
      var a := PageUp(newsz);
      ghost var c := a;                 // pages below c are done
      var b := PageUp(oldsz);
      PageUps(newsz, oldsz);
      while a < b
        invariant Valid() && all == old(all) && PageUp(newsz) <= c <= b <= UPAGES && c == (if a < b then a else b)
        invariant Dropped(old(tables), old(owner), tables, owner, d, PageUp(newsz), c)
        invariant SameData(owner, old(data), data)
        decreases b - a
      {
        ghost var t, o, dt := tables, owner, data;
        Open();
        DropNext(old(tables), old(owner), t, o, d, PageUp(newsz), a);
        var s := Walkpgdir(d, a, false);
        LookIs(tables, d, a);
        if s.None? {
          SkipTable(old(tables), old(owner), tables, owner, d, PageUp(newsz), c, b);
          a := NextTable(a) - 1;
          c := if a + 1 < b then a + 1 else b;
        } else {
          if tables[s.value][Ptx(a)].Present? {
            panic := DropPage(d, a, s.value);
            DropStep(old(tables), old(owner), t, o, tables, owner, d, PageUp(newsz), a, old(data), dt, data);
          } else {
            DropOne(old(tables), old(owner), tables, owner, d, PageUp(newsz), a);
          }
          c := a + 1;
        }
        a := a + 1;
      }
      DroppedSize(old(tables), old(owner), tables, owner, d, oldsz, newsz);
      return newsz, false;
    }

    // kfree of a frame that kernel code holds.
    method FreeLoose(f: nat) returns (panic: bool)
      requires Valid() && f in owner && owner[f].Loose?
      modifies this
      ensures Valid() && !panic && all == old(all) && owner == old(owner) - {f} && tables == old(tables) - {f}
      ensures free == [f] + old(free)
      ensures SameMaps(old(tables), tables, old(owner)) && SameData(owner, old(data), data)
    {
      hide *;
      Open();
      LooseFacts(free, tables, owner, all, lo, f);
      var ok := Kfree(f);
      OpenFrames();
      DropDone(free, owner, old(owner), all, old(all), lo, old(data), f);
      Close();
      panic := !ok;
    }

    // Give up a whole address space: its user pages, its tables, its directory.
    method Freevm(d: nat) returns (panic: bool)
      requires Valid() && (d == 0 || IsDir(owner, d))
      modifies this
      ensures Valid() && all == old(all) && (panic <==> d == 0)
      ensures panic ==> unchanged(this)
      ensures !panic ==> owner == WithoutSpace(old(owner), d)
      ensures !panic ==> SameMaps(old(tables), tables, owner) && SameData(owner, old(data), data)
    {
      hide *;
      if d == 0 {
        return true;
      }
      NoSize();
      Open();
      var _, stuck := Deallocuvm(d, KERNBASE, 0);
      ghost var t, o, dt := tables, owner, data;
      Open();
      FreeStart(old(tables), old(owner), t, o, dt, d, free, all, lo);
      owner := Disowned(owner, d);
      Close();
      var i := 0;
      while i < NENTRIES
        invariant i <= NENTRIES && Valid() && all == old(all)
        invariant Freeing(t, o, tables, owner, d, i) && SameData(owner, dt, data)
      {
        Open();
        FreeNext(t, o, tables, owner, d, i);
        ghost var t', o', dt' := tables, owner, data;
        if tables[d][i].Present? {
          stuck := FreeLoose(tables[d][i].frame);
          FreeStep(t, o, t', o', tables, owner, d, i, dt, dt', data);
        }
        i := i + 1;
      }
      ghost var t', o', dt' := tables, owner, data;
      FreeLast(t, o, t', o', d);
      stuck := FreeLoose(d);
      FreeDone(old(tables), old(owner), t, o, t', o', tables, owner, d, old(data), dt, dt', data);
      panic := false;
    }

    // A fresh address space with the kernel's mappings, or nothing.
    method Setupkvm(text: nat) returns (r: Option<nat>)
      requires Valid() && KernelText(text)
      modifies this
      ensures Valid() && all == old(all)
      ensures SameMaps(old(tables), tables, old(owner)) && SameData(old(owner), old(data), data)
      ensures r.None? ==> owner == old(owner)
      ensures r.Some? ==> Kernel(old(tables), old(owner), tables, owner, r.value, text, 4)
      ensures r.None? <==> |old(free)| < KERNEL_COST
      ensures r.Some? ==> |free| == |old(free)| - KERNEL_COST && NewTables(old(owner), owner, KernelIndices())
    {
      hide *;
      Open();
      Costs(0);
      FreeCount(free, owner, all, lo);
      NoTables(owner, KernelIndices());
      SameStart(tables, owner, data);
      r := Kalloc();
      if r.None? {
        Close();
        return;
      }
      var d := r.value;
      OpenFrames();
      KernelStart(free, tables, old(owner), all, lo, data, d, text);
      DirTables(old(owner), d, KernelIndices());
      tables := tables[d := Blank()];
      owner := owner[d := Dir];
      Close();
      var k := 0;
      while k < 4
        invariant k <= 4 && Valid() && all == old(all) && data == old(data)
        invariant Kernel(old(tables), old(owner), tables, owner, d, text, k)
        invariant NewTables(old(owner), owner, KernelIndices())
        decreases 4 - k
      {
        ghost var t, o := tables, owner;
        var m := Kmap(text)[k];
        RegionFits(text, k, o, data);
        KernelDir(old(tables), old(owner), t, o, d, text, k);
        var res, n := Mappages(d, m.first, m.last, m.pa, m.w, false);
        KernelStep(old(tables), old(owner), t, o, tables, owner, d, text, k, n);
        KernelTables(old(owner), o, owner, d, text, k, n);
        assert !res.Panic?;
        if res.NoMemory? {
          Open();
          KernelShort(old(tables), old(owner), tables, owner, d, Pdx(m.first + n));
          FreeCount(free, owner, all, lo);
          ghost var t1, o1 := tables, owner;
          var _ := Freevm(d);
          SpaceUndone(old(tables), old(owner), t1, o1, tables, owner, d, old(data), data);
          return None;
        }
        k := k + 1;
      }
      SameKernel(old(tables), old(owner), tables, owner, d, text, 4, old(data));
      Open();
      KernelExact(old(tables), old(owner), tables, owner, d, text);
      FreeCount(free, owner, all, lo);
      r := Some(d);
    }

    // Grow a process.  newsz is returned on success and 0 on failure.
    method Allocuvm(d: nat, oldsz: nat, newsz: nat) returns (r: Outcome<nat>)
      requires Valid() && IsDir(owner, d)
      modifies this
      ensures Valid() && all == old(all)
      ensures newsz >= KERNBASE ==> r == Done(0) && unchanged(this)
      ensures newsz < KERNBASE && newsz < oldsz ==> r == Done(oldsz) && unchanged(this)
      ensures oldsz <= newsz < KERNBASE ==>
        && (r.Done? ==> r.value == newsz)
        && (r.Done? ==> Clear(old(tables), d, PageUp(oldsz), PageUp(newsz)))
        && (r.Done? ==> Grown(old(tables), old(owner), tables, owner, data, d, PageUp(oldsz), PageUp(newsz)))
        && (r.Done? ==> SameData(old(owner), old(data), data))
        && (r.Panic? ==> !Clear(old(tables), d, PageUp(oldsz), PageUp(newsz)))
        && (r.NoMemory? ==> ShrunkBack(old(tables), old(owner), old(data), tables, owner, data, d, PageUp(oldsz), PageUp(newsz)))
        && (r.Done? ==> |free| == |old(free)| - GrowCost(old(tables), d, PageUp(oldsz), PageUp(newsz)))
        && (r.NoMemory? ==> |old(free)| < GrowCost(old(tables), d, PageUp(oldsz), PageUp(newsz)))
        && (r.Done? && NoneAbove(old(tables), d, oldsz) ==> NoneAbove(tables, d, newsz))
        && (r.Done? && AllBelow(old(tables), d, oldsz) ==> AllBelow(tables, d, newsz))
    {
      hide *;
      if newsz >= KERNBASE {
        return Done(0);
      }
      if newsz < oldsz {
        return Done(oldsz);
      }
      var a := PageUp(oldsz);
      GrowStart(tables, owner, data, d, a);
      PageUpTo(oldsz, newsz);
      NoTables(owner, Indices(a, PageUp(newsz)));
      Open();
      FreeCount(free, owner, all, lo);
      while a < PageUp(newsz)
        invariant Valid() && all == old(all) && PageUp(oldsz) <= a <= PageUp(newsz) && PageUp(newsz) <= UPAGES
        invariant Clear(old(tables), d, PageUp(oldsz), a) && SameData(old(owner), old(data), data)
        invariant Grown(old(tables), old(owner), tables, owner, data, d, PageUp(oldsz), a)
        invariant NewTables(old(owner), owner, Indices(PageUp(oldsz), PageUp(newsz)))
        decreases PageUp(newsz) - a
      {
        ghost var t, o, dt := tables, owner, data;
        GrowNext(old(tables), old(owner), t, o, dt, d, PageUp(oldsz), a, PageUp(newsz));
        var res, mem := AllocOne(d, a);
        if res.Panic? {
          return Panic;
        }
        if res.NoMemory? {
          ghost var t1, o1, dt1 := tables, owner, data;
          MissDir(t, o, dt, t1, o1, dt1, d, mem, ZeroPage());
          MissTables(old(owner), t, o, dt, t1, o1, dt1, d, PageUp(oldsz), PageUp(newsz), a, mem, ZeroPage());
          Open();
          GrowShort(old(tables), old(owner), t, o, dt, t1, o1, dt1, d, PageUp(oldsz), a, PageUp(newsz), mem);
          FreeCount(free, owner, all, lo);
          UndoSizes(oldsz, newsz, a);
          var _, _ := Deallocuvm(d, newsz, oldsz);
          GrowBack(old(tables), old(owner), old(data), t, o, dt, t1, o1, dt1, tables, owner, data,
                   d, PageUp(oldsz), a, PageUp(newsz), mem);
          if mem.Some? {
            SpareLoose(old(tables), old(owner), old(data), tables, owner, data, d, PageUp(oldsz), PageUp(newsz), mem.value);
            ghost var t2, o2, dt2 := tables, owner, data;
            var _ := FreeLoose(mem.value);
            GrowUndone(old(tables), old(owner), old(data), t2, o2, dt2, tables, owner, data,
                       d, PageUp(oldsz), PageUp(newsz), mem.value);
          }
          return NoMemory;
        }
        GrowStep(old(tables), old(owner), old(data), t, o, dt, tables, owner, data, d, PageUp(oldsz), a, mem.value);
        GrowTables(old(owner), t, o, dt, tables, owner, data, d, PageUp(oldsz), PageUp(newsz), a, mem.value, ZeroPage(), true, true);
        a := a + 1;
      }
      Open();
      GrowExact(old(tables), old(owner), tables, owner, data, d, PageUp(oldsz), PageUp(newsz));
      GrownSize(old(tables), old(owner), tables, owner, data, d, oldsz, newsz);
      FreeCount(free, owner, all, lo);
      r := Done(newsz);
    }

    // Grow or shrink a process of size sz by n bytes, n a C int and the size an unsigned
    // one.  size is the process's size afterwards.
    method Growproc(d: nat, sz: nat, n: int) returns (ok: bool, size: nat)
      requires Valid() && IsDir(owner, d) && sz < KERNBASE && -0x8000_0000 <= n < 0x8000_0000 && NoneAbove(tables, d, sz)
      modifies this
      ensures Valid() && all == old(all) && IsDir(owner, d) && size < KERNBASE && NoneAbove(tables, d, size)
      ensures ok <==> if n > 0 then sz + n < KERNBASE && |old(free)| >= GrowCost(old(tables), d, PageUp(sz), PageUp(sz + n))
                      else n == 0 || (sz != 0 && sz + n != 0)
      ensures size == if ok && sz + n >= 0 then sz + n else sz
      ensures ok && n > 0 ==> Grown(old(tables), old(owner), tables, owner, data, d, PageUp(sz), PageUp(sz + n))
      ensures n < 0 <= sz + n ==> Dropped(old(tables), old(owner), tables, owner, d, PageUp(sz + n), PageUp(sz))
      ensures !ok && !GivesUpAll(sz, n) ==> Restored(old(tables), old(owner), old(data), tables, owner, data, d)
      ensures AllBelow(old(tables), d, sz) ==> (AllBelow(tables, d, size) <==> !GivesUpAll(sz, n))
      ensures AllBelow(old(tables), d, sz) && !ok ==> (SameMaps(old(tables), tables, old(owner)) <==> !GivesUpAll(sz, n))
    {
      hide *;
      SameStart(tables, owner, data);
      Unsized(sz, n);
      RestoredIs(tables, owner, data, d);
      if n > 0 {
        if sz + n < KERNBASE {
          PageUpTo(sz, sz + n);
          RoomToGrow(tables, d, sz, sz + n);
        }
        ghost var t, o, dt := tables, owner, data;
        Open();
        var r := Allocuvm(d, sz, sz + n);
        if r.NoMemory? {
          FailedRestores(t, o, dt, tables, owner, data, d, sz, sz + n);
          return false, sz;
        }
        if r.value == 0 {
          return false, sz;
        }
        GrownDir(t, o, tables, owner, data, d, PageUp(sz), PageUp(sz + n));
        return true, r.value;
      }
      if n < 0 {
        var newsz := Wrapped(sz, n);
        ghost var t, o := tables, owner;
        var r, _ := Deallocuvm(d, sz, newsz);
        if newsz < sz {
          DropNext(t, o, tables, owner, d, PageUp(newsz), PageUp(sz));
          DroppedSize(t, o, tables, owner, d, sz, newsz);
        }
        if r == 0 {
          ZeroAbove(tables, d, sz, newsz);
          return false, sz;
        }
        return true, r;
      }
      return true, sz;
    }

    // One turn of allocuvm: a zeroed frame for page a.
    method AllocOne(d: nat, a: nat) returns (r: Outcome<()>, mem: Option<nat>)
      requires Valid() && IsDir(owner, d) && a < UPAGES
      modifies this
      ensures Valid() && all == old(all)
      ensures r.Done? ==> Lookup(old(tables), d, a).Absent? && mem.Some?
      ensures r.Done? ==> Fresh(old(tables), old(owner), old(data), tables, owner, data, d, a, mem.value, ZeroPage(), true, true)
      ensures r.Panic? ==> Lookup(old(tables), d, a).Present?
      ensures r.NoMemory? ==> Missed(old(tables), old(owner), old(data), tables, owner, data, d, mem, ZeroPage())
      ensures r.NoMemory? ==> free == [] && (mem.Some? ==> !HasTable(owner, d, Pdx(a)))
      ensures NewTables(old(owner), owner, {Pdx(a)})
    {
      hide *;
      Open();
      NoTables(owner, {Pdx(a)});
      mem := Kalloc();
      if mem.None? {
        MissNone(tables, owner, data, d, ZeroPage());
        Close();
        return NoMemory, None;
      }
      var f := mem.value;
      OpenFrames();
      AllocFacts(free, tables, old(owner), all, lo, data, d, a, f, ZeroPage());
      data := data[f := ZeroPage()];
      Close();
      var res, k := Mappages(d, a, a, f, true, true);
      AllocTables(old(owner), owner, d, a, k, f);
      if res.Done? {
        FreshFacts(old(tables), old(owner), old(data), tables, owner, d, a, f, ZeroPage(), true, true);
        return Done(()), mem;
      }
      if res.Panic? {
        return Panic, mem;
      }
      MissSome(old(tables), old(owner), old(data), tables, owner, d, a, f, ZeroPage(), true, true);
      return NoMemory, mem;
    }

    // One turn of copyuvm: a copy of page i of d for directory c.
    method CopyOne(d: nat, c: nat, i: nat) returns (r: Outcome<nat>)
      requires Valid() && IsDir(owner, d) && IsDir(owner, c) && d != c && i < UPAGES && Lookup(tables, c, i).Absent?
      modifies this
      ensures Valid() && all == old(all)
      ensures r.Panic? <==> Lookup(old(tables), d, i).Absent?
      ensures r.Done? ==>
        && Lookup(old(tables), d, i).frame in old(data)
        && Fresh(old(tables), old(owner), old(data), tables, owner, data, c, i, r.value,
                 old(data)[Lookup(old(tables), d, i).frame], Lookup(old(tables), d, i).w, Lookup(old(tables), d, i).u)
      ensures r.NoMemory? ==>
        && GrewTables(old(owner), owner, c) && SameMaps(old(tables), tables, old(owner))
        && SameData(old(owner), old(data), data)
        && (free == [] || (|free| == 1 && !HasTable(owner, c, Pdx(i))))
      ensures NewTables(old(owner), owner, {Pdx(i)})
    {
      hide *;
      Open();
      CopyFacts(tables, owner, data, d, i);
      NoTables(owner, {Pdx(i)});
      var s := Walkpgdir(d, i, false);
      LookIs(tables, d, i);
      if s.None? {
        return Panic;
      }
      var pte := tables[s.value][Ptx(i)];
      if pte.Absent? {
        return Panic;
      }
      var page, w, u := data[pte.frame], pte.w, pte.u;
      var mem := Kalloc();
      if mem.None? {
        CopyNone(tables, owner, data, c);
        Close();
        return NoMemory;
      }
      var f := mem.value;
      OpenFrames();
      AllocFacts(free, tables, old(owner), all, lo, data, c, i, f, page);
      data := data[f := page];
      Close();
      var res, k := Mappages(c, i, i, f, w, u);
      AllocTables(old(owner), owner, c, i, k, f);
      assert !res.Panic?;
      if res.Done? {
        FreshFacts(old(tables), old(owner), old(data), tables, owner, c, i, f, page, w, u);
        return Done(f);
      }
      MissSome(old(tables), old(owner), old(data), tables, owner, c, i, f, page, w, u);
      ghost var t1, o1, dt1 := tables, owner, data;
      LessTables(old(owner), owner, {Pdx(i)}, c, Pdx(i), f);
      var _ := FreeLoose(f);
      CopyMissed(old(tables), old(owner), old(data), t1, o1, dt1, tables, owner, data, c, f, page);
      return NoMemory;
    }

    // A child's address space: the kernel's mappings and a copy of each page below sz.
    method Copyuvm(d: nat, sz: nat, text: nat) returns (r: Outcome<nat>)
      requires Valid() && IsDir(owner, d) && sz <= KERNBASE && KernelText(text)
      modifies this
      ensures Valid() && all == old(all)
      ensures r.Done? ==> Copied(old(tables), old(owner), old(data), tables, owner, data, d, r.value, text, PageUp(sz))
      ensures r.Panic? ==> exists v :: 0 <= v < PageUp(sz) && Lookup(old(tables), d, v).Absent?
      ensures r.NoMemory? ==>
        && owner == old(owner) && SameMaps(old(tables), tables, old(owner)) && SameData(owner, old(data), data)
      ensures r.Done? ==> NoneAbove(tables, r.value, sz) && AllBelow(tables, r.value, sz)
      ensures r.Done? ==> |free| == |old(free)| - CopyCost(PageUp(sz))
      ensures r.NoMemory? ==> |old(free)| < CopyCost(PageUp(sz))
    {
      hide *;
      Open();
      Costs(PageUp(sz));
      FreeCount(free, owner, all, lo);
      var c := Setupkvm(text);
      if c.None? {
        return NoMemory;
      }
      CopyStart(old(tables), old(owner), old(data), tables, owner, data, d, c.value, text, sz);
      CopyStartTables(old(owner), owner, PageUp(sz));
      var i := 0;
      while i < PageUp(sz)
        invariant i <= PageUp(sz) && PageUp(sz) <= UPAGES && Valid() && all == old(all)
        invariant Copied(old(tables), old(owner), old(data), tables, owner, data, d, c.value, text, i)
        invariant NewTables(old(owner), owner, KernelIndices() + Indices(0, PageUp(sz)))
        decreases PageUp(sz) - i
      {
        ghost var t, o, dt := tables, owner, data;
        Open();
        CopyNext(old(tables), old(owner), old(data), t, o, dt, d, c.value, text, i);
        var res := CopyOne(d, c.value, i);
        if res.Panic? {
          return Panic;
        }
        if res.NoMemory? {
          ghost var t1, o1, dt1 := tables, owner, data;
          CopyShort(old(tables), old(owner), old(data), t, o, dt, t1, o1, dt1, d, c.value, text, i);
          Open();
          GrewSame(o, owner, c.value);
          CopyTables(old(owner), o, owner, PageUp(sz), i);
          CopyTooShort(old(tables), old(owner), old(data), t, o, dt, t1, o1, d, c.value, text, i, PageUp(sz), |free|);
          FreeCount(free, owner, all, lo);
          NotNull(free, owner, all, lo, c.value);
          var _ := Freevm(c.value);
          SpaceUndone(old(tables), old(owner), t1, o1, tables, owner, c.value, dt1, data);
          CopyUndone(old(owner), old(data), dt1, data);
          return NoMemory;
        }
        FreshSame(t, o, dt, tables, owner, data, d, c.value, i, res.value);
        CopyTables(old(owner), o, owner, PageUp(sz), i);
        CopyStep(old(tables), old(owner), old(data), t, o, dt, tables, owner, data, d, c.value, text, i, res.value);
        i := i + 1;
      }
      Open();
      CopyExact(old(tables), old(owner), old(data), tables, owner, data, d, c.value, text, PageUp(sz));
      CopiedSize(old(tables), old(owner), old(data), tables, owner, data, d, c.value, text, sz);
      FreeCount(free, owner, all, lo);
      r := Done(c.value);
    }

    // pgcnt: how many pages are present and open to the user.
    method Pgcnt(d: nat) returns (cnt: nat)
      requires Valid() && IsDir(owner, d)
      ensures cnt == |UserPages(tables, d, VPAGES)|
    {
      cnt := 0;
      TableOf(tables, owner, d, 0);
      hide Shared, Inv, Lookup, Filled, UserPages;
      NoPages(tables, d);
      for i := 0 to NENTRIES
        invariant cnt == |UserPages(tables, d, i * NENTRIES)|
      {
        assert IsTable(tables, d);
        if tables[d][i].Present? {
          TableOf(tables, owner, d, i);
          var s := tables[d][i].frame;
          for j := 0 to NENTRIES
            invariant cnt == |UserPages(tables, d, i * NENTRIES + j)|
          {
            CountOne(tables, d, i, j);
            if tables[s][j].Present? && tables[s][j].u {
              cnt := cnt + 1;
            }
          }
        } else {
          CountNone(tables, d, i);
        }
      }
    }
  }

  lemma HundredFrames(lo: nat, all: set<nat>)
    requires forall f: nat :: f in all <==> WholePage(lo * PGSIZE, (lo + 100) * PGSIZE, f)
    ensures |all| == 100
  {
    hide Range;
    RangeSize(lo, lo + 100);
    assert PageUp(lo * PGSIZE) == lo;
    assert all == Range(lo, lo + 100);
  }

  lemma FirstPageCost(t: Tables, d: nat)
    ensures GrowCost(t, d, PageUp(0), PageUp(PGSIZE)) <= 2 && PageUp(0) == 0 && PageUp(PGSIZE) == 1
  {
    var s := Missing(t, d, 0, 1);
    assert s <= {0};
    assert s == {} || s == {0};
  }

  // A new machine: one page for a new process, and growproc told to take it back.  It
  // reports failure and leaves the size, and the page is gone.
  method FailsAndShrinks(lo: nat) returns (m: Machine, d: nat, ok: bool, size: nat)
    requires 0 < lo && lo + 100 <= PHYS_PAGES
    ensures m.Valid() && IsDir(m.owner, d) && !ok && size == PGSIZE && Lookup(m.tables, d, 0).Absent?
  {
    m := new Machine(lo);
    assert forall f :: f !in m.free && f !in m.owner;
    var given := m.Freerange(lo * PGSIZE, (lo + 100) * PGSIZE);
    HundredFrames(lo, m.all);
    FreeCount(m.free, m.owner, m.all, m.lo);
    assert m.owner == map[];
    var r := m.Setupkvm(UPAGES + 300);
    d := r.value;
    NoUserPages(m.tables, d, UPAGES + 300);
    FirstPageCost(m.tables, d);
    hide *;
    var grown := m.Allocuvm(d, 0, PGSIZE);
    ok, size := m.Growproc(d, PGSIZE, -PGSIZE);
  }
}
