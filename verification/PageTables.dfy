/**
 Two-level page tables as values (xv6/mmu.h, xv6/vm.c): the frames that hold
 directories and tables, and who owns each frame.  A directory behaves as a
 partial map from page numbers to entries; the lemmas say what each single store
 into a directory or table does to every such map and to the ownership of frames.
 */
module PageTables {

  const PGSIZE := 4096
  const NENTRIES := 1024           // NPDENTRIES and NPTENTRIES
  const KERNBASE := 0x8000_0000
  const UPAGES := 524288           // KERNBASE / PGSIZE, pages of user memory
  const VPAGES := 1048576          // pages of the whole address space

  datatype Entry = Absent | Present(frame: nat, w: bool, u: bool)

  type Tables = map<nat, seq<Entry>>

  // What an allocated frame is used for.  Loose: in the hands of kernel code.
  datatype Use = Loose | Dir | Table(dir: nat, i: nat) | Page(dir: nat, v: nat)

  type Owner = map<nat, Use>

  function Blank(): (s: seq<Entry>)
  {
    seq(NENTRIES, _ => Absent)
  }

  predicate IsTable(t: Tables, f: nat) { f in t && |t[f]| == NENTRIES }

  predicate IsDir(o: Owner, d: nat) { d in o && o[d].Dir? }

  // Where page v's entry is found: directory index and table index.
  function Pdx(v: nat): (i: nat)
    ensures v < VPAGES ==> i < NENTRIES
  {
    v / NENTRIES
  }

  function Ptx(v: nat): (i: nat)
    ensures i < NENTRIES
  {
    v % NENTRIES
  }

  // The entry of page v under directory d, Absent if there is none.
  function Lookup(t: Tables, d: nat, v: nat): (e: Entry)
  {
    if IsTable(t, d) && v < VPAGES && t[d][Pdx(v)].Present? && IsTable(t, t[d][Pdx(v)].frame)
    then t[t[d][Pdx(v)].frame][Ptx(v)] else Absent
  }

  // --- ownership ------------------------------------------------------------------

  // Every frame is where its use says.
  predicate UseAt(t: Tables, o: Owner, f: nat)
  {
    f in o ==>
      match o[f]
      case Loose => true
      case Dir => IsTable(t, f)
      case Table(d, i) =>
        IsDir(o, d) && IsTable(t, d) && IsTable(t, f) && i < NENTRIES && t[d][i].Present? && t[d][i].frame == f
      case Page(d, v) =>
        IsDir(o, d) && v < UPAGES && Lookup(t, d, v).Present? && Lookup(t, d, v).frame == f
  }

  // A present directory entry names a table of its own.
  predicate DirAt(t: Tables, o: Owner, d: nat, i: nat)
  {
    IsDir(o, d) && IsTable(t, d) && i < NENTRIES && t[d][i].Present? ==>
      t[d][i].frame in o && o[t[d][i].frame] == Table(d, i)
  }

  // A present user page has a frame of its own.
  predicate PageAt(t: Tables, o: Owner, d: nat, v: nat)
  {
    IsDir(o, d) && v < UPAGES && Lookup(t, d, v).Present? ==>
      Lookup(t, d, v).frame in o && o[Lookup(t, d, v).frame] == Page(d, v)
  }

  ghost predicate Inv(t: Tables, o: Owner)
  {
    && (forall f :: UseAt(t, o, f))
    && (forall d, i :: DirAt(t, o, d, i))
    && (forall d, v :: PageAt(t, o, d, v))
  }

  // The directories of o translate alike.
  ghost predicate SameMaps(t: Tables, t': Tables, o: Owner)
  {
    forall d, v :: IsDir(o, d) ==> Lookup(t', d, v) == Lookup(t, d, v)
  }

  // Likewise but for page p of directory e, which now has entry x.
  ghost predicate OnePage(t: Tables, t': Tables, o: Owner, e: nat, p: nat, x: Entry)
  {
    forall d, v :: IsDir(o, d) ==> Lookup(t', d, v) == if d == e && v == p then x else Lookup(t, d, v)
  }

  // The table that a present directory entry leads to.
  lemma TableOf(t: Tables, o: Owner, d: nat, i: nat)
    requires Inv(t, o) && IsDir(o, d) && i < NENTRIES
    ensures IsTable(t, d)
    ensures t[d][i].Present? ==> var s := t[d][i].frame; s in o && o[s] == Table(d, i) && IsTable(t, s) && s != d
  {
    assert UseAt(t, o, d) && DirAt(t, o, d, i);
    if t[d][i].Present? {
      assert UseAt(t, o, t[d][i].frame);
    }
  }

  // --- walkpgdir: a new, empty table ------------------------------------------------

  function LinkTable(t: Tables, d: nat, i: nat, f: nat): (t': Tables)
    requires IsTable(t, d) && i < NENTRIES
  {
    t[f := Blank()][d := t[d][i := Present(f, true, true)]]
  }

  lemma LinkTables(t: Tables, d: nat, i: nat, f: nat)
    requires IsTable(t, d) && i < NENTRIES && f != d
    ensures var t' := LinkTable(t, d, i, f); IsTable(t', d) && IsTable(t', f) && t'[d][i] == Present(f, true, true)
    ensures |Blank()| == NENTRIES
  {
  }

  lemma LinkLooks(t: Tables, o: Owner, d: nat, i: nat, f: nat)
    requires Inv(t, o) && IsDir(o, d) && IsTable(t, d) && i < NENTRIES && t[d][i].Absent?
    requires f in o && o[f].Loose?
    ensures SameMaps(t, LinkTable(t, d, i, f), o)
  {
    var t' := LinkTable(t, d, i, f);
    forall e: nat, v: nat | IsDir(o, e)
      ensures Lookup(t', e, v) == Lookup(t, e, v)
    {
      if v < VPAGES {
        TableOf(t, o, e, Pdx(v));
      }
    }
  }

  lemma LinkKeeps(t: Tables, o: Owner, d: nat, i: nat, f: nat)
    requires Inv(t, o) && IsDir(o, d) && IsTable(t, d) && i < NENTRIES && t[d][i].Absent?
    requires f in o && o[f].Loose?
    ensures Inv(LinkTable(t, d, i, f), o[f := Table(d, i)])
  {
    var t', o' := LinkTable(t, d, i, f), o[f := Table(d, i)];
    LinkLooks(t, o, d, i, f);
    forall g
      ensures UseAt(t', o', g)
    {
      assert UseAt(t, o, g);
      hide Lookup;
    }
    forall e, j
      ensures DirAt(t', o', e, j)
    {
      assert DirAt(t, o, e, j);
    }
    forall e, v
      ensures PageAt(t', o', e, v)
    {
      assert PageAt(t, o, e, v);
      hide Lookup;
    }
  }

  // --- mappages and deallocuvm: one entry of a table ----------------------------------

  function SetEntry(t: Tables, s: nat, j: nat, x: Entry): (t': Tables)
    requires IsTable(t, s) && j < NENTRIES
  {
    t[s := t[s][j := x]]
  }

  lemma SetLooks(t: Tables, o: Owner, d: nat, p: nat, x: Entry)
    requires Inv(t, o) && IsDir(o, d) && IsTable(t, d) && p < VPAGES && t[d][Pdx(p)].Present?
    ensures IsTable(t, t[d][Pdx(p)].frame)
    ensures OnePage(t, SetEntry(t, t[d][Pdx(p)].frame, Ptx(p), x), o, d, p, x)
  {
    TableOf(t, o, d, Pdx(p));
    var s := t[d][Pdx(p)].frame;
    var t' := SetEntry(t, s, Ptx(p), x);
    forall e: nat, v: nat | IsDir(o, e)
      ensures Lookup(t', e, v) == if e == d && v == p then x else Lookup(t, e, v)
    {
      if v < VPAGES {
        TableOf(t, o, e, Pdx(v));
        assert t'[e] == t[e];
        assert v == p <==> v / NENTRIES == p / NENTRIES && v % NENTRIES == p % NENTRIES;
      }
    }
  }

  // A user page gets the loose frame f.
  lemma MapKeeps(t: Tables, o: Owner, d: nat, p: nat, f: nat, w: bool, u: bool)
    requires Inv(t, o) && IsDir(o, d) && IsTable(t, d) && p < UPAGES && t[d][Pdx(p)].Present?
    requires Lookup(t, d, p).Absent? && f in o && o[f].Loose?
    ensures IsTable(t, t[d][Pdx(p)].frame)
    ensures Inv(SetEntry(t, t[d][Pdx(p)].frame, Ptx(p), Present(f, w, u)), o[f := Page(d, p)])
  {
    TableOf(t, o, d, Pdx(p));
    var s, x := t[d][Pdx(p)].frame, Present(f, w, u);
    var t', o' := SetEntry(t, s, Ptx(p), x), o[f := Page(d, p)];
    SetLooks(t, o, d, p, x);
    hide Lookup;
    forall g
      ensures UseAt(t', o', g)
    {
      assert UseAt(t, o, g);
    }
    forall e, j
      ensures DirAt(t', o', e, j)
    {
      assert DirAt(t, o, e, j);
    }
    forall e, v
      ensures PageAt(t', o', e, v)
    {
      assert PageAt(t, o, e, v);
    }
  }

  // A kernel page gets any entry at all.
  lemma KernelKeeps(t: Tables, o: Owner, d: nat, p: nat, x: Entry)
    requires Inv(t, o) && IsDir(o, d) && IsTable(t, d) && UPAGES <= p < VPAGES && t[d][Pdx(p)].Present?
    ensures IsTable(t, t[d][Pdx(p)].frame)
    ensures Inv(SetEntry(t, t[d][Pdx(p)].frame, Ptx(p), x), o)
  {
    TableOf(t, o, d, Pdx(p));
    var t' := SetEntry(t, t[d][Pdx(p)].frame, Ptx(p), x);
    SetLooks(t, o, d, p, x);
    hide Lookup;
    forall g
      ensures UseAt(t', o, g)
    {
      assert UseAt(t, o, g);
    }
    forall e, j
      ensures DirAt(t', o, e, j)
    {
      assert DirAt(t, o, e, j);
    }
    forall e, v
      ensures PageAt(t', o, e, v)
    {
      assert PageAt(t, o, e, v);
    }
  }

  // --- frames given up ------------------------------------------------------------------

  // A frame just taken off the free list belongs to nobody.
  lemma LooseFrame(t: Tables, o: Owner, f: nat)
    requires Inv(t, o) && f !in o
    ensures Inv(t, o[f := Loose])
  {
    var o' := o[f := Loose];
    hide Lookup;
    forall g
      ensures UseAt(t, o', g)
    {
      assert UseAt(t, o, g);
    }
    forall e, j
      ensures DirAt(t, o', e, j)
    {
      assert DirAt(t, o, e, j);
    }
    forall e, v
      ensures PageAt(t, o', e, v)
    {
      assert PageAt(t, o, e, v);
    }
  }

  // The contents of a frame that is no directory and no table do not matter.
  lemma ForgetLooks(t: Tables, o: Owner, f: nat)
    requires Inv(t, o) && f in o && (o[f].Loose? || o[f].Page?)
    ensures SameMaps(t, t - {f}, o)
  {
    var t' := t - {f};
    forall d: nat, v: nat | IsDir(o, d)
      ensures Lookup(t', d, v) == Lookup(t, d, v)
    {
      if v < VPAGES {
        TableOf(t, o, d, Pdx(v));
      }
    }
  }

  // Freeing a loose frame.
  lemma LooseKeeps(t: Tables, o: Owner, f: nat)
    requires Inv(t, o) && f in o && o[f].Loose?
    ensures Inv(t - {f}, o - {f})
  {
    var t', o' := t - {f}, o - {f};
    ForgetLooks(t, o, f);
    hide Lookup;
    forall g
      ensures UseAt(t', o', g)
    {
      assert UseAt(t, o, g);
    }
    forall e, j
      ensures DirAt(t', o', e, j)
    {
      assert DirAt(t, o, e, j);
    }
    forall e, v
      ensures PageAt(t', o', e, v)
    {
      assert PageAt(t, o, e, v);
    }
  }

  // The tables after page p of d is unmapped and its frame f is junk.
  function DropEntry(t: Tables, s: nat, j: nat, f: nat): (t': Tables)
    requires IsTable(t, s) && j < NENTRIES && f != s
  {
    SetEntry(t - {f}, s, j, Absent)
  }

  // Taking a mapped user page away, its frame freed first and its entry cleared next.
  lemma UnmapKeeps(t: Tables, o: Owner, d: nat, p: nat)
    requires Inv(t, o) && IsDir(o, d) && IsTable(t, d) && p < UPAGES && t[d][Pdx(p)].Present?
    requires Lookup(t, d, p).Present?
    ensures var s, f := t[d][Pdx(p)].frame, Lookup(t, d, p).frame;
            && IsTable(t, s) && f != s && f != d && f in o && o[f] == Page(d, p)
            && Inv(DropEntry(t, s, Ptx(p), f), o - {f})
            && OnePage(t, DropEntry(t, s, Ptx(p), f), o, d, p, Absent)
  {
    TableOf(t, o, d, Pdx(p));
    assert PageAt(t, o, d, p);
    var s, f := t[d][Pdx(p)].frame, Lookup(t, d, p).frame;
    var t0 := SetEntry(t, s, Ptx(p), Absent);
    var o0 := o[f := Loose];
    SetLooks(t, o, d, p, Absent);
    forall g
      ensures UseAt(t0, o0, g)
    {
      assert UseAt(t, o, g);
      hide Lookup;
    }
    forall e, j
      ensures DirAt(t0, o0, e, j)
    {
      assert DirAt(t, o, e, j);
    }
    forall e, v
      ensures PageAt(t0, o0, e, v)
    {
      assert PageAt(t, o, e, v);
      hide Lookup;
    }
    LooseKeeps(t0, o0, f);
    ForgetLooks(t0, o0, f);
    assert t0 - {f} == DropEntry(t, s, Ptx(p), f);
    assert o0 - {f} == o - {f};
    hide Lookup, SetEntry;
    assert forall e :: IsDir(o, e) ==> IsDir(o0, e);
  }

  // --- directories -------------------------------------------------------------------------

  ghost predicate MapsNothing(t: Tables, d: nat) { forall v: nat :: Lookup(t, d, v) == Absent }

  // A zeroed loose frame becomes a directory that maps nothing.
  lemma NewDir(t: Tables, o: Owner, f: nat)
    requires Inv(t, o) && f in o && o[f].Loose?
    ensures Inv(t[f := Blank()], o[f := Dir]) && SameMaps(t, t[f := Blank()], o)
    ensures MapsNothing(t[f := Blank()], f)
  {
    var t', o' := t[f := Blank()], o[f := Dir];
    assert MapsNothing(t', f);
    forall e: nat, v: nat | IsDir(o, e)
      ensures Lookup(t', e, v) == Lookup(t, e, v)
    {
      if v < VPAGES {
        TableOf(t, o, e, Pdx(v));
      }
    }
    hide Lookup;
    forall g
      ensures UseAt(t', o', g)
    {
      assert UseAt(t, o, g);
    }
    forall e, j
      ensures DirAt(t', o', e, j)
    {
      assert DirAt(t, o, e, j);
    }
    forall e, v
      ensures PageAt(t', o', e, v)
    {
      assert PageAt(t, o, e, v);
    }
  }

  // Frame f is directory d, or a table or page of it.
  predicate Belongs(o: Owner, d: nat, f: nat)
  {
    f == d || (f in o && ((o[f].Table? && o[f].dir == d) || (o[f].Page? && o[f].dir == d)))
  }

  // All that belongs to d given up.
  function Disowned(o: Owner, d: nat): (o': Owner)
  {
    map f | f in o :: if Belongs(o, d, f) then Loose else o[f]
  }

  function WithoutSpace(o: Owner, d: nat): (o': Owner)
  {
    map f | f in o && !Belongs(o, d, f) :: o[f]
  }

  // Pages [a, b) of d given up.
  predicate PageIn(o: Owner, d: nat, a: nat, b: nat, f: nat)
  {
    f in o && o[f].Page? && o[f].dir == d && a <= o[f].v < b
  }

  function WithoutPages(o: Owner, d: nat, a: nat, b: nat): (o': Owner)
  {
    map f | f in o && !PageIn(o, d, a, b, f) :: o[f]
  }

  lemma DisownKeeps(t: Tables, o: Owner, d: nat)
    requires Inv(t, o) && IsDir(o, d)
    ensures Inv(t, Disowned(o, d))
  {
    var o' := Disowned(o, d);
    hide Lookup;
    forall g
      ensures UseAt(t, o', g)
    {
      assert UseAt(t, o, g);
    }
    forall e, j
      ensures DirAt(t, o', e, j)
    {
      assert DirAt(t, o, e, j);
    }
    forall e, v
      ensures PageAt(t, o', e, v)
    {
      assert PageAt(t, o, e, v);
    }
  }
}
