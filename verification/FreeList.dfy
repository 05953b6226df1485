/**
 The free list of the K&R allocator in xv6/umalloc.c as a value: free blocks in
 address order, none touching, headed by the empty block `base`.  Addresses and
 sizes are in header units.  The specification is in terms of the units a list
 covers; since blocks never touch, the covered units determine the list.
 */
module FreeList {

  datatype Blk = Blk(a: nat, n: nat)

  // In address order with a gap between any two: coalescing is complete.
  predicate Sorted(f: seq<Blk>) {
    forall i, j :: 0 <= i < j < |f| ==> f[i].a + f[i].n < f[j].a
  }

  predicate Ring(f: seq<Blk>, base: nat) {
    |f| > 0 && f[0] == Blk(base, 0) && Sorted(f) && forall i :: 0 < i < |f| ==> f[i].n > 0
  }

  predicate Within(b: Blk, x: nat) { b.a <= x < b.a + b.n }

  predicate Covers(f: seq<Blk>, x: nat) { exists i :: 0 <= i < |f| && Within(f[i], x) }

  // --- free ------------------------------------------------------------------------

  // Block b lies in the gap after the t-th free block.
  predicate Gap(f: seq<Blk>, t: nat, b: Blk) {
    && t < |f| && b.n > 0 && f[t].a + f[t].n <= b.a && f[t].a < b.a
    && (t + 1 < |f| ==> b.a + b.n <= f[t+1].a)
  }

  predicate JoinsNext(f: seq<Blk>, t: nat, b: Blk)
    requires t < |f|
  {
    t + 1 < |f| && b.a + b.n == f[t+1].a
  }

  // b, merged with the next free block if they touch.
  function Upper(f: seq<Blk>, t: nat, b: Blk): (r: Blk)
    requires t < |f|
  {
    if JoinsNext(f, t, b) then Blk(b.a, b.n + f[t+1].n) else b
  }

  function After(f: seq<Blk>, t: nat, b: Blk): (r: seq<Blk>)
    requires t < |f|
  {
    if JoinsNext(f, t, b) then f[t+2..] else f[t+1..]
  }

  // The list with b put into the gap after block t, coalesced on both sides.
  function Insert(f: seq<Blk>, t: nat, b: Blk): (r: seq<Blk>)
    requires t < |f|
  {
    var u := Upper(f, t, b);
    if f[t].a + f[t].n == b.a
    then f[..t] + [Blk(f[t].a, f[t].n + u.n)] + After(f, t, b)
    else f[..t+1] + [u] + After(f, t, b)
  }

  lemma AfterSorted(f: seq<Blk>, t: nat, b: Blk, base: nat)
    requires Ring(f, base) && Gap(f, t, b)
    ensures var u, r := Upper(f, t, b), After(f, t, b);
            Sorted(r) && forall i :: 0 <= i < |r| ==> u.a + u.n < r[i].a && r[i].n > 0
  {
    var r := After(f, t, b);
    var k := if JoinsNext(f, t, b) then t + 2 else t + 1;
    assert forall i :: 0 <= i < |r| ==> r[i] == f[k + i];
  }

  lemma AfterCovers(f: seq<Blk>, t: nat, b: Blk, x: nat)
    requires t < |f|
    ensures Covers([Upper(f, t, b)] + After(f, t, b), x) <==> Within(b, x) || Covers(f[t+1..], x)
  {
    var u, r := Upper(f, t, b), After(f, t, b);
    CoversConcat([u], r, x);
    CoversOne(u, x);
    if JoinsNext(f, t, b) {
      assert f[t+1..] == [f[t+1]] + f[t+2..];
      CoversConcat([f[t+1]], f[t+2..], x);
      CoversOne(f[t+1], x);
    }
  }

  lemma CoversConcat(f: seq<Blk>, g: seq<Blk>, x: nat)
    ensures Covers(f + g, x) <==> Covers(f, x) || Covers(g, x)
  {
    if Covers(f, x) {
      var i :| 0 <= i < |f| && Within(f[i], x);
      assert Within((f + g)[i], x);
    }
    if Covers(g, x) {
      var i :| 0 <= i < |g| && Within(g[i], x);
      assert Within((f + g)[|f| + i], x);
    }
  }

  lemma CoversOne(b: Blk, x: nat)
    ensures Covers([b], x) <==> Within(b, x)
  {
    if Within(b, x) { assert Within([b][0], x); }
  }

  // Inserting keeps the list sorted and apart, and adds exactly b's units.
  lemma InsertCorrect(f: seq<Blk>, t: nat, b: Blk, base: nat)
    requires Ring(f, base) && Gap(f, t, b)
    ensures Ring(Insert(f, t, b), base)
    ensures forall x: nat :: Covers(Insert(f, t, b), x) <==> Covers(f, x) || Within(b, x)
  {
    InsertSorted(f, t, b, base);
    hide Upper, After, Covers, Sorted, Ring, Insert, Within;
    forall x: nat
      ensures Covers(Insert(f, t, b), x) <==> Covers(f, x) || Within(b, x)
    {
      InsertCovers(f, t, b, x);
    }
  }

  lemma InsertCovers(f: seq<Blk>, t: nat, b: Blk, x: nat)
    requires t < |f|
    ensures Covers(Insert(f, t, b), x) <==> Covers(f, x) || Within(b, x)
  {
    hide Upper, After, Covers, Sorted, Ring, JoinsNext;
    var u, r := Upper(f, t, b), After(f, t, b);
    UpperStart(f, t, b);
    AfterCovers(f, t, b, x);
    CoversConcat([u], r, x);
    CoversOne(u, x);
    assert f == f[..t] + ([f[t]] + f[t+1..]);
    CoversThree(f[..t], f[t], f[t+1..], x);
    if f[t].a + f[t].n == b.a {
      var m := Blk(f[t].a, f[t].n + u.n);
      assert Insert(f, t, b) == f[..t] + ([m] + r);
      CoversThree(f[..t], m, r, x);
    } else {
      assert Insert(f, t, b) == f[..t] + ([f[t]] + ([u] + r));
      CoversThree(f[..t], f[t], [u] + r, x);
    }
  }

  lemma CoversThree(f: seq<Blk>, m: Blk, g: seq<Blk>, x: nat)
    ensures Covers(f + ([m] + g), x) <==> Covers(f, x) || Within(m, x) || Covers(g, x)
  {
    hide *;
    CoversConcat(f, [m] + g, x);
    CoversConcat([m], g, x);
    CoversOne(m, x);
  }

  lemma UpperStart(f: seq<Blk>, t: nat, b: Blk)
    requires t < |f|
    ensures Upper(f, t, b).a == b.a && Upper(f, t, b).n >= b.n
  {
  }

  // A sorted front, a block above it and a sorted back above that make a sorted list.
  lemma Sandwich(front: seq<Blk>, m: Blk, back: seq<Blk>)
    requires Sorted(front) && Sorted(back)
    requires forall i :: 0 <= i < |front| ==> front[i].a + front[i].n < m.a
    requires forall i :: 0 <= i < |back| ==> m.a + m.n < back[i].a
    ensures Sorted(front + [m] + back)
  {
    var g := front + [m] + back;
    forall i, j | 0 <= i < j < |g|
      ensures g[i].a + g[i].n < g[j].a
    {
      if i < |front| {
        assert g[i] == front[i];
        if j < |front| { assert g[j] == front[j]; }
        else if j > |front| { assert g[j] == back[j - |front| - 1]; }
      } else {
        assert g[j] == back[j - |front| - 1];
        if i > |front| { assert g[i] == back[i - |front| - 1]; }
      }
    }
  }

  lemma InsertSorted(f: seq<Blk>, t: nat, b: Blk, base: nat)
    requires Ring(f, base) && Gap(f, t, b)
    ensures Ring(Insert(f, t, b), base)
  {
    AfterSorted(f, t, b, base);
    UpperStart(f, t, b);
    var u, r := Upper(f, t, b), After(f, t, b);
    hide Upper, After;
    if f[t].a + f[t].n == b.a {
      Sandwich(f[..t], Blk(f[t].a, f[t].n + u.n), r);
    } else {
      Sandwich(f[..t+1], u, r);
    }
    hide Sorted;
  }

  // --- malloc -------------------------------------------------------------------------

  // Take n units from the t-th free block: all of it, or its tail.
  function Take(f: seq<Blk>, t: nat, n: nat): (r: seq<Blk>)
    requires t < |f| && n <= f[t].n
  {
    if f[t].n == n then f[..t] + f[t+1..] else f[t := Blk(f[t].a, f[t].n - n)]
  }

  function Taken(f: seq<Blk>, t: nat, n: nat): (b: Blk)
    requires t < |f| && n <= f[t].n
  {
    Blk(f[t].a + f[t].n - n, n)
  }

  lemma TakeSorted(f: seq<Blk>, t: nat, n: nat, base: nat)
    requires Ring(f, base) && 0 < t < |f| && 0 < n <= f[t].n
    ensures Ring(Take(f, t, n), base)
  {
    var g := Take(f, t, n);
    if f[t].n == n {
      assert forall i :: 0 <= i < |g| ==> g[i] == f[if i < t then i else i + 1];
    }
  }

  // Taking keeps the list in order and removes exactly the units handed out.
  lemma TakeCorrect(f: seq<Blk>, t: nat, n: nat, base: nat)
    requires Ring(f, base) && 0 < t < |f| && 0 < n <= f[t].n
    ensures Ring(Take(f, t, n), base)
    ensures forall x: nat :: Covers(Take(f, t, n), x) <==> Covers(f, x) && !Within(Taken(f, t, n), x)
    ensures forall x: nat :: Within(Taken(f, t, n), x) ==> Covers(f, x)
  {
    TakeSorted(f, t, n, base);
    forall x: nat
      ensures Covers(Take(f, t, n), x) <==> Covers(f, x) && !Within(Taken(f, t, n), x)
      ensures Within(Taken(f, t, n), x) ==> Covers(f, x)
    {
      TakeCovers(f, t, n, x);
    }
  }

  lemma TakeCovers(f: seq<Blk>, t: nat, n: nat, x: nat)
    requires Sorted(f) && t < |f| && 0 < n <= f[t].n
    ensures Covers(Take(f, t, n), x) <==> Covers(f, x) && !Within(Taken(f, t, n), x)
    ensures Within(Taken(f, t, n), x) ==> Covers(f, x)
  {
    assert f == f[..t] + [f[t]] + f[t+1..];
    CoversConcat(f[..t] + [f[t]], f[t+1..], x);
    CoversConcat(f[..t], [f[t]], x);
    CoversOne(f[t], x);
    CoversConcat(f[..t], f[t+1..], x);
    if f[t].n != n {
      var m := Blk(f[t].a, f[t].n - n);
      assert Take(f, t, n) == f[..t] + [m] + f[t+1..];
      CoversConcat(f[..t] + [m], f[t+1..], x);
      CoversConcat(f[..t], [m], x);
      CoversOne(m, x);
    }
    assert Within(f[t], x) ==> !Covers(f[..t], x) && !Covers(f[t+1..], x);
  }

  // The covered units determine the list: there is only one way to be coalesced.
  lemma {:induction false} CoverDetermines(f: seq<Blk>, g: seq<Blk>)
    requires Sorted(f) && Sorted(g)
    requires (forall i :: 0 <= i < |f| ==> f[i].n > 0) && (forall i :: 0 <= i < |g| ==> g[i].n > 0)
    requires forall x: nat :: Covers(f, x) <==> Covers(g, x)
    ensures f == g
    decreases |f|
  {
    HeadCovered(f);
    HeadCovered(g);
    if f != [] && g != [] {
      HeadBounds(f, g[0]);
      HeadBounds(g, f[0]);
      assert f[0] == g[0];
      TailCovers(f);
      TailCovers(g);
      CoverDetermines(f[1..], g[1..]);
      assert f == [f[0]] + f[1..] && g == [g[0]] + g[1..];
    }
  }

  lemma HeadCovered(f: seq<Blk>)
    ensures f != [] && f[0].n > 0 ==> Covers(f, f[0].a)
  {
    if f != [] && f[0].n > 0 { assert Within(f[0], f[0].a); }
  }

  // Nothing is covered below the first block or right after it, but all of it is.
  lemma HeadBounds(f: seq<Blk>, b: Blk)
    requires f != [] && Sorted(f) && f[0].n > 0
    ensures forall x: nat :: x < f[0].a ==> !Covers(f, x)
    ensures !Covers(f, f[0].a + f[0].n)
    ensures Within(f[0], b.a + b.n) ==> Covers(f, b.a + b.n)
  {
    assert Within(f[0], b.a + b.n) ==> Covers(f, b.a + b.n);
  }

  lemma TailCovers(f: seq<Blk>)
    requires f != [] && Sorted(f)
    ensures forall x: nat :: Covers(f[1..], x) <==> Covers(f, x) && !Within(f[0], x)
  {
    forall x: nat
      ensures Covers(f[1..], x) <==> Covers(f, x) && !Within(f[0], x)
    {
      assert f == [f[0]] + f[1..];
      CoversConcat([f[0]], f[1..], x);
      CoversOne(f[0], x);
      assert Within(f[0], x) ==> !Covers(f[1..], x);
    }
  }
}
