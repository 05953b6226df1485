/**
 The K&R allocator of xv6/umalloc.c: a circular list threaded through block
 headers in memory.  ptr and size are the header fields by address; addresses
 and sizes are in header units, and address 0 is the null pointer.

 Every unit ever obtained from sbrk belongs, at all times, to exactly one block:
 either one free block or one live allocation.
 */
module Umalloc {
  import opened Basics
  import opened FreeList
  import opened Options

  const HEADER := 8                       // sizeof(Header)
  const INT_LIMIT := 0x8000_0000
  const MIN_CORE := 4096

  type Live = map<nat, nat>               // header address -> size of a live block

  predicate LiveCovers(l: Live, x: nat) { exists a :: a in l && Within(Blk(a, l[a]), x) }

  // Free blocks and live blocks partition the units obtained, all above base.
  ghost predicate Accounts(f: seq<Blk>, l: Live, got: set<nat>, base: nat)
  {
    && Ring(f, base)
    && (forall x: nat :: x in got <==> Covers(f, x) || LiveCovers(l, x))
    && (forall x: nat :: !(Covers(f, x) && LiveCovers(l, x)))
    && (forall a, b :: a in l && b in l && a < b ==> a + l[a] <= b)
    && (forall a :: a in l ==> l[a] > 0)
    && (forall x :: x in got ==> base < x)
  }

  // What the accounts mean to a program: a block it has overlaps no other it has and no
  // free one, and is memory it asked for.
  lemma BlocksApart(f: seq<Blk>, l: Live, got: set<nat>, base: nat, a: nat, b: nat, x: nat)
    requires Accounts(f, l, got, base) && a in l && b in l && a != b && a <= x < a + l[a]
    ensures !(b <= x < b + l[b]) && !Covers(f, x) && x in got
  {
    assert LiveCovers(l, x);
  }

  // The units a .. a+n-1.
  function Span(a: nat, n: nat): (s: set<nat>)
    ensures forall x: nat :: x in s <==> a <= x < a + n
  {
    set x: nat | a <= x < a + n && Within(Blk(a, n), x)
  }

  lemma LiveBlock(l: Live, a: nat, x: nat)
    requires a in l && Within(Blk(a, l[a]), x)
    ensures LiveCovers(l, x)
  {
  }

  // --- where a block goes ------------------------------------------------------------

  // The place of address b in the list: the last free block below it.
  function Place(f: seq<Blk>, b: nat): (t: nat)
    requires |f| > 0 && f[0].a < b
    ensures t < |f| && f[t].a < b && (t + 1 < |f| ==> b <= f[t+1].a)
  {
    if |f| == 1 || b <= f[1].a then 0 else 1 + Place(f[1..], b)
  }

  // A live block lies in the gap at its place.
  lemma LiveInGap(f: seq<Blk>, l: Live, got: set<nat>, base: nat, a: nat)
    requires Accounts(f, l, got, base) && a in l
    ensures base < a && Gap(f, Place(f, a), Blk(a, l[a]))
    ensures Place(f, a) + 1 < |f| ==> a < f[Place(f, a) + 1].a
  {
    LiveBlock(l, a, a);
    var t := Place(f, a);
    assert !Covers(f, a);
    assert Within(f[t], a) ==> Covers(f, a);
    if t + 1 < |f| {
      var c := f[t+1].a;
      assert Within(f[t+1], c);
      assert Within(Blk(a, l[a]), c) ==> LiveCovers(l, c);
    }
  }

  // free(): the accounts after the block has moved from live to free.
  lemma FreeAccounts(f: seq<Blk>, l: Live, got: set<nat>, base: nat, a: nat)
    requires Accounts(f, l, got, base) && a in l
    ensures base < a && Gap(f, Place(f, a), Blk(a, l[a]))
    ensures Accounts(Insert(f, Place(f, a), Blk(a, l[a])), l - {a}, got, base)
    ensures forall x: nat :: Covers(Insert(f, Place(f, a), Blk(a, l[a])), x) <==> Covers(f, x) || Within(Blk(a, l[a]), x)
  {
    LiveInGap(f, l, got, base, a);
    InsertCorrect(f, Place(f, a), Blk(a, l[a]), base);
    forall x: nat
      ensures LiveCovers(l - {a}, x) <==> LiveCovers(l, x) && !Within(Blk(a, l[a]), x)
    {
      if LiveCovers(l, x) && !Within(Blk(a, l[a]), x) {
        var b :| b in l && Within(Blk(b, l[b]), x);
        assert b in l - {a};
      }
    }
    hide Insert, Covers, LiveCovers, Gap, Place;
  }

  // A block of fresh units above everything, entered as live.
  lemma CoreAccounts(f: seq<Blk>, l: Live, got: set<nat>, base: nat, a: nat, n: nat)
    requires Accounts(f, l, got, base) && n > 0 && base < a && forall x :: x in got ==> x < a
    ensures a !in l
    ensures Accounts(f, l[a := n], got + Span(a, n), base)
  {
    forall x: nat
      ensures LiveCovers(l[a := n], x) <==> LiveCovers(l, x) || Within(Blk(a, n), x)
      ensures Covers(f, x) || LiveCovers(l, x) ==> x < a
    {
      if LiveCovers(l, x) {
        var b :| b in l && Within(Blk(b, l[b]), x);
        LiveBlock(l, b, x);
        assert b != a by { LiveBlock(l, b, b); }
        assert b in l[a := n] && Within(Blk(b, l[a := n][b]), x);
      }
      if Within(Blk(a, n), x) { assert a in l[a := n]; }
    }
    forall b | b in l
      ensures b + l[b] <= a
    {
      LiveBlock(l, b, b + l[b] - 1);
    }
    hide Covers, LiveCovers, Ring;
  }

  // malloc(): n units of free block t become a live block.
  lemma TakeAccounts(f: seq<Blk>, l: Live, got: set<nat>, base: nat, t: nat, n: nat)
    requires Accounts(f, l, got, base) && 0 < t < |f| && 0 < n <= f[t].n
    ensures Taken(f, t, n).a !in l
    ensures Accounts(Take(f, t, n), l[Taken(f, t, n).a := n], got, base)
    ensures forall x: nat :: Covers(Take(f, t, n), x) <==> Covers(f, x) && !Within(Taken(f, t, n), x)
  {
    var b := Taken(f, t, n);
    TakeCorrect(f, t, n, base);
    assert b.a !in l by {
      assert Within(b, b.a);
      if b.a in l { LiveBlock(l, b.a, b.a); }
    }
    var l' := l[b.a := n];
    forall x: nat
      ensures LiveCovers(l', x) <==> LiveCovers(l, x) || Within(b, x)
    {
      if LiveCovers(l, x) {
        var c :| c in l && Within(Blk(c, l[c]), x);
        assert c in l' && l'[c] == l[c];
      }
      if Within(b, x) { assert b.a in l'; }
    }
    forall c | c in l
      ensures c + l[c] <= b.a || b.a + n <= c
    {
      LiveBlock(l, c, c);
      LiveBlock(l, c, c + l[c] - 1);
      assert !Within(b, c);
      assert Within(b, b.a) && Covers(f, b.a);
      assert !Within(Blk(c, l[c]), b.a);
    }
    hide Covers, LiveCovers, Ring, Take;
  }

  // --- request sizes ------------------------------------------------------------------

  // nunits = (nbytes + sizeof(Header) - 1)/sizeof(Header) + 1, in 32-bit arithmetic
  function Units(nbytes: nat): (n: nat)
    ensures n > 0
  {
    ((nbytes + HEADER - 1) % UINT_LIMIT) / HEADER + 1
  }

  // The block has room for nbytes behind its header exactly when the rounding up
  // did not wrap around, and with a unit less it would not.
  lemma EnoughRoom(nbytes: nat)
    requires nbytes < UINT_LIMIT
    ensures (Units(nbytes) - 1) * HEADER >= nbytes <==> nbytes + HEADER - 1 < UINT_LIMIT
    ensures nbytes > 0 ==> (Units(nbytes) - 2) * HEADER < nbytes
  {
  }

  // --- sbrk -----------------------------------------------------------------------------

  // The argument of sbrk: nu * sizeof(Header) in 32 bits, read as an int.
  function Bytes(nu: nat): (n: int)
  {
    var b := nu * HEADER % UINT_LIMIT;
    if b < INT_LIMIT then b else b - UINT_LIMIT
  }

  // What morecore asks for.
  function CoreUnits(nu: nat): (n: nat)
    ensures nu <= n && 4096 <= n && (n == nu || n == 4096)
  {
    if nu < MIN_CORE then MIN_CORE else nu
  }

  // The process size after growproc(n) from brk units, in bytes.
  function NewSize(brk: nat, n: int): (sz: nat)
  {
    (brk * HEADER + n) % UINT_LIMIT
  }

  // sbrk(n): growing needs memory; shrinking fails only at size 0; and a size that
  // wraps around upwards is left as it is.  The old break is returned.
  function Sbrk(brk: nat, n: int, memory: bool): (r: Option<nat>)
  {
    if n > 0 then (if memory then Some(brk) else None)
    else if n == 0 || NewSize(brk, n) != 0 then Some(brk)
    else None
  }

  // The units of the process after sbrk(n).
  ghost function Memory(given: set<nat>, brk: nat, n: int, memory: bool): (m: set<nat>)
  {
    if n > 0 then (if memory then given + Span(brk, n / HEADER) else given)
    else if n == 0 || NewSize(brk, n) >= brk * HEADER then given
    else set x | x in given && x * HEADER < NewSize(brk, n)
  }

  // What malloc(nbytes) asks of sbrk if it does, and the answer.
  function Asked(nbytes: nat): (n: int) { Bytes(CoreUnits(Units(nbytes))) }

  function Answer(nbytes: nat, brk: nat, memory: bool): (r: Option<nat>) { Sbrk(brk, Asked(nbytes), memory) }

  lemma AnswerIs(nbytes: nat, brk: nat, memory: bool)
    ensures Asked(nbytes) == Bytes(CoreUnits(Units(nbytes))) && Answer(nbytes, brk, memory) == Sbrk(brk, Asked(nbytes), memory)
  {
  }

  // A null answer leaves the process its memory exactly if it was asked for more: asked
  // for less, it is null only if everything was given up.
  lemma NullKeeps(got: set<nat>, base: nat, nbytes: nat, brk: nat, memory: bool)
    requires nbytes < UINT_LIMIT && Beyond(brk, base, got) && Answer(nbytes, brk, memory).None?
    ensures Memory(got, brk, Asked(nbytes), memory) == got <==> Units(nbytes) * HEADER < INT_LIMIT || got == {}
  {
    SignOfRequest(nbytes);
    hide Units, Bytes, CoreUnits;
    if Asked(nbytes) <= 0 {
      assert Memory(got, brk, Asked(nbytes), memory) == {};
    }
  }

  // The bytes asked for are as meant, or not positive: requests from 2^31 - 15 on.
  lemma SignOfRequest(nbytes: nat)
    requires nbytes < UINT_LIMIT
    ensures Units(nbytes) * HEADER < INT_LIMIT ==> Asked(nbytes) == CoreUnits(Units(nbytes)) * HEADER > 0
    ensures Units(nbytes) * HEADER >= INT_LIMIT ==> Asked(nbytes) <= 0
    ensures nbytes + HEADER - 1 < UINT_LIMIT ==> (Units(nbytes) * HEADER < INT_LIMIT <==> nbytes <= INT_LIMIT - 2 * HEADER)
  {
  }

  lemma AskedFor()
    ensures Units(UINT_LIMIT - 1) == 1 && Asked(UINT_LIMIT - 8) == 0
    ensures Asked(INT_LIMIT - 15) == -INT_LIMIT && Asked(UINT_LIMIT - 16) == -8
  {
  }

  lemma GivesUpAll(brk: nat, given: set<nat>)
    requires 16 <= brk * HEADER < INT_LIMIT
    ensures var all := UINT_LIMIT - HEADER * (brk + 1);
            Answer(all, brk, true).None? && Memory(given, brk, Asked(all), true) == {}
  {
    var all := UINT_LIMIT - HEADER * (brk + 1);
    assert Units(all) == UINT_LIMIT / HEADER - brk;
    assert Asked(all) == -(brk * HEADER);
  }

  // Requests that cannot be good when nothing fits.  Granted, memory or not: one whose
  // rounding wraps, one that asks sbrk for nothing, one that asks it to give up 2^31
  // bytes (which it does not have, so nothing happens), one that gives up 8 bytes.  And
  // refused, with all memory gone: one that gives up as many bytes as there are.
  lemma FailingRequests(brk: nat, given: set<nat>)
    requires 16 <= brk * HEADER < INT_LIMIT
    ensures Units(UINT_LIMIT - 1) == 1
    ensures Answer(UINT_LIMIT - 8, brk, false) == Some(brk) && Memory(given, brk, Asked(UINT_LIMIT - 8), false) == given
    ensures Answer(INT_LIMIT - 15, brk, false) == Some(brk) && Memory(given, brk, Asked(INT_LIMIT - 15), false) == given
    ensures Answer(UINT_LIMIT - 16, brk, false) == Some(brk)
    ensures Memory(given, brk, Asked(UINT_LIMIT - 16), false) == set x | x in given && x < brk - 1
    ensures var all := UINT_LIMIT - HEADER * (brk + 1);
            Answer(all, brk, true).None? && Memory(given, brk, Asked(all), true) == {}
  {
    GivesUpAll(brk, given);
    AskedFor();
    hide Units, Asked, Bytes, CoreUnits;
    assert NewSize(brk, -8) == brk * HEADER - 8 && NewSize(brk, -INT_LIMIT) == brk * HEADER + INT_LIMIT;
  }

  // --- the list in memory --------------------------------------------------------------

  function Succ(f: seq<Blk>, i: nat): (j: nat) { if i + 1 < |f| then i + 1 else 0 }

  predicate LinkedAt(ptr: map<nat, nat>, size: map<nat, nat>, f: seq<Blk>, i: nat)
    requires i < |f|
  {
    && f[i].a in ptr && f[i].a in size
    && size[f[i].a] == f[i].n && ptr[f[i].a] == f[Succ(f, i)].a
  }

  // The headers spell out the list f as a ring.
  predicate Linked(ptr: map<nat, nat>, size: map<nat, nat>, f: seq<Blk>)
  {
    forall i :: 0 <= i < |f| ==> LinkedAt(ptr, size, f, i)
  }

  // The stores free() makes for block b after p, whose successor is q.
  function FreePtr(ptr: map<nat, nat>, p: nat, q: nat, b: nat, up: bool, down: bool): (r: map<nat, nat>)
    requires q in ptr
  {
    var ptr1 := ptr[b := if up then ptr[q] else q];
    ptr1[p := if down then ptr1[b] else b]
  }

  function FreeSize(size: map<nat, nat>, p: nat, q: nat, b: nat, up: bool, down: bool): (r: map<nat, nat>)
    requires p in size && q in size && b in size
  {
    var size1 := if up then size[b := size[b] + size[q]] else size;
    if down then size1[p := size1[p] + size1[b]] else size1
  }

  lemma AllLinked(ptr: map<nat, nat>, size: map<nat, nat>, f: seq<Blk>, i: nat)
    requires Linked(ptr, size, f) && i < |f|
    ensures LinkedAt(ptr, size, f, i)
  {
  }

  lemma LinkedIntro(ptr: map<nat, nat>, size: map<nat, nat>, f: seq<Blk>)
    requires forall i: nat :: i < |f| ==> LinkedAt(ptr, size, f, i)
    ensures Linked(ptr, size, f)
  {
  }

  // Every header of f but those from m to k-1 is as it was, save that block m-1 now
  // points to x.
  predicate Spliced(ptr: map<nat, nat>, size: map<nat, nat>, f: seq<Blk>, m: nat, x: Blk, k: nat,
                    ptr': map<nat, nat>, size': map<nat, nat>)
    requires 0 < m <= k <= |f|
  {
    && (forall j :: 0 <= j < |f| && (j < m - 1 || k <= j) && f[j].a in ptr ==>
          f[j].a in ptr' && ptr'[f[j].a] == ptr[f[j].a])
    && (forall j :: 0 <= j < |f| && (j < m || k <= j) && f[j].a in size ==>
          f[j].a in size' && size'[f[j].a] == size[f[j].a])
    && f[m-1].a in ptr' && ptr'[f[m-1].a] == x.a
    && x.a in ptr' && ptr'[x.a] == (if k < |f| then f[k].a else f[0].a)
    && x.a in size' && size'[x.a] == x.n
  }

  // Then they spell out f with blocks m to k-1 replaced by x.
  lemma SpliceLinks(ptr: map<nat, nat>, size: map<nat, nat>, f: seq<Blk>, m: nat, x: Blk, k: nat,
                    ptr': map<nat, nat>, size': map<nat, nat>)
    requires 0 < m <= k <= |f| && Linked(ptr, size, f) && Spliced(ptr, size, f, m, x, k, ptr', size')
    ensures Linked(ptr', size', f[..m] + [x] + f[k..])
  {
    var g := f[..m] + [x] + f[k..];
    forall i | 0 <= i < |g|
      ensures LinkedAt(ptr', size', g, i)
    {
      var j := if i <= m then i else k + (i - m - 1);
      assert i != m ==> g[i] == f[j];
      assert i < m ==> LinkedAt(ptr, size, f, i);
      assert i > m ==> LinkedAt(ptr, size, f, j);
      assert m + 1 < |g| ==> g[m + 1] == f[k];
      assert i > m && i + 1 < |g| ==> g[i + 1] == f[j + 1];
      hide Linked;
    }
  }

  // Addresses on the list, and of a block in a gap, are all different.
  lemma Apart(f: seq<Blk>, base: nat, t: nat, b: Blk)
    requires Ring(f, base) && Gap(f, t, b) && (t + 1 < |f| ==> b.a < f[t+1].a)
    ensures forall i, j :: 0 <= i < j < |f| ==> f[i].a < f[j].a
    ensures forall i :: 0 <= i < |f| ==> if i <= t then f[i].a < b.a else b.a < f[i].a
  {
    assert forall i :: t + 1 < i < |f| ==> f[t+1].a < f[i].a;
    assert forall i :: 0 <= i < t ==> f[i].a < f[t].a;
  }

  // Where the new block starts, where it sits, and where the old list goes on.
  lemma FreeSpliced(ptr: map<nat, nat>, size: map<nat, nat>, f: seq<Blk>, t: nat, b: Blk, down: bool)
    requires t < |f| && b.a in size && size[b.a] == b.n
    requires LinkedAt(ptr, size, f, t) && LinkedAt(ptr, size, f, Succ(f, t))
    requires forall i, j :: 0 <= i < j < |f| ==> f[i].a < f[j].a
    requires forall i :: 0 <= i < |f| ==> if i <= t then f[i].a < b.a else b.a < f[i].a
    requires down ==> 0 < t && LinkedAt(ptr, size, f, t - 1)
    ensures var q := f[Succ(f, t)].a;
            var up := b.a + b.n == q;
            var ptr', size' := FreePtr(ptr, f[t].a, q, b.a, up, down), FreeSize(size, f[t].a, q, b.a, up, down);
            var u := Upper(f, t, b);
            var k := if JoinsNext(f, t, b) then t + 2 else t + 1;
            if down then Spliced(ptr, size, f, t, Blk(f[t].a, f[t].n + u.n), k, ptr', size')
            else Spliced(ptr, size, f, t + 1, u, k, ptr', size')
  {
    assert b.a + b.n == f[Succ(f, t)].a <==> JoinsNext(f, t, b);
  }

  lemma InsertIs(f: seq<Blk>, t: nat, b: Blk)
    requires t < |f|
    ensures var u, k := Upper(f, t, b), if JoinsNext(f, t, b) then t + 2 else t + 1;
            Insert(f, t, b) == if f[t].a + f[t].n == b.a then f[..t] + [Blk(f[t].a, f[t].n + u.n)] + f[k..]
                               else f[..t+1] + [u] + f[k..]
  {
  }

  lemma FreeLinks(ptr: map<nat, nat>, size: map<nat, nat>, f: seq<Blk>, t: nat, b: Blk, base: nat)
    requires Ring(f, base) && Gap(f, t, b) && Linked(ptr, size, f) && b.a in size && size[b.a] == b.n
    requires t + 1 < |f| ==> b.a < f[t+1].a
    ensures LinkedAt(ptr, size, f, t) && LinkedAt(ptr, size, f, Succ(f, t))
    ensures var q := f[Succ(f, t)].a;
            var up, down := b.a + b.n == q, f[t].a + f[t].n == b.a;
            Linked(FreePtr(ptr, f[t].a, q, b.a, up, down), FreeSize(size, f[t].a, q, b.a, up, down), Insert(f, t, b))
  {
    hide Linked, Insert, Sorted;
    AllLinked(ptr, size, f, t);
    AllLinked(ptr, size, f, Succ(f, t));
    Apart(f, base, t, b);
    var q := f[Succ(f, t)].a;
    var up, down := b.a + b.n == q, f[t].a + f[t].n == b.a;
    assert down ==> 0 < t;
    if down { AllLinked(ptr, size, f, t - 1); }
    FreeSpliced(ptr, size, f, t, b, down);
    var ptr', size' := FreePtr(ptr, f[t].a, q, b.a, up, down), FreeSize(size, f[t].a, q, b.a, up, down);
    var u, k := Upper(f, t, b), if JoinsNext(f, t, b) then t + 2 else t + 1;
    hide LinkedAt, Spliced, FreePtr, FreeSize, Upper, Ring, Gap;
    InsertIs(f, t, b);
    if down {
      SpliceLinks(ptr, size, f, t, Blk(f[t].a, f[t].n + u.n), k, ptr', size');
    } else {
      SpliceLinks(ptr, size, f, t + 1, u, k, ptr', size');
    }
  }

  lemma TakeAll(f: seq<Blk>, t: nat)
    requires 0 < t < |f|
    ensures Take(f, t, f[t].n) == f[..t] + f[t+1..]
  {
  }

  // malloc takes all of block t: it leaves the ring.
  lemma UnlinkLinks(ptr: map<nat, nat>, size: map<nat, nat>, f: seq<Blk>, t: nat, base: nat)
    requires Ring(f, base) && 0 < t < |f| && Linked(ptr, size, f)
    ensures LinkedAt(ptr, size, f, t) && LinkedAt(ptr, size, f, t - 1)
    ensures Linked(ptr[f[t-1].a := ptr[f[t].a]], size, Take(f, t, f[t].n))
  {
    AllLinked(ptr, size, f, t);
    AllLinked(ptr, size, f, t - 1);
    var ptr' := ptr[f[t-1].a := ptr[f[t].a]];
    assert forall j :: 0 <= j < |f| && j != t - 1 ==> f[j].a != f[t-1].a;
    hide Linked, Ring, Take;
    TakeAll(f, t);
    var g := f[..t] + f[t+1..];
    forall i: nat | i < |g|
      ensures LinkedAt(ptr', size, g, i)
    {
      UnlinkAt(ptr, size, f, t, i);
    }
    hide LinkedAt;
    LinkedIntro(ptr', size, g);
  }

  lemma UnlinkAt(ptr: map<nat, nat>, size: map<nat, nat>, f: seq<Blk>, t: nat, i: nat)
    requires 0 < t < |f| && Linked(ptr, size, f) && i < |f| - 1 && f[t].a in ptr
    requires forall j :: 0 <= j < |f| && j != t - 1 ==> f[j].a != f[t-1].a
    ensures LinkedAt(ptr[f[t-1].a := ptr[f[t].a]], size, f[..t] + f[t+1..], i)
  {
    var g := f[..t] + f[t+1..];
    var j := if i < t then i else i + 1;
    AllLinked(ptr, size, f, j);
    AllLinked(ptr, size, f, t);
    hide Linked;
    assert g[i] == f[j];
    assert i + 1 < |g| ==> g[i + 1] == f[if i + 1 < t then i + 1 else i + 2];
  }

  // malloc takes the tail of block t, which stays on the ring.
  lemma SplitLinks(ptr: map<nat, nat>, size: map<nat, nat>, f: seq<Blk>, t: nat, n: nat, base: nat)
    requires Ring(f, base) && 0 < t < |f| && 0 < n < f[t].n && Linked(ptr, size, f)
    ensures Linked(ptr, size[f[t].a := f[t].n - n][Taken(f, t, n).a := n], Take(f, t, n))
  {
    var g := Take(f, t, n);
    var size' := size[f[t].a := f[t].n - n][Taken(f, t, n).a := n];
    forall i: nat | i < |g|
      ensures LinkedAt(ptr, size', g, i)
    {
      assert LinkedAt(ptr, size, f, i);
      hide Linked;
    }
  }

  // --- the allocator --------------------------------------------------------------------

  // Live blocks keep their headers.
  predicate Headers(l: Live, size: map<nat, nat>) { forall a :: a in l ==> a in size && size[a] == l[a] }

  // A live block's header is no free block's header.
  lemma LiveNotFree(f: seq<Blk>, l: Live, got: set<nat>, base: nat, c: nat, i: nat)
    requires Accounts(f, l, got, base) && c in l && i < |f|
    ensures base < c && c != f[i].a
  {
    LiveBlock(l, c, c);
    assert i > 0 ==> Within(f[i], f[i].a);
  }

  // Steps from place i round the ring to place t.
  function Distance(n: nat, i: nat, t: nat): (d: int) { if i <= t then t - i else t - i + n }

  // The break lies beyond base and everything sbrk gave before, in user memory.
  predicate Beyond(brk: nat, base: nat, got: set<nat>)
  {
    base < brk && brk * HEADER < INT_LIMIT && forall x :: x in got ==> x < brk
  }

  class Heap {
    const base: nat
    var ptr: map<nat, nat>
    var size: map<nat, nat>
    var freep: nat
    ghost var free: seq<Blk>
    ghost var live: Live
    ghost var got: set<nat>     // units the allocator takes to be its own
    ghost var given: set<nat>    // units that sbrk has really given
    ghost var at: nat           // freep's place on the list

    ghost predicate Formed()
      reads this
    {
      && base > 0
      && if freep == 0 then free == [] && live == map[] && got == {}
         else
           && Accounts(free, live, got, base) && Linked(ptr, size, free) && Headers(live, size)
           && at < |free| && free[at].a == freep
    }

    // The heap is well formed and has memory behind every unit.
    ghost predicate Valid()
      reads this
    {
      Formed() && got == given
    }

    constructor (base: nat)
      requires base > 0
      ensures Valid() && freep == 0 && this.base == base
    {
      this.base := base;
      ptr, size, freep := map[], map[], 0;
      free, live, got, given, at := [], map[], {}, {}, 0;
    }

    // free's search: the ring is walked from freep to the place of bp.
    method Search(bp: nat) returns (p: nat)
      requires Formed() && bp in live
      ensures base < bp && p == free[Place(free, bp)].a
    {
      LiveInGap(free, live, got, base, bp);
      ghost var t := Place(free, bp);
      ghost var i: nat := at;
      p := freep;
      AllLinked(ptr, size, free, i);
      hide Linked, Covers, LiveCovers, Headers, Sorted, Gap, Place;
      while !(bp > p && bp < ptr[p])
        invariant i < |free| && p == free[i].a && LinkedAt(ptr, size, free, i)
        decreases Distance(|free|, i, t)
      {
        AllLinked(ptr, size, free, i);
        SearchStep(free, base, i, t, bp);
        if p >= ptr[p] && (bp > p || bp < ptr[p]) {
          break;
        }
        p := ptr[p];
        i := Succ(free, i);
        AllLinked(ptr, size, free, i);
      }
      SearchStep(free, base, i, t, bp);
    }

    // Give a live block back.  Its units become free, neighbours are merged, and
    // nothing else changes hands.
    method Free(ap: nat)
      requires Formed() && ap > 0 && ap - 1 in live
      modifies this`ptr, this`size, this`freep, this`free, this`live, this`at
      ensures Formed() && freep != 0
      ensures live == old(live) - {ap - 1}
      ensures forall x: nat :: Covers(free, x) <==> Covers(old(free), x) || Within(Blk(ap - 1, old(live)[ap - 1]), x)
    {
      var bp := ap - 1;
      var p := Search(bp);
      ghost var t, b := Place(free, bp), Blk(bp, live[bp]);
      FreePlan(free, live, got, base, ptr, size, bp);
      hide Linked, Accounts, Covers, Insert, Headers, FreePtr, FreeSize;
      Store(p, bp);
      freep := p;
      free, live, at := Insert(free, t, b), live - {bp}, t;
      InsertKeepsPlace(old(free), t, b);
    }

    // The stores that put block bp between p and its successor, merging what touches.
    method Store(p: nat, bp: nat)
      requires p in ptr && p in size && bp in size && p != bp && ptr[p] in ptr && ptr[p] in size
      modifies this`ptr, this`size
      ensures var q := old(ptr)[p];
              var up, down := bp + old(size)[bp] == q, p + old(size)[p] == bp;
              && ptr == FreePtr(old(ptr), p, q, bp, up, down)
              && size == FreeSize(old(size), p, q, bp, up, down)
    {
      var q := ptr[p];
      if bp + size[bp] == q {
        size := size[bp := size[bp] + size[q]];
        ptr := ptr[bp := ptr[q]];
      } else {
        ptr := ptr[bp := q];
      }
      if p + size[p] == bp {
        size := size[p := size[p] + size[bp]];
        ptr := ptr[p := ptr[bp]];
      } else {
        ptr := ptr[p := bp];
      }
    }

    // Get more memory.  brk is the break, in units; memory says whether the kernel can
    // let the process grow.
    method Morecore(nu: nat, brk: nat, memory: bool) returns (ok: bool)
      requires Formed() && freep != 0 && nu > 0 && Beyond(brk, base, got)
      modifies this`ptr, this`size, this`freep, this`free, this`live, this`got, this`given, this`at
      ensures Formed() && freep != 0 && live == old(live)
      ensures given == Memory(old(given), brk, Bytes(CoreUnits(nu)), memory)
      ensures ok <==> Sbrk(brk, Bytes(CoreUnits(nu)), memory).Some?
      ensures !ok ==> ptr == old(ptr) && size == old(size) && freep == old(freep) && free == old(free)
                      && got == old(got) && at == old(at)
      ensures ok ==>
        && got == old(got) + Span(brk, CoreUnits(nu))
        && (forall x: nat :: Covers(free, x) <==> Covers(old(free), x) || Within(Blk(brk, CoreUnits(nu)), x))
        && Fits(free, nu)
    {
      var n := nu;
      if n < MIN_CORE {
        n := MIN_CORE;
      }
      var core := Sbrk(brk, Bytes(n), memory);
      given := Memory(given, brk, Bytes(n), memory);
      if core.None? {
        return false;
      }
      var hp := core.value;
      CoreAccounts(free, live, got, base, hp, n);
      FreshHeader(free, live, got, base, hp);
      NewHeader(ptr, size, free, live, hp, n);
      hide Accounts, Covers, Linked, Headers;
      size := size[hp := n];
      live, got := live[hp := n], got + Span(hp, n);
      assert live - {hp} == old(live);
      Free(hp + 1);
      assert Ring(free, base) by { RingOf(free, live, got, base); }
      RunFits(free, hp, n, base);
      ok := true;
    }

    // The first call: a ring of base alone.
    method Start()
      requires Formed() && freep == 0
      modifies this
      ensures Formed() && freep != 0 && free == [Blk(base, 0)] && live == map[] && got == {} && given == old(given)
    {
      ptr := ptr[base := base];
      freep := base;
      size := size[base := 0];
      free, at := [Blk(base, 0)], 0;
      assert forall x: nat :: !Covers(free, x) && !LiveCovers(live, x);
      assert LinkedAt(ptr, size, free, 0);
    }

    // Hand out n units of the t-th free block.
    method Carve(prevp: nat, p: nat, n: nat, ghost t: nat) returns (r: nat)
      requires Formed() && freep != 0 && 0 < t < |free| && prevp == free[t-1].a && p == free[t].a
      requires 0 < n <= free[t].n
      modifies this`ptr, this`size, this`freep, this`free, this`live, this`at
      ensures Formed() && freep != 0
      ensures r == Taken(old(free), t, n).a && r !in old(live) && live == old(live)[r := n]
      ensures free == Take(old(free), t, n)
      ensures forall x: nat :: Covers(free, x) <==> Covers(old(free), x) && !Within(Blk(r, n), x)
    {
      TakePlan(free, live, got, base, ptr, size, t, n);
      hide Accounts, Covers, Headers, Linked, Take;
      r := StoreTake(prevp, p, n);
      freep := prevp;
      TakeKeepsPlace(free, t, n);
      free, live, at := Take(free, t, n), live[r := n], t - 1;
    }

    // The stores that take n units off block p: unlink it, or shorten it.
    method StoreTake(prevp: nat, p: nat, n: nat) returns (r: nat)
      requires prevp in ptr && p in ptr && p in size && 0 < n <= size[p]
      modifies this`ptr, this`size
      ensures r == p + old(size)[p] - n
      ensures if old(size)[p] == n then ptr == old(ptr)[prevp := old(ptr)[p]] && size == old(size)
              else ptr == old(ptr) && size == old(size)[p := old(size)[p] - n][r := n]
    {
      r := p;
      if size[p] == n {
        ptr := ptr[prevp := ptr[p]];
      } else {
        size := size[p := size[p] - n];
        r := r + size[p];
        size := size[r := n];
      }
    }

    // Allocate room for nbytes: first fit from freep on, asking sbrk at most once.  The
    // block has memory behind it exactly if a free block fitted or the bytes asked of
    // sbrk are positive as an int.
    method Malloc(nbytes: nat, brk: nat, memory: bool) returns (r: Option<nat>, ghost asked: nat)
      requires Valid() && Beyond(brk, base, got) && nbytes < UINT_LIMIT
      modifies this
      ensures Formed() && asked <= 1
      ensures asked == 1 <==> !Fits(old(free), Units(nbytes))
      ensures r.None? <==> asked == 1 && Answer(nbytes, brk, memory).None?
      ensures r.None? ==> live == old(live) && got == old(got) && SameCover(old(free), free)
      ensures r.Some? ==>
        && r.value > 0
        && Granted(old(free), old(live), old(got), free, live, got, r.value - 1, Units(nbytes), asked == 1, Answer(nbytes, brk, memory))
      ensures given == if asked == 1 then Memory(old(given), brk, Asked(nbytes), memory) else old(given)
      ensures r.Some? ==>
        && (Valid() <==> Fits(old(free), Units(nbytes)) || Units(nbytes) * HEADER < INT_LIMIT)
        && (Usable(given, r.value - 1, nbytes) <==>
              nbytes + HEADER - 1 < UINT_LIMIT && (Fits(old(free), Units(nbytes)) || Units(nbytes) * HEADER < INT_LIMIT))
      ensures r.None? ==> (Valid() <==> Units(nbytes) * HEADER < INT_LIMIT || old(got) == {})
    {
      hide *;
      Together();
      AnswerIs(nbytes, brk, memory);
      var nunits := Units(nbytes);
      Ready(nunits);
      ghost var f0 := free;
      Parts();
      r, asked := FirstFit(nunits, brk, memory, Answer(nbytes, brk, memory));
      if r.Some? {
        Parts();
        Backing(f0, old(live), old(got), free, live, got, base, r.value - 1, nbytes, asked == 1, brk, memory);
        GrantedSame(old(free), f0, old(live), old(got), free, live, got, r.value - 1, nunits, asked == 1, Answer(nbytes, brk, memory));
      } else {
        NullKeeps(old(got), base, nbytes, brk, memory);
      }
      Together();
    }

    // The list is there, and covers what it covered.
    method Ready(nunits: nat)
      requires Formed() && nunits > 0
      modifies this
      ensures Formed() && freep != 0 && live == old(live) && got == old(got) && given == old(given)
      ensures SameCover(old(free), free) && (Fits(free, nunits) <==> Fits(old(free), nunits))
    {
      if freep == 0 {
        Start();
      }
    }

    lemma Parts()
      requires Formed() && freep != 0
      ensures Accounts(free, live, got, base)
    {
    }

    lemma Together()
      ensures Valid() <==> Formed() && got == given
    {
    }

    // malloc's loop round the ring; core is sbrk's answer if it is asked.
    method FirstFit(nunits: nat, brk: nat, memory: bool, ghost core: Option<nat>) returns (r: Option<nat>, ghost asked: nat)
      requires Formed() && freep != 0 && nunits > 0 && Beyond(brk, base, got)
      requires core == Sbrk(brk, Bytes(CoreUnits(nunits)), memory)
      modifies this
      ensures Formed() && freep != 0 && asked <= 1
      ensures asked == 1 <==> !Fits(old(free), nunits)
      ensures r.None? <==> asked == 1 && core.None?
      ensures r.None? ==> live == old(live) && got == old(got) && free == old(free)
      ensures r.Some? ==>
        && r.value > 0
        && Granted(old(free), old(live), old(got), free, live, got, r.value - 1, nunits, asked == 1, core)
      ensures given == if asked == 1 then Memory(old(given), brk, Bytes(CoreUnits(nunits)), memory) else old(given)
    {
      hide *;
      Begin(nunits, core);
      var prevp := freep;
      var p := ptr[prevp];
      ghost var d: nat := 0;            // blocks looked at since freep
      asked := 0;
      while true
        invariant Formed() && freep != 0 && asked <= 1 && live == old(live)
        invariant at < |free| && d < |free| && Scanned(free, at, d, nunits)
        invariant prevp == Here(free, at, d) && p == Here(free, at, d + 1)
        invariant Obtained(old(free), old(got), free, got, core, nunits, asked == 1)
        invariant given == if asked == 1 then Memory(old(given), brk, Bytes(CoreUnits(nunits)), memory) else old(given)
        decreases 1 - asked, |free| - d
      {
        ghost var t := Look(d, nunits);
        if size[p] >= nunits {
          var q := Grant(prevp, p, nunits, t, core, old(free), old(got), asked == 1);
          r := Some(q + 1);
          return;
        }
        if p == freep {
          var ok := Refill(nunits, brk, memory, core, old(free), old(got), asked == 1);
          asked := asked + 1;
          if !ok {
            return None, asked;
          }
          p := freep;
          d := 0;
        } else {
          d := d + 1;
        }
        prevp := p;
        p := ptr[p];
      }
    }

    // What holds before the loop.
    lemma Begin(nunits: nat, core: Option<nat>)
      requires Formed() && freep != 0
      ensures at < |free| && freep in ptr && Obtained(free, got, free, got, core, nunits, false)
      ensures Scanned(free, at, 0, nunits) && freep == Here(free, at, 0) && ptr[freep] == Here(free, at, 1)
    {
      ScanStart(ptr, size, free, at, nunits);
    }

    // What the loop finds at its next block.
    lemma Look(d: nat, nunits: nat) returns (t: nat)
      requires Formed() && freep != 0 && Scanned(free, at, d, nunits) && nunits > 0
      ensures t < |free| && free[t].a == Here(free, at, d + 1) && free[t].a in size && size[free[t].a] == free[t].n
      ensures free[t].a in ptr
      ensures free[t].n >= nunits ==> 0 < t && free[t-1].a == Here(free, at, d) && Fits(free, nunits)
      ensures free[t].n < nunits && free[t].a == freep ==> !Fits(free, nunits)
      ensures free[t].n < nunits && free[t].a != freep ==>
        d + 1 < |free| && Scanned(free, at, d + 1, nunits) && ptr[free[t].a] == Here(free, at, d + 2)
    {
      hide Accounts, Linked, Fits, Here;
      t := ScanLook(ptr, size, free, live, got, base, at, d, nunits);
    }

    // The loop's way out.
    method Grant(prevp: nat, p: nat, nunits: nat, ghost t: nat, ghost core: Option<nat>,
                 ghost f0: seq<Blk>, ghost got0: set<nat>, ghost asked: bool) returns (q: nat)
      requires Formed() && freep != 0 && 0 < t < |free| && prevp == free[t-1].a && p == free[t].a
      requires 0 < nunits <= free[t].n && Fits(free, nunits) && Obtained(f0, got0, free, got, core, nunits, asked)
      modifies this
      ensures Formed() && freep != 0 && given == old(given) && (asked ==> core.Some?) && (asked <==> !Fits(f0, nunits))
      ensures Granted(f0, old(live), got0, free, live, got, q, nunits, asked, core)
    {
      assert asked ==> core.Some?;
      hide Accounts, Linked, Covers, Headers, Fits, Obtained, Granted;
      q := Carve(prevp, p, nunits, t);
      GrantStep(f0, old(live), got0, old(free), got, free, core, nunits, asked, q);
    }

    // The loop back at freep: ask sbrk and start again.
    method Refill(nunits: nat, brk: nat, memory: bool, ghost core: Option<nat>, ghost f0: seq<Blk>, ghost got0: set<nat>,
                  ghost asked: bool)
      returns (ok: bool)
      requires Formed() && freep != 0 && nunits > 0 && Beyond(brk, base, got0)
      requires core == Sbrk(brk, Bytes(CoreUnits(nunits)), memory)
      requires !Fits(free, nunits) && Obtained(f0, got0, free, got, core, nunits, asked)
      modifies this
      ensures Formed() && freep != 0 && live == old(live) && !asked && !Fits(f0, nunits)
      ensures given == Memory(old(given), brk, Bytes(CoreUnits(nunits)), memory)
      ensures ok <==> core.Some?
      ensures !ok ==> free == f0 && got == got0
      ensures ok ==>
        && Obtained(f0, got0, free, got, core, nunits, true)
        && freep in ptr && at < |free| && Scanned(free, at, 0, nunits) && freep == Here(free, at, 0) && ptr[freep] == Here(free, at, 1)
    {
      FitsNow(f0, got0, free, got, core, nunits, asked);
      hide Accounts, Linked, Covers, Headers, Fits, Obtained, Scanned, Turn, Bytes;
      ok := Morecore(nunits, brk, memory);
      if ok {
        ObtainStep(f0, got0, free, got, core, nunits);
        ScanStart(ptr, size, free, at, nunits);
      }
    }
  }

  // All that freeing the live block at bp comes to.
  lemma FreePlan(f: seq<Blk>, l: Live, got: set<nat>, base: nat, ptr: map<nat, nat>, size: map<nat, nat>, bp: nat)
    requires Accounts(f, l, got, base) && Linked(ptr, size, f) && Headers(l, size) && bp in l
    ensures base < bp && bp in size && size[bp] == l[bp]
    ensures var t, b := Place(f, bp), Blk(bp, l[bp]);
            var p, q := f[t].a, f[Succ(f, t)].a;
            && p in ptr && p in size && q in ptr && q in size && ptr[p] == q && p != bp && q != bp
            && size[p] == f[t].n && base <= p
            && Accounts(Insert(f, t, b), l - {bp}, got, base)
            && (forall x: nat :: Covers(Insert(f, t, b), x) <==> Covers(f, x) || Within(b, x))
            && var up, down := bp + size[bp] == q, p + size[p] == bp;
               Linked(FreePtr(ptr, p, q, bp, up, down), FreeSize(size, p, q, bp, up, down), Insert(f, t, b)) &&
               Headers(l - {bp}, FreeSize(size, p, q, bp, up, down))
  {
    LiveInGap(f, l, got, base, bp);
    var t, b := Place(f, bp), Blk(bp, l[bp]);
    FreeAccounts(f, l, got, base, bp);
    FreeLinks(ptr, size, f, t, b, base);
    FreeHeaders(f, l, got, base, size, t, b);
    LiveNotFree(f, l, got, base, bp, t);
    LiveNotFree(f, l, got, base, bp, Succ(f, t));
    assert t > 0 ==> f[0].a < f[t].a;
    hide Linked, Covers, Insert, FreePtr, FreeSize, Sorted;
  }

  // Some free block has at least n units.
  predicate Fits(f: seq<Blk>, n: nat) { exists i :: 0 <= i < |f| && f[i].n >= n }

  // Since free blocks never touch, a covered run of units lies inside one block.
  lemma {:induction false} RunInOneBlock(f: seq<Blk>, a: nat, n: nat) returns (i: nat)
    requires Sorted(f) && n > 0 && forall x: nat :: a <= x < a + n ==> Covers(f, x)
    ensures i < |f| && f[i].a <= a && a + n <= f[i].a + f[i].n
    decreases n
  {
    var last := a + n - 1;
    assert Covers(f, last);
    if n == 1 {
      i :| 0 <= i < |f| && Within(f[i], a);
    } else {
      i := RunInOneBlock(f, a, n - 1);
      var j :| 0 <= j < |f| && Within(f[j], last);
      assert Within(f[i], last - 1);
    }
  }

  lemma RingOf(f: seq<Blk>, l: Live, got: set<nat>, base: nat)
    requires Accounts(f, l, got, base)
    ensures Ring(f, base)
  {
  }

  lemma RunFits(f: seq<Blk>, a: nat, n: nat, base: nat)
    requires Ring(f, base) && n > 0 && forall x: nat :: Within(Blk(a, n), x) ==> Covers(f, x)
    ensures Fits(f, n)
  {
    assert forall x: nat :: a <= x < a + n ==> Within(Blk(a, n), x);
    var i := RunInOneBlock(f, a, n);
  }

  // Writing a header off the list disturbs neither list nor live blocks.
  lemma NewHeader(ptr: map<nat, nat>, size: map<nat, nat>, f: seq<Blk>, l: Live, hp: nat, n: nat)
    requires Linked(ptr, size, f) && Headers(l, size) && forall i :: 0 <= i < |f| ==> f[i].a != hp
    ensures Linked(ptr, size[hp := n], f) && Headers(l[hp := n], size[hp := n])
  {
    var size' := size[hp := n];
    forall i: nat | i < |f|
      ensures LinkedAt(ptr, size', f, i)
    {
      assert LinkedAt(ptr, size, f, i);
    }
  }

  lemma FreshHeader(f: seq<Blk>, l: Live, got: set<nat>, base: nat, hp: nat)
    requires Accounts(f, l, got, base) && base < hp && forall x :: x in got ==> x < hp
    ensures forall i :: 0 <= i < |f| ==> f[i].a != hp
  {
    forall i | 0 <= i < |f|
      ensures f[i].a != hp
    {
      assert i > 0 ==> Within(f[i], f[i].a) && Covers(f, f[i].a);
    }
  }

  // The j-th place after s on a ring of n.
  function Turn(n: nat, s: nat, j: nat): (i: int) { if s + j < n then s + j else s + j - n }

  // The units sbrk's answer brings.
  function Extra(core: Option<nat>, nunits: nat): (s: set<nat>)
  {
    if core.Some? then Span(core.value, CoreUnits(nunits)) else {}
  }

  ghost predicate SameCover(f: seq<Blk>, g: seq<Blk>) { forall x: nat :: Covers(f, x) <==> Covers(g, x) }

  // Before sbrk has been asked the list is the old one; afterwards it has grown by
  // sbrk's units, and only now has a block that fits.
  ghost predicate Obtained(f0: seq<Blk>, got0: set<nat>, f: seq<Blk>, got: set<nat>, core: Option<nat>, n: nat, asked: bool)
  {
    if !asked then f == f0 && got == got0
    else
      && core.Some? && !Fits(f0, n) && Fits(f, n) && got == got0 + Extra(core, n)
      && forall x: nat :: Covers(f, x) <==> Covers(f0, x) || x in Extra(core, n)
  }

  // A block of n units at a has changed from free to live; if sbrk was asked, its
  // units have been added first.
  ghost predicate Granted(f0: seq<Blk>, l0: Live, got0: set<nat>, f: seq<Blk>, l: Live, got: set<nat>,
                          a: nat, n: nat, asked: bool, core: Option<nat>)
  {
    && a !in l0 && l == l0[a := n]
    && got == got0 + (if asked then Extra(core, n) else {})
    && forall x: nat :: Covers(f, x) <==>
         (Covers(f0, x) || (asked && x in Extra(core, n))) && !Within(Blk(a, n), x)
  }

  lemma ObtainStep(f0: seq<Blk>, got0: set<nat>, f: seq<Blk>, got: set<nat>, core: Option<nat>, n: nat)
    requires core.Some? && !Fits(f0, n) && Fits(f, n)
    requires got == got0 + Span(core.value, CoreUnits(n))
    requires forall x: nat :: Covers(f, x) <==> Covers(f0, x) || Within(Blk(core.value, CoreUnits(n)), x)
    ensures Obtained(f0, got0, f, got, core, n, true)
  {
  }

  // When nothing fits, sbrk has not been asked yet.
  lemma FitsNow(f0: seq<Blk>, got0: set<nat>, f: seq<Blk>, got: set<nat>, core: Option<nat>, n: nat, asked: bool)
    requires Obtained(f0, got0, f, got, core, n, asked) && !Fits(f, n)
    ensures !asked && f == f0 && got == got0
  {
  }

  lemma GrantStep(f0: seq<Blk>, l0: Live, got0: set<nat>, f: seq<Blk>, got: set<nat>, g: seq<Blk>,
                  core: Option<nat>, n: nat, asked: bool, a: nat)
    requires Obtained(f0, got0, f, got, core, n, asked) && a !in l0 && Fits(f, n)
    requires forall x: nat :: Covers(g, x) <==> Covers(f, x) && !Within(Blk(a, n), x)
    ensures Granted(f0, l0, got0, g, l0[a := n], got, a, n, asked, core)
    ensures asked <==> !Fits(f0, n)
  {
  }

  lemma GrantedSame(f: seq<Blk>, f0: seq<Blk>, l0: Live, got0: set<nat>, g: seq<Blk>, l: Live, got: set<nat>,
                    a: nat, n: nat, asked: bool, core: Option<nat>)
    requires SameCover(f, f0) && Granted(f0, l0, got0, g, l, got, a, n, asked, core)
    ensures Granted(f, l0, got0, g, l, got, a, n, asked, core)
  {
    hide Covers;
  }

  // --- memory behind a block ------------------------------------------------------------

  // The block at a has room for nbytes behind its header, and memory behind all of it.
  ghost predicate Usable(given: set<nat>, a: nat, nbytes: nat)
  {
    (Units(nbytes) - 1) * HEADER >= nbytes && Span(a, Units(nbytes)) <= given
  }

  // A run of free units that no old free block can hold has a unit of sbrk's.
  lemma NeedsCore(f0: seq<Blk>, l0: Live, got0: set<nat>, f: seq<Blk>, l: Live, got: set<nat>, base: nat,
                  a: nat, n: nat, core: Option<nat>) returns (x: nat)
    requires Accounts(f0, l0, got0, base) && Accounts(f, l, got, base) && n > 0
    requires Granted(f0, l0, got0, f, l, got, a, n, true, core) && !Fits(f0, n)
    ensures Within(Blk(a, n), x) && x in Extra(core, n)
  {
    if forall y: nat :: Within(Blk(a, n), y) ==> y !in Extra(core, n) {
      forall y: nat | Within(Blk(a, n), y)
        ensures Covers(f0, y)
      {
        TakenFromFree(l0, l, a, n, y);
      }
      RunFits(f0, a, n, base);
      assert false;
    }
    x :| Within(Blk(a, n), x) && x in Extra(core, n);
  }

  // A unit of the new live block lies in no old one.
  lemma TakenFromFree(l0: Live, l: Live, a: nat, n: nat, y: nat)
    requires a !in l0 && l == l0[a := n] && Within(Blk(a, n), y)
    requires forall b, c :: b in l && c in l && b < c ==> b + l[b] <= c
    ensures !LiveCovers(l0, y) && LiveCovers(l, y)
  {
    assert a in l && Within(Blk(a, l[a]), y);
    forall b | b in l0
      ensures !Within(Blk(b, l0[b]), y)
    {
      assert b in l && l[b] == l0[b];
    }
  }

  lemma Backing(f0: seq<Blk>, l0: Live, got0: set<nat>, f: seq<Blk>, l: Live, got: set<nat>, base: nat,
                a: nat, nbytes: nat, asked: bool, brk: nat, memory: bool)
    requires Accounts(f0, l0, got0, base) && Accounts(f, l, got, base) && nbytes < UINT_LIMIT && Beyond(brk, base, got0)
    requires Granted(f0, l0, got0, f, l, got, a, Units(nbytes), asked, Answer(nbytes, brk, memory))
    requires asked ==> !Fits(f0, Units(nbytes)) && Answer(nbytes, brk, memory).Some?
    ensures var given := if asked then Memory(got0, brk, Asked(nbytes), memory) else got0;
            var good := !asked || Units(nbytes) * HEADER < INT_LIMIT;
            (got == given <==> good) && (Usable(given, a, nbytes) <==> nbytes + HEADER - 1 < UINT_LIMIT && good)
  {
    EnoughRoom(nbytes);
    var n := Units(nbytes);
    forall y: nat | Within(Blk(a, n), y)
      ensures y in got
    {
      TakenFromFree(l0, l, a, n, y);
    }
    SignOfRequest(nbytes);
    if asked && n * HEADER >= INT_LIMIT {
      var x := NeedsCore(f0, l0, got0, f, l, got, base, a, n, Answer(nbytes, brk, memory));
      assert x >= brk && x in Span(a, n) && x in got;
      assert x !in Memory(got0, brk, Asked(nbytes), memory);
    }
  }

  // All that taking n units of block t comes to.
  lemma TakePlan(f: seq<Blk>, l: Live, got: set<nat>, base: nat, ptr: map<nat, nat>, size: map<nat, nat>, t: nat, n: nat)
    requires Accounts(f, l, got, base) && Linked(ptr, size, f) && Headers(l, size)
    requires 0 < t < |f| && 0 < n <= f[t].n
    ensures f[t-1].a in ptr && f[t].a in ptr && f[t].a in size && size[f[t].a] == f[t].n && base <= f[t-1].a
    ensures var r := Taken(f, t, n).a;
            && r !in l && Accounts(Take(f, t, n), l[r := n], got, base)
            && (forall x: nat :: Covers(Take(f, t, n), x) <==> Covers(f, x) && !Within(Blk(r, n), x))
            && (f[t].n == n ==> Linked(ptr[f[t-1].a := ptr[f[t].a]], size, Take(f, t, n)) && Headers(l[r := n], size))
            && (f[t].n > n ==> Linked(ptr, size[f[t].a := f[t].n - n][r := n], Take(f, t, n)) &&
                               Headers(l[r := n], size[f[t].a := f[t].n - n][r := n]))
  {
    AllLinked(ptr, size, f, t);
    AllLinked(ptr, size, f, t - 1);
    assert t - 1 > 0 ==> f[0].a < f[t-1].a;
    hide Linked, Covers, LiveCovers, Sorted;
    TakeAccounts(f, l, got, base, t, n);
    TakeHeaders(f, l, got, base, size, t, n);
    if f[t].n == n { UnlinkLinks(ptr, size, f, t, base); } else { SplitLinks(ptr, size, f, t, n, base); }
  }

  lemma TakeKeepsPlace(f: seq<Blk>, t: nat, n: nat)
    requires 0 < t < |f| && n <= f[t].n
    ensures t - 1 < |Take(f, t, n)| && Take(f, t, n)[t-1] == f[t-1]
  {
  }

  // The address j places after freep.
  function Here(f: seq<Blk>, s: nat, j: nat): (a: nat)
    requires s < |f| && j <= |f|
  {
    f[Turn(|f|, s, j)].a
  }

  // The d blocks after freep, and no more than the ring has, are too small.
  predicate Scanned(f: seq<Blk>, s: nat, d: nat, n: nat)
  {
    s < |f| && d < |f| && forall j :: 1 <= j <= d ==> f[Turn(|f|, s, j)].n < n
  }

  lemma ScanStart(ptr: map<nat, nat>, size: map<nat, nat>, f: seq<Blk>, s: nat, n: nat)
    requires s < |f| && Linked(ptr, size, f)
    ensures f[s].a in ptr && Scanned(f, s, 0, n) && Here(f, s, 0) == f[s].a && ptr[f[s].a] == Here(f, s, 1)
  {
    AllLinked(ptr, size, f, s);
  }

  // The next block: its size, its neighbours, whether the turn is complete.
  lemma ScanLook(ptr: map<nat, nat>, size: map<nat, nat>, f: seq<Blk>, l: Live, got: set<nat>, base: nat,
                 s: nat, d: nat, n: nat) returns (t: nat)
    requires Accounts(f, l, got, base) && Linked(ptr, size, f) && Scanned(f, s, d, n) && n > 0
    ensures t < |f| && f[t].a == Here(f, s, d + 1) && f[t].a in size && size[f[t].a] == f[t].n && f[t].a in ptr
    ensures f[t].n >= n ==> 0 < t && f[t-1].a == Here(f, s, d) && Fits(f, n)
    ensures f[t].n < n && f[t].a == f[s].a ==> !Fits(f, n)
    ensures f[t].n < n && f[t].a != f[s].a ==>
      d + 1 < |f| && Scanned(f, s, d + 1, n) && ptr[f[t].a] == Here(f, s, d + 2)
  {
    t := Turn(|f|, s, d + 1);
    AllLinked(ptr, size, f, t);
    hide Linked;
    assert f[t].a == f[s].a <==> d + 1 == |f|;
    if f[t].n < n && d + 1 == |f| {
      NoneFits(f, s, n);
    }
  }

  // A whole turn without a fit means there is none.
  lemma NoneFits(f: seq<Blk>, s: nat, n: nat)
    requires s < |f| && forall j :: 1 <= j <= |f| ==> f[Turn(|f|, s, j)].n < n
    ensures !Fits(f, n)
  {
    forall i | 0 <= i < |f|
      ensures f[i].n < n
    {
      var j := if i > s then i - s else i - s + |f|;
      assert Turn(|f|, s, j) == i;
    }
  }

  lemma TakeHeaders(f: seq<Blk>, l: Live, got: set<nat>, base: nat, size: map<nat, nat>, t: nat, n: nat)
    requires Accounts(f, l, got, base) && Headers(l, size) && 0 < t < |f| && 0 < n <= f[t].n
    requires f[t].a in size && size[f[t].a] == f[t].n
    ensures var r := Taken(f, t, n).a;
            && (f[t].n == n ==> Headers(l[r := n], size))
            && (f[t].n > n ==> Headers(l[r := n], size[f[t].a := f[t].n - n][r := n]))
  {
    forall c | c in l
      ensures c != f[t].a
    {
      LiveNotFree(f, l, got, base, c, t);
    }
  }

  // One look at the ring during the search: the loop goes on exactly when it has not
  // reached the block's place, and then it comes closer.
  lemma SearchStep(f: seq<Blk>, base: nat, i: nat, t: nat, bp: nat)
    requires Ring(f, base) && i < |f| && t < |f| && base < bp
    requires f[t].a < bp && (t + 1 < |f| ==> bp < f[t+1].a)
    ensures var p, q := f[i].a, f[Succ(f, i)].a;
            && ((bp > p && bp < q) || (p >= q && (bp > p || bp < q)) <==> i == t)
            && (i != t ==> 0 <= Distance(|f|, Succ(f, i), t) < Distance(|f|, i, t))
  {
    assert forall j :: 0 <= j < t ==> f[j].a < f[t].a;
    assert forall j :: t + 1 < j < |f| ==> f[t+1].a < f[j].a;
  }

  lemma InsertKeepsPlace(f: seq<Blk>, t: nat, b: Blk)
    requires t < |f|
    ensures t < |Insert(f, t, b)| && Insert(f, t, b)[t].a == f[t].a
  {
  }

  lemma FreeHeaders(f: seq<Blk>, l: Live, got: set<nat>, base: nat, size: map<nat, nat>, t: nat, b: Blk)
    requires Accounts(f, l, got, base) && Headers(l, size) && t < |f| && b.a in l && b.n == l[b.a]
    requires f[t].a in size && f[Succ(f, t)].a in size
    ensures forall up, down :: Headers(l - {b.a}, FreeSize(size, f[t].a, f[Succ(f, t)].a, b.a, up, down))
  {
    forall c | c in l
      ensures c != f[t].a
    {
      LiveNotFree(f, l, got, base, c, t);
    }
  }
}
