/**
 The code of xv6/bio.c: struct buf objects on a circular doubly linked list,
 relinked in place.  Each routine is shown to perform the corresponding step of
 BufferCache.dfy on the list's contents.
 */
module BufferRing {
  import opened Blocks
  import opened BufferCache
  import opened Options

  class Node {
    var key: Key
    var valid: bool
    var dirty: bool
    var refcnt: nat
    var locked: bool
    var data: Block
    var prev: Node?
    var next: Node?
    ghost var released: int

    constructor (ghost stamp: int)
      ensures Value() == Blank(stamp)
    {
      key, valid, dirty, refcnt, locked := Key(0, 0), false, false, 0, false;
      data := ZeroBlock();
      prev, next, released := null, null, stamp;
    }

    ghost function Value(): Buf
      reads `key, `valid, `dirty, `refcnt, `locked, `data, `released
    {
      Buf(key, valid, dirty, refcnt, locked, data, released)
    }
  }

  // A buffer as binit leaves it.
  ghost function Blank(stamp: int): Buf
  {
    Buf(Key(0, 0), false, false, 0, false, ZeroBlock(), stamp)
  }

  // The nodes form a ring through next, and prev runs the other way.
  ghost predicate Linked(ring: seq<Node>)
    reads ring`prev, ring`next
  {
    && |ring| > 0
    && (forall i, j :: 0 <= i < j < |ring| ==> ring[i] != ring[j])
    && (forall i {:trigger ring[i].next} :: 0 <= i < |ring| - 1 ==> ring[i].next == ring[i+1])
    && (forall i {:trigger ring[i].prev} :: 0 < i < |ring| ==> ring[i].prev == ring[i-1])
    && ring[|ring|-1].next == ring[0] && ring[0].prev == ring[|ring|-1]
  }

  // Take the k-th node off the ring.
  method Unlink(b: Node, ghost ring: seq<Node>, ghost k: nat)
    requires Linked(ring) && 0 < k < |ring| && ring[k] == b
    modifies ring`prev, ring`next
    ensures Linked(ring[..k] + ring[k+1..])
  {
    ghost var rest := ring[..k] + ring[k+1..];
    assert ring[k].prev == ring[k-1] && ring[k].next == ring[if k + 1 < |ring| then k + 1 else 0];
    b.next.prev := b.prev;
    b.prev.next := b.next;
    assert rest[|rest|-1] == ring[if k + 1 < |ring| then |ring| - 1 else k - 1];
  }

  // Put b on the ring right after the head.
  method InsertFront(head: Node, b: Node, ghost ring: seq<Node>)
    requires Linked(ring) && head == ring[0] && b !in ring
    modifies ring`prev, ring`next, b`prev, b`next
    ensures Linked([head, b] + ring[1..])
  {
    ghost var ring' := [head, b] + ring[1..];
    assert head.next == ring[if |ring| > 1 then 1 else 0];
    b.next := head.next;
    b.prev := head;
    head.next.prev := b;
    head.next := b;
    assert forall i :: 2 <= i < |ring'| ==> ring'[i] == ring[i-1];
    assert |ring| > 1 ==> ring'[2].prev == b;
  }

  // The ring with its buffer i moved to the front.
  ghost function Spliced(ring: seq<Node>, i: nat): (r: seq<Node>)
    requires i + 1 < |ring|
    ensures |r| == |ring|
  {
    [ring[0], ring[i+1]] + ring[1..i+1] + ring[i+2..]
  }

  lemma SplicedAt(ring: seq<Node>, i: nat, j: nat)
    requires i + 1 < |ring| && j + 1 < |ring|
    ensures CameFrom(i, j) + 1 < |ring| && Spliced(ring, i)[j+1] == ring[CameFrom(i, j) + 1]
  {
  }

  // Unlink b and put it right after the head.
  method Relink(head: Node, b: Node, ghost ring: seq<Node>, ghost k: nat)
    requires Linked(ring) && head == ring[0] && 0 < k < |ring| && ring[k] == b
    modifies ring`prev, ring`next
    ensures Linked([head, b] + ring[1..k] + ring[k+1..])
  {
    Unlink(b, ring, k);
    ghost var rest := ring[..k] + ring[k+1..];
    InsertFront(head, b, rest);
    assert [head, b] + rest[1..] == [head, b] + ring[1..k] + ring[k+1..];
  }

  // Put a blank buffer at the front of the ring.
  method PushBlank(h: Node, ghost r: seq<Node>, ghost stamp: int) returns (ghost b: Node)
    requires Linked(r) && r[0] == h
    modifies r`prev, r`next
    ensures fresh(b) && b.Value() == Blank(stamp)
    ensures Linked([h, b] + r[1..])
  {
    var n := new Node(stamp);
    InsertFront(h, n, r);
    b := n;
  }

  // nbuf fresh buffers behind a fresh head, each inserted at the front.
  method EmptyRing(nbuf: nat) returns (h: Node, ghost r: seq<Node>)
    ensures |r| == nbuf + 1 && r[0] == h && fresh(r) && Linked(r)
    ensures forall j :: 1 <= j <= nbuf ==> r[j].Value() == Blank(1 - j)
  {
    h := new Node(0);
    h.next, h.prev := h, h;
    r := [h];
    assert Linked(r);
    hide Linked, Blank, Node.Value;
    for t := 0 to nbuf
      invariant |r| == t + 1 && r[0] == h && fresh(r) && Linked(r)
      invariant forall j :: 1 <= j <= t ==> r[j].Value() == Blank(1 - (nbuf - t + j))
    {
      ghost var b := PushBlank(h, r, 1 - (nbuf - t));
      r := [h, b] + r[1..];
    }
  }

  class Bcache {
    const head: Node
    var disk: map<Key, Block>
    ghost var ring: seq<Node>   // head, then the buffers from front to back
    ghost var abs: Cache        // the contents of the list, kept in step

    ghost predicate Valid()
      reads this, ring
    {
      && Linked(ring) && ring[0] == head
      && abs.disk == disk && |abs.bufs| == |ring| - 1
      && forall i :: 0 <= i < |abs.bufs| ==> abs.bufs[i] == ring[i+1].Value()
    }

    // binit
    constructor (nbuf: nat, disk: map<Key, Block>)
      ensures Valid() && fresh(ring) && abs == Init(nbuf, disk)
    {
      var h;
      ghost var r;
      h, r := EmptyRing(nbuf);
      head, this.disk, ring := h, disk, r;
      abs := Init(nbuf, disk);
    }

    // bget's first loop: is the block already cached?
    method FindCached(k: Key) returns (b: Node?, ghost i: nat)
      requires Valid()
      ensures i == Find(abs.bufs, k) && (b == null <==> i == |abs.bufs|)
      ensures b != null ==> i < |abs.bufs| && b == ring[i+1]
    {
      b, i := head.next, 0;
      while b != head
        invariant 0 <= i < |ring| && b == if i + 1 < |ring| then ring[i+1] else head
        invariant forall j :: 0 <= j < i ==> abs.bufs[j].key != k
        decreases |ring| - i
      {
        assert abs.bufs[i] == ring[i+1].Value();
        if b.key == k {
          return;
        }
        b, i := b.next, i + 1;
      }
      b := null;
    }

    // bget's second loop: the least recently used buffer nobody needs.
    method FindUnused() returns (b: Node?, ghost i: nat)
      requires Valid()
      ensures b == null <==> Victim(abs.bufs).None?
      ensures b != null ==> i < |abs.bufs| && b == ring[i+1] && Victim(abs.bufs) == Some(i)
    {
      b := head.prev;
      ghost var j := |ring| - 1;
      while b != head
        invariant 0 <= j < |ring| && b == ring[j]
        invariant forall m :: j <= m < |abs.bufs| ==> !Unused(abs.bufs[m])
        decreases j
      {
        assert abs.bufs[j-1] == ring[j].Value();
        if b.refcnt == 0 && !b.dirty {
          i := j - 1;
          return;
        }
        b, j := b.prev, j - 1;
      }
      b, i := null, 0;
    }

    // bget's critical section; null stands for panic("bget: no buffers").
    method Bget(k: Key) returns (b: Node?)
      requires Valid()
      modifies ring`key, ring`valid, ring`dirty, ring`refcnt, this`abs
      ensures Valid()
      ensures b == null <==> GetStep(old(abs), k).None?
      ensures b == null ==> abs == old(abs)
      ensures b != null ==> abs == GetStep(old(abs), k).value && b in ring && b.key == k
    {
      ghost var i;
      b, i := FindCached(k);
      hide Linked, Node.Value;
      if b != null {
        Reference(b, i);
        return;
      }
      b, i := FindUnused();
      if b != null {
        Recycle(b, i, k);
      }
    }

    // Take one more reference to a cached buffer.
    method Reference(b: Node, ghost i: nat)
      requires Valid() && i < |abs.bufs| && ring[i+1] == b
      modifies b`refcnt, this`abs
      ensures Valid() && abs == old(abs).(bufs := old(abs).bufs[i := old(abs).bufs[i].(refcnt := old(b.refcnt) + 1)])
    {
      assert forall j :: 1 <= j < |ring| && j != i + 1 ==> ring[j] != b;
      hide Linked;
      b.refcnt := b.refcnt + 1;
      abs := abs.(bufs := abs.bufs[i := b.Value()]);
    }

    // Hand an unused buffer over to block k.
    method Recycle(b: Node, ghost i: nat, k: Key)
      requires Valid() && i < |abs.bufs| && ring[i+1] == b
      modifies b`key, b`valid, b`dirty, b`refcnt, this`abs
      ensures Valid() && b.key == k && abs == Recycled(old(abs), i, k)
    {
      assert forall j :: 1 <= j < |ring| && j != i + 1 ==> ring[j] != b;
      hide Linked;
      b.key, b.valid, b.dirty, b.refcnt := k, false, false, 1;
      abs := Recycled(abs, i, k);
    }

    // The rest of bread, once the lock is held: read the block if need be.
    method Fill(b: Node, ghost i: nat)
      requires Valid() && i < |abs.bufs| && ring[i+1] == b && b.locked && b.key in disk
      modifies b`valid, b`data, this`abs
      ensures Valid() && b.valid
      ensures abs == if old(b.valid) then old(abs)
                     else old(abs).(bufs := old(abs).bufs[i := old(abs).bufs[i].(valid := true, data := disk[b.key])])
    {
      if !b.valid {
        b.data := disk[b.key];
        b.valid := true;
        abs := abs.(bufs := abs.bufs[i := b.Value()]);
      }
    }

    // bwrite: put the contents on disk.
    method Bwrite(b: Node, ghost i: nat) returns (panic: bool)
      requires Valid() && i < |abs.bufs| && ring[i+1] == b
      modifies b`valid, b`dirty, this`disk, this`abs
      ensures Valid()
      ensures panic <==> !b.locked
      ensures abs == if panic then old(abs)
                     else old(abs).(bufs := old(abs).bufs[i := old(abs).bufs[i].(dirty := false, valid := true)],
                                    disk := old(disk)[b.key := b.data])
    {
      if !b.locked {
        return true;
      }
      disk := disk[b.key := b.data];
      b.dirty, b.valid := false, true;
      abs := abs.(bufs := abs.bufs[i := b.Value()], disk := disk);
      panic := false;
    }

    // brelse: unlock, drop the reference, move an idle buffer to the front.
    method Brelse(b: Node, ghost i: nat) returns (panic: bool)
      requires Valid() && i < |abs.bufs| && ring[i+1] == b && b.refcnt > 0
      modifies b`locked, b`refcnt, b`released, ring`prev, ring`next, this`ring, this`abs
      ensures Valid()
      ensures panic <==> !old(b.locked)
      ensures abs == if panic then old(abs) else ReleaseStep(old(abs), i)
    {
      if !b.locked {
        return true;
      }
      assert forall j :: 1 <= j < |ring| && j != i + 1 ==> ring[j] != b;
      hide Linked;
      b.locked := false;
      b.refcnt := b.refcnt - 1;
      if b.refcnt == 0 {
        b.released := abs.clock;
        abs := abs.(bufs := abs.bufs[i := b.Value()], clock := abs.clock + 1);
        MoveToFront(b, i);
      } else {
        abs := abs.(bufs := abs.bufs[i := b.Value()]);
      }
      panic := false;
    }

    method MoveToFront(b: Node, ghost i: nat)
      requires Valid() && i < |abs.bufs| && ring[i+1] == b
      modifies ring`prev, ring`next, this`ring, this`abs
      ensures Valid() && abs == old(abs).(bufs := ToFront(old(abs).bufs, i))
    {
      hide ToFront, Linked;
      Relink(head, b, ring, i + 1);
      ring := Spliced(ring, i);
      abs := abs.(bufs := ToFront(abs.bufs, i));
      forall j | 0 <= j < |abs.bufs|
        ensures abs.bufs[j] == ring[j+1].Value()
      {
        ToFrontAt(old(abs).bufs, i, j);
        SplicedAt(old(ring), i, j);
      }
    }
  }
}
