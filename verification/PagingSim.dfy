/**
 The loops of lab-07/sim.c over their arrays, each request proved to do what the
 step functions of Paging say.
 */
module PagingSim {
  import opened Options
  import opened Paging

  lemma FindIs(m: Memory, x: Option<Key>, i: nat)
    requires i < |m| && m[i] == x && forall j :: 0 <= j < i ==> m[j] != x
    ensures Find(m, x) == Some(i)
  {
    hide Find;
    assert Find(m, x).Some?;
  }

  class Simulator {
    const ram: array<Option<Key>>
    const disk: array<Option<Key>>
    const stamps: array<nat>
    var table: map<Key, nat>
    var next: nat
    var nextDisk: nat
    var clock: nat
    ghost var now: nat
    ghost var seen: set<Key>
    ghost var born: seq<nat>
    ghost var used: seq<nat>

    ghost function S(): (s: State)
      reads this, ram, disk, stamps
    {
      State(ram[..], disk[..], table, next, nextDisk, stamps[..], clock, now, seen, born, used)
    }

    ghost predicate Valid()
      reads this, ram, disk, stamps
    {
      ram != disk && Sized(S())
    }

    constructor ()
      ensures Valid() && S() == Start() && fresh(ram) && fresh(disk) && fresh(stamps)
    {
      ram, disk := new Option<Key>[FRAMES](_ => None), new Option<Key>[SLOTS](_ => None);
      stamps := new nat[FRAMES](_ => 0);
      table, next, nextDisk, clock := map[], 0, 0, 0;
      now, seen, born, used := 0, {}, seq(FRAMES, _ => 0), seq(FRAMES, _ => 0);
    }

    // The search loops: a page's place, or the first free place.
    method Search(m: array<Option<Key>>, x: Option<Key>) returns (r: Option<nat>)
      ensures r == Find(m[..], x)
    {
      var i := 0;
      while i < m.Length
        invariant i <= m.Length && forall j :: 0 <= j < i ==> m[j] != x
      {
        if m[i] == x {
          FindIs(m[..], x, i);
          return Some(i);
        }
        i := i + 1;
      }
      r := None;
    }

    method Greatest() returns (m: nat)
      requires stamps.Length > 0
      ensures m == Latest(stamps[..])
    {
      m := stamps[0];
      var i := 1;
      while i < stamps.Length
        invariant 1 <= i <= stamps.Length && m == Latest(stamps[..i])
      {
        assert stamps[..i + 1][..i] == stamps[..i];
        if stamps[i] > m {
          m := stamps[i];
        }
        i := i + 1;
      }
      assert stamps[..stamps.Length] == stamps[..];
    }

    method Least() returns (f: nat)
      requires stamps.Length > 0
      ensures f == ArgMin(stamps[..])
    {
      f := 0;
      var i := 1;
      while i < stamps.Length
        invariant 1 <= i <= stamps.Length && f == ArgMin(stamps[..i])
      {
        assert stamps[..i + 1][..i] == stamps[..i];
        if stamps[i] < stamps[f] {
          f := i;
        }
        i := i + 1;
      }
      assert stamps[..stamps.Length] == stamps[..];
    }

    // Frame f becomes the most recent and everything ages by one.
    method Freshen(f: nat)
      requires f < stamps.Length
      modifies stamps
      ensures stamps[..] == Restamp(old(stamps[..]), f)
    {
      var max := Greatest();
      stamps[f] := max + 1;
      ghost var t := stamps[..];
      var i := 0;
      while i < stamps.Length
        invariant i <= stamps.Length && forall j :: 0 <= j < stamps.Length ==> stamps[j] == if j < i then t[j] + 1 else t[j]
      {
        stamps[i] := stamps[i] + 1;
        i := i + 1;
      }
    }

    // Page k into frame f, and its table entry.
    method Bring(k: Key, f: nat)
      requires Valid() && f < FRAMES
      modifies this`table, this`now, this`seen, this`born, this`used, ram
      ensures Valid() && S() == Load(old(S()), k, f)
    {
      table := table[k := f + 1];
      ram[f] := Some(k);
      now, seen, born, used := now + 1, seen + {k}, born[f := now], used[f := now];
    }

    method Touch(f: nat)
      requires Valid() && f < FRAMES
      modifies this`now, this`used
      ensures Valid() && S() == Hit(old(S()), f)
    {
      now, used := now + 1, used[f := now];
    }

    method ServeFifo(k: Key) returns (full: bool)
      requires Valid()
      modifies this, ram, disk
      ensures full <==> Fifo(old(S()), k).DiskFull?
      ensures full ==> S() == old(S())
      ensures !full ==> Valid() && Fifo(old(S()), k) == Next(S())
    {
      hide Find;
      var inRam := Search(ram, Some(k));
      var inDisk := Search(disk, Some(k));
      var room := Search(ram, None);
      full := false;
      if inRam.Some? {
        Touch(inRam.value);
        return;
      }
      var f := next;
      if inDisk.None? && room.Some? {
        next := (next + 1) % FRAMES;
        Bring(k, f);
      } else if inDisk.None? {
        if disk[nextDisk].Some? {
          return true;
        }
        disk[nextDisk] := ram[f];
        nextDisk, next := (nextDisk + 1) % SLOTS, (next + 1) % FRAMES;
        Bring(k, f);
      } else if room.None? {
        disk[inDisk.value] := ram[f];
        next := (next + 1) % FRAMES;
        Bring(k, f);
      }
    }

    method ServeLru(k: Key) returns (full: bool)
      requires Valid()
      modifies this, ram, disk, stamps
      ensures full <==> Lru(old(S()), k).DiskFull?
      ensures full ==> S() == old(S())
      ensures !full ==> Valid() && Lru(old(S()), k) == Next(S())
    {
      hide Find, Latest, ArgMin, Restamp;
      var inRam := Search(ram, Some(k));
      var inDisk := Search(disk, Some(k));
      var room := Search(ram, None);
      full := false;
      if inRam.Some? {
        var max := Greatest();
        stamps[inRam.value] := max + 1;
        Touch(inRam.value);
        return;
      }
      if inDisk.None? && room.Some? {
        stamps[room.value] := clock;
        clock := clock + 1;
        Bring(k, room.value);
      } else if inDisk.None? {
        if disk[nextDisk].Some? {
          return true;
        }
        var f := Least();
        disk[nextDisk] := ram[f];
        nextDisk := (nextDisk + 1) % SLOTS;
        Freshen(f);
        Bring(k, f);
      } else if room.None? {
        var f := Least();
        disk[inDisk.value] := ram[f];
        Freshen(f);
        Bring(k, f);
      }
    }
  }
}
