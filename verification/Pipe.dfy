/**
 The pipe of xv6/pipe.c as a state machine: each step is one stretch of
 pipewrite, piperead or pipeclose with p->lock held, from acquiring it (or waking
 up with it) to releasing it (or going to sleep), in any interleaving of any
 number of readers and writers.

 The counters are 32-bit and wrap.  written and read record the whole history.
 */
module Pipes {
  import Blocks
  import opened Basics

  const PIPESIZE := 512

  type byte = Blocks.byte

  // Calls are named by process ids.  A sleeping writer still has bytes to write; a
  // woken one has yet to run.
  datatype Pipe = Pipe(
    data: seq<byte>, nread: nat, nwrite: nat, readopen: bool, writeopen: bool,
    readersAsleep: set<nat>, readersWoken: set<nat>,
    writersAsleep: map<nat, seq<byte>>, writersWoken: map<nat, seq<byte>>,
    written: seq<byte>, read: seq<byte>)

  // nwrite == nread + PIPESIZE and nread == nwrite, in 32-bit arithmetic
  predicate Full(p: Pipe) { p.nwrite == (p.nread + PIPESIZE) % UINT_LIMIT }
  predicate Empty(p: Pipe) { p.nread == p.nwrite }

  // p->data[p->nwrite++ % PIPESIZE] = b
  function Push(p: Pipe, b: byte): (r: Pipe)
    requires |p.data| == PIPESIZE
  {
    p.(data := p.data[p.nwrite % PIPESIZE := b], nwrite := (p.nwrite + 1) % UINT_LIMIT, written := p.written + [b])
  }

  // p->data[p->nread++ % PIPESIZE]
  function Pop(p: Pipe): (r: Pipe)
    requires |p.data| == PIPESIZE
  {
    p.(nread := (p.nread + 1) % UINT_LIMIT, read := p.read + [p.data[p.nread % PIPESIZE]])
  }

  // Write until done or full; what is left over comes back.
  function PushAll(p: Pipe, bytes: seq<byte>): (r: (Pipe, seq<byte>))
    requires |p.data| == PIPESIZE
    decreases |bytes|
  {
    if bytes == [] || Full(p) then (p, bytes) else PushAll(Push(p, bytes[0]), bytes[1..])
  }

  // Read up to n bytes, until empty.
  function PopUpTo(p: Pipe, n: nat): (r: Pipe)
    requires |p.data| == PIPESIZE
    decreases n
  {
    if n == 0 || Empty(p) then p else PopUpTo(Pop(p), n - 1)
  }

  function WakeReaders(p: Pipe): (r: Pipe)
  {
    p.(readersAsleep := {}, readersWoken := p.readersWoken + p.readersAsleep)
  }

  function WakeWriters(p: Pipe): (r: Pipe)
  {
    p.(writersAsleep := map[], writersWoken := p.writersWoken + p.writersAsleep)
  }

  // --- steps ------------------------------------------------------------------------

  datatype Step =
    | Write(id: nat, bytes: seq<byte>, killed: bool)   // pipewrite, from its start or after sleep
    | Read(id: nat, n: nat, killed: bool)              // piperead, likewise
    | CloseWrite
    | CloseRead
    | Nudge(id: nat)                                   // kill() makes a sleeper runnable

  function DoWrite(p: Pipe, id: nat, bytes: seq<byte>, killed: bool): (r: Pipe)
    requires |p.data| == PIPESIZE
  {
    var (q, rest) := PushAll(p.(writersWoken := p.writersWoken - {id}), bytes);
    if rest == [] then WakeReaders(q)
    else if !q.readopen || killed then q                // return -1, waking no one
    else WakeReaders(q).(writersAsleep := q.writersAsleep[id := rest])
  }

  function DoRead(p: Pipe, id: nat, n: nat, killed: bool): (r: Pipe)
    requires |p.data| == PIPESIZE
  {
    var q := p.(readersWoken := p.readersWoken - {id});
    if Empty(q) && q.writeopen then
      if killed then q else q.(readersAsleep := q.readersAsleep + {id})
    else WakeWriters(PopUpTo(q, n))
  }

  // A file end is closed only when no call on it is in progress, a process makes one
  // call at a time, and a woken writer goes on with the bytes it had left.
  predicate Enabled(p: Pipe, s: Step)
  {
    match s
    case Write(id, bytes, _) =>
      p.writeopen && id !in p.writersAsleep && (id in p.writersWoken ==> bytes == p.writersWoken[id])
    case Read(id, _, _) => p.readopen && id !in p.readersAsleep
    case CloseWrite => p.writersAsleep == map[] && p.writersWoken == map[]
    case CloseRead => p.readersAsleep == {} && p.readersWoken == {}
    case Nudge(_) => true
  }

  function Do(p: Pipe, s: Step): (r: Pipe)
    requires |p.data| == PIPESIZE
  {
    match s
    case Write(id, bytes, killed) => DoWrite(p, id, bytes, killed)
    case Read(id, n, killed) => DoRead(p, id, n, killed)
    case CloseWrite => WakeReaders(p.(writeopen := false))
    case CloseRead => WakeWriters(p.(readopen := false))
    case Nudge(id) =>
      var q := if id in p.readersAsleep
               then p.(readersAsleep := p.readersAsleep - {id}, readersWoken := p.readersWoken + {id}) else p;
      if id in q.writersAsleep
      then q.(writersAsleep := q.writersAsleep - {id}, writersWoken := q.writersWoken[id := q.writersAsleep[id]])
      else q
  }

  // --- the ring ------------------------------------------------------------------------

  // The counters are the lengths of the histories, wrapped; the bytes in flight are
  // at their places; and what has been read is what was written, in order.
  predicate Ring(p: Pipe)
  {
    && |p.data| == PIPESIZE
    && |p.read| <= |p.written| <= |p.read| + PIPESIZE
    && p.nread == |p.read| % UINT_LIMIT && p.nwrite == |p.written| % UINT_LIMIT
    && (forall k :: |p.read| <= k < |p.written| ==> p.data[k % PIPESIZE] == p.written[k])
    && p.read == p.written[..|p.read|]
  }

  // How many bytes are in the pipe.
  function InFlight(p: Pipe): (n: int) { |p.written| - |p.read| }

  // The wrapped tests mean what they should.
  lemma Tests(p: Pipe)
    requires Ring(p)
    ensures Full(p) <==> |p.written| == |p.read| + PIPESIZE
    ensures Empty(p) <==> |p.written| == |p.read|
    ensures p.nwrite % PIPESIZE == |p.written| % PIPESIZE
    ensures p.nread % PIPESIZE == |p.read| % PIPESIZE
  {
    Wrap(|p.written|);
    Wrap(|p.read|);
    Gap(|p.read|, |p.written|);
  }

  // PIPESIZE divides the counters' range, so wrapping does not move the index.
  lemma Wrap(x: nat)
    ensures (x % UINT_LIMIT) % PIPESIZE == x % PIPESIZE
  {
    assert UINT_LIMIT == PIPESIZE * 8388608;
    assert x == UINT_LIMIT * (x / UINT_LIMIT) + x % UINT_LIMIT;
    assert x == PIPESIZE * (8388608 * (x / UINT_LIMIT)) + x % UINT_LIMIT;
    ModMultiple(8388608 * (x / UINT_LIMIT), x % UINT_LIMIT);
  }

  lemma {:induction false} ModMultiple(q: nat, r: nat)
    ensures (PIPESIZE * q + r) % PIPESIZE == r % PIPESIZE
  {
    if q > 0 {
      ModMultiple(q - 1, r);
      assert PIPESIZE * q + r == (PIPESIZE * (q - 1) + r) + PIPESIZE;
    }
  }

  lemma Gap(r: nat, w: nat)
    requires r <= w <= r + PIPESIZE
    ensures w % UINT_LIMIT == (r % UINT_LIMIT + PIPESIZE) % UINT_LIMIT <==> w == r + PIPESIZE
    ensures w % UINT_LIMIT == r % UINT_LIMIT <==> w == r
  {
  }

  // Places less than PIPESIZE apart are different.
  lemma Apart(k: nat, w: nat)
    requires k < w < k + PIPESIZE
    ensures k % PIPESIZE != w % PIPESIZE
  {
  }

  lemma Next(x: nat)
    ensures (x % UINT_LIMIT + 1) % UINT_LIMIT == (x + 1) % UINT_LIMIT
  {
  }

  lemma PushKeepsRing(p: Pipe, b: byte)
    requires Ring(p) && !Full(p)
    ensures Ring(Push(p, b))
  {
    Tests(p);
    Next(|p.written|);
    var q := Push(p, b);
    var at := |p.written| % PIPESIZE;
    assert q.data == p.data[at := b];
    forall k | |q.read| <= k < |q.written|
      ensures q.data[k % PIPESIZE] == q.written[k]
    {
      if k < |p.written| {
        Apart(k, |p.written|);
        assert q.data[k % PIPESIZE] == p.data[k % PIPESIZE] == p.written[k];
      }
    }
  }

  lemma PopKeepsRing(p: Pipe)
    requires Ring(p) && !Empty(p)
    ensures Ring(Pop(p)) && |Pop(p).read| == |p.read| + 1
  {
    Tests(p);
    Next(|p.read|);
    var r := |p.read|;
    assert p.data[r % PIPESIZE] == p.written[r];
    assert p.written[..r] + [p.written[r]] == p.written[..r + 1];
  }

  // Everything about the pipe except the ring itself and the histories.
  predicate SameRest(p: Pipe, q: Pipe)
  {
    q == p.(data := q.data, nread := q.nread, nwrite := q.nwrite, written := q.written, read := q.read)
  }

  // A stretch of writing takes as many bytes as there is room for.
  lemma {:induction false} PushAllWrites(p: Pipe, bytes: seq<byte>)
    requires Ring(p)
    ensures var (q, rest) := PushAll(p, bytes);
            var m := Min(|bytes|, PIPESIZE - (|p.written| - |p.read|));
            && Ring(q) && SameRest(p, q) && q.read == p.read
            && q.written == p.written + bytes[..m] && rest == bytes[m..]
    decreases |bytes|
  {
    Tests(p);
    hide Full, Empty;
    if bytes != [] && !Full(p) {
      PushKeepsRing(p, bytes[0]);
      var p1 := Push(p, bytes[0]);
      assert p1.written == p.written + [bytes[0]] && p1.read == p.read && SameRest(p, p1);
      hide Push, Ring;
      PushAllWrites(p1, bytes[1..]);
      OneMore(p.written, bytes, Min(|bytes|, PIPESIZE - (|p.written| - |p.read|)));
    }
  }

  lemma OneMore(w: seq<byte>, bytes: seq<byte>, m: nat)
    requires 0 < m <= |bytes|
    ensures (w + [bytes[0]]) + bytes[1..][..m-1] == w + bytes[..m]
    ensures bytes[1..][m-1..] == bytes[m..]
  {
  }

  // A stretch of reading takes the oldest bytes, as many as asked for and there.
  lemma {:induction false} PopUpToReads(p: Pipe, n: nat)
    requires Ring(p)
    ensures var q := PopUpTo(p, n);
            && Ring(q) && SameRest(p, q) && q.written == p.written
            && q.read == p.written[..|p.read| + Min(n, |p.written| - |p.read|)]
    decreases n
  {
    Tests(p);
    hide Full, Empty;
    if n > 0 && !Empty(p) {
      PopKeepsRing(p);
      assert Pop(p).written == p.written && SameRest(p, Pop(p));
      hide Pop, Ring;
      PopUpToReads(Pop(p), n - 1);
    }
  }

  // --- sleepers ---------------------------------------------------------------------------

  // With the lock free: a sleeping reader has nothing to read and a writer to expect;
  // a sleeping writer has no room, bytes left, and a reader to expect.
  predicate Sleepers(p: Pipe)
  {
    && (p.readersAsleep != {} ==> Empty(p) && p.writeopen)
    && (p.writersAsleep != map[] ==> Full(p) && p.readopen)
    && (!p.readopen ==> p.readersAsleep == {} && p.readersWoken == {})
    && (!p.writeopen ==> p.writersAsleep == map[] && p.writersWoken == map[])
  }

  // The write that breaks it: a killed writer that fills the pipe under a sleeping
  // reader returns without waking the reader.
  predicate Strands(p: Pipe, s: Step)
  {
    s.Write? && s.killed && p.readopen && p.readersAsleep != {} && |s.bytes| > PIPESIZE
  }

  lemma WriteStep(p: Pipe, id: nat, bytes: seq<byte>, killed: bool)
    requires Ring(p) && Sleepers(p) && Enabled(p, Write(id, bytes, killed))
    ensures Ring(DoWrite(p, id, bytes, killed))
    ensures Sleepers(DoWrite(p, id, bytes, killed)) <==> !Strands(p, Write(id, bytes, killed))
  {
    var p0 := p.(writersWoken := p.writersWoken - {id});
    assert Ring(p0);
    PushAllWrites(p0, bytes);
    var (q, rest) := PushAll(p0, bytes);
    Tests(p0);
    Tests(q);
    assert p.writersAsleep != map[] ==> q.written == p.written by {
      if p.writersAsleep != map[] { assert p0.written + bytes[..0] == p0.written; }
    }
    if rest != [] && p.readopen && !killed {
      assert q.writersAsleep[id := rest][id] == rest;
    }
  }

  lemma ReadStep(p: Pipe, id: nat, n: nat, killed: bool)
    requires Ring(p) && Sleepers(p) && Enabled(p, Read(id, n, killed))
    ensures Ring(DoRead(p, id, n, killed)) && Sleepers(DoRead(p, id, n, killed))
  {
    var q := p.(readersWoken := p.readersWoken - {id});
    assert Ring(q);
    PopUpToReads(q, n);
    Tests(q);
    Tests(PopUpTo(q, n));
  }

  // One step keeps the bytes in order; and it keeps the sleepers' invariant exactly
  // when it is not a stranding write.
  lemma StepKeeps(p: Pipe, s: Step)
    requires Ring(p) && Sleepers(p) && Enabled(p, s)
    ensures Ring(Do(p, s))
    ensures Sleepers(Do(p, s)) <==> !Strands(p, s)
  {
    match s {
      case Write(id, bytes, killed) => WriteStep(p, id, bytes, killed);
      case Read(id, n, killed) => ReadStep(p, id, n, killed);
      case _ =>
    }
  }

  // The ring invariant alone is kept by every step, stranding or not.
  lemma StepKeepsRing(p: Pipe, s: Step)
    requires Ring(p)
    ensures Ring(Do(p, s))
    ensures p.written <= Do(p, s).written && p.read <= Do(p, s).read
  {
    hide PushAll, PopUpTo, Full, Empty, Ring, DoWrite, DoRead;
    RingParts(p);
    match s {
      case Write(id, bytes, killed) => WriteKeepsRing(p, id, bytes, killed);
      case Read(id, n, killed) => ReadKeepsRing(p, id, n, killed);
      case _ => SameRing(p, Do(p, s));
    }
  }

  lemma WriteKeepsRing(p: Pipe, id: nat, bytes: seq<byte>, killed: bool)
    requires Ring(p)
    ensures var q := DoWrite(p, id, bytes, killed); Ring(q) && p.written <= q.written && p.read == q.read
  {
    hide PushAll, Full, Empty, Ring;
    RingParts(p);
    var q := p.(writersWoken := p.writersWoken - {id});
    SameRing(p, q);
    PushAllWrites(q, bytes);
    SameRing(PushAll(q, bytes).0, DoWrite(p, id, bytes, killed));
  }

  lemma ReadKeepsRing(p: Pipe, id: nat, n: nat, killed: bool)
    requires Ring(p)
    ensures var q := DoRead(p, id, n, killed); Ring(q) && p.written == q.written && p.read <= q.read
  {
    hide PopUpTo, Full, Empty, Ring;
    RingParts(p);
    var q := p.(readersWoken := p.readersWoken - {id});
    SameRing(p, q);
    PopUpToReads(q, n);
    SameRing(q, DoRead(p, id, n, killed));
    SameRing(PopUpTo(q, n), DoRead(p, id, n, killed));
  }

  // What a stretch of writing, and one of reading, do to a pipe with bytes in it.
  lemma WriteTakes(p: Pipe, id: nat, bytes: seq<byte>, killed: bool)
    requires Ring(p)
    ensures |p.data| == PIPESIZE && 0 <= InFlight(p) <= PIPESIZE
    ensures var m := Min(|bytes|, PIPESIZE - InFlight(p));
            && Ring(DoWrite(p, id, bytes, killed))
            && PushAll(p.(writersWoken := p.writersWoken - {id}), bytes).1 == bytes[m..]
            && DoWrite(p, id, bytes, killed).written == p.written + bytes[..m] && DoWrite(p, id, bytes, killed).read == p.read
  {
    hide Ring, PushAll, Full, Empty;
    RingParts(p);
    WriteKeepsRing(p, id, bytes, killed);
    var q := p.(writersWoken := p.writersWoken - {id});
    SameRing(p, q);
    PushAllWrites(q, bytes);
  }

  lemma ReadTakes(p: Pipe, id: nat, n: nat, killed: bool)
    requires Ring(p)
    ensures |p.data| == PIPESIZE && 0 <= InFlight(p) <= PIPESIZE && (Empty(p) <==> InFlight(p) == 0)
    ensures Ring(DoRead(p, id, n, killed))
    ensures var q := PopUpTo(p.(readersWoken := p.readersWoken - {id}), n);
            && q.read == p.written[..|p.read| + Min(n, InFlight(p))]
            && |q.read| == |p.read| + Min(n, InFlight(p))
  {
    hide Ring, PopUpTo, Full;
    RingParts(p);
    Tests(p);
    ReadKeepsRing(p, id, n, killed);
    var q := p.(readersWoken := p.readersWoken - {id});
    SameRing(p, q);
    PopUpToReads(q, n);
  }

  // The ring invariant does not look at who is asleep or which ends are open.
  lemma SameRing(p: Pipe, q: Pipe)
    ensures Ring(p) && p.data == q.data && p.nread == q.nread && p.nwrite == q.nwrite && p.written == q.written && p.read == q.read ==> Ring(q)
  {
  }

  lemma RingParts(p: Pipe)
    requires Ring(p)
    ensures |p.data| == PIPESIZE && |p.read| <= |p.written| <= |p.read| + PIPESIZE && p.read == p.written[..|p.read|]
  {
  }

  // --- runs -------------------------------------------------------------------------------

  // pipealloc
  function Fresh(garbage: seq<byte>): (p: Pipe)
  {
    Pipe(garbage, 0, 0, true, true, {}, {}, map[], map[], [], [])
  }

  predicate EnabledRun(p: Pipe, steps: seq<Step>)
    requires |p.data| == PIPESIZE
    decreases |steps|
  {
    steps == [] ||
    (Enabled(p, steps[0]) && |Do(p, steps[0]).data| == PIPESIZE && EnabledRun(Do(p, steps[0]), steps[1..]))
  }

  function Run(p: Pipe, steps: seq<Step>): (r: Pipe)
    requires |p.data| == PIPESIZE && EnabledRun(p, steps)
    decreases |steps|
  {
    if steps == [] then p else Run(Do(p, steps[0]), steps[1..])
  }

  predicate NeverStrands(p: Pipe, steps: seq<Step>)
    requires |p.data| == PIPESIZE && EnabledRun(p, steps)
    decreases |steps|
  {
    steps == [] || (!Strands(p, steps[0]) && NeverStrands(Do(p, steps[0]), steps[1..]))
  }

  lemma {:induction false} RunKeepsRing(p: Pipe, steps: seq<Step>)
    requires Ring(p) && EnabledRun(p, steps)
    ensures Ring(Run(p, steps))
    decreases |steps|
  {
    assert |p.data| == PIPESIZE;
    hide Do, Ring;
    if steps != [] {
      StepKeepsRing(p, steps[0]);
      RunKeepsRing(Do(p, steps[0]), steps[1..]);
    }
  }

  lemma {:induction false} RunKeepsSleepers(p: Pipe, steps: seq<Step>)
    requires Ring(p) && Sleepers(p) && EnabledRun(p, steps) && NeverStrands(p, steps)
    ensures Sleepers(Run(p, steps))
    decreases |steps|
  {
    assert |p.data| == PIPESIZE;
    hide Do, Ring, Sleepers, Strands, Enabled;
    if steps != [] {
      StepKeeps(p, steps[0]);
      RunKeepsSleepers(Do(p, steps[0]), steps[1..]);
    }
  }

  // In every interleaving the bytes read are a prefix of the bytes written, and no
  // more than PIPESIZE bytes are in between, however often the counters have wrapped.
  lemma FifoBytes(garbage: seq<byte>, steps: seq<Step>)
    requires |garbage| == PIPESIZE && EnabledRun(Fresh(garbage), steps)
    ensures var p := Run(Fresh(garbage), steps);
            p.read <= p.written && |p.written| - |p.read| <= PIPESIZE
  {
    RunKeepsRing(Fresh(garbage), steps);
  }

  // With no stranding write, nobody sleeps for something that is there, and a reader
  // and a writer are never asleep together.
  lemma NoMissedWakeup(garbage: seq<byte>, steps: seq<Step>)
    requires |garbage| == PIPESIZE && EnabledRun(Fresh(garbage), steps) && NeverStrands(Fresh(garbage), steps)
    ensures var p := Run(Fresh(garbage), steps);
            && (p.readersAsleep != {} ==> p.read == p.written && p.writeopen)
            && (p.writersAsleep != map[] ==> |p.written| == |p.read| + PIPESIZE && p.readopen)
            && (p.readersAsleep == {} || p.writersAsleep == map[])
  {
    var p := Run(Fresh(garbage), steps);
    RunKeepsRing(Fresh(garbage), steps);
    RunKeepsSleepers(Fresh(garbage), steps);
    Tests(p);
  }

  // The stranding run: a reader sleeps, then a killed writer fills the pipe.
  lemma StrandedReader(garbage: seq<byte>, bytes: seq<byte>)
    requires |garbage| == PIPESIZE && |bytes| > PIPESIZE
    ensures var steps := [Read(1, 1, false), Write(2, bytes, true)];
            && EnabledRun(Fresh(garbage), steps)
            && var p := Run(Fresh(garbage), steps);
            1 in p.readersAsleep && |p.written| == PIPESIZE && p.read == []
  {
    var p := Fresh(garbage);
    var p1 := Do(p, Read(1, 1, false));
    assert p1 == p.(readersAsleep := {1});
    var p2 := p1.(writersWoken := p1.writersWoken - {2});
    PushAllWrites(p2, bytes);
    var (q, rest) := PushAll(p2, bytes);
    assert |rest| == |bytes| - PIPESIZE && q.written == bytes[..PIPESIZE];
    assert Do(p1, Write(2, bytes, true)) == q;
    var w := [Write(2, bytes, true)];
    assert Enabled(p, Read(1, 1, false)) && Enabled(p1, w[0]);
    hide Do, PushAll, Enabled;
    assert w[1..] == [] && ([Read(1, 1, false)] + w)[1..] == w;
    assert EnabledRun(p1, w) && Run(p1, w) == q;
    assert [Read(1, 1, false)] + w == [Read(1, 1, false), Write(2, bytes, true)];
  }

  // --- the code ---------------------------------------------------------------------------

  // How a stretch of pipewrite or piperead ends.
  datatype End = Returned(n: int) | Slept

  class PipeObject {
    const data: array<byte>
    var nread: nat
    var nwrite: nat
    var readopen: bool
    var writeopen: bool
    ghost var p: Pipe

    ghost predicate Shown()
      reads this, data
    {
      && data.Length == PIPESIZE && p.data == data[..]
      && p.nread == nread && p.nwrite == nwrite && p.readopen == readopen && p.writeopen == writeopen
    }

    ghost predicate Valid()
      reads this, data
    {
      Shown() && Ring(p)
    }

    // The loop of pipewrite, as long as there is room.
    method CopyIn(addr: seq<byte>, start: nat) returns (i: nat)
      requires Shown() && start <= |addr|
      modifies this`nwrite, this`p, data
      ensures Shown() && start <= i <= |addr| && PushAll(old(p), addr[start..]) == (p, addr[i..])
    {
      i := start;
      while i < |addr| && nwrite != (nread + PIPESIZE) % UINT_LIMIT
        invariant start <= i <= |addr| && Shown()
        invariant PushAll(old(p), addr[start..]) == PushAll(p, addr[i..])
      {
        data[nwrite % PIPESIZE] := addr[i];
        nwrite := (nwrite + 1) % UINT_LIMIT;
        p := Push(p, addr[i]);
        assert addr[i..][1..] == addr[i + 1..];
        i := i + 1;
      }
    }

    // pipewrite from byte start on, up to its return or its next sleep: it takes what there
    // is room for; with bytes left it fails if nobody can read or it was killed, and else
    // sleeps.
    method PipewriteStretch(id: nat, addr: seq<byte>, start: nat, killed: bool) returns (r: End, i: nat)
      requires Valid() && start <= |addr|
      modifies this, data
      ensures Valid()
      ensures p == DoWrite(old(p), id, addr[start..], killed)
      ensures i == start + Min(|addr| - start, PIPESIZE - InFlight(old(p)))
      ensures p.written == old(p).written + addr[start..i] && p.read == old(p).read
      ensures r == Returned(|addr|) <==> i == |addr|
      ensures r == Returned(-1) <==> i < |addr| && (!old(readopen) || killed)
      ensures r == Slept <==> i < |addr| && old(readopen) && !killed
      ensures r == Slept ==> id in p.writersAsleep && p.writersAsleep[id] == addr[i..]
    {
      hide Ring, PushAll, InFlight;
      WriteTakes(p, id, addr[start..], killed);
      p := p.(writersWoken := p.writersWoken - {id});
      i := CopyIn(addr, start);
      assert addr[start..][..i - start] == addr[start..i];
      if i < |addr| {
        if !readopen || killed {
          return Returned(-1), i;
        }
        p := WakeReaders(p).(writersAsleep := p.writersAsleep[id := addr[i..]]);
        return Slept, i;
      }
      p := WakeReaders(p);
      r := Returned(|addr|);
    }

    // The loop of piperead.
    method CopyOut(n: nat) returns (addr: seq<byte>)
      requires Shown()
      modifies this`nread, this`p
      ensures Shown() && p == PopUpTo(old(p), n) && p.read == old(p).read + addr
    {
      addr := [];
      var i := 0;
      while i < n
        invariant 0 <= i <= n && Shown()
        invariant PopUpTo(old(p), n) == PopUpTo(p, n - i)
        invariant p.read == old(p).read + addr
      {
        if nread == nwrite {
          break;
        }
        addr := addr + [data[nread % PIPESIZE]];
        p := Pop(p);
        nread := (nread + 1) % UINT_LIMIT;
        i := i + 1;
      }
    }

    // piperead, up to its return or its next sleep: an empty pipe that may still be written
    // makes it sleep, or fail if killed; else it returns what is there, up to n bytes.  So 0
    // for a positive n is the end of the stream.
    method PipereadStretch(id: nat, n: nat, killed: bool) returns (r: End, addr: seq<byte>)
      requires Valid()
      modifies this, data
      ensures Valid()
      ensures p == DoRead(old(p), id, n, killed)
      ensures r == Slept <==> InFlight(old(p)) == 0 && old(writeopen) && !killed
      ensures r == Returned(-1) <==> InFlight(old(p)) == 0 && old(writeopen) && killed
      ensures r == Slept || r == Returned(-1) ==> addr == [] && p.read == old(p).read
      ensures r != Slept && r != Returned(-1) ==>
        && r == Returned(Min(n, InFlight(old(p)))) && |addr| == r.n
        && p.read == old(p).read + addr == old(p).written[..|old(p).read| + |addr|]
      ensures r == Slept ==> id in p.readersAsleep
      ensures r == Returned(0) && n > 0 ==> !old(writeopen)
    {
      hide Ring, PopUpTo, InFlight;
      ReadTakes(p, id, n, killed);
      p := p.(readersWoken := p.readersWoken - {id});
      if nread == nwrite && writeopen {
        addr := [];
        if killed {
          return Returned(-1), addr;
        }
        p := p.(readersAsleep := p.readersAsleep + {id});
        return Slept, addr;
      }
      addr := CopyOut(n);
      p := WakeWriters(p);
      r := Returned(|addr|);
    }

    method Pipeclose(writable: bool) returns (free: bool)
      requires Valid()
      modifies this
      ensures Valid()
      ensures p == Do(old(p), if writable then CloseWrite else CloseRead)
      ensures writeopen == (old(writeopen) && !writable) && readopen == (old(readopen) && writable)
      ensures if writable then p.readersAsleep == {} else p.writersAsleep == map[]
      ensures free <==> !readopen && !writeopen
    {
      if writable {
        writeopen := false;
        p := WakeReaders(p.(writeopen := false));
      } else {
        readopen := false;
        p := WakeWriters(p.(readopen := false));
      }
      free := !readopen && !writeopen;
    }
  }
}
