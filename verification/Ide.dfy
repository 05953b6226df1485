/**
 The disk driver of xv6/ide.c as a state machine, and the synchronous disk of
 xv6/memide.c that it refines.  The steps are the critical sections of idelock
 (iderw up to its sleep, ideintr, iderw waking up), the disk finishing the command
 it was given, kill waking a sleeper, and whatever a buffer's lock holder does outside
 the driver.  The disk makes no errors and interrupts only when it has finished.

 Main results, for every run: the buffers the driver is not busy with are what the
 synchronous disk, called in the order of the requests, would have made of them, and
 the driver panics exactly where a caller could have told; requests complete in the
 order they were made; no buffer is queued twice; no process sleeps on a buffer that
 is done, and none leaves the driver while its buffer is queued, killed or not.
 */
module Ide {
  import opened Basics
  import opened Blocks
  import opened Options

  const FSSIZE := 1000

  datatype Buf = Buf(valid: bool, dirty: bool, dev: nat, blockno: nat, data: Block)

  // The disk that dev&1 selects, and the block.
  datatype Key = Key(disk: nat, blockno: nat)

  function KeyOf(b: Buf): (k: Key) { Key(b.dev % 2, b.blockno) }

  type Disks = map<Key, Block>

  function Read(d: Disks, k: Key): (x: Block) { if k in d then d[k] else ZeroBlock() }

  // --- memide: the synchronous disk -----------------------------------------------------

  // What is on disk and in the buffer after a synchronous request.
  function SyncDisk(d: Disks, b: Buf): (d': Disks)
  {
    if b.dirty then d[KeyOf(b) := b.data] else d
  }

  function SyncBuf(d: Disks, b: Buf): (b': Buf)
  {
    if b.dirty then b.(valid := true, dirty := false)
    else b.(valid := true, data := Read(d, KeyOf(b)))
  }

  datatype Memory = Memory(disk: Disks, bufs: seq<Buf>)

  function Sync(m: Memory, i: nat): (m': Memory)
    requires i < |m.bufs|
    ensures |m'.bufs| == |m.bufs|
  {
    Memory(SyncDisk(m.disk, m.bufs[i]), m.bufs[i := SyncBuf(m.disk, m.bufs[i])])
  }

  // --- the driver -------------------------------------------------------------------------

  // The command the disk was given, and whether it has finished it.  For a write
  // data is what outsl sent; for a finished read it is what insl will fetch.
  datatype Device = Idle | Busy(write: bool, key: Key, data: Block) | Finished(write: bool, data: Block)

  // Where the holder of a buffer's lock is.
  datatype Phase = Outside | Asleep | Awake

  datatype State = State(m: Memory, queue: seq<nat>, device: Device, phase: seq<Phase>, havedisk1: bool)

  datatype Event =
    | Submit(i: nat)              // iderw up to its first sleep
    | Finish                      // the disk completes its command
    | Interrupt                   // ideintr
    | Resume(i: nat)              // iderw back from sleep
    | Kill(i: nat)                // kill makes the process asleep in iderw runnable
    | Touch(i: nat, b: Buf)       // the lock holder changes its buffer

  datatype Outcome = Next(s: State) | Panic

  predicate Done(b: Buf) { b.valid && !b.dirty }

  // idestart
  function Start(b: Buf): (r: Option<Device>)
  {
    if b.blockno >= FSSIZE then None
    else Some(Busy(b.dirty, KeyOf(b), b.data))
  }

  predicate Sized(s: State)
  {
    |s.phase| == |s.m.bufs| && forall k :: 0 <= k < |s.queue| ==> s.queue[k] < |s.m.bufs|
  }

  predicate Allowed(s: State, e: Event)
  {
    match e
    case Submit(i) => i < |s.phase| && s.phase[i].Outside?
    case Finish => s.device.Busy?
    case Interrupt => s.device.Finished? || s.queue == []
    case Resume(i) => i < |s.phase| && s.phase[i].Awake?
    case Kill(i) => i < |s.phase| && s.phase[i].Asleep?
    case Touch(i, _) => i < |s.phase| && s.phase[i].Outside?
  }

  function DoSubmit(s: State, i: nat): (r: Outcome)
    requires Sized(s) && i < |s.phase|
  {
    var b := s.m.bufs[i];
    if Done(b) || (b.dev != 0 && !s.havedisk1) then Panic
    else if s.queue != [] then
      Next(s.(queue := s.queue + [i], phase := s.phase[i := Asleep]))
    else if Start(b).None? then Panic
    else Next(s.(queue := [i], device := Start(b).value, phase := s.phase[i := Asleep]))
  }

  function DoFinish(s: State): (r: Outcome)
    requires Sized(s) && s.device.Busy?
  {
    if s.device.write then
      Next(s.(m := s.m.(disk := s.m.disk[s.device.key := s.device.data]), device := Finished(true, s.device.data)))
    else Next(s.(device := Finished(false, Read(s.m.disk, s.device.key))))
  }

  // insl, unless the request was a write; then the flags.
  function Received(b: Buf, d: Device): (b': Buf)
  {
    b.(valid := true, dirty := false, data := if !b.dirty && d.Finished? then d.data else b.data)
  }

  function DoInterrupt(s: State): (r: Outcome)
    requires Sized(s)
  {
    if s.queue == [] then Next(s)
    else
      var i := s.queue[0];
      var m := s.m.(bufs := s.m.bufs[i := Received(s.m.bufs[i], s.device)]);
      var phase := if s.phase[i].Asleep? then s.phase[i := Awake] else s.phase;
      if s.queue[1..] == [] then Next(s.(m := m, queue := [], device := Idle, phase := phase))
      else if Start(m.bufs[s.queue[1]]).None? then Panic
      else Next(s.(m := m, queue := s.queue[1..], device := Start(m.bufs[s.queue[1]]).value, phase := phase))
  }

  function DoResume(s: State, i: nat): (r: Outcome)
    requires Sized(s) && i < |s.phase|
  {
    Next(s.(phase := s.phase[i := if Done(s.m.bufs[i]) then Outside else Asleep]))
  }

  function Do(s: State, e: Event): (r: Outcome)
    requires Sized(s) && Allowed(s, e)
    ensures r.Next? ==> |r.s.m.bufs| == |s.m.bufs| && r.s.havedisk1 == s.havedisk1
  {
    match e
    case Submit(i) => DoSubmit(s, i)
    case Finish => DoFinish(s)
    case Interrupt => DoInterrupt(s)
    case Resume(i) => DoResume(s, i)
    case Kill(i) => Next(s.(phase := s.phase[i := Awake]))
    case Touch(i, b) => Next(s.(m := s.m.(bufs := s.m.bufs[i := b])))
  }

  // --- the invariant ------------------------------------------------------------------------

  // The holder of buffer i sleeps only while it is queued and not done, is in the driver
  // as long as it is queued, and wakes early only if killed.
  predicate WaitsAt(s: State, i: nat)
    requires Sized(s) && i < |s.phase|
  {
    && (s.phase[i].Asleep? ==> i in s.queue)
    && (i in s.queue ==> !s.phase[i].Outside? && !Done(s.m.bufs[i]))
    && (s.phase[i].Awake? && i !in s.queue ==> Done(s.m.bufs[i]))
  }

  // The disk works on the first request, or has finished it.
  predicate Serving(d: Disks, device: Device, b: Buf)
  {
    && b.blockno < FSSIZE
    && match device
       case Idle => false
       case Busy(write, key, data) => write == b.dirty && key == KeyOf(b) && data == b.data
       case Finished(write, data) =>
         write == b.dirty && data == Read(d, KeyOf(b)) && (write ==> KeyOf(b) in d && data == b.data)
  }

  ghost predicate Inv(s: State)
  {
    && Sized(s) && Distinct(s.queue)
    && (forall i: nat :: i < |s.phase| ==> WaitsAt(s, i))
    && (if s.queue == [] then s.device.Idle? else Serving(s.m.disk, s.device, s.m.bufs[s.queue[0]]))
  }

  lemma SubmitKeeps(s: State, i: nat)
    requires Inv(s) && Allowed(s, Submit(i)) && DoSubmit(s, i).Next?
    ensures Inv(DoSubmit(s, i).s)
  {
    var s' := DoSubmit(s, i).s;
    assert WaitsAt(s, i);
    forall j: nat | j < |s'.phase|
      ensures WaitsAt(s', j)
    {
      assert WaitsAt(s, j);
    }
  }

  lemma InterruptKeeps(s: State)
    requires Inv(s) && Allowed(s, Interrupt) && DoInterrupt(s).Next?
    ensures Inv(DoInterrupt(s).s)
  {
    if s.queue != [] {
      var s' := DoInterrupt(s).s;
      var q := s.queue[1..];
      assert s.queue == [s.queue[0]] + q;
      forall j: nat | j < |s'.phase|
        ensures WaitsAt(s', j)
      {
        assert WaitsAt(s, j);
      }
    }
  }

  lemma StepKeepsInv(s: State, e: Event)
    requires Inv(s) && Allowed(s, e) && Do(s, e).Next?
    ensures Inv(Do(s, e).s)
  {
    match e
    case Submit(i) => SubmitKeeps(s, i);
    case Interrupt => InterruptKeeps(s);
    case Finish =>
      var s' := Do(s, e).s;
      assert forall j: nat :: j < |s.phase| && WaitsAt(s, j) ==> WaitsAt(s', j);
    case Resume(i) =>
      var s' := Do(s, e).s;
      assert WaitsAt(s, i);
      assert forall j: nat :: j < |s.phase| && WaitsAt(s, j) ==> WaitsAt(s', j);
    case Kill(i) =>
      var s' := Do(s, e).s;
      assert WaitsAt(s, i);
      assert forall j: nat :: j < |s.phase| && WaitsAt(s, j) ==> WaitsAt(s', j);
    case Touch(i, b) =>
      var s' := Do(s, e).s;
      assert WaitsAt(s, i);
      assert forall j: nat :: j < |s.phase| && WaitsAt(s, j) ==> WaitsAt(s', j);
  }

  // --- refinement -------------------------------------------------------------------------------

  // The synchronous disk called for each request of the queue in turn.
  function Replay(m: Memory, q: seq<nat>): (m': Memory)
    requires forall k :: 0 <= k < |q| ==> q[k] < |m.bufs|
    ensures |m'.bufs| == |m.bufs|
    decreases |q|
  {
    if q == [] then m else Replay(Sync(m, q[0]), q[1..])
  }

  // What the driver's state stands for.
  function Meaning(s: State): (m: Memory)
    requires Sized(s)
  {
    Replay(s.m, s.queue)
  }

  lemma {:induction false} ReplayLast(m: Memory, q: seq<nat>, i: nat)
    requires (forall k :: 0 <= k < |q| ==> q[k] < |m.bufs|) && i < |m.bufs|
    ensures Replay(m, q + [i]) == Sync(Replay(m, q), i)
    decreases |q|
  {
    if q == [] {
      assert [i][1..] == [];
    } else {
      assert (q + [i])[1..] == q[1..] + [i];
      ReplayLast(Sync(m, q[0]), q[1..], i);
    }
  }

  // Requests leave other buffers alone and do not look at them.
  lemma {:induction false} ReplayFrame(m: Memory, q: seq<nat>, i: nat, b: Buf)
    requires (forall k :: 0 <= k < |q| ==> q[k] < |m.bufs|) && i < |m.bufs| && i !in q
    ensures Replay(m, q).bufs[i] == m.bufs[i]
    ensures Replay(m.(bufs := m.bufs[i := b]), q) == Replay(m, q).(bufs := Replay(m, q).bufs[i := b])
    decreases |q|
  {
    if q != [] {
      var m' := m.(bufs := m.bufs[i := b]);
      var n := Sync(m, q[0]);
      ReplayFrame(n, q[1..], i, b);
      assert Sync(m', q[0]) == n.(bufs := n.bufs[i := b]);
    }
  }

  // What a step of the driver is to the synchronous disk: a request counts when it
  // is made, and the driver's own steps are not seen at all.
  function Seen(m: Memory, e: Event): (m': Memory)
    requires e.Submit? || e.Touch? ==> e.i < |m.bufs|
    ensures |m'.bufs| == |m.bufs|
  {
    match e
    case Submit(i) => Sync(m, i)
    case Touch(i, b) => m.(bufs := m.bufs[i := b])
    case _ => m
  }

  lemma StepRefines(s: State, e: Event)
    requires Inv(s) && Allowed(s, e) && Do(s, e).Next?
    ensures Sized(Do(s, e).s) && Meaning(Do(s, e).s) == Seen(Meaning(s), e)
  {
    StepKeepsInv(s, e);
    var s' := Do(s, e).s;
    match e
    case Submit(i) =>
      ReplayLast(s.m, s.queue, i);
      assert s.queue == [] ==> [i] == s.queue + [i];
    case Touch(i, b) =>
      assert WaitsAt(s, i);
      ReplayFrame(s.m, s.queue, i, b);
    case Finish =>
      var b := s.m.bufs[s.queue[0]];
      assert b.dirty ==> s.m.disk[KeyOf(b) := b.data][KeyOf(b) := b.data] == s.m.disk[KeyOf(b) := b.data];
      assert Sync(s'.m, s.queue[0]) == Sync(s.m, s.queue[0]);
    case Interrupt =>
      if s.queue != [] {
        var b := s.m.bufs[s.queue[0]];
        assert b.dirty ==> s.m.disk[KeyOf(b) := b.data] == s.m.disk;
        assert Sync(s.m, s.queue[0]) == s'.m;
      }
    case Resume(i) =>
    case Kill(i) =>
  }

  // --- runs ---------------------------------------------------------------------------------------

  // The state after the events, if they are allowed and none panics.
  function Run(s: State, es: seq<Event>): (r: Option<State>)
    requires Inv(s)
    ensures r.Some? ==> Inv(r.value) && |r.value.m.bufs| == |s.m.bufs|
    decreases |es|
  {
    if es == [] then Some(s)
    else if !Allowed(s, es[0]) || Do(s, es[0]).Panic? then None
    else
      StepKeepsInv(s, es[0]);
      Run(Do(s, es[0]).s, es[1..])
  }

  function SyncRun(m: Memory, es: seq<Event>): (m': Memory)
    requires forall k :: 0 <= k < |es| && (es[k].Submit? || es[k].Touch?) ==> es[k].i < |m.bufs|
    ensures |m'.bufs| == |m.bufs|
    decreases |es|
  {
    if es == [] then m else SyncRun(Seen(m, es[0]), es[1..])
  }

  lemma {:induction false} RunInRange(s: State, es: seq<Event>)
    requires Inv(s) && Run(s, es).Some?
    ensures forall k :: 0 <= k < |es| && (es[k].Submit? || es[k].Touch?) ==> es[k].i < |s.m.bufs|
    decreases |es|
  {
    if es != [] {
      StepKeepsInv(s, es[0]);
      RunInRange(Do(s, es[0]).s, es[1..]);
      assert forall k :: 1 <= k < |es| ==> es[k] == es[1..][k - 1];
    }
  }

  lemma {:induction false} RunRefines(s: State, es: seq<Event>)
    requires Inv(s) && Run(s, es).Some?
    requires forall k :: 0 <= k < |es| && (es[k].Submit? || es[k].Touch?) ==> es[k].i < |s.m.bufs|
    ensures Meaning(Run(s, es).value) == SyncRun(Meaning(s), es)
    decreases |es|
  {
    if es != [] {
      StepKeepsInv(s, es[0]);
      StepRefines(s, es[0]);
      RunRefines(Do(s, es[0]).s, es[1..]);
    }
  }

  // The driver refines memide: whatever the interleaving, every buffer that is not
  // queued, so every one that is not in the driver, is what the synchronous disk would
  // have made of it, and when nothing is queued so is the disk.
  lemma DriverRefinesMemide(s: State, es: seq<Event>)
    requires Inv(s) && s.queue == [] && Run(s, es).Some?
    ensures forall k :: 0 <= k < |es| && (es[k].Submit? || es[k].Touch?) ==> es[k].i < |s.m.bufs|
    ensures var s', m := Run(s, es).value, SyncRun(s.m, es);
            && (forall i: nat :: i < |s'.phase| && i !in s'.queue ==> s'.m.bufs[i] == m.bufs[i])
            && (forall i: nat :: i < |s'.phase| && s'.phase[i].Outside? ==> s'.m.bufs[i] == m.bufs[i])
            && (s'.queue == [] ==> s'.m == m)
  {
    RunInRange(s, es);
    RunRefines(s, es);
    var s' := Run(s, es).value;
    forall i: nat | i < |s'.phase| && (i !in s'.queue || s'.phase[i].Outside?)
      ensures s'.m.bufs[i] == Meaning(s').bufs[i]
    {
      assert WaitsAt(s', i);
      ReplayFrame(s'.m, s'.queue, i, s'.m.bufs[i]);
    }
  }

  // No waiter sleeps on a finished buffer, every sleeping waiter has a disk at work, and
  // a killed one goes back to sleep unless its request is finished.
  lemma NoLostWakeup(s: State, es: seq<Event>, i: nat)
    requires Inv(s) && Run(s, es).Some? && i < |s.phase|
    ensures var s' := Run(s, es).value;
            && i < |s'.phase| && Distinct(s'.queue)
            && (s'.phase[i].Asleep? ==> i in s'.queue && !Done(s'.m.bufs[i]) && !s'.device.Idle?)
            && (i in s'.queue ==> !s'.phase[i].Outside? && !Done(s'.m.bufs[i]))
            && (s'.phase[i].Awake? ==> (Done(s'.m.bufs[i]) <==> i !in s'.queue))
            && (s'.phase[i].Awake? ==> (Do(s', Resume(i)).s.phase[i].Outside? <==> i !in s'.queue))
  {
    assert WaitsAt(Run(s, es).value, i);
  }

  // --- panics ---------------------------------------------------------------------------------

  // Each event may happen when it does; the run may end in a panic.
  ghost predicate Orderly(s: State, es: seq<Event>)
    requires Inv(s)
    decreases |es|
  {
    es == [] ||
    (&& Allowed(s, es[0])
     && (Do(s, es[0]).Next? ==> (StepKeepsInv(s, es[0]); Orderly(Do(s, es[0]).s, es[1..]))))
  }

  // A request the driver serves: something to do, on a disk that is there.
  predicate Fit(b: Buf, havedisk1: bool) { !Done(b) && (b.dev == 0 || havedisk1) && b.blockno < FSSIZE }

  // Every request is fit when the synchronous disk gets it.
  predicate AllFit(m: Memory, es: seq<Event>, havedisk1: bool)
    decreases |es|
  {
    es == [] ||
    (&& (es[0].Submit? || es[0].Touch? ==> es[0].i < |m.bufs|)
     && (es[0].Submit? ==> Fit(m.bufs[es[0].i], havedisk1))
     && AllFit(Seen(m, es[0]), es[1..], havedisk1))
  }

  ghost predicate QueueFits(s: State)
    requires Sized(s)
  {
    forall k :: 0 <= k < |s.queue| ==> s.m.bufs[s.queue[k]].blockno < FSSIZE
  }

  // A step panics only over a request that is not fit; and one that got into the queue
  // stays there until it does.
  lemma StepFits(s: State, e: Event)
    requires Inv(s) && Allowed(s, e)
    ensures QueueFits(s) ==>
              (Do(s, e).Next? && Sized(Do(s, e).s) && QueueFits(Do(s, e).s) <==>
               (e.Submit? ==> Fit(s.m.bufs[e.i], s.havedisk1)))
    ensures !QueueFits(s) && Do(s, e).Next? ==> Sized(Do(s, e).s) && !QueueFits(Do(s, e).s)
  {
    match e
    case Submit(i) => SubmitFits(s, i);
    case Interrupt => InterruptFits(s);
    case Touch(i, _) => assert WaitsAt(s, i);
    case _ =>
  }

  lemma SubmitFits(s: State, i: nat)
    requires Inv(s) && Allowed(s, Submit(i))
    ensures var r := Do(s, Submit(i));
            && (QueueFits(s) ==> (r.Next? && Sized(r.s) && QueueFits(r.s) <==> Fit(s.m.bufs[i], s.havedisk1)))
            && (!QueueFits(s) && r.Next? ==> Sized(r.s) && !QueueFits(r.s))
  {
    var q := s.queue + [i];
    assert q[|s.queue|] == i && forall k :: 0 <= k < |s.queue| ==> q[k] == s.queue[k];
    assert s.queue == [] ==> q == [i];
  }

  lemma InterruptFits(s: State)
    requires Inv(s) && Allowed(s, Interrupt)
    ensures var r := Do(s, Interrupt);
            && (QueueFits(s) ==> r.Next? && Sized(r.s) && QueueFits(r.s))
            && (!QueueFits(s) && r.Next? ==> Sized(r.s) && !QueueFits(r.s))
  {
    if s.queue != [] {
      var q := s.queue[1..];
      assert forall k :: 0 <= k < |q| ==> q[k] == s.queue[k + 1];
      assert forall k :: 1 <= k < |s.queue| ==> s.queue[k] == q[k - 1];
      assert q != [] ==> q[0] == s.queue[1];
    }
  }

  lemma {:induction false} StaysUnfit(s: State, es: seq<Event>)
    requires Inv(s) && !QueueFits(s) && Run(s, es).Some?
    ensures !QueueFits(Run(s, es).value)
    decreases |es|
  {
    if es != [] {
      StepKeepsInv(s, es[0]);
      StepFits(s, es[0]);
      StaysUnfit(Do(s, es[0]).s, es[1..]);
    }
  }

  // When the driver panics: a run goes through, leaving no request off the disk in the
  // queue, exactly if each request was fit when the synchronous disk would have served it.
  lemma {:induction false} PanicsExactly(s: State, es: seq<Event>)
    requires Inv(s) && QueueFits(s) && Orderly(s, es)
    ensures Run(s, es).Some? && QueueFits(Run(s, es).value) <==> AllFit(Meaning(s), es, s.havedisk1)
    decreases |es|
  {
    if es != [] {
      var e := es[0];
      StepFits(s, e);
      if e.Submit? {
        assert WaitsAt(s, e.i);
        ReplayFrame(s.m, s.queue, e.i, s.m.bufs[e.i]);
      }
      if Do(s, e).Next? {
        StepKeepsInv(s, e);
        StepRefines(s, e);
        if QueueFits(Do(s, e).s) {
          PanicsExactly(Do(s, e).s, es[1..]);
        } else if Run(s, es).Some? {
          StaysUnfit(Do(s, e).s, es[1..]);
        }
      }
    }
  }

  // memide's own panics; otherwise what SyncRun says.
  function MemRun(m: Memory, es: seq<Event>, disksize: nat): (r: Option<Memory>)
    ensures r.Some? ==> |r.value.bufs| == |m.bufs|
    decreases |es|
  {
    if es == [] then Some(m)
    else if (es[0].Submit? || es[0].Touch?) && es[0].i >= |m.bufs| then None
    else if es[0].Submit? && Refuses(m.bufs[es[0].i], disksize) then None
    else MemRun(Seen(m, es[0]), es[1..], disksize)
  }

  predicate Refuses(b: Buf, disksize: nat) { Done(b) || b.dev != 1 || b.blockno >= disksize }

  lemma {:induction false} MemRunFits(m: Memory, es: seq<Event>, disksize: nat)
    requires MemRun(m, es, disksize).Some? && disksize <= FSSIZE
    ensures AllFit(m, es, true)
    ensures forall k :: 0 <= k < |es| && (es[k].Submit? || es[k].Touch?) ==> es[k].i < |m.bufs|
    ensures MemRun(m, es, disksize).value == SyncRun(m, es)
    decreases |es|
  {
    if es != [] {
      MemRunFits(Seen(m, es[0]), es[1..], disksize);
      assert forall k :: 1 <= k < |es| ==> es[k] == es[1..][k - 1];
    }
  }

  // Where memide does not panic, neither does the driver, in whatever order the disk and
  // the processes run; and the two then agree.
  lemma DriverReplacesMemide(s: State, es: seq<Event>, disksize: nat)
    requires Inv(s) && s.queue == [] && s.havedisk1 && disksize <= FSSIZE
    requires Orderly(s, es) && MemRun(s.m, es, disksize).Some?
    ensures Run(s, es).Some?
    ensures var s', m := Run(s, es).value, MemRun(s.m, es, disksize).value;
            && (forall i: nat :: i < |s'.phase| && s'.phase[i].Outside? ==> s'.m.bufs[i] == m.bufs[i])
            && (s'.queue == [] ==> s'.m == m)
  {
    MemRunFits(s.m, es, disksize);
    PanicsExactly(s, es);
    DriverRefinesMemide(s, es);
  }

  // --- what is read -------------------------------------------------------------------------

  predicate InRange(n: nat, es: seq<Event>)
  {
    forall k :: 0 <= k < |es| && (es[k].Submit? || es[k].Touch?) ==> es[k].i < n
  }

  // The buffers of the requests, as each was when it was made.
  function Asked(m: Memory, es: seq<Event>): (bs: seq<Buf>)
    requires InRange(|m.bufs|, es)
    decreases |es|
  {
    if es == [] then []
    else (if es[0].Submit? then [m.bufs[es[0].i]] else []) + Asked(Seen(m, es[0]), es[1..])
  }

  // The data of the last write of a block of a drive (0 or 1), or what d holds there.
  function LastStored(d: Disks, bs: seq<Buf>, drive: nat, blockno: nat): (x: Block)
  {
    if bs == [] then Read(d, Key(drive, blockno))
    else
      var b := bs[|bs| - 1];
      if b.dirty && b.dev % 2 == drive && b.blockno == blockno then b.data
      else LastStored(d, bs[..|bs| - 1], drive, blockno)
  }

  lemma {:induction false} LastStoredCons(d: Disks, b: Buf, bs: seq<Buf>, drive: nat, blockno: nat)
    ensures LastStored(d, [b] + bs, drive, blockno) == LastStored(SyncDisk(d, b), bs, drive, blockno)
  {
    var all := [b] + bs;
    if bs == [] {
      assert all[..0] == [];
    } else {
      assert all[..|all| - 1] == [b] + bs[..|bs| - 1];
      LastStoredCons(d, b, bs[..|bs| - 1], drive, blockno);
    }
  }

  // The synchronous disk holds in each block what was last written there.
  lemma {:induction false} DiskHolds(m: Memory, es: seq<Event>, drive: nat, blockno: nat)
    requires InRange(|m.bufs|, es)
    ensures Read(SyncRun(m, es).disk, Key(drive, blockno)) == LastStored(m.disk, Asked(m, es), drive, blockno)
    decreases |es|
  {
    if es != [] {
      var m1, rest := Seen(m, es[0]), es[1..];
      DiskHolds(m1, rest, drive, blockno);
      if es[0].Submit? {
        LastStoredCons(m.disk, m.bufs[es[0].i], Asked(m1, rest), drive, blockno);
      } else {
        assert Asked(m, es) == Asked(m1, rest);
      }
    }
  }

  lemma {:induction false} SyncRunThen(m: Memory, a: seq<Event>, b: seq<Event>)
    requires InRange(|m.bufs|, a + b)
    ensures InRange(|m.bufs|, a) && InRange(|m.bufs|, b)
    ensures SyncRun(m, a + b) == SyncRun(SyncRun(m, a), b)
    decreases |a|
  {
    assert forall k :: 0 <= k < |a| ==> a[k] == (a + b)[k];
    assert forall k :: 0 <= k < |b| ==> b[k] == (a + b)[|a| + k];
    if a == [] {
      assert a + b == b;
    } else {
      assert (a + b)[1..] == a[1..] + b;
      SyncRunThen(Seen(m, a[0]), a[1..], b);
    }
  }

  // Buffer i is not touched and not asked for.
  predicate Leaves(es: seq<Event>, i: nat)
  {
    forall k :: 0 <= k < |es| && (es[k].Submit? || es[k].Touch?) ==> es[k].i != i
  }

  lemma {:induction false} LeftAlone(m: Memory, es: seq<Event>, i: nat)
    requires InRange(|m.bufs|, es) && i < |m.bufs| && Leaves(es, i)
    ensures SyncRun(m, es).bufs[i] == m.bufs[i]
    decreases |es|
  {
    if es != [] {
      assert forall k :: 0 <= k < |es| - 1 ==> es[1..][k] == es[k + 1];
      LeftAlone(Seen(m, es[0]), es[1..], i);
    }
  }

  // What a request makes of its buffer: clean and valid, a written one with its own
  // data, a read one with the data last written to that block of that drive.
  function Answered(b: Buf, d: Disks, bs: seq<Buf>): (r: Buf)
  {
    Buf(true, false, b.dev, b.blockno, if b.dirty then b.data else LastStored(d, bs, b.dev % 2, b.blockno))
  }

  // Read after write, for the synchronous disk.
  lemma SyncReads(m: Memory, es: seq<Event>, i: nat, more: seq<Event>)
    requires InRange(|m.bufs|, es + [Submit(i)] + more) && Leaves(more, i) && i < |m.bufs|
    ensures InRange(|m.bufs|, es)
    ensures SyncRun(m, es + [Submit(i)] + more).bufs[i] == Answered(SyncRun(m, es).bufs[i], m.disk, Asked(m, es))
  {
    SyncRunThen(m, es + [Submit(i)], more);
    SyncRunThen(m, es, [Submit(i)]);
    var m1 := SyncRun(m, es);
    assert [Submit(i)][1..] == [];
    assert SyncRun(m1, [Submit(i)]) == Sync(m1, i);
    LeftAlone(Sync(m1, i), more, i);
    DiskHolds(m, es, m1.bufs[i].dev % 2, m1.bufs[i].blockno);
  }

  // The same for memide with its panics: it has drive 1 only.
  lemma MemReads(m: Memory, es: seq<Event>, i: nat, more: seq<Event>, disksize: nat)
    requires MemRun(m, es + [Submit(i)] + more, disksize).Some? && Leaves(more, i) && i < |m.bufs| && disksize <= FSSIZE
    ensures InRange(|m.bufs|, es) && MemRun(m, es, disksize).Some?
    ensures MemRun(m, es + [Submit(i)] + more, disksize).value.bufs[i] ==
            Answered(MemRun(m, es, disksize).value.bufs[i], m.disk, Asked(m, es))
  {
    MemRunFits(m, es + [Submit(i)] + more, disksize);
    SyncReads(m, es, i, more);
    assert es + [Submit(i)] + more == es + ([Submit(i)] + more);
    MemRunPrefix(m, es, [Submit(i)] + more, disksize);
    MemRunFits(m, es, disksize);
  }

  lemma {:induction false} MemRunPrefix(m: Memory, a: seq<Event>, b: seq<Event>, disksize: nat)
    requires MemRun(m, a + b, disksize).Some?
    ensures MemRun(m, a, disksize).Some?
    decreases |a|
  {
    if a != [] {
      assert (a + b)[1..] == a[1..] + b;
      MemRunPrefix(Seen(m, a[0]), a[1..], b, disksize);
    }
  }

  // The buffers of the driver's requests, as each was when it was made.
  ghost function DriverAsked(s: State, es: seq<Event>): (bs: seq<Buf>)
    requires Inv(s) && Run(s, es).Some?
    decreases |es|
  {
    if es == [] then []
    else
      StepKeepsInv(s, es[0]);
      (if es[0].Submit? then [s.m.bufs[es[0].i]] else []) + DriverAsked(Do(s, es[0]).s, es[1..])
  }

  lemma {:induction false} SameAsked(s: State, es: seq<Event>)
    requires Inv(s) && Run(s, es).Some? && InRange(|s.m.bufs|, es)
    ensures DriverAsked(s, es) == Asked(Meaning(s), es)
    decreases |es|
  {
    if es != [] {
      var e := es[0];
      StepKeepsInv(s, e);
      StepRefines(s, e);
      if e.Submit? {
        assert WaitsAt(s, e.i);
        ReplayFrame(s.m, s.queue, e.i, s.m.bufs[e.i]);
      }
      SameAsked(Do(s, e).s, es[1..]);
    }
  }

  lemma {:induction false} RunThen(s: State, a: seq<Event>, b: seq<Event>)
    requires Inv(s) && Run(s, a + b).Some?
    ensures Run(s, a).Some? && Run(Run(s, a).value, b) == Run(s, a + b)
    decreases |a|
  {
    if a == [] {
      assert a + b == b;
    } else {
      assert (a + b)[1..] == a[1..] + b;
      StepKeepsInv(s, a[0]);
      RunThen(Do(s, a[0]).s, a[1..], b);
    }
  }

  // Read after write, for the driver: in whatever order the disk, the interrupts and the
  // processes run, a request leaves its buffer, once it is off the queue, with the data
  // last written by the requests before it.
  lemma DriverReads(s: State, es: seq<Event>, i: nat, more: seq<Event>)
    requires Inv(s) && s.queue == [] && Run(s, es + [Submit(i)] + more).Some? && Leaves(more, i)
    ensures Run(s, es).Some? && i < |s.m.bufs|
    ensures var s' := Run(s, es + [Submit(i)] + more).value;
            i !in s'.queue ==> s'.m.bufs[i] == Answered(Run(s, es).value.m.bufs[i], s.m.disk, DriverAsked(s, es))
  {
    var all := es + [Submit(i)] + more;
    DriverRefinesMemide(s, all);
    assert all[|es|] == Submit(i) && all == es + ([Submit(i)] + more);
    SyncReads(s.m, es, i, more);
    RunThen(s, es, [Submit(i)] + more);
    SameAsked(s, es);
    var s1 := Run(s, es).value;
    DriverRefinesMemide(s, es);
    assert ([Submit(i)] + more)[0] == Submit(i);
    assert WaitsAt(s1, i);
  }

  // --- order ----------------------------------------------------------------------------------------

  function Joins(e: Event): (q: seq<nat>) { if e.Submit? then [e.i] else [] }

  function Removed(s: State, e: Event): (q: seq<nat>) { if e.Interrupt? then s.queue[..if s.queue == [] then 0 else 1] else [] }

  function Submitted(es: seq<Event>): (q: seq<nat>)
  {
    if es == [] then [] else Joins(es[0]) + Submitted(es[1..])
  }

  // The buffers that interrupts have completed, in order.
  function Completed(s: State, es: seq<Event>): (q: seq<nat>)
    requires Inv(s) && Run(s, es).Some?
    decreases |es|
  {
    if es == [] then []
    else
      StepKeepsInv(s, es[0]);
      Removed(s, es[0]) + Completed(Do(s, es[0]).s, es[1..])
  }

  lemma QueueStep(s: State, e: Event)
    requires Inv(s) && Allowed(s, e) && Do(s, e).Next?
    ensures s.queue + Joins(e) == Removed(s, e) + Do(s, e).s.queue
  {
    assert s.queue != [] ==> s.queue == s.queue[..1] + s.queue[1..];
  }

  // Requests complete in the order they were made.
  lemma {:induction false} Fifo(s: State, es: seq<Event>)
    requires Inv(s) && Run(s, es).Some?
    ensures s.queue + Submitted(es) == Completed(s, es) + Run(s, es).value.queue
    decreases |es|
  {
    if es != [] {
      StepKeepsInv(s, es[0]);
      QueueStep(s, es[0]);
      var s', rest := Do(s, es[0]).s, es[1..];
      Fifo(s', rest);
      var last := Run(s', rest).value.queue;
      Regroup(s.queue, Joins(es[0]), Submitted(rest), Removed(s, es[0]), s'.queue, Completed(s', rest), last);
    }
  }

  lemma Regroup(q: seq<nat>, joins: seq<nat>, more: seq<nat>, leaves: seq<nat>, q': seq<nat>, done: seq<nat>, last: seq<nat>)
    requires q + joins == leaves + q' && q' + more == done + last
    ensures q + (joins + more) == (leaves + done) + last
  {
    assert q + (joins + more) == (q + joins) + more;
    assert (leaves + q') + more == leaves + (q' + more);
    assert leaves + (done + last) == (leaves + done) + last;
  }

  // --- the code: memide's and the driver's ---------------------------------------------------------

  class MemDisk {
    const disksize: nat
    var disk: Disks
    var bufs: seq<Buf>

    constructor (disk: Disks, bufs: seq<Buf>, disksize: nat)
      ensures this.disk == disk && this.bufs == bufs && this.disksize == disksize
    {
      this.disk, this.bufs, this.disksize := disk, bufs, disksize;
    }

    method Iderw(i: nat, holding: bool) returns (panic: bool)
      requires i < |bufs|
      modifies this
      ensures panic <==> !holding || Refuses(old(bufs)[i], disksize)
      ensures panic ==> unchanged(this)
      ensures !panic ==> Memory(disk, bufs) == Sync(Memory(old(disk), old(bufs)), i) && Done(bufs[i])
    {
      var b := bufs[i];
      if !holding || (b.valid && !b.dirty) || b.dev != 1 || b.blockno >= disksize {
        return true;
      }
      if b.dirty {
        b := b.(dirty := false);
        disk := disk[Key(1, b.blockno) := b.data];
      } else {
        b := b.(data := Read(disk, Key(1, b.blockno)));
      }
      bufs := bufs[i := b.(valid := true)];
      panic := false;
    }
  }

  // The queue is threaded through the buffers from idequeue on.
  predicate Threaded(idequeue: Option<nat>, qnext: seq<Option<nat>>, q: seq<nat>)
  {
    && idequeue == First(q)
    && (forall k :: 0 <= k < |q| ==> q[k] < |qnext|)
    && forall k: nat :: k < |q| ==> NextAt(qnext, q, k)
  }

  predicate NextAt(qnext: seq<Option<nat>>, q: seq<nat>, k: nat)
    requires k < |q|
  {
    q[k] < |qnext| && qnext[q[k]] == First(q[k + 1..])
  }

  function First(q: seq<nat>): (i: Option<nat>) { if q == [] then None else Some(q[0]) }

  class Driver {
    const havedisk1: bool
    var bufs: seq<Buf>
    var qnext: seq<Option<nat>>
    var idequeue: Option<nat>
    var disk: Disks
    var device: Device
    var phase: seq<Phase>
    ghost var queue: seq<nat>

    ghost function S(): (s: State)
      reads this
    {
      State(Memory(disk, bufs), queue, device, phase, havedisk1)
    }

    ghost predicate Valid()
      reads this
    {
      Inv(S()) && |qnext| == |bufs| && Threaded(idequeue, qnext, queue)
    }

    constructor (disk: Disks, bufs: seq<Buf>, havedisk1: bool)
      ensures Valid() && queue == [] && S().m == Memory(disk, bufs) && this.havedisk1 == havedisk1
    {
      this.disk, this.bufs, this.havedisk1 := disk, bufs, havedisk1;
      qnext, phase := seq(|bufs|, _ => None), seq(|bufs|, _ => Outside);
      idequeue, device, queue := None, Idle, [];
    }

    // Put i at the end of the queue, found by walking it.
    method Append(i: nat)
      requires Threaded(idequeue, qnext, queue) && i < |qnext| && i !in queue && Distinct(queue)
      modifies this`idequeue, this`qnext, this`queue
      ensures queue == old(queue) + [i] && |qnext| == old(|qnext|) && Threaded(idequeue, qnext, queue)
    {
      qnext := qnext[i := None];
      if idequeue.None? {
        idequeue := Some(i);
      } else {
        var p := idequeue.value;
        ghost var k := 0;
        while qnext[p].Some?
          invariant 0 <= k < |queue| && p == queue[k] && p < |qnext|
          decreases |queue| - k
        {
          assert NextAt(old(qnext), queue, k);
          p := qnext[p].value;
          k := k + 1;
        }
        assert NextAt(old(qnext), queue, k);
        qnext := qnext[p := Some(i)];
      }
      ThreadLast(old(idequeue), old(qnext), queue, i);
      queue := queue + [i];
    }

    // iderw as far as its first sleep; the caller is in it for no buffer it holds.
    method Iderw(i: nat, holding: bool) returns (panic: bool)
      requires Valid() && i < |bufs| && (holding ==> Allowed(S(), Submit(i)))
      modifies this
      ensures panic <==> !holding || Do(old(S()), Submit(i)).Panic?
      ensures !panic ==> Valid() && Do(old(S()), Submit(i)) == Next(S())
    {
      if !holding {
        return true;
      }
      var b := bufs[i];
      if b.valid && !b.dirty {
        return true;
      }
      if b.dev != 0 && !havedisk1 {
        return true;
      }
      assert WaitsAt(S(), i);
      Append(i);
      if idequeue == Some(i) {
        HeadIs(old(queue), i);
        if b.blockno >= FSSIZE {
          return true;
        }
        device := Busy(b.dirty, KeyOf(b), b.data);
      }
      phase := phase[i := Asleep];
      assert Do(old(S()), Submit(i)) == Next(S());
      StepKeepsInv(old(S()), Submit(i));
      panic := false;
    }

    // Once round iderw's loop, back from sleep.
    method Resume(i: nat) returns (done: bool)
      requires Valid() && Allowed(S(), Event.Resume(i))
      modifies this`phase
      ensures Valid() && Do(old(S()), Event.Resume(i)) == Next(S())
      ensures done <==> i !in queue
    {
      assert WaitsAt(S(), i);
      done := bufs[i].valid && !bufs[i].dirty;
      phase := phase[i := if done then Outside else Asleep];
      StepKeepsInv(old(S()), Event.Resume(i));
    }

    method Ideintr() returns (panic: bool)
      requires Valid() && Allowed(S(), Interrupt)
      modifies this
      ensures panic <==> Do(old(S()), Interrupt).Panic?
      ensures !panic ==> Valid() && Do(old(S()), Interrupt) == Next(S())
    {
      if idequeue.None? {
        return false;
      }
      var i := idequeue.value;
      assert NextAt(qnext, queue, 0) && device.Finished?;
      ThreadRest(idequeue, qnext, queue);
      assert |queue| > 1 ==> queue[1] < |bufs|;
      hide Inv, Threaded, WaitsAt, Serving;
      idequeue := qnext[i];
      queue := queue[1..];
      var b := bufs[i];
      if !b.dirty {
        b := b.(data := device.data);
      }
      bufs := bufs[i := b.(valid := true, dirty := false)];
      if phase[i].Asleep? {
        phase := phase[i := Awake];
      }
      FirstIs(queue);
      if idequeue.Some? {
        var next := bufs[idequeue.value];
        if next.blockno >= FSSIZE {
          return true;
        }
        device := Busy(next.dirty, KeyOf(next), next.data);
      } else {
        device := Idle;
      }
      assert Do(old(S()), Interrupt) == Next(S());
      StepKeepsInv(old(S()), Interrupt);
      panic := false;
    }
  }

  lemma ThreadLast(idequeue: Option<nat>, qnext: seq<Option<nat>>, q: seq<nat>, i: nat)
    requires Threaded(idequeue, qnext, q) && i < |qnext| && i !in q && Distinct(q)
    ensures q == [] ==> Threaded(Some(i), qnext[i := None], [i])
    ensures q != [] ==> Threaded(idequeue, qnext[i := None][q[|q| - 1] := Some(i)], q + [i])
  {
    if q != [] {
      var q', qnext' := q + [i], qnext[i := None][q[|q| - 1] := Some(i)];
      forall k: nat | k < |q'|
        ensures NextAt(qnext', q', k)
      {
        assert k < |q| ==> NextAt(qnext, q, k);
        assert First(q'[k + 1..]) == if k + 1 < |q| then First(q[k + 1..]) else if k < |q| then Some(i) else None;
      }
    }
  }

  lemma FirstIs(q: seq<nat>)
    ensures First(q).Some? <==> q != []
    ensures q != [] ==> First(q).value == q[0]
  {
  }

  lemma HeadIs(q: seq<nat>, i: nat)
    requires i !in q && First(q + [i]) == Some(i)
    ensures q == []
  {
  }

  lemma ThreadRest(idequeue: Option<nat>, qnext: seq<Option<nat>>, q: seq<nat>)
    requires Threaded(idequeue, qnext, q) && q != []
    ensures Threaded(qnext[q[0]], qnext, q[1..])
  {
    assert NextAt(qnext, q, 0);
    var q' := q[1..];
    forall k: nat | k < |q'|
      ensures NextAt(qnext, q', k)
    {
      assert NextAt(qnext, q, k + 1);
      assert q'[k + 1..] == q[k + 2..];
    }
  }
}
