/**
 The process table of xv6/proc.c as a state machine: each step is one critical
 section of ptable.lock (or, for fork, one unlocked assignment to the embryo
 that only its creator touches), taken by any process in any order.

 Main results, for every run: no process sleeps in wait() while it has a zombie
 child, or without having a child at all; every process past EMBRYO except init
 has a live parent, so getppid is defined exactly for those; every pid ever issued
 is exactly one of live, reaped once, or given up by a failed fork; a kill of a live
 process hits it and no other slot; and it is known which steps make a later process
 start killed.
 */
module Processes {
  import opened Options

  datatype PState = UNUSED | EMBRYO | SLEEPING | RUNNABLE | RUNNING | ZOMBIE

  // wait() sleeps on the address of its own process; all other sleeps elsewhere.
  datatype Chan = NoChan | OnProc(p: nat) | Elsewhere(k: nat)

  // forking is the table slot a fork() in progress is filling in.
  datatype Proc = Proc(state: PState, pid: nat, parent: Option<nat>, chan: Chan, killed: bool, forking: Option<nat>)

  type Table = seq<Proc>

  datatype State = State(ps: Table, init: nat, nextpid: nat, reaped: seq<nat>, aborted: set<nat>)

  // --- what the routines do to the table ----------------------------------------

  // wakeup1: every process sleeping on chan becomes runnable.
  function Awoken(p: Proc, chan: Chan): (r: Proc)
  {
    if p.state == SLEEPING && p.chan == chan then p.(state := RUNNABLE) else p
  }

  function WakeAll(ps: Table, chan: Chan): (r: Table)
    ensures |r| == |ps|
    ensures forall j :: 0 <= j < |ps| ==> r[j] == Awoken(ps[j], chan)
  {
    seq(|ps|, j requires 0 <= j < |ps| => Awoken(ps[j], chan))
  }

  predicate ZombieChild(p: Proc, i: nat) { p.state == ZOMBIE && p.parent == Some(i) }

  predicate HasChild(ps: Table, i: nat) { exists j :: 0 <= j < |ps| && ps[j].parent == Some(i) }
  predicate HasZombie(ps: Table, i: nat) { exists j :: 0 <= j < |ps| && ZombieChild(ps[j], i) }

  // The scans of the table: the lowest slot of each kind, |ps| if there is none.
  function FirstZombie(ps: Table, i: nat): (k: nat)
    ensures k <= |ps| && (k < |ps| ==> ZombieChild(ps[k], i))
    ensures forall j :: 0 <= j < k ==> !ZombieChild(ps[j], i)
  {
    if ps == [] || ZombieChild(ps[0], i) then 0 else 1 + FirstZombie(ps[1..], i)
  }

  function FirstUnused(ps: Table): (k: nat)
    ensures k <= |ps| && (k < |ps| ==> ps[k].state == UNUSED)
    ensures forall j :: 0 <= j < k ==> ps[j].state != UNUSED
  {
    if ps == [] || ps[0].state == UNUSED then 0 else 1 + FirstUnused(ps[1..])
  }

  function FirstPid(ps: Table, pid: nat): (k: nat)
    ensures k <= |ps| && (k < |ps| ==> ps[k].pid == pid)
    ensures forall j :: 0 <= j < k ==> ps[j].pid != pid
  {
    if ps == [] || ps[0].pid == pid then 0 else 1 + FirstPid(ps[1..], pid)
  }

  function Adopted(p: Proc, i: nat, init: nat): (r: Proc)
  {
    if p.parent == Some(i) then p.(parent := Some(init)) else p
  }

  function ChanOf(parent: Option<nat>): (c: Chan)
  {
    if parent.Some? then OnProc(parent.value) else NoChan
  }

  // exit: wake the parent, hand the children to init (waking it for a zombie),
  // become a zombie.
  function Exited(ps: Table, i: nat, init: nat): (r: Table)
    requires i < |ps| && init < |ps|
    ensures |r| == |ps|
  {
    var w := WakeAll(ps, ChanOf(ps[i].parent));
    var a := seq(|ps|, j requires 0 <= j < |ps| => Adopted(w[j], i, init));
    var z := if HasZombie(ps, i) then WakeAll(a, OnProc(init)) else a;
    z[i := z[i].(state := ZOMBIE)]
  }

  // One pass of wait's loop.
  datatype WaitResult = Reaped(pid: nat) | NoChildren | Asleep

  function Waited(ps: Table, i: nat): (r: (Table, WaitResult))
    requires i < |ps|
    ensures |r.0| == |ps|
  {
    var k := FirstZombie(ps, i);
    if k < |ps| then
      (ps[k := Proc(UNUSED, 0, None, ps[k].chan, false, ps[k].forking)], Reaped(ps[k].pid))
    else if !HasChild(ps, i) || ps[i].killed then (ps, NoChildren)
    else (ps[i := ps[i].(state := SLEEPING, chan := OnProc(i))], Asleep)
  }

  // --- steps -----------------------------------------------------------------------

  datatype Step =
    | Schedule(i: nat)          // scheduler picks i; i leaves sleep() and clears its chan
    | Yield(i: nat)
    | Sleep(i: nat, k: nat)     // any sleep other than wait's
    | Wakeup(k: nat)            // any wakeup of such a sleep
    | Kill(pid: nat)
    | ForkAlloc(i: nat)         // allocproc
    | ForkFail(i: nat)          // out of memory: give the slot back
    | ForkParent(i: nat)        // np->parent = curproc
    | ForkDone(i: nat)          // np->state = RUNNABLE
    | Exit(i: nat)
    | Wait(i: nat)

  predicate Running(s: State, i: nat) { i < |s.ps| && s.ps[i].state == RUNNING }

  // Only a running process acts, and not while it is inside fork.
  predicate Acts(s: State, i: nat) { Running(s, i) && s.ps[i].forking.None? }

  predicate Forks(s: State, i: nat) {
    Running(s, i) && s.ps[i].forking.Some? && s.ps[i].forking.value < |s.ps|
  }

  predicate Enabled(s: State, step: Step)
  {
    s.init < |s.ps| &&
    match step
    case Schedule(i) => i < |s.ps| && s.ps[i].state == RUNNABLE
    case Yield(i) => Running(s, i)
    case Sleep(i, _) => Acts(s, i)
    case Wakeup(_) => true
    case Kill(_) => true
    case ForkAlloc(i) => Acts(s, i)
    case ForkFail(i) => Forks(s, i) && s.ps[s.ps[i].forking.value].parent.None?
    case ForkParent(i) => Forks(s, i)
    case ForkDone(i) => Forks(s, i) && s.ps[s.ps[i].forking.value].parent.Some?
    case Exit(i) => Acts(s, i) && i != s.init      // init exiting panics
    case Wait(i) => Acts(s, i)
  }

  function Allocated(s: State, i: nat): (r: State)
    requires i < |s.ps|
  {
    var k := FirstUnused(s.ps);
    if k == |s.ps| then s
    else
      var ps := s.ps[k := s.ps[k].(state := EMBRYO, pid := s.nextpid)];
      s.(ps := ps[i := ps[i].(forking := Some(k))], nextpid := s.nextpid + 1)
  }

  function Killed(ps: Table, pid: nat): (r: Table)
    ensures |r| == |ps|
  {
    var k := FirstPid(ps, pid);
    if k == |ps| then ps
    else ps[k := ps[k].(killed := true, state := if ps[k].state == SLEEPING then RUNNABLE else ps[k].state)]
  }

  function Do(s: State, step: Step): (r: State)
    requires Enabled(s, step)
  {
    match step
    case Schedule(i) => s.(ps := s.ps[i := s.ps[i].(state := RUNNING, chan := NoChan)])
    case Yield(i) => s.(ps := s.ps[i := s.ps[i].(state := RUNNABLE)])
    case Sleep(i, k) => s.(ps := s.ps[i := s.ps[i].(state := SLEEPING, chan := Elsewhere(k))])
    case Wakeup(k) => s.(ps := WakeAll(s.ps, Elsewhere(k)))
    case Kill(pid) => s.(ps := Killed(s.ps, pid))
    case ForkAlloc(i) => Allocated(s, i)
    case ForkFail(i) =>
      var k := s.ps[i].forking.value;
      var ps := s.ps[i := s.ps[i].(forking := None)];
      s.(ps := ps[k := ps[k].(state := UNUSED)], aborted := s.aborted + {s.ps[k].pid})
    case ForkParent(i) =>
      var k := s.ps[i].forking.value;
      s.(ps := s.ps[k := s.ps[k].(parent := Some(i))])
    case ForkDone(i) =>
      var k := s.ps[i].forking.value;
      var ps := s.ps[i := s.ps[i].(forking := None)];
      s.(ps := ps[k := ps[k].(state := RUNNABLE)])
    case Exit(i) => s.(ps := Exited(s.ps, i, s.init))
    case Wait(i) =>
      var (ps, r) := Waited(s.ps, i);
      s.(ps := ps, reaped := if r.Reaped? then s.reaped + [r.pid] else s.reaped)
  }

  // --- what the calls do, from the table alone ------------------------------------------

  // No slot but k has changed.
  predicate OthersSame(ps: Table, qs: Table, k: nat)
  {
    |qs| == |ps| && forall j :: 0 <= j < |ps| && j != k ==> qs[j] == ps[j]
  }

  // wait reaps the lowest zombie child if there is one; without one it gives up if there
  // is no child or the caller was killed, and else sleeps on its own address.
  lemma WaitExactly(ps: Table, i: nat)
    requires i < |ps|
    ensures var (qs, r) := Waited(ps, i);
            var kids := exists j :: 0 <= j < |ps| && ps[j].parent == Some(i);
            var zombies := exists j :: 0 <= j < |ps| && ps[j].parent == Some(i) && ps[j].state == ZOMBIE;
            && (r.Reaped? <==> zombies)
            && (r == NoChildren <==> !zombies && (!kids || ps[i].killed))
            && (r == Asleep <==> !zombies && kids && !ps[i].killed)
            && (r == NoChildren ==> qs == ps)
            && (r == Asleep ==> OthersSame(ps, qs, i) && qs[i] == ps[i].(state := SLEEPING, chan := OnProc(i)))
            && (r.Reaped? ==> exists k: nat ::
                  && k < |ps| && ps[k].parent == Some(i) && ps[k].state == ZOMBIE && r.pid == ps[k].pid
                  && (forall j :: 0 <= j < k ==> ps[j].parent != Some(i) || ps[j].state != ZOMBIE)
                  && OthersSame(ps, qs, k)
                  && qs[k].state == UNUSED && qs[k].pid == 0 && qs[k].parent.None? && !qs[k].killed)
  {
    var k := FirstZombie(ps, i);
    if k < |ps| {
      assert ps[k].parent == Some(i) && ps[k].state == ZOMBIE;
    } else {
      assert forall j :: 0 <= j < |ps| ==> !ZombieChild(ps[j], i);
    }
  }

  // A wakeup leaves nobody asleep on the channel: those who were are runnable, and
  // nothing else has changed.
  lemma WakeupExactly(ps: Table, chan: Chan, j: nat)
    requires j < |ps|
    ensures var q := WakeAll(ps, chan)[j];
            && !(q.state == SLEEPING && q.chan == chan)
            && q == ps[j].(state := if ps[j].state == SLEEPING && ps[j].chan == chan then RUNNABLE else ps[j].state)
  {
  }

  // A sleep puts its caller to sleep on its channel, and does nothing else.
  lemma SleepExactly(s: State, i: nat, k: nat)
    requires Enabled(s, Sleep(i, k))
    ensures var q := Do(s, Sleep(i, k)).ps;
            OthersSame(s.ps, q, i) && q[i].state == SLEEPING && q[i].chan == Elsewhere(k) && q[i].pid == s.ps[i].pid
  {
  }

  // exit leaves a zombie; whoever slept on the parent's address can run, and on init's if
  // a zombie child goes there; the children are init's; nothing else has changed.
  lemma ExitExactly(ps: Table, i: nat, init: nat, j: nat)
    requires i < |ps| && init < |ps| && j < |ps| && i != init
    ensures var q := Exited(ps, i, init)[j];
            var woken := ps[j].state == SLEEPING &&
                         ((ps[i].parent.Some? && ps[j].chan == OnProc(ps[i].parent.value)) ||
                          (ps[i].parent.None? && ps[j].chan == NoChan) ||
                          (ps[j].chan == OnProc(init) &&
                           exists c :: 0 <= c < |ps| && ps[c].parent == Some(i) && ps[c].state == ZOMBIE));
            && q.pid == ps[j].pid && q.killed == ps[j].killed && q.chan == ps[j].chan && q.forking == ps[j].forking
            && q.parent == (if ps[j].parent == Some(i) then Some(init) else ps[j].parent)
            && q.state == if j == i then ZOMBIE else if woken then RUNNABLE else ps[j].state
  {
    assert HasZombie(ps, i) <==> exists c :: 0 <= c < |ps| && ps[c].parent == Some(i) && ps[c].state == ZOMBIE by {
      if c :| 0 <= c < |ps| && ps[c].parent == Some(i) && ps[c].state == ZOMBIE {
        assert ZombieChild(ps[c], i);
      }
    }
  }

  // --- the invariant ------------------------------------------------------------------

  predicate Alive(p: Proc) { p.state == SLEEPING || p.state == RUNNABLE || p.state == RUNNING }

  predicate HasParent(ps: Table, i: nat)
    requires i < |ps|
  {
    ps[i].parent.Some? && ps[i].parent.value < |ps| && Alive(ps[ps[i].parent.value])
  }

  predicate FamilyAt(s: State, i: nat)
    requires i < |s.ps|
  {
    && (s.ps[i].state == UNUSED ==> s.ps[i].parent.None?) && s.ps[i].parent != Some(i)
    && (i != s.init && s.ps[i].state != UNUSED && s.ps[i].state != EMBRYO ==> HasParent(s.ps, i))
    && (s.ps[i].state == EMBRYO && s.ps[i].parent.Some? ==> HasParent(s.ps, i))
  }

  predicate Family(s: State)
  {
    && s.init < |s.ps| && Alive(s.ps[s.init]) && s.ps[s.init].parent.None?
    && forall i :: 0 <= i < |s.ps| ==> FamilyAt(s, i)
  }

  // A fork in progress owns its embryo and is not asleep or gone; an embryo that
  // has a parent is the one its parent is filling in.
  predicate EmbryoAt(ps: Table, i: nat)
    requires i < |ps|
  {
    && (ps[i].forking.Some? ==>
          && (ps[i].state == RUNNING || ps[i].state == RUNNABLE)
          && ps[i].forking.value < |ps|
          && var e := ps[ps[i].forking.value];
             e.state == EMBRYO && e.forking.None? && (e.parent.Some? ==> e.parent == Some(i)))
    && (ps[i].state == EMBRYO && ps[i].parent.Some? && ps[i].parent.value < |ps| ==>
          ps[ps[i].parent.value].forking == Some(i))
  }

  predicate Embryos(ps: Table)
  {
    && (forall i :: 0 <= i < |ps| ==> EmbryoAt(ps, i))
    && (forall i, j :: 0 <= i < j < |ps| && ps[i].forking.Some? ==> ps[i].forking != ps[j].forking)
  }

  predicate WaitsForChild(ps: Table, i: nat)
    requires i < |ps|
  {
    ps[i].chan == OnProc(i) && HasChild(ps, i) && !HasZombie(ps, i)
  }

  // A process asleep on a process address is in wait: it has children, none a zombie.
  predicate Waiters(ps: Table)
  {
    forall i :: 0 <= i < |ps| && ps[i].state == SLEEPING && ps[i].chan.OnProc? ==> WaitsForChild(ps, i)
  }

  // Every pid issued so far is live in exactly one slot, or was reaped once, or was
  // given up by a failed fork; and these exclude each other.
  predicate Live(ps: Table, pid: nat) { exists i :: 0 <= i < |ps| && ps[i].state != UNUSED && ps[i].pid == pid }

  predicate Exclusive(s: State)
  {
    && 1 <= s.nextpid
    && (forall i :: 0 <= i < |s.ps| && s.ps[i].state != UNUSED ==>
          && 1 <= s.ps[i].pid < s.nextpid && s.ps[i].pid !in s.reaped && s.ps[i].pid !in s.aborted)
    && (forall i, j :: 0 <= i < j < |s.ps| && s.ps[i].state != UNUSED && s.ps[j].state != UNUSED ==>
          s.ps[i].pid != s.ps[j].pid)
    && (forall k :: 0 <= k < |s.reaped| ==> 1 <= s.reaped[k] < s.nextpid && s.reaped[k] !in s.aborted)
    && (forall k, l :: 0 <= k < l < |s.reaped| ==> s.reaped[k] != s.reaped[l])
    && (forall p :: p in s.aborted ==> 1 <= p < s.nextpid)
  }

  predicate Covered(s: State)
  {
    forall p :: 1 <= p < s.nextpid ==> Live(s.ps, p) || p in s.reaped || p in s.aborted
  }

  predicate Pids(s: State)
  {
    Exclusive(s) && Covered(s)
  }

  predicate Inv(s: State)
  {
    Family(s) && Embryos(s.ps) && Waiters(s.ps) && Pids(s)
  }

  // userinit: init is runnable, everything else unused.
  function Boot(n: nat): (s: State)
    requires n > 0
  {
    State([Proc(RUNNABLE, 1, None, NoChan, false, None)] + seq(n - 1, _ => Proc(UNUSED, 0, None, NoChan, false, None)),
          0, 2, [], {})
  }

  lemma BootInv(n: nat)
    requires n > 0
    ensures Inv(Boot(n))
  {
    assert Boot(n).ps[0].pid == 1;
  }

  // --- steps keep the invariant ----------------------------------------------------------

  // Waiters depend only on parents, zombies and sleepers.
  lemma SameChildrenWaiters(ps: Table, qs: Table)
    requires Waiters(ps) && |qs| == |ps|
    requires forall j :: 0 <= j < |ps| ==>
      && (ps[j].parent.Some? ==> qs[j].parent == ps[j].parent)
      && (qs[j].state == ZOMBIE && qs[j].parent.Some? ==> ps[j].state == ZOMBIE && ps[j].parent == qs[j].parent)
      && (qs[j].state == SLEEPING ==> ps[j].state == SLEEPING && ps[j].chan == qs[j].chan)
    ensures Waiters(qs)
  {
    forall i | 0 <= i < |qs| && qs[i].state == SLEEPING && qs[i].chan.OnProc?
      ensures WaitsForChild(qs, i)
    {
      assert WaitsForChild(ps, i);
      var c :| 0 <= c < |ps| && ps[c].parent == Some(i);
      assert qs[c].parent == Some(i);
      assert forall z :: 0 <= z < |qs| && ZombieChild(qs[z], i) ==> ZombieChild(ps[z], i);
    }
  }

  // The pid accounts depend only on which slots are used and their pids.
  lemma SamePids(s: State, qs: Table)
    requires Pids(s) && |qs| == |s.ps|
    requires forall j :: 0 <= j < |qs| ==>
      (qs[j].state == UNUSED <==> s.ps[j].state == UNUSED) && (qs[j].state != UNUSED ==> qs[j].pid == s.ps[j].pid)
    ensures Pids(s.(ps := qs))
  {
    forall p | 1 <= p < s.nextpid && Live(s.ps, p)
      ensures Live(qs, p)
    {
      var c :| 0 <= c < |s.ps| && s.ps[c].state != UNUSED && s.ps[c].pid == p;
      assert qs[c].state != UNUSED && qs[c].pid == p;
    }
  }

  // Steps that change only run states among the living, chan and killed flags.
  predicate KinAt(ps: Table, qs: Table, j: nat)
    requires j < |ps| == |qs|
  {
    && qs[j].pid == ps[j].pid && qs[j].parent == ps[j].parent && qs[j].forking == ps[j].forking
    && (qs[j].state == ps[j].state || (Alive(ps[j]) && Alive(qs[j])))
    && (ps[j].forking.Some? ==> qs[j].state != SLEEPING)
    && (qs[j].state == SLEEPING && qs[j].chan.OnProc? ==> qs[j].chan == OnProc(j) && HasChild(ps, j) && !HasZombie(ps, j))
  }

  predicate SameKin(ps: Table, qs: Table)
  {
    |qs| == |ps| && forall j :: 0 <= j < |ps| ==> KinAt(ps, qs, j)
  }

  lemma SameKinFamily(s: State, qs: Table)
    requires Family(s) && Embryos(s.ps) && SameKin(s.ps, qs)
    ensures Family(s.(ps := qs)) && Embryos(qs)
  {
    var t := s.(ps := qs);
    assert KinAt(s.ps, qs, s.init);
    forall i | 0 <= i < |qs|
      ensures FamilyAt(t, i) && EmbryoAt(qs, i)
    {
      assert FamilyAt(s, i) && EmbryoAt(s.ps, i) && KinAt(s.ps, qs, i);
      if qs[i].parent.Some? && qs[i].parent.value < |qs| { assert KinAt(s.ps, qs, qs[i].parent.value); }
      if qs[i].forking.Some? { assert KinAt(s.ps, qs, qs[i].forking.value); }
    }
    forall i, j | 0 <= i < j < |qs| && qs[i].forking.Some?
      ensures qs[i].forking != qs[j].forking
    {
      assert KinAt(s.ps, qs, i) && KinAt(s.ps, qs, j);
    }
  }

  lemma SameKinWaiters(ps: Table, qs: Table)
    requires SameKin(ps, qs)
    ensures Waiters(qs)
  {
    forall i | 0 <= i < |qs| && qs[i].state == SLEEPING && qs[i].chan.OnProc?
      ensures WaitsForChild(qs, i)
    {
      assert KinAt(ps, qs, i);
      var c :| 0 <= c < |ps| && ps[c].parent == Some(i);
      assert KinAt(ps, qs, c);
      forall z | 0 <= z < |qs|
        ensures !ZombieChild(qs[z], i)
      {
        assert KinAt(ps, qs, z);
        assert !ZombieChild(ps[z], i);
      }
    }
  }

  lemma SameKinKeepsInv(s: State, qs: Table)
    requires Inv(s) && SameKin(s.ps, qs)
    ensures Inv(s.(ps := qs))
  {
    forall j | 0 <= j < |qs|
      ensures (qs[j].state == UNUSED <==> s.ps[j].state == UNUSED) && qs[j].pid == s.ps[j].pid
    {
      assert KinAt(s.ps, qs, j);
    }
    hide SameKin, Family, Embryos, Waiters, Pids;
    SameKinFamily(s, qs);
    SameKinWaiters(s.ps, qs);
    SamePids(s, qs);
  }

  lemma KinSelf(s: State, j: nat)
    requires Inv(s) && j < |s.ps|
    ensures KinAt(s.ps, s.ps, j)
  {
    assert EmbryoAt(s.ps, j);
    if s.ps[j].state == SLEEPING && s.ps[j].chan.OnProc? { assert WaitsForChild(s.ps, j); }
  }

  // Scheduling, yielding, sleeping elsewhere, waking, killing, waiting in vain.
  predicate Quiet(s: State, step: Step)
  {
    step.Schedule? || step.Yield? || step.Sleep? || step.Wakeup? || step.Kill? ||
    (step.Wait? && !HasZombie(s.ps, step.i))
  }

  // A quiet step changes one slot this little.
  lemma QuietAt(s: State, step: Step, j: nat)
    requires Enabled(s, step) && Quiet(s, step) && j < |s.ps| && KinAt(s.ps, s.ps, j)
    ensures |Do(s, step).ps| == |s.ps| && KinAt(s.ps, Do(s, step).ps, j)
  {
    hide HasZombie, HasChild, FirstPid;
    match step
    case Wait(i) => VainWait(s, i, j);
    case _ =>
  }

  lemma VainWait(s: State, i: nat, j: nat)
    requires Enabled(s, Wait(i)) && !HasZombie(s.ps, i) && j < |s.ps| && KinAt(s.ps, s.ps, j)
    ensures |Do(s, Wait(i)).ps| == |s.ps| && KinAt(s.ps, Do(s, Wait(i)).ps, j)
  {
    assert FirstZombie(s.ps, i) == |s.ps|;
    hide FirstZombie, HasZombie, HasChild;
  }

  lemma QuietSame(s: State, step: Step)
    requires Enabled(s, step) && Quiet(s, step)
    ensures Do(s, step) == s.(ps := Do(s, step).ps) && |Do(s, step).ps| == |s.ps|
  {
    if step.Wait? {
      assert FirstZombie(s.ps, step.i) == |s.ps|;
    }
    hide FirstZombie, FirstPid, HasChild, HasZombie;
  }

  lemma QuietStep(s: State, step: Step)
    requires Inv(s) && Enabled(s, step) && Quiet(s, step)
    ensures Inv(Do(s, step))
  {
    hide Inv, Do, Enabled, Quiet, KinAt;
    var qs := Do(s, step).ps;
    QuietSame(s, step);
    forall j: nat | j < |s.ps|
      ensures KinAt(s.ps, qs, j)
    {
      KinSelf(s, j);
      QuietAt(s, step, j);
    }
    SameKinKeepsInv(s, qs);
  }

  // --- fork -----------------------------------------------------------------------------

  // What allocproc changes: the slot it takes and the caller's note of it.
  lemma AllocChanges(s: State, i: nat)
    requires Enabled(s, ForkAlloc(i)) && FirstUnused(s.ps) < |s.ps|
    ensures var t, k := Do(s, ForkAlloc(i)), FirstUnused(s.ps);
            && |t.ps| == |s.ps| && t.init == s.init && i < |s.ps| && i != k
            && s.ps[k].state == UNUSED && s.ps[i].state == RUNNING && s.ps[i].forking.None?
            && t.ps[k] == s.ps[k].(state := EMBRYO, pid := s.nextpid) && t.ps[i] == s.ps[i].(forking := Some(k))
            && (forall j :: 0 <= j < |s.ps| && j != k && j != i ==> t.ps[j] == s.ps[j])
  {
  }

  lemma ForkAllocFamily(s: State, i: nat)
    requires Family(s) && Embryos(s.ps) && Enabled(s, ForkAlloc(i)) && FirstUnused(s.ps) < |s.ps|
    ensures Family(Do(s, ForkAlloc(i))) && Embryos(Do(s, ForkAlloc(i)).ps)
  {
    hide Do, Enabled, Allocated, FirstUnused;
    AllocChanges(s, i);
    var t := Do(s, ForkAlloc(i));
    var k := FirstUnused(s.ps);
    assert FamilyAt(s, k) && FamilyAt(s, i) && EmbryoAt(s.ps, k) && EmbryoAt(s.ps, i);
    forall j | 0 <= j < |s.ps|
      ensures FamilyAt(t, j) && EmbryoAt(t.ps, j) && s.ps[j].forking != Some(k)
    {
      assert FamilyAt(s, j) && EmbryoAt(s.ps, j);
    }
    forall j, l | 0 <= j < l < |s.ps| && t.ps[j].forking.Some?
      ensures t.ps[j].forking != t.ps[l].forking
    {
      assert s.ps[j].forking != Some(k) && s.ps[l].forking != Some(k);
    }
  }

  lemma ForkAllocPids(s: State, i: nat)
    requires Pids(s) && Enabled(s, ForkAlloc(i)) && FirstUnused(s.ps) < |s.ps|
    ensures Pids(Do(s, ForkAlloc(i)))
  {
    hide FirstUnused;
    AllocChanges(s, i);
    var t := Do(s, ForkAlloc(i));
    var k := FirstUnused(s.ps);
    assert forall j :: 0 <= j < |s.ps| && j != k ==> t.ps[j].state == s.ps[j].state && t.ps[j].pid == s.ps[j].pid;
    assert t.ps[k].pid == s.nextpid && t.ps[k].state == EMBRYO;
    assert Exclusive(t) by { hide Covered; }
    hide Exclusive;
    forall p | 1 <= p < t.nextpid && (p == s.nextpid || Live(s.ps, p))
      ensures Live(t.ps, p)
    {
      if p == s.nextpid {
        assert t.ps[k].pid == p;
      } else {
        var c :| 0 <= c < |s.ps| && s.ps[c].state != UNUSED && s.ps[c].pid == p;
        assert t.ps[c].pid == p;
      }
    }
  }

  lemma UnusedOrphan(s: State, k: nat)
    requires Family(s) && k < |s.ps| && s.ps[k].state == UNUSED
    ensures s.ps[k].parent.None?
  {
    assert FamilyAt(s, k);
  }

  lemma AllocNothing(s: State, i: nat)
    requires Enabled(s, ForkAlloc(i)) && FirstUnused(s.ps) >= |s.ps|
    ensures Do(s, ForkAlloc(i)) == s
  {
  }

  lemma ForkAllocKeepsInv(s: State, i: nat)
    requires Inv(s) && Enabled(s, ForkAlloc(i))
    ensures Inv(Do(s, ForkAlloc(i)))
  {
    hide Family, Embryos, Waiters, Pids, Enabled;
    if FirstUnused(s.ps) < |s.ps| {
      AllocChanges(s, i);
      UnusedOrphan(s, FirstUnused(s.ps));
      ForkAllocFamily(s, i);
      ForkAllocPids(s, i);
      SameChildrenWaiters(s.ps, Do(s, ForkAlloc(i)).ps);
    } else {
      AllocNothing(s, i);
    }
  }

  // The three ways fork goes on.
  predicate GoesOn(step: Step) { step.ForkFail? || step.ForkParent? || step.ForkDone? }

  // What they change: the forking process's note, and the embryo.
  lemma ForkChanges(s: State, step: Step)
    requires Embryos(s.ps) && Enabled(s, step) && GoesOn(step)
    ensures var t, i, k := Do(s, step), step.i, s.ps[step.i].forking.value;
            && |t.ps| == |s.ps| && t.init == s.init && i < |s.ps| && k < |s.ps| && i != k
            && s.ps[i].state == RUNNING && s.ps[k].state == EMBRYO && s.ps[k].forking.None?
            && t.ps[i] == s.ps[i].(forking := if step.ForkParent? then Some(k) else None)
            && t.ps[k] == s.ps[k].(state := t.ps[k].state, parent := if step.ForkParent? then Some(i) else s.ps[k].parent)
            && t.ps[k].state == (if step.ForkFail? then UNUSED else if step.ForkDone? then RUNNABLE else EMBRYO)
            && (step.ForkFail? ==> s.ps[k].parent.None?) && (step.ForkDone? ==> s.ps[k].parent == Some(i))
            && (s.ps[k].parent.Some? ==> s.ps[k].parent == Some(i))
            && (forall j :: 0 <= j < |s.ps| && j != i && j != k ==> t.ps[j] == s.ps[j])
            && (forall j :: 0 <= j < |s.ps| && j != i ==> s.ps[j].forking != Some(k))
            && (!step.ForkFail? ==> t == s.(ps := t.ps))
  {
    assert EmbryoAt(s.ps, step.i);
  }

  // They leave the family tree in order.
  lemma ForkFamilyAt(s: State, step: Step, j: nat)
    requires Family(s) && Embryos(s.ps) && Enabled(s, step) && GoesOn(step) && j < |s.ps|
    ensures |Do(s, step).ps| == |s.ps| && FamilyAt(Do(s, step), j)
  {
    ForkChanges(s, step);
    assert FamilyAt(s, j);
    hide Do, Enabled, Embryos, GoesOn;
  }

  lemma ForkEmbryoAt(s: State, step: Step, j: nat)
    requires Embryos(s.ps) && Enabled(s, step) && GoesOn(step) && j < |s.ps|
    ensures |Do(s, step).ps| == |s.ps| && EmbryoAt(Do(s, step).ps, j)
  {
    ForkChanges(s, step);
    assert EmbryoAt(s.ps, j);
    hide Do, Enabled, GoesOn;
  }

  lemma ForkFamily(s: State, step: Step)
    requires Family(s) && Embryos(s.ps) && Enabled(s, step) && GoesOn(step)
    ensures Family(Do(s, step)) && Embryos(Do(s, step).ps)
  {
    ForkChanges(s, step);
    hide Do, Enabled, GoesOn, FamilyAt, EmbryoAt;
    forall j: nat | j < |s.ps|
      ensures FamilyAt(Do(s, step), j) && EmbryoAt(Do(s, step).ps, j)
    {
      ForkFamilyAt(s, step, j);
      ForkEmbryoAt(s, step, j);
    }
  }

  lemma ForkFailPids(s: State, i: nat)
    requires Pids(s) && Embryos(s.ps) && Enabled(s, ForkFail(i))
    ensures Pids(Do(s, ForkFail(i)))
  {
    var t := Do(s, ForkFail(i));
    var k := s.ps[i].forking.value;
    assert EmbryoAt(s.ps, i);
    assert forall j :: 0 <= j < |s.ps| && j != k ==> t.ps[j].state == s.ps[j].state && t.ps[j].pid == s.ps[j].pid;
    hide Embryos, Do, Enabled, EmbryoAt;
    assert Exclusive(t) by { hide Covered; }
    hide Exclusive;
    forall p | 1 <= p < t.nextpid && Live(s.ps, p)
      ensures Live(t.ps, p) || p in t.aborted
    {
      var c :| 0 <= c < |s.ps| && s.ps[c].state != UNUSED && s.ps[c].pid == p;
      if c != k { assert t.ps[c].pid == p; }
    }
  }

  lemma ForkKeepsInv(s: State, step: Step)
    requires Inv(s) && Enabled(s, step) && GoesOn(step)
    ensures Inv(Do(s, step))
  {
    ForkChanges(s, step);
    hide Do, Enabled, GoesOn, Family, Embryos, Waiters, Pids;
    ForkFamily(s, step);
    SameChildrenWaiters(s.ps, Do(s, step).ps);
    if step.ForkFail? {
      ForkFailPids(s, step.i);
    } else {
      SamePids(s, Do(s, step).ps);
    }
  }

  // --- wait finds a zombie ---------------------------------------------------------------

  lemma ReapFamily(s: State, i: nat)
    requires Family(s) && Embryos(s.ps) && Enabled(s, Wait(i)) && HasZombie(s.ps, i)
    ensures Family(Do(s, Wait(i))) && Embryos(Do(s, Wait(i)).ps)
  {
    var t := Do(s, Wait(i));
    var k := FirstZombie(s.ps, i);
    assert FamilyAt(s, k) && EmbryoAt(s.ps, k);
    forall j | 0 <= j < |s.ps|
      ensures FamilyAt(t, j) && EmbryoAt(t.ps, j)
    {
      assert FamilyAt(s, j) && EmbryoAt(s.ps, j);
    }
  }

  // Only the reaping process loses a child, and it is not asleep.
  lemma ReapWaiters(s: State, i: nat)
    requires Waiters(s.ps) && Enabled(s, Wait(i)) && HasZombie(s.ps, i)
    ensures Waiters(Do(s, Wait(i)).ps)
  {
    var ps, qs := s.ps, Do(s, Wait(i)).ps;
    forall j | 0 <= j < |qs| && qs[j].state == SLEEPING && qs[j].chan.OnProc?
      ensures WaitsForChild(qs, j)
    {
      assert WaitsForChild(ps, j);
      var c :| 0 <= c < |ps| && ps[c].parent == Some(j);
      assert qs[c].parent == Some(j);
      assert forall z :: 0 <= z < |qs| && ZombieChild(qs[z], j) ==> ZombieChild(ps[z], j);
    }
  }

  lemma ReapPids(s: State, i: nat)
    requires Pids(s) && Enabled(s, Wait(i)) && HasZombie(s.ps, i)
    ensures Pids(Do(s, Wait(i)))
  {
    var t := Do(s, Wait(i));
    var k := FirstZombie(s.ps, i);
    assert t.reaped == s.reaped + [s.ps[k].pid] && t.ps[k].state == UNUSED;
    assert forall j :: 0 <= j < |s.ps| && j != k ==> t.ps[j] == s.ps[j];
    hide Do, Enabled, FirstZombie, Waited, HasZombie;
    assert Exclusive(t) by { hide Covered; }
    hide Exclusive;
    forall p | 1 <= p < t.nextpid && (Live(s.ps, p) || p in s.reaped)
      ensures Live(t.ps, p) || p in t.reaped
    {
      if Live(s.ps, p) {
        var c :| 0 <= c < |s.ps| && s.ps[c].state != UNUSED && s.ps[c].pid == p;
        assert c != k ==> t.ps[c].pid == p;
      }
    }
  }

  lemma ReapKeepsInv(s: State, i: nat)
    requires Inv(s) && Enabled(s, Wait(i)) && HasZombie(s.ps, i)
    ensures Inv(Do(s, Wait(i)))
  {
    hide Family, Embryos, Waiters, Pids, Waited;
    ReapFamily(s, i);
    ReapWaiters(s, i);
    ReapPids(s, i);
  }

  // --- exit -----------------------------------------------------------------------------

  // What exit does to one slot.
  lemma ExitedAt(s: State, i: nat, j: nat)
    requires Family(s) && Enabled(s, Exit(i)) && j < |s.ps|
    ensures var p, q := s.ps[j], Exited(s.ps, i, s.init)[j];
            && q.pid == p.pid && q.forking == p.forking && q.chan == p.chan
            && q.parent == (if p.parent == Some(i) then Some(s.init) else p.parent)
            && (j == i ==> q.state == ZOMBIE)
            && (j != i ==> q.state == p.state || (p.state == SLEEPING && q.state == RUNNABLE))
            && (q.state == SLEEPING ==> p.state == SLEEPING && p.chan != ChanOf(s.ps[i].parent))
            && (q.state == SLEEPING && HasZombie(s.ps, i) ==> p.chan != OnProc(s.init))
  {
  }

  // What exit does to a slot's family: its parent is still there, or is now init.
  lemma ExitFamilyAt(s: State, i: nat, j: nat)
    requires Family(s) && Enabled(s, Exit(i)) && j < |s.ps|
    ensures FamilyAt(Do(s, Exit(i)), j)
  {
    var t := Do(s, Exit(i));
    hide Exited;
    assert FamilyAt(s, j);
    ExitedAt(s, i, s.init);
    ExitedAt(s, i, j);
    if t.ps[j].parent.Some? && t.ps[j].parent.value < |s.ps| {
      ExitedAt(s, i, t.ps[j].parent.value);
    }
  }

  lemma ExitEmbryoAt(s: State, i: nat, j: nat)
    requires Family(s) && Embryos(s.ps) && Enabled(s, Exit(i)) && j < |s.ps|
    ensures EmbryoAt(Do(s, Exit(i)).ps, j) && Do(s, Exit(i)).ps[j].forking == s.ps[j].forking
  {
    var t := Do(s, Exit(i));
    hide Exited;
    assert EmbryoAt(s.ps, j);
    ExitedAt(s, i, j);
    if s.ps[j].forking.Some? {
      ExitedAt(s, i, s.ps[j].forking.value);
    }
    if s.ps[j].parent.Some? && s.ps[j].parent.value < |s.ps| {
      ExitedAt(s, i, s.ps[j].parent.value);
    }
  }

  lemma ExitInit(s: State, i: nat)
    requires Family(s) && Enabled(s, Exit(i))
    ensures var t := Do(s, Exit(i));
            && |t.ps| == |s.ps| && t.init == s.init < |s.ps| && Alive(t.ps[t.init]) && t.ps[t.init].parent.None?
  {
    hide Exited;
    ExitedAt(s, i, s.init);
  }

  lemma ExitFamily(s: State, i: nat)
    requires Family(s) && Embryos(s.ps) && Enabled(s, Exit(i))
    ensures Family(Do(s, Exit(i))) && Embryos(Do(s, Exit(i)).ps)
  {
    hide Exited, Do, Enabled, FamilyAt, EmbryoAt;
    var t := Do(s, Exit(i));
    ExitInit(s, i);
    forall j: nat | j < |s.ps|
      ensures FamilyAt(t, j) && EmbryoAt(t.ps, j) && t.ps[j].forking == s.ps[j].forking
    {
      ExitFamilyAt(s, i, j);
      ExitEmbryoAt(s, i, j);
    }
  }

  // No sleeper in wait is left with a zombie child: the parent of the process that
  // exits has been woken, and so has init if it inherits a zombie.
  lemma ExitWaiters(s: State, i: nat)
    requires Family(s) && Waiters(s.ps) && Enabled(s, Exit(i))
    ensures Waiters(Do(s, Exit(i)).ps)
  {
    var ps, qs := s.ps, Do(s, Exit(i)).ps;
    hide Exited;
    forall j | 0 <= j < |qs| && qs[j].state == SLEEPING && qs[j].chan.OnProc?
      ensures WaitsForChild(qs, j)
    {
      ExitedAt(s, i, j);
      assert WaitsForChild(ps, j);
      assert FamilyAt(s, i);
      var c :| 0 <= c < |ps| && ps[c].parent == Some(j);
      ExitedAt(s, i, c);
      assert qs[c].parent == Some(j);
      forall z | 0 <= z < |qs|
        ensures !ZombieChild(qs[z], j)
      {
        ExitedAt(s, i, z);
        assert !ZombieChild(ps[z], j);
        assert ZombieChild(ps[z], i) ==> HasZombie(ps, i);
      }
    }
  }

  lemma ExitKeepsInv(s: State, i: nat)
    requires Inv(s) && Enabled(s, Exit(i))
    ensures Inv(Do(s, Exit(i)))
  {
    hide Embryos, Waiters, Pids, Exited;
    var t := Do(s, Exit(i));
    ExitFamily(s, i);
    ExitWaiters(s, i);
    forall j | 0 <= j < |s.ps|
      ensures (t.ps[j].state == UNUSED <==> s.ps[j].state == UNUSED) && t.ps[j].pid == s.ps[j].pid
    {
      ExitedAt(s, i, j);
    }
    SamePids(s, t.ps);
  }

  // --- runs -----------------------------------------------------------------------------

  lemma StepKeepsInv(s: State, step: Step)
    requires Inv(s) && Enabled(s, step)
    ensures Inv(Do(s, step))
  {
    hide Inv, Do;
    if Quiet(s, step) {
      QuietStep(s, step);
    } else {
      match step {
        case ForkAlloc(i) => ForkAllocKeepsInv(s, i);
        case ForkFail(_) => ForkKeepsInv(s, step);
        case ForkParent(_) => ForkKeepsInv(s, step);
        case ForkDone(_) => ForkKeepsInv(s, step);
        case Exit(i) => ExitKeepsInv(s, i);
        case Wait(i) => ReapKeepsInv(s, i);
        case _ =>
      }
    }
  }

  predicate EnabledRun(s: State, steps: seq<Step>)
    decreases |steps|
  {
    steps == [] || (Enabled(s, steps[0]) && EnabledRun(Do(s, steps[0]), steps[1..]))
  }

  function Run(s: State, steps: seq<Step>): (r: State)
    requires EnabledRun(s, steps)
    decreases |steps|
  {
    if steps == [] then s else Run(Do(s, steps[0]), steps[1..])
  }

  lemma {:induction false} RunKeepsInv(s: State, steps: seq<Step>)
    requires Inv(s) && EnabledRun(s, steps)
    ensures Inv(Run(s, steps))
    decreases |steps|
  {
    hide Inv, Do;
    if steps != [] {
      StepKeepsInv(s, steps[0]);
      RunKeepsInv(Do(s, steps[0]), steps[1..]);
    }
  }

  // In every reachable state, a process asleep in wait() has a child to wait for and
  // none that has already exited: no wakeup has been lost.
  lemma NoLostExit(n: nat, steps: seq<Step>, i: nat)
    requires n > 0 && EnabledRun(Boot(n), steps)
    requires i < |Run(Boot(n), steps).ps| && Run(Boot(n), steps).ps[i].state == SLEEPING
    requires Run(Boot(n), steps).ps[i].chan == OnProc(i)
    ensures HasChild(Run(Boot(n), steps).ps, i) && !HasZombie(Run(Boot(n), steps).ps, i)
  {
    BootInv(n);
    RunKeepsInv(Boot(n), steps);
    assert WaitsForChild(Run(Boot(n), steps).ps, i);
  }

  // In every reachable state, a process past EMBRYO other than init has a parent that is
  // neither unused, nor an embryo, nor a zombie.
  lemma LiveParents(n: nat, steps: seq<Step>, i: nat)
    requires n > 0 && EnabledRun(Boot(n), steps) && i < |Run(Boot(n), steps).ps| && i != Run(Boot(n), steps).init
    requires Run(Boot(n), steps).ps[i].state != UNUSED && Run(Boot(n), steps).ps[i].state != EMBRYO
    ensures HasParent(Run(Boot(n), steps).ps, i)
  {
    BootInv(n);
    RunKeepsInv(Boot(n), steps);
    assert FamilyAt(Run(Boot(n), steps), i);
  }

  // sys_getppid reads myproc()->parent->pid: for a running process the parent is
  // there, alive and has a pid, exactly when the process is not init.
  lemma GetppidDefined(n: nat, steps: seq<Step>, i: nat)
    requires n > 0 && EnabledRun(Boot(n), steps) && Running(Run(Boot(n), steps), i)
    ensures var s := Run(Boot(n), steps);
            && (HasParent(s.ps, i) <==> i != s.init)
            && (i != s.init ==> 1 <= s.ps[s.ps[i].parent.value].pid < s.nextpid)
  {
    BootInv(n);
    RunKeepsInv(Boot(n), steps);
    assert FamilyAt(Run(Boot(n), steps), i);
  }

  // Conservation of processes: of every pid issued, exactly one of these is true.
  lemma PidsConserved(n: nat, steps: seq<Step>, pid: nat)
    requires n > 0 && EnabledRun(Boot(n), steps) && 1 <= pid < Run(Boot(n), steps).nextpid
    ensures var s := Run(Boot(n), steps);
            && (Live(s.ps, pid) || pid in s.reaped || pid in s.aborted)
            && !(Live(s.ps, pid) && pid in s.reaped) && !(Live(s.ps, pid) && pid in s.aborted)
            && !(pid in s.reaped && pid in s.aborted)
            && (forall k, l :: 0 <= k < l < |s.reaped| ==> s.reaped[k] != s.reaped[l])
  {
    BootInv(n);
    RunKeepsInv(Boot(n), steps);
  }

  // --- fork from start to end ---------------------------------------------------------------

  // A fork in progress has an embryo of its own.
  lemma InFork(s: State, i: nat)
    requires Inv(s) && i < |s.ps| && s.ps[i].forking.Some?
    ensures var k := s.ps[i].forking.value;
            && (s.ps[i].state == RUNNING || s.ps[i].state == RUNNABLE) && k < |s.ps| && k != i && s.ps[k].state == EMBRYO
            && (s.ps[k].parent.Some? ==> s.ps[k].parent == Some(i))
    ensures forall j :: 0 <= j < |s.ps| && j != i ==> s.ps[j].forking != s.ps[i].forking
  {
    assert EmbryoAt(s.ps, i);
    hide Family, Waiters, Pids;
  }

  // Nobody else ends a fork or takes its embryo.
  lemma StepKeepsFork(s: State, step: Step, i: nat, k: nat)
    requires Inv(s) && Enabled(s, step) && i < |s.ps| && k < |s.ps| && s.ps[i].forking == Some(k)
    requires step != ForkFail(i) && step != ForkDone(i)
    ensures var t := Do(s, step); |t.ps| == |s.ps| && t.ps[i].forking == Some(k) && t.ps[k].pid == s.ps[k].pid
  {
    InFork(s, i);
    hide *;
    EmbryoKept(s, step, k);
    ForkingKept(s, step, i);
  }

  lemma EmbryoKept(s: State, step: Step, k: nat)
    requires Enabled(s, step) && k < |s.ps| && s.ps[k].state == EMBRYO
    ensures |Do(s, step).ps| == |s.ps| && Do(s, step).ps[k].pid == s.ps[k].pid
  {
    if step.Exit? {
      ExitExactly(s.ps, step.i, s.init, k);
      hide Exited;
    } else if step.Wait? {
      KeptByWait(s.ps, step.i, k);
      hide Waited;
    }
  }

  lemma ForkingKept(s: State, step: Step, i: nat)
    requires Enabled(s, step) && i < |s.ps| && s.ps[i].forking.Some? && (s.ps[i].state == RUNNING || s.ps[i].state == RUNNABLE)
    requires step != ForkFail(i) && step != ForkDone(i)
    ensures |Do(s, step).ps| == |s.ps| && Do(s, step).ps[i].forking == s.ps[i].forking
  {
    if step.Exit? {
      ExitExactly(s.ps, step.i, s.init, i);
      hide Exited;
    } else if step.Wait? {
      KeptByWait(s.ps, step.i, i);
      hide Waited;
    }
  }

  lemma KeptByWait(ps: Table, i: nat, j: nat)
    requires i < |ps| && j < |ps| && ps[j].state != ZOMBIE
    ensures var q := Waited(ps, i).0[j]; q.pid == ps[j].pid && q.forking == ps[j].forking
  {
  }

  lemma {:induction false} RunKeepsFork(s: State, steps: seq<Step>, i: nat, k: nat)
    requires Inv(s) && EnabledRun(s, steps) && i < |s.ps| && k < |s.ps| && s.ps[i].forking == Some(k)
    requires ForkFail(i) !in steps && ForkDone(i) !in steps
    ensures var t := Run(s, steps); |t.ps| == |s.ps| && t.ps[i].forking == Some(k) && t.ps[k].pid == s.ps[k].pid
    decreases |steps|
  {
    hide Do, Inv, Enabled;
    if steps != [] {
      StepKeepsFork(s, steps[0], i, k);
      StepKeepsInv(s, steps[0]);
      RunKeepsFork(Do(s, steps[0]), steps[1..], i, k);
    }
  }

  // Whatever happens while i forks, it ends with the lowest slot that was unused when it
  // began as a runnable child of i, with the pid that was next.
  lemma ForkMakesChild(s: State, steps: seq<Step>, i: nat)
    requires Inv(s) && Enabled(s, ForkAlloc(i)) && FirstUnused(s.ps) < |s.ps|
    requires ForkFail(i) !in steps && ForkDone(i) !in steps
    requires EnabledRun(Do(s, ForkAlloc(i)), steps) && Enabled(Run(Do(s, ForkAlloc(i)), steps), ForkDone(i))
    ensures var k, t := FirstUnused(s.ps), Do(Run(Do(s, ForkAlloc(i)), steps), ForkDone(i));
            && |t.ps| == |s.ps| && t.ps[k].state == RUNNABLE && t.ps[k].pid == s.nextpid && t.ps[k].parent == Some(i)
            && t.ps[i].forking.None? && (forall j :: 0 <= j < k ==> s.ps[j].state != UNUSED) && s.ps[k].state == UNUSED
  {
    hide *;
    var k, s1 := FirstUnused(s.ps), Do(s, ForkAlloc(i));
    ForkBegins(s, i);
    StepKeepsInv(s, ForkAlloc(i));
    RunKeepsFork(s1, steps, i, k);
    RunKeepsInv(s1, steps);
    ForkEnds(Run(s1, steps), i);
  }

  lemma ForkBegins(s: State, i: nat)
    requires Enabled(s, ForkAlloc(i)) && FirstUnused(s.ps) < |s.ps|
    ensures var k, t := FirstUnused(s.ps), Do(s, ForkAlloc(i));
            && i < |s.ps| && |t.ps| == |s.ps| && t.ps[i].forking == Some(k) && t.ps[k].pid == s.nextpid
            && (forall j :: 0 <= j < k ==> s.ps[j].state != UNUSED) && s.ps[k].state == UNUSED
  {
    hide FirstUnused;
  }

  lemma ForkEnds(s: State, i: nat)
    requires Inv(s) && Enabled(s, ForkDone(i))
    ensures i < |s.ps| && s.ps[i].forking.Some? && s.ps[i].forking.value < |s.ps|
    ensures var k, t := s.ps[i].forking.value, Do(s, ForkDone(i));
            && |t.ps| == |s.ps| && t.ps[i].forking.None?
            && t.ps[k].state == RUNNABLE && t.ps[k].pid == s.ps[k].pid && t.ps[k].parent == Some(i)
  {
    InFork(s, i);
    hide Inv;
  }

  // --- sleep --------------------------------------------------------------------------------

  // The step makes the process asleep in slot i runnable.
  predicate Wakes(s: State, step: Step, i: nat)
    requires i < |s.ps|
  {
    (step.Wakeup? && s.ps[i].chan == Elsewhere(step.k)) || (step.Kill? && FirstPid(s.ps, step.pid) == i)
  }

  // A process asleep elsewhere than in wait stays so until a wakeup of its channel, or a
  // kill of its pid, makes it runnable.
  lemma SleepsUntil(s: State, step: Step, i: nat)
    requires Inv(s) && Enabled(s, step) && i < |s.ps| && s.ps[i].state == SLEEPING && s.ps[i].chan.Elsewhere?
    ensures var q := Do(s, step).ps;
            |q| == |s.ps| && q[i].state == (if Wakes(s, step, i) then RUNNABLE else SLEEPING) && q[i].chan == s.ps[i].chan
  {
    if step.ForkFail? || step.ForkParent? || step.ForkDone? {
      InFork(s, step.i);
      SleepsThroughFork(s, step, i);
    } else {
      SleepsThrough(s, step, i);
    }
    hide *;
  }

  lemma SleepsThrough(s: State, step: Step, i: nat)
    requires Enabled(s, step) && i < |s.ps| && s.ps[i].state == SLEEPING && s.ps[i].chan.Elsewhere?
    requires !step.ForkFail? && !step.ForkParent? && !step.ForkDone?
    ensures var q := Do(s, step).ps;
            |q| == |s.ps| && q[i].state == (if Wakes(s, step, i) then RUNNABLE else SLEEPING) && q[i].chan == s.ps[i].chan
  {
    if step.Exit? {
      ExitExactly(s.ps, step.i, s.init, i);
      hide Exited;
    }
  }

  lemma SleepsThroughFork(s: State, step: Step, i: nat)
    requires Enabled(s, step) && i < |s.ps| && s.ps[i].state == SLEEPING && (step.ForkFail? || step.ForkParent? || step.ForkDone?)
    requires s.ps[step.i].forking.value != i
    ensures var q := Do(s, step).ps; |q| == |s.ps| && q[i] == s.ps[i] && !Wakes(s, step, i)
  {
  }

  // --- kill -------------------------------------------------------------------------------

  // What a step does to slots that are or become unused: nothing, or it marks one, takes
  // one, reaps a zombie or gives back the slot of a failed fork.
  predicate SlotAfter(s: State, step: Step, t: State, j: nat)
    requires j < |s.ps|
  {
    && |t.ps| == |s.ps| && s.aborted <= t.aborted
    && var p, q := s.ps[j], t.ps[j];
       if p.state == UNUSED then
         || q == p.(killed := p.killed || HitsUnused(s, step, j))
         || q == p.(state := EMBRYO, pid := s.nextpid)
       else q.state == UNUSED ==>
         || (q.pid == 0 && !q.killed)
         || (step.ForkFail? && step.i < |s.ps| && s.ps[step.i].forking == Some(j) && q.pid in t.aborted && q.killed == p.killed)
  }

  lemma UnusedAfter(s: State, step: Step, j: nat)
    requires Family(s) && Embryos(s.ps) && Enabled(s, step) && j < |s.ps|
    ensures SlotAfter(s, step, Do(s, step), j)
  {
    hide *;
    match step
    case Exit(i) => ExitAfter(s, i, j);
    case Wait(i) => WaitAfter(s, i, j);
    case ForkAlloc(i) => AllocAfter(s, i, j);
    case ForkFail(i) => ForkAfter(s, step, j);
    case ForkParent(i) => ForkAfter(s, step, j);
    case ForkDone(i) => ForkAfter(s, step, j);
    case _ => RunAfter(s, step, j);
  }

  lemma AllocAfter(s: State, i: nat, j: nat)
    requires Enabled(s, ForkAlloc(i)) && j < |s.ps|
    ensures SlotAfter(s, ForkAlloc(i), Do(s, ForkAlloc(i)), j)
  {
    hide FirstUnused;
  }

  lemma ForkAfter(s: State, step: Step, j: nat)
    requires Embryos(s.ps) && Enabled(s, step) && j < |s.ps| && (step.ForkFail? || step.ForkParent? || step.ForkDone?)
    ensures SlotAfter(s, step, Do(s, step), j)
  {
    assert EmbryoAt(s.ps, step.i);
    hide Embryos;
  }

  lemma RunAfter(s: State, step: Step, j: nat)
    requires Enabled(s, step) && j < |s.ps|
    requires step.Schedule? || step.Yield? || step.Sleep? || step.Wakeup? || step.Kill?
    ensures SlotAfter(s, step, Do(s, step), j)
  {
    hide FirstPid;
  }

  lemma WaitAfter(s: State, i: nat, j: nat)
    requires Enabled(s, Wait(i)) && j < |s.ps|
    ensures SlotAfter(s, Wait(i), Do(s, Wait(i)), j)
  {
    hide FirstZombie, HasChild, HasZombie;
  }

  lemma ExitAfter(s: State, i: nat, j: nat)
    requires Family(s) && Enabled(s, Exit(i)) && j < |s.ps|
    ensures SlotAfter(s, Exit(i), Do(s, Exit(i)), j)
  {
    assert FamilyAt(s, j);
    ExitedAt(s, i, j);
    ExitKilled(s, i, j);
    hide Exited, Family, HasZombie;
  }

  lemma ExitKilled(s: State, i: nat, j: nat)
    requires i < |s.ps| && s.init < |s.ps| && j < |s.ps|
    ensures Exited(s.ps, i, s.init)[j].killed == s.ps[j].killed
  {
  }

  // kill marks a slot that no process uses.
  predicate HitsUnused(s: State, step: Step, j: nat)
    requires j < |s.ps|
  {
    step.Kill? && FirstPid(s.ps, step.pid) == j && s.ps[j].state == UNUSED
  }

  // What pids unused slots still carry: none, or that of a failed fork.
  predicate Stale(s: State)
  {
    forall j :: 0 <= j < |s.ps| && s.ps[j].state == UNUSED ==> s.ps[j].pid == 0 || s.ps[j].pid in s.aborted
  }

  lemma StepKeepsStale(s: State, step: Step)
    requires Family(s) && Embryos(s.ps) && Stale(s) && Enabled(s, step)
    ensures Stale(Do(s, step))
  {
    var t := Do(s, step);
    hide Do, Family, Embryos, Enabled;
    forall j: nat | j < |t.ps| && t.ps[j].state == UNUSED
      ensures t.ps[j].pid == 0 || t.ps[j].pid in t.aborted
    {
      TableSize(s, step);
      UnusedAfter(s, step, j);
    }
  }

  lemma TableSize(s: State, step: Step)
    requires Enabled(s, step)
    ensures |Do(s, step).ps| == |s.ps|
  {
  }

  lemma {:induction false} RunKeepsStale(s: State, steps: seq<Step>)
    requires Inv(s) && Stale(s) && EnabledRun(s, steps)
    ensures Stale(Run(s, steps))
    decreases |steps|
  {
    hide Do, Family, Embryos, Waiters, Pids, Stale;
    if steps != [] {
      StepKeepsInv(s, steps[0]);
      StepKeepsStale(s, steps[0]);
      RunKeepsStale(Do(s, steps[0]), steps[1..]);
    }
  }

  // In every reachable state a kill of a live process marks that process, wakes it if it
  // sleeps, and touches no other slot.
  lemma KillHits(n: nat, steps: seq<Step>, k: nat, j: nat)
    requires n > 0 && EnabledRun(Boot(n), steps)
    requires var s := Run(Boot(n), steps); k < |s.ps| && j < |s.ps| && s.ps[k].state != UNUSED
    ensures var s := Run(Boot(n), steps);
            var qs := Killed(s.ps, s.ps[k].pid);
            && qs[k].killed && qs[k].state != SLEEPING && qs[k].pid == s.ps[k].pid
            && (s.ps[k].state != SLEEPING ==> qs[k].state == s.ps[k].state)
            && (j != k ==> qs[j] == s.ps[j])
  {
    BootInv(n);
    RunKeepsInv(Boot(n), steps);
    RunKeepsStale(Boot(n), steps);
    var s := Run(Boot(n), steps);
    hide Run, EnabledRun, Family, Embryos, Waiters, Covered, Boot;
    PidIsOne(s, k);
  }

  lemma PidIsOne(s: State, k: nat)
    requires Exclusive(s) && Stale(s) && k < |s.ps| && s.ps[k].state != UNUSED
    ensures FirstPid(s.ps, s.ps[k].pid) == k
  {
    var f := FirstPid(s.ps, s.ps[k].pid);
    assert f < |s.ps| && s.ps[f].pid == s.ps[k].pid;
    assert s.ps[f].state != UNUSED;
  }

  // A killed process stays killed until it has exited and been reaped.
  lemma KilledStays(s: State, step: Step, i: nat)
    requires Inv(s) && Enabled(s, step) && i < |s.ps| && s.ps[i].state != UNUSED && s.ps[i].state != EMBRYO && s.ps[i].killed
    ensures var q := Do(s, step).ps[i];
            q.killed || (q.state == UNUSED && s.ps[i].state == ZOMBIE && step.Wait?)
  {
    hide Inv;
    if step.Exit? {
      ExitExactly(s.ps, step.i, s.init, i);
      hide Exited;
    } else if step.Wait? {
      hide HasChild;
    }
  }

  // --- processes that start killed --------------------------------------------------------

  // No unused slot is marked killed.
  predicate Unmarked(s: State) { forall j :: 0 <= j < |s.ps| && s.ps[j].state == UNUSED ==> !s.ps[j].killed }

  // A kill that finds an unused slot, or a failed fork of an embryo that was killed.
  predicate Marks(s: State, step: Step)
    requires Enabled(s, step)
  {
    || (step.Kill? && var k := FirstPid(s.ps, step.pid); k < |s.ps| && s.ps[k].state == UNUSED)
    || (step.ForkFail? && s.ps[s.ps[step.i].forking.value].killed)
  }

  // These steps, and only these, leave an unused slot marked.
  lemma StepMarks(s: State, step: Step)
    requires Family(s) && Embryos(s.ps) && Unmarked(s) && Enabled(s, step)
    ensures Unmarked(Do(s, step)) <==> !Marks(s, step)
  {
    var t := Do(s, step);
    TableSize(s, step);
    if Marks(s, step) {
      var j := if step.Kill? then FirstPid(s.ps, step.pid) else s.ps[step.i].forking.value;
      assert t.ps[j].state == UNUSED && t.ps[j].killed;
    } else {
      forall j: nat | j < |t.ps| && t.ps[j].state == UNUSED
        ensures !t.ps[j].killed
      {
        UnusedAfter(s, step, j);
        hide Do, Family, Embryos, Enabled, FirstPid;
      }
    }
  }

  // A marked slot stays marked until it is taken, and the process that takes it starts
  // killed.
  lemma MarkStays(s: State, step: Step, j: nat)
    requires Family(s) && Embryos(s.ps) && Enabled(s, step) && j < |s.ps| && s.ps[j].state == UNUSED && s.ps[j].killed
    ensures var t := Do(s, step);
            |t.ps| == |s.ps| && t.ps[j].killed && (t.ps[j].state == UNUSED || t.ps[j].state == EMBRYO)
  {
    UnusedAfter(s, step, j);
    hide Do, Family, Enabled;
  }

  predicate NoMarks(s: State, steps: seq<Step>)
    requires EnabledRun(s, steps)
    decreases |steps|
  {
    steps == [] || (!Marks(s, steps[0]) && NoMarks(Do(s, steps[0]), steps[1..]))
  }

  lemma {:induction false} RunUnmarked(s: State, steps: seq<Step>)
    requires Inv(s) && Unmarked(s) && EnabledRun(s, steps) && NoMarks(s, steps)
    ensures Unmarked(Run(s, steps))
    decreases |steps|
  {
    hide Do, Family, Embryos, Waiters, Pids, Unmarked, Marks;
    if steps != [] {
      StepKeepsInv(s, steps[0]);
      StepMarks(s, steps[0]);
      RunUnmarked(Do(s, steps[0]), steps[1..]);
    }
  }

  // Without such a step, every new process starts unkilled.
  lemma StartsUnkilled(n: nat, steps: seq<Step>, i: nat)
    requires n > 0 && EnabledRun(Boot(n), steps) && NoMarks(Boot(n), steps)
    requires Enabled(Run(Boot(n), steps), ForkAlloc(i))
    ensures var s := Run(Boot(n), steps);
            var t := Do(s, ForkAlloc(i));
            t != s ==> i < |t.ps| && t.ps[i].forking.Some? && t.ps[i].forking.value < |t.ps|
                       && t.ps[t.ps[i].forking.value].state == EMBRYO && !t.ps[t.ps[i].forking.value].killed
  {
    BootInv(n);
    RunUnmarked(Boot(n), steps);
    hide Run, EnabledRun, Boot, NoMarks, FirstUnused;
  }

  // kill(0) is such a step: the next fork's child starts killed.
  lemma KillZero(n: nat)
    requires n > 1
    ensures var steps := [Schedule(0), Kill(0), ForkAlloc(0)];
            && EnabledRun(Boot(n), steps)
            && var t := Run(Boot(n), steps); |t.ps| == n && t.ps[1].state == EMBRYO && t.ps[1].killed
  {
    var s := Boot(n);
    var s1 := Do(s, Schedule(0));
    var s2 := Do(s1, Kill(0));
    assert s1.ps[0].pid == 1 && s1.ps[1].pid == 0;
    assert FirstPid(s1.ps, 0) == 1;
    assert s2.ps[0].state == RUNNING && s2.ps[1].state == UNUSED && s2.ps[1].killed;
    assert FirstUnused(s2.ps) == 1;
    var s3 := Do(s2, ForkAlloc(0));
    assert Run(s2, [ForkAlloc(0)]) == s3;
    var steps := [Schedule(0), Kill(0), ForkAlloc(0)];
    assert steps[1..] == [Kill(0), ForkAlloc(0)] && steps[1..][1..] == [ForkAlloc(0)];
  }
}
