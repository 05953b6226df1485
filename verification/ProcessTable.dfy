/**
 The code of xv6/proc.c that works on the process table in place, with
 ptable.lock held.  Each routine is shown to make the table the one that the
 corresponding step of Processes.dfy describes.
 */
module ProcessTable {
  import opened Processes
  import opened Options

  class PTable {
    const procs: array<Proc>
    const initproc: nat
    var nextpid: nat

    constructor (nproc: nat)
      requires nproc > 0
      ensures fresh(procs) && procs[..] == Boot(nproc).ps && initproc == 0 && nextpid == 2
    {
      var a := new Proc[nproc](_ => Proc(UNUSED, 0, None, NoChan, false, None));
      procs := a;
      initproc, nextpid := 0, 2;
      new;
      procs[0] := Proc(RUNNABLE, 1, None, NoChan, false, None);
    }

    // wakeup1: one pass over the table.
    method Wakeup1(chan: Chan)
      modifies procs
      ensures procs[..] == WakeAll(old(procs[..]), chan)
    {
      for p := 0 to procs.Length
        invariant forall j :: 0 <= j < procs.Length ==>
          procs[j] == if j < p then Awoken(old(procs[j]), chan) else old(procs[j])
      {
        if procs[p].state == SLEEPING && procs[p].chan == chan {
          procs[p] := procs[p].(state := RUNNABLE);
        }
      }
    }

    // The first free slot made an embryo; given back, its pid used up, if there is no
    // memory for a kernel stack.
    method Allocproc(kstack: bool) returns (np: Option<nat>)
      modifies procs, this`nextpid
      ensures var k := FirstUnused(old(procs[..]));
              if k == procs.Length then np.None? && procs[..] == old(procs[..]) && nextpid == old(nextpid)
              else
                && np == (if kstack then Some(k) else None) && nextpid == old(nextpid) + 1
                && procs[..] == old(procs[..])[k := old(procs[k]).(state := if kstack then EMBRYO else UNUSED, pid := old(nextpid))]
    {
      for p := 0 to procs.Length
        invariant forall j :: 0 <= j < p ==> procs[j].state != UNUSED
        invariant procs[..] == old(procs[..]) && nextpid == old(nextpid)
      {
        if procs[p].state == UNUSED {
          assert FirstUnused(procs[..]) == p;
          procs[p] := procs[p].(state := EMBRYO, pid := nextpid);
          nextpid := nextpid + 1;
          if !kstack {
            procs[p] := procs[p].(state := UNUSED);
            return None;
          }
          return Some(p);
        }
      }
      assert FirstUnused(procs[..]) == procs.Length;
      np := None;
    }

    // Exit the current process; init exiting panics.
    method Exit(i: nat) returns (panic: bool)
      requires i < procs.Length && initproc < procs.Length
      modifies procs
      ensures panic <==> i == initproc
      ensures procs[..] == if panic then old(procs[..]) else Exited(old(procs[..]), i, initproc)
    {
      if i == initproc {
        return true;
      }
      Wakeup1(ChanOf(procs[i].parent));
      ghost var w := procs[..];
      ghost var seen := false;
      for p := 0 to procs.Length
        invariant seen <==> exists j :: 0 <= j < p && ZombieChild(w[j], i)
        invariant forall j :: 0 <= j < procs.Length ==>
          procs[j] == Inherited(if j < p then Adopted(w[j], i, initproc) else w[j], seen, initproc)
      {
        if procs[p].parent == Some(i) {
          procs[p] := procs[p].(parent := Some(initproc));
          if procs[p].state == ZOMBIE {
            Wakeup1(OnProc(initproc));
            seen := true;
          }
        }
      }
      procs[i] := procs[i].(state := ZOMBIE);
      ExitLoop(old(procs[..]), w, i, seen);
      panic := false;
    }

    // One pass of wait's scan.
    method WaitOnce(i: nat) returns (r: WaitResult)
      requires i < procs.Length
      modifies procs
      ensures (procs[..], r) == Waited(old(procs[..]), i)
    {
      var havekids := false;
      for p := 0 to procs.Length
        invariant procs[..] == old(procs[..])
        invariant havekids <==> exists j :: 0 <= j < p && procs[j].parent == Some(i)
        invariant forall j :: 0 <= j < p ==> !ZombieChild(procs[j], i)
      {
        if procs[p].parent != Some(i) {
          continue;
        }
        havekids := true;
        if procs[p].state == ZOMBIE {
          assert FirstZombie(procs[..], i) == p;
          var pid := procs[p].pid;
          procs[p] := procs[p].(pid := 0, parent := None, killed := false, state := UNUSED);
          return Reaped(pid);
        }
      }
      assert FirstZombie(procs[..], i) == procs.Length;
      assert havekids <==> HasChild(procs[..], i);
      if !havekids || procs[i].killed {
        return NoChildren;
      }
      procs[i] := procs[i].(chan := OnProc(i), state := SLEEPING);
      r := Asleep;
    }

    // kill: a flag, and an end to any sleep.
    method Kill(pid: nat) returns (r: int)
      modifies procs
      ensures procs[..] == Killed(old(procs[..]), pid)
      ensures r == if FirstPid(old(procs[..]), pid) < procs.Length then 0 else -1
    {
      for p := 0 to procs.Length
        invariant procs[..] == old(procs[..])
        invariant forall j :: 0 <= j < p ==> procs[j].pid != pid
      {
        if procs[p].pid == pid {
          assert FirstPid(procs[..], pid) == p;
          procs[p] := procs[p].(killed := true);
          if procs[p].state == SLEEPING {
            procs[p] := procs[p].(state := RUNNABLE);
          }
          return 0;
        }
      }
      assert FirstPid(procs[..], pid) == procs.Length;
      r := -1;
    }
  }

  // A slot after init may have been woken for an inherited zombie.
  function Inherited(p: Proc, seen: bool, init: nat): (r: Proc)
  {
    if seen then Awoken(p, OnProc(init)) else p
  }

  // What exit's loop has seen is what Exited asks about.
  lemma ExitLoop(ps: Table, w: Table, i: nat, seen: bool)
    requires i < |ps| && w == WakeAll(ps, ChanOf(ps[i].parent))
    requires seen <==> exists j :: 0 <= j < |ps| && ZombieChild(w[j], i)
    ensures seen <==> HasZombie(ps, i)
  {
    if HasZombie(ps, i) {
      var j :| 0 <= j < |ps| && ZombieChild(ps[j], i);
      assert ZombieChild(w[j], i);
    }
    if seen {
      var j :| 0 <= j < |ps| && ZombieChild(w[j], i);
      assert ZombieChild(ps[j], i);
    }
  }
}
