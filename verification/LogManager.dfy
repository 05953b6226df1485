/**
 The code of xv6/log.c over an abstract block cache: disk holds what has been
 written, dirty holds the buffers pinned by B_DIRTY.  Each routine is shown to
 issue exactly the block writes that Log.dfy reasons about and to take exactly
 the locked steps that LogAdmission.dfy reasons about.
 */
module LogManager {
  import opened Basics
  import opened Blocks
  import opened Log
  import opened Options
  import A = LogAdmission

  class Manager {
    const g: Geometry
    var disk: Disk
    var dirty: map<nat, Block>
    var lh: seq<nat>
    var outstanding: int
    var committing: bool
    var asleep: nat             // processes sleeping on &log
    ghost var ops: seq<nat>     // entries appended by each active call
    ghost var passed: seq<Option<nat>> // the block each has tested for and not yet recorded
    ghost var trace: seq<Write> // every block write so far, in order

    // What bread returns for block b: the cached copy if pinned, else the disk's.
    function View(b: nat): (r: Block)
      requires b < |disk|
      reads this
    {
      if b in dirty then dirty[b] else disk[b]
    }

    ghost predicate Valid()
      reads this
    {
      && g.Fits(disk)
      && Loggable(g, |disk|, lh)
      && (forall b :: b in dirty ==> b < |disk| && !g.InLog(b))
    }

    function Pinned(): (vals: seq<Block>)
      requires forall i :: 0 <= i < |lh| ==> lh[i] < |disk|
      reads this
    {
      seq(|lh|, i requires 0 <= i < |lh| reads this requires lh[i] < |disk| => View(lh[i]))
    }

    ghost function Admission(): A.State
      reads this
    {
      A.State(outstanding, committing, lh, ops, passed, asleep)
    }

    method Bwrite(b: nat, data: Block)
      requires b < |disk|
      modifies this`disk, this`dirty, this`trace
      ensures disk == old(disk)[b := data]
      ensures dirty == old(dirty) - {b}
      ensures trace == old(trace) + [Write(b, data)]
    {
      disk := disk[b := data];
      dirty := dirty - {b};
      trace := trace + [Write(b, data)];
    }

    // Copy modified blocks from the cache to the log.
    method WriteLog()
      requires Valid()
      modifies this`disk, this`dirty, this`trace
      ensures InRange(old(disk), LogWrites(g, old(Pinned())))
      ensures trace == old(trace) + LogWrites(g, old(Pinned()))
      ensures disk == Apply(old(disk), LogWrites(g, old(Pinned())))
      ensures dirty == old(dirty)
    {
      hide Apply;
      ApplyNone(disk);
      ghost var vals := Pinned();
      ghost var ws := LogWrites(g, vals);
      for tail := 0 to |lh|
        invariant dirty == old(dirty) && |disk| == |old(disk)|
        invariant trace == old(trace) + ws[..tail]
        invariant disk == Apply(old(disk), ws[..tail])
        invariant forall b: nat :: b < |disk| && !g.InLog(b) ==> disk[b] == old(disk[b])
      {
        var from := View(lh[tail]);
        Bwrite(g.start + tail + 1, from);
        NextWrite(old(trace), old(disk), ws, tail);
      }
      assert ws[..|lh|] == ws;
    }

    // Write the in-memory header to disk.
    method WriteHead()
      requires g.Fits(disk) && Loggable(g, |disk|, lh) && g.start !in dirty
      modifies this`disk, this`dirty, this`trace
      ensures disk == old(disk)[g.start := PutHead(old(disk)[g.start], lh)]
      ensures trace == old(trace) + [Write(g.start, PutHead(old(disk)[g.start], lh))]
      ensures dirty == old(dirty)
    {
      var hb := PutWord(View(g.start), 0, |lh|);
      ghost var hb0 := hb;
      for i := 0 to |lh|
        invariant hb == PutEntries(hb0, lh, i)
      {
        hb := PutWord(hb, 1 + i, lh[i]);
      }
      Bwrite(g.start, hb);
    }

    // Copy committed blocks from the log to their home locations.
    method InstallTrans()
      requires Valid()
      modifies this`disk, this`dirty, this`trace
      ensures var ws := InstallWrites(lh, LogBlocks(g, old(disk), |lh|));
              && InRange(old(disk), ws)
              && trace == old(trace) + ws
              && disk == Apply(old(disk), ws)
      ensures dirty == old(dirty) - Elements(lh)
    {
      hide Apply, Elements, Distinct;
      ApplyNone(disk);
      ghost var ws := InstallWrites(lh, LogBlocks(g, disk, |lh|));
      for tail := 0 to |lh|
        invariant |disk| == |old(disk)|
        invariant dirty == old(dirty) - Elements(lh[..tail])
        invariant trace == old(trace) + ws[..tail]
        invariant disk == Apply(old(disk), ws[..tail])
        invariant forall b: nat :: b < |disk| && g.InLog(b) ==> disk[b] == old(disk[b])
      {
        var lbuf := View(g.start + tail + 1);
        Bwrite(lh[tail], lbuf);
        RemoveSnoc(old(dirty), lh, tail);
        NextWrite(old(trace), old(disk), ws, tail);
      }
      assert ws[..|lh|] == ws && lh[..|lh|] == lh;
    }

    // Read the log header from disk into the in-memory header.
    method ReadHead()
      requires g.Fits(disk) && HeadOk(disk[g.start]) && g.start !in dirty
      modifies this`lh
      ensures lh == GetHead(disk[g.start])
    {
      var hb := View(g.start);
      var n: int := GetWord(hb, 0);
      lh := [];
      for i := 0 to n
        invariant lh == GetHead(hb)[..i]
      {
        lh := lh + [GetWord(hb, 1 + i)];
      }
    }

    // After a crash nothing is cached.  Recovery issues Log.RecoverWrites, so it
    // leaves the disk Log.Recover describes.
    method RecoverFromLog()
      requires Recoverable(g, disk) && dirty == map[]
      modifies this`disk, this`dirty, this`trace, this`lh
      ensures InRange(old(disk), RecoverWrites(g, old(disk)))
      ensures trace == old(trace) + RecoverWrites(g, old(disk))
      ensures disk == Apply(old(disk), RecoverWrites(g, old(disk))) == Recover(g, old(disk))
      ensures lh == [] && dirty == map[] && Idle(g, disk)
    {
      hide *;
      ghost var none: map<nat, Block> := map[];
      RecoverParts(g, disk);
      RecoverSplit(g, disk);
      ReadHead();
      ValidNow();
      InstallTrans();
      assert none - Elements(lh) == none;
      lh := [];
      NoneLoggable(g, disk);
      WriteHead();
    }

    lemma ValidNow()
      requires g.Fits(disk) && Loggable(g, |disk|, lh) && dirty == map[]
      ensures Valid()
    {
    }

    // The four phases of commit(), for a log that is not empty.
    method CommitPhases()
      requires Valid() && Idle(g, disk) && lh != []
      modifies this`disk, this`dirty, this`trace, this`lh
      ensures ValidTxn(g, |old(disk)|, Txn(old(lh), old(Pinned())))
      ensures var ws := CommitWrites(g, old(disk), Txn(old(lh), old(Pinned())));
              && InRange(old(disk), ws)
              && trace == old(trace) + ws
              && disk == Apply(old(disk), ws)
      ensures lh == [] && dirty == old(dirty) - Elements(old(lh))
    {
      hide PutHead, GetHead, HeadOk, Apply, Elements;
      ghost var t := Txn(lh, Pinned());
      ghost var d := disk;
      ghost var toHead, c := CommitPoint(g, d, t);
      ghost var rest := RecoverWrites(g, c);
      RecoverSplit(g, c);
      ApplyConcat(d, toHead, rest);
      CrashBeforeHead(g, d, t, |lh|);
      assert LogWrites(g, t.vals)[..|lh|] == LogWrites(g, t.vals) == toHead[..|lh|];
      WriteLog();
      WriteHead();
      assert disk == c;
      InstallTrans();
      lh := [];
      WriteHead();
      AppendParts(old(trace), LogWrites(g, t.vals), toHead, InstallWrites(t.lh, t.vals), rest);
    }

    // Commit the logged blocks: Log.CommitWrites, in that order.  LogAdmission.FitsExactly
    // says when every list that gets here fits the log, as Valid asks.
    method Commit()
      requires Valid() && Idle(g, disk)
      modifies this`disk, this`dirty, this`trace, this`lh
      ensures ValidTxn(g, |old(disk)|, Txn(old(lh), old(Pinned())))
      ensures var ws := CommitWrites(g, old(disk), Txn(old(lh), old(Pinned())));
              && InRange(old(disk), ws)
              && trace == old(trace) + ws
              && disk == Apply(old(disk), ws)
      ensures lh == [] && dirty == old(dirty) - Elements(old(lh)) && |disk| == old(|disk|)
      ensures Valid() && Idle(g, disk)
      // readers of the cache see no difference
      ensures forall b: nat :: b < |disk| && !g.InLog(b) ==> View(b) == old(View(b))
    {
      ghost var t := Txn(lh, Pinned());
      CommitComplete(g, disk, t);
      if |lh| > 0 {
        CommitPhases();
      }
      forall b: nat | b < |disk| && !g.InLog(b)
        ensures View(b) == old(View(b))
      {
        if b in t.lh {
          var i :| 0 <= i < |t.lh| && t.lh[i] == b;
          assert disk[t.lh[i]] == t.vals[i];
        }
      }
    }

    // log_write before it takes the lock: the two tests.
    method LogTest(b: nat, ghost op: nat) returns (panic: bool)
      requires A.Sensible(Admission(), A.Test(op, b))
      modifies this`passed
      ensures panic <==> A.Do(g.size, old(Admission()), A.Test(op, b)).Panic?
      ensures panic <==> |lh| >= LOGSIZE || |lh| >= g.size - 1 || outstanding < 1
      ensures if panic then passed == old(passed) else Admission() == A.Do(g.size, old(Admission()), A.Test(op, b)).s
    {
      if |lh| >= LOGSIZE || |lh| >= g.size - 1 {
        return true;
      }
      if outstanding < 1 {
        return true;
      }
      passed := passed[op := Some(b)];
      panic := false;
    }

    // log_write with the lock held: record the block number, absorbing repeats, and pin
    // the buffer.  The list may have grown since the test.
    method LogAppend(b: nat, data: Block, ghost op: nat)
      requires Valid() && b < |disk| && !g.InLog(b)
      requires A.Sensible(Admission(), A.Append(op)) && passed[op] == Some(b)
      modifies this`lh, this`dirty, this`ops, this`passed
      ensures Admission() == A.Do(g.size, old(Admission()), A.Append(op)).s
      ensures dirty == old(dirty)[b := data] && b in lh
      ensures Valid() <==> b in old(lh) || |old(lh)| < Min(LOGSIZE, g.size - 1)
    {
      var i := 0;
      while i < |lh| && lh[i] != b
        invariant 0 <= i <= |lh|
        invariant forall j :: 0 <= j < i ==> lh[j] != b
      {
        i := i + 1;
      }
      ops := if b in lh then ops else ops[op := ops[op] + 1];
      if i == |lh| {
        lh := lh + [b];
      } else {
        lh := lh[i := b];
      }
      dirty := dirty[b := data];
      passed := passed[op := None];
    }

    // The whole of log_write, when no other call comes between the tests and the lock.
    method LogWrite(b: nat, data: Block, ghost op: nat) returns (panic: bool)
      requires Valid() && b < |disk| && !g.InLog(b) && A.Sensible(Admission(), A.Test(op, b))
      modifies this`lh, this`dirty, this`ops, this`passed
      ensures panic <==> |old(lh)| >= LOGSIZE || |old(lh)| >= g.size - 1 || old(outstanding) < 1
      ensures panic ==> lh == old(lh) && dirty == old(dirty) && ops == old(ops) && passed == old(passed)
      ensures !panic ==>
        && Admission() == A.Do(g.size, A.Do(g.size, old(Admission()), A.Test(op, b)).s, A.Append(op)).s
        && dirty == old(dirty)[b := data] && b in lh
      ensures Valid()
    {
      panic := LogTest(b, op);
      if !panic {
        LogAppend(b, data, op);
      }
    }

    // One turn of begin_op's loop, with log.lock held.
    method BeginOp() returns (admitted: bool)
      requires A.Sensible(Admission(), A.BeginOp)
      modifies this`outstanding, this`asleep, this`ops, this`passed
      ensures Admission() == A.Do(g.size, old(Admission()), A.BeginOp).s
      ensures admitted <==> !A.MustWait(old(Admission()))
    {
      if committing {
        asleep := asleep + 1;
        admitted := false;
      } else if |lh| + (outstanding + 1) * MAXOPBLOCKS > LOGSIZE {
        asleep := asleep + 1;
        admitted := false;
      } else {
        outstanding := outstanding + 1;
        ops, passed := ops + [0], passed + [None];
        admitted := true;
      }
    }

    // The first critical section of end_op.
    method EndOp(ghost op: nat) returns (panic: bool, doCommit: bool)
      requires A.Sensible(Admission(), A.EndOp(op))
      modifies this`outstanding, this`committing, this`asleep, this`ops, this`passed
      ensures panic <==> A.Do(g.size, old(Admission()), A.EndOp(op)).Panic?
      ensures !panic ==> Admission() == A.Do(g.size, old(Admission()), A.EndOp(op)).s
      ensures !panic ==> (doCommit <==> committing)
    {
      outstanding := outstanding - 1;
      doCommit := false;
      if committing {
        return true, false;
      }
      ops, passed := ops[..op] + ops[op+1..], passed[..op] + passed[op+1..];
      if outstanding == 0 {
        doCommit := true;
        committing := true;
      } else {
        asleep := 0;
      }
      panic := false;
    }

    // The rest of end_op for the call that drew the commit: commit, then let the
    // waiting calls in.
    method FinishCommit()
      requires Valid() && Idle(g, disk) && committing && A.Sensible(Admission(), A.CommitDone)
      modifies this`disk, this`dirty, this`trace, this`lh, this`committing, this`asleep
      ensures Admission() == A.Do(g.size, old(Admission()), A.CommitDone).s
      ensures Valid() && Idle(g, disk) && |disk| == old(|disk|)
      ensures forall b: nat :: b < |disk| && !g.InLog(b) ==> View(b) == old(View(b))
    {
      Commit();
      committing := false;
      asleep := 0;
    }
  }

  lemma RemoveSnoc(m: map<nat, Block>, s: seq<nat>, i: nat)
    requires i < |s|
    ensures (m - Elements(s[..i])) - {s[i]} == m - Elements(s[..i+1])
  {
    assert s[..i+1] == s[..i] + [s[i]];
    assert Elements(s[..i+1]) == Elements(s[..i]) + {s[i]};
  }

  lemma AppendParts(before: seq<Write>, log: seq<Write>, toHead: seq<Write>, ins: seq<Write>, rest: seq<Write>)
    requires |toHead| > 0 && |rest| > 0 && toHead[..|toHead|-1] == log && rest[..|rest|-1] == ins
    ensures ((before + log + [toHead[|toHead|-1]]) + ins) + [rest[|rest|-1]] == before + (toHead + rest)
  {
  }

  lemma ApplyNone(d: Disk)
    ensures Apply(d, []) == d
  {
  }

  // The state after one more of the writes ws.
  lemma NextWrite(before: seq<Write>, d: Disk, ws: seq<Write>, k: nat)
    requires k < |ws| && InRange(d, ws)
    ensures Apply(d, ws[..k+1]) == Apply(d, ws[..k])[ws[k].bno := ws[k].data]
    ensures before + ws[..k+1] == (before + ws[..k]) + [ws[k]]
  {
    assert ws[..k+1][..k] == ws[..k];
  }

  // A recovery, cut before its last write.
  lemma RecoverParts(g: Geometry, d: Disk)
    requires Recoverable(g, d)
    ensures g.Fits(d) && g.start < |d| && HeadOk(d[g.start]) && Loggable(g, |d|, GetHead(d[g.start]))
    ensures forall e: Disk :: |e| == |d| ==> g.Fits(e)
  {
  }

  lemma NoneLoggable(g: Geometry, d: Disk)
    requires g.Fits(d)
    ensures Loggable(g, |d|, [])
  {
  }

  lemma RecoverSplit(g: Geometry, d: Disk)
    requires Recoverable(g, d)
    ensures var lh := GetHead(d[g.start]);
            var ins := InstallWrites(lh, LogBlocks(g, d, |lh|));
            && InRange(d, ins) && InRange(d, RecoverWrites(g, d))
            && RecoverWrites(g, d) == ins + [Write(g.start, PutHead(d[g.start], []))]
            && Apply(d, ins)[g.start] == d[g.start]
            && Apply(d, RecoverWrites(g, d)) == Apply(d, ins)[g.start := PutHead(d[g.start], [])]
    ensures Apply(d, RecoverWrites(g, d)) == Recover(g, d) && Idle(g, Recover(g, d))
  {
    var lh := GetHead(d[g.start]);
    var t := Txn(lh, LogBlocks(g, d, |lh|));
    var ins, ws := InstallWrites(t.lh, t.vals), RecoverWrites(g, d);
    CrashInRecovery(g, d, t, |lh| + 1);
    assert ws[..|ws|] == ws && ws[..|ws|-1] == ins;
    EffectPointwise(g, d, t);
  }
}
