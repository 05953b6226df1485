/**
 Admission control of the log (begin_op, log_write, end_op of xv6/log.c) as a
 state machine over its lock-protected steps, taken in any interleaving.  log_write
 is two steps: it tests the length of the list before it takes the lock, and appends
 with the lock held.

 The space reservation keeps the list from overflowing LOGSIZE, but log_write
 also refuses at log.size-1 and makes that test before looking for an entry to
 absorb into.  ExactAdmission says for which log sizes and per-operation write
 counts the "too big a transaction" panic is unreachable, and FitsExactly for which
 the list never outgrows the log on disk, although calls can append between
 another's test and its append.
 */
module LogAdmission {
  import opened Basics
  import opened Log
  import opened Options

  // ops[i] is how many log entries the i-th active system call has appended; passed[i]
  // the block, if any, for which it is past log_write's tests and has yet to get the
  // lock; asleep counts the callers of begin_op waiting for log space.
  datatype State = State(outstanding: int, committing: bool, lh: seq<nat>, ops: seq<nat>, passed: seq<Option<nat>>, asleep: nat)

  datatype Step = BeginOp | Test(op: nat, bno: nat) | Append(op: nat) | EndOp(op: nat) | CommitDone

  datatype Reason = TooBig | OutsideTrans | Committing

  datatype Outcome = Next(s: State) | Panic(why: Reason)

  function Init(): (s: State) { State(0, false, [], [], [], 0) }

  // begin_op must sleep: a commit is running or this op might exhaust the log.
  predicate MustWait(s: State) {
    s.committing || |s.lh| + (s.outstanding + 1) * MAXOPBLOCKS > LOGSIZE
  }

  function Appended(lh: seq<nat>, bno: nat): (r: seq<nat>) {
    if bno in lh then lh else lh + [bno]
  }

  // The call the step speaks of is there, and where it should be.
  predicate Sensible(s: State, step: Step)
  {
    && |s.passed| == |s.ops|
    && match step
       case Test(op, _) => s.outstanding >= 1 ==> op < |s.ops|
       case Append(op) => op < |s.ops| && s.passed[op].Some?
       case EndOp(op) => op < |s.ops|
       case _ => true
  }

  function Do(size: int, s: State, step: Step): (o: Outcome)
    requires Sensible(s, step)
  {
    match step
    case BeginOp =>
      if MustWait(s) then Next(s.(asleep := s.asleep + 1))
      else Next(s.(outstanding := s.outstanding + 1, ops := s.ops + [0], passed := s.passed + [None]))
    case Test(op, bno) =>
      if |s.lh| >= LOGSIZE || |s.lh| >= size - 1 then Panic(TooBig)
      else if s.outstanding < 1 then Panic(OutsideTrans)
      else Next(s.(passed := s.passed[op := Some(bno)]))
    case Append(op) =>
      var bno := s.passed[op].value;
      Next(s.(lh := Appended(s.lh, bno), passed := s.passed[op := None],
              ops := if bno in s.lh then s.ops else s.ops[op := s.ops[op] + 1]))
    case EndOp(op) =>
      if s.committing then Panic(Committing)
      else
        var rest, past := s.ops[..op] + s.ops[op+1..], s.passed[..op] + s.passed[op+1..];
        if s.outstanding == 1 then Next(s.(outstanding := 0, ops := rest, passed := past, committing := true))
        else Next(s.(outstanding := s.outstanding - 1, ops := rest, passed := past, asleep := 0))
    case CommitDone =>
      Next(s.(committing := false, lh := [], asleep := 0))
  }

  // What callers promise: only active calls write or end, each appends at most m
  // entries, and only the committer finishes a commit.
  predicate Allowed(m: nat, s: State, step: Step)
  {
    && |s.passed| == |s.ops|
    && match step
       case BeginOp => true
       case Test(op, bno) => op < |s.ops| && s.passed[op].None? && (bno in s.lh || s.ops[op] < m)
       case Append(op) => op < |s.ops| && s.passed[op].Some?
       case EndOp(op) => op < |s.ops| && s.passed[op].None?
       case CommitDone => s.committing
  }

  predicate AllowedRun(size: int, m: nat, s: State, steps: seq<Step>)
    decreases |steps|
  {
    steps == [] ||
    (Allowed(m, s, steps[0]) &&
     match Do(size, s, steps[0])
     case Next(s') => AllowedRun(size, m, s', steps[1..])
     case Panic(_) => |steps| == 1)
  }

  function Final(size: int, m: nat, s: State, steps: seq<Step>): (o: Outcome)
    requires AllowedRun(size, m, s, steps)
    decreases |steps|
  {
    if steps == [] then Next(s)
    else
      match Do(size, s, steps[0])
      case Next(s') => Final(size, m, s', steps[1..])
      case Panic(w) => Panic(w)
  }

  // --- the invariant of every run --------------------------------------------

  // Entries the active calls may still append, at m per call.
  function Unspent(m: nat, ops: seq<nat>): (u: int)
  {
    if ops == [] then 0 else m - ops[0] + Unspent(m, ops[1..])
  }

  predicate Inv(m: nat, s: State)
  {
    && s.outstanding == |s.ops| == |s.passed|
    && (s.committing ==> s.outstanding == 0)
    && (s.outstanding == 0 && !s.committing ==> s.lh == [])
    && Distinct(s.lh)
    && (forall i :: 0 <= i < |s.ops| ==> s.ops[i] <= m)
    && (forall i :: 0 <= i < |s.ops| && s.passed[i].Some? ==> s.passed[i].value in s.lh || s.ops[i] < m)
    // the space reserved by begin_op is never overdrawn
    && |s.lh| + Unspent(MAXOPBLOCKS, s.ops) <= LOGSIZE
    // and what m entries per call can actually fill
    && |s.lh| + Unspent(m, s.ops) <= MAXOPBLOCKS + 2 * m
    // no call sleeps for space that is there, and a sleeper has someone to wake it
    && (s.asleep > 0 ==> MustWait(s) && (s.committing || s.outstanding > 0))
  }

  lemma {:induction false} UnspentSnoc(m: nat, ops: seq<nat>, x: nat)
    ensures Unspent(m, ops + [x]) == Unspent(m, ops) + m - x
  {
    if ops != [] {
      UnspentSnoc(m, ops[1..], x);
      assert (ops + [x])[1..] == ops[1..] + [x];
    }
  }

  lemma {:induction false} UnspentUpdate(m: nat, ops: seq<nat>, i: nat, x: nat)
    requires i < |ops|
    ensures Unspent(m, ops[i := x]) == Unspent(m, ops) + ops[i] - x
  {
    if i > 0 {
      UnspentUpdate(m, ops[1..], i - 1, x);
      assert ops[i := x][1..] == ops[1..][i-1 := x];
    } else {
      assert ops[i := x][1..] == ops[1..];
    }
  }

  lemma {:induction false} UnspentRemove(m: nat, ops: seq<nat>, i: nat)
    requires i < |ops|
    ensures Unspent(m, ops[..i] + ops[i+1..]) == Unspent(m, ops) - m + ops[i]
  {
    if i > 0 {
      UnspentRemove(m, ops[1..], i - 1);
      assert (ops[..i] + ops[i+1..])[1..] == ops[1..][..i-1] + ops[1..][i..];
    } else {
      assert ops[..i] + ops[i+1..] == ops[1..];
    }
  }

  lemma {:induction false} UnspentRange(m: nat, ops: seq<nat>)
    requires forall i :: 0 <= i < |ops| ==> ops[i] <= m
    ensures 0 <= Unspent(m, ops) <= m * |ops|
  {
    if ops != [] { UnspentRange(m, ops[1..]); }
  }

  lemma BeginKeepsInv(m: nat, s: State)
    requires m <= MAXOPBLOCKS && Inv(m, s) && !MustWait(s)
    ensures Inv(m, s.(outstanding := s.outstanding + 1, ops := s.ops + [0], passed := s.passed + [None]))
  {
    UnspentSnoc(m, s.ops, 0);
    UnspentSnoc(MAXOPBLOCKS, s.ops, 0);
    UnspentRange(m, s.ops);
    UnspentRange(MAXOPBLOCKS, s.ops);
    assert |s.ops| == 0 || |s.ops| == 1 || |s.ops| == 2;
    if |s.ops| == 2 { assert m * |s.ops| == 2 * m; }
  }

  lemma EndKeepsInv(m: nat, s: State, op: nat)
    requires m <= MAXOPBLOCKS && Inv(m, s) && Allowed(m, s, EndOp(op))
    ensures Inv(m, Do(0, s, EndOp(op)).s)
  {
    UnspentRemove(m, s.ops, op);
    UnspentRemove(MAXOPBLOCKS, s.ops, op);
    if |s.ops| == 1 { assert s.ops[..op] + s.ops[op+1..] == []; }
  }

  lemma AppendKeepsInv(m: nat, s: State, op: nat)
    requires m <= MAXOPBLOCKS && Inv(m, s) && Allowed(m, s, Append(op))
    ensures Inv(m, Do(0, s, Append(op)).s)
  {
    UnspentUpdate(m, s.ops, op, s.ops[op] + 1);
    UnspentUpdate(MAXOPBLOCKS, s.ops, op, s.ops[op] + 1);
    hide Unspent;
  }

  // Every allowed step keeps the invariant, and can only panic as "too big".
  lemma StepKeepsInv(size: int, m: nat, s: State, step: Step)
    requires m <= MAXOPBLOCKS && Inv(m, s) && Allowed(m, s, step)
    ensures match Do(size, s, step)
            case Next(s') => Inv(m, s')
            case Panic(w) => w == TooBig && step.Test? && (|s.lh| >= LOGSIZE || |s.lh| >= size - 1)
  {
    match step {
      case BeginOp =>
        if !MustWait(s) { BeginKeepsInv(m, s); }
      case Test(op, bno) =>
        hide Unspent;
      case Append(op) =>
        AppendKeepsInv(m, s, op);
      case EndOp(op) =>
        EndKeepsInv(m, s, op);
      case CommitDone =>
    }
  }

  // In every interleaving of allowed calls the invariant holds at the end, the list is
  // no longer than its array, and "log.committing" and "log_write outside of trans" are
  // unreachable.
  lemma {:induction false} RunKeepsInv(size: int, m: nat, s: State, steps: seq<Step>)
    requires m <= MAXOPBLOCKS && Inv(m, s) && AllowedRun(size, m, s, steps)
    ensures match Final(size, m, s, steps)
            case Next(s') => Inv(m, s') && |s'.lh| <= LOGSIZE && |s'.lh| <= MAXOPBLOCKS + 2 * m
            case Panic(w) => w == TooBig && MAXOPBLOCKS + 2 * m >= Min(LOGSIZE, size - 1)
    decreases |steps|
  {
    UnspentRange(m, s.ops);
    UnspentRange(MAXOPBLOCKS, s.ops);
    if steps != [] {
      StepKeepsInv(size, m, s, steps[0]);
      match Do(size, s, steps[0])
      case Next(s') => RunKeepsInv(size, m, s', steps[1..]);
      case Panic(_) =>
    }
  }

  // --- the exact condition ------------------------------------------------------

  ghost predicate NeverPanics(size: int, m: nat)
  {
    forall steps :: AllowedRun(size, m, Init(), steps) ==> Final(size, m, Init(), steps).Next?
  }

  // A run extended by one more allowed step.
  lemma {:induction false} RunSnoc(size: int, m: nat, s: State, run: seq<Step>, step: Step)
    requires AllowedRun(size, m, s, run) && Final(size, m, s, run).Next?
    requires Allowed(m, Final(size, m, s, run).s, step)
    ensures AllowedRun(size, m, s, run + [step])
    ensures Final(size, m, s, run + [step]) == Do(size, Final(size, m, s, run).s, step)
    decreases |run|
  {
    if run == [] {
      assert run + [step] == [step] && [step][1..] == [];
    } else {
      RunSnoc(size, m, Do(size, s, run[0]).s, run[1..], step);
      assert (run + [step])[1..] == run[1..] + [step];
    }
  }

  // run takes a fresh log to t without panicking
  predicate Reaches(size: int, m: nat, run: seq<Step>, t: State) {
    AllowedRun(size, m, Init(), run) && Final(size, m, Init(), run) == Next(t)
  }

  predicate Fresh(s: State, bno: nat) { forall i :: 0 <= i < |s.lh| ==> s.lh[i] < bno }

  predicate Settled(s: State) { |s.passed| == |s.ops| && forall i :: 0 <= i < |s.passed| ==> s.passed[i].None? }

  // Call op tests and appends one new block.
  lemma WriteRun(size: int, m: nat, pre: seq<Step>, s: State, op: nat, bno: nat) returns (s1: State, s2: State)
    requires Reaches(size, m, pre, s)
    requires s.outstanding > 0 && Settled(s) && op < |s.ops| && s.ops[op] < m && bno !in s.lh && |s.lh| < Min(LOGSIZE, size - 1)
    ensures Reaches(size, m, pre + [Test(op, bno)] + [Append(op)], s2) && Settled(s2)
    ensures s2 == s.(lh := s.lh + [bno], ops := s.ops[op := s.ops[op] + 1], passed := s2.passed)
  {
    RunSnoc(size, m, Init(), pre, Test(op, bno));
    s1 := Do(size, s, Test(op, bno)).s;
    RunSnoc(size, m, Init(), pre + [Test(op, bno)], Append(op));
    s2 := Do(size, s1, Append(op)).s;
  }

  // Call op appends k new blocks, when the log has room for them.
  lemma {:induction false} AppendRun(size: int, m: nat, pre: seq<Step>, s: State, op: nat, bno: nat, k: nat)
    returns (run: seq<Step>, t: State)
    requires Reaches(size, m, pre, s)
    requires s.outstanding > 0 && Settled(s) && op < |s.ops| && s.ops[op] + k <= m
    requires Fresh(s, bno) && |s.lh| + k <= Min(LOGSIZE, size - 1)
    ensures Reaches(size, m, run, t)
    ensures t.outstanding == s.outstanding && t.committing == s.committing && Settled(t)
    ensures t.ops == s.ops[op := s.ops[op] + k] && |t.lh| == |s.lh| + k && Fresh(t, bno + k)
    decreases k
  {
    if k == 0 {
      run, t := pre, s;
    } else {
      assert bno !in s.lh;
      var s1, s2 := WriteRun(size, m, pre, s, op, bno);
      run, t := AppendRun(size, m, pre + [Test(op, bno)] + [Append(op)], s2, op, bno + 1, k - 1);
    }
  }

  // While call 0 stays open, short calls can fill the log to any n <= MAXOPBLOCKS.
  lemma {:induction false} FillRun(size: int, m: nat, n: nat) returns (run: seq<Step>, t: State)
    requires 1 <= m && n <= MAXOPBLOCKS && n <= Min(LOGSIZE, size - 1)
    ensures Reaches(size, m, run, t)
    ensures t.outstanding == 1 && !t.committing && t.ops == [0] && |t.lh| == n && Fresh(t, n) && Settled(t)
    decreases n
  {
    if n == 0 {
      RunSnoc(size, m, Init(), [], BeginOp);
      run, t := [] + [BeginOp], Do(size, Init(), BeginOp).s;
    } else {
      run, t := FillRun(size, m, n - 1);
      RunSnoc(size, m, Init(), run, BeginOp);
      run, t := run + [BeginOp], Do(size, t, BeginOp).s;
      run, t := AppendRun(size, m, run, t, 1, n - 1, 1);
      RunSnoc(size, m, Init(), run, EndOp(1));
      run, t := run + [EndOp(1)], Do(size, t, EndOp(1)).s;
    }
  }

  // Any log length up to MAXOPBLOCKS + 2m is reached with a call still open.
  lemma ReachRun(size: int, m: nat, n: nat) returns (run: seq<Step>, t: State)
    requires 1 <= m <= MAXOPBLOCKS && n <= MAXOPBLOCKS + 2 * m && n <= Min(LOGSIZE, size - 1)
    ensures Reaches(size, m, run, t)
    ensures t.ops != [] && |t.lh| == n && (n == 0 ==> t.ops[0] < m) && Settled(t)
  {
    var base := if n <= MAXOPBLOCKS then n else MAXOPBLOCKS;
    var k1 := if n - base <= m then n - base else m;
    run, t := FillRun(size, m, base);
    RunSnoc(size, m, Init(), run, BeginOp);
    run, t := run + [BeginOp], Do(size, t, BeginOp).s;
    run, t := AppendRun(size, m, run, t, 1, base, k1);
    run, t := AppendRun(size, m, run, t, 0, base + k1, n - base - k1);
  }

  // When the bound fails, concurrent calls drive log_write into the panic.
  lemma PanicRun(size: int, m: nat) returns (run: seq<Step>)
    requires 1 <= m <= MAXOPBLOCKS && MAXOPBLOCKS + 2 * m >= Min(LOGSIZE, size - 1)
    ensures AllowedRun(size, m, Init(), run) && Final(size, m, Init(), run) == Panic(TooBig)
  {
    var t: State;
    if size < 1 {
      RunSnoc(size, m, Init(), [], BeginOp);
      run, t := [] + [BeginOp], Do(size, Init(), BeginOp).s;
    } else {
      run, t := ReachRun(size, m, Min(LOGSIZE, size - 1));
    }
    // a block that is already logged would be absorbed, but the guard comes first
    var w := Test(0, if t.lh == [] then 0 else t.lh[0]);
    RunSnoc(size, m, Init(), run, w);
    run := run + [w];
  }

  // Calls that append at most m entries each can never trip log_write's panic if
  // and only if MAXOPBLOCKS + 2m stays below both LOGSIZE and log.size-1.
  lemma ExactAdmission(size: int, m: nat)
    requires 1 <= m <= MAXOPBLOCKS
    ensures NeverPanics(size, m) <==> MAXOPBLOCKS + 2 * m < Min(LOGSIZE, size - 1)
  {
    if MAXOPBLOCKS + 2 * m < Min(LOGSIZE, size - 1) {
      forall steps | AllowedRun(size, m, Init(), steps)
        ensures Final(size, m, Init(), steps).Next?
      {
        RunKeepsInv(size, m, Init(), steps);
      }
    } else {
      var run := PanicRun(size, m);
    }
  }

  // --- the log on disk ----------------------------------------------------------------

  // In every run the list fits the blocks behind the log's header.
  ghost predicate AlwaysFits(size: int, m: nat)
  {
    forall steps :: AllowedRun(size, m, Init(), steps) && Final(size, m, Init(), steps).Next? ==>
      |Final(size, m, Init(), steps).s.lh| <= size - 1
  }

  // Two calls that pass the test while one place is left, and then both append.
  lemma OverRun(size: int, m: nat) returns (run: seq<Step>, t: State)
    requires 1 <= m <= MAXOPBLOCKS && 2 <= size && size - 1 < MAXOPBLOCKS + 2 * m
    ensures Reaches(size, m, run, t) && |t.lh| == size
  {
    var n: nat := size - 2;
    var base := if n <= MAXOPBLOCKS then n else MAXOPBLOCKS;
    var k1 := if n - base <= m - 1 then n - base else m - 1;
    run, t := FillRun(size, m, base);
    RunSnoc(size, m, Init(), run, BeginOp);
    run, t := run + [BeginOp], Do(size, t, BeginOp).s;
    run, t := AppendRun(size, m, run, t, 1, base, k1);
    run, t := AppendRun(size, m, run, t, 0, base + k1, n - base - k1);
    run, t := BothRun(size, m, run, t, n);
  }

  lemma BothRun(size: int, m: nat, pre: seq<Step>, s: State, bno: nat) returns (run: seq<Step>, t: State)
    requires Reaches(size, m, pre, s) && s.outstanding > 0 && Settled(s) && |s.ops| == 2 && s.ops[0] < m && s.ops[1] < m
    requires Fresh(s, bno) && |s.lh| < Min(LOGSIZE, size - 1)
    ensures Reaches(size, m, run, t) && |t.lh| == |s.lh| + 2
  {
    var a, b := Test(0, bno), Test(1, bno + 1);
    RunSnoc(size, m, Init(), pre, a);
    var s1 := Do(size, s, a).s;
    RunSnoc(size, m, Init(), pre + [a], b);
    var s2 := Do(size, s1, b).s;
    RunSnoc(size, m, Init(), pre + [a] + [b], Append(0));
    var s3 := Do(size, s2, Append(0)).s;
    RunSnoc(size, m, Init(), pre + [a] + [b] + [Append(0)], Append(1));
    run, t := pre + [a] + [b] + [Append(0)] + [Append(1)], Do(size, s3, Append(1)).s;
    assert bno !in s.lh && bno + 1 !in s.lh;
  }

  // A log of a header alone takes nothing at all.
  lemma {:induction false} HeaderOnly(m: nat, s: State, steps: seq<Step>)
    requires s.lh == [] && Settled(s) && AllowedRun(1, m, s, steps) && Final(1, m, s, steps).Next?
    ensures Final(1, m, s, steps).s.lh == []
    decreases |steps|
  {
    if steps != [] {
      HeaderOnly(m, Do(1, s, steps[0]).s, steps[1..]);
    }
  }

  // Calls that append at most m entries each never make the list outgrow the log if and
  // only if MAXOPBLOCKS + 2m entries fit behind its header, or none do.
  lemma FitsExactly(size: int, m: nat)
    requires 1 <= m <= MAXOPBLOCKS
    ensures AlwaysFits(size, m) <==> size == 1 || MAXOPBLOCKS + 2 * m <= size - 1
  {
    if size < 1 {
      assert AllowedRun(size, m, Init(), []) && Final(size, m, Init(), []).Next?;
    } else if size > 1 && MAXOPBLOCKS + 2 * m > size - 1 {
      var run, t := OverRun(size, m);
    } else {
      forall steps | AllowedRun(size, m, Init(), steps) && Final(size, m, Init(), steps).Next?
        ensures |Final(size, m, Init(), steps).s.lh| <= size - 1
      {
        if size == 1 {
          HeaderOnly(m, Init(), steps);
        } else {
          RunKeepsInv(size, m, Init(), steps);
        }
      }
    }
  }

  // With the log mkfs makes (LOGSIZE blocks, header included) the documented
  // per-call budget MAXOPBLOCKS is one too many; MAXOPBLOCKS-1 is safe.
  lemma ShippedLog()
    ensures !NeverPanics(LOGSIZE, MAXOPBLOCKS) && !AlwaysFits(LOGSIZE, MAXOPBLOCKS)
    ensures NeverPanics(LOGSIZE, MAXOPBLOCKS - 1) && AlwaysFits(LOGSIZE, MAXOPBLOCKS - 1)
  {
    ExactAdmission(LOGSIZE, MAXOPBLOCKS);
    ExactAdmission(LOGSIZE, MAXOPBLOCKS - 1);
    FitsExactly(LOGSIZE, MAXOPBLOCKS);
    FitsExactly(LOGSIZE, MAXOPBLOCKS - 1);
  }
}
