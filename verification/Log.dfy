/**
 The redo log of xv6/log.c: on-disk format, commit, recovery, and what a crash
 between any two single-block writes leaves behind.

 A disk is a sequence of blocks; writing one block is the only atomic step.
 Commit and recovery are given here as the list of block writes they issue, so
 a crash is a prefix of such a list.  LogManager.dfy holds the imperative code
 and shows that it issues exactly these writes.
 */
module Log {
  import opened Basics
  import opened Blocks

  const LOGSIZE := 3 * MAXOPBLOCKS

  datatype Write = Write(bno: nat, data: Block)

  // The log occupies blocks start .. start+size-1; block start is the header.
  datatype Geometry = Geometry(start: nat, size: nat) {
    predicate InLog(b: nat) { start <= b < start + size }
    predicate Fits(d: Disk) { 0 < size && start + size <= |d| < UINT_LIMIT }
  }

  // One group commit: the logged block numbers and the contents to install.
  datatype Txn = Txn(lh: seq<nat>, vals: seq<Block>)

  // A list commit can write out: distinct home blocks, no more than the header and the
  // log hold.  log_write sees to the first; that the list fits is LogAdmission.FitsExactly.
  predicate Loggable(g: Geometry, nblocks: nat, lh: seq<nat>)
  {
    && |lh| <= LOGSIZE && |lh| <= g.size - 1
    && Distinct(lh)
    && forall i :: 0 <= i < |lh| ==> lh[i] < nblocks && !g.InLog(lh[i])
  }

  predicate ValidTxn(g: Geometry, nblocks: nat, t: Txn)
  {
    |t.lh| == |t.vals| && Loggable(g, nblocks, t.lh)
  }

  // --- the header block -------------------------------------------------------

  function PutEntries(hb: Block, lh: seq<nat>, n: nat): (r: Block)
    requires n <= |lh| <= LOGSIZE
    requires forall i :: 0 <= i < |lh| ==> lh[i] < UINT_LIMIT
  {
    if n == 0 then hb else PutWord(PutEntries(hb, lh, n - 1), n, lh[n-1])
  }

  // write_head stores n and the first n entries; later words keep old values.
  function PutHead(hb: Block, lh: seq<nat>): (r: Block)
    requires |lh| <= LOGSIZE
    requires forall i :: 0 <= i < |lh| ==> lh[i] < UINT_LIMIT
  {
    PutEntries(PutWord(hb, 0, |lh|), lh, |lh|)
  }

  predicate HeadOk(hb: Block) { GetWord(hb, 0) <= LOGSIZE }

  function GetHead(hb: Block): (lh: seq<nat>)
    requires HeadOk(hb)
  {
    seq(GetWord(hb, 0), i requires 0 <= i < LOGSIZE => GetWord(hb, 1 + i))
  }

  lemma {:induction false} PutEntriesWords(hb: Block, lh: seq<nat>, n: nat)
    requires n <= |lh| <= LOGSIZE
    requires forall i :: 0 <= i < |lh| ==> lh[i] < UINT_LIMIT
    ensures forall j: nat :: j < NWORDS ==>
      GetWord(PutEntries(hb, lh, n), j) == if 1 <= j <= n then lh[j-1] else GetWord(hb, j)
  {
    if n > 0 {
      PutEntriesWords(hb, lh, n - 1);
      WordRoundTrip(PutEntries(hb, lh, n - 1), n, lh[n-1]);
    }
  }

  // The header read back is the header written, whatever the block held before.
  lemma HeadRoundTrip(hb: Block, lh: seq<nat>)
    requires |lh| <= LOGSIZE
    requires forall i :: 0 <= i < |lh| ==> lh[i] < UINT_LIMIT
    ensures HeadOk(PutHead(hb, lh)) && GetHead(PutHead(hb, lh)) == lh
  {
    PutEntriesWords(PutWord(hb, 0, |lh|), lh, |lh|);
    WordRoundTrip(hb, 0, |lh|);
  }

  // --- applying writes --------------------------------------------------------

  predicate InRange(d: Disk, ws: seq<Write>) {
    forall i :: 0 <= i < |ws| ==> ws[i].bno < |d|
  }

  function Apply(d: Disk, ws: seq<Write>): (r: Disk)
    requires InRange(d, ws)
    ensures |r| == |d|
  {
    if ws == [] then d
    else
      var w := ws[|ws|-1];
      Apply(d, ws[..|ws|-1])[w.bno := w.data]
  }

  lemma {:induction false} ApplyConcat(d: Disk, a: seq<Write>, b: seq<Write>)
    requires InRange(d, a) && InRange(d, b)
    ensures InRange(d, a + b) && Apply(d, a + b) == Apply(Apply(d, a), b)
  {
    if b == [] {
      assert a + b == a;
    } else {
      ApplyConcat(d, a, b[..|b|-1]);
      assert (a + b)[..|a + b|-1] == a + b[..|b|-1];
    }
  }

  // The first j writes of "store vals[i] at at[i]", for distinct places.
  lemma {:induction false} ApplyScatter(d: Disk, ws: seq<Write>, at: seq<nat>, vals: seq<Block>, j: nat)
    requires |ws| == |at| == |vals| && j <= |ws| && InRange(d, ws) && Distinct(at)
    requires forall i :: 0 <= i < |ws| ==> ws[i] == Write(at[i], vals[i])
    ensures forall i :: 0 <= i < j ==> Apply(d, ws[..j])[at[i]] == vals[i]
    ensures forall b: nat :: b < |d| && b !in at[..j] ==> Apply(d, ws[..j])[b] == d[b]
  {
    if j > 0 {
      ApplyScatter(d, ws, at, vals, j - 1);
      assert ws[..j][..j-1] == ws[..j-1];
      assert at[..j] == at[..j-1] + [at[j-1]];
    }
  }

  // --- commit and recovery as lists of writes ----------------------------------

  // write_log: copy block i of the transaction to log block i.
  function LogWrites(g: Geometry, vals: seq<Block>): (ws: seq<Write>)
    ensures |ws| == |vals|
  {
    seq(|vals|, i requires 0 <= i < |vals| => Write(g.start + 1 + i, vals[i]))
  }

  // install_trans: copy log block i to its home location.
  function InstallWrites(lh: seq<nat>, vals: seq<Block>): (ws: seq<Write>)
    requires |lh| == |vals|
    ensures |ws| == |lh|
  {
    seq(|lh|, i requires 0 <= i < |lh| => Write(lh[i], vals[i]))
  }

  function LogBlocks(g: Geometry, d: Disk, n: nat): (vals: seq<Block>)
    requires g.Fits(d) && n <= g.size - 1
  {
    seq(n, i requires 0 <= i < n => d[g.start + 1 + i])
  }

  // commit(): write the log, write the header, install, clear the header.
  function CommitWrites(g: Geometry, d: Disk, t: Txn): (ws: seq<Write>)
    requires g.Fits(d) && ValidTxn(g, |d|, t)
  {
    if |t.lh| == 0 then []
    else
      var head := PutHead(d[g.start], t.lh);
      LogWrites(g, t.vals) + [Write(g.start, head)] +
      (InstallWrites(t.lh, t.vals) + [Write(g.start, PutHead(head, []))])
  }

  // The on-disk log can be recovered: its header names loggable blocks.
  predicate Recoverable(g: Geometry, d: Disk)
  {
    g.Fits(d) && HeadOk(d[g.start]) && Loggable(g, |d|, GetHead(d[g.start]))
  }

  // recover_from_log(): install what the on-disk header names, clear the header.
  function RecoverWrites(g: Geometry, d: Disk): (ws: seq<Write>)
    requires Recoverable(g, d)
  {
    var lh := GetHead(d[g.start]);
    InstallWrites(lh, LogBlocks(g, d, |lh|)) + [Write(g.start, PutHead(d[g.start], []))]
  }

  // A list as long as the log: the last of its copies goes to the block behind the log.
  lemma WritesPastLog(g: Geometry, vals: seq<Block>)
    requires |vals| >= g.size > 0
    ensures exists i :: 0 <= i < |vals| && !g.InLog(LogWrites(g, vals)[i].bno)
  {
    assert LogWrites(g, vals)[g.size - 1].bno == g.start + g.size;
  }

  // --- what crashes can leave --------------------------------------------------

  // Nothing is committed: the header is empty.
  predicate Idle(g: Geometry, d: Disk)
  {
    g.Fits(d) && HeadOk(d[g.start]) && GetHead(d[g.start]) == []
  }

  // t is committed: the header names it and the log holds its contents.
  predicate Committed(g: Geometry, d: Disk, t: Txn)
  {
    && g.Fits(d) && ValidTxn(g, |d|, t)
    && HeadOk(d[g.start]) && GetHead(d[g.start]) == t.lh
    && LogBlocks(g, d, |t.lh|) == t.vals
  }

  // The disks agree on every block outside the log.
  predicate SameHome(g: Geometry, d: Disk, e: Disk)
  {
    |d| == |e| && forall b: nat :: b < |d| && !g.InLog(b) ==> d[b] == e[b]
  }

  // The disk a transaction is meant to produce.
  function Effect(d: Disk, t: Txn): (r: Disk)
    requires |t.lh| == |t.vals|
    requires forall i :: 0 <= i < |t.lh| ==> t.lh[i] < |d|
    ensures |r| == |d|
  {
    Apply(d, InstallWrites(t.lh, t.vals))
  }

  // e is d with some of t's blocks, and nothing else, already installed.
  predicate PartlyInstalled(g: Geometry, d: Disk, t: Txn, e: Disk)
    requires ValidTxn(g, |d|, t)
  {
    && |e| == |d|
    && (forall b: nat :: b < |d| && !g.InLog(b) && b !in t.lh ==> e[b] == d[b])
    && (forall i :: 0 <= i < |t.lh| ==> e[t.lh[i]] == d[t.lh[i]] || e[t.lh[i]] == t.vals[i])
  }

  lemma EffectPointwise(g: Geometry, d: Disk, t: Txn)
    requires ValidTxn(g, |d|, t)
    ensures forall i :: 0 <= i < |t.lh| ==> Effect(d, t)[t.lh[i]] == t.vals[i]
    ensures forall b: nat :: b < |d| && b !in t.lh ==> Effect(d, t)[b] == d[b]
  {
    var ws := InstallWrites(t.lh, t.vals);
    assert ws[..|ws|] == ws && t.lh[..|t.lh|] == t.lh;
    ApplyScatter(d, ws, t.lh, t.vals, |ws|);
  }

  // Installing t over a partly installed t gives what installing it would have.
  lemma EffectOfPartial(g: Geometry, d: Disk, t: Txn, e: Disk)
    requires ValidTxn(g, |d|, t) && PartlyInstalled(g, d, t, e)
    ensures SameHome(g, Effect(d, t), Effect(e, t))
  {
    EffectPointwise(g, d, t);
    EffectPointwise(g, e, t);
    hide Effect;
  }

  // A crash during write_log has touched only the body of the log.
  lemma {:induction false} CrashBeforeHead(g: Geometry, d: Disk, t: Txn, k: nat)
    requires g.Fits(d) && ValidTxn(g, |d|, t) && k <= |t.lh|
    ensures InRange(d, LogWrites(g, t.vals))
    ensures var e := Apply(d, LogWrites(g, t.vals)[..k]);
            && SameHome(g, d, e) && e[g.start] == d[g.start]
            && (forall i :: 0 <= i < k ==> e[g.start + 1 + i] == t.vals[i])
  {
    var ws := LogWrites(g, t.vals);
    if k > 0 {
      CrashBeforeHead(g, d, t, k - 1);
      assert ws[..k][..k-1] == ws[..k-1];
    }
  }

  // Installing any number of a committed transaction's blocks keeps it committed.
  lemma CrashInInstall(g: Geometry, d: Disk, t: Txn, k: nat)
    requires Committed(g, d, t) && k <= |t.lh|
    ensures InRange(d, InstallWrites(t.lh, t.vals))
    ensures var e := Apply(d, InstallWrites(t.lh, t.vals)[..k]);
            Committed(g, e, t) && PartlyInstalled(g, d, t, e) && (k == |t.lh| ==> e == Effect(d, t))
  {
    ApplyScatter(d, InstallWrites(t.lh, t.vals), t.lh, t.vals, k);
    var ws := InstallWrites(t.lh, t.vals);
    assert ws[..|ws|] == ws;
    var e := Apply(d, ws[..k]);
    assert forall b: nat :: b < |d| && g.InLog(b) ==> b !in t.lh[..k];
    assert LogBlocks(g, e, |t.lh|) == LogBlocks(g, d, |t.lh|);
  }

  // Clearing the header leaves the home blocks alone.
  lemma ClearHead(g: Geometry, d: Disk)
    requires g.Fits(d) && HeadOk(d[g.start])
    ensures var e := d[g.start := PutHead(d[g.start], [])];
            Idle(g, e) && SameHome(g, d, e)
  {
    HeadRoundTrip(d[g.start], []);
  }

  // One crash inside the recovery of t: either t is still committed and partly
  // installed, or recovery ran to its end.
  lemma CrashInRecovery(g: Geometry, d: Disk, t: Txn, k: nat)
    requires Committed(g, d, t) && k <= |t.lh| + 1
    ensures |RecoverWrites(g, d)| == |t.lh| + 1 && InRange(d, RecoverWrites(g, d))
    ensures var e := Apply(d, RecoverWrites(g, d)[..k]);
            if k <= |t.lh| then Committed(g, e, t) && PartlyInstalled(g, d, t, e)
            else Idle(g, e) && SameHome(g, e, Effect(d, t))
  {
    hide PutHead, GetHead, HeadOk, LogBlocks, PartlyInstalled, InstallWrites;
    var ws := InstallWrites(t.lh, t.vals);
    CrashInInstall(g, d, t, |t.lh|);
    if k <= |t.lh| {
      CrashInInstall(g, d, t, k);
      assert RecoverWrites(g, d)[..k] == ws[..k];
    } else {
      assert ws[..|t.lh|] == ws;
      assert RecoverWrites(g, d)[..k][..|t.lh|] == ws;
      EffectPointwise(g, d, t);
      ClearHead(g, Effect(d, t));
    }
  }

  // Reboots that each crash after some number of recovery writes.
  function CrashyRecoveries(g: Geometry, d: Disk, crashes: seq<nat>): (r: Disk)
    requires Recoverable(g, d)
    ensures Recoverable(g, r) && |r| == |d|
    decreases |crashes|
  {
    if crashes == [] then d
    else CrashyRecoveries(g, RecoverUpTo(g, d, crashes[0]), crashes[1..])
  }

  // The first k writes of a recovery (all of them when k is large).
  function RecoverUpTo(g: Geometry, d: Disk, k: nat): (r: Disk)
    requires Recoverable(g, d)
    ensures Recoverable(g, r) && |r| == |d|
  {
    var ws := RecoverWrites(g, d);
    var lh := GetHead(d[g.start]);
    var t := Txn(lh, LogBlocks(g, d, |lh|));
    CrashInRecovery(g, d, t, if k <= |lh| + 1 then k else |lh| + 1);
    Apply(d, ws[..if k <= |ws| then k else |ws|])
  }

  function Recover(g: Geometry, d: Disk): (r: Disk)
    requires Recoverable(g, d)
  {
    RecoverUpTo(g, d, LOGSIZE + 1)
  }

  // Recovery of a committed transaction, through any crashes, installs it.
  lemma {:induction false} RecoverCommitted(g: Geometry, d: Disk, t: Txn, crashes: seq<nat>)
    requires Committed(g, d, t)
    ensures var r := Recover(g, CrashyRecoveries(g, d, crashes));
            Idle(g, r) && SameHome(g, r, Effect(d, t))
    decreases |crashes|
  {
    hide Effect, PartlyInstalled, PutHead, GetHead, HeadOk, LogBlocks;
    if crashes == [] {
      CrashInRecovery(g, d, t, |t.lh| + 1);
    } else {
      var k := if crashes[0] <= |t.lh| then crashes[0] else |t.lh| + 1;
      CrashInRecovery(g, d, t, k);
      var e := RecoverUpTo(g, d, crashes[0]);
      if k <= |t.lh| {
        RecoverCommitted(g, e, t, crashes[1..]);
        EffectOfPartial(g, d, t, e);
      } else {
        RecoverIdle(g, e, crashes[1..]);
      }
    }
  }

  // Recovery with an empty header changes no home block.
  lemma {:induction false} RecoverIdle(g: Geometry, d: Disk, crashes: seq<nat>)
    requires Idle(g, d)
    ensures var r := Recover(g, CrashyRecoveries(g, d, crashes));
            Idle(g, r) && SameHome(g, r, d)
    decreases |crashes|
  {
    var t := Txn([], []);
    assert Committed(g, d, t);
    assert SameHome(g, Effect(d, t), d);
    if crashes == [] {
      CrashInRecovery(g, d, t, 1);
    } else {
      var k := if crashes[0] == 0 then 0 else 1;
      CrashInRecovery(g, d, t, k);
      var e := RecoverUpTo(g, d, crashes[0]);
      assert Idle(g, e) && SameHome(g, e, d);
      RecoverIdle(g, e, crashes[1..]);
    }
  }

  // --- crash atomicity ---------------------------------------------------------

  // The disk after the first k writes of committing t (all when k is large).
  function CommitUpTo(g: Geometry, d: Disk, t: Txn, k: nat): (r: Disk)
    requires Idle(g, d) && ValidTxn(g, |d|, t)
    ensures |r| == |d|
  {
    var ws := CommitWrites(g, d, t);
    CommitInRange(g, d, t);
    Apply(d, ws[..if k <= |ws| then k else |ws|])
  }

  lemma CommitInRange(g: Geometry, d: Disk, t: Txn)
    requires g.Fits(d) && ValidTxn(g, |d|, t)
    ensures InRange(d, CommitWrites(g, d, t))
  {
  }

  // A header naming t over a log that holds t's blocks commits t.
  lemma HeaderNames(g: Geometry, d: Disk, e: Disk, t: Txn)
    requires g.Fits(d) && |e| == |d| && ValidTxn(g, |d|, t) && SameHome(g, d, e)
    requires forall i :: 0 <= i < |t.lh| ==> e[g.start + 1 + i] == t.vals[i]
    ensures var c := e[g.start := PutHead(d[g.start], t.lh)];
            Committed(g, c, t) && SameHome(g, d, c)
  {
    HeadRoundTrip(d[g.start], t.lh);
    hide PutHead, GetHead, HeadOk;
    var c := e[g.start := PutHead(d[g.start], t.lh)];
    assert LogBlocks(g, c, |t.lh|) == t.vals;
  }

  // After the header write the transaction is committed, and home is untouched.
  lemma HeadCommits(g: Geometry, d: Disk, t: Txn)
    requires Idle(g, d) && ValidTxn(g, |d|, t)
    ensures InRange(d, LogWrites(g, t.vals))
    ensures var e := Apply(d, LogWrites(g, t.vals))[g.start := PutHead(d[g.start], t.lh)];
            Committed(g, e, t) && SameHome(g, d, e)
  {
    hide Committed, SameHome, PutHead, Apply;
    var ws := LogWrites(g, t.vals);
    CrashBeforeHead(g, d, t, |t.lh|);
    assert ws[..|t.lh|] == ws;
    HeaderNames(g, d, Apply(d, ws), t);
  }

  // Past the header write, what is left of commit is what recovery would do.
  lemma CommitPoint(g: Geometry, d: Disk, t: Txn) returns (toHead: seq<Write>, c: Disk)
    requires Idle(g, d) && ValidTxn(g, |d|, t) && t.lh != []
    ensures toHead == LogWrites(g, t.vals) + [Write(g.start, PutHead(d[g.start], t.lh))]
    ensures InRange(d, toHead) && c == Apply(d, toHead) && InRange(d, LogWrites(g, t.vals))
    ensures c == Apply(d, LogWrites(g, t.vals))[g.start := PutHead(d[g.start], t.lh)]
    ensures Committed(g, c, t) && SameHome(g, d, c)
    ensures CommitWrites(g, d, t) == toHead + RecoverWrites(g, c)
  {
    var log := LogWrites(g, t.vals);
    var head := PutHead(d[g.start], t.lh);
    HeadCommits(g, d, t);
    toHead := log + [Write(g.start, head)];
    assert toHead[..|toHead|-1] == log;
    c := Apply(d, toHead);
    assert c[g.start] == head;
  }

  lemma CommitCrashLate(g: Geometry, d: Disk, t: Txn, k: nat)
    requires Idle(g, d) && ValidTxn(g, |d|, t) && 0 < |t.lh| < k <= 2 * |t.lh| + 2
    ensures var e := CommitUpTo(g, d, t, k);
            if k <= 2 * |t.lh| + 1 then Committed(g, e, t) && PartlyInstalled(g, d, t, e)
            else Idle(g, e) && SameHome(g, e, Effect(d, t))
  {
    hide PutHead, GetHead, HeadOk, LogBlocks, InstallWrites, PartlyInstalled, Effect, Apply;
    var toHead, c := CommitPoint(g, d, t);
    var rest := RecoverWrites(g, c);
    var j := k - |toHead|;
    CrashInRecovery(g, c, t, j);
    assert (toHead + rest)[..k] == toHead + rest[..j];
    ApplyConcat(d, toHead, rest[..j]);
    var e := CommitUpTo(g, d, t, k);
    assert e == Apply(c, rest[..j]);
    if j == |rest| {
      EffectOfSame(g, c, d, t);
    } else {
      PartlyFromSame(g, d, c, t, e);
    }
  }

  lemma EffectOfSame(g: Geometry, c: Disk, d: Disk, t: Txn)
    requires SameHome(g, d, c) && ValidTxn(g, |d|, t)
    ensures SameHome(g, Effect(c, t), Effect(d, t))
  {
    InstallSameHome(g, c, d, InstallWrites(t.lh, t.vals));
  }

  lemma PartlyFromSame(g: Geometry, d: Disk, c: Disk, t: Txn, e: Disk)
    requires SameHome(g, d, c) && ValidTxn(g, |d|, t) && PartlyInstalled(g, c, t, e)
    ensures PartlyInstalled(g, d, t, e)
  {
  }

  // A commit interrupted after k writes leaves either the old home blocks under an
  // empty header, or t committed and partly installed, or t fully installed.
  lemma CommitCrashStates(g: Geometry, d: Disk, t: Txn, k: nat)
    requires Idle(g, d) && ValidTxn(g, |d|, t)
    ensures var e := CommitUpTo(g, d, t, k);
            var n := |t.lh|;
            if n == 0 || k <= n then Idle(g, e) && SameHome(g, e, d)
            else if k <= 2 * n + 1 then Committed(g, e, t) && PartlyInstalled(g, d, t, e)
            else Idle(g, e) && SameHome(g, e, Effect(d, t))
  {
    var n := |t.lh|;
    var ws := CommitWrites(g, d, t);
    if 0 < n && k <= n {
      CrashBeforeHead(g, d, t, k);
      assert ws[..k] == LogWrites(g, t.vals)[..k];
    } else if 0 < n {
      assert |ws| == 2 * n + 2;
      CommitCrashLate(g, d, t, if k <= |ws| then k else |ws|);
    }
  }

  // A commit that runs to its end: the header is empty again and exactly the
  // transaction's blocks have changed outside the log.
  lemma CommitComplete(g: Geometry, d: Disk, t: Txn)
    requires Idle(g, d) && ValidTxn(g, |d|, t)
    ensures InRange(d, CommitWrites(g, d, t))
    ensures var e := Apply(d, CommitWrites(g, d, t));
            && Idle(g, e)
            && (forall i :: 0 <= i < |t.lh| ==> e[t.lh[i]] == t.vals[i])
            && (forall b: nat :: b < |d| && !g.InLog(b) && b !in t.lh ==> e[b] == d[b])
  {
    var ws := CommitWrites(g, d, t);
    CommitInRange(g, d, t);
    CommitCrashStates(g, d, t, |ws|);
    assert ws[..|ws|] == ws;
    EffectPointwise(g, d, t);
  }

  // Crash atomicity.  Interrupt a commit after any number k of its block writes,
  // reboot through any number of crashes during recovery, and let one recovery
  // finish: the home blocks are exactly those before the transaction or exactly
  // those after it, and the latter precisely when the header write reached disk.
  lemma CrashAtomicity(g: Geometry, d: Disk, t: Txn, k: nat, crashes: seq<nat>)
    requires Idle(g, d) && ValidTxn(g, |d|, t)
    ensures Recoverable(g, CommitUpTo(g, d, t, k))
    ensures var r := Recover(g, CrashyRecoveries(g, CommitUpTo(g, d, t, k), crashes));
            Idle(g, r) && SameHome(g, r, if k > |t.lh| then Effect(d, t) else d)
  {
    hide Effect, PartlyInstalled, PutHead, GetHead, HeadOk, LogBlocks, CommitUpTo;
    CommitCrashStates(g, d, t, k);
    var e := CommitUpTo(g, d, t, k);
    var n := |t.lh|;
    if n == 0 || k <= n || k > 2 * n + 1 {
      RecoverIdle(g, e, crashes);
      EffectPointwise(g, d, t);
    } else {
      RecoverCommitted(g, e, t, crashes);
      EffectOfPartial(g, d, t, e);
    }
  }

  // --- whole histories -----------------------------------------------------------

  // A commit that is cut off after `writes` block writes, then recovered through
  // `crashes`.  A commit that runs to its end is one with no cut-off.
  datatype Epoch =
    | Completed(t: Txn)
    | Crashed(t: Txn, writes: nat, crashes: seq<nat>)

  predicate ValidEpochs(g: Geometry, nblocks: nat, es: seq<Epoch>)
  {
    forall i :: 0 <= i < |es| ==> ValidTxn(g, nblocks, es[i].t)
  }

  function RunEpoch(g: Geometry, d: Disk, e: Epoch): (r: Disk)
    requires Idle(g, d) && ValidTxn(g, |d|, e.t)
    ensures |r| == |d| && Idle(g, r)
  {
    match e
    case Completed(t) =>
      CommitCrashStates(g, d, t, 2 * |t.lh| + 2);
      CommitUpTo(g, d, t, 2 * |t.lh| + 2)
    case Crashed(t, k, crashes) =>
      CrashAtomicity(g, d, t, k, crashes);
      Recover(g, CrashyRecoveries(g, CommitUpTo(g, d, t, k), crashes))
  }

  function Run(g: Geometry, d: Disk, es: seq<Epoch>): (r: Disk)
    requires Idle(g, d) && ValidEpochs(g, |d|, es)
    ensures |r| == |d| && Idle(g, r)
    decreases |es|
  {
    if es == [] then d else Run(g, RunEpoch(g, d, es[0]), es[1..])
  }

  // The header write reached the disk.
  predicate Kept(e: Epoch) { e.Completed? || e.writes > |e.t.lh| }

  // The transactions whose header write reached the disk.
  function Survivors(es: seq<Epoch>): (ts: seq<Txn>)
  {
    if es == [] then []
    else (if Kept(es[0]) then [es[0].t] else []) + Survivors(es[1..])
  }

  predicate Installable(n: nat, ts: seq<Txn>)
  {
    forall i :: 0 <= i < |ts| ==>
      |ts[i].lh| == |ts[i].vals| && forall j :: 0 <= j < |ts[i].lh| ==> ts[i].lh[j] < n
  }

  // The plain disk on which whole transactions are atomic and never lost.
  function Serial(d: Disk, ts: seq<Txn>): (r: Disk)
    requires Installable(|d|, ts)
    ensures |r| == |d|
    decreases |ts|
  {
    if ts == [] then d else Serial(Effect(d, ts[0]), ts[1..])
  }

  lemma {:induction false} SurvivorsInstallable(g: Geometry, d: Disk, es: seq<Epoch>)
    requires ValidEpochs(g, |d|, es)
    ensures Installable(|d|, Survivors(es))
  {
    if es != [] {
      assert ValidTxn(g, |d|, es[0].t);
      SurvivorsInstallable(g, d, es[1..]);
    }
  }

  lemma {:induction false} SerialSameHome(g: Geometry, d: Disk, e: Disk, ts: seq<Txn>)
    requires SameHome(g, d, e) && Installable(|d|, ts)
    ensures SameHome(g, Serial(d, ts), Serial(e, ts))
    decreases |ts|
  {
    if ts != [] {
      InstallSameHome(g, d, e, InstallWrites(ts[0].lh, ts[0].vals));
      SerialSameHome(g, Effect(d, ts[0]), Effect(e, ts[0]), ts[1..]);
    }
  }

  lemma {:induction false} InstallSameHome(g: Geometry, d: Disk, e: Disk, ws: seq<Write>)
    requires SameHome(g, d, e) && InRange(d, ws)
    ensures SameHome(g, Apply(d, ws), Apply(e, ws))
  {
    if ws != [] { InstallSameHome(g, d, e, ws[..|ws|-1]); }
  }

  // One epoch keeps or loses its transaction as a whole.
  lemma EpochIsAtomic(g: Geometry, d: Disk, e: Epoch)
    requires Idle(g, d) && ValidTxn(g, |d|, e.t)
    ensures SameHome(g, RunEpoch(g, d, e), if Kept(e) then Effect(d, e.t) else d)
  {
    hide Idle, Recover, CrashyRecoveries, CommitUpTo;
    match e {
      case Completed(t) => CommitCrashStates(g, d, t, 2 * |t.lh| + 2);
      case Crashed(t, k, crashes) => CrashAtomicity(g, d, t, k, crashes);
    }
  }

  // Every history of commits, crashes and recoveries leaves the home blocks that
  // running just the surviving transactions, whole and in order, would leave.
  lemma {:induction false} HistoryIsSerial(g: Geometry, d: Disk, es: seq<Epoch>)
    requires Idle(g, d) && ValidEpochs(g, |d|, es)
    ensures Installable(|d|, Survivors(es))
    ensures Idle(g, Run(g, d, es)) && SameHome(g, Run(g, d, es), Serial(d, Survivors(es)))
    decreases |es|
  {
    hide Idle, RunEpoch, Effect, Installable;
    SurvivorsInstallable(g, d, es);
    if es != [] {
      var d1 := RunEpoch(g, d, es[0]);
      EpochIsAtomic(g, d, es[0]);
      HistoryIsSerial(g, d1, es[1..]);
      SurvivorsInstallable(g, d, es[1..]);
      if Kept(es[0]) {
        SerialSameHome(g, d1, Effect(d, es[0].t), Survivors(es[1..]));
        assert Survivors(es)[1..] == Survivors(es[1..]);
      } else {
        SerialSameHome(g, d1, d, Survivors(es[1..]));
        assert Survivors(es) == Survivors(es[1..]);
      }
    }
  }
}
