/**
 The user-level threads of xv6/uthreadlib.c: eight slots, a round-robin scan that
 starts behind the thread chosen last, and a fall-back to thread 0 where the original
 gave up.

 Main results, over every run from thread_init, main's own calls of thread_schedule
 included: a runnable thread is passed over by at most seven other choices, as long as
 every scan finds a thread; a scan finds one exactly if some thread other than the
 current one and the one chosen last is runnable; so a thread that is alone in yielding
 hands over to main, and is then never chosen again, whatever main calls to give way;
 and only the current thread and main are ever marked as running.
 */
module Uthread {
  import opened Options

  const MAX_THREAD := 8

  datatype Status = FREE | RUNNING | RUNNABLE

  datatype State = State(status: seq<Status>, current: nat, last: nat)

  // Call is a direct call of thread_schedule, which marks nothing; main makes one to
  // start the threads.
  datatype Op = Yield | Exit | Create | Call

  predicate Sized(s: State) { |s.status| == MAX_THREAD && s.current < MAX_THREAD && s.last < MAX_THREAD }

  predicate Eligible(s: State, j: nat)
    requires Sized(s) && j < MAX_THREAD
  {
    s.status[j].RUNNABLE? && j != s.current
  }

  // The slot i places behind last.
  function Behind(last: nat, i: nat): (j: nat)
    ensures j < MAX_THREAD
  {
    (last + i) % MAX_THREAD
  }

  // How far behind last a slot is; the slot itself is a whole turn away.
  function Distance(last: nat, j: nat): (d: nat)
    requires last < MAX_THREAD && j < MAX_THREAD
    ensures 1 <= d <= MAX_THREAD && Behind(last, d) == j
  {
    if j > last then j - last else j - last + MAX_THREAD
  }

  // The first eligible slot from the i-th on.
  function Scan(s: State, i: nat): (r: Option<nat>)
    requires Sized(s) && 1 <= i <= MAX_THREAD
    ensures r.Some? ==> i <= r.value < MAX_THREAD && Eligible(s, Behind(s.last, r.value))
    ensures r.Some? ==> forall k :: i <= k < r.value ==> !Eligible(s, Behind(s.last, k))
    ensures r.None? ==> forall k :: i <= k < MAX_THREAD ==> !Eligible(s, Behind(s.last, k))
    decreases MAX_THREAD - i
  {
    if i == MAX_THREAD then None
    else if Eligible(s, Behind(s.last, i)) then Some(i)
    else Scan(s, i + 1)
  }

  // The thread a scan chooses, if any.
  function Choice(s: State): (r: Option<nat>)
    requires Sized(s)
    ensures r.Some? ==> r.value < MAX_THREAD && Eligible(s, r.value)
  {
    var d := Scan(s, 1);
    if d.Some? then Some(Behind(s.last, d.value)) else None
  }

  // thread_schedule
  function Schedule(s: State): (s': State)
    requires Sized(s)
    ensures Sized(s')
  {
    match Choice(s)
    case Some(j) => State(s.status[j := RUNNING], j, j)
    case None =>
      if s.current == 0 then s
      else State(s.status[0 := RUNNING], 0, s.last)
  }

  function FirstFree(st: seq<Status>): (r: Option<nat>)
    ensures r.Some? ==> r.value < |st| && st[r.value].FREE? && forall k :: 0 <= k < r.value ==> !st[k].FREE?
    ensures r.None? <==> forall k :: 0 <= k < |st| ==> !st[k].FREE?
  {
    if st == [] then None
    else if st[0].FREE? then Some(0)
    else
      var r := FirstFree(st[1..]);
      assert forall k :: 1 <= k < |st| ==> st[k] == st[1..][k - 1];
      if r.None? then None else Some(r.value + 1)
  }

  // thread_create when all slots are taken writes past the table.
  predicate Allowed(s: State, op: Op)
    requires Sized(s)
  {
    op.Create? ==> FirstFree(s.status).Some?
  }

  // What an operation does to the current thread's status before it schedules.
  function Marked(s: State, op: Op): (s': State)
    requires Sized(s)
    ensures Sized(s')
  {
    match op
    case Yield => s.(status := s.status[s.current := RUNNABLE])
    case Exit => s.(status := s.status[s.current := FREE])
    case _ => s
  }

  function Do(s: State, op: Op): (s': State)
    requires Sized(s) && Allowed(s, op)
    ensures Sized(s')
  {
    if op.Create? then s.(status := s.status[FirstFree(s.status).value := RUNNABLE])
    else Schedule(Marked(s, op))
  }

  // The scan of this operation finds a thread.
  predicate Finds(s: State, op: Op)
    requires Sized(s)
  {
    op.Create? || Choice(Marked(s, op)).Some?
  }

  // thread_init
  function Init(): (s: State)
    ensures Sized(s)
  {
    State([RUNNING] + seq(MAX_THREAD - 1, _ => FREE), 0, 0)
  }

  // Every operation of the run is allowed where it comes.
  predicate AllowedRun(s: State, ops: seq<Op>)
    requires Sized(s)
    decreases |ops|
  {
    ops == [] || (Allowed(s, ops[0]) && AllowedRun(Do(s, ops[0]), ops[1..]))
  }

  function Run(s: State, ops: seq<Op>): (s': State)
    requires Sized(s) && AllowedRun(s, ops)
    ensures Sized(s')
    decreases |ops|
  {
    if ops == [] then s else Run(Do(s, ops[0]), ops[1..])
  }

  // --- what a scan finds ------------------------------------------------------------------

  // Every slot but last is behind it somewhere.
  lemma ScanComplete(s: State)
    requires Sized(s)
    ensures Choice(s).Some? <==> exists j: nat :: j < MAX_THREAD && j != s.last && Eligible(s, j)
  {
    if Choice(s).Some? {
      var i := Scan(s, 1).value;
      assert Behind(s.last, i) != s.last;
    } else {
      forall j: nat | j < MAX_THREAD && j != s.last
        ensures !Eligible(s, j)
      {
        assert Behind(s.last, Distance(s.last, j)) == j;
      }
    }
  }

  lemma DistanceOf(last: nat, i: nat)
    requires last < MAX_THREAD && 1 <= i <= MAX_THREAD
    ensures Distance(last, Behind(last, i)) == i
  {
    assert Behind(last, i) == if last + i < MAX_THREAD then last + i else last + i - MAX_THREAD;
  }

  // The choice comes before every other eligible thread but last.
  lemma ChoiceIsNearest(s: State, j: nat)
    requires Sized(s) && j < MAX_THREAD && Eligible(s, j) && Choice(s).Some?
    ensures Distance(s.last, Choice(s).value) <= Distance(s.last, j)
    ensures Choice(s).value != j ==> Distance(s.last, Choice(s).value) < Distance(s.last, j)
  {
    hide Distance, Behind;
    var i, d := Scan(s, 1).value, Distance(s.last, j);
    DistanceOf(s.last, i);
    assert Behind(s.last, d) == j;
  }

  // --- bounded bypass ---------------------------------------------------------------------------

  // A waiting thread that is not chosen keeps waiting, and gets nearer.
  lemma Nearer(s: State, op: Op, j: nat)
    requires Sized(s) && Allowed(s, op) && Finds(s, op) && j < MAX_THREAD && Eligible(s, j)
    ensures var s' := Do(s, op);
            s'.current == j ||
            (Eligible(s', j) && if op.Create? then Distance(s'.last, j) == Distance(s.last, j) else Distance(s'.last, j) < Distance(s.last, j))
  {
    if !op.Create? {
      var m := Marked(s, op);
      assert Eligible(m, j);
      ChoiceIsNearest(m, j);
      var c := Choice(m).value;
      if c != j {
        assert Distance(c, j) == Distance(s.last, j) - Distance(s.last, c);
      }
    }
  }

  // The operations are allowed and find threads, and none of them gives j the turn.
  predicate PassesOver(s: State, ops: seq<Op>, j: nat)
    requires Sized(s)
    decreases |ops|
  {
    ops == [] ||
    (Allowed(s, ops[0]) && Finds(s, ops[0]) && Do(s, ops[0]).current != j && PassesOver(Do(s, ops[0]), ops[1..], j))
  }

  function Choices(ops: seq<Op>): (n: nat)
  {
    if ops == [] then 0 else (if ops[0].Create? then 0 else 1) + Choices(ops[1..])
  }

  // A runnable thread is passed over by fewer choices than it has slots to wait for:
  // at most seven, and at most six unless it was the one chosen last.
  lemma {:induction false} BoundedBypass(s: State, ops: seq<Op>, j: nat)
    requires Sized(s) && j < MAX_THREAD && Eligible(s, j) && PassesOver(s, ops, j)
    ensures Choices(ops) < Distance(s.last, j) <= MAX_THREAD
    decreases |ops|
  {
    if ops != [] {
      Nearer(s, ops[0], j);
      BoundedBypass(Do(s, ops[0]), ops[1..], j);
    }
  }

  // --- the fall-back to main ------------------------------------------------------------------------

  // A scan misses a runnable thread exactly if the only one is the one chosen last.
  lemma MissesRunnable(s: State)
    requires Sized(s)
    ensures Choice(s).None? && (exists j: nat :: j < MAX_THREAD && Eligible(s, j)) <==>
      Eligible(s, s.last) && forall j: nat :: j < MAX_THREAD && j != s.last ==> !Eligible(s, j)
  {
    ScanComplete(s);
  }

  // Alone in yielding: the thread gives way to main although it is runnable.
  predicate Alone(s: State, j: nat)
  {
    && Sized(s) && 0 < j < MAX_THREAD && s.last == j
    && forall i: nat :: i < MAX_THREAD && i != j && i != s.current ==> !s.status[i].RUNNABLE?
  }

  lemma SoleYielder(s: State, j: nat)
    requires Alone(s, j) && s.current == j
    ensures var s' := Do(s, Yield); s'.current == 0 && s'.status[j].RUNNABLE? && Alone(s', j)
  {
    var m := Marked(s, Yield);
    ScanComplete(m);
  }

  // And main keeps the turn for ever after, whether it yields or calls thread_schedule.
  lemma {:induction false} Starves(s: State, j: nat, ops: seq<Op>)
    requires Alone(s, j) && s.current == 0 && s.status[j].RUNNABLE?
    requires forall k :: 0 <= k < |ops| ==> ops[k].Yield? || ops[k].Call?
    ensures AllowedRun(s, ops)
    ensures var s' := Run(s, ops); Alone(s', j) && s'.current == 0 && s'.status[j].RUNNABLE?
    decreases |ops|
  {
    if ops != [] {
      ScanComplete(Marked(s, ops[0]));
      Starves(Do(s, ops[0]), j, ops[1..]);
    }
  }

  // --- who is marked as running ------------------------------------------------------------------------

  // The current thread is, unless it is main; and main may be while others run, since
  // it gave way by a direct call.
  predicate Marks(s: State)
  {
    && Sized(s)
    && (forall i: nat :: i < MAX_THREAD && s.status[i].RUNNING? ==> i == s.current || i == 0)
    && (s.current != 0 ==> s.status[s.current].RUNNING?)
  }

  // Every operation keeps this, except exactly a direct call of thread_schedule by a
  // thread that is not main.
  lemma StepKeepsMarks(s: State, op: Op)
    requires Marks(s) && Allowed(s, op)
    ensures Marks(Do(s, op)) <==> !(op.Call? && s.current != 0)
  {
    if op.Call? && s.current != 0 {
      var s' := Do(s, op);
      assert s'.status[s.current].RUNNING?;
    }
  }

  // --- who is gone, and who comes back --------------------------------------------------------

  // A yield leaves its caller to be chosen again, an exit does not; either lets go of the
  // processor unless the caller is main and nobody else can run.
  lemma LeavesExactly(s: State, op: Op)
    requires Sized(s) && (op.Yield? || op.Exit?)
    ensures var t, s' := s.current, Do(s, op);
            && (s'.current == t <==> t == 0 && forall j: nat :: j < MAX_THREAD && j != t ==> !(s.status[j].RUNNABLE? && Reached(s, j)))
            && s'.status[t] == (if op.Exit? then FREE else RUNNABLE)
            && s'.status[s'.current] == (if s'.current == t then s'.status[t] else RUNNING)
            && forall j :: 0 <= j < MAX_THREAD && j != t && j != s'.current ==> s'.status[j] == s.status[j]
  {
    var m := Marked(s, op);
    ScanAll(m);
    hide Scan;
    assert forall j: nat :: j < MAX_THREAD && j != s.current ==> (Eligible(m, j) <==> s.status[j].RUNNABLE?);
  }

  // The scan gets to slot j: it does to all but the one it starts from.
  predicate Reached(s: State, j: nat) { j != s.last }

  lemma ScanAll(s: State)
    requires Sized(s)
    ensures Choice(s).None? <==> forall j: nat :: j < MAX_THREAD && Reached(s, j) ==> !Eligible(s, j)
  {
    hide Scan;
    forall j: nat | j < MAX_THREAD && Reached(s, j)
      ensures 1 <= Distance(s.last, j) < MAX_THREAD && Behind(s.last, Distance(s.last, j)) == j
    {
    }
    if Choice(s).Some? {
      var d := Scan(s, 1).value;
      assert Reached(s, Behind(s.last, d));
    }
  }

  // A thread that has exited is not chosen and stays gone until its slot is used for a new
  // one; only main's slot can come back without that.
  lemma StaysGone(s: State, op: Op, t: nat)
    requires Sized(s) && Allowed(s, op) && 0 < t < MAX_THREAD && t != s.current && s.status[t].FREE?
    ensures var s' := Do(s, op);
            && s'.current != t
            && (s'.status[t] == if op.Create? && FirstFree(s.status) == Some(t) then RUNNABLE else FREE)
  {
    hide Scan;
  }

  // In the run, only main calls thread_schedule directly.
  predicate OnlyMainCalls(s: State, ops: seq<Op>)
    requires Sized(s) && AllowedRun(s, ops)
    decreases |ops|
  {
    ops == [] || (!(ops[0].Call? && s.current != 0) && OnlyMainCalls(Do(s, ops[0]), ops[1..]))
  }

  lemma {:induction false} RunKeepsMarks(s: State, ops: seq<Op>)
    requires Marks(s) && AllowedRun(s, ops) && OnlyMainCalls(s, ops)
    ensures Marks(Run(s, ops))
    decreases |ops|
  {
    if ops != [] {
      StepKeepsMarks(s, ops[0]);
      RunKeepsMarks(Do(s, ops[0]), ops[1..]);
    }
  }

  // From thread_init on, only the current thread and main are marked as running.
  lemma MarksFromInit(ops: seq<Op>)
    requires AllowedRun(Init(), ops) && OnlyMainCalls(Init(), ops)
    ensures Marks(Run(Init(), ops))
  {
    RunKeepsMarks(Init(), ops);
  }

  // Main's first call: some thread runs and main's slot stays marked.
  lemma MainStaysMarked()
    ensures var s := Run(Init(), [Create, Call]);
            AllowedRun(Init(), [Create, Call]) && s.current == 1 && s.status[0].RUNNING? && s.status[1].RUNNING?
  {
    var s0 := Init();
    assert FirstFree(s0.status) == Some(1) by {
      assert s0.status[1].FREE?;
    }
    var s1 := Do(s0, Create);
    assert [Create, Call][1..] == [Call] && [Call][1..] == [];
    assert Eligible(s1, Behind(0, 1));
    assert Choice(s1) == Some(1);
    assert AllowedRun(s1, [Call]) && Run(s1, [Call]) == Do(s1, Call);
  }

  // Bounded bypass at any point of any run from thread_init.
  lemma BypassFromInit(before: seq<Op>, ops: seq<Op>, j: nat)
    requires AllowedRun(Init(), before) && j < MAX_THREAD
    requires var s := Run(Init(), before); Eligible(s, j) && PassesOver(s, ops, j)
    ensures Choices(ops) < MAX_THREAD
  {
    BoundedBypass(Run(Init(), before), ops, j);
  }

  // --- the code -------------------------------------------------------------------------------------------

  class Threads {
    const status: array<Status>
    var current: nat
    var last: nat

    ghost function S(): (s: State)
      reads this, status
    {
      State(status[..], current, last)
    }

    ghost predicate Valid()
      reads this, status
    {
      Marks(S())
    }

    // thread_init
    constructor ()
      ensures Valid() && S() == Init() && fresh(status)
    {
      status := new Status[MAX_THREAD](i => if i == 0 then RUNNING else FREE);
      current, last := 0, 0;
    }

    method ThreadSchedule()
      requires Sized(S())
      modifies this, status
      ensures Sized(S()) && S() == Schedule(old(S())) == Do(old(S()), Call)
      ensures old(Valid()) ==> (Valid() <==> old(current) == 0)
    {
      hide Scan;
      ghost var s := S();
      var found: Option<nat> := None;
      var i := 1;
      ScanHere(s, 1);
      while i < MAX_THREAD && found.None?
        invariant 1 <= i <= MAX_THREAD && S() == s && Scan(s, 1) == Scan(s, i)
        invariant found.Some? ==> i < MAX_THREAD && Scan(s, i) == Some(i) && found.value == Behind(last, i)
        decreases MAX_THREAD - i, found.None?
      {
        ScanHere(s, i);
        var t := (last + i) % MAX_THREAD;
        if status[t] == RUNNABLE && t != current {
          found := Some(t);
        } else {
          i := i + 1;
        }
      }
      if found.None? {
        ScanHere(s, i);
      } else {
        last := found.value;
      }
      var next := if found.Some? then found.value else 0;
      if current != next {
        status[next] := RUNNING;
        current := next;
      }
      if Marks(s) {
        StepKeepsMarks(s, Call);
      }
    }

    method ThreadYield()
      requires Sized(S())
      modifies this, status
      ensures Sized(S()) && S() == Do(old(S()), Yield)
      ensures old(Valid()) ==> Valid()
    {
      status[current] := RUNNABLE;
      assert S() == Marked(old(S()), Yield);
      if Marks(old(S())) {
        StepKeepsMarks(old(S()), Yield);
      }
      ThreadSchedule();
    }

    method ThreadExit()
      requires Sized(S())
      modifies this, status
      ensures Sized(S()) && S() == Do(old(S()), Exit)
      ensures old(Valid()) ==> Valid()
    {
      status[current] := FREE;
      assert S() == Marked(old(S()), Exit);
      if Marks(old(S())) {
        StepKeepsMarks(old(S()), Exit);
      }
      ThreadSchedule();
    }

    method ThreadCreate()
      requires Sized(S()) && Allowed(S(), Create)
      modifies status
      ensures Sized(S()) && S() == Do(old(S()), Create)
      ensures old(Valid()) ==> Valid()
    {
      var t := 0;
      while status[t] != FREE
        invariant t <= FirstFree(status[..]).value
        decreases MAX_THREAD - t
      {
        t := t + 1;
      }
      status[t] := RUNNABLE;
    }
  }

  lemma ScanHere(s: State, i: nat)
    requires Sized(s) && 1 <= i <= MAX_THREAD
    ensures i == MAX_THREAD ==> Scan(s, i) == None
    ensures i < MAX_THREAD ==> Scan(s, i) == if Eligible(s, Behind(s.last, i)) then Some(i) else Scan(s, i + 1)
  {
  }
}
