/** add_request as it is written: the test of `s->_next` (coro_mutex.h:147) is a read of its own, after
    the compare-exchange. MutexSteps takes both as one step; this module has a thread stand between
    them, and says exactly in which runs that makes no difference.

    Between the two the slot is in the hands of others. An unlock may move it to `_queue`, writing its
    field, and may resume it, which ends its life and gives its memory up. */
module MutexReread {
  import opened Options
  import opened Sequences
  import opened MutexSteps
  import Runs = MutexRuns

  /** A test still to come: of the slot `s`, which is `held` until it is resumed. */
  datatype Test = Test(s: Slot, held: bool)

  /** `st` is the state of the mutex. A thread with a test to come stands in it where the value that
      its compare-exchange found would have it stand; the test does not look at that. */
  datatype Split = Split(st: State, testing: map<Thread, Test>)

  const SPLIT_INIT := Split(INIT, map[])

  datatype Act2 = Step(l: Label) | Reread(t: Thread)

  function GiveUp(testing: map<Thread, Test>, s: Slot): map<Thread, Test> {
    map t | t in testing :: if testing[t].s == s then testing[t].(held := false) else testing[t]
  }

  /** Line 147: the slot takes the lock if and only if its field is null now. */
  function RereadStep(ss: Split, t: Thread): (Split, Event)
    requires t in ss.testing
  {
    var test := ss.testing[t];
    if !test.held || test.s !in ss.st.next then (ss.(testing := ss.testing - {t}), Fault)
    else (Split(Goto(ss.st, t, if ss.st.next[test.s] == Null then Won(test.s) else Idle), ss.testing - {t}), Tau)
  }

  function SplitNext(ss: Split, a: Act2): (Split, Event) {
    match a
    case Reread(t) => if t in ss.testing then RereadStep(ss, t) else (ss, Tau)
    case Step(l) =>
      if l.t in ss.testing then (ss, Tau)
      else
        var (st', e) := Next(ss.st, l);
        match e
        case Pushed(s) => (Split(st', ss.testing[l.t := Test(s, true)]), e)
        case Resumed(s) => (Split(st', GiveUp(ss.testing, s)), e)
        case _ => (Split(st', ss.testing), e)
  }

  function SplitExec(ss: Split, acts: seq<Act2>): (Split, seq<Event>)
    decreases |acts|
  {
    if acts == [] then (ss, [])
    else
      var (ss1, e) := SplitNext(ss, acts[0]);
      var (ss2, es) := SplitExec(ss1, acts[1..]);
      (ss2, [e] + es)
  }

  /** The slot `s` is the last of `_queue`. */
  ghost predicate LastOfQueue(st: State, s: Slot) {
    exists q: seq<Slot> :: Links(st.next, st.queue, q, Null) && q != [] && q[|q| - 1] == s
  }

  /** A test taken while its slot is the last of `_queue`, or after its memory was given up. */
  ghost predicate Late(ss: Split, a: Act2) {
    a.Reread? && a.t in ss.testing && (!ss.testing[a.t].held || LastOfQueue(ss.st, ss.testing[a.t].s))
  }

  ghost predicate NeverLate(ss: Split, acts: seq<Act2>)
    decreases |acts|
  {
    acts != [] ==> !Late(ss, acts[0]) && NeverLate(SplitNext(ss, acts[0]).0, acts[1..])
  }

  /** At most one live ownership, acquiring thread or unlocking thread. */
  ghost predicate Exclusion(st: State) {
    && |st.owners| <= 1
    && (forall t: Thread, u: Thread :: Critical(PcOf(st, t)) && Critical(PcOf(st, u)) ==> t == u)
    && (st.owners != [] ==> forall t: Thread :: !Critical(PcOf(st, t)))
  }

  /** Every state of the run keeps mutual exclusion, and no step dereferences what it must not. */
  ghost predicate Safe(ss: Split, acts: seq<Act2>)
    decreases |acts|
  {
    && Exclusion(ss.st)
    && (acts != [] ==> SplitNext(ss, acts[0]).1 != Fault && Safe(SplitNext(ss, acts[0]).0, acts[1..]))
  }

  // ---------- What a test finds ----------

  predicate Names(pc: Pc, s: Slot) {
    pc == Pushing(s) || pc == Won(s) || (pc.Reversing? && pc.to == At(s))
  }

  /** Where a thread with a test to come stands: at Won, its field still null, if the compare-exchange
      found null; otherwise idle, and then the slot, while it is held, is one of those waiting. */
  ghost predicate TestOk(st: State, t: Thread, test: Test) {
    && t in st.pcs
    && (if st.pcs[t] == Won(test.s) then test.held && test.s in st.next && st.next[test.s] == Null
        else st.pcs[t] == Idle && (test.held ==>
               test.s in st.next && forall u: Thread :: !Names(PcOf(st, u), test.s)))
  }

  ghost predicate SplitInv(ss: Split, g: Lists) {
    Inv(ss.st, g) && forall t: Thread :: t in ss.testing ==> TestOk(ss.st, t, ss.testing[t])
  }

  /** Along a list that does not run past its end, a null field is that of the last slot, and then the
      list ends in null. */
  lemma {:induction false} NullIsLast(next: map<Slot, Ptr>, from: Ptr, xs: seq<Slot>, to: Ptr, k: nat)
    requires Links(next, from, xs, to) && k < |xs|
    ensures xs[k] in next
    ensures next[xs[k]] == Null <==> k == |xs| - 1 && to == Null
    decreases |xs|
  {
    if k > 0 {
      NullIsLast(next, next[xs[0]], xs[1..], to, k - 1);
    }
  }

  lemma FieldOf(next: map<Slot, Ptr>, from: Ptr, xs: seq<Slot>, to: Ptr, s: Slot)
    requires Links(next, from, xs, to) && s in xs && Distinct(xs)
    ensures s in next
    ensures next[s] == Null <==> xs[|xs| - 1] == s && to == Null
  {
    var k :| 0 <= k < |xs| && xs[k] == s;
    NullIsLast(next, from, xs, to, k);
  }

  lemma LastOfLists(st: State, g: Lists, s: Slot)
    requires Inv(st, g)
    ensures LastOfQueue(st, s) <==> g.queue != [] && g.queue[|g.queue| - 1] == s
  {
    forall q: seq<Slot> | Links(st.next, st.queue, q, Null)
      ensures q == g.queue
    {
      LinksUnique(st.next, st.queue, q, g.queue, Null);
    }
  }

  /** A waiting slot has a null field if and only if it is the last of `_queue`. */
  lemma WaitingField(st: State, g: Lists, s: Slot)
    requires Inv(st, g) && s in st.next && forall u: Thread :: !Names(PcOf(st, u), s)
    ensures st.next[s] == Null <==> LastOfQueue(st, s)
  {
    LastOfLists(st, g, s);
    var pc := CritPc(st, g);
    assert g.role[s] != Winner;
    assert !g.role[s].Pusher?;
    if s in g.stack {
      FieldOf(st.next, st.requests, g.stack, Bottom(pc), s);
    } else if s in g.queue {
      FieldOf(st.next, st.queue, g.queue, Null, s);
    } else {
      assert s in g.pending;
      FieldOf(st.next, pc.from, g.pending, pc.to, s);
    }
  }

  // ---------- One step ----------

  /** A step of another thread leaves a waiting slot waiting, or resumes it. */
  lemma StillWaits(st: State, l: Label, s: Slot)
    requires s in st.next && forall u: Thread :: !Names(PcOf(st, u), s)
    ensures var (st', e) := Next(st, l);
            e == Resumed(s) || e == Fault || (s in st'.next && forall u: Thread :: !Names(PcOf(st', u), s))
  {
    var (st', e) := Next(st, l);
    forall u: Thread
      ensures e == Resumed(s) || e == Fault || !Names(PcOf(st', u), s)
    {
      if u != l.t {
        Runs.OthersKeepPc(st, l, u);
      }
    }
  }

  /** What a winner finds in its field is its own until it goes on. */
  lemma StillWins(st: State, g: Lists, l: Label, t: Thread, s: Slot)
    requires Inv(st, g) && l.t != t && PcOf(st, t) == Won(s) && s in st.next && st.next[s] == Null
    ensures var st' := Next(st, l).0; PcOf(st', t) == Won(s) && s in st'.next && st'.next[s] == Null
    ensures Next(st, l).1 != Resumed(s)
  {
    assert Critical(PcOf(st, t)) && !Critical(PcOf(st, l.t));
    assert s in WinnerOf(CritPc(st, g)) && g.role[s] == Winner;
    assert PcOf(st, l.t) != Pushing(s);
    Runs.OthersKeepPc(st, l, t);
    Runs.WritesArePrivate(st, l);
  }

  lemma PcsOnlyGrow(st: State, l: Label)
    ensures st.pcs.Keys <= Next(st, l).0.pcs.Keys
  {}

  lemma TestStays(st: State, g: Lists, l: Label, t: Thread, test: Test)
    requires Inv(st, g) && l.t != t && TestOk(st, t, test) && Next(st, l).1 != Fault
    ensures var (st', e) := Next(st, l);
            TestOk(st', t, if e == Resumed(test.s) then test.(held := false) else test)
  {
    PcsOnlyGrow(st, l);
    Runs.OthersKeepPc(st, l, t);
    if st.pcs[t] == Won(test.s) {
      StillWins(st, g, l, t, test.s);
    } else if test.held {
      StillWaits(st, l, test.s);
    }
  }

  lemma NamesItsRole(st: State, g: Lists, u: Thread, s: Slot)
    requires Inv(st, g) && Names(PcOf(st, u), s)
    ensures s in g.role && (g.role[s] == Pusher(u) || g.role[s] == Winner)
  {
    if Critical(PcOf(st, u)) {
      assert s in WinnerOf(CritPc(st, g));
    }
  }

  lemma PushedFrom(st: State, l: Label)
    requires Next(st, l).1.Pushed?
    ensures var (st', e) := Next(st, l);
            && PcOf(st, l.t) == Pushing(e.s) && e.s in st.next && st.next[e.s] == st.requests
            && st' == Goto(st.(requests := At(e.s)), l.t, if st.requests == Null then Won(e.s) else Idle)
  {}

  lemma NobodyElseNames(st: State, g: Lists, t: Thread, u: Thread, s: Slot)
    requires Inv(st, g) && PcOf(st, t) == Pushing(s) && u != t
    ensures !Names(PcOf(st, u), s)
  {
    NamesItsRole(st, g, t, s);
    assert g.role[s] == Pusher(t);
    if Names(PcOf(st, u), s) {
      NamesItsRole(st, g, u, s);
      assert false;
    }
  }

  /** The thread that has pushed its slot. */
  lemma TestStarts(st: State, g: Lists, l: Label)
    requires Inv(st, g) && Next(st, l).1.Pushed?
    ensures var (st', e) := Next(st, l); TestOk(st', l.t, Test(e.s, true))
  {
    PushedFrom(st, l);
    var (st', e) := Next(st, l);
    forall u: Thread | u != l.t
      ensures !Names(PcOf(st', u), e.s)
    {
      NobodyElseNames(st, g, l.t, u, e.s);
    }
  }

  lemma TestKept(ss: Split, g: Lists, l: Label, t: Thread)
    requires SplitInv(ss, g) && l.t !in ss.testing && Next(ss.st, l).1 != Fault
    requires t in SplitNext(ss, Step(l)).0.testing
    ensures var ss' := SplitNext(ss, Step(l)).0; TestOk(ss'.st, t, ss'.testing[t])
  {
    if t == l.t {
      TestStarts(ss.st, g, l);
    } else {
      assert TestOk(ss.st, t, ss.testing[t]);
      TestStays(ss.st, g, l, t, ss.testing[t]);
    }
  }

  lemma StepKeepsSplit(ss: Split, g: Lists, l: Label) returns (g': Lists)
    requires SplitInv(ss, g)
    ensures var (ss', e) := SplitNext(ss, Step(l)); SplitInv(ss', g') && FifoStep(Abs(ss.st, g), e, Abs(ss'.st, g'))
  {
    g' := g;
    if l.t !in ss.testing {
      g' := StepRefines(ss.st, g, l);
      assert Next(ss.st, l).1 != Fault;
      var ss' := SplitNext(ss, Step(l)).0;
      assert ss'.st == Next(ss.st, l).0 && SplitNext(ss, Step(l)).1 == Next(ss.st, l).1;
      forall t: Thread | t in ss'.testing
        ensures TestOk(ss'.st, t, ss'.testing[t])
      {
        TestKept(ss, g, l, t);
      }
    }
  }

  /** The test that is not late finds what the compare-exchange found, and changes nothing. */
  lemma TimelyTest(ss: Split, g: Lists, t: Thread)
    requires SplitInv(ss, g) && t in ss.testing && !Late(ss, Reread(t))
    ensures SplitNext(ss, Reread(t)) == (Split(ss.st, ss.testing - {t}), Tau)
  {
    var test := ss.testing[t];
    assert TestOk(ss.st, t, test);
    if ss.st.pcs[t] != Won(test.s) {
      WaitingField(ss.st, g, test.s);
    }
    assert ss.st.pcs[t := ss.st.pcs[t]] == ss.st.pcs;
  }

  /** The test that is late reads memory that was given up, or sets a second thread into the lock. */
  lemma LateTest(ss: Split, g: Lists, t: Thread)
    requires SplitInv(ss, g) && Late(ss, Reread(t))
    ensures var (ss', e) := SplitNext(ss, Reread(t)); e == Fault || !Exclusion(ss'.st)
    ensures ss.testing[t].held ==> Critical(PcOf(SplitNext(ss, Reread(t)).0.st, t)) && PcOf(ss.st, t) == Idle
  {
    var test := ss.testing[t];
    assert TestOk(ss.st, t, test);
    if test.held {
      LastOfLists(ss.st, g, test.s);
      assert test.s in g.queue && g.role[test.s] == OnQueue;
      if ss.st.pcs[t] == Won(test.s) {
        NamesItsRole(ss.st, g, t, test.s);
        assert false;
      }
      WaitingField(ss.st, g, test.s);
      var st' := SplitNext(ss, Reread(t)).0.st;
      assert Critical(PcOf(st', t));
      if ss.st.owners == [] {
        assert g.crit.Some? && g.crit.value != t;
        assert Critical(PcOf(ss.st, g.crit.value)) && PcOf(st', g.crit.value) == PcOf(ss.st, g.crit.value);
      }
    }
  }

  // ---------- Whole runs ----------

  lemma InvExcludes(ss: Split, g: Lists)
    requires SplitInv(ss, g)
    ensures Exclusion(ss.st)
  {}

  lemma {:induction false} TimelyRun(ss: Split, g: Lists, acts: seq<Act2>) returns (g': Lists)
    requires SplitInv(ss, g) && NeverLate(ss, acts)
    ensures var (ss', es) := SplitExec(ss, acts);
            SplitInv(ss', g') && Runs.FifoRun(Abs(ss.st, g), es, Abs(ss'.st, g'))
    decreases |acts|
  {
    g' := g;
    if acts != [] {
      var (ss1, e) := SplitNext(ss, acts[0]);
      var g1 := TimelyStep(ss, g, acts[0]);
      g' := TimelyRun(ss1, g1, acts[1..]);
      var (ss', es) := SplitExec(ss1, acts[1..]);
      assert ([e] + es)[1..] == es;
      assert FifoStep(Abs(ss.st, g), e, Abs(ss1.st, g1)) && Runs.FifoRun(Abs(ss1.st, g1), es, Abs(ss'.st, g'));
    }
  }

  lemma TimelyStep(ss: Split, g: Lists, a: Act2) returns (g': Lists)
    requires SplitInv(ss, g) && !Late(ss, a)
    ensures var (ss', e) := SplitNext(ss, a); SplitInv(ss', g') && FifoStep(Abs(ss.st, g), e, Abs(ss'.st, g'))
  {
    match a
    case Step(l) => g' := StepKeepsSplit(ss, g, l);
    case Reread(t) =>
      g' := g;
      if t in ss.testing {
        TimelyTest(ss, g, t);
      }
  }

  lemma {:induction false} SafeFrom(ss: Split, g: Lists, acts: seq<Act2>)
    requires SplitInv(ss, g)
    ensures Safe(ss, acts) <==> NeverLate(ss, acts)
    decreases |acts|
  {
    InvExcludes(ss, g);
    if acts != [] {
      if Late(ss, acts[0]) {
        LateTest(ss, g, acts[0].t);
        assert !Safe(ss, acts);
      } else {
        var g1 := TimelyStep(ss, g, acts[0]);
        SafeFrom(SplitNext(ss, acts[0]).0, g1, acts[1..]);
      }
    }
  }

  /** The exact condition: with the test as a later read, a run keeps mutual exclusion in every state
      and dereferences nothing it must not, if and only if no test is taken while its slot is the last
      of `_queue` or after the slot was resumed. */
  lemma RereadExactly(acts: seq<Act2>)
    ensures Safe(SPLIT_INIT, acts) <==> NeverLate(SPLIT_INIT, acts)
  {
    Runs.InitHolds();
    SafeFrom(SPLIT_INIT, Runs.NO_LISTS, acts);
  }

  /** In such a run the later test finds what the compare-exchange found, and all that holds of the
      FIFO lock holds of it: the slots resumed, followed by the line, are the slots pushed. */
  lemma TimelyIsFifo(acts: seq<Act2>) returns (g: Lists)
    requires NeverLate(SPLIT_INIT, acts)
    ensures var (ss, es) := SplitExec(SPLIT_INIT, acts);
            && Inv(ss.st, g) && Exclusion(ss.st) && Fault !in es
            && Runs.FifoRun(Fifo(false, []), es, Abs(ss.st, g))
            && Runs.Pushes(es) == Runs.Resumes(es) + Due(ss.st, g)
  {
    Runs.InitHolds();
    g := TimelyRun(SPLIT_INIT, Runs.NO_LISTS, acts);
    var (ss, es) := SplitExec(SPLIT_INIT, acts);
    InvExcludes(ss, g);
    Runs.FifoConserves(Fifo(false, []), es, Abs(ss.st, g));
    assert [] + Runs.Pushes(es) == Runs.Pushes(es);
  }

  // ---------- It happens ----------

  const OVERTAKEN: seq<Act2> := [
    Step(Label(0, TryLock)), Step(Label(1, Request(5))), Step(Label(1, Continue)), Step(Label(1, Continue)),
    Step(Label(0, Unlock(0))), Step(Label(0, Continue)), Step(Label(0, Continue)), Step(Label(0, Continue))]

  /** Thread 0 owns the lock and thread 1 pushes slot 5. Before its test thread 0 unlocks and moves the
      slot to `_queue`, setting its field to null: then the test sets thread 1 into the lock beside
      thread 0. */
  lemma RereadBreaksExclusion() returns (acts: seq<Act2>)
    ensures acts == OVERTAKEN
    ensures var ss := SplitExec(SPLIT_INIT, acts).0;
            && 1 in ss.testing && ss.testing[1] == Test(5, true)
            && var st := SplitNext(ss, Reread(1)).0.st; Critical(PcOf(st, 0)) && Critical(PcOf(st, 1))
  {
    var i: nat :| i == 0;
    acts := OVERTAKEN[i..];
    assert SPLIT_INIT == OvertakenState(i);
    OvertakenFrom(i);
  }

  lemma {:induction false} OvertakenFrom(i: nat)
    requires i <= 8
    ensures SplitExec(OvertakenState(i), OVERTAKEN[i..]).0 == OvertakenState(8)
    decreases 8 - i
  {
    if i < 8 {
      OvertakenStep(i);
      assert OVERTAKEN[i..][1..] == OVERTAKEN[i + 1..];
      OvertakenFrom(i + 1);
    }
  }

  lemma OvertakenStep(i: nat)
    requires i < 8
    ensures SplitNext(OvertakenState(i), OVERTAKEN[i]).0 == OvertakenState(i + 1)
  {}

  /** The states of that run. */
  function OvertakenState(i: nat): Split {
    var requests := if i == 0 then Null else if i < 4 || i > 6 then Doorman else At(5);
    var next := if i < 2 then map[] else if i == 2 || i == 8 then map[5 := Null] else map[5 := Doorman];
    var owners := if 1 <= i < 5 then [Tried(0)] else [];
    var pc1 := if i < 4 then Pushing(5) else Idle;
    var pc0 := if i == 5 then Unlocking else if i == 6 then Contended
               else if i == 7 then Reversing(At(5), Doorman) else Reversing(Doorman, Doorman);
    var pcs := if i < 2 then map[] else if i < 5 then map[1 := pc1] else map[1 := pc1, 0 := pc0];
    Split(State(requests, if i == 8 then At(5) else Null, next, pcs, owners),
          if i < 4 then map[] else map[1 := Test(5, true)])
  }
}
