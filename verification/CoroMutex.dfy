/** coro_mutex as the imperative code it is, with the loops of `add_request` and `make_queue` over
    `_next` links, among other threads: before each atomic operation, and in each turn of the loop in
    `make_queue`, the others take any number of steps. What they do is the `script`, burst by burst;
    it is not looked at by the code, so what is proved holds for every script.

    Each method is a run of MutexSteps, by its thread and the others, and that is how its effect on the
    line of requests is known. */
module CoroMutexCode {
  import opened Options
  import opened MutexSteps
  import opened MutexRuns
  import opened MutexReread

  /** A run so far: where it started, as a state and as a FIFO lock, its labels and events, what was
      resumed and pushed, and the lists now. */
  datatype Trace = Trace(
    st0: State,
    f0: Fifo,
    ls: seq<Label>,
    es: seq<Event>,
    resumed: seq<Slot>,
    pushed: seq<Slot>,
    g: Lists)

  ghost function Begin(st: State, g: Lists): Trace {
    Trace(st, Abs(st, g), [], [], [], [], g)
  }

  /** The trace is a run of MutexSteps and of the FIFO lock, and leads to `st`. */
  ghost predicate Ran(tr: Trace, st: State) {
    Inv(st, tr.g) && Exec(tr.st0, tr.ls) == (st, tr.es) && Refined(tr, st)
  }

  ghost predicate Refined(tr: Trace, st: State) {
    FifoRun(tr.f0, tr.es, Abs(st, tr.g)) && tr.resumed == Resumes(tr.es) && tr.pushed == Pushes(tr.es)
  }

  /** `later` is a run from where `tr` started. */
  ghost predicate Continues(tr: Trace, later: Trace) {
    later.st0 == tr.st0 && later.f0 == tr.f0
  }

  /** The step of `t` from `st` does `e` and leads to `st'`. */
  ghost predicate Does(st: State, t: Thread, a: Act, e: Event, st': State) {
    Next(st, Label(t, a)) == (st', e)
  }

  lemma {:induction false} ExecSnoc(st: State, ls: seq<Label>, l: Label)
    ensures var (st1, es) := Exec(st, ls); var (st2, e) := Next(st1, l); Exec(st, ls + [l]) == (st2, es + [e])
    decreases |ls|
  {
    if ls == [] {
      var one := [l];
      assert ls + [l] == one && one[1..] == [];
      assert Exec(Next(st, l).0, []) == (Next(st, l).0, []);
      assert [Next(st, l).1] + [] == [] + [Next(st, l).1];
    } else {
      assert (ls + [l])[0] == ls[0] && (ls + [l])[1..] == ls[1..] + [l];
      ExecSnoc(Next(st, ls[0]).0, ls[1..], l);
      var (st1, es) := Exec(Next(st, ls[0]).0, ls[1..]);
      assert [Next(st, ls[0]).1] + (es + [Next(st1, l).1]) == ([Next(st, ls[0]).1] + es) + [Next(st1, l).1];
    }
  }

  lemma {:induction false} FifoRunSnoc(f0: Fifo, es: seq<Event>, f: Fifo, e: Event, f': Fifo)
    requires FifoRun(f0, es, f) && FifoStep(f, e, f')
    ensures FifoRun(f0, es + [e], f')
    decreases |es|
  {
    if es == [] {
      assert [] + [e] == [e] && [e][1..] == [];
      assert FifoRun(f', [e][1..], f');
    } else {
      assert (es + [e])[0] == es[0] && (es + [e])[1..] == es[1..] + [e];
      var m :| FifoStep(f0, es[0], m) && FifoRun(m, es[1..], f);
      FifoRunSnoc(m, es[1..], f, e, f');
      assert FifoRun(m, (es + [e])[1..], f');
    }
  }

  lemma {:induction false} EventsSnoc(es: seq<Event>, e: Event)
    ensures Pushes(es + [e]) == if e.Pushed? then Pushes(es) + [e.s] else Pushes(es)
    ensures Resumes(es + [e]) == if e.Resumed? then Resumes(es) + [e.s] else Resumes(es)
  {
    if es == [] {
      assert [] + [e] == [e] && [e][1..] == [];
    } else {
      assert (es + [e])[0] == es[0] && (es + [e])[1..] == es[1..] + [e];
      EventsSnoc(es[1..], e);
    }
  }

  lemma StepTo(st: State, g: Lists, l: Label, e: Event, st': State) returns (g': Lists)
    requires Inv(st, g) && Next(st, l) == (st', e)
    ensures Inv(st', g') && FifoStep(Abs(st, g), e, Abs(st', g'))
    ensures PcOf(st, l.t).Reversing? && PcOf(st', l.t).Reversing? ==> |g'.pending| < |g.pending|
    ensures g.crit.Some? && g.crit.value != l.t ==> g'.pending == g.pending
  {
    g' := StepRefines(st, g, l);
  }

  /** `tr'` is the trace `tr` with one more step, by whichever thread, that does `e`. */
  ghost predicate More(tr: Trace, e: Event, tr': Trace) {
    && Continues(tr, tr') && tr'.es == tr.es + [e]
    && tr'.resumed == (if e.Resumed? then tr.resumed + [e.s] else tr.resumed)
    && tr'.pushed == (if e.Pushed? then tr.pushed + [e.s] else tr.pushed)
  }

  lemma RunsOn(tr: Trace, st: State, l: Label, e: Event, st': State) returns (tr': Trace)
    requires Ran(tr, st) && Next(st, l) == (st', e)
    ensures Ran(tr', st') && More(tr, e, tr') && FifoStep(Abs(st, tr.g), e, Abs(st', tr'.g))
    ensures PcOf(st, l.t).Reversing? && PcOf(st', l.t).Reversing? ==> |tr'.g.pending| < |tr.g.pending|
    ensures tr.g.crit.Some? && tr.g.crit.value != l.t ==> tr'.g.pending == tr.g.pending
  {
    var g' := StepTo(st, tr.g, l, e, st');
    ExecSnoc(tr.st0, tr.ls, l);
    EventsSnoc(tr.es, e);
    FifoRunSnoc(tr.f0, tr.es, Abs(st, tr.g), e, Abs(st', g'));
    tr' := Trace(tr.st0, tr.f0, tr.ls + [l], tr.es + [e],
                 if e.Resumed? then tr.resumed + [e.s] else tr.resumed,
                 if e.Pushed? then tr.pushed + [e.s] else tr.pushed, g');
  }

  /** What was due or pushed has been resumed or is due, in that order. */
  lemma Conserved(tr: Trace, st: State)
    requires Ran(tr, st)
    ensures tr.f0.due + tr.pushed == tr.resumed + Due(st, tr.g) && Fault !in tr.es
  {
    FifoConserves(tr.f0, tr.es, Abs(st, tr.g));
  }

  /** One slot was resumed: it was the first of what was due or pushed, and the rest is due. */
  lemma ServedFirst(tr: Trace, st: State, f: Slot)
    requires Ran(tr, st) && tr.resumed == [f]
    ensures var line := tr.f0.due + tr.pushed; line != [] && line[0] == f && Due(st, tr.g) == line[1..]
  {
    Conserved(tr, st);
    assert ([f] + Due(st, tr.g))[1..] == Due(st, tr.g);
  }

  lemma BeginsRan(st: State, g: Lists)
    requires Inv(st, g)
    ensures Ran(Begin(st, g), st)
  {}

  /** While a thread is acquiring or unlocking, the others can only push, and write neither the queue nor
      what the thread has captured. */
  lemma OthersOnlyPush(st: State, g: Lists, t: Thread, l: Label)
    requires Inv(st, g) && Critical(PcOf(st, t)) && l.t != t
    ensures var (st', e) := Next(st, l);
            !e.Resumed? && st'.queue == st.queue && st'.owners == [] && PcOf(st', t) == PcOf(st, t)
    ensures g.crit == Some(t) && st.owners == []
  {
    assert g.crit == Some(t);
    assert !Critical(PcOf(st, l.t));
    OthersKeepPc(st, l, t);
  }

  /** What make_queue dereferences is a slot in use: neither null, nor the doorman, nor dead. */
  lemma CapturedIsLive(st: State, g: Lists, t: Thread)
    requires Inv(st, g) && PcOf(st, t).Reversing? && PcOf(st, t).from != PcOf(st, t).to
    ensures PcOf(st, t).from.At? && PcOf(st, t).from.slot in st.next
  {
    assert Critical(PcOf(st, t));
  }

  /** Nor is the queue empty when unlock takes its first. */
  lemma QueueIsLive(st: State, g: Lists, t: Thread)
    requires Inv(st, g) && PcOf(st, t).Popping?
    ensures st.queue.At? && st.queue.slot in st.next && st.owners == []
  {
    assert Critical(PcOf(st, t));
  }

  lemma CriticalOwnsNothing(st: State, g: Lists, t: Thread)
    requires Inv(st, g) && Critical(PcOf(st, t))
    ensures st.owners == []
  {}

  lemma PushedIsLive(st: State, g: Lists, t: Thread)
    requires Inv(st, g) && PcOf(st, t).Pushing?
    ensures PcOf(st, t).s in st.next
  {}

  /** The last step pushed `s`, which is due last. */
  ghost predicate EndsWithPush(tr: Trace, st: State, s: Slot) {
    && tr.es != [] && tr.es[|tr.es| - 1] == Pushed(s)
    && Due(st, tr.g) != [] && Due(st, tr.g)[|Due(st, tr.g)| - 1] == s
  }

  ghost predicate HasPushed(tr: Trace, st: State, t: Thread, s: Slot, found: Ptr) {
    && EndsWithPush(tr, st, s) && TestOk(st, t, Test(s, true))
    && PcOf(st, t) == (if found == Null then Won(s) else Idle)
    && (found == Null ==> Due(st, tr.g) == [s])
  }

  lemma PushedLast(tr: Trace, st: State, tr': Trace, st': State, s: Slot)
    requires More(tr, Pushed(s), tr') && FifoStep(Abs(st, tr.g), Pushed(s), Abs(st', tr'.g))
    ensures EndsWithPush(tr', st', s) && (st.requests == Null ==> Due(st', tr'.g) == [s])
  {}

  /** The test to come of `s`, which is held unless it was resumed in the run since its push. */
  ghost function TestOf(tr: Trace, s: Slot): Test {
    Test(s, s !in tr.resumed)
  }

  lemma TestGoesOn(tr: Trace, st: State, l: Label, e: Event, tr': Trace, t: Thread, s: Slot)
    requires Inv(st, tr.g) && l.t != t && TestOk(st, t, TestOf(tr, s)) && Next(st, l).1 == e
    requires e != Fault && More(tr, e, tr')
    ensures TestOk(Next(st, l).0, t, TestOf(tr', s))
  {
    TestStays(st, tr.g, l, t, TestOf(tr, s));
  }

  /** The thread between its push and its test, alone in the split system. */
  ghost function Between(st: State, tr: Trace, t: Thread, s: Slot): Split {
    Split(st, map[t := TestOf(tr, s)])
  }

  /** A test that is not late finds null if and only if the compare-exchange did. */
  lemma TimelyFinds(st: State, tr: Trace, t: Thread, s: Slot)
    requires Inv(st, tr.g) && TestOk(st, t, TestOf(tr, s)) && !Late(Between(st, tr, t, s), Reread(t))
    ensures s in st.next && (st.next[s] == Null <==> PcOf(st, t) == Won(s))
    ensures PcOf(st, t) == Won(s) || PcOf(st, t) == Idle
  {
    var ss := Between(st, tr, t, s);
    TimelyTest(ss, tr.g, t);
    assert SplitNext(ss, Reread(t)).0.st == st;
  }

  /** What steps of the others do to the run of `t`: they go on with it, `t` stays where it stands, and
      while it is acquiring or unlocking nobody is resumed, and the queue and what it captured are as
      they were. */
  ghost predicate Goes(st: State, tr: Trace, t: Thread, st': State, tr': Trace) {
    && Ran(tr', st') && Continues(tr, tr') && PcOf(st', t) == PcOf(st, t)
    && (Critical(PcOf(st, t)) ==>
          && tr'.resumed == tr.resumed && st'.queue == st.queue && st'.owners == st.owners
          && tr'.g.pending == tr.g.pending)
  }

  lemma GoesOn(st: State, tr: Trace, t: Thread, st1: State, tr1: Trace, st2: State, tr2: Trace)
    requires Goes(st, tr, t, st1, tr1) && Goes(st1, tr1, t, st2, tr2)
    ensures Goes(st, tr, t, st2, tr2)
  {}

  class CoroMutex {
    var requests: Ptr
    var queue: Ptr
    var next: map<Slot, Ptr>          // the `_next` fields of the slots in use

    // Not fields of the source, but what the steps of the other threads depend on: where the threads
    // stand, the live ownership objects, and what the others are going to do.
    var pcs: map<Thread, Pc>
    var owners: seq<Owner>
    var script: seq<seq<Label>>

    function View(): State
      reads this
    {
      State(requests, queue, next, pcs, owners)
    }

    constructor (script0: seq<seq<Label>>)
      ensures View() == INIT && script == script0
    {
      requests, queue, next, pcs, owners, script := Null, Null, map[], map[], [], script0;
    }

    method TryLock(t: Thread) returns (ok: bool)
      requires PcOf(View(), t) == Idle
      modifies `requests, `owners
      ensures Does(old(View()), t, Act.TryLock, if ok then TryAcquired else Tau, View())
      ensures ok == (old(requests) == Null)
    {
      ok := requests == Null;
      if ok {
        requests := Doorman;
        owners := owners + [Tried(t)];
      }
    }

    /** The callback of lock, which zeroes `_next` and enters add_request. */
    method Request(t: Thread, s: Slot)
      requires PcOf(View(), t) == Idle && s !in next
      modifies `next, `pcs
      ensures Does(old(View()), t, Act.Request(s), Tau, View()) && PcOf(View(), t) == Pushing(s)
    {
      next := next[s := Null];
      pcs := pcs[t := Pushing(s)];
    }

    // ---------- The atomic operations and the code between them ----------

    /** compare_exchange_strong on `_requests`: stores what it found in `_next` when it fails. */
    method CompareExchange(t: Thread, s: Slot) returns (ok: bool)
      requires PcOf(View(), t) == Pushing(s) && s in next
      modifies `requests, `next, `pcs
      ensures ok == (old(next)[s] == old(requests)) && owners == old(owners)
      ensures Does(old(View()), t, Continue, if ok then Pushed(s) else Tau, View())
      ensures if ok then requests == At(s) && PcOf(View(), t) == (if old(requests) == Null then Won(s) else Idle)
              else requests == old(requests) == next[s] && s in next && PcOf(View(), t) == Pushing(s)
    {
      ok := next[s] == requests;
      if ok {
        pcs := pcs[t := if requests == Null then Won(s) else Idle];
        requests := At(s);
      } else {
        next := next[s := requests];
      }
    }

    /** exchange with the doorman; `to` is where the captured stack ends. */
    method Exchange(t: Thread, to: Ptr) returns (captured: Ptr)
      requires match PcOf(View(), t) case Won(s) => to == At(s) case Contended => to == Doorman case _ => false
      modifies `requests, `pcs
      ensures Does(old(View()), t, Continue, Tau, View()) && owners == old(owners)
      ensures PcOf(View(), t) == Reversing(captured, to)
    {
      captured := requests;
      requests := Doorman;
      pcs := pcs[t := Reversing(captured, to)];
    }

    /** One turn of the loop in make_queue. */
    method MoveOne(t: Thread, p: Ptr, to: Ptr) returns (n: Ptr)
      requires PcOf(View(), t) == Reversing(p, to) && p != to && p.At? && p.slot in next
      modifies `queue, `next, `pcs
      ensures Does(old(View()), t, Continue, Tau, View()) && PcOf(View(), t) == Reversing(n, to)
    {
      n := next[p.slot];
      next := next[p.slot := queue];
      queue := p;
      pcs := pcs[t := Reversing(n, to)];
    }

    /** resume_slot for the slot that found null. */
    method ResumeWinner(t: Thread, s: Slot)
      requires PcOf(View(), t) == Reversing(At(s), At(s))
      modifies `next, `owners, `pcs
      ensures Does(old(View()), t, Continue, Resumed(s), View()) && PcOf(View(), t) == Idle
      ensures owners == old(owners) + [Granted(s)]
    {
      next, owners, pcs := next - {s}, owners + [Granted(s)], pcs[t := Idle];
    }

    /** Advances the queue and resumes the slot taken off it. */
    method ResumeFirst(t: Thread) returns (f: Slot)
      requires PcOf(View(), t) == Popping && queue.At? && queue.slot in next
      modifies `queue, `next, `owners, `pcs
      ensures Does(old(View()), t, Continue, Resumed(f), View()) && PcOf(View(), t) == Idle
      ensures owners == old(owners) + [Granted(f)]
    {
      f := queue.slot;
      queue := next[f];
      next, owners, pcs := next - {f}, owners + [Granted(f)], pcs[t := Idle];
    }

    /** What unlock does when the queue is empty: compare_exchange_strong of the doorman by null. */
    method TryFree(t: Thread) returns (ok: bool)
      requires PcOf(View(), t) == Unlocking && queue == Null
      modifies `requests, `pcs
      ensures ok == (old(requests) == Doorman) && owners == old(owners)
      ensures Does(old(View()), t, Continue, if ok then Released else Tau, View())
      ensures PcOf(View(), t) == (if ok then Idle else Contended) && (ok ==> requests == Null)
    {
      ok := requests == Doorman;
      if ok {
        requests := Null;
      }
      pcs := pcs[t := if ok then Idle else Contended];
    }

    /** Nothing happens to the mutex where the thread goes on to take the first of the queue. */
    method GoOnToPop(t: Thread)
      requires PcOf(View(), t) == Reversing(Doorman, Doorman) || (PcOf(View(), t) == Unlocking && queue != Null)
      modifies `pcs
      ensures Does(old(View()), t, Continue, Tau, View()) && PcOf(View(), t) == Popping
    {
      pcs := pcs[t := Popping];
    }

    /** A step of another thread. */
    method Other(l: Label, t: Thread, ghost tr: Trace) returns (ghost tr': Trace)
      requires Ran(tr, View()) && l.t != t
      modifies `requests, `queue, `next, `pcs, `owners
      ensures Goes(old(View()), tr, t, View(), tr')
      ensures var (st, e) := Next(old(View()), l); View() == st && e != Fault && More(tr, e, tr')
    {
      ghost var before := View();
      var (st, e) := Next(View(), l);
      requests, queue, next, pcs, owners := st.requests, st.queue, st.next, st.pcs, st.owners;
      tr' := RunsOn(tr, before, l, e, View());
      OthersKeepPc(before, l, t);
      if Critical(PcOf(before, t)) {
        OthersOnlyPush(before, tr.g, t, l);
      }
    }

    /** What the other threads do at a point where they may: the next burst of the script. */
    method Meanwhile(t: Thread, ghost tr: Trace) returns (ghost tr': Trace)
      requires Ran(tr, View())
      modifies this
      ensures Goes(old(View()), tr, t, View(), tr')
      ensures if old(script) == [] then script == [] && View() == old(View()) else |script| < |old(script)|
    {
      tr' := tr;
      if script != [] {
        var burst := script[0];
        script := script[1..];
        for k := 0 to |burst|
          invariant Goes(old(View()), tr, t, View(), tr') && script == old(script)[1..]
        {
          if burst[k].t != t {
            ghost var before, was := View(), tr';
            tr' := Other(burst[k], t, tr');
            GoesOn(old(View()), tr, t, before, was, View(), tr');
          }
        }
      }
    }

    // ---------- The functions of the source ----------

    /** Moves the captured stack, from `from` down to `to`, to the queue. */
    method MakeQueue(t: Thread, from: Ptr, to: Ptr, ghost tr0: Trace) returns (ghost tr: Trace)
      requires Ran(tr0, View()) && PcOf(View(), t) == Reversing(from, to)
      modifies this
      ensures Ran(tr, View()) && Continues(tr0, tr) && PcOf(View(), t) == Reversing(to, to)
      ensures tr.resumed == tr0.resumed
    {
      var p := from;
      tr := tr0;
      while p != to
        invariant Ran(tr, View()) && Continues(tr0, tr) && PcOf(View(), t) == Reversing(p, to)
        invariant tr.resumed == tr0.resumed
        decreases |tr.g.pending|
      {
        ghost var was := tr;
        tr := Meanwhile(t, tr);
        ghost var before := View();
        CapturedIsLive(before, tr.g, t);
        p := MoveOne(t, p, to);
        tr := RunsOn(tr, before, Label(t, Continue), Tau, View());
      }
    }

    /** Pushes the request, then reads its field again; if that is null, takes the lock and serves itself.
        `tr` is the run up to the push, `mid` the run from there up to the test, which finds the state
        `at`, and `tr2` the run from the push to the end. Unless the test is late, the lock is taken if
        and only if the push found it free. What follows from a late test is said in LateTest; this
        method does not follow it into the lock. */
    method AddRequest(t: Thread, s: Slot, ghost g0: Lists)
      returns (resumed: Option<Slot>, ghost tr: Trace, ghost at: State, ghost mid: Trace, ghost tr2: Trace)
      requires Inv(View(), g0) && PcOf(View(), t) == Pushing(s)
      modifies this
      ensures Ran(tr, mid.st0) && Continues(Begin(old(View()), g0), tr) && EndsWithPush(tr, mid.st0, s)
      ensures Ran(mid, at) && mid.f0 == Abs(mid.st0, tr.g) && TestOk(at, t, TestOf(mid, s))
      ensures Ran(tr2, View()) && Continues(mid, tr2)
      ensures !Late(Between(at, mid, t, s), Reread(t)) ==>
                && PcOf(View(), t) == Idle
                && (if PcOf(mid.st0, t) != Won(s) then resumed == None && tr2 == mid
                    else resumed == Some(s) && mid.f0.due == [s] && tr2.resumed == [s]
                         && owners == [Granted(s)] && Due(View(), tr2.g) == tr2.pushed)
    {
      BeginsRan(View(), g0);
      var found;
      found, tr := Push(t, s, Begin(View(), g0));
      BeginsRan(View(), tr.g);
      mid := MeanwhileTest(t, s, Begin(View(), tr.g));
      at, tr2, resumed := View(), mid, None;
      if !Late(Between(at, mid, t, s), Reread(t)) {
        TimelyFinds(at, mid, t, s);
      }
      if s in next && next[s] == Null && pcs[t] == Won(s) {
        CriticalOwnsNothing(at, mid.g, t);
        tr2 := TakeLock(t, s, mid);
        resumed := Some(s);
        ServedFirst(tr2, View(), s);
        assert ([s] + tr2.pushed)[1..] == tr2.pushed;
      }
    }

    /** What the other threads do between the push of `s` and its test. */
    method MeanwhileTest(t: Thread, s: Slot, ghost tr: Trace) returns (ghost tr': Trace)
      requires Ran(tr, View()) && TestOk(View(), t, TestOf(tr, s))
      modifies this
      ensures Goes(old(View()), tr, t, View(), tr') && TestOk(View(), t, TestOf(tr', s))
    {
      tr' := tr;
      if script != [] {
        var burst := script[0];
        script := script[1..];
        for k := 0 to |burst|
          invariant Goes(old(View()), tr, t, View(), tr') && TestOk(View(), t, TestOf(tr', s))
        {
          if burst[k].t != t {
            ghost var before, was := View(), tr';
            tr' := Other(burst[k], t, tr');
            GoesOn(old(View()), tr, t, before, was, View(), tr');
            TestGoesOn(was, before, burst[k], Next(before, burst[k]).1, tr', t, s);
          }
        }
      }
    }

    /** The compare-exchange loop of add_request; `found` is what the last one found, and what `_next`
        was left with. */
    method Push(t: Thread, s: Slot, ghost tr0: Trace) returns (found: Ptr, ghost tr: Trace)
      requires Ran(tr0, View()) && PcOf(View(), t) == Pushing(s)
      modifies this
      ensures Ran(tr, View()) && Continues(tr0, tr) && HasPushed(tr, View(), t, s, found)
    {
      tr, found := tr0, Null;
      PushedIsLive(View(), tr.g, t);
      var ok := false;
      while !ok
        invariant Ran(tr, View()) && Continues(tr0, tr)
        invariant if ok then HasPushed(tr, View(), t, s, found) else PcOf(View(), t) == Pushing(s) && s in next
        decreases |script|, if ok then 0 else if next[s] == requests then 1 else 2
      {
        tr := Meanwhile(t, tr);
        PushedIsLive(View(), tr.g, t);
        found, ok, tr := TryPush(t, s, tr);
      }
    }

    /** One turn of that loop. */
    method TryPush(t: Thread, s: Slot, ghost tr0: Trace) returns (found: Ptr, ok: bool, ghost tr: Trace)
      requires Ran(tr0, View()) && PcOf(View(), t) == Pushing(s) && s in next
      modifies `requests, `next, `pcs
      ensures Ran(tr, View()) && Continues(tr0, tr) && ok == (old(next[s]) == old(requests))
      ensures if ok then HasPushed(tr, View(), t, s, found)
              else PcOf(View(), t) == Pushing(s) && s in next && next[s] == requests
    {
      ghost var before := View();
      found := requests;
      ok := CompareExchange(t, s);
      tr := RunsOn(tr0, before, Label(t, Continue), if ok then Pushed(s) else Tau, View());
      if ok {
        PushedLast(tr0, before, tr, View(), s);
        TestStarts(before, tr0.g, Label(t, Continue));
      }
    }

    /** The end of add_request for the slot that found null: what was pushed above it meanwhile becomes
        the queue. */
    method TakeLock(t: Thread, s: Slot, ghost tr0: Trace) returns (ghost tr: Trace)
      requires Ran(tr0, View()) && PcOf(View(), t) == Won(s)
      modifies this
      ensures Ran(tr, View()) && Continues(tr0, tr) && PcOf(View(), t) == Idle && owners == [Granted(s)]
      ensures tr.resumed == tr0.resumed + [s]
    {
      tr := Meanwhile(t, tr0);
      ghost var before := View();
      var captured := Exchange(t, At(s));
      tr := RunsOn(tr, before, Label(t, Continue), Tau, View());
      tr := MakeQueue(t, captured, At(s), tr);
      tr := Meanwhile(t, tr);
      before := View();
      CriticalOwnsNothing(before, tr.g, t);
      ResumeWinner(t, s);
      tr := RunsOn(tr, before, Label(t, Continue), Resumed(s), View());
    }

    /** Releases the ownership `i`: frees the lock when nobody waits, else hands it to the first of the
        line, which is what was due and what was pushed while unlock was at work. */
    method Unlock(t: Thread, i: nat, ghost g0: Lists) returns (resumed: Option<Slot>, ghost tr: Trace)
      requires Inv(View(), g0) && PcOf(View(), t) == Idle && i < |owners|
      modifies this
      ensures Ran(tr, View()) && Continues(Begin(old(View()), g0), tr) && PcOf(View(), t) == Idle
      ensures var line := Due(old(View()), g0) + tr.pushed;
              if line == [] then resumed == None && tr.resumed == [] && requests == Null && owners == []
              else resumed == Some(line[0]) && tr.resumed == [line[0]] && Due(View(), tr.g) == line[1..]
                   && owners == [Granted(line[0])]
    {
      BeginsRan(View(), g0);
      tr := Enters(t, i, Begin(View(), g0));
      if queue == Null {
        var free;
        free, tr := FreeIfAlone(t, tr);
        if free {
          return None, tr;
        }
        tr := Refill(t, tr);
      } else {
        ghost var before := View();
        GoOnToPop(t);
        tr := RunsOn(tr, before, Label(t, Continue), Tau, View());
      }
      var f;
      f, tr := ServeFirst(t, tr);
      resumed := Some(f);
    }

    method Enters(t: Thread, i: nat, ghost tr0: Trace) returns (ghost tr: Trace)
      requires Ran(tr0, View()) && PcOf(View(), t) == Idle && i < |owners|
      modifies `owners, `pcs
      ensures Ran(tr, View()) && Continues(tr0, tr) && tr.resumed == tr0.resumed && PcOf(View(), t) == Unlocking
    {
      ghost var before := View();
      Enter(t, i);
      tr := RunsOn(tr0, before, Label(t, Act.Unlock(i)), Tau, View());
    }

    /** There is no queue: frees the lock if no request has come either. */
    method FreeIfAlone(t: Thread, ghost tr0: Trace) returns (free: bool, ghost tr: Trace)
      requires Ran(tr0, View()) && tr0.resumed == [] && PcOf(View(), t) == Unlocking && queue == Null
      modifies this
      ensures Ran(tr, View()) && Continues(tr0, tr) && tr.resumed == []
      ensures if free then PcOf(View(), t) == Idle && tr.f0.due + tr.pushed == [] && requests == Null && owners == []
              else PcOf(View(), t) == Contended
    {
      tr := Meanwhile(t, tr0);
      ghost var before := View();
      CriticalOwnsNothing(before, tr.g, t);
      free := TryFree(t);
      tr := RunsOn(tr, before, Label(t, Continue), if free then Released else Tau, View());
      if free {
        Conserved(tr, View());
      }
    }

    /** Takes the first of the queue and resumes it. */
    method ServeFirst(t: Thread, ghost tr0: Trace) returns (f: Slot, ghost tr: Trace)
      requires Ran(tr0, View()) && tr0.resumed == [] && PcOf(View(), t) == Popping
      modifies this
      ensures Ran(tr, View()) && Continues(tr0, tr) && tr.resumed == [f]
      ensures PcOf(View(), t) == Idle && owners == [Granted(f)]
      ensures var line := tr.f0.due + tr.pushed; line != [] && line[0] == f && Due(View(), tr.g) == line[1..]
    {
      tr := Meanwhile(t, tr0);
      ghost var before := View();
      QueueIsLive(before, tr.g, t);
      f := ResumeFirst(t);
      tr := RunsOn(tr, before, Label(t, Continue), Resumed(f), View());
      ServedFirst(tr, View(), f);
    }

    /** The ownership object is gone when unlock begins. */
    method Enter(t: Thread, i: nat)
      requires PcOf(View(), t) == Idle && i < |owners|
      modifies `owners, `pcs
      ensures Does(old(View()), t, Act.Unlock(i), Tau, View()) && PcOf(View(), t) == Unlocking
    {
      owners := owners[..i] + owners[i + 1..];
      pcs := pcs[t := Unlocking];
    }

    /** There are requests: captures them and makes the queue. */
    method Refill(t: Thread, ghost tr0: Trace) returns (ghost tr: Trace)
      requires Ran(tr0, View()) && PcOf(View(), t) == Contended
      modifies this
      ensures Ran(tr, View()) && Continues(tr0, tr) && PcOf(View(), t) == Popping && tr.resumed == tr0.resumed
    {
      tr := Meanwhile(t, tr0);
      ghost var before := View();
      var captured := Exchange(t, Doorman);
      tr := RunsOn(tr, before, Label(t, Continue), Tau, View());
      tr := MakeQueue(t, captured, Doorman, tr);
      before := View();
      GoOnToPop(t);
      tr := RunsOn(tr, before, Label(t, Continue), Tau, View());
    }
  }

  /** coro_mutex::ownership: an ownership is released at most once. */
  class Ownership {
    var owning: CoroMutex?

    constructor (m: CoroMutex?)
      ensures owning == m
    {
      owning := m;
    }

    method Release(t: Thread, i: nat, ghost g0: Lists) returns (resumed: Option<Slot>, ghost tr: Trace)
      requires owning != null ==> Inv(owning.View(), g0) && PcOf(owning.View(), t) == Idle && i < |owning.owners|
      modifies this, owning
      ensures owning == null && (old(owning) == null ==> resumed == None)
      ensures var m := old(owning); m != null ==>
                var line := Due(old(owning.View()), g0) + tr.pushed;
                && Ran(tr, m.View()) && Continues(Begin(old(owning.View()), g0), tr) && PcOf(m.View(), t) == Idle
                && (if line == [] then resumed == None && m.requests == Null
                    else resumed == Some(line[0]) && Due(m.View(), tr.g) == line[1..])
    {
      var p := owning;
      owning := null;
      resumed, tr := None, Begin(INIT, g0);
      if p != null {
        resumed, tr := p.Unlock(t, i, g0);
      }
    }
  }
}
