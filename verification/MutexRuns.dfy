/** What coro_mutex promises over whole runs: every sequence of labels from the initial state, by any
    number of threads in any order. */
module MutexRuns {
  import opened Options
  import opened Sequences
  import opened MutexSteps

  function Pushes(es: seq<Event>): seq<Slot> {
    if es == [] then [] else (if es[0].Pushed? then [es[0].s] else []) + Pushes(es[1..])
  }

  function Resumes(es: seq<Event>): seq<Slot> {
    if es == [] then [] else (if es[0].Resumed? then [es[0].s] else []) + Resumes(es[1..])
  }

  ghost predicate FifoRun(f: Fifo, es: seq<Event>, f': Fifo)
    decreases |es|
  {
    if es == [] then f' == f
    else exists m :: FifoStep(f, es[0], m) && FifoRun(m, es[1..], f')
  }

  /** The mutex refines the FIFO lock: every run is a run of FifoStep with the same events. */
  lemma {:induction false} RunRefines(st: State, g: Lists, ls: seq<Label>) returns (g': Lists)
    requires Inv(st, g)
    ensures var (st', es) := Exec(st, ls); Inv(st', g') && FifoRun(Abs(st, g), es, Abs(st', g'))
    decreases |ls|
  {
    if ls == [] {
      g' := g;
    } else {
      var (st1, e) := Next(st, ls[0]);
      var g1 := StepRefines(st, g, ls[0]);
      g' := RunRefines(st1, g1, ls[1..]);
      var (st', es) := Exec(st1, ls[1..]);
      assert ([e] + es)[1..] == es;
      assert FifoStep(Abs(st, g), e, Abs(st1, g1)) && FifoRun(Abs(st1, g1), es, Abs(st', g'));
    }
  }

  ghost const NO_LISTS := Lists([], [], [], None, map[])

  lemma InitHolds()
    ensures Inv(INIT, NO_LISTS) && Due(INIT, NO_LISTS) == []
  {}

  /** Over any run of the FIFO lock, what is resumed is what was due and then what was pushed, in
      that order, and what is left over is due at the end. */
  lemma {:induction false} FifoConserves(f: Fifo, es: seq<Event>, f': Fifo)
    requires FifoRun(f, es, f')
    ensures f.due + Pushes(es) == Resumes(es) + f'.due
    ensures Fault !in es
    decreases |es|
  {
    if es != [] {
      var m :| FifoStep(f, es[0], m) && FifoRun(m, es[1..], f');
      FifoConserves(m, es[1..], f');
      assert es == [es[0]] + es[1..];
      var p := if es[0].Pushed? then [es[0].s] else [];
      var r := if es[0].Resumed? then [es[0].s] else [];
      assert f.due + p == r + m.due;
      Balance(f.due, p, Pushes(es[1..]), r, Resumes(es[1..]), m.due, f'.due);
    }
  }

  /** Grants follow the order of the successful pushing compare-exchanges: in every run from the
      initial state, the slots resumed so far are a prefix of the slots pushed so far, the rest is
      the line, and no null, doorman or dead slot is ever dereferenced. */
  lemma GrantsAreFifo(ls: seq<Label>) returns (g: Lists)
    ensures var (st, es) := Exec(INIT, ls);
            Inv(st, g) && Pushes(es) == Resumes(es) + Due(st, g) && Fault !in es
  {
    InitHolds();
    g := RunRefines(INIT, NO_LISTS, ls);
    var (st, es) := Exec(INIT, ls);
    FifoConserves(Abs(INIT, NO_LISTS), es, Abs(st, g));
    assert [] + Pushes(es) == Pushes(es);
  }

  /** Mutual exclusion: in every reachable state at most one of the live ownerships, the acquiring
      threads and the unlocking threads exists, and `_requests` is null exactly when none does. */
  lemma MutualExclusion(ls: seq<Label>)
    ensures var st := Exec(INIT, ls).0;
            && |st.owners| <= 1
            && (forall t: Thread, u: Thread :: Critical(PcOf(st, t)) && Critical(PcOf(st, u)) ==> t == u)
            && (st.owners != [] ==> forall t: Thread :: !Critical(PcOf(st, t)))
            && (st.requests == Null <==> st.owners == [] && forall t: Thread :: !Critical(PcOf(st, t)))
  {
    var g := GrantsAreFifo(ls);
  }

  /** Who writes what in one step. */
  lemma WritesArePrivate(st: State, l: Label)
    ensures var st' := Next(st, l).0;
            && (st'.queue != st.queue ==> Critical(PcOf(st, l.t)))
            && (forall x: Slot :: x in st.next && (x !in st'.next || st'.next[x] != st.next[x])
                  ==> Critical(PcOf(st, l.t)) || PcOf(st, l.t) == Pushing(x))
  {}

  /** `_queue` is written only by the one critical thread, and so is the field of any slot that
      is not the thread's own request. */
  lemma QueueIsPrivate(ls: seq<Label>, l: Label)
    ensures var st := Exec(INIT, ls).0; var st' := Next(st, l).0;
            && (st'.queue != st.queue ==> Critical(PcOf(st, l.t)))
            && (forall x: Slot :: x in st.next && (x !in st'.next || st'.next[x] != st.next[x])
                  ==> Critical(PcOf(st, l.t)) || PcOf(st, l.t) == Pushing(x))
            && (Critical(PcOf(st, l.t)) ==>
                  (st.owners == [] && forall u: Thread :: u != l.t ==> !Critical(PcOf(st, u))))
  {
    MutualExclusion(ls);
    WritesArePrivate(Exec(INIT, ls).0, l);
  }

  /** The memory alone determines the lists, hence the line: there is one reading of a state. */
  lemma ListsAreUnique(st: State, g: Lists, g': Lists)
    requires Inv(st, g) && Inv(st, g')
    ensures g.stack == g'.stack && g.queue == g'.queue && g.pending == g'.pending && g.crit == g'.crit
    ensures Due(st, g) == Due(st, g')
  {
    assert g.crit == g'.crit by {
      if g.crit.Some? {
        assert Critical(PcOf(st, g.crit.value));
      }
      if g'.crit.Some? {
        assert Critical(PcOf(st, g'.crit.value));
      }
    }
    var pc := CritPc(st, g);
    assert forall x: Slot :: x in WinnerOf(pc) ==> x !in g.stack + g.pending && x !in g'.stack + g'.pending;
    if st.requests != Null {
      LinksUnique(st.next, st.requests, g.stack, g'.stack, Bottom(pc));
    }
    if pc.Reversing? {
      LinksUnique(st.next, pc.from, g.pending, g'.pending, pc.to);
    }
    LinksUnique(st.next, st.queue, g.queue, g'.queue, Null);
  }

  /** The number of places a slot has. */
  ghost function PlacesOf(st: State, g: Lists, x: Slot): nat {
    Bit(x in g.stack) + Bit(x in g.queue) + Bit(x in g.pending) + Bit(x in WinnerOf(CritPc(st, g)))
    + Bit(exists t: Thread :: PcOf(st, t) == Pushing(x))
  }

  lemma OnePlace(st: State, g: Lists, x: Slot)
    requires Inv(st, g)
    ensures PlacesOf(st, g, x) == Bit(x in st.next)
  {
    if x in st.next && g.role[x].Pusher? {
      assert PcOf(st, g.role[x].t) == Pushing(x);
    }
  }

  /** Conservation of slots: in every reachable state every live slot has exactly one place, which
      holds it once, and no place holds a dead one. */
  lemma SlotsAreConserved(ls: seq<Label>) returns (g: Lists)
    ensures var st := Exec(INIT, ls).0;
            && Inv(st, g) && Distinct(g.stack) && Distinct(g.queue) && Distinct(g.pending)
            && forall x: Slot :: PlacesOf(st, g, x) == Bit(x in st.next)
  {
    g := GrantsAreFifo(ls);
    var st := Exec(INIT, ls).0;
    forall x: Slot
      ensures PlacesOf(st, g, x) == Bit(x in st.next)
    {
      OnePlace(st, g, x);
    }
  }

  // ---------- Bounded waiting ----------

  lemma DistinctConcat(xs: seq<Slot>, ys: seq<Slot>)
    requires Distinct(xs) && Distinct(ys) && forall x: Slot :: x in xs ==> x !in ys
    ensures Distinct(xs + ys)
  {
    forall i, j | 0 <= i < j < |xs + ys|
      ensures (xs + ys)[i] != (xs + ys)[j]
    {
      if i < |xs| <= j {
        assert xs[i] in xs && ys[j - |xs|] in ys;
      }
    }
  }

  lemma {:induction false} ReverseDistinct(xs: seq<Slot>)
    requires Distinct(xs)
    ensures Distinct(Reverse(xs)) && forall x: Slot :: x in Reverse(xs) <==> x in xs
    decreases |xs|
  {
    if xs != [] {
      Uncons(xs);
      ReverseDistinct(xs[1..]);
    }
  }

  lemma DueDistinct(st: State, g: Lists)
    requires Inv(st, g)
    ensures Distinct(Due(st, g))
  {
    var w, p, s := WinnerOf(CritPc(st, g)), Reverse(g.pending), Reverse(g.stack);
    ReverseDistinct(g.pending);
    ReverseDistinct(g.stack);
    DistinctConcat(w, p);
    DistinctConcat(w + p, g.queue);
    DistinctConcat(w + p + g.queue, s);
  }

  /** What leaves a line of distinct slots, new ones joining at its end, leaves it in order. */
  lemma LeavesInTurn(due: seq<Slot>, joined: seq<Slot>, left: seq<Slot>, rest: seq<Slot>, k: nat)
    requires due + joined == left + rest && Distinct(due) && k < |due|
    ensures if k < |left| then left[k] == due[k] && due[k] !in left[..k] else due[k] !in left
  {
    forall i | 0 <= i < |left| && i < |due|
      ensures left[i] == due[i]
    {
      assert (due + joined)[i] == (left + rest)[i];
    }
  }

  /** Bounded waiting: a slot with `k` slots ahead of it is resumed by exactly the (k+1)-th
      hand-off that follows, whatever requests arrive in between. */
  lemma BoundedWaiting(st: State, g: Lists, k: nat, ls: seq<Label>)
    requires Inv(st, g) && k < |Due(st, g)|
    ensures var x := Due(st, g)[k]; var rs := Resumes(Exec(st, ls).1);
            if k < |rs| then rs[k] == x && x !in rs[..k] else x !in rs
  {
    var g' := RunRefines(st, g, ls);
    var (st', es) := Exec(st, ls);
    FifoConserves(Abs(st, g), es, Abs(st', g'));
    DueDistinct(st, g);
    LeavesInTurn(Due(st, g), Pushes(es), Resumes(es), Due(st', g'), k);
  }

  /** The lock is freed, and try_lock succeeds, only when nobody waits; a waiting slot never sees
      the lock taken by anything but a hand-off. */
  lemma NoBarging(ls: seq<Label>, l: Label) returns (g: Lists)
    ensures var st := Exec(INIT, ls).0; var (st', e) := Next(st, l);
            && Inv(st, g)
            && (Due(st, g) != [] ==>
                  st'.requests != Null && !e.TryAcquired? && !e.Released? && (e.Resumed? ==> e.s == Due(st, g)[0]))
  {
    g := GrantsAreFifo(ls);
    var g' := StepRefines(Exec(INIT, ls).0, g, l);
  }

  // ---------- What each call comes to ----------

  /** try_lock succeeds if and only if nobody owns the lock, acquires it or releases it. */
  lemma TryLockExactly(ls: seq<Label>, t: Thread)
    requires PcOf(Exec(INIT, ls).0, t) == Idle
    ensures var st := Exec(INIT, ls).0; var (st', e) := Next(st, Label(t, TryLock));
            var free := st.owners == [] && forall u: Thread :: !Critical(PcOf(st, u));
            && (e == TryAcquired <==> free) && PcOf(st', t) == Idle
            && (if free then st'.owners == [Tried(t)] && st'.requests == Doorman else st' == st && e == Tau)
  {
    MutualExclusion(ls);
  }

  /** A request that nobody interferes with is pushed by its second compare-exchange at the latest. */
  lemma RequestIsPushed(st: State, g: Lists, t: Thread, s: Slot)
    requires Inv(st, g) && PcOf(st, t) == Idle && s !in st.next
    ensures var st1 := Next(st, Label(t, Request(s))).0;
            var (st2, e) := Next(st1, Label(t, Continue)); var (st3, f) := Next(st2, Label(t, Continue));
            && PcOf(st1, t) == Pushing(s)
            && (if st.requests == Null then e == Pushed(s) && PcOf(st2, t) == Won(s)
                else e == Tau && f == Pushed(s) && PcOf(st3, t) == Idle)
  {
    assert Next(st, Label(t, Request(s))).0.next[s] == Null;
  }

  /** unlock gives the ownership up, and then frees the lock if and only if nobody waits; if somebody does, it
      goes on to hand it over (HandOffTerminates). */
  lemma UnlockExactly(st: State, g: Lists, t: Thread, i: nat)
    requires Inv(st, g) && PcOf(st, t) == Idle && i < |st.owners|
    ensures var st1 := Next(st, Label(t, Unlock(i))).0;
            var (st2, e) := Next(st1, Label(t, Continue)); var st3 := Next(st2, Label(t, Continue)).0;
            && st1.owners == [] && PcOf(st1, t) == Unlocking
            && (e == Released <==> Due(st, g) == [])
            && (if Due(st, g) == [] then st2.requests == Null && PcOf(st2, t) == Idle
                else HandsOff(st2, t) || (PcOf(st2, t) == Contended && HandsOff(st3, t)))
  {
    if g.stack != [] {
      ReverseDistinct(g.stack);
      assert g.stack[0] in Reverse(g.stack);
    }
    assert g.pending == [] && WinnerOf(CritPc(st, g)) == [];
    assert Due(st, g) == [] <==> g.queue == [] && g.stack == [];
  }

  /** The slot that found null goes on to take the lock, which ends in its own resumption. */
  lemma WinnerGoesOn(st: State, g: Lists, t: Thread, s: Slot)
    requires Inv(st, g) && PcOf(st, t) == Won(s)
    ensures HandsOff(Next(st, Label(t, Continue)).0, t) && Due(st, g) != [] && Due(st, g)[0] == s
  {
    assert Critical(PcOf(st, t));
  }

  // ---------- make_queue terminates ----------

  /** How many steps of its own the critical thread still takes before it is idle, once make_queue
      has been entered. */
  ghost function Fuel(st: State, g: Lists): nat {
    match CritPc(st, g)
    case Reversing(_, to) => |g.pending| + (if to.At? then 1 else 2)
    case Popping => 1
    case _ => 0
  }

  function Turns(ls: seq<Label>, t: Thread): nat {
    if ls == [] then 0 else Turns(ls[1..], t) + Bit(ls[0].t == t)
  }

  lemma OthersKeepPc(st: State, l: Label, t: Thread)
    requires l.t != t
    ensures PcOf(Next(st, l).0, t) == PcOf(st, t)
  {}

  predicate HandsOff(st: State, t: Thread) {
    PcOf(st, t).Reversing? || PcOf(st, t).Popping?
  }

  lemma HandsOffAlone(st: State, g: Lists, t: Thread)
    requires Inv(st, g) && HandsOff(st, t)
    ensures g.crit == Some(t) && CritPc(st, g) == PcOf(st, t) && 0 < Fuel(st, g)
  {
    assert Critical(PcOf(st, t));
  }

  lemma OthersKeepFuel(st: State, g: Lists, t: Thread, l: Label) returns (g': Lists)
    requires Inv(st, g) && HandsOff(st, t) && l.t != t
    ensures var st' := Next(st, l).0; Inv(st', g') && HandsOff(st', t) && Fuel(st', g') == Fuel(st, g)
  {
    HandsOffAlone(st, g, t);
    OthersKeepPc(st, l, t);
    g' := StepRefines(st, g, l);
    HandsOffAlone(Next(st, l).0, g', t);
  }

  lemma OwnStepStaysIn(st: State, l: Label)
    requires HandsOff(st, l.t)
    ensures var (st', e) := Next(st, l); e.Resumed? || e.Fault? || HandsOff(st', l.t)
  {}

  lemma OwnStepBurnsFuel(st: State, g: Lists, l: Label) returns (g': Lists)
    requires Inv(st, g) && HandsOff(st, l.t)
    ensures var (st', e) := Next(st, l);
            Inv(st', g') && (e.Resumed? || (HandsOff(st', l.t) && Fuel(st', g') < Fuel(st, g)))
  {
    HandsOffAlone(st, g, l.t);
    g' := StepRefines(st, g, l);
    OwnStepStaysIn(st, l);
    var (st', e) := Next(st, l);
    if !e.Resumed? {
      HandsOffAlone(st', g', l.t);
    }
  }

  lemma HandOffStep(st: State, g: Lists, t: Thread, l: Label) returns (g': Lists)
    requires Inv(st, g) && HandsOff(st, t)
    ensures var (st', e) := Next(st, l);
            (l.t == t && e.Resumed?)
            || (Inv(st', g') && HandsOff(st', t) && Fuel(st', g') + Bit(l.t == t) <= Fuel(st, g))
  {
    if l.t == t {
      g' := OwnStepBurnsFuel(st, g, l);
    } else {
      g' := OthersKeepFuel(st, g, t, l);
    }
  }

  lemma ExecCons(st: State, ls: seq<Label>)
    requires ls != []
    ensures Exec(st, ls).1 == [Next(st, ls[0]).1] + Exec(Next(st, ls[0]).0, ls[1..]).1
  {}

  /** Whatever the other threads do meanwhile, a thread inside make_queue reaches `to` and hands the
      lock over after at most |captured| + 2 steps of its own. */
  lemma {:induction false} HandOffTerminates(st: State, g: Lists, t: Thread, ls: seq<Label>) returns (k: nat)
    requires Inv(st, g) && HandsOff(st, t)
    requires Fuel(st, g) <= Turns(ls, t)
    ensures 0 < k <= |ls| == |Exec(st, ls).1| && Exec(st, ls).1[k - 1].Resumed? && ls[k - 1].t == t
    decreases |ls|
  {
    HandsOffAlone(st, g, t);
    var (st1, e) := Next(st, ls[0]);
    var g1 := HandOffStep(st, g, t, ls[0]);
    ExecLength(st, ls);
    ExecCons(st, ls);
    if ls[0].t == t && e.Resumed? {
      k := 1;
    } else {
      k := HandOffTerminates(st1, g1, t, ls[1..]);
      k := k + 1;
    }
  }

  lemma {:induction false} ExecLength(st: State, ls: seq<Label>)
    ensures |Exec(st, ls).1| == |ls|
    decreases |ls|
  {
    if ls != [] {
      ExecLength(Next(st, ls[0]).0, ls[1..]);
    }
  }
}
