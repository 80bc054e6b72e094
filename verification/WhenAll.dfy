/** when_all (coroutine.h:1673-1780): a counter that any number of producers and one awaiter
    decrement, whoever reaches zero resuming the awaiter.

    Each atomic operation on `count` is a step, and so is taking the handle `r` afterwards. The rules
    the source gives its callers are the guards: `add` before `co_await` (line 1722), `reset` after
    it (line 1755), and fewer than 2^32 - 2 awaitables at once, which the 32-bit counter needs. */
module WhenAllSteps {
  import opened Options
  import opened Sequences
  import opened Words

  type Producer = nat
  type Handle = nat

  datatype Agent = Completion(p: Producer) | Awaiter

  /** Where the awaiting coroutine stands. */
  datatype Phase =
    | Open          // may add, or start to await
    | Checked       // await_ready returned false
    | Suspending    // the handle is stored, the awaiter's own decrement still to come
    | Waiting       // suspended
    | Joined        // resumed

  datatype State = State(
    count: nat,
    r: Option<Handle>,
    phase: Phase,
    outstanding: set<Producer>,   // added and not yet completed
    firing: set<Agent>)           // took the counter to zero, about to take `r`

  const INIT := State(1, None, Open, {}, {})

  datatype Label =
    | Add(p: Producer)
    | Complete(p: Producer)
    | Fire(a: Agent)
    | CheckReady
    | StoreHandle(h: Handle)
    | OwnDecrement
    | Reset

  datatype Event = Tau | Suspended(h: Handle) | Resumed(h: Handle) | ResumedNobody

  function FetchAdd(st: State): State {
    st.(count := (st.count + 1) % WIDTH)
  }

  /** The decrement of do_resume, by `a`. */
  function FetchSub(st: State, a: Agent): State {
    st.(count := (st.count + WIDTH - 1) % WIDTH, firing := if st.count == 1 then st.firing + {a} else st.firing)
  }

  function Next(st: State, l: Label): (State, Event) {
    match l
    case Add(p) =>
      if st.phase == Open && p !in st.outstanding && |st.outstanding| + 2 < WIDTH
      then (FetchAdd(st).(outstanding := st.outstanding + {p}), Tau)
      else (st, Tau)
    case Complete(p) =>
      if p in st.outstanding && Completion(p) !in st.firing
      then (FetchSub(st, Completion(p)).(outstanding := st.outstanding - {p}), Tau)
      else (st, Tau)
    case Fire(a) =>
      if a !in st.firing then (st, Tau)
      else
        var st1 := st.(firing := st.firing - {a}, r := None, phase := if st.r.Some? then Joined else st.phase);
        (st1, if st.r.Some? then Resumed(st.r.value) else ResumedNobody)
    case CheckReady =>
      if st.phase == Open && st.count > 1 then (st.(phase := Checked), Tau) else (st, Tau)
    case StoreHandle(h) =>
      if st.phase == Checked then (st.(phase := Suspending, r := Some(h)), Tau) else (st, Tau)
    case OwnDecrement =>
      if st.phase == Suspending
      then (FetchSub(st, Awaiter).(phase := Waiting), if st.r.Some? then Suspended(st.r.value) else Tau)
      else (st, Tau)
    case Reset =>
      if (st.phase == Open || st.phase == Joined) && st.count == 0
      then (st.(count := 1, phase := Open), Tau)
      else (st, Tau)
  }

  function Exec(st: State, ls: seq<Label>): (State, seq<Event>)
    decreases |ls|
  {
    if ls == [] then (st, [])
    else
      var (st1, e) := Next(st, ls[0]);
      var (st2, es) := Exec(st1, ls[1..]);
      (st2, [e] + es)
  }

  /** The counter is the outstanding completions plus one until the awaiter's own decrement; at zero
      exactly one agent is about to resume the handle. */
  ghost predicate Inv(st: State) {
    && |st.outstanding| + 1 < WIDTH
    && match st.phase
       case Waiting =>
         && st.count == |st.outstanding| && st.r.Some?
         && (if st.count == 0 then exists a :: st.firing == {a} else st.firing == {})
       case Joined => st.count == 0 && st.outstanding == {} && st.firing == {} && st.r == None
       case _ => st.count == |st.outstanding| + 1 && st.firing == {} && (st.r.Some? <==> st.phase == Suspending)
  }

  /** The handle that is suspended and not yet resumed. */
  function Asleep(st: State): seq<Handle> {
    if st.phase == Waiting && st.r.Some? then [st.r.value] else []
  }

  ghost predicate StepOk(st: State, step: (State, Event)) {
    var (st', e) := step;
    && Inv(st') && e != ResumedNobody
    && (e.Resumed? ==> st.outstanding == {} && st.phase == Waiting && Asleep(st) == [e.h] && Asleep(st') == [])
    && (e.Suspended? ==> Asleep(st) == [] && Asleep(st') == [e.h])
    && (e.Tau? ==> Asleep(st') == Asleep(st))
  }

  lemma DecrementKeepsInv(st: State, p: Producer)
    requires Inv(st) && p in st.outstanding
    ensures StepOk(st, Next(st, Complete(p)))
  {
    var st' := Next(st, Complete(p)).0;
    assert st.outstanding == st'.outstanding + {p} || st' == st;
    if st.phase == Waiting && st.count == 1 {
      assert st'.firing == {Completion(p)};
    }
  }

  lemma OwnDecrementKeepsInv(st: State)
    requires Inv(st)
    ensures StepOk(st, Next(st, OwnDecrement))
  {
    if st.phase == Suspending && st.count == 1 {
      assert Next(st, OwnDecrement).0.firing == {Awaiter};
    }
  }

  lemma FireKeepsInv(st: State, a: Agent)
    requires Inv(st)
    ensures StepOk(st, Next(st, Fire(a)))
  {
    if a in st.firing {
      assert st.phase == Waiting && st.count == 0;
      assert st.firing - {a} == {};
    }
  }

  lemma StepKeepsInv(st: State, l: Label)
    requires Inv(st)
    ensures StepOk(st, Next(st, l))
  {
    match l
    case Complete(p) =>
      if p in st.outstanding {
        DecrementKeepsInv(st, p);
      }
    case Fire(a) => FireKeepsInv(st, a);
    case OwnDecrement => OwnDecrementKeepsInv(st);
    case _ =>
  }

  function Suspensions(es: seq<Event>): seq<Handle> {
    if es == [] then [] else (if es[0].Suspended? then [es[0].h] else []) + Suspensions(es[1..])
  }

  function Resumptions(es: seq<Event>): seq<Handle> {
    if es == [] then [] else (if es[0].Resumed? then [es[0].h] else []) + Resumptions(es[1..])
  }

  lemma {:induction false} RunsFrom(st: State, ls: seq<Label>)
    requires Inv(st)
    ensures var (st', es) := Exec(st, ls);
            && Inv(st') && ResumedNobody !in es
            && Asleep(st) + Suspensions(es) == Resumptions(es) + Asleep(st')
    decreases |ls|
  {
    if ls != [] {
      var (st1, e) := Next(st, ls[0]);
      StepKeepsInv(st, ls[0]);
      RunsFrom(st1, ls[1..]);
      var (st', es) := Exec(st1, ls[1..]);
      assert Exec(st, ls).1 == [e] + es && ([e] + es)[1..] == es;
      var s := if e.Suspended? then [e.h] else [];
      var r := if e.Resumed? then [e.h] else [];
      assert Asleep(st) + s == r + Asleep(st1);
      Balance(Asleep(st), s, Suspensions(es), r, Resumptions(es), Asleep(st1), Asleep(st'));
    }
  }

  /** Exactly once: in every interleaving and over any number of rounds, the resumed handles are the
      suspended ones in order, all but the one still suspended; nothing is ever resumed through an
      empty handle, and the counter never underflows. */
  lemma ResumedExactlyOnce(ls: seq<Label>)
    ensures var (st, es) := Exec(INIT, ls);
            && Suspensions(es) == Resumptions(es) + Asleep(st) && ResumedNobody !in es
            && (st.count == 0 ==> st.outstanding == {}) && st.count <= |st.outstanding| + 1
  {
    RunsFrom(INIT, ls);
    assert [] + Suspensions(Exec(INIT, ls).1) == Suspensions(Exec(INIT, ls).1);
  }

  /** A join: a suspended awaiter is resumed only after every added awaitable has completed, and once
      they have, one agent, and no other, resumes it. */
  lemma JoinsAll(ls: seq<Label>, l: Label)
    ensures var st := Exec(INIT, ls).0;
            && (Next(st, l).1.Resumed? ==> st.outstanding == {} && st.phase == Waiting)
            && (st.phase == Waiting && st.outstanding == {} ==>
                  st.r.Some? && exists a :: st.firing == {a} && Next(st, Fire(a)).1 == Resumed(st.r.value))
  {
    RunsFrom(INIT, ls);
    StepKeepsInv(Exec(INIT, ls).0, l);
  }

  /** Every outstanding completion can still be made, and the awaiter wakes at the last one. */
  lemma LastCompletionWakes(st: State, p: Producer)
    requires Inv(st) && st.phase == Waiting && st.outstanding == {p}
    ensures var st1 := Next(st, Complete(p)).0; Next(st1, Fire(Completion(p))).1 == Resumed(st.r.value)
  {}

  // ---------- What each operation does ----------

  lemma {:induction false} Reached(ls: seq<Label>)
    ensures Inv(Exec(INIT, ls).0)
  {
    RunsFrom(INIT, ls);
  }

  /** add makes the awaitable outstanding, and its completion, at any time, makes it not outstanding. */
  lemma AddsAndCompletes(ls: seq<Label>, p: Producer)
    ensures var st := Exec(INIT, ls).0;
            && (st.phase == Open && |st.outstanding| + 2 < WIDTH ==>
                  Next(st, Add(p)).0.outstanding == st.outstanding + {p} && Next(st, Add(p)).0.phase == Open)
            && (p in st.outstanding ==> Next(st, Complete(p)).0.outstanding == st.outstanding - {p})
  {
    Reached(ls);
    var st := Exec(INIT, ls).0;
    if p in st.outstanding {
      Interrupted(st, p);
    }
  }

  /** await_ready is true exactly when nothing is outstanding; if not, await_suspend stores the handle and
      then suspends it, or the awaiter itself resumes it if all has completed meanwhile. */
  lemma AwaitsWhatIsAdded(ls: seq<Label>, h: Handle)
    ensures var st := Exec(INIT, ls).0;
            && (st.phase == Open ==>
                  Next(st, CheckReady).0 == if st.outstanding == {} then st else st.(phase := Checked))
            && (st.phase == Checked ==>
                  var st1 := Next(st, StoreHandle(h)).0; var (st2, e) := Next(st1, OwnDecrement);
                  && st1.r == Some(h) && st1.outstanding == st2.outstanding == st.outstanding
                  && st2.phase == Waiting && e == Suspended(h) && Asleep(st2) == [h]
                  && (st.outstanding == {} <==> Awaiter in st2.firing))
  {
    Reached(ls);
  }

  /** After the join the object starts again with nothing outstanding; before it reset does nothing. */
  lemma ResetsAfterTheJoin(ls: seq<Label>)
    ensures var st := Exec(INIT, ls).0;
            Next(st, Reset).0 == if st.phase == Joined then INIT else st
  {
    Reached(ls);
  }

  lemma StepStaysIn(st: State, l: Label, p: Producer)
    requires Inv(st) && p in st.outstanding && l != Complete(p)
    ensures var (st', e) := Next(st, l); Inv(st') && p in st'.outstanding && !e.Resumed?
  {
    StepKeepsInv(st, l);
  }

  lemma {:induction false} StaysIn(st: State, ls: seq<Label>, p: Producer)
    requires Inv(st) && p in st.outstanding && Complete(p) !in ls
    ensures var (st', es) := Exec(st, ls); Inv(st') && p in st'.outstanding && Resumptions(es) == []
    decreases |ls|
  {
    if ls != [] {
      var (st1, e) := Next(st, ls[0]);
      StepStaysIn(st, ls[0], p);
      StaysIn(st1, ls[1..], p);
      var (st', es) := Exec(st1, ls[1..]);
      assert Exec(st, ls).1 == [e] + es && ([e] + es)[1..] == es;
    }
  }

  lemma {:induction false} StaysOut(st: State, ls: seq<Label>, p: Producer)
    requires p !in st.outstanding && Add(p) !in ls
    ensures p !in Exec(st, ls).0.outstanding
    decreases |ls|
  {
    if ls != [] {
      StaysOut(Next(st, ls[0]).0, ls[1..], p);
    }
  }

  /** What was added is waited for: from an `add` that takes place up to the completion of what it added,
      nobody is resumed, and an awaiter finds it is not ready; it is outstanding exactly from the one to
      the other. */
  lemma WaitsFromAddToCompletion(ls: seq<Label>, p: Producer, more: seq<Label>, after: seq<Label>)
    requires var st := Exec(INIT, ls).0; st.phase == Open && p !in st.outstanding && |st.outstanding| + 2 < WIDTH
    requires Complete(p) !in more && Add(p) !in after
    ensures var (st', es) := Exec(Next(Exec(INIT, ls).0, Add(p)).0, more);
            && p in st'.outstanding && Resumptions(es) == []
            && (st'.phase == Open ==> Next(st', CheckReady).0.phase == Checked)
            && p !in Exec(Next(st', Complete(p)).0, after).0.outstanding
  {
    Reached(ls);
    AddsAndCompletes(ls, p);
    var st := Exec(INIT, ls).0;
    StepKeepsInv(st, Add(p));
    StaysIn(Next(st, Add(p)).0, more, p);
    var st' := Exec(Next(st, Add(p)).0, more).0;
    Interrupted(st', p);
    StaysOut(Next(st', Complete(p)).0, after, p);
  }

  class WhenAll {
    var count: nat
    var r: Option<Handle>
    ghost var phase: Phase
    ghost var outstanding: set<Producer>
    ghost var firing: set<Agent>

    ghost function View(): State
      reads this
    {
      State(count, r, phase, outstanding, firing)
    }

    ghost predicate Valid()
      reads this
    {
      Inv(View())
    }

    constructor ()
      ensures Valid() && View() == INIT
    {
      count, r, phase, outstanding, firing := 1, None, Open, {}, {};
    }

    /** add: an awaitable that is ready already is not counted. */
    method Add(p: Producer, ready: bool)
      requires Valid() && phase == Open && p !in outstanding && |outstanding| + 2 < WIDTH
      modifies this
      ensures Valid() && View() == if ready then old(View()) else Next(old(View()), Label.Add(p)).0
      ensures outstanding == old(outstanding) + (if ready then {} else {p}) && phase == Open && r == old(r)
    {
      StepKeepsInv(View(), Label.Add(p));
      if !ready {
        count := (count + 1) % WIDTH;
        outstanding := outstanding + {p};
      }
    }

    /** await_ready, also after the join, as the destructor calls it: then it is ready. */
    method AwaitReady() returns (b: bool)
      requires Valid() && (phase == Open || phase == Joined)
      modifies `phase
      ensures Valid() && View() == Next(old(View()), CheckReady).0
      ensures b == (outstanding == {}) && phase == (if b then old(phase) else Checked)
    {
      StepKeepsInv(View(), CheckReady);
      b := count <= 1;
      phase := if b then phase else Checked;
    }

    /** counter::do_resume by a completing awaitable. */
    method DoResume(p: Producer) returns (resumed: Option<Handle>)
      requires Valid() && p in outstanding
      modifies this
      ensures Valid()
      ensures var st1 := Next(old(View()), Complete(p)).0; View() == Next(st1, Fire(Completion(p))).0
      ensures resumed == if old(outstanding) == {p} then old(Waiter()) else None
      ensures outstanding == old(outstanding) - {p} && Waiter() == (if resumed.Some? then None else old(Waiter()))
    {
      Interrupted(View(), p);
      StepKeepsInv(View(), Complete(p));
      StepKeepsInv(Next(View(), Complete(p)).0, Fire(Completion(p)));
      var was := count;
      count := (count + WIDTH - 1) % WIDTH;
      outstanding := outstanding - {p};
      resumed := None;
      if was == 1 {
        resumed := r;
        r := None;
        phase := if resumed.Some? then Joined else phase;
      }
    }

    /** The handle that is suspended. */
    ghost function Waiter(): Option<Handle>
      reads this
    {
      if phase == Waiting then r else None
    }

    /** await_suspend: stores the handle, then decrements like any producer. */
    method AwaitSuspend(h: Handle) returns (resumed: Option<Handle>)
      requires Valid() && phase == Checked
      modifies this
      ensures Valid()
      ensures var st1 := Next(Next(old(View()), StoreHandle(h)).0, OwnDecrement).0; View() == Next(st1, Fire(Awaiter)).0
      ensures resumed == if outstanding == {} then Some(h) else None
      ensures outstanding == old(outstanding) && Waiter() == if resumed == None then Some(h) else None
    {
      StepKeepsInv(View(), StoreHandle(h));
      ghost var st1 := Next(View(), StoreHandle(h)).0;
      StepKeepsInv(st1, OwnDecrement);
      StepKeepsInv(Next(st1, OwnDecrement).0, Fire(Awaiter));
      r := Some(h);
      var was := count;
      count := (count + WIDTH - 1) % WIDTH;
      phase := Waiting;
      resumed := None;
      if was == 1 {
        resumed := r;
        r := None;
        phase := Joined;
      }
    }

    method Reset() returns (ok: bool)
      requires Valid() && (phase == Open || phase == Joined)
      modifies this
      ensures Valid() && View() == Next(old(View()), Label.Reset).0 && ok == (old(phase) == Joined)
      ensures if ok then View() == INIT else View() == old(View())
    {
      StepKeepsInv(View(), Label.Reset);
      ok := count == 0;
      if ok {
        count, phase := 1, Open;
      }
    }
  }

  /** Nobody is about to fire while a completion is outstanding. */
  lemma Interrupted(st: State, p: Producer)
    requires Inv(st) && p in st.outstanding
    ensures st.firing == {} && (st.count == 1 <==> st.phase == Waiting && st.outstanding == {p})
  {
    assert |st.outstanding - {p}| == |st.outstanding| - 1;
  }
}
