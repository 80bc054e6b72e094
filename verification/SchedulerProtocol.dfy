/** The scheduler thread (coro_scheduler.h:262-496): any number of threads run `run_thread` over one
    heap guarded by a mutex and a condition variable, while clients schedule, remove and alert.

    Each stretch of code under the mutex is one step, but for a turn of the loop in run_thread, which
    is two: a stop may be requested, and its callback may notify, without the mutex, between the test of
    the stop token and the wait. `wait` gives the mutex up and `notify_all` makes every waiting thread
    ready. The clock may be set to anything at any time, and a waiting thread may wake at any time, so
    nothing below rests on either. */
module SchedulerProtocol {
  import opened Options
  import opened Sequences
  import opened TimerHeap
  import Runs = TimerHeapRuns

  type Thread = nat
  type Res = nat
  type Entry = Item<Res>

  datatype Pc =
    | Ready                            // at the top of the loop, wants the mutex
    | Looking                          // has the mutex, and has found no request to stop
    | Blocked(deadline: Option<int>)   // in wait_until, or in wait when there is no deadline; not notified
    | Executing                        // outside the mutex, in the executor
    | Exited

  datatype State = State(
    clock: int,
    pending: multiset<Entry>,
    flags: set<Ident>,                 // the alert flags that are set
    stops: set<Thread>,                // the threads asked to stop
    pcs: map<Thread, Pc>)

  datatype Label =
    | SleepUntil(r: Res, tp: int, ident: Ident)
    | SleepUntilAlertable(r: Res, flag: Ident, tp: int)
    | RemoveFirst
    | RemoveByIdent(ident: Ident)      // also cancel, which then resolves what it removed
    | Alert(flag: Ident)
    | Reset(flag: Ident)
    | Test(t: Thread)                  // the loop condition of run_thread
    | Turn(t: Thread)                  // the loop body, until the mutex is given up
    | ExecutorReturns(t: Thread)
    | Wake(t: Thread)                  // a timeout, or a spurious wake-up
    | Start(t: Thread)
    | RequestStop(t: Thread)
    | StopCallback(t: Thread)          // notifies, without the mutex
    | SetClock(now: int)

  datatype Event =
    | Quiet
    | Scheduled(x: Entry)
    | Executed(x: Entry)
    | Removed(x: Entry)
    | Resolved(r: Res)                 // an alertable sleep that did not go to sleep

  function NotifyAll(pcs: map<Thread, Pc>): map<Thread, Pc> {
    map t | t in pcs :: if pcs[t].Blocked? then Ready else pcs[t]
  }

  ghost predicate Schedules(st: State, x: Entry, notify: bool, st': State) {
    && HeapStep(st.pending, Insert(x), None, st'.pending)
    && st' == st.(pending := st'.pending, pcs := if notify then NotifyAll(st.pcs) else st.pcs)
  }

  /** `!n || tp < *n` (line 278); in `tp < n` (line 299) an absent time is never greater. */
  ghost predicate NotifiesSleep(m: multiset<Entry>, tp: int) {
    FirstTime(m).None? || tp < FirstTime(m).value
  }

  ghost predicate NotifiesAlertable(m: multiset<Entry>, tp: int) {
    FirstTime(m).Some? && tp < FirstTime(m).value
  }

  ghost predicate TurnStep(st: State, t: Thread, e: Event, st': State) {
    match FirstTime(st.pending)
    case None => e == Quiet && st' == st.(pcs := st.pcs[t := Blocked(None)])
    case Some(tm) =>
      if st.clock > tm then
        && e.Executed? && HeapStep(st.pending, TakeFirst, Some(e.x), st'.pending)
        && st' == st.(pending := st'.pending, pcs := st.pcs[t := Executing])
      else e == Quiet && st' == st.(pcs := st.pcs[t := Blocked(Some(tm))])
  }

  ghost predicate Takes(st: State, op: Op<Res>, e: Event, st': State) {
    && st' == st.(pending := st'.pending)
    && if e.Removed? then HeapStep(st.pending, op, Some(e.x), st'.pending)
       else e == Quiet && HeapStep(st.pending, op, None, st'.pending)
  }

  /** Nobody is between the test of the stop token and the wait. */
  ghost predicate MutexFree(st: State) {
    forall t: Thread :: t in st.pcs ==> st.pcs[t] != Looking
  }

  predicate NeedsMutex(l: Label) {
    l.SleepUntil? || l.SleepUntilAlertable? || l.RemoveFirst? || l.RemoveByIdent? || l.Alert? || l.Test?
  }

  predicate Stands(st: State, t: Thread, pc: Pc) {
    t in st.pcs && st.pcs[t] == pc
  }

  ghost predicate Step(st: State, l: Label, e: Event, st': State) {
    (NeedsMutex(l) ==> MutexFree(st)) && Does(st, l, e, st')
  }

  ghost predicate Does(st: State, l: Label, e: Event, st': State) {
    match l
    case SleepUntil(r, tp, ident) =>
      var x := Item(tp, Some(r), ident);
      e == Scheduled(x) && Schedules(st, x, NotifiesSleep(st.pending, tp), st')
    case SleepUntilAlertable(r, flag, tp) =>
      if flag in st.flags then e == Resolved(r) && st' == st
      else
        var x := Item(tp, Some(r), flag);
        e == Scheduled(x) && Schedules(st, x, NotifiesAlertable(st.pending, tp), st')
    case RemoveFirst => Takes(st, TakeFirst, e, st')
    case RemoveByIdent(ident) => Takes(st, TakeIdent(ident), e, st')
    case Alert(flag) =>
      && e == Quiet && HeapStep(st.pending, Rekey(flag, st.clock), None, st'.pending)
      && st' == st.(pending := st'.pending, flags := st.flags + {flag}, pcs := NotifyAll(st.pcs))
    case Reset(flag) => e == Quiet && st' == st.(flags := st.flags - {flag})
    case Test(t) =>
      && Stands(st, t, Ready) && e == Quiet
      && st' == st.(pcs := st.pcs[t := if t in st.stops then Exited else Looking])
    case Turn(t) => Stands(st, t, Looking) && TurnStep(st, t, e, st')
    case ExecutorReturns(t) => Stands(st, t, Executing) && e == Quiet && st' == st.(pcs := st.pcs[t := Ready])
    case Wake(t) => t in st.pcs && st.pcs[t].Blocked? && e == Quiet && st' == st.(pcs := st.pcs[t := Ready])
    case Start(t) => t !in st.pcs && e == Quiet && st' == st.(pcs := st.pcs[t := Ready])
    case RequestStop(t) => e == Quiet && st' == st.(stops := st.stops + {t})
    case StopCallback(t) => t in st.stops && e == Quiet && st' == st.(pcs := NotifyAll(st.pcs))
    case SetClock(now) => e == Quiet && st' == st.(clock := now)
  }

  /** A run: the states, the labels between them, and what each step did. */
  ghost predicate Run(sts: seq<State>, ls: seq<Label>, es: seq<Event>) {
    && |sts| == |ls| + 1 && |es| == |ls|
    && forall i :: 0 <= i < |ls| ==> Step(sts[i], ls[i], es[i], sts[i + 1])
  }

  ghost predicate Initial(st: State) {
    st.pending == multiset{} && st.flags == {} && st.pcs == map[]
  }

  lemma RunPrefix(sts: seq<State>, ls: seq<Label>, es: seq<Event>, n: nat)
    requires Run(sts, ls, es) && n + 1 == |ls|
    ensures Run(sts[..n + 1], ls[..n], es[..n]) && Step(sts[n], ls[n], es[n], sts[n + 1])
  {}

  // ---------- No oversleeping ----------

  /** No blocked thread sleeps past an entry: without a deadline only when there is no entry, and
      otherwise with a deadline no later than any. */
  ghost predicate NoOversleep(st: State) {
    forall t: Thread :: t in st.pcs && st.pcs[t].Blocked? ==> InTime(st.pcs[t].deadline, st.pending)
  }

  ghost predicate InTime(deadline: Option<int>, m: multiset<Entry>) {
    if deadline.None? then m == multiset{} else forall x :: x in m ==> deadline.value <= x.timestamp
  }

  /** The guard of the branch at line 299 that makes it safe: the flag is set, or the heap is not empty. */
  predicate AlertableIsSafe(st: State, l: Label) {
    l.SleepUntilAlertable? ==> l.flag in st.flags || st.pending != multiset{}
  }

  lemma InsertInTime(deadline: Option<int>, m: multiset<Entry>, x: Entry)
    requires InTime(deadline, m) && NotifiesSleep(m, x.timestamp) == false
    ensures InTime(deadline, m + multiset{x})
  {
    var y :| y in m && y.timestamp == FirstTime(m).value;
  }

  lemma SleepKeepsInTime(st: State, x: Entry, notify: bool, st': State)
    requires NoOversleep(st) && Schedules(st, x, notify, st')
    requires !notify ==> !NotifiesSleep(st.pending, x.timestamp)
    ensures NoOversleep(st')
  {
    forall t: Thread | t in st'.pcs && st'.pcs[t].Blocked?
      ensures InTime(st'.pcs[t].deadline, st'.pending)
    {
      InsertInTime(st.pcs[t].deadline, st.pending, x);
    }
  }

  lemma TurnKeepsInTime(st: State, t: Thread, e: Event, st': State)
    requires NoOversleep(st) && TurnStep(st, t, e, st')
    ensures NoOversleep(st')
  {
    forall u: Thread | u in st'.pcs && st'.pcs[u].Blocked?
      ensures InTime(st'.pcs[u].deadline, st'.pending)
    {
      if u != t {
        assert InTime(st.pcs[u].deadline, st.pending);
      }
    }
  }

  lemma StepKeepsInTime(st: State, l: Label, e: Event, st': State)
    requires NoOversleep(st) && Step(st, l, e, st') && AlertableIsSafe(st, l)
    ensures NoOversleep(st')
  {
    match l
    case SleepUntil(r, tp, ident) =>
      SleepKeepsInTime(st, Item(tp, Some(r), ident), NotifiesSleep(st.pending, tp), st');
    case SleepUntilAlertable(r, flag, tp) =>
      if flag !in st.flags {
        SleepKeepsInTime(st, Item(tp, Some(r), flag), NotifiesAlertable(st.pending, tp), st');
      }
    case Turn(t) => TurnKeepsInTime(st, t, e, st');
    case Alert(_) => NotifiedAreInTime(st, st');
    case StopCallback(_) => NotifiedAreInTime(st, st');
    case RemoveFirst => TakesKeepInTime(st, TakeFirst, e, st');
    case RemoveByIdent(ident) => TakesKeepInTime(st, TakeIdent(ident), e, st');
    case _ => OthersKeepInTime(st, l, e, st');
  }

  lemma TakesKeepInTime(st: State, op: Op<Res>, e: Event, st': State)
    requires NoOversleep(st) && Takes(st, op, e, st') && (op.TakeFirst? || op.TakeIdent?)
    ensures NoOversleep(st')
  {
    assert st'.pending <= st.pending;
    FewerKeepInTime(st, st');
  }

  lemma OthersKeepInTime(st: State, l: Label, e: Event, st': State)
    requires NoOversleep(st) && Step(st, l, e, st')
    requires l.Reset? || l.Test? || l.ExecutorReturns? || l.Wake? || l.Start? || l.RequestStop? || l.SetClock?
    ensures NoOversleep(st')
  {
    assert st'.pending == st.pending;
    FewerKeepInTime(st, st');
  }

  lemma NotifiedAreInTime(st: State, st': State)
    requires st'.pcs == NotifyAll(st.pcs)
    ensures NoOversleep(st')
  {}

  lemma FewerKeepInTime(st: State, st': State)
    requires NoOversleep(st) && st'.pending <= st.pending
    requires forall u: Thread :: u in st'.pcs && st'.pcs[u].Blocked? ==> u in st.pcs && st.pcs[u] == st'.pcs[u]
    ensures NoOversleep(st')
  {
    forall u: Thread | u in st'.pcs && st'.pcs[u].Blocked?
      ensures InTime(st'.pcs[u].deadline, st'.pending)
    {
      assert InTime(st.pcs[u].deadline, st.pending);
    }
  }

  /** In every run whose alertable sleeps find the flag set or the heap not empty, no blocked,
      un-notified thread ever oversleeps the first entry. */
  lemma {:induction false} NobodyOversleeps(sts: seq<State>, ls: seq<Label>, es: seq<Event>)
    requires Run(sts, ls, es) && Initial(sts[0])
    requires forall i :: 0 <= i < |ls| ==> AlertableIsSafe(sts[i], ls[i])
    ensures NoOversleep(sts[|ls|])
    decreases |ls|
  {
    if ls != [] {
      var n := |ls| - 1;
      RunPrefix(sts, ls, es, n);
      NobodyOversleeps(sts[..n + 1], ls[..n], es[..n]);
      StepKeepsInTime(sts[n], ls[n], es[n], sts[n + 1]);
    }
  }

  /** The condition is exact. An alertable sleep keeps every blocked thread in time, whatever threads
      are blocked, if and only if the flag is set or the heap is not empty. */
  lemma AlertableSafeExactly(st: State, r: Res, flag: Ident, tp: int)
    ensures AlertableIsSafe(st, SleepUntilAlertable(r, flag, tp)) <==>
            (forall pcs: map<Thread, Pc>, e: Event, st': State ::
               NoOversleep(st.(pcs := pcs)) && Step(st.(pcs := pcs), SleepUntilAlertable(r, flag, tp), e, st')
               ==> NoOversleep(st'))
  {
    var l := SleepUntilAlertable(r, flag, tp);
    if AlertableIsSafe(st, l) {
      forall pcs: map<Thread, Pc>, e: Event, st': State
        | NoOversleep(st.(pcs := pcs)) && Step(st.(pcs := pcs), l, e, st')
        ensures NoOversleep(st')
      {
        StepKeepsInTime(st.(pcs := pcs), l, e, st');
      }
    } else {
      var pcs := map[0 := Blocked(None)];
      var x := Item(tp, Some(r), flag);
      var st1 := st.(pcs := pcs);
      var st' := st1.(pending := multiset{x});
      assert multiset{} + multiset{x} == multiset{x};
      assert Step(st1, l, Scheduled(x), st');
      assert NoOversleep(st1);
      assert st'.pcs[0].Blocked? && x in st'.pending;
      assert !NoOversleep(st');
    }
  }

  /** Whether the threads are blocked such that a sleep until `tp` need not wake any. */
  predicate NobodyWaitsPast(st: State, tp: int) {
    forall t: Thread :: t in st.pcs && st.pcs[t].Blocked? ==> st.pcs[t].deadline.Some? && st.pcs[t].deadline.value <= tp
  }

  /** The condition state by state: an alertable sleep keeps the blocked threads in time if and only if it
      is safe, or all of them wake in time anyway. */
  lemma AlertableStepExactly(st: State, r: Res, flag: Ident, tp: int, e: Event, st': State)
    requires NoOversleep(st) && Step(st, SleepUntilAlertable(r, flag, tp), e, st')
    ensures NoOversleep(st') <==> AlertableIsSafe(st, SleepUntilAlertable(r, flag, tp)) || NobodyWaitsPast(st, tp)
  {
    var l := SleepUntilAlertable(r, flag, tp);
    if AlertableIsSafe(st, l) {
      StepKeepsInTime(st, l, e, st');
    } else {
      var x := Item(tp, Some(r), flag);
      assert x in st'.pending && st'.pcs == st.pcs;
      assert st'.pending == multiset{x};
      if NoOversleep(st') {
        forall t: Thread | t in st.pcs && st.pcs[t].Blocked?
          ensures st.pcs[t].deadline.Some? && st.pcs[t].deadline.value <= tp
        {
          assert InTime(st'.pcs[t].deadline, st'.pending);
        }
      }
    }
  }

  /** A run that breaks the condition: the one thread finds no entry and waits without a deadline, and
      the alertable sleep that comes then does not wake it. */
  lemma EmptyHeapOversleeps(r: Res, flag: Ident, tp: int, now: int)
    returns (sts: seq<State>, ls: seq<Label>, es: seq<Event>)
    ensures ls == [Start(0), Test(0), Turn(0), SleepUntilAlertable(r, flag, tp)]
    ensures Run(sts, ls, es) && Initial(sts[0]) && !NoOversleep(sts[|ls|])
  {
    var x := Item(tp, Some(r), flag);
    var st0 := State(now, multiset{}, {}, {}, map[]);
    var st1 := st0.(pcs := map[0 := Ready]);
    var st2 := st0.(pcs := map[0 := Looking]);
    var st3 := st0.(pcs := map[0 := Blocked(None)]);
    var st4 := st3.(pending := multiset{} + multiset{x});
    sts, es := [st0, st1, st2, st3, st4], [Quiet, Quiet, Quiet, Scheduled(x)];
    ls := [Start(0), Test(0), Turn(0), SleepUntilAlertable(r, flag, tp)];
    assert Step(st0, ls[0], Quiet, st1) && Step(st1, ls[1], Quiet, st2);
    assert Step(st2, ls[2], Quiet, st3) && Step(st3, ls[3], Scheduled(x), st4);
    assert st4.pcs[0].Blocked? && x in st4.pending;
  }

  // ---------- Stopping ----------

  /** The thread, asked to stop, is not blocked and will test the stop token before it could be. */
  predicate Heard(st: State, t: Thread) {
    t in st.stops && (t in st.pcs ==> st.pcs[t] != Looking && !st.pcs[t].Blocked?)
  }

  lemma StepKeepsHeard(st: State, l: Label, e: Event, st': State, t: Thread)
    requires Step(st, l, e, st') && Heard(st, t)
    ensures Heard(st', t)
  {}

  lemma {:induction false} HeardForever(sts: seq<State>, ls: seq<Label>, es: seq<Event>, t: Thread)
    requires Run(sts, ls, es) && Heard(sts[0], t)
    ensures Heard(sts[|ls|], t)
    decreases |ls|
  {
    if ls != [] {
      var n := |ls| - 1;
      RunPrefix(sts, ls, es, n);
      HeardForever(sts[..n + 1], ls[..n], es[..n], t);
      StepKeepsHeard(sts[n], ls[n], es[n], sts[n + 1], t);
    }
  }

  ghost predicate NeverBlocksAgain(st: State, t: Thread) {
    forall sts: seq<State>, ls: seq<Label>, es: seq<Event> ::
      Run(sts, ls, es) && sts[0] == st ==> !(t in sts[|ls|].pcs && sts[|ls|].pcs[t].Blocked?)
  }

  /** A stop is not lost, that is the thread never blocks again after the notification of its stop
      callback, if and only if that does not fall between its test of the token and its wait: the
      callback does not take the mutex. */
  lemma StopIsHeardExactly(st: State, t: Thread, st': State)
    requires Step(st, StopCallback(t), Quiet, st')
    ensures NeverBlocksAgain(st', t) <==> !Stands(st, t, Looking)
  {
    if Stands(st, t, Looking) {
      var tm := FirstTime(st'.pending);
      var l1 := SetClock(if tm.Some? then tm.value else 0);
      var st1 := st'.(clock := l1.now);
      var st2 := st1.(pcs := st1.pcs[t := Blocked(tm)]);
      assert Step(st', l1, Quiet, st1);
      assert Step(st1, Turn(t), Quiet, st2);
      assert Run([st', st1, st2], [l1, Turn(t)], [Quiet, Quiet]);
      assert [st', st1, st2][|[l1, Turn(t)]|] == st2 && st2.pcs[t].Blocked?;
    } else {
      forall sts: seq<State>, ls: seq<Label>, es: seq<Event> | Run(sts, ls, es) && sts[0] == st'
        ensures !(t in sts[|ls|].pcs && sts[|ls|].pcs[t].Blocked?)
      {
        HeardForever(sts, ls, es, t);
      }
    }
  }

  /** A run that loses a stop: it is requested, and the notification made, while the thread stands between
      its test and its wait, which has no deadline. */
  lemma StopIsLost(now: int) returns (sts: seq<State>, ls: seq<Label>, es: seq<Event>)
    ensures ls == [Start(0), Test(0), RequestStop(0), StopCallback(0), Turn(0)]
    ensures Run(sts, ls, es) && Initial(sts[0])
    ensures 0 in sts[|ls|].stops && Stands(sts[|ls|], 0, Blocked(None))
  {
    var st0 := State(now, multiset{}, {}, {}, map[]);
    var st1 := st0.(pcs := map[0 := Ready]);
    var st2 := st0.(pcs := map[0 := Looking]);
    var st3 := st2.(stops := {0});
    var st4 := st3;
    var st5 := st3.(pcs := map[0 := Blocked(None)]);
    sts, es := [st0, st1, st2, st3, st4, st5], [Quiet, Quiet, Quiet, Quiet, Quiet];
    ls := [Start(0), Test(0), RequestStop(0), StopCallback(0), Turn(0)];
    assert NotifyAll(st3.pcs) == st3.pcs;
    forall i | 0 <= i < |ls|
      ensures Step(sts[i], ls[i], es[i], sts[i + 1])
    {
      assert st1.pcs[0] == Ready && st2.pcs[0] == Looking;
    }
  }

  // ---------- Every result is pending, executed or removed ----------

  function ScheduledCount(es: seq<Event>, key: Runs.Key<Res>): nat {
    if es == [] then 0
    else ScheduledCount(es[..|es| - 1], key) + Bit(es[|es| - 1].Scheduled? && Runs.KeyOf(es[|es| - 1].x) == key)
  }

  function ExecutedCount(es: seq<Event>, key: Runs.Key<Res>): nat {
    if es == [] then 0
    else ExecutedCount(es[..|es| - 1], key) + Bit(es[|es| - 1].Executed? && Runs.KeyOf(es[|es| - 1].x) == key)
  }

  function RemovedCount(es: seq<Event>, key: Runs.Key<Res>): nat {
    if es == [] then 0
    else RemovedCount(es[..|es| - 1], key) + Bit(es[|es| - 1].Removed? && Runs.KeyOf(es[|es| - 1].x) == key)
  }

  lemma StepConserves(st: State, l: Label, e: Event, st': State, key: Runs.Key<Res>)
    requires Step(st, l, e, st')
    ensures Runs.Count(st.pending, key) + Bit(e.Scheduled? && Runs.KeyOf(e.x) == key)
            == Runs.Count(st'.pending, key) + Bit((e.Executed? || e.Removed?) && Runs.KeyOf(e.x) == key)
  {
    match l
    case SleepUntil(_, _, _) => Runs.CountAdd(st.pending, e.x, key);
    case SleepUntilAlertable(_, _, _) =>
      if e.Scheduled? {
        Runs.CountAdd(st.pending, e.x, key);
      }
    case RemoveFirst => TakesConserves(st, TakeFirst, e, st', key);
    case RemoveByIdent(ident) => TakesConserves(st, TakeIdent(ident), e, st', key);
    case Alert(flag) => Runs.RekeyKeeps(st.pending, flag, st.clock, st'.pending);
    case Turn(_) =>
      if e.Executed? {
        Runs.CountTake(st.pending, e.x, key);
      }
    case _ =>
  }

  lemma TakesConserves(st: State, op: Op<Res>, e: Event, st': State, key: Runs.Key<Res>)
    requires Takes(st, op, e, st') && (op.TakeFirst? || op.TakeIdent?)
    ensures Runs.Count(st.pending, key) == Runs.Count(st'.pending, key) + Bit(e.Removed? && Runs.KeyOf(e.x) == key)
    ensures e.Removed? || e.Quiet?
  {
    if e.Removed? {
      Runs.CountTake(st.pending, e.x, key);
    }
  }

  /** Over every run each scheduled result is pending, executed or removed, as often as it was
      scheduled; so a result scheduled once is in exactly one of the three, once. */
  lemma {:induction false} ResultsAreConserved(sts: seq<State>, ls: seq<Label>, es: seq<Event>, key: Runs.Key<Res>)
    requires Run(sts, ls, es) && Initial(sts[0])
    ensures ScheduledCount(es, key)
            == Runs.Count(sts[|ls|].pending, key) + ExecutedCount(es, key) + RemovedCount(es, key)
    decreases |ls|
  {
    if ls != [] {
      var n := |ls| - 1;
      RunPrefix(sts, ls, es, n);
      ResultsAreConserved(sts[..n + 1], ls[..n], es[..n], key);
      StepConserves(sts[n], ls[n], es[n], sts[n + 1], key);
    }
  }

  /** The step `j` accounts for the entry: it scheduled it, or it was an alert of its flag at its time. */
  ghost predicate Causes(sts: seq<State>, ls: seq<Label>, es: seq<Event>, j: nat, x: Entry)
    requires Run(sts, ls, es) && j < |ls|
  {
    es[j] == Scheduled(x) || (ls[j] == Alert(x.ident) && sts[j].clock == x.timestamp)
  }

  ghost predicate HasCause(sts: seq<State>, ls: seq<Label>, es: seq<Event>, n: nat, x: Entry)
    requires Run(sts, ls, es) && n <= |ls|
  {
    exists j: nat :: j < n && Causes(sts, ls, es, j, x)
  }

  /** An entry is there after a step because the step caused it, or because it was there before. */
  lemma OldOrCaused(sts: seq<State>, ls: seq<Label>, es: seq<Event>, i: nat, x: Entry)
    requires Run(sts, ls, es) && i < |ls| && x in sts[i + 1].pending
    ensures x in sts[i].pending || Causes(sts, ls, es, i, x)
  {
    var l := ls[i];
    assert Step(sts[i], l, es[i], sts[i + 1]);
    if l.Alert? {
      Runs.RekeyMembers(sts[i].pending, l.flag, sts[i].clock, sts[i + 1].pending, x);
    }
  }

  lemma {:induction false} PendingHasCause(sts: seq<State>, ls: seq<Label>, es: seq<Event>, n: nat, x: Entry)
    requires Run(sts, ls, es) && Initial(sts[0]) && n <= |ls| && x in sts[n].pending
    ensures HasCause(sts, ls, es, n, x)
    decreases n
  {
    if n > 0 {
      OldOrCaused(sts, ls, es, n - 1, x);
      if !Causes(sts, ls, es, n - 1, x) {
        PendingHasCause(sts, ls, es, n - 1, x);
      }
    }
  }

  /** In every run, what a thread executes is due, the clock being strictly past its time; nothing
      pending is earlier; and its time is the one it was scheduled for, or that of an alert of its flag.
      So nothing is executed before its time unless it is alerted. */
  lemma ExecutedWhenDue(sts: seq<State>, ls: seq<Label>, es: seq<Event>, i: nat)
    requires Run(sts, ls, es) && Initial(sts[0]) && i < |ls| && es[i].Executed?
    ensures var x := es[i].x;
            && ls[i].Turn? && sts[i].clock > x.timestamp && x in sts[i].pending
            && (forall y :: y in sts[i].pending ==> x.timestamp <= y.timestamp)
            && HasCause(sts, ls, es, i, x)
  {
    assert Step(sts[i], ls[i], es[i], sts[i + 1]);
    var tm := FirstTime(sts[i].pending).value;
    assert exists y :: y in sts[i].pending && y.timestamp == tm;
    PendingHasCause(sts, ls, es, i, es[i].x);
  }

  // ---------- What is due is executed ----------

  predicate Due(m: multiset<Entry>, now: int) {
    exists x :: x in m && x.timestamp < now
  }

  /** `deadline` is the time of the first entry, none if there is no entry. */
  ghost predicate IsFirstTime(m: multiset<Entry>, deadline: Option<int>) {
    if deadline.None? then m == multiset{}
    else (exists x :: x in m && x.timestamp == deadline.value) && forall x :: x in m ==> deadline.value <= x.timestamp
  }

  /** In every run a turn of a thread executes a result if and only if one is due, and takes exactly its
      entry out; otherwise the thread waits, until the time of the first entry, or without a deadline if
      there is none. */
  lemma TurnExecutesIfDue(sts: seq<State>, ls: seq<Label>, es: seq<Event>, i: nat)
    requires Run(sts, ls, es) && i < |ls| && ls[i].Turn?
    ensures var st, st', t, e := sts[i], sts[i + 1], ls[i].t, es[i];
            && t in st'.pcs && st'.pcs == st.pcs[t := st'.pcs[t]] && st'.clock == st.clock
            && (e.Executed? <==> Due(st.pending, st.clock))
            && (if e.Executed? then
                  st'.pcs[t] == Executing && e.x in st.pending && st'.pending == st.pending - multiset{e.x}
                else e == Quiet && st'.pending == st.pending
                     && st'.pcs[t].Blocked? && IsFirstTime(st.pending, st'.pcs[t].deadline))
  {
    assert Step(sts[i], ls[i], es[i], sts[i + 1]);
    var tm := FirstTime(sts[i].pending);
    if tm.Some? {
      var x :| x in sts[i].pending && x.timestamp == tm.value;
    }
  }

  /** In every run a thread that has left run_thread was asked to stop. */
  lemma {:induction false} LeavesOnlyIfAsked(sts: seq<State>, ls: seq<Label>, es: seq<Event>, t: Thread)
    requires Run(sts, ls, es) && Initial(sts[0])
    ensures var st := sts[|ls|]; Stands(st, t, Exited) ==> t in st.stops
    decreases |ls|
  {
    if ls != [] {
      var n := |ls| - 1;
      RunPrefix(sts, ls, es, n);
      LeavesOnlyIfAsked(sts[..n + 1], ls[..n], es[..n], t);
      assert Step(sts[n], ls[n], es[n], sts[n + 1]);
    }
  }

  /** ... and one that was asked leaves at its next test of the stop token. */
  lemma LeavesWhenAsked(st: State, t: Thread, e: Event, st': State)
    requires Step(st, Test(t), e, st')
    ensures st' == st.(pcs := st.pcs[t := if t in st.stops then Exited else Looking])
  {}

  // ---------- What each operation does ----------

  /** A sleep adds its entry, and wakes every waiting thread if the entry comes before all others. */
  lemma SleepsAreScheduled(sts: seq<State>, ls: seq<Label>, es: seq<Event>, i: nat)
    requires Run(sts, ls, es) && i < |ls| && ls[i].SleepUntil?
    ensures var st, st', x := sts[i], sts[i + 1], Item(ls[i].tp, Some(ls[i].r), ls[i].ident);
            && es[i] == Scheduled(x) && st' == st.(pending := st.pending + multiset{x}, pcs := st'.pcs)
            && st'.pcs == if (forall y :: y in st.pending ==> x.timestamp < y.timestamp) then NotifyAll(st.pcs)
                          else st.pcs
  {
    assert Step(sts[i], ls[i], es[i], sts[i + 1]);
    var tm := FirstTime(sts[i].pending);
    if tm.Some? {
      var x :| x in sts[i].pending && x.timestamp == tm.value;
    }
  }

  lemma AlertableSleepsAreScheduled(sts: seq<State>, ls: seq<Label>, es: seq<Event>, i: nat)
    requires Run(sts, ls, es) && i < |ls| && ls[i].SleepUntilAlertable?
    ensures var st, st', x := sts[i], sts[i + 1], Item(ls[i].tp, Some(ls[i].r), ls[i].flag);
            if ls[i].flag in st.flags then es[i] == Resolved(ls[i].r) && st' == st
            else
              && es[i] == Scheduled(x) && st' == st.(pending := st.pending + multiset{x}, pcs := st'.pcs)
              && st'.pcs == if st.pending != multiset{} && (forall y :: y in st.pending ==> x.timestamp < y.timestamp)
                            then NotifyAll(st.pcs) else st.pcs
  {
    assert Step(sts[i], ls[i], es[i], sts[i + 1]);
    var tm := FirstTime(sts[i].pending);
    if tm.Some? {
      var x :| x in sts[i].pending && x.timestamp == tm.value;
    }
  }

  /** What can be removed is: the first entry, or one under the identity. */
  lemma RemovesWhatThereIs(sts: seq<State>, ls: seq<Label>, es: seq<Event>, i: nat)
    requires Run(sts, ls, es) && i < |ls| && (ls[i].RemoveFirst? || ls[i].RemoveByIdent?)
    ensures var st, st', e := sts[i], sts[i + 1], es[i];
            && (e.Removed? <==> if ls[i].RemoveFirst? then st.pending != multiset{} else Has(st.pending, ls[i].ident))
            && (if e.Removed? then
                  && e.x in st.pending && st' == st.(pending := st.pending - multiset{e.x})
                  && (if ls[i].RemoveFirst? then IsFirst(st.pending, e.x) else e.x.ident == ls[i].ident)
                else e == Quiet && st' == st)
  {
    assert Step(sts[i], ls[i], es[i], sts[i + 1]);
  }

  /** An alert sets the flag, wakes every waiting thread, and makes the sleeps under it due. */
  lemma AlertWakesAll(sts: seq<State>, ls: seq<Label>, es: seq<Event>, i: nat)
    requires Run(sts, ls, es) && i < |ls| && ls[i].Alert?
    ensures var st, st', flag := sts[i], sts[i + 1], ls[i].flag;
            && es[i] == Quiet && st'.flags == st.flags + {flag} && st'.clock == st.clock && st'.stops == st.stops
            && st'.pcs.Keys == st.pcs.Keys
            && (forall t: Thread :: t in st.pcs ==> st'.pcs[t] == if st.pcs[t].Blocked? then Ready else st.pcs[t])
            && (forall x :: x in st'.pending && x.ident == flag ==> x.timestamp <= st.clock)
            && (Has(st.pending, flag) ==> HasAt(st'.pending, flag, st.clock))
            && |st'.pending| == |st.pending|
  {
    assert Step(sts[i], ls[i], es[i], sts[i + 1]);
    Runs.RekeyKeeps(sts[i].pending, ls[i].flag, sts[i].clock, sts[i + 1].pending);
  }

  /** Whether the last alert or reset of the flag in the run was an alert. */
  function LastWasAlert(ls: seq<Label>, flag: Ident): bool {
    if ls == [] then false
    else if ls[|ls| - 1] == Alert(flag) then true
    else if ls[|ls| - 1] == Reset(flag) then false
    else LastWasAlert(ls[..|ls| - 1], flag)
  }

  /** A flag is set exactly from an alert of it until it is reset. */
  lemma {:induction false} FlagIsLastAlert(sts: seq<State>, ls: seq<Label>, es: seq<Event>, flag: Ident)
    requires Run(sts, ls, es) && Initial(sts[0])
    ensures flag in sts[|ls|].flags <==> LastWasAlert(ls, flag)
    decreases |ls|
  {
    if ls != [] {
      var n := |ls| - 1;
      RunPrefix(sts, ls, es, n);
      FlagIsLastAlert(sts[..n + 1], ls[..n], es[..n], flag);
      assert Step(sts[n], ls[n], es[n], sts[n + 1]);
    }
  }

  /** How the threads move otherwise: they start, wake, return from the executor, and are asked to stop
      and notified of it. */
  lemma ThreadsMove(st: State, l: Label, e: Event, st': State)
    requires Step(st, l, e, st')
    ensures l.Start? ==> l.t !in st.pcs && st' == st.(pcs := st.pcs[l.t := Ready])
    ensures l.Wake? ==> l.t in st.pcs && st.pcs[l.t].Blocked? && st' == st.(pcs := st.pcs[l.t := Ready])
    ensures l.ExecutorReturns? ==> Stands(st, l.t, Executing) && st' == st.(pcs := st.pcs[l.t := Ready])
    ensures l.RequestStop? ==> st' == st.(stops := st.stops + {l.t})
    ensures l.StopCallback? ==> forall t: Thread :: t in st'.pcs ==> t in st.pcs && !st'.pcs[t].Blocked?
    ensures l.SetClock? ==> st' == st.(clock := l.now)
  {}

  /** ... and they can do so whenever that is possible at all. */
  lemma ThreadsCanMove(st: State, t: Thread, flag: Ident, now: int)
    ensures t !in st.pcs ==> Step(st, Start(t), Quiet, st.(pcs := st.pcs[t := Ready]))
    ensures t in st.pcs && st.pcs[t].Blocked? ==> Step(st, Wake(t), Quiet, st.(pcs := st.pcs[t := Ready]))
    ensures Stands(st, t, Executing) ==> Step(st, ExecutorReturns(t), Quiet, st.(pcs := st.pcs[t := Ready]))
    ensures Stands(st, t, Ready) && MutexFree(st) ==>
              Step(st, Test(t), Quiet, st.(pcs := st.pcs[t := if t in st.stops then Exited else Looking]))
    ensures Step(st, RequestStop(t), Quiet, st.(stops := st.stops + {t}))
    ensures t in st.stops ==> Step(st, StopCallback(t), Quiet, st.(pcs := NotifyAll(st.pcs)))
    ensures Step(st, Reset(flag), Quiet, st.(flags := st.flags - {flag}))
    ensures Step(st, SetClock(now), Quiet, st.(clock := now))
  {}

  // ---------- Alerts are not lost ----------

  /** The flag is set and every sleep under it is due at `t` or before. */
  ghost predicate AlertStands(st: State, flag: Ident, t: int) {
    flag in st.flags && forall x :: x in st.pending && x.ident == flag ==> x.timestamp <= t
  }

  /** Neither a reset of the flag nor an ordinary sleep that uses its address as identity. */
  predicate LeavesFlag(l: Label, flag: Ident) {
    l != Reset(flag) && (l.SleepUntil? ==> l.ident != flag)
  }

  /** The time of the last alert of `flag`, `t` if there has been none. */
  function LastAlert(sts: seq<State>, ls: seq<Label>, flag: Ident, t: int): int
    requires |sts| >= |ls|
  {
    if ls == [] then t
    else if ls[|ls| - 1] == Alert(flag) then sts[|ls| - 1].clock
    else LastAlert(sts, ls[..|ls| - 1], flag, t)
  }

  lemma AlertStep(st: State, l: Label, e: Event, st': State, flag: Ident, t: int)
    requires Step(st, l, e, st') && LeavesFlag(l, flag)
    requires l == Alert(flag) || AlertStands(st, flag, t)
    ensures AlertStands(st', flag, if l == Alert(flag) then st.clock else t)
    ensures l == Alert(flag) ==> forall u: Thread :: u in st'.pcs ==> !st'.pcs[u].Blocked?
    ensures l.SleepUntilAlertable? && l.flag == flag ==> e == Resolved(l.r) && st' == st
  {
    match l
    case Alert(f) =>
      if f != flag {
        OtherAlert(st, l, e, st', flag, t);
      }
    case SleepUntil(_, _, _) => InsertOther(st, e.x, st', flag, t);
    case SleepUntilAlertable(_, f, _) =>
      if e.Scheduled? {
        InsertOther(st, e.x, st', flag, t);
      }
    case _ => assert st'.pending <= st.pending;
  }

  lemma InsertOther(st: State, x: Entry, st': State, flag: Ident, t: int)
    requires AlertStands(st, flag, t) && x.ident != flag
    requires st'.pending == st.pending + multiset{x} && st'.flags == st.flags
    ensures AlertStands(st', flag, t)
  {}

  lemma OtherAlert(st: State, l: Label, e: Event, st': State, flag: Ident, t: int)
    requires Step(st, l, e, st') && l.Alert? && l.flag != flag && AlertStands(st, flag, t)
    ensures AlertStands(st', flag, t)
  {
    Runs.RekeyKeeps(st.pending, l.flag, st.clock, st'.pending);
    forall x | x in st'.pending && x.ident == flag
      ensures x.timestamp <= t
    {
      assert st'.pending[x] == st.pending[x];
    }
  }

  /** From an alert on, until the flag is reset, every sleep under the flag is due no later than the
      last alert, and an alertable sleep on it is resolved at once instead of entering the heap. */
  lemma {:induction false} AlertsAreNotLost(sts: seq<State>, ls: seq<Label>, es: seq<Event>, flag: Ident)
    requires Run(sts, ls, es) && ls != [] && ls[0] == Alert(flag)
    requires forall i :: 0 <= i < |ls| ==> LeavesFlag(ls[i], flag)
    ensures AlertStands(sts[|ls|], flag, LastAlert(sts, ls, flag, sts[0].clock))
    ensures forall i :: 0 <= i < |ls| && ls[i].SleepUntilAlertable? && ls[i].flag == flag ==> es[i] == Resolved(ls[i].r)
    decreases |ls|
  {
    var n := |ls| - 1;
    RunPrefix(sts, ls, es, n);
    var t := LastAlert(sts, ls[..n], flag, sts[0].clock);
    if n > 0 {
      AlertsAreNotLost(sts[..n + 1], ls[..n], es[..n], flag);
      LastAlertPrefix(sts, ls[..n], flag, sts[0].clock, n + 1);
      forall i | 0 <= i < n && ls[i].SleepUntilAlertable? && ls[i].flag == flag
        ensures es[i] == Resolved(ls[i].r)
      {
        assert ls[..n][i] == ls[i] && es[..n][i] == es[i];
      }
    }
    AlertStep(sts[n], ls[n], es[n], sts[n + 1], flag, t);
  }

  /** Only the states that have a label matter. */
  lemma {:induction false} LastAlertPrefix(sts: seq<State>, ls: seq<Label>, flag: Ident, t: int, n: nat)
    requires |ls| <= n <= |sts|
    ensures LastAlert(sts[..n], ls, flag, t) == LastAlert(sts, ls, flag, t)
    decreases |ls|
  {
    if ls != [] {
      LastAlertPrefix(sts, ls[..|ls| - 1], flag, t, n);
    }
  }
}
