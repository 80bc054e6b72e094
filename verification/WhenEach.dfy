/** when_each (coroutine.h:1787-1956): `n` producers race to claim positions in `_finished`, one
    consumer awaits the positions in order.

    Each atomic operation is a step, and so are storing the handle `_r` and moving it out. The
    source leaves the handle in `_r` when the compare-exchange of await_suspend fails (lines
    1860-1863), and so does the model. A prepared_coro resumes what it holds when it is assigned or
    destroyed, so a stale handle is resumed by the next await that gets as far as await_suspend, from
    inside it, or by the destruction of the object. The main results say that this is the only thing
    that goes wrong, and when it does. */
module WhenEachSteps {
  import opened Options
  import opened Sequences

  type Handle = nat

  datatype ProducerPc = NotAdded | Pending | Claimed(w: nat) | Firing | Done

  datatype ConsumerPc =
    | Idle
    | Checked              // await_ready returned false
    | Stored(h: Handle)    // `_r` is set, the compare-exchange still to come
    | Suspended(h: Handle)
    | Resuming             // about to run await_resume
    | Gone                 // the object is destroyed

  datatype State = State(
    producers: seq<ProducerPc>,
    finished: seq<nat>,          // 0: not complete, 1: awaited, else index + 2
    freeSlot: nat,
    added: nat,
    nx: nat,
    r: Option<Handle>,
    outer: nat,                  // calls of await_suspend that a resumption inside them interrupts
    consumer: ConsumerPc,
    returned: seq<nat>,          // what await_resume has returned
    claims: seq<nat>,            // history: the producers in the order of their fetch_add
    failed: bool)                // history: the last compare-exchange of await_suspend failed

  function Init(n: nat): State {
    State(seq(n, i => NotAdded), seq(n, i => 0), 0, 0, 0, None, 0, Idle, [], [], false)
  }

  datatype Label =
    | Add                        // the constructor registers the next awaitable
    | Complete(i: nat)           // fetch_add on _free_slot
    | Exchange(i: nat)
    | Fire(i: nat)               // moves `_r` out and resumes it
    | CheckReady
    | StoreHandle(h: Handle)
    | CompareExchange
    | AwaitResume
    | Destroy                    // the destructor, once it has waited for all results

  datatype Event =
    | Tau
    | Awaits(h: Handle)
    | Woken(h: Handle, waker: nat)
    | Returned(i: nat)
    | Exhausted                  // await_resume with nothing left
    | Spurious(h: Handle)        // storing over `_r`, or destroying it, resumed the handle in it
    | Fault                      // a position out of range, an empty handle, no index to return, or
                                 // a step inside a destroyed object

  function Produce(st: State, l: Label): (State, Event)
    requires l.Complete? || l.Exchange? || l.Fire?
  {
    if l.i >= |st.producers| then (st, Tau)
    else
      var i := l.i;
      var pc := st.producers[i];
      if st.consumer == Gone && pc != Done then (st, Fault)
      else if l.Complete? && pc == Pending then
        (st.(producers := st.producers[i := Claimed(st.freeSlot)], freeSlot := st.freeSlot + 1,
             claims := st.claims + [i]), Tau)
      else if l.Exchange? && pc.Claimed? then
        if pc.w >= |st.finished| then (st, Fault)
        else
          (st.(producers := st.producers[i := if st.finished[pc.w] == 1 then Firing else Done],
               finished := st.finished[pc.w := i + 2]), Tau)
      else if l.Fire? && pc == Firing then
        if st.r == None then (st, Fault)
        else
          (st.(producers := st.producers[i := Done], r := None,
               consumer := if st.consumer == Suspended(st.r.value) then Resuming else st.consumer),
           Woken(st.r.value, i))
      else (st, Tau)
  }

  function Consume(st: State, l: Label): (State, Event)
    requires l.CheckReady? || l.StoreHandle? || l.CompareExchange? || l.AwaitResume? || l.Destroy?
    requires |st.finished| == |st.producers|
  {
    var n := |st.producers|;
    match l
    case CheckReady =>
      if st.consumer != Idle || st.added < n then (st, Tau)
      else if st.nx >= n || st.finished[st.nx] != 0 then (st.(consumer := Resuming), Tau)
      else (st.(consumer := Checked), Tau)
    case StoreHandle(h) =>
      if st.consumer != Checked then (st, Tau)
      else if st.r == Some(h) then
        // the coroutine that has just been suspended here runs await_resume, inside await_suspend
        (st.(consumer := Resuming, outer := st.outer + 1), Spurious(h))
      else (st.(consumer := Stored(h), r := Some(h)), if st.r.Some? then Spurious(st.r.value) else Tau)
    case CompareExchange =>
      if !st.consumer.Stored? then OuterExchange(st)
      else if st.nx >= n then (st, Fault)
      else if st.finished[st.nx] == 0 then
        (st.(finished := st.finished[st.nx := 1], consumer := Suspended(st.consumer.h), failed := false),
         Awaits(st.consumer.h))
      else (st.(consumer := Resuming, failed := true), Tau)
    case AwaitResume =>
      if st.consumer != Resuming then (st, Tau)
      else if st.nx >= n then (st.(consumer := Idle), Exhausted)
      else if st.finished[st.nx] < 2 then (st, Fault)
      else
        var i := st.finished[st.nx] - 2;
        (st.(consumer := Idle, nx := st.nx + 1, returned := st.returned + [i]), Returned(i))
    case Destroy =>
      if !Destructible(st) then (st, Tau)
      else (st.(consumer := Gone, r := None), if st.r.Some? then Spurious(st.r.value) else Tau)
  }

  /** The destructor has nothing left to wait for. */
  predicate Destructible(st: State) {
    st.consumer == Idle && st.nx >= |st.producers|
  }

  /** The compare-exchange of an interrupted await_suspend, made when the coroutine that ran inside it
      is suspended again. When it fails that coroutine goes on at an await it has left. */
  function OuterExchange(st: State): (State, Event)
    requires |st.finished| == |st.producers|
  {
    if st.outer == 0 || !(st.consumer.Suspended? || st.consumer.Idle?) then (st, Tau)
    else if st.nx >= |st.finished| || st.finished[st.nx] != 0 then (st, Fault)
    else (st.(finished := st.finished[st.nx := 1], outer := st.outer - 1), Tau)
  }

  function Next(st: State, l: Label): (step: (State, Event))
    requires |st.finished| == |st.producers|
    ensures |step.0.finished| == |step.0.producers| == |st.producers|
  {
    match l
    case Add =>
      if st.added < |st.producers| && st.producers[st.added] == NotAdded && st.consumer != Gone
      then (st.(producers := st.producers[st.added := Pending], added := st.added + 1), Tau)
      else (st, Tau)
    case Complete(_) => Produce(st, l)
    case Exchange(_) => Produce(st, l)
    case Fire(_) => Produce(st, l)
    case _ => Consume(st, l)
  }

  function Exec(st: State, ls: seq<Label>): (run: (State, seq<Event>))
    requires |st.finished| == |st.producers|
    ensures |run.0.finished| == |run.0.producers| == |st.producers|
    decreases |ls|
  {
    if ls == [] then (st, [])
    else
      var (st1, e) := Next(st, ls[0]);
      var (st2, es) := Exec(st1, ls[1..]);
      (st2, [e] + es)
  }

  // ---------- The invariant ----------

  /** Position `k` was claimed by producer `claims[k]`, which has written its index there or is about to. */
  ghost predicate Position(st: State, k: nat)
    requires k < |st.finished| && (k < |st.claims| ==> st.claims[k] < |st.producers|)
  {
    if k < |st.claims| then
      var pc := st.producers[st.claims[k]];
      if pc.Claimed? then pc.w == k && st.finished[k] < 2
      else (pc == Firing || pc == Done) && st.finished[k] == st.claims[k] + 2
    else st.finished[k] < 2
  }

  ghost predicate Claims(st: State) {
    && |st.finished| == |st.producers| && st.added <= |st.producers|
    && st.freeSlot == |st.claims| <= |st.producers| && Distinct(st.claims)
    && (forall k: nat :: k < |st.claims| ==> st.claims[k] < |st.producers|)
    && (forall k: nat :: k < |st.finished| ==> Position(st, k))
    && (forall i: nat :: i < |st.producers| ==>
          (st.producers[i] == NotAdded <==> st.added <= i)
          && (st.producers[i] == NotAdded || st.producers[i] == Pending <==> i !in st.claims))
  }

  /** Only the position the consumer is suspended on holds 1, and only the producer that claimed that
      position is about to wake it. */
  ghost predicate Handover(st: State)
    requires Claims(st)
  {
    && (forall k: nat :: k < |st.finished| && st.finished[k] == 1 ==> st.consumer.Suspended? && k == st.nx)
    && (forall i: nat :: i < |st.producers| && st.producers[i] == Firing ==>
          st.consumer.Suspended? && st.nx < |st.claims| && st.claims[st.nx] == i)
    && (st.consumer.Suspended? ==>
          st.nx < |st.finished| && st.r == Some(st.consumer.h)
          && (st.finished[st.nx] == 1 || (st.nx < |st.claims| && st.producers[st.claims[st.nx]] == Firing)))
  }

  ghost predicate Delivery(st: State)
    requires Claims(st)
  {
    && st.nx <= |st.claims| && st.returned == st.claims[..st.nx]
    && (forall k: nat :: k < st.nx ==> st.finished[k] >= 2)
    && (st.consumer.Resuming? && st.nx < |st.finished| ==> st.finished[st.nx] >= 2)
    && (st.consumer.Checked? ==> st.nx < |st.finished|)
    && (st.consumer.Stored? ==> st.nx < |st.finished| && st.r == Some(st.consumer.h))
    && (st.consumer.Suspended? || st.consumer.Stored? ==> !st.failed)
    && (st.consumer.Idle? || st.consumer.Checked? || st.consumer.Resuming? ==> (st.r.Some? <==> st.failed))
    && (st.consumer.Gone? ==> forall i: nat :: i < |st.producers| ==> st.producers[i] == Done)
    && st.outer == 0
  }

  ghost predicate Inv(st: State) {
    Claims(st) && Handover(st) && Delivery(st)
  }

  /** The handle that waits for a producer. */
  function Asleep(st: State): seq<Handle> {
    if st.consumer.Suspended? then [st.consumer.h] else []
  }

  /** The handle that a step resumes, whoever resumes it. */
  function ResumptionOf(e: Event): seq<Handle> {
    match e
    case Woken(h, _) => [h]
    case Spurious(h) => [h]
    case _ => []
  }

  function AwaitOf(e: Event): seq<Handle> {
    if e.Awaits? then [e.h] else []
  }

  /** What a caller may expect of a step: it does nothing invalid, and if it resumes a coroutine at
      all, the one that is suspended on the object. */
  predicate Proper(st: State, e: Event) {
    e != Fault && (ResumptionOf(e) == [] || ResumptionOf(e) == Asleep(st))
  }

  /** Storing a handle, or destroying the object, when the last compare-exchange of await_suspend
      failed. */
  predicate StaleUse(st: State, l: Label) {
    st.failed && ((l.StoreHandle? && st.consumer == Checked) || (l.Destroy? && Destructible(st)))
  }

  ghost predicate StepOk(st: State, step: (State, Event))
    requires Inv(st)
  {
    var (st', e) := step;
    && Inv(st') && Proper(st, e) && st.claims <= st'.claims
    && (e.Woken? ==> st.nx < |st.claims| && st.claims[st.nx] == e.waker)
    && Asleep(st) + AwaitOf(e) == ResumptionOf(e) + Asleep(st')
  }

  lemma AddKeepsInv(st: State)
    requires Inv(st)
    ensures StepOk(st, Next(st, Add))
  {
    var st' := Next(st, Add).0;
    forall k: nat | k < |st'.finished|
      ensures Position(st', k)
    {
      assert Position(st, k);
      assert k < |st.claims| ==> st.claims[k] in st.claims;
    }
    if st.consumer.Suspended? && st.nx < |st.claims| {
      assert st.claims[st.nx] in st.claims;
    }
  }

  lemma CompleteKeepsClaims(st: State, i: nat)
    requires Inv(st) && i < |st.producers| && st.producers[i] == Pending
    ensures Claims(Next(st, Complete(i)).0)
  {
    var st' := Next(st, Complete(i)).0;
    assert i !in st.claims;
    assert forall k :: 0 <= k < |st.claims| ==> st.claims[k] in st.claims;
    Pigeonhole(st'.claims, |st.producers|);
    forall k: nat | k < |st'.finished|
      ensures Position(st', k)
    {
      assert Position(st, k);
    }
  }

  lemma CompleteKeepsInv(st: State, i: nat)
    requires Inv(st)
    ensures StepOk(st, Next(st, Complete(i)))
  {
    if i < |st.producers| && st.producers[i] == Pending {
      var st' := Next(st, Complete(i)).0;
      CompleteKeepsClaims(st, i);
      assert i !in st.claims;
      if st.nx < |st.claims| {
        assert st.claims[st.nx] in st.claims;
      }
      assert st'.claims[..st.nx] == st.claims[..st.nx];
    }
  }

  lemma ExchangeKeepsClaims(st: State, i: nat, w: nat)
    requires Inv(st) && i < |st.producers| && st.producers[i].Claimed? && w < |st.claims| && st.claims[w] == i
    ensures st.producers[i].w == w && Claims(Next(st, Exchange(i)).0)
  {
    var st' := Next(st, Exchange(i)).0;
    assert Position(st, w);
    forall k: nat | k < |st'.finished|
      ensures Position(st', k)
    {
      assert Position(st, k);
    }
  }

  lemma ExchangeKeepsInv(st: State, i: nat)
    requires Inv(st)
    ensures StepOk(st, Next(st, Exchange(i)))
  {
    if i < |st.producers| && st.producers[i].Claimed? {
      var st' := Next(st, Exchange(i)).0;
      assert i in st.claims;
      var w :| 0 <= w < |st.claims| && st.claims[w] == i;
      assert w < |st.finished|;
      ExchangeKeepsClaims(st, i, w);
      assert st'.finished == st.finished[w := i + 2];
      assert Handover(st');
    }
  }

  lemma FireKeepsInv(st: State, i: nat)
    requires Inv(st)
    ensures StepOk(st, Next(st, Fire(i)))
  {
    if i < |st.producers| && st.producers[i] == Firing {
      var st' := Next(st, Fire(i)).0;
      assert Position(st, st.nx);
      forall k: nat | k < |st'.finished|
        ensures Position(st', k)
      {
        assert Position(st, k);
      }
      assert Claims(st');
    }
  }

  lemma ConsumerKeepsClaims(st: State, l: Label)
    requires Inv(st) && !StaleUse(st, l)
    requires l.CheckReady? || l.StoreHandle? || l.CompareExchange? || l.AwaitResume? || l.Destroy?
    ensures Claims(Next(st, l).0)
  {
    var st' := Next(st, l).0;
    forall k: nat | k < |st'.finished|
      ensures Position(st', k)
    {
      assert Position(st, k);
    }
  }

  lemma CompareExchangeKeepsInv(st: State)
    requires Inv(st)
    ensures StepOk(st, Next(st, CompareExchange))
  {
    ConsumerKeepsClaims(st, CompareExchange);
    if st.nx < |st.finished| {
      assert Position(st, st.nx);
    }
  }

  lemma AwaitResumeKeepsInv(st: State)
    requires Inv(st)
    ensures StepOk(st, Next(st, AwaitResume))
  {
    ConsumerKeepsClaims(st, AwaitResume);
    if st.nx < |st.finished| {
      assert Position(st, st.nx);
    }
  }

  lemma BeforeSuspensionKeepsInv(st: State, l: Label)
    requires Inv(st) && (l.CheckReady? || l.StoreHandle?) && !StaleUse(st, l)
    ensures StepOk(st, Next(st, l))
  {
    ConsumerKeepsClaims(st, l);
  }

  /** When everything has been returned, every producer is done with the object. */
  lemma AllDone(st: State)
    requires Inv(st) && Destructible(st)
    ensures forall i: nat :: i < |st.producers| ==> st.producers[i] == Done
  {
    Pigeonhole(st.claims, |st.producers|);
    forall i: nat | i < |st.producers|
      ensures st.producers[i] == Done
    {
      assert i in st.claims;
      var k :| 0 <= k < |st.claims| && st.claims[k] == i;
      assert Position(st, k);
      assert k < st.nx && st.finished[k] >= 2;
    }
  }

  lemma DestroyKeepsInv(st: State)
    requires Inv(st) && !StaleUse(st, Destroy)
    ensures StepOk(st, Next(st, Destroy))
  {
    ConsumerKeepsClaims(st, Destroy);
    if Destructible(st) {
      AllDone(st);
    }
  }

  lemma StepKeepsInv(st: State, l: Label)
    requires Inv(st) && !StaleUse(st, l)
    ensures StepOk(st, Next(st, l))
  {
    match l
    case Add => AddKeepsInv(st);
    case Complete(i) => CompleteKeepsInv(st, i);
    case Exchange(i) => ExchangeKeepsInv(st, i);
    case Fire(i) => FireKeepsInv(st, i);
    case CompareExchange => CompareExchangeKeepsInv(st);
    case AwaitResume => AwaitResumeKeepsInv(st);
    case Destroy => DestroyKeepsInv(st);
    case _ => BeforeSuspensionKeepsInv(st, l);
  }

  // ---------- Whole runs ----------

  function Awaited(es: seq<Event>): seq<Handle> {
    if es == [] then [] else AwaitOf(es[0]) + Awaited(es[1..])
  }

  function Resumed(es: seq<Event>): seq<Handle> {
    if es == [] then [] else ResumptionOf(es[0]) + Resumed(es[1..])
  }

  /** Every step of the run is as a caller may expect. */
  ghost predicate Orderly(st: State, ls: seq<Label>)
    requires |st.finished| == |st.producers|
    decreases |ls|
  {
    ls != [] ==> Proper(st, Next(st, ls[0]).1) && Orderly(Next(st, ls[0]).0, ls[1..])
  }

  /** No step of the run comes upon a handle that a failed compare-exchange left behind. */
  ghost predicate NothingStale(st: State, ls: seq<Label>)
    requires |st.finished| == |st.producers|
    decreases |ls|
  {
    ls != [] ==> !StaleUse(st, ls[0]) && NothingStale(Next(st, ls[0]).0, ls[1..])
  }

  lemma {:induction false} RunsFrom(st: State, ls: seq<Label>)
    requires Inv(st) && NothingStale(st, ls)
    ensures var (st', es) := Exec(st, ls);
            Inv(st') && Fault !in es && Orderly(st, ls) && Asleep(st) + Awaited(es) == Resumed(es) + Asleep(st')
    decreases |ls|
  {
    if ls != [] {
      var (st1, e) := Next(st, ls[0]);
      StepKeepsInv(st, ls[0]);
      RunsFrom(st1, ls[1..]);
      var (st', es) := Exec(st1, ls[1..]);
      assert ([e] + es)[1..] == es;
      Balance(Asleep(st), AwaitOf(e), Awaited(es), ResumptionOf(e), Resumed(es), Asleep(st1), Asleep(st'));
    }
  }

  lemma InitHolds(n: nat)
    ensures Inv(Init(n)) && !Init(n).failed && Asleep(Init(n)) == []
  {
    forall k: nat | k < |Init(n).finished|
      ensures Position(Init(n), k)
    {}
  }

  lemma Reachable(n: nat, ls: seq<Label>)
    requires NothingStale(Init(n), ls)
    ensures var (st, es) := Exec(Init(n), ls);
            && Inv(st) && |st.producers| == n && Fault !in es && Orderly(Init(n), ls)
            && Awaited(es) == Resumed(es) + Asleep(st)
  {
    InitHolds(n);
    RunsFrom(Init(n), ls);
    assert [] + Awaited(Exec(Init(n), ls).1) == Awaited(Exec(Init(n), ls).1);
  }

  lemma StaleIsImproper(st: State, l: Label)
    requires Inv(st) && StaleUse(st, l)
    ensures st.r.Some? && Next(st, l).1 == Spurious(st.r.value) && !Proper(st, Next(st, l).1)
  {}

  lemma {:induction false} OrderlyFrom(st: State, ls: seq<Label>)
    requires Inv(st)
    ensures Orderly(st, ls) <==> NothingStale(st, ls)
    decreases |ls|
  {
    if ls != [] {
      if StaleUse(st, ls[0]) {
        StaleIsImproper(st, ls[0]);
      } else {
        StepKeepsInv(st, ls[0]);
        OrderlyFrom(Next(st, ls[0]).0, ls[1..]);
      }
    }
  }

  /** The exact condition. In every interleaving each step is proper (nothing invalid happens, and
      nobody is resumed who is not suspended on the object) if and only if no handle is stored, and the
      object is not destroyed, after a compare-exchange of await_suspend that failed. */
  lemma OrderlyExactly(n: nat, ls: seq<Label>)
    ensures Orderly(Init(n), ls) <==> NothingStale(Init(n), ls)
  {
    InitHolds(n);
    OrderlyFrom(Init(n), ls);
  }

  /** What await_resume returns is the order in which the producers claimed positions: distinct
      indices below `n`, and all of them once `n` have been returned. */
  lemma ReturnsAreAPermutation(n: nat, ls: seq<Label>)
    requires NothingStale(Init(n), ls)
    ensures var (st, es) := Exec(Init(n), ls);
            && Fault !in es && |st.claims| <= n && st.returned <= st.claims && |st.returned| == st.nx
            && Distinct(st.returned) && (forall k :: 0 <= k < |st.returned| ==> st.returned[k] < n)
            && (st.nx == n ==> forall i: nat :: i < n ==> i in st.returned)
  {
    Reachable(n, ls);
    var st := Exec(Init(n), ls).0;
    Pigeonhole(st.returned, n);
  }

  /** Each suspended await is ended by exactly one resumption, in order, which the producer makes that
      claimed the very position it awaits; and there are no other resumptions. */
  lemma EachAwaitIsWokenOnce(n: nat, ls: seq<Label>, l: Label)
    requires NothingStale(Init(n), ls) && !StaleUse(Exec(Init(n), ls).0, l)
    ensures var (st, es) := Exec(Init(n), ls); var e := Next(st, l).1;
            && Awaited(es) == Resumed(es) + Asleep(st)
            && (ResumptionOf(e) != [] ==>
                  && st.consumer.Suspended? && st.nx < |st.claims|
                  && e == Woken(st.consumer.h, st.claims[st.nx]))
  {
    Reachable(n, ls);
    StepKeepsInv(Exec(Init(n), ls).0, l);
  }

  /** No wake-up is lost: the producer that claimed a position is not done while somebody is suspended
      on it, and once every producer is done nobody is left suspended. */
  lemma NoLostWakeup(n: nat, ls: seq<Label>)
    requires NothingStale(Init(n), ls)
    ensures var st := Exec(Init(n), ls).0;
            && (forall k: nat :: k < |st.claims| ==> st.claims[k] < n)
            && (st.consumer.Suspended? && st.nx < |st.claims| ==> st.producers[st.claims[st.nx]] != Done)
            && ((forall i :: 0 <= i < n ==> st.producers[i] == Done) ==> !st.consumer.Suspended? && |st.claims| == n)
  {
    Reachable(n, ls);
    var st := Exec(Init(n), ls).0;
    if st.nx < |st.claims| {
      assert Position(st, st.nx);
    }
    if forall i :: 0 <= i < n ==> st.producers[i] == Done {
      forall i: nat | i < n
        ensures i in st.claims
      {
        assert st.producers[i] == Done;
      }
      Covering(st.claims, n);
      if st.nx < n {
        assert Position(st, st.nx);
      }
    }
  }

  // ---------- What each operation does, in the states of orderly runs (Reachable) ----------

  /** add registers the next awaitable, and its completion claims the next position. */
  lemma CompletionClaims(st: State, i: nat)
    requires Inv(st) && i < |st.producers|
    ensures st.added < |st.producers| ==>
              Next(st, Add).0 == st.(producers := st.producers[st.added := Pending], added := st.added + 1)
    ensures st.producers[i] == Pending ==>
              Next(st, Complete(i)).0 == st.(claims := st.claims + [i], freeSlot := |st.claims| + 1,
                                             producers := st.producers[i := Claimed(|st.claims|)])
  {
    if st.added < |st.producers| {
      assert st.producers[st.added] == NotAdded;
    }
  }

  /** Then it writes its index at the position it claimed, and goes on to wake the consumer if and only if
      that is suspended on this very position. */
  lemma CompletionWrites(st: State, i: nat)
    requires Inv(st) && i < |st.producers| && st.producers[i].Claimed?
    ensures var w := st.producers[i].w;
            && w < |st.claims| && st.claims[w] == i && st.finished[w] < 2
            && Next(st, Exchange(i)).0 ==
                 st.(finished := st.finished[w := i + 2],
                     producers := st.producers[i := if st.consumer.Suspended? && w == st.nx then Firing else Done])
  {
    assert i in st.claims;
    var w :| 0 <= w < |st.claims| && st.claims[w] == i;
    ExchangeKeepsClaims(st, i, w);
    assert Position(st, w);
  }

  lemma CompletionWakes(st: State, i: nat)
    requires Inv(st) && i < |st.producers| && st.producers[i] == Firing
    ensures var (st', e) := Next(st, Fire(i));
            && st.consumer.Suspended? && e == Woken(st.consumer.h, i)
            && st' == st.(producers := st.producers[i := Done], r := None, consumer := Resuming)
  {}

  /** await_ready is true exactly when the next position is complete or there is none. */
  lemma ReadyIfComplete(st: State)
    requires Inv(st) && st.consumer.Idle? && st.added == |st.producers|
    ensures Next(st, CheckReady).0 ==
              st.(consumer := if st.nx >= |st.producers| || st.finished[st.nx] >= 2 then Resuming else Checked)
  {}

  /** If it is not, storing the handle and the compare-exchange suspend the coroutine exactly if the
      position still is not complete. */
  lemma SuspendsIfIncomplete(st: State, h: Handle)
    requires Inv(st)
    ensures st.consumer.Checked? && !st.failed ==>
              Next(st, StoreHandle(h)) == (st.(consumer := Stored(h), r := Some(h)), Tau)
    ensures st.consumer.Stored? ==>
              st.nx < |st.finished| && Next(st, CompareExchange) ==
                if st.finished[st.nx] >= 2 then (st.(consumer := Resuming, failed := true), Tau)
                else (st.(finished := st.finished[st.nx := 1], consumer := Suspended(st.consumer.h)),
                      Awaits(st.consumer.h))
  {}

  /** await_resume returns the producer that claimed the next position, and advances; when all have been
      returned it changes nothing. */
  lemma ResumesWithTheClaimant(st: State)
    requires Inv(st) && st.consumer.Resuming?
    ensures if st.nx >= |st.producers| then Next(st, AwaitResume) == (st.(consumer := Idle), Exhausted)
            else st.nx < |st.claims| && Next(st, AwaitResume) ==
                   (st.(consumer := Idle, nx := st.nx + 1, returned := st.returned + [st.claims[st.nx]]),
                    Returned(st.claims[st.nx]))
  {
    if st.nx < |st.producers| {
      assert Position(st, st.nx);
    }
  }

  /** The destructor resumes what a failed compare-exchange left, and nobody otherwise. */
  lemma DestroysWhatIsLeft(st: State)
    requires Inv(st) && Destructible(st)
    ensures Next(st, Destroy).0 == st.(consumer := Gone, r := None)
    ensures if st.failed then st.r.Some? && Next(st, Destroy).1 == Spurious(st.r.value) else Next(st, Destroy).1 == Tau
  {}

  // ---------- The stale handle ----------

  /** The compare-exchange of await_suspend fails: the position was completed after await_ready. */
  predicate Loses(st: State, l: Label)
    requires |st.finished| == |st.producers|
  {
    l.CompareExchange? && st.consumer.Stored? && st.nx < |st.finished| && st.finished[st.nx] != 0
  }

  ghost predicate NeverLoses(st: State, ls: seq<Label>)
    requires |st.finished| == |st.producers|
    decreases |ls|
  {
    ls != [] ==> !Loses(st, ls[0]) && NeverLoses(Next(st, ls[0]).0, ls[1..])
  }

  lemma {:induction false} FailedFrom(st: State, ls: seq<Label>)
    requires Inv(st) && NothingStale(st, ls)
    ensures Exec(st, ls).0.failed <==> st.failed || !NeverLoses(st, ls)
    decreases |ls|
  {
    if ls != [] {
      StepKeepsInv(st, ls[0]);
      FailedStep(st, ls[0]);
      FailedFrom(Next(st, ls[0]).0, ls[1..]);
    }
  }

  lemma FailedStep(st: State, l: Label)
    requires Inv(st) && !StaleUse(st, l)
    ensures Next(st, l).0.failed <==> st.failed || Loses(st, l)
  {}

  lemma {:induction false} NeverLosesIsSound(st: State, ls: seq<Label>)
    requires Inv(st) && !st.failed && NeverLoses(st, ls)
    ensures NothingStale(st, ls) && !Exec(st, ls).0.failed
    decreases |ls|
  {
    if ls != [] {
      StepKeepsInv(st, ls[0]);
      FailedStep(st, ls[0]);
      NeverLosesIsSound(Next(st, ls[0]).0, ls[1..]);
    }
  }

  lemma {:induction false} Appended(st: State, ls: seq<Label>, l: Label)
    requires |st.finished| == |st.producers|
    ensures NothingStale(st, ls + [l]) <==> NothingStale(st, ls) && !StaleUse(Exec(st, ls).0, l)
    decreases |ls|
  {
    if ls == [] {
      assert ([] + [l])[0] == l && ([] + [l])[1..] == [];
    } else {
      assert (ls + [l])[0] == ls[0] && (ls + [l])[1..] == ls[1..] + [l];
      Appended(Next(st, ls[0]).0, ls[1..], l);
    }
  }

  /** The whole life of an object, its destruction included, is orderly if and only if no
      compare-exchange of await_suspend ever fails: one that does leaves a handle behind that somebody
      resumes in the end. */
  lemma WholeLifeExactly(n: nat, ls: seq<Label>)
    requires Destructible(Exec(Init(n), ls).0)
    ensures Orderly(Init(n), ls + [Destroy]) <==> NeverLoses(Init(n), ls)
  {
    InitHolds(n);
    OrderlyExactly(n, ls + [Destroy]);
    Appended(Init(n), ls, Destroy);
    if NothingStale(Init(n), ls) {
      FailedFrom(Init(n), ls);
    } else if NeverLoses(Init(n), ls) {
      NeverLosesIsSound(Init(n), ls);
    }
  }

  /** The completion of the very position that is being awaited, between await_ready and the
      compare-exchange. */
  predicate Overtakes(st: State, l: Label) {
    && l.Exchange? && l.i < |st.producers| && st.producers[l.i] == Claimed(st.nx)
    && (st.consumer.Checked? || st.consumer.Stored?)
  }

  ghost predicate NeverOvertaken(st: State, ls: seq<Label>)
    requires |st.finished| == |st.producers|
    decreases |ls|
  {
    ls != [] ==> !Overtakes(st, ls[0]) && NeverOvertaken(Next(st, ls[0]).0, ls[1..])
  }

  /** Whether an await under way has been overtaken. */
  predicate Overtaken(st: State)
    requires |st.finished| == |st.producers|
  {
    (st.consumer.Checked? || st.consumer.Stored?) && st.nx < |st.finished| && st.finished[st.nx] != 0
  }

  /** Only its completion overtakes an await, and then the compare-exchange fails. */
  lemma OvertakenStep(st: State, l: Label)
    requires Inv(st) && !StaleUse(st, l)
    ensures Overtaken(Next(st, l).0) <==> (Overtaken(st) && !Loses(st, l)) || Overtakes(st, l)
    ensures Loses(st, l) ==> Overtaken(st)
  {
    if l.Exchange? && l.i < |st.producers| && st.producers[l.i].Claimed? {
      assert l.i in st.claims;
      var w :| 0 <= w < |st.claims| && st.claims[w] == l.i;
      ExchangeKeepsClaims(st, l.i, w);
    }
    if st.nx < |st.finished| {
      assert Position(st, st.nx);
    }
  }

  /** Without overtaking no compare-exchange fails; one that was overtaken fails, or is still to come. */
  lemma {:induction false} OvertakenFrom(st: State, ls: seq<Label>)
    requires Inv(st) && !st.failed
    ensures !Overtaken(st) && NeverOvertaken(st, ls) ==> NeverLoses(st, ls) && !Overtaken(Exec(st, ls).0)
    ensures Overtaken(st) || !NeverOvertaken(st, ls) ==> !NeverLoses(st, ls) || Overtaken(Exec(st, ls).0)
    decreases |ls|
  {
    if ls != [] {
      StepKeepsInv(st, ls[0]);
      FailedStep(st, ls[0]);
      OvertakenStep(st, ls[0]);
      if !Loses(st, ls[0]) {
        OvertakenFrom(Next(st, ls[0]).0, ls[1..]);
      }
    }
  }

  /** A compare-exchange of await_suspend fails only if the very position it awaits was completed after the
      await_ready before it. So, from beginning to end, an object is orderly if and only if no completion
      ever falls between the await_ready and the compare-exchange of an await of its position. */
  lemma WholeLifeByOvertaking(n: nat, ls: seq<Label>)
    ensures NeverOvertaken(Init(n), ls) ==> NeverLoses(Init(n), ls)
    ensures Destructible(Exec(Init(n), ls).0) ==>
              (Orderly(Init(n), ls + [Destroy]) <==> NeverOvertaken(Init(n), ls))
  {
    InitHolds(n);
    OvertakenFrom(Init(n), ls);
    if Destructible(Exec(Init(n), ls).0) {
      WholeLifeExactly(n, ls);
    }
  }

  /** What a stale handle does when it is that of the awaiting coroutine itself and the position is not
      complete: the coroutine runs inside await_suspend and reads an index nobody wrote. */
  lemma StaleAwaitFaults(n: nat, ls: seq<Label>, h: Handle)
    requires NothingStale(Init(n), ls) && StaleUse(Exec(Init(n), ls).0, StoreHandle(h))
    ensures var st := Exec(Init(n), ls).0; var (st1, e) := Next(st, StoreHandle(h));
            && st.r.Some? && e == Spurious(st.r.value) && Asleep(st) == [] && st.nx < |st.finished|
            && (st.r.value == h ==> (Next(st1, AwaitResume).1 == Fault <==> st.finished[st.nx] < 2))
  {
    Reachable(n, ls);
  }

  /** If the position has been completed meanwhile, the coroutine gets its index, and when it is suspended
      again the interrupted await_suspend goes on with the position after it: it marks that as awaited,
      though nobody is suspended on it, or fails and resumes the coroutine where it is not. */
  lemma InterruptedAwaitGoesOn(n: nat, ls: seq<Label>, h: Handle)
    requires NothingStale(Init(n), ls) && StaleUse(Exec(Init(n), ls).0, StoreHandle(h))
    ensures var st := Exec(Init(n), ls).0; var st1 := Next(st, StoreHandle(h)).0;
            st.r == Some(h) && st.nx < |st.finished| && st.finished[st.nx] >= 2 ==>
              var (st2, e) := Next(st1, AwaitResume); var (st3, f) := Next(st2, CompareExchange);
              && e == Returned(st.finished[st.nx] - 2) && st2.nx == st.nx + 1 && st2.consumer == Idle
              && (if st2.nx >= n || st.finished[st2.nx] != 0 then f == Fault
                  else f == Tau && st3.finished == st.finished[st2.nx := 1] && Asleep(st3) == [])
  {
    Reachable(n, ls);
  }

  const RACE: seq<Label> := [Add, Add, CheckReady, StoreHandle(7), Complete(0), Exchange(0), CompareExchange,
                             AwaitResume, CheckReady]

  /** It does happen: two awaitables, the first of which completes between await_ready and the
      compare-exchange. The second await resumes the coroutine 7 inside its await_suspend, which goes on
      to return an index that is none. */
  lemma SpuriousHappens() returns (n: nat, ls: seq<Label>)
    ensures n == 2 && ls == RACE
    ensures var (st, e) := Next(Exec(Init(n), ls).0, StoreHandle(7));
            e == Spurious(7) && Next(st, AwaitResume).1 == Fault
  {
    var i: nat :| i == 0;
    n, ls := 2, RACE[i..];
    assert Init(n) == RaceState(i);
    RaceFrom(i);
  }

  lemma {:induction false} RaceFrom(i: nat)
    requires i <= 9
    ensures Exec(RaceState(i), RACE[i..]).0 == RaceState(9)
    decreases 9 - i
  {
    if i < 9 {
      RaceStep(i);
      assert RACE[i..][1..] == RACE[i + 1..];
      RaceFrom(i + 1);
    }
  }

  lemma RaceStep(i: nat)
    requires i < 9
    ensures Next(RaceState(i), RACE[i]).0 == RaceState(i + 1)
  {}

  /** The states of that run. */
  function RaceState(i: nat): (st: State)
    ensures |st.finished| == |st.producers|
  {
    var ps := if i == 0 then [NotAdded, NotAdded] else if i == 1 then [Pending, NotAdded]
              else if i < 5 then [Pending, Pending] else if i == 5 then [Claimed(0), Pending] else [Done, Pending];
    var c := if i < 3 then Idle else if i == 3 then Checked else if i < 7 then Stored(7)
             else if i == 7 then Resuming else if i == 8 then Idle else Checked;
    State(ps, if i < 6 then [0, 0] else [2, 0], if i < 5 then 0 else 1, if i < 2 then i else 2,
          if i < 8 then 0 else 1, if i < 4 then None else Some(7), 0, c,
          if i < 8 then [] else [0], if i < 5 then [] else [0], i >= 7)
  }

  const LAST: seq<Label> := [Add, CheckReady, StoreHandle(7), Complete(0), Exchange(0), CompareExchange, AwaitResume]

  /** ... and it happens without another await: with one awaitable, the destructor resumes the coroutine
      7, which has had its result. */
  lemma DestructionResumes() returns (n: nat, ls: seq<Label>)
    ensures n == 1 && ls == LAST
    ensures var st := Exec(Init(n), ls).0; Destructible(st) && Next(st, Destroy).1 == Spurious(7)
  {
    var i: nat :| i == 0;
    n, ls := 1, LAST[i..];
    assert Init(n) == LastState(i);
    LastFrom(i);
  }

  lemma {:induction false} LastFrom(i: nat)
    requires i <= 7
    ensures Exec(LastState(i), LAST[i..]).0 == LastState(7)
    decreases 7 - i
  {
    if i < 7 {
      LastStep(i);
      assert LAST[i..][1..] == LAST[i + 1..];
      LastFrom(i + 1);
    }
  }

  lemma LastStep(i: nat)
    requires i < 7
    ensures Next(LastState(i), LAST[i]).0 == LastState(i + 1)
  {}

  function LastState(i: nat): (st: State)
    ensures |st.finished| == |st.producers|
  {
    var p := if i == 0 then NotAdded else if i < 4 then Pending else if i == 4 then Claimed(0) else Done;
    var c := if i < 2 then Idle else if i == 2 then Checked else if i < 6 then Stored(7)
             else if i == 6 then Resuming else Idle;
    State([p], if i < 5 then [0] else [2], if i < 4 then 0 else 1, if i == 0 then 0 else 1,
          if i < 7 then 0 else 1, if i < 3 then None else Some(7), 0, c,
          if i < 7 then [] else [0], if i < 4 then [] else [0], i >= 6)
  }

  // ---------- The class ----------

  /** The three steps of a completion that nobody interrupts. */
  function Completion(st: State, i: nat): (State, Event)
    requires |st.finished| == |st.producers|
  {
    Next(Next(Next(st, Complete(i)).0, Exchange(i)).0, Fire(i))
  }

  lemma CompletionKeepsInv(st: State, i: nat)
    requires Inv(st) && i < |st.producers| && st.producers[i] == Pending
    ensures Inv(Completion(st, i).0) && st.freeSlot < |st.finished|
    ensures st.finished[st.freeSlot] == 1 ==> st.r.Some?
  {
    CompleteKeepsInv(st, i);
    var st1 := Next(st, Complete(i)).0;
    ExchangeKeepsInv(st1, i);
    FireKeepsInv(Next(st1, Exchange(i)).0, i);
  }

  lemma CompletionFields(st: State, i: nat)
    requires |st.finished| == |st.producers| && i < |st.producers| && st.producers[i] == Pending
    requires st.consumer != Gone && st.freeSlot < |st.finished| && (st.finished[st.freeSlot] == 1 ==> st.r.Some?)
    ensures var (st', e) := Completion(st, i);
            && st'.finished == st.finished[st.freeSlot := i + 2]
            && st'.freeSlot == st.freeSlot + 1 && st'.nx == st.nx
            && (if st.finished[st.freeSlot] == 1 then st'.r == None && e == Woken(st.r.value, i)
                else st'.r == st.r && e == Tau)
  {}

  /** when_each over its real fields; `view` is the state of the transition system they stand for. */
  class WhenEach {
    const finished: array<nat>
    var freeSlot: nat
    var nx: nat
    var r: Option<Handle>
    ghost var view: State

    ghost predicate Valid()
      reads this, finished
    {
      Inv(view) && Agrees()
    }

    /** The real fields are those of `view`. */
    ghost predicate Agrees()
      reads this, finished
    {
      view.finished == finished[..] && view.freeSlot == freeSlot && view.nx == nx && view.r == r
    }

    constructor (n: nat)
      ensures Valid() && fresh(finished) && view == Init(n)
    {
      finished := new nat[n](i => 0);
      freeSlot, nx, r := 0, 0, None;
      view := Init(n);
      new;
      InitHolds(n);
      assert finished[..] == seq(n, i => 0);
    }

    /** resumed: the completion of awaitable `i` claims a position, writes its index there, and wakes
        whoever awaits that position. */
    method Resumed(i: nat) returns (woken: Option<Handle>)
      requires Valid() && i < finished.Length && view.producers[i] == Pending
      modifies this, finished
      ensures Valid()
      ensures view == Completion(old(view), i).0
      ensures var e := Completion(old(view), i).1; woken == if e.Woken? then Some(e.h) else None
      ensures old(freeSlot) < finished.Length && freeSlot == old(freeSlot) + 1 && nx == old(nx)
      ensures finished[..] == old(finished[..])[old(freeSlot) := i + 2]
      ensures woken == if old(view).consumer.Suspended? && old(nx) == old(freeSlot) then old(r) else None
    {
      CompletionKeepsInv(view, i);
      CompletionFields(view, i);
      var wridx := freeSlot;
      freeSlot := freeSlot + 1;
      var st := finished[wridx];
      finished[wridx] := i + 2;
      woken := None;
      if st == 1 {
        woken := r;
        r := None;
      }
      view := Completion(view, i).0;
    }

    method AwaitReady() returns (b: bool)
      requires Valid() && view.consumer == Idle && view.added == finished.Length
      modifies `view
      ensures Valid() && view == Next(old(view), CheckReady).0 && b == (view.consumer == Resuming)
      ensures b <==> old(nx) >= finished.Length || finished[old(nx)] >= 2
    {
      StepKeepsInv(view, CheckReady);
      b := nx >= finished.Length || finished[nx] != 0;
      view := Next(view, CheckReady).0;
    }

    /** Assigning `_r`, which resumes what it held. */
    method StoreHandle(h: Handle) returns (stale: Option<Handle>)
      requires Valid() && view.consumer == Checked
      modifies `r, `view
      ensures Agrees() && view == Next(old(view), Label.StoreHandle(h)).0
      ensures stale == old(r) && (stale.Some? <==> old(view).failed)
      ensures stale.None? ==> Valid() && view.consumer == Stored(h)
    {
      if !view.failed {
        StepKeepsInv(view, Label.StoreHandle(h));
      }
      stale := r;
      r := Some(h);
      view := Next(view, Label.StoreHandle(h)).0;
    }

    /** await_suspend. With a handle left in `_r` it gets as far as resuming that one: the
        compare-exchange is still to come when the coroutine `stale` runs. */
    method AwaitSuspend(h: Handle) returns (suspended: bool, stale: Option<Handle>)
      requires Valid() && view.consumer == Checked
      modifies this, finished
      ensures stale == old(r) && (stale.Some? <==> old(view).failed)
      ensures stale.Some? ==> Agrees() && !suspended && view == Next(old(view), Label.StoreHandle(h)).0
      ensures stale.None? ==>
                && Valid() && view == Next(Next(old(view), Label.StoreHandle(h)).0, CompareExchange).0
                && suspended == (view.consumer == Suspended(h)) && (suspended || view.failed)
                && nx < finished.Length && (suspended <==> old(finished[..])[nx] == 0) && r == Some(h)
                && finished[..] == if suspended then old(finished[..])[nx := 1] else old(finished[..])
    {
      suspended := false;
      stale := StoreHandle(h);
      if stale == None {
        StepKeepsInv(view, CompareExchange);
        suspended := finished[nx] == 0;
        if suspended {
          finished[nx] := 1;
        }
        view := Next(view, CompareExchange).0;
      }
    }

    /** The destructor after its waits: `_r` is destroyed, which resumes what it holds. */
    method Destroy() returns (stale: Option<Handle>)
      requires Valid() && Destructible(view)
      modifies `r, `view
      ensures Agrees() && view == Next(old(view), Label.Destroy).0
      ensures stale == old(r) && (stale.Some? <==> old(view).failed)
    {
      stale := r;
      r := None;
      view := Next(view, Label.Destroy).0;
    }

    method AwaitResume() returns (i: nat)
      requires Valid() && view.consumer == Resuming
      modifies `nx, `view
      ensures Valid() && view == Next(old(view), Label.AwaitResume).0
      ensures i == if old(nx) >= finished.Length then old(nx) else view.returned[|view.returned| - 1]
      ensures old(nx) >= finished.Length ==> nx == old(nx)
      ensures old(nx) < finished.Length ==> nx == old(nx) + 1 && i < finished.Length && finished[old(nx)] == i + 2
    {
      StepKeepsInv(view, Label.AwaitResume);
      if nx >= finished.Length {
        i := nx;
      } else {
        i := finished[nx] - 2;
        nx := nx + 1;
      }
      view := Next(view, Label.AwaitResume).0;
    }
  }
}
