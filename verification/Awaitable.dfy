/** awaitable, awaitable_result and prepared operations (coroutine.h:459-505, 610-1147, 1150-1330,
    1552-1572) as one ownership state machine over any number of awaitables.

    The union of an awaitable is modelled by the member that is alive in it, so that reading or
    destroying another one, calling a null callback, starting an operation twice or resolving twice
    shows up as the event `Fault`. Prepared operations, handles and addresses are opaque numbers; an
    exception is a tag. */
module AwaitableModel {
  import opened Options
  import opened Sequences

  type Id = nat          // the address of an awaitable
  type OpId = nat        // a prepared operation: a coroutine frame or a closure
  type Handle = nat

  datatype Tag = NoValue | Value | Exception | Coro | Callback | CallbackPtr

  /** The member that is alive in the union. */
  datatype Store =
    | Nothing
    | Val(x: nat)
    | Exc
    | Co(frame: Option<OpId>)              // a coroutine object, null once started or moved from
    | Closure(op: OpId, started: bool)     // the callback in `_callback_space`
    | Ptr(boxed: Option<OpId>)             // `_callback_ptr`, null once moved from
    | Temp                                 // the space handed out by get_temp_state

  /** Who can still resolve the awaitable. */
  datatype Token = Free | InResult | InPromise

  datatype Awaitable = Awaitable(tag: Tag, owner: Option<Handle>, store: Store, token: Token)

  datatype State = State(objs: map<Id, Awaitable>, known: set<OpId>, started: set<OpId>)

  const INIT := State(map[], {}, {})

  datatype Kind = WithValue(x: nat) | WithException | WithNothing

  datatype Label =
    | NewResolved(a: Id, k: Kind)
    | NewCoroutine(a: Id, frame: Option<OpId>)
    | NewCallback(a: Id, op: OpId, local: bool)
    | Move(a: Id, b: Id)                  // b is constructed from a
    | Suspend(a: Id, h: Handle)           // await_suspend
    | SetCallback(a: Id, b: Id, h: Handle)  // b and h: the awaitable and the frame of the awaiting_callback
    | CreateResult(a: Id, h: Handle)
    | GetTempState(a: Id)
    | Resolve(a: Id, k: Kind)             // by the result object: assignment, call, drop or destruction
    | PromiseSet(a: Id, k: Kind)          // return_value, return_void or unhandled_exception
    | PromiseEnds(a: Id)                  // the coroutine frame is destroyed, returned or not
    | Cancel(a: Id)
    | Destroy(a: Id)

  datatype Event =
    | Stored(a: Id, h: Handle)       // `_owner` is set
    | HandedOut(a: Id, h: Handle)    // an effective wakeup
    | Started(op: OpId)
    | InvalidState                   // the call throws invalid_state
    | Terminates                     // the destructor throws it, and is noexcept: the program ends here
    | Fault

  // ---------- One awaitable ----------

  predicate Ready(o: Awaitable) {
    o.tag == NoValue || o.tag == Value || o.tag == Exception
  }

  /** The member that the tag names is the one that is alive. */
  predicate TagFits(o: Awaitable) {
    match o.tag
    case NoValue => o.store == Nothing || o.store == Temp
    case Value => o.store.Val?
    case Exception => o.store == Exc
    case Coro => o.store.Co?
    case Callback => o.store.Closure?
    case CallbackPtr => o.store.Ptr?
  }

  /** destroy_state: destroys the member the tag names. `None` when that one is not alive. */
  function DestroyState(o: Awaitable): Option<Awaitable> {
    if TagFits(o) then Some(o.(store := Nothing)) else None
  }

  /** set_value, set_exception or drop. */
  function Settle(o: Awaitable, k: Kind): Option<Awaitable> {
    match DestroyState(o)
    case None => None
    case Some(d) =>
      match k
      case WithValue(x) => Some(d.(tag := Value, store := Val(x)))
      case WithException => Some(d.(tag := Exception, store := Exc))
      case WithNothing => Some(d.(tag := NoValue))
  }

  /** wakeup: drops what is not resolved and gives the handle away, if there still is one. */
  function Wakeup(a: Id, o: Awaitable): (Option<Awaitable>, seq<Event>) {
    var w := if Ready(o) then Some(o) else Settle(o, WithNothing);
    (if w.Some? then Some(w.value.(owner := None)) else None,
     if w.Some? && o.owner.Some? then [HandedOut(a, o.owner.value)] else [])
  }

  /** The operation that a prepared awaitable has not started yet. */
  function Prepared(o: Awaitable): Option<OpId> {
    match o.store
    case Co(frame) => frame
    case Closure(op, started) => if started then None else Some(op)
    case Ptr(boxed) => boxed
    case _ => None
  }

  /** An operation that was started from this object and is not resolved. */
  predicate UnderWay(o: Awaitable) {
    (o.store.Closure? && o.store.started) || o.store == Ptr(None)
  }

  // ---------- Steps ----------

  function Put(st: State, a: Id, o: Awaitable): State {
    st.(objs := st.objs[a := o])
  }

  function Broken(st: State): (State, seq<Event>) {
    (st, [Fault])
  }

  function Start(st: State, op: OpId): State {
    st.(started := st.started + {op})
  }

  function StartEvent(st: State, op: OpId): Event {
    if op in st.started then Fault else Started(op)
  }

  function New(st: State, a: Id, op: Option<OpId>, tag: Tag, store: Store): (State, seq<Event>) {
    if a in st.objs || (op.Some? && op.value in st.known) then (st, [])
    else
      var known := if op.Some? then st.known + {op.value} else st.known;
      (Put(st, a, Awaitable(tag, None, store, Free)).(known := known), [])
  }

  /** await_suspend (lines 809-821), on an awaitable that is not ready and that nobody awaits. */
  function SuspendStep(st: State, a: Id, o: Awaitable, h: Handle): (State, seq<Event>) {
    var owned := o.(owner := Some(h));
    match o.tag
    case Coro =>
      if !o.store.Co? then Broken(st)
      else if o.store.frame == None then
        // nothing takes the result object, and destroying it drops and wakes
        var (w, es) := Wakeup(a, owned);
        if w.Some? then (Put(st, a, w.value), [Stored(a, h)] + es) else Broken(st)
      else
        (Start(Put(st, a, owned.(store := Co(None), token := InPromise)), o.store.frame.value),
         [Stored(a, h), StartEvent(st, o.store.frame.value)])
    case Callback =>
      if !o.store.Closure? then Broken(st)
      else
        (Start(Put(st, a, owned.(store := Closure(o.store.op, true), token := InResult)), o.store.op),
         [Stored(a, h), if o.store.started then Fault else StartEvent(st, o.store.op)])
    case CallbackPtr =>
      if !o.store.Ptr? || o.store.boxed == None then Broken(st)
      else
        (Start(Put(st, a, owned.(store := Ptr(None), token := InResult)), o.store.boxed.value),
         [Stored(a, h), StartEvent(st, o.store.boxed.value)])
    case _ => (st, [])
  }

  /** set_callback_internal (lines 1552-1572), on an awaitable that is not ready and that nobody
      awaits: the operation gets a result on the new awaitable `b`, and `a` is cancelled. */
  function SetCallbackStep(st: State, a: Id, o: Awaitable, b: Id, h: Handle): (State, seq<Event>) {
    var cancelled := o.(tag := NoValue, store := Nothing);
    var waiter := Awaitable(NoValue, Some(h), Nothing, if o.tag == Coro then InPromise else InResult);
    if !TagFits(o) || (o.tag == CallbackPtr && o.store.boxed == None) then Broken(st)
    else if Prepared(o) == None && o.tag == Coro then
      // an empty coroutine leaves the result object to be destroyed
      (Put(Put(st, a, cancelled), b, waiter.(owner := None, token := Free)), [Stored(b, h), HandedOut(b, h)])
    else if Prepared(o) == None then Broken(st)
    else
      (Start(Put(Put(st, a, cancelled), b, waiter), Prepared(o).value),
       [Stored(b, h), StartEvent(st, Prepared(o).value)])
  }

  /** The move constructor (lines 723-734). The handle and the result stay with the old object. */
  function MoveStep(st: State, a: Id, o: Awaitable, b: Id): (State, seq<Event>) {
    if !TagFits(o) then Broken(st)
    else
      (Put(Put(st, a, o.(tag := NoValue, store := Nothing)), b,
           Awaitable(o.tag, None, if o.store == Temp then Nothing else o.store, Free)), [])
  }

  /** The destructor (lines 1058-1074): a prepared operation is started in detached mode. */
  function DestroyStep(st: State, a: Id, o: Awaitable): (State, seq<Event>) {
    if o.owner.Some? then (st, [Terminates])
    else if !TagFits(o) || o.store == Ptr(None) then Broken(st)
    else
      var gone := st.(objs := st.objs - {a});
      match o.store
      case Co(frame) => if frame.Some? then (Start(gone, frame.value), [StartEvent(st, frame.value)]) else (gone, [])
      case Closure(op, started) => (Start(gone, op), [if started then Fault else StartEvent(st, op)])
      case Ptr(boxed) => (Start(gone, boxed.value), [StartEvent(st, boxed.value)])
      case _ => (gone, [])
  }

  function ResolveStep(st: State, a: Id, o: Awaitable, k: Kind): (State, seq<Event>) {
    match Settle(o, k)
    case None => Broken(st)
    case Some(s) =>
      var (w, es) := Wakeup(a, s);
      if w.Some? then (Put(st, a, w.value.(token := Free)), es) else Broken(st)
  }

  /** The end of a coroutine frame: final_suspend wakes, and the destructor of the promise wakes
      again (lines 407-420). */
  function PromiseEndsStep(st: State, a: Id, o: Awaitable): (State, seq<Event>) {
    var (w1, es1) := Wakeup(a, o);
    if w1 == None then Broken(st)
    else
      var (w2, es2) := Wakeup(a, w1.value);
      if w2 == None then Broken(st) else (Put(st, a, w2.value.(token := Free)), es1 + es2)
  }

  /** What the label does to the awaitable it names, when that one exists. */
  function Act(st: State, l: Label, o: Awaitable): (State, seq<Event>) {
    match l
    case Move(a, b) => if b in st.objs then (st, []) else MoveStep(st, a, o, b)
    case Suspend(a, h) => if Ready(o) || o.owner.Some? then (st, []) else SuspendStep(st, a, o, h)
    case SetCallback(a, b, h) =>
      if Ready(o) || o.owner.Some? || b in st.objs then (st, []) else SetCallbackStep(st, a, o, b, h)
    case CreateResult(a, h) =>
      if o.owner.Some? then (st, [InvalidState])
      else (Put(st, a, o.(owner := Some(h), token := InResult)), [Stored(a, h)])
    case GetTempState(a) =>
      if o.token != InResult then (st, [])
      else
        var d := DestroyState(o);
        if d == None then Broken(st) else (Put(st, a, d.value.(tag := NoValue, store := Temp)), [])
    case Resolve(a, k) => if o.token != InResult then (st, []) else ResolveStep(st, a, o, k)
    case PromiseSet(a, k) =>
      if o.token != InPromise then (st, [])
      else
        var s := Settle(o, k);
        if s == None then Broken(st) else (Put(st, a, s.value), [])
    case PromiseEnds(a) => if o.token != InPromise then (st, []) else PromiseEndsStep(st, a, o)
    case Cancel(a) =>
      if o.owner.Some? then (st, [InvalidState])
      else
        var d := DestroyState(o);
        if d == None then Broken(st) else (Put(st, a, d.value.(tag := NoValue)), [])
    case Destroy(a) => DestroyStep(st, a, o)
    case _ => (st, [])
  }

  /** One operation. Nobody awaits or attaches a callback to an awaitable that is awaited already
      (lines 829, 906), and an address is constructed only when nothing lives there; such labels leave
      the state alone, so every sequence of labels is a run. */
  function Next(st: State, l: Label): (State, seq<Event>) {
    match l
    case NewResolved(a, k) =>
      (match k
       case WithValue(x) => New(st, a, None, Value, Val(x))
       case WithException => New(st, a, None, Exception, Exc)
       case WithNothing => New(st, a, None, NoValue, Nothing))
    case NewCoroutine(a, frame) => New(st, a, frame, Coro, Co(frame))
    case NewCallback(a, op, local) =>
      if local then New(st, a, Some(op), Callback, Closure(op, false))
      else New(st, a, Some(op), CallbackPtr, Ptr(Some(op)))
    case _ => if l.a in st.objs then Act(st, l, st.objs[l.a]) else (st, [])
  }

  function Exec(st: State, ls: seq<Label>): (State, seq<Event>)
    decreases |ls|
  {
    if ls == [] then (st, [])
    else
      var (st1, es) := Next(st, ls[0]);
      var (st2, rest) := Exec(st1, ls[1..]);
      (st2, es + rest)
  }

  // ---------- The invariant ----------

  /** The tag names the live member; the handle is stored exactly while someone can resolve; and an
      operation that is under way belongs to an awaitable that is awaited. */
  ghost predicate Sound(o: Awaitable) {
    && TagFits(o)
    && (o.owner.Some? <==> o.token != Free)
    && (o.store.Closure? && o.store.started ==> o.owner.Some?)
    && (o.store == Ptr(None) ==> o.owner.Some?)
  }

  ghost predicate Inv(st: State) {
    && st.started <= st.known
    && (forall a: Id :: a in st.objs ==> Sound(st.objs[a]))
    && (forall a: Id :: a in st.objs && Prepared(st.objs[a]).Some? ==>
          Prepared(st.objs[a]).value in st.known - st.started)
    && (forall a: Id, b: Id :: a in st.objs && b in st.objs && a != b && Prepared(st.objs[a]).Some? ==>
          Prepared(st.objs[a]) != Prepared(st.objs[b]))
  }

  function OwnerOf(st: State, a: Id): seq<Handle> {
    if a in st.objs && st.objs[a].owner.Some? then [st.objs[a].owner.value] else []
  }

  function StoredAt(es: seq<Event>, a: Id): seq<Handle> {
    if es == [] then []
    else StoreOf(es[0], a) + StoredAt(es[1..], a)
  }

  function HandedOutAt(es: seq<Event>, a: Id): seq<Handle> {
    if es == [] then []
    else HandOf(es[0], a) + HandedOutAt(es[1..], a)
  }

  function Starts(es: seq<Event>): seq<OpId> {
    if es == [] then [] else StartOf(es[0]) + Starts(es[1..])
  }

  /** What every step keeps, for every address: handles stored so far are the ones handed out, in
      order, and then the one still stored; and no operation is started again. */
  ghost predicate StepOk(st: State, step: (State, seq<Event>)) {
    var (st', es) := step;
    && Inv(st') && Fault !in es
    && (forall x: Id :: OwnerOf(st, x) + StoredAt(es, x) == HandedOutAt(es, x) + OwnerOf(st', x))
    && (if Starts(es) == [] then st'.started == st.started
        else exists op :: op !in st.started && Starts(es) == [op] && st'.started == st.started + {op})
  }

  function StoreOf(e: Event, x: Id): seq<Handle> {
    if e.Stored? && e.a == x then [e.h] else []
  }

  function HandOf(e: Event, x: Id): seq<Handle> {
    if e.HandedOut? && e.a == x then [e.h] else []
  }

  function StartOf(e: Event): seq<OpId> {
    if e.Started? then [e.op] else []
  }

  /** The short event lists of the steps, written out. */
  lemma OneEvent(e: Event)
    ensures Starts([e]) == StartOf(e)
    ensures forall x: Id :: StoredAt([e], x) == StoreOf(e, x) && HandedOutAt([e], x) == HandOf(e, x)
  {}

  lemma TwoEvents(e: Event, f: Event)
    ensures Starts([e, f]) == StartOf(e) + StartOf(f)
    ensures forall x: Id :: StoredAt([e, f], x) == StoreOf(e, x) + StoreOf(f, x)
                            && HandedOutAt([e, f], x) == HandOf(e, x) + HandOf(f, x)
  {
    assert [e, f][1..] == [f];
    OneEvent(f);
  }

  lemma ShortEvents(es: seq<Event>)
    requires |es| <= 2
    ensures |es| == 1 ==> Starts(es) == StartOf(es[0])
    ensures |es| == 1 ==> forall x: Id :: StoredAt(es, x) == StoreOf(es[0], x) && HandedOutAt(es, x) == HandOf(es[0], x)
    ensures |es| == 2 ==> Starts(es) == StartOf(es[0]) + StartOf(es[1])
    ensures |es| == 2 ==> forall x: Id :: StoredAt(es, x) == StoreOf(es[0], x) + StoreOf(es[1], x)
                                          && HandedOutAt(es, x) == HandOf(es[0], x) + HandOf(es[1], x)
  {
    if |es| == 1 {
      assert es == [es[0]];
      OneEvent(es[0]);
    } else if |es| == 2 {
      assert es == [es[0], es[1]];
      TwoEvents(es[0], es[1]);
    }
  }

  lemma NewOk(st: State, a: Id, op: Option<OpId>, tag: Tag, store: Store)
    requires Inv(st)
    requires var o := Awaitable(tag, None, store, Free); Sound(o) && Prepared(o) == op
    ensures StepOk(st, New(st, a, op, tag, store))
  {}

  lemma MoveOk(st: State, a: Id, b: Id)
    requires Inv(st) && a in st.objs && b !in st.objs && !UnderWay(st.objs[a])
    ensures StepOk(st, MoveStep(st, a, st.objs[a], b))
  {}

  /** `st'` is `st` after the prepared operation of `a` was started; nothing else is prepared anew. */
  ghost predicate Starting(st: State, a: Id, at: Id, st': State)
    requires a in st.objs && Prepared(st.objs[a]).Some?
  {
    && st'.known == st.known && st'.started == st.started + {Prepared(st.objs[a]).value}
    && st'.objs.Keys == st.objs.Keys + {a, at}
    && (forall x: Id :: x in st'.objs ==> Sound(st'.objs[x]))
    && (forall x: Id :: x in st'.objs && x != a && x != at ==> st'.objs[x] == st.objs[x])
    && Prepared(st'.objs[a]) == None && Prepared(st'.objs[at]) == None
  }

  lemma StartKeepsInv(st: State, a: Id, at: Id, st': State)
    requires Inv(st) && a in st.objs && Prepared(st.objs[a]).Some? && Starting(st, a, at, st')
    ensures Inv(st') && Prepared(st.objs[a]).value !in st.started
  {}

  /** The handle `h` that waits for the operation is stored at `at`. */
  lemma StartOk(st: State, a: Id, at: Id, h: Handle, st': State)
    requires Inv(st) && a in st.objs && Prepared(st.objs[a]).Some? && Starting(st, a, at, st')
    requires OwnerOf(st, at) == [] && OwnerOf(st', at) == [h] && (a != at ==> OwnerOf(st, a) == OwnerOf(st', a))
    ensures StepOk(st, (st', [Stored(at, h), StartEvent(st, Prepared(st.objs[a]).value)]))
  {
    StartKeepsInv(st, a, at, st');
    TwoEvents(Stored(at, h), Started(Prepared(st.objs[a]).value));
    forall x: Id | x != at
      ensures OwnerOf(st', x) == OwnerOf(st, x)
    {}
  }

  lemma SuspendEmptyOk(st: State, a: Id, h: Handle)
    requires Inv(st) && a in st.objs && st.objs[a].tag == Coro && st.objs[a].owner.None? && Prepared(st.objs[a]) == None
    ensures StepOk(st, SuspendStep(st, a, st.objs[a], h))
  {
    TwoEvents(Stored(a, h), HandedOut(a, h));
    assert SuspendStep(st, a, st.objs[a], h).1 == [Stored(a, h), HandedOut(a, h)];
  }

  lemma SuspendOk(st: State, a: Id, h: Handle)
    requires Inv(st) && a in st.objs && !Ready(st.objs[a]) && st.objs[a].owner.None?
    ensures StepOk(st, SuspendStep(st, a, st.objs[a], h))
  {
    if Prepared(st.objs[a]) == None {
      SuspendEmptyOk(st, a, h);
    } else {
      StartOk(st, a, a, h, SuspendStep(st, a, st.objs[a], h).0);
    }
  }

  lemma SetCallbackEmptyOk(st: State, a: Id, b: Id, h: Handle)
    requires Inv(st) && a in st.objs && b !in st.objs && st.objs[a].tag == Coro && st.objs[a].owner.None?
    requires Prepared(st.objs[a]) == None
    ensures StepOk(st, SetCallbackStep(st, a, st.objs[a], b, h))
  {
    TwoEvents(Stored(b, h), HandedOut(b, h));
    assert SetCallbackStep(st, a, st.objs[a], b, h).1 == [Stored(b, h), HandedOut(b, h)];
  }

  lemma SetCallbackOk(st: State, a: Id, b: Id, h: Handle)
    requires Inv(st) && a in st.objs && b !in st.objs && !Ready(st.objs[a]) && st.objs[a].owner.None?
    ensures StepOk(st, SetCallbackStep(st, a, st.objs[a], b, h))
  {
    if Prepared(st.objs[a]) == None {
      SetCallbackEmptyOk(st, a, b, h);
    } else {
      StartOk(st, a, b, h, SetCallbackStep(st, a, st.objs[a], b, h).0);
    }
  }

  lemma DestroyOk(st: State, a: Id)
    requires Inv(st) && a in st.objs
    ensures StepOk(st, DestroyStep(st, a, st.objs[a]))
  {
    var o := st.objs[a];
    var (st', es) := DestroyStep(st, a, o);
    if o.owner.Some? {
      OneEvent(Terminates);
    } else if Prepared(o).Some? {
      assert es == [Started(Prepared(o).value)];
      OneEvent(Started(Prepared(o).value));
    } else {
      assert es == [];
    }
  }

  lemma ResolveOk(st: State, a: Id, k: Kind)
    requires Inv(st) && a in st.objs && st.objs[a].token == InResult
    ensures StepOk(st, ResolveStep(st, a, st.objs[a], k))
  {
    ShortEvents(ResolveStep(st, a, st.objs[a], k).1);
  }

  lemma PromiseEndsOk(st: State, a: Id)
    requires Inv(st) && a in st.objs && st.objs[a].token == InPromise
    ensures StepOk(st, PromiseEndsStep(st, a, st.objs[a]))
  {
    ShortEvents(PromiseEndsStep(st, a, st.objs[a]).1);
  }

  /** A change to one awaitable that nobody outside sees. */
  lemma UpdateOk(st: State, a: Id, o: Awaitable)
    requires Inv(st) && a in st.objs && Sound(o) && o.owner == st.objs[a].owner
    requires Prepared(o) == None || Prepared(o) == Prepared(st.objs[a])
    ensures StepOk(st, (Put(st, a, o), []))
  {}

  lemma CreateResultOk(st: State, a: Id, h: Handle)
    requires Inv(st) && a in st.objs
    ensures StepOk(st, Act(st, CreateResult(a, h), st.objs[a]))
  {
    OneEvent(InvalidState);
    OneEvent(Stored(a, h));
  }

  /** Moving an awaitable whose callback is under way. */
  predicate Careless(st: State, l: Label) {
    l.Move? && l.a in st.objs && l.b !in st.objs && UnderWay(st.objs[l.a])
  }

  ghost predicate Careful(st: State, ls: seq<Label>)
    decreases |ls|
  {
    ls != [] ==> !Careless(st, ls[0]) && Careful(Next(st, ls[0]).0, ls[1..])
  }

  lemma StepKeepsInv(st: State, l: Label)
    requires Inv(st) && !Careless(st, l)
    ensures StepOk(st, Next(st, l))
  {
    match l
    case NewResolved(a, k) =>
      match k {
        case WithValue(x) => NewOk(st, a, None, Value, Val(x));
        case WithException => NewOk(st, a, None, Exception, Exc);
        case WithNothing => NewOk(st, a, None, NoValue, Nothing);
      }
    case NewCoroutine(a, frame) => NewOk(st, a, frame, Coro, Co(frame));
    case NewCallback(a, op, local) =>
      if local {
        NewOk(st, a, Some(op), Callback, Closure(op, false));
      } else {
        NewOk(st, a, Some(op), CallbackPtr, Ptr(Some(op)));
      }
    case _ =>
      if l.a in st.objs {
        ActOk(st, l);
      }
  }

  lemma ActOk(st: State, l: Label)
    requires Inv(st) && !l.NewResolved? && !l.NewCoroutine? && !l.NewCallback? && l.a in st.objs && !Careless(st, l)
    ensures StepOk(st, Act(st, l, st.objs[l.a]))
  {
    var a, o := l.a, st.objs[l.a];
    match l
    case Move(_, b) =>
      if b !in st.objs {
        MoveOk(st, a, b);
      }
    case Suspend(_, h) =>
      if !Ready(o) && o.owner.None? {
        SuspendOk(st, a, h);
      }
    case SetCallback(_, b, h) =>
      if !Ready(o) && o.owner.None? && b !in st.objs {
        SetCallbackOk(st, a, b, h);
      }
    case Resolve(_, k) =>
      if o.token == InResult {
        ResolveOk(st, a, k);
      }
    case PromiseEnds(_) =>
      if o.token == InPromise {
        PromiseEndsOk(st, a);
      }
    case Destroy(_) => DestroyOk(st, a);
    case CreateResult(_, h) => CreateResultOk(st, a, h);
    case GetTempState(_) =>
      if o.token == InResult {
        UpdateOk(st, a, o.(tag := NoValue, store := Temp));
      }
    case PromiseSet(_, k) =>
      if o.token == InPromise {
        UpdateOk(st, a, Settle(o, k).value);
      }
    case Cancel(_) =>
      if o.owner.None? {
        UpdateOk(st, a, o.(tag := NoValue, store := Nothing));
      } else {
        OneEvent(InvalidState);
      }
  }

  // ---------- Whole runs ----------

  lemma {:induction false} StoredConcat(es: seq<Event>, fs: seq<Event>, x: Id)
    ensures StoredAt(es + fs, x) == StoredAt(es, x) + StoredAt(fs, x)
  {
    if es == [] {
      assert es + fs == fs;
    } else {
      assert (es + fs)[0] == es[0] && (es + fs)[1..] == es[1..] + fs;
      StoredConcat(es[1..], fs, x);
      Associative(StoreOf(es[0], x), StoredAt(es[1..], x), StoredAt(fs, x));
    }
  }

  lemma {:induction false} HandedOutConcat(es: seq<Event>, fs: seq<Event>, x: Id)
    ensures HandedOutAt(es + fs, x) == HandedOutAt(es, x) + HandedOutAt(fs, x)
  {
    if es == [] {
      assert es + fs == fs;
    } else {
      assert (es + fs)[0] == es[0] && (es + fs)[1..] == es[1..] + fs;
      HandedOutConcat(es[1..], fs, x);
      Associative(HandOf(es[0], x), HandedOutAt(es[1..], x), HandedOutAt(fs, x));
    }
  }

  lemma {:induction false} StartsConcat(es: seq<Event>, fs: seq<Event>)
    ensures Starts(es + fs) == Starts(es) + Starts(fs)
  {
    if es == [] {
      assert es + fs == fs;
    } else {
      assert (es + fs)[0] == es[0] && (es + fs)[1..] == es[1..] + fs;
      StartsConcat(es[1..], fs);
      Associative(StartOf(es[0]), Starts(es[1..]), Starts(fs));
    }
  }

  lemma {:induction false} RunKeepsInv(st: State, ls: seq<Label>)
    requires Inv(st) && Careful(st, ls)
    ensures var (st', es) := Exec(st, ls); Inv(st') && Fault !in es && st.started <= st'.started
    decreases |ls|
  {
    if ls != [] {
      StepKeepsInv(st, ls[0]);
      RunKeepsInv(Next(st, ls[0]).0, ls[1..]);
    }
  }

  lemma StepBalances(st: State, l: Label, x: Id)
    requires Inv(st) && !Careless(st, l)
    ensures var (st', es) := Next(st, l);
            Inv(st') && OwnerOf(st, x) + StoredAt(es, x) == HandedOutAt(es, x) + OwnerOf(st', x)
  {
    StepKeepsInv(st, l);
  }

  lemma {:induction false} RunBalances(st: State, ls: seq<Label>, x: Id)
    requires Inv(st) && Careful(st, ls)
    ensures var (st', es) := Exec(st, ls); OwnerOf(st, x) + StoredAt(es, x) == HandedOutAt(es, x) + OwnerOf(st', x)
    decreases |ls|
  {
    if ls != [] {
      var (st1, es) := Next(st, ls[0]);
      StepBalances(st, ls[0], x);
      RunBalances(st1, ls[1..], x);
      var (st', rest) := Exec(st1, ls[1..]);
      StoredConcat(es, rest, x);
      HandedOutConcat(es, rest, x);
      Balance(OwnerOf(st, x), StoredAt(es, x), StoredAt(rest, x), HandedOutAt(es, x), HandedOutAt(rest, x),
              OwnerOf(st1, x), OwnerOf(st', x));
    }
  }

  lemma {:induction false} RunStartsOnce(st: State, ls: seq<Label>)
    requires Inv(st) && Careful(st, ls)
    ensures var ops := Starts(Exec(st, ls).1); Distinct(ops) && forall i :: 0 <= i < |ops| ==> ops[i] !in st.started
    decreases |ls|
  {
    if ls != [] {
      var (st1, es) := Next(st, ls[0]);
      StepKeepsInv(st, ls[0]);
      RunStartsOnce(st1, ls[1..]);
      StartsConcat(es, Exec(st1, ls[1..]).1);
    }
  }

  /** Over every sequence of operations on any number of awaitables that moves none whose callback is
      under way (CarefulExactly): only the member the tag names is read or destroyed, and no null
      callback is called (no `Fault`); each prepared operation is started at most once; and at every
      address the handles handed out are the handles stored, in order and each once, all but the one
      still stored. */
  lemma AwaitablesAreLinear(ls: seq<Label>, x: Id)
    requires Careful(INIT, ls)
    ensures var (st, es) := Exec(INIT, ls);
            && (forall a: Id :: a in st.objs ==> TagFits(st.objs[a]))
            && Fault !in es && Distinct(Starts(es))
            && StoredAt(es, x) == HandedOutAt(es, x) + OwnerOf(st, x)
  {
    RunKeepsInv(INIT, ls);
    RunBalances(INIT, ls, x);
    RunStartsOnce(INIT, ls);
    assert [] + StoredAt(Exec(INIT, ls).1, x) == StoredAt(Exec(INIT, ls).1, x);
  }

  /** A result is single-use: the first use delivers the value and hands the stored handle out, any
      further one does nothing. */
  lemma ResultIsSingleUse(ls: seq<Label>, a: Id, k: Kind, k': Kind)
    requires Careful(INIT, ls)
    ensures var st := Exec(INIT, ls).0;
            a in st.objs && st.objs[a].token == InResult ==>
              var (st1, es) := Next(st, Resolve(a, k));
              && st.objs[a].owner.Some? && es == [HandedOut(a, st.objs[a].owner.value)]
              && st1.objs[a] == (match k
                                 case WithValue(x) => Awaitable(Value, None, Val(x), Free)
                                 case WithException => Awaitable(Exception, None, Exc, Free)
                                 case WithNothing => Awaitable(NoValue, None, Nothing, Free))
              && Next(st1, Resolve(a, k')) == (st1, [])
  {
    RunKeepsInv(INIT, ls);
  }

  // ---------- What each operation does, in the states of careful runs (RunKeepsInv) ----------

  function Settled(k: Kind, owner: Option<Handle>, token: Token): Awaitable {
    match k
    case WithValue(x) => Awaitable(Value, owner, Val(x), token)
    case WithException => Awaitable(Exception, owner, Exc, token)
    case WithNothing => Awaitable(NoValue, owner, Nothing, token)
  }

  /** An awaitable is constructed resolved, or with an operation that is prepared and not started. */
  lemma Constructs(st: State, a: Id, k: Kind, op: OpId, local: bool)
    requires a !in st.objs && op !in st.known
    ensures Next(st, NewResolved(a, k)) == (st.(objs := st.objs[a := Settled(k, None, Free)]), [])
    ensures Next(st, NewCoroutine(a, None)) == (st.(objs := st.objs[a := Awaitable(Coro, None, Co(None), Free)]), [])
    ensures var (st', es) := Next(st, NewCoroutine(a, Some(op)));
            && es == [] && st'.known == st.known + {op} && st'.started == st.started
            && st'.objs == st.objs[a := Awaitable(Coro, None, Co(Some(op)), Free)]
    ensures var (st', es) := Next(st, NewCallback(a, op, local));
            && es == [] && st'.known == st.known + {op} && st'.started == st.started
            && a in st'.objs && st'.objs == st.objs[a := st'.objs[a]]
            && TagFits(st'.objs[a]) && Prepared(st'.objs[a]) == Some(op) && st'.objs[a].owner == None
            && st'.objs[a].tag == if local then Callback else CallbackPtr
  {}

  /** The new object has what the old one had, the value or the prepared operation; the old one keeps its
      handle and its result, and nothing else. */
  lemma MoveTransfers(st: State, a: Id, b: Id)
    requires Inv(st) && a in st.objs && b !in st.objs
    ensures var o := st.objs[a]; var (st', es) := Next(st, Move(a, b));
            && es == [] && st'.known == st.known && st'.started == st.started && b in st'.objs
            && st'.objs == st.objs[a := o.(tag := NoValue, store := Nothing)][b := st'.objs[b]]
            && st'.objs[b].tag == o.tag && st'.objs[b].owner == None && Prepared(st'.objs[b]) == Prepared(o)
            && (o.store != Temp ==> st'.objs[b].store == o.store)
  {}

  /** await_suspend starts the prepared operation, whose result is then due to the coroutine suspended; an
      empty coroutine object leaves it without value, and it goes on at once. */
  lemma SuspendStarts(st: State, a: Id, h: Handle)
    requires Inv(st) && a in st.objs && !Ready(st.objs[a]) && st.objs[a].owner == None
    ensures var o := st.objs[a]; var (st', es) := Next(st, Suspend(a, h));
            && a in st'.objs && st'.objs == st.objs[a := st'.objs[a]] && st'.known == st.known
            && (if Prepared(o).Some? then
                  && es == [Stored(a, h), Started(Prepared(o).value)] && st'.started == st.started + {Prepared(o).value}
                  && st'.objs[a].owner == Some(h) && st'.objs[a].tag == o.tag && Prepared(st'.objs[a]) == None
                  && st'.objs[a].token == (if o.tag == Coro then InPromise else InResult)
                else
                  && es == [Stored(a, h), HandedOut(a, h)] && st'.started == st.started
                  && st'.objs[a] == Settled(WithNothing, None, Free))
  {}

  /** set_callback_internal starts the prepared operation on behalf of the new awaitable `b`. */
  lemma SetCallbackStarts(st: State, a: Id, b: Id, h: Handle)
    requires Inv(st) && a in st.objs && b !in st.objs && !Ready(st.objs[a]) && st.objs[a].owner == None
    ensures var o := st.objs[a]; var (st', es) := Next(st, SetCallback(a, b, h));
            && b in st'.objs && st'.objs == st.objs[a := Settled(WithNothing, None, Free)][b := st'.objs[b]]
            && (if Prepared(o).Some? then
                  && es == [Stored(b, h), Started(Prepared(o).value)] && st'.started == st.started + {Prepared(o).value}
                  && st'.objs[b] == Settled(WithNothing, Some(h), if o.tag == Coro then InPromise else InResult)
                else
                  && es == [Stored(b, h), HandedOut(b, h)] && st'.started == st.started
                  && st'.objs[b] == Settled(WithNothing, None, Free))
  {}

  /** create_result and cancel, which throw if somebody awaits, and get_temp_state. */
  lemma ResultsAreCreated(st: State, a: Id, h: Handle)
    requires Inv(st) && a in st.objs
    ensures var o := st.objs[a];
            && Next(st, CreateResult(a, h)) ==
                 (if o.owner.Some? then (st, [InvalidState])
                  else (st.(objs := st.objs[a := o.(owner := Some(h), token := InResult)]), [Stored(a, h)]))
            && Next(st, Cancel(a)) ==
                 (if o.owner.Some? then (st, [InvalidState])
                  else (st.(objs := st.objs[a := Settled(WithNothing, None, Free)]), []))
            && (o.token == InResult ==>
                  Next(st, GetTempState(a)) ==
                    (st.(objs := st.objs[a := Awaitable(NoValue, o.owner, Temp, InResult)]), []))
  {}

  /** The destructor starts exactly the operation still prepared, and the object is gone. */
  lemma DestroyStarts(st: State, a: Id)
    requires Inv(st) && a in st.objs
    ensures var o := st.objs[a]; var (st', es) := Next(st, Destroy(a));
            if o.owner.Some? then st' == st && es == [Terminates]
            else
              && st'.objs == st.objs - {a} && st'.known == st.known
              && (if Prepared(o).Some? then
                    es == [Started(Prepared(o).value)] && st'.started == st.started + {Prepared(o).value}
                  else es == [] && st'.started == st.started)
  {}

  /** The end of a coroutine wakes the one that awaits it, once, with what the coroutine returned or threw,
      or with no value. */
  lemma CoroutineEndWakes(st: State, a: Id)
    requires Inv(st) && a in st.objs && st.objs[a].token == InPromise
    ensures var o := st.objs[a]; var (st1, es) := Next(st, PromiseEnds(a));
            && o.owner.Some? && es == [HandedOut(a, o.owner.value)]
            && st1 == st.(objs := st.objs[a := if Ready(o) then o.(owner := None, token := Free)
                                               else Settled(WithNothing, None, Free)])
            && Next(st1, PromiseEnds(a)) == (st1, [])
  {}

  lemma CoroutineReturns(st: State, a: Id, k: Kind)
    requires Inv(st) && a in st.objs && st.objs[a].token == InPromise
    ensures Next(st, PromiseSet(a, k)) == (st.(objs := st.objs[a := Settled(k, st.objs[a].owner, InPromise)]), [])
  {}

  /** What a coroutine returns or throws is what the one that awaits it finds when it goes on. */
  lemma CoroutineDelivers(ls: seq<Label>, a: Id, k: Kind)
    requires Careful(INIT, ls)
    ensures var st := Exec(INIT, ls).0;
            a in st.objs && st.objs[a].token == InPromise ==>
              var (st2, es) := Next(Next(st, PromiseSet(a, k)).0, PromiseEnds(a));
              && st.objs[a].owner.Some? && es == [HandedOut(a, st.objs[a].owner.value)]
              && st2.objs == st.objs[a := Settled(k, None, Free)]
  {
    RunKeepsInv(INIT, ls);
    var st := Exec(INIT, ls).0;
    if a in st.objs && st.objs[a].token == InPromise {
      CoroutineReturns(st, a, k);
      StepKeepsInv(st, PromiseSet(a, k));
      CoroutineEndWakes(Next(st, PromiseSet(a, k)).0, a);
    }
  }

  /** The awaitable `a`, which is there, neither stores nor hands out anything in this step. */
  ghost predicate LeavesAlone(st: State, l: Label, a: Id)
    requires a in st.objs
  {
    var (st', es) := Next(st, l);
    && a in st'.objs && st'.objs[a].token == st.objs[a].token && st'.objs[a].owner == st.objs[a].owner
    && HandedOutAt(es, a) == []
  }

  lemma OthersLeaveAlone(st: State, l: Label, a: Id)
    requires Inv(st) && a in st.objs && l.a != a
    ensures LeavesAlone(st, l, a)
  {
    match l
    case Suspend(x, h) =>
      if x in st.objs && !Ready(st.objs[x]) && st.objs[x].owner == None {
        SuspendStarts(st, x, h);
        ShortEvents(Next(st, l).1);
      }
    case SetCallback(x, b, h) =>
      if x in st.objs && !Ready(st.objs[x]) && st.objs[x].owner == None && b !in st.objs {
        SetCallbackStarts(st, x, b, h);
        ShortEvents(Next(st, l).1);
      }
    case Destroy(x) =>
      if x in st.objs {
        DestroyStarts(st, x);
        ShortEvents(Next(st, l).1);
      }
    case PromiseEnds(x) =>
      if x in st.objs && st.objs[x].token == InPromise {
        CoroutineEndWakes(st, x);
        ShortEvents(Next(st, l).1);
      }
    case _ => QuietlyElsewhere(st, l, a);
  }

  lemma QuietlyElsewhere(st: State, l: Label, a: Id)
    requires Inv(st) && a in st.objs && l.a != a
    requires !l.Suspend? && !l.SetCallback? && !l.Destroy? && !l.PromiseEnds?
    ensures LeavesAlone(st, l, a)
  {
    if l.Resolve? && l.a in st.objs && st.objs[l.a].token == InResult {
      ResultResolves(st, l.a, l.k);
      ShortEvents(Next(st, l).1);
    } else if l.CreateResult? || l.Cancel? || l.GetTempState? || l.PromiseSet? || l.Resolve? {
      if l.a in st.objs {
        QuietOnes(st, l, a);
      }
    } else {
      NewOnes(st, l, a);
    }
  }

  lemma NewOnes(st: State, l: Label, a: Id)
    requires Inv(st) && a in st.objs && l.a != a && (l.Move? || l.NewResolved? || l.NewCoroutine? || l.NewCallback?)
    ensures LeavesAlone(st, l, a)
  {
    if l.Move? && l.a in st.objs && l.b !in st.objs {
      MoveTransfers(st, l.a, l.b);
    }
  }

  lemma QuietOnes(st: State, l: Label, a: Id)
    requires Inv(st) && a in st.objs && l.a in st.objs && l.a != a
    requires l.CreateResult? || l.Cancel? || l.GetTempState? || l.PromiseSet?
             || (l.Resolve? && st.objs[l.a].token != InResult)
    ensures LeavesAlone(st, l, a)
  {
    ShortEvents(Next(st, l).1);
  }

  lemma ResultResolves(st: State, a: Id, k: Kind)
    requires Inv(st) && a in st.objs && st.objs[a].token == InResult
    ensures st.objs[a].owner.Some?
    ensures Next(st, Resolve(a, k)) ==
              (st.(objs := st.objs[a := Settled(k, None, Free)]), [HandedOut(a, st.objs[a].owner.value)])
  {}

  /** The end of the coroutine, or the use of the result, that the awaitable waits for. */
  predicate Ends(l: Label, a: Id) {
    l == PromiseEnds(a) || (l.Resolve? && l.a == a)
  }

  /** Nor does what is awaited already, until that. */
  lemma AwaitedIsLeftAlone(st: State, l: Label, a: Id)
    requires Inv(st) && a in st.objs && st.objs[a].token != Free && l.a == a && !Ends(l, a)
    ensures LeavesAlone(st, l, a)
  {
    assert st.objs[a].owner.Some?;
    ShortEvents(Next(st, l).1);
  }

  /** An await lasts: until its coroutine ends, or its result is used, whatever else happens neither
      replaces its handle nor hands it out. */
  lemma {:induction false} AwaitLasts(st: State, ls: seq<Label>, a: Id)
    requires Inv(st) && Careful(st, ls) && a in st.objs && st.objs[a].token != Free
    requires forall l :: l in ls ==> !Ends(l, a)
    ensures var (st', es) := Exec(st, ls);
            && a in st'.objs && st'.objs[a].token == st.objs[a].token && st'.objs[a].owner == st.objs[a].owner
            && HandedOutAt(es, a) == []
    decreases |ls|
  {
    if ls != [] {
      var (st1, es) := Next(st, ls[0]);
      assert ls[0] in ls;
      if ls[0].a == a {
        AwaitedIsLeftAlone(st, ls[0], a);
      } else {
        OthersLeaveAlone(st, ls[0], a);
      }
      StepKeepsInv(st, ls[0]);
      AwaitLasts(st1, ls[1..], a);
      HandedOutConcat(es, Exec(st1, ls[1..]).1, a);
    }
  }

  // ---------- Moving an awaited awaitable ----------

  /** However things go on, if with care, nothing invalid will happen. */
  ghost predicate NeverFaults(st: State) {
    forall more: seq<Label> :: Careful(st, more) ==> Fault !in Exec(st, more).1
  }

  lemma InvNeverFaults(st: State)
    requires Inv(st)
    ensures NeverFaults(st)
  {
    forall more: seq<Label> | Careful(st, more)
      ensures Fault !in Exec(st, more).1
    {
      RunKeepsInv(st, more);
    }
  }

  /** The object that a callback under way was moved to: its destructor calls what must not be called. */
  lemma CarelessFaults(st: State, l: Label)
    requires Inv(st) && Careless(st, l)
    ensures !NeverFaults(Next(st, l).0)
  {
    var st' := Next(st, l).0;
    var more := [Destroy(l.b)];
    var o := st'.objs[l.b];
    assert o.owner == None && UnderWay(o);
    assert Fault in DestroyStep(st', l.b, o).1;
    assert more[1..] == [];
    var (st1, es) := Next(st', more[0]);
    assert Exec(st1, more[1..]).1 == [] && es + [] == es;
    assert Exec(st', more).1 == es;
    assert Careful(st', more);
  }

  /** The move constructor does not look at `_owner`. A move is safe, however the run goes on, if and
      only if the object holds no callback that is under way; one that nobody awaits never does. */
  lemma MoveSafeExactly(ls: seq<Label>, a: Id, b: Id)
    requires Careful(INIT, ls)
    ensures var st := Exec(INIT, ls).0;
            a in st.objs && b !in st.objs ==>
              && (NeverFaults(Next(st, Move(a, b)).0) <==> !UnderWay(st.objs[a]))
              && (st.objs[a].owner == None ==> !UnderWay(st.objs[a]))
  {
    RunKeepsInv(INIT, ls);
    var st := Exec(INIT, ls).0;
    if a in st.objs && b !in st.objs {
      if UnderWay(st.objs[a]) {
        CarelessFaults(st, Move(a, b));
      } else {
        StepKeepsInv(st, Move(a, b));
        InvNeverFaults(Next(st, Move(a, b)).0);
      }
    }
  }

  /** Nothing invalid can come of any state of the run. */
  ghost predicate NeverAtRisk(st: State, ls: seq<Label>)
    decreases |ls|
  {
    NeverFaults(st) && (ls != [] ==> NeverAtRisk(Next(st, ls[0]).0, ls[1..]))
  }

  lemma {:induction false} AtRiskFrom(st: State, ls: seq<Label>)
    requires Inv(st)
    ensures NeverAtRisk(st, ls) <==> Careful(st, ls)
    decreases |ls|
  {
    InvNeverFaults(st);
    if ls != [] {
      if Careless(st, ls[0]) {
        CarelessFaults(st, ls[0]);
      } else {
        StepKeepsInv(st, ls[0]);
        AtRiskFrom(Next(st, ls[0]).0, ls[1..]);
      }
    }
  }

  /** The exact condition over whole runs: nothing invalid can come of a run, at any time, if and only
      if it moves no awaitable whose callback is under way. */
  lemma CarefulExactly(ls: seq<Label>)
    ensures NeverAtRisk(INIT, ls) <==> Careful(INIT, ls)
  {
    AtRiskFrom(INIT, ls);
  }

  /** What goes wrong otherwise: a callback that is under way is moved, and the destructor of the new
      object starts it a second time, or calls a null pointer if it was too large to be stored inside. */
  lemma MovedCallbackFaults(local: bool) returns (ls: seq<Label>)
    ensures ls == [NewCallback(0, 9, local), Suspend(0, 7), Move(0, 1), Destroy(1)]
    ensures Fault in Exec(INIT, ls).1
  {
    ls := [NewCallback(0, 9, local), Suspend(0, 7), Move(0, 1), Destroy(1)];
    var st1 := Next(INIT, ls[0]).0;
    var st2 := Next(st1, ls[1]).0;
    var st3 := Next(st2, ls[2]).0;
    assert ls[1..][1..][1..][1..] == [];
    assert Fault in Next(st3, ls[3]).1;
    assert Fault in Exec(st3, ls[1..][1..][1..]).1;
    assert Fault in Exec(st2, ls[1..][1..]).1;
    assert Fault in Exec(st1, ls[1..]).1;
  }
}
