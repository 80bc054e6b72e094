/** coro_mutex (coro_mutex.h:82-199) as a transition system.

    Any number of threads act in any order. Each atomic operation on `_requests` is one step, so the
    windows between a winning compare-exchange and the `exchange` that follows it, and between a
    failed compare-exchange and its `exchange`, are states like any other. Every iteration of the
    loop in `make_queue` is a step too.

    A slot is an address. Its `_next` field is live memory from the moment the lock callback writes
    it (coro_mutex.h:113) until `resume_slot` overwrites it with the ownership value; `next` holds
    exactly the live fields, and touching any other field is the event `Fault`. */
module MutexSteps {
  import opened Options
  import opened Sequences

  type Thread = nat
  type Slot = nat

  datatype Ptr = Null | Doorman | At(slot: Slot)

  /** Where a thread stands inside add_request, unlock or make_queue. */
  datatype Pc =
    | Idle
    | Pushing(s: Slot)                 // add_request: in the compare-exchange loop
    | Won(s: Slot)                     // add_request: found null, exchange still to come
    | Reversing(from: Ptr, to: Ptr)    // make_queue: about to test from != to
    | Unlocking                        // unlock: entered
    | Contended                        // unlock: compare-exchange failed, exchange still to come
    | Popping                          // unlock: about to take the first of the queue

  /** A live ownership object: taken by try_lock, or handed to a slot. */
  datatype Owner = Tried(t: Thread) | Granted(s: Slot)

  datatype State = State(
    requests: Ptr,
    queue: Ptr,
    next: map<Slot, Ptr>,
    pcs: map<Thread, Pc>,
    owners: seq<Owner>)

  const INIT := State(Null, Null, map[], map[], [])

  /** What an idle thread starts; a busy one continues where it stands. */
  datatype Act = TryLock | Request(s: Slot) | Unlock(i: nat) | Continue

  datatype Label = Label(t: Thread, a: Act)

  datatype Event =
    | Tau
    | TryAcquired
    | Pushed(s: Slot)      // a successful compare-exchange in add_request
    | Resumed(s: Slot)     // resume_slot
    | Released
    | Fault                // a null, doorman or dead slot was dereferenced

  function PcOf(st: State, t: Thread): Pc {
    if t in st.pcs then st.pcs[t] else Idle
  }

  function Goto(st: State, t: Thread, pc: Pc): State {
    st.(pcs := st.pcs[t := pc])
  }

  function FaultAt(st: State, t: Thread): (State, Event) {
    (Goto(st, t, Idle), Fault)
  }

  /** resume_slot: the slot's memory becomes the ownership value. */
  function Resume(st: State, t: Thread, s: Slot): (State, Event) {
    (Goto(st.(next := st.next - {s}, owners := st.owners + [Granted(s)]), t, Idle), Resumed(s))
  }

  /** One compare-exchange of add_request. On failure it stores the value it found in `_next`; on
      success the test against null is made on the value it found. MutexReread makes the test a step of
      its own. */
  function PushStep(st: State, t: Thread, s: Slot): (State, Event) {
    if s !in st.next then FaultAt(st, t)
    else if st.next[s] != st.requests then (st.(next := st.next[s := st.requests]), Tau)
    else if st.requests == Null then (Goto(st.(requests := At(s)), t, Won(s)), Pushed(s))
    else (Goto(st.(requests := At(s)), t, Idle), Pushed(s))
  }

  /** One test of the loop in make_queue and, if it goes on, one iteration. */
  function ReverseStep(st: State, t: Thread, from: Ptr, to: Ptr): (State, Event) {
    if from == to then
      match to
      case At(w) => Resume(st, t, w)
      case Doorman => (Goto(st, t, Popping), Tau)
      case Null => FaultAt(st, t)
    else if from.At? && from.slot in st.next then
      (Goto(st.(next := st.next[from.slot := st.queue], queue := from), t,
            Reversing(st.next[from.slot], to)), Tau)
    else FaultAt(st, t)
  }

  function PopStep(st: State, t: Thread): (State, Event) {
    if st.queue.At? && st.queue.slot in st.next
    then Resume(st.(queue := st.next[st.queue.slot]), t, st.queue.slot)
    else FaultAt(st, t)
  }

  function ContinueStep(st: State, t: Thread): (State, Event) {
    match PcOf(st, t)
    case Idle => (st, Tau)
    case Pushing(s) => PushStep(st, t, s)
    case Won(s) => (Goto(st.(requests := Doorman), t, Reversing(st.requests, At(s))), Tau)
    case Reversing(from, to) => ReverseStep(st, t, from, to)
    case Unlocking =>
      if st.queue != Null then (Goto(st, t, Popping), Tau)
      else if st.requests == Doorman then (Goto(st.(requests := Null), t, Idle), Released)
      else (Goto(st, t, Contended), Tau)
    case Contended => (Goto(st.(requests := Doorman), t, Reversing(st.requests, Doorman)), Tau)
    case Popping => PopStep(st, t)
  }

  /** One step of one thread. A label that is not enabled leaves the state alone, so every sequence
      of labels is an interleaving. A slot is requested only while its memory is not in use. */
  function Next(st: State, l: Label): (State, Event) {
    if PcOf(st, l.t) != Idle then ContinueStep(st, l.t)
    else
      match l.a
      case TryLock =>
        if st.requests == Null
        then (st.(requests := Doorman, owners := st.owners + [Tried(l.t)]), TryAcquired)
        else (st, Tau)
      case Request(s) =>
        if s in st.next then (st, Tau) else (Goto(st.(next := st.next[s := Null]), l.t, Pushing(s)), Tau)
      case Unlock(i) =>
        if i < |st.owners|
        then (Goto(st.(owners := st.owners[..i] + st.owners[i + 1..]), l.t, Unlocking), Tau)
        else (st, Tau)
      case Continue => (st, Tau)
  }

  function Exec(st: State, ls: seq<Label>): (State, seq<Event>)
    decreases |ls|
  {
    if ls == [] then (st, [])
    else
      var (st1, e) := Next(st, ls[0]);
      var (st2, es) := Exec(st1, ls[1..]);
      (st2, [e] + es)
  }

  /** A thread that is acquiring or unlocking. */
  predicate Critical(pc: Pc) {
    !pc.Idle? && !pc.Pushing?
  }

  // ---------- Linked lists in `next` ----------

  ghost predicate Links(next: map<Slot, Ptr>, from: Ptr, xs: seq<Slot>, to: Ptr)
    decreases |xs|
  {
    if xs == [] then from == to
    else from == At(xs[0]) && xs[0] in next && Links(next, next[xs[0]], xs[1..], to)
  }

  function Reverse(xs: seq<Slot>): seq<Slot> {
    if xs == [] then [] else Reverse(xs[1..]) + [xs[0]]
  }

  /** A list does not see changes to fields off the list. */
  lemma {:induction false} LinksFrame(next: map<Slot, Ptr>, next': map<Slot, Ptr>, from: Ptr, xs: seq<Slot>, to: Ptr)
    requires Links(next, from, xs, to)
    requires forall x: Slot :: x in xs ==> x in next && x in next' && next'[x] == next[x]
    ensures Links(next', from, xs, to)
    decreases |xs|
  {
    if xs != [] {
      LinksFrame(next, next', next[xs[0]], xs[1..], to);
    }
  }

  /** The memory determines the list: two readings that do not run past their end agree. */
  lemma {:induction false} LinksUnique(next: map<Slot, Ptr>, from: Ptr, xs: seq<Slot>, ys: seq<Slot>, to: Ptr)
    requires Links(next, from, xs, to) && Links(next, from, ys, to)
    requires to.At? ==> to.slot !in xs && to.slot !in ys
    ensures xs == ys
    decreases |xs|
  {
    if xs != [] && ys != [] {
      LinksUnique(next, next[xs[0]], xs[1..], ys[1..], to);
      assert xs == [xs[0]] + xs[1..] && ys == [ys[0]] + ys[1..];
    }
  }

  /** Taking the first of a list of distinct slots. */
  lemma Uncons(xs: seq<Slot>)
    requires xs != [] && Distinct(xs)
    ensures xs == [xs[0]] + xs[1..] && xs[0] !in xs[1..] && Distinct(xs[1..])
    ensures forall y: Slot :: y in xs <==> y == xs[0] || y in xs[1..]
    ensures Reverse(xs) == Reverse(xs[1..]) + [xs[0]]
  {}

  lemma Cons(x: Slot, xs: seq<Slot>)
    requires x !in xs && Distinct(xs)
    ensures ([x] + xs)[0] == x && ([x] + xs)[1..] == xs && Distinct([x] + xs)
    ensures forall y: Slot :: y in [x] + xs <==> y == x || y in xs
    ensures Reverse([x] + xs) == Reverse(xs) + [x]
  {}

  lemma Shift(a: seq<Slot>, b: seq<Slot>, x: Slot, c: seq<Slot>, d: seq<Slot>)
    ensures a + (b + [x]) + c + d == a + b + ([x] + c) + d
  {}

  lemma Serve(x: Slot, a: seq<Slot>, b: seq<Slot>)
    ensures [] + [] + ([x] + a) + b == [x] + ([] + [] + a + b)
    ensures [x] + [] + a + b == [x] + ([] + [] + a + b)
  {}

  // ---------- The invariant ----------

  datatype Role = Pusher(t: Thread) | OnStack | OnQueue | OnPending | Winner

  /** The lists a state encodes: requests above the bottom (newest first), the queue (next to be
      served first), and what make_queue has captured but not yet moved; the one critical thread;
      and the single place of every live slot. */
  datatype Lists = Lists(
    stack: seq<Slot>,
    queue: seq<Slot>,
    pending: seq<Slot>,
    crit: Option<Thread>,
    role: map<Slot, Role>)

  ghost function CritPc(st: State, g: Lists): Pc {
    if g.crit.Some? then PcOf(st, g.crit.value) else Idle
  }

  ghost function Bottom(pc: Pc): Ptr {
    if pc.Won? then At(pc.s) else Doorman
  }

  ghost function WinnerOf(pc: Pc): seq<Slot> {
    match pc
    case Won(s) => [s]
    case Reversing(_, to) => if to.At? then [to.slot] else []
    case _ => []
  }

  /** At most one of: a live ownership, an acquiring thread, an unlocking thread; null means none. */
  ghost predicate Exclusive(st: State, g: Lists) {
    && (forall t: Thread :: Critical(PcOf(st, t)) <==> g.crit == Some(t))
    && |st.owners| <= 1
    && (g.crit.Some? ==> st.owners == [])
    && (st.requests == Null <==> g.crit == None && st.owners == [])
  }

  ghost predicate Shape(st: State, g: Lists) {
    var pc := CritPc(st, g);
    && (if st.requests == Null then g.stack == [] && g.queue == []
        else Links(st.next, st.requests, g.stack, Bottom(pc)))
    && Links(st.next, st.queue, g.queue, Null)
    && (if pc.Reversing? then pc.to != Null && Links(st.next, pc.from, g.pending, pc.to) else g.pending == [])
    && (pc.Won? || pc.Contended? ==> g.queue == [])
    && (pc.Contended? ==> g.stack != [])
    && (pc.Popping? ==> g.queue != [])
    && (pc.Reversing? && pc.to == Doorman ==> g.pending != [] || g.queue != [])
    && Distinct(g.stack) && Distinct(g.queue) && Distinct(g.pending)
  }

  /** Every live slot has exactly one place. */
  ghost predicate Places(st: State, g: Lists) {
    && g.role.Keys == st.next.Keys
    && (forall t: Thread :: PcOf(st, t).Pushing? ==> PcOf(st, t).s in g.role && g.role[PcOf(st, t).s] == Pusher(t))
    && (forall x: Slot :: x in g.role && g.role[x].Pusher? ==> PcOf(st, g.role[x].t) == Pushing(x))
    && (forall x: Slot :: x in g.stack <==> x in g.role && g.role[x] == OnStack)
    && (forall x: Slot :: x in g.queue <==> x in g.role && g.role[x] == OnQueue)
    && (forall x: Slot :: x in g.pending <==> x in g.role && g.role[x] == OnPending)
    && (forall x: Slot :: x in WinnerOf(CritPc(st, g)) <==> x in g.role && g.role[x] == Winner)
  }

  ghost predicate Inv(st: State, g: Lists) {
    Exclusive(st, g) && Shape(st, g) && Places(st, g)
  }

  /** All requests not yet resumed, in the order they will be: the slot that is taking the lock,
      then the waiting line `_queue` followed by the reverse of the stack above its bottom. */
  ghost function Due(st: State, g: Lists): seq<Slot> {
    WinnerOf(CritPc(st, g)) + Reverse(g.pending) + g.queue + Reverse(g.stack)
  }

  // ---------- The specification: a FIFO lock ----------

  datatype Fifo = Fifo(busy: bool, due: seq<Slot>)

  ghost function Abs(st: State, g: Lists): Fifo {
    Fifo(st.requests != Null, Due(st, g))
  }

  ghost predicate FifoStep(f: Fifo, e: Event, f': Fifo) {
    match e
    case Tau => f' == f
    case TryAcquired => !f.busy && f.due == [] && f' == Fifo(true, [])
    case Pushed(s) => (!f.busy ==> f.due == []) && f' == Fifo(true, f.due + [s])
    case Resumed(s) => f.busy && f.due != [] && f.due[0] == s && f' == Fifo(true, f.due[1..])
    case Released => f.busy && f.due == [] && f' == Fifo(false, [])
    case Fault => false
  }

  // ---------- Every step keeps the invariant and is a step of the FIFO lock ----------

  /** What each step lemma below proves of a step by thread `t`: it keeps the invariant, it is a step
      of the FIFO lock, and it leaves the captured list of another thread alone. */
  ghost predicate Refines(st: State, g: Lists, t: Thread, step: (State, Event), g': Lists) {
    && Inv(step.0, g')
    && FifoStep(Abs(st, g), step.1, Abs(step.0, g'))
    && (g.crit.Some? && g.crit.value != t ==> g'.crit == g.crit && g'.pending == g.pending)
    && (PcOf(st, t).Reversing? && PcOf(step.0, t).Reversing? ==> |g'.pending| < |g.pending|)
  }

  /** Writing the field of a slot that is on no list. */
  lemma OffLists(st: State, g: Lists, s: Slot, next': map<Slot, Ptr>)
    requires Shape(st, g)
    requires forall x: Slot :: x in st.next && x != s ==> x in next' && next'[x] == st.next[x]
    requires forall x: Slot :: x in g.stack || x in g.queue || x in g.pending ==> x in st.next && x != s
    ensures Shape(st.(next := next'), g)
  {
    var pc := CritPc(st, g);
    assert CritPc(st.(next := next'), g) == pc;
    LinksFrame(st.next, next', st.queue, g.queue, Null);
    if st.requests != Null {
      LinksFrame(st.next, next', st.requests, g.stack, Bottom(pc));
    }
    if pc.Reversing? {
      LinksFrame(st.next, next', pc.from, g.pending, pc.to);
    }
  }

  /** The state after a failed compare-exchange of thread `t`. */
  lemma Retried(st: State, g: Lists, t: Thread, s: Slot, st': State)
    requires Inv(st, g) && PcOf(st, t) == Pushing(s) && st' == st.(next := st.next[s := st.requests])
    ensures Inv(st', g) && CritPc(st', g) == CritPc(st, g)
  {
    assert s in g.role && g.role[s] == Pusher(t);
    assert s !in g.stack && s !in g.queue && s !in g.pending;
    assert forall u: Thread :: PcOf(st', u) == PcOf(st, u);
    assert CritPc(st', g) == CritPc(st, g);
    assert Shape(st', g) by {
      OffLists(st, g, s, st'.next);
    }
    assert Places(st', g);
  }

  lemma PushRetry(st: State, g: Lists, t: Thread) returns (g': Lists)
    requires Inv(st, g) && PcOf(st, t).Pushing? && st.next[PcOf(st, t).s] != st.requests
    ensures Refines(st, g, t, ContinueStep(st, t), g')
  {
    g' := g;
    Retried(st, g, t, PcOf(st, t).s, ContinueStep(st, t).0);
  }

  lemma PushWin(st: State, g: Lists, t: Thread) returns (g': Lists)
    requires Inv(st, g) && PcOf(st, t).Pushing? && st.next[PcOf(st, t).s] == st.requests == Null
    ensures Refines(st, g, t, ContinueStep(st, t), g')
  {
    var s := PcOf(st, t).s;
    var (st', e) := ContinueStep(st, t);
    g' := g.(crit := Some(t), role := g.role[s := Winner]);
    assert g.crit == None && g.stack == [] && g.queue == [] && g.pending == [];
    assert forall u: Thread :: u != t ==> PcOf(st', u) == PcOf(st, u);
    assert Exclusive(st', g');
    assert Shape(st', g');
    assert Places(st', g');
  }

  /** The state after a compare-exchange that pushed the slot on top of the stack. */
  lemma PushedOnto(st: State, g: Lists, t: Thread, s: Slot, st': State, g': Lists)
    requires Inv(st, g) && PcOf(st, t) == Pushing(s) && st.next[s] == st.requests != Null
    requires st' == Goto(st.(requests := At(s)), t, Idle)
    requires g' == g.(stack := [s] + g.stack, role := g.role[s := OnStack])
    ensures Inv(st', g') && CritPc(st', g') == CritPc(st, g) && Reverse(g'.stack) == Reverse(g.stack) + [s]
  {
    assert s in g.role && g.role[s] == Pusher(t) && s !in g.stack;
    Cons(s, g.stack);
    assert forall u: Thread :: u != t ==> PcOf(st', u) == PcOf(st, u);
    assert PcOf(st', t) == Idle;
    assert CritPc(st', g') == CritPc(st, g);
    assert Exclusive(st', g');
    assert Shape(st', g');
    assert Places(st', g');
  }

  lemma PushOnto(st: State, g: Lists, t: Thread) returns (g': Lists)
    requires Inv(st, g) && PcOf(st, t).Pushing? && st.next[PcOf(st, t).s] == st.requests != Null
    ensures Refines(st, g, t, ContinueStep(st, t), g')
  {
    var s := PcOf(st, t).s;
    var st' := ContinueStep(st, t).0;
    g' := g.(stack := [s] + g.stack, role := g.role[s := OnStack]);
    PushedOnto(st, g, t, s, st', g');
    assert Due(st', g') == Due(st, g) + [s];
  }

  /** The exchange that captures the stack: of add_request when it won, of unlock when contended. */
  lemma Capture(st: State, g: Lists, t: Thread) returns (g': Lists)
    requires Inv(st, g) && (PcOf(st, t).Won? || PcOf(st, t).Contended?)
    ensures Refines(st, g, t, ContinueStep(st, t), g')
  {
    var (st', e) := ContinueStep(st, t);
    g' := g.(stack := [], pending := g.stack,
             role := map x | x in g.role :: if g.role[x] == OnStack then OnPending else g.role[x]);
    assert g.crit == Some(t) && g.pending == [];
    assert WinnerOf(CritPc(st', g')) == WinnerOf(CritPc(st, g));
    assert Exclusive(st', g');
    assert Shape(st', g');
    assert Places(st', g') by {
      assert forall u: Thread :: u != t ==> PcOf(st', u) == PcOf(st, u);
    }
    assert Due(st', g') == Due(st, g) by {
      assert g.queue == [];
      assert Reverse([]) == [];
    }
  }

  /** The links when make_queue has moved the slot `x` of the captured list to the queue. */
  lemma MovedLinks(st: State, g: Lists, x: Slot, to: Ptr, next': map<Slot, Ptr>)
    requires Inv(st, g) && CritPc(st, g) == Reversing(At(x), to) && g.pending != [] && g.pending[0] == x
    requires next' == st.next[x := st.queue]
    ensures Links(next', st.next[x], g.pending[1..], to)
    ensures Links(next', At(x), [x] + g.queue, Null)
    ensures Links(next', st.requests, g.stack, Doorman)
  {
    assert x in g.pending && g.role[x] == OnPending && x !in g.queue && x !in g.stack;
    Uncons(g.pending);
    Cons(x, g.queue);
    LinksFrame(st.next, next', st.next[x], g.pending[1..], to);
    LinksFrame(st.next, next', st.queue, g.queue, Null);
    LinksFrame(st.next, next', st.requests, g.stack, Doorman);
  }

  /** One turn of the loop in make_queue by `t`, which moves the slot `x` to the queue. */
  ghost predicate Moves(st: State, g: Lists, t: Thread, x: Slot, to: Ptr, st': State, g': Lists) {
    && PcOf(st, t) == Reversing(At(x), to) && g.crit == Some(t) && g.pending != [] && g.pending[0] == x && x in st.next
    && st' == Goto(st.(next := st.next[x := st.queue], queue := At(x)), t, Reversing(st.next[x], to))
    && g' == g.(queue := [x] + g.queue, pending := g.pending[1..], role := g.role[x := OnQueue])
  }

  lemma MovedShape(st: State, g: Lists, t: Thread, x: Slot, to: Ptr, st': State, g': Lists)
    requires Inv(st, g) && Moves(st, g, t, x, to, st', g')
    ensures Shape(st', g') && Exclusive(st', g')
  {
    assert CritPc(st, g) == Reversing(At(x), to);
    assert CritPc(st', g') == Reversing(st.next[x], to);
    assert x in g.pending && g.role[x] == OnPending && x !in g.queue;
    MovedLinks(st, g, x, to, st'.next);
    Uncons(g.pending);
    Cons(x, g.queue);
  }

  lemma MovedPlaces(st: State, g: Lists, t: Thread, x: Slot, to: Ptr, st': State, g': Lists)
    requires Places(st, g) && Distinct(g.pending) && Distinct(g.queue) && Moves(st, g, t, x, to, st', g')
    ensures Places(st', g')
  {
    assert g.role[x] == OnPending by {
      assert x in g.pending;
    }
    assert forall y: Slot :: y in g'.pending <==> y in g.pending && y != x by {
      Uncons(g.pending);
    }
    assert forall u: Thread :: PcOf(st', u) == PcOf(st, u) || (!PcOf(st, u).Pushing? && !PcOf(st', u).Pushing?);
    assert WinnerOf(CritPc(st', g')) == WinnerOf(CritPc(st, g));
    assert g'.role.Keys == st'.next.Keys;
  }

  lemma ReverseMoves(st: State, g: Lists, t: Thread) returns (g': Lists)
    requires Inv(st, g) && PcOf(st, t).Reversing? && PcOf(st, t).from != PcOf(st, t).to
    ensures Refines(st, g, t, ContinueStep(st, t), g')
  {
    var pc := PcOf(st, t);
    var st' := ContinueStep(st, t).0;
    assert g.crit == Some(t) && g.pending != [];
    var x := g.pending[0];
    g' := g.(queue := [x] + g.queue, pending := g.pending[1..], role := g.role[x := OnQueue]);
    assert x in g.pending;
    MovedShape(st, g, t, x, pc.to, st', g');
    MovedPlaces(st, g, t, x, pc.to, st', g');
    assert WinnerOf(CritPc(st', g')) == WinnerOf(pc);
    Uncons(g.pending);
    Shift(WinnerOf(pc), Reverse(g'.pending), x, g.queue, Reverse(g.stack));
  }

  lemma ReverseEnds(st: State, g: Lists, t: Thread) returns (g': Lists)
    requires Inv(st, g) && PcOf(st, t).Reversing? && PcOf(st, t).from == PcOf(st, t).to == Doorman
    ensures Refines(st, g, t, ContinueStep(st, t), g')
  {
    var st' := ContinueStep(st, t).0;
    g' := g;
    assert g.crit == Some(t) && g.pending == [];
    assert WinnerOf(CritPc(st', g')) == WinnerOf(CritPc(st, g)) == [];
    assert Exclusive(st', g');
    assert Shape(st', g');
    assert Places(st', g');
    assert Due(st', g') == Due(st, g);
  }

  /** Removing the memory of a slot that is on no list. */
  lemma Forget(st: State, g: Lists, s: Slot, next': map<Slot, Ptr>)
    requires Inv(st, g) && next' == st.next - {s}
    requires s !in g.stack
    ensures st.requests != Null ==> Links(next', st.requests, g.stack, Bottom(CritPc(st, g)))
    ensures s !in g.queue ==> Links(next', st.queue, g.queue, Null)
    ensures g.queue != [] && s == g.queue[0] ==> Links(next', st.next[s], g.queue[1..], Null)
  {
    if st.requests != Null {
      LinksFrame(st.next, next', st.requests, g.stack, Bottom(CritPc(st, g)));
    }
    if s !in g.queue {
      LinksFrame(st.next, next', st.queue, g.queue, Null);
    }
    if g.queue != [] && s == g.queue[0] {
      LinksFrame(st.next, next', st.next[s], g.queue[1..], Null);
    }
  }

  /** The places that are left when the slot `s` is resumed. */
  lemma Retire(st: State, g: Lists, t: Thread, s: Slot, st': State, g': Lists)
    requires Inv(st, g) && g.crit == Some(t) && s in g.role && !g.role[s].Pusher? && g.pending == []
    requires st'.next == st.next - {s} && st'.pcs == st.pcs[t := Idle]
    requires g' == g.(crit := None, role := g.role - {s}, queue := g'.queue)
    requires s !in g.stack && forall y: Slot :: y in g'.queue <==> y in g.queue && y != s
    requires WinnerOf(CritPc(st, g)) == [] || WinnerOf(CritPc(st, g)) == [s]
    ensures Places(st', g')
  {
    assert g'.role.Keys == st'.next.Keys;
    assert forall u: Thread :: PcOf(st', u).Pushing? ==> PcOf(st', u) == PcOf(st, u) && PcOf(st, u).s != s;
    assert WinnerOf(CritPc(st', g')) == [];
    assert forall y: Slot :: y in g'.role <==> y in g.role && y != s;
  }

  lemma WinnerResumes(st: State, g: Lists, t: Thread) returns (g': Lists)
    requires Inv(st, g) && PcOf(st, t).Reversing? && PcOf(st, t).from == PcOf(st, t).to && PcOf(st, t).to.At?
    ensures Refines(st, g, t, ContinueStep(st, t), g')
  {
    var w := PcOf(st, t).to.slot;
    var (st', e) := ContinueStep(st, t);
    assert g.crit == Some(t) && g.pending == [] by {
      assert w in WinnerOf(CritPc(st, g));
    }
    g' := g.(crit := None, role := g.role - {w});
    assert w in WinnerOf(CritPc(st, g)) && w in g.role && g.role[w] == Winner;
    assert w !in g.stack && w !in g.queue;
    assert Exclusive(st', g');
    assert Shape(st', g') by { Forget(st, g, w, st'.next); }
    assert Places(st', g') by { Retire(st, g, t, w, st', g'); }
    Serve(w, g.queue, Reverse(g.stack));
    assert Due(st, g) == [w] + Due(st', g');
  }

  lemma PopRefines(st: State, g: Lists, t: Thread) returns (g': Lists)
    requires Inv(st, g) && PcOf(st, t).Popping?
    ensures Refines(st, g, t, ContinueStep(st, t), g')
  {
    var (st', e) := ContinueStep(st, t);
    assert g.crit == Some(t);
    var f := g.queue[0];
    assert f in g.queue && f in g.role && g.role[f] == OnQueue && f !in g.stack;
    Uncons(g.queue);
    g' := g.(crit := None, queue := g.queue[1..], role := g.role - {f});
    assert Exclusive(st', g');
    assert Shape(st', g') by { Forget(st, g, f, st'.next); }
    assert Places(st', g') by { Retire(st, g, t, f, st', g'); }
    Serve(f, g'.queue, Reverse(g.stack));
    assert Due(st, g) == [f] + Due(st', g');
  }

  lemma UnlockRefines(st: State, g: Lists, t: Thread) returns (g': Lists)
    requires Inv(st, g) && PcOf(st, t).Unlocking?
    ensures Refines(st, g, t, ContinueStep(st, t), g')
  {
    var (st', e) := ContinueStep(st, t);
    assert g.crit == Some(t);
    g' := if st'.requests == Null then g.(crit := None) else g;
    if st.queue == Null {
      assert g.queue == [];
      assert st.requests == Doorman <==> g.stack == [];
    }
    assert WinnerOf(CritPc(st', g')) == WinnerOf(CritPc(st, g)) == [];
    assert Exclusive(st', g');
    assert Shape(st', g');
    assert Places(st', g');
    assert Due(st', g') == Due(st, g);
  }

  lemma TryLockRefines(st: State, g: Lists, l: Label) returns (g': Lists)
    requires Inv(st, g) && PcOf(st, l.t).Idle? && l.a.TryLock?
    ensures Refines(st, g, l.t, Next(st, l), g')
  {
    g' := g;
  }

  /** The state after thread `t` enters add_request with the slot `s`. */
  lemma Requested(st: State, g: Lists, t: Thread, s: Slot, st': State, g': Lists)
    requires Inv(st, g) && PcOf(st, t).Idle? && s !in st.next
    requires st' == Goto(st.(next := st.next[s := Null]), t, Pushing(s)) && g' == g.(role := g.role[s := Pusher(t)])
    ensures Inv(st', g') && CritPc(st', g') == CritPc(st, g)
  {
    assert s !in g.role;
    assert forall u: Thread :: u != t ==> PcOf(st', u) == PcOf(st, u);
    assert PcOf(st', t) == Pushing(s);
    assert g.crit != Some(t);
    assert CritPc(st', g') == CritPc(st, g);
    assert Exclusive(st', g');
    assert Shape(st', g') by {
      OffLists(st, g, s, st'.next);
    }
    assert Places(st', g');
  }

  lemma RequestRefines(st: State, g: Lists, l: Label) returns (g': Lists)
    requires Inv(st, g) && PcOf(st, l.t).Idle? && l.a.Request?
    ensures Refines(st, g, l.t, Next(st, l), g')
  {
    var s := l.a.s;
    g' := g;
    if s !in st.next {
      var st' := Next(st, l).0;
      g' := g.(role := g.role[s := Pusher(l.t)]);
      Requested(st, g, l.t, s, st', g');
      assert Due(st', g') == Due(st, g);
    }
  }

  /** The state after thread `t` enters unlock, the one ownership gone. */
  lemma UnlockEntered(st: State, g: Lists, t: Thread, st': State, g': Lists)
    requires Inv(st, g) && PcOf(st, t).Idle? && st.owners != []
    requires st' == Goto(st.(owners := []), t, Unlocking) && g' == g.(crit := Some(t))
    ensures Inv(st', g') && WinnerOf(CritPc(st', g')) == WinnerOf(CritPc(st, g)) == []
  {
    assert forall u: Thread :: u != t ==> PcOf(st', u) == PcOf(st, u);
    assert PcOf(st', t) == Unlocking;
    assert g.crit == None;
    assert Exclusive(st', g');
    assert Shape(st', g');
    assert Places(st', g');
  }

  lemma UnlockStarts(st: State, g: Lists, l: Label) returns (g': Lists)
    requires Inv(st, g) && PcOf(st, l.t).Idle? && l.a.Unlock?
    ensures Refines(st, g, l.t, Next(st, l), g')
  {
    g' := g;
    if l.a.i < |st.owners| {
      var st' := Next(st, l).0;
      g' := g.(crit := Some(l.t));
      assert st'.owners == [];
      UnlockEntered(st, g, l.t, st', g');
      assert Due(st', g') == Due(st, g);
    }
  }

  /** The simulation, step by step: from a state that satisfies the invariant every step of every
      thread keeps it and is a step of the FIFO lock on the waiting line. `Fault` is not one. */
  lemma StepRefines(st: State, g: Lists, l: Label) returns (g': Lists)
    requires Inv(st, g)
    ensures Refines(st, g, l.t, Next(st, l), g')
  {
    var t := l.t;
    match PcOf(st, t)
    case Idle =>
      match l.a {
        case TryLock => g' := TryLockRefines(st, g, l);
        case Request(s) => g' := RequestRefines(st, g, l);
        case Unlock(i) => g' := UnlockStarts(st, g, l);
        case Continue => g' := g;
      }
    case Pushing(s) =>
      assert s in st.next;
      if st.next[s] != st.requests {
        g' := PushRetry(st, g, t);
      } else if st.requests == Null {
        g' := PushWin(st, g, t);
      } else {
        g' := PushOnto(st, g, t);
      }
    case Won(_) => g' := Capture(st, g, t);
    case Contended => g' := Capture(st, g, t);
    case Unlocking => g' := UnlockRefines(st, g, t);
    case Popping => g' := PopRefines(st, g, t);
    case Reversing(from, to) =>
      if from != to {
        g' := ReverseMoves(st, g, t);
      } else if to.At? {
        g' := WinnerResumes(st, g, t);
      } else {
        g' := ReverseEnds(st, g, t);
      }
  }
}
