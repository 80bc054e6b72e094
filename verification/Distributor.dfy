/** distributor (coro_distributor.h:12-188): coroutines register to receive the next broadcast.

    A registration stands for one result object, so its number is never used twice. What a broadcast,
    a kick_out or an alert resolves becomes a prepared coroutine that is resumed at some later time;
    while it runs it may register again, like anyone else.

    kick_out calls its resolver between the search and the removal, holding a position of the vector
    (lines 111-121). A resolver that drops a prepared coroutine resumes it there and then, and with the
    default lock, which does not lock, that coroutine may do anything to the same object. So kick_out is
    two steps here, and any steps may lie between. The same goes for the broadcast that resumes the
    coroutines itself, while it clears the vector of them (lines 90-93). The main results say in which
    runs that goes well. */
module DistributorModel {
  import opened Options
  import opened Sequences

  type Reg = nat
  type Ident = nat

  /** An entry whose result has been moved out holds none. */
  datatype Entry = Entry(r: Option<Reg>, i: Ident)

  datatype How = Broadcasted(v: nat) | KickedOut | Alerted

  /** A kick_out that has called its resolver: the position it holds, and whether that is still valid,
      as far as std::vector says so. */
  datatype Kick = Kick(k: nat, valid: bool)

  datatype State = State(
    results: seq<Entry>,         // `_results`
    cap: nat,                    // its capacity
    kicks: seq<Kick>,            // the calls of kick_out under way, the innermost last
    ready: Option<seq<Reg>>,     // `_ready_to_run` while it is being cleared: what is still to be resumed
    prepared: multiset<Reg>,     // resolved, not yet resumed
    kept: multiset<Reg>,         // handed over to a resolver that has not used the result yet
    flags: set<Ident>,           // the alert flags that are set
    known: set<Reg>)

  const INIT := State([], 0, [], None, multiset{}, multiset{}, {}, {})

  datatype Label =
    | AddListener(r: Reg, i: Ident, grow: nat)        // `grow`: how much a reallocation over-allocates
    | AddAlertable(r: Reg, flag: Ident, grow: nat)
    | Broadcast(v: nat)                // into a buffer of the caller
    | BroadcastRun(v: nat)             // into `_ready_to_run`, which is then cleared
    | ClearNext                        // the next step of that
    | KickBegin(i: Ident, keeps: bool) // up to the resolver, which uses the result at once, or keeps it
    | KickEnd                          // the innermost kick_out goes on: swap with the last, pop_back
    | UseKept(r: Reg)                  // a result that was kept is used, or dropped
    | Alert(flag: Ident)
    | ResetFlag(flag: Ident)
    | Resume(r: Reg)

  datatype Event =
    | Accepted(r: Reg)
    | Rejected(r: Reg)           // the flag is set: the result object is destroyed, which resumes at once
    | Resolved(r: Reg, how: How)
    | HandedOver(r: Reg)
    | Resumed(r: Reg)
    | Dropped(r: Reg)            // pop_back destroyed a registration that nobody kicked out
    | Fault                      // an invalid position, or a push onto a vector that is being cleared

  /** std::find_if: the first entry under `i`, or the end. */
  function Find(s: seq<Entry>, i: Ident): (k: nat)
    ensures k <= |s| && (k < |s| ==> s[k].i == i) && forall j :: 0 <= j < k ==> s[j].i != i
  {
    if s == [] || s[0].i == i then 0 else 1 + Find(s[1..], i)
  }

  /** Swap with the last element, then pop_back. */
  function SwapRemove(s: seq<Entry>, k: nat): seq<Entry>
    requires k < |s|
  {
    var last := |s| - 1;
    if k == last then s[..last] else s[k := s[last]][last := s[k]][..last]
  }

  /** The registrations in the list, in order. */
  function LiveRegs(s: seq<Entry>): seq<Reg> {
    if s == [] then [] else (if s[0].r.Some? then [s[0].r.value] else []) + LiveRegs(s[1..])
  }

  function Deliveries(s: seq<Entry>, v: nat): seq<Event> {
    if s == [] then []
    else (if s[0].r.Some? then [Resolved(s[0].r.value, Broadcasted(v))] else []) + Deliveries(s[1..], v)
  }

  /** Positions from `n` on are no longer valid. */
  function Invalidate(kicks: seq<Kick>, n: nat): seq<Kick> {
    seq(|kicks|, j requires 0 <= j < |kicks| => kicks[j].(valid := kicks[j].valid && kicks[j].k < n))
  }

  /** push_back, which reallocates when the vector is full. */
  function Append(st: State, e: Entry, grow: nat): State {
    var st' := st.(results := st.results + [e]);
    if |st.results| < st.cap then st'
    else st'.(cap := |st.results| + 1 + grow, kicks := Invalidate(st.kicks, 0))
  }

  function Clear(st: State): State {
    st.(results := [], kicks := Invalidate(st.kicks, 0))
  }

  function RemoveAt(st: State, k: nat): State
    requires k < |st.results|
  {
    st.(results := SwapRemove(st.results, k), kicks := Invalidate(st.kicks, |st.results| - 1))
  }

  function Add(st: State, r: Reg, i: Ident, grow: nat): (State, seq<Event>) {
    (Append(st, Entry(Some(r), i), grow).(known := st.known + {r}), [Accepted(r)])
  }

  function KickBeginStep(st: State, i: Ident, keeps: bool): (State, seq<Event>) {
    var k := Find(st.results, i);
    if k == |st.results| then (st, [])
    else
      var st' := st.(results := st.results[k := Entry(None, i)], kicks := st.kicks + [Kick(k, true)]);
      match st.results[k].r
      case None => (st', [])
      case Some(r) =>
        if keeps then (st'.(kept := st.kept + multiset{r}), [HandedOver(r)])
        else (st'.(prepared := st.prepared + multiset{r}), [Resolved(r, KickedOut)])
  }

  function KickEndStep(st: State): (State, seq<Event>)
    requires st.kicks != []
  {
    var kick := st.kicks[|st.kicks| - 1];
    var st1 := st.(kicks := st.kicks[..|st.kicks| - 1]);
    if !kick.valid || kick.k >= |st.results| then (st1, [Fault])
    else
      match st.results[kick.k].r
      case None => (RemoveAt(st1, kick.k), [])
      case Some(r) => (RemoveAt(st1, kick.k).(prepared := st.prepared + multiset{r}), [Dropped(r)])
  }

  function AlertStep(st: State, flag: Ident): (State, seq<Event>) {
    var st' := st.(flags := st.flags + {flag});
    var k := Find(st.results, flag);
    if k == |st.results| then (st', [])
    else
      match st.results[k].r
      case None => (RemoveAt(st', k), [])
      case Some(r) => (RemoveAt(st', k).(prepared := st.prepared + multiset{r}), [Resolved(r, Alerted)])
  }

  function Next(st: State, l: Label): (State, seq<Event>) {
    match l
    case AddListener(r, i, grow) => if r in st.known then (st, []) else Add(st, r, i, grow)
    case AddAlertable(r, flag, grow) =>
      if r in st.known then (st, [])
      else if flag in st.flags then (st.(known := st.known + {r}), [Rejected(r)])
      else Add(st, r, flag, grow)
    case Broadcast(v) =>
      (Clear(st).(prepared := st.prepared + multiset(LiveRegs(st.results))), Deliveries(st.results, v))
    case BroadcastRun(v) =>
      if st.ready.Some? then (st, [Fault])
      else (Clear(st).(ready := Some(LiveRegs(st.results))), Deliveries(st.results, v))
    case ClearNext =>
      if st.ready == None then (st, [])
      else if st.ready.value == [] then (st.(ready := None), [])
      else (st.(ready := Some(st.ready.value[1..])), [Resumed(st.ready.value[0])])
    case KickBegin(i, keeps) => KickBeginStep(st, i, keeps)
    case KickEnd => if st.kicks == [] then (st, []) else KickEndStep(st)
    case UseKept(r) =>
      if r !in st.kept then (st, [])
      else (st.(kept := st.kept - multiset{r}, prepared := st.prepared + multiset{r}), [Resolved(r, KickedOut)])
    case Alert(flag) => AlertStep(st, flag)
    case ResetFlag(flag) => (st.(flags := st.flags - {flag}), [])
    case Resume(r) => if r in st.prepared then (st.(prepared := st.prepared - multiset{r}), [Resumed(r)]) else (st, [])
  }

  function Exec(st: State, ls: seq<Label>): (State, seq<Event>)
    decreases |ls|
  {
    if ls == [] then (st, [])
    else
      var (st1, es) := Next(st, ls[0]);
      var (st2, rest) := Exec(st1, ls[1..]);
      (st2, es + rest)
  }

  // ---------- Counting entries ----------

  datatype Kind = Under(i: Ident) | Holds(r: Reg) | Emptied

  predicate Is(e: Entry, kind: Kind) {
    match kind
    case Under(i) => e.i == i
    case Holds(r) => e.r == Some(r)
    case Emptied => e.r == None
  }

  function Count(s: seq<Entry>, kind: Kind): nat {
    if s == [] then 0 else Bit(Is(s[0], kind)) + Count(s[1..], kind)
  }

  lemma {:induction false} CountConcat(s: seq<Entry>, t: seq<Entry>, kind: Kind)
    ensures Count(s + t, kind) == Count(s, kind) + Count(t, kind)
  {
    if s == [] {
      assert s + t == t;
    } else {
      assert (s + t)[0] == s[0] && (s + t)[1..] == s[1..] + t;
      CountConcat(s[1..], t, kind);
    }
  }

  lemma CountAppend(s: seq<Entry>, e: Entry, kind: Kind)
    ensures Count(s + [e], kind) == Count(s, kind) + Bit(Is(e, kind))
  {
    CountConcat(s, [e], kind);
  }

  lemma CountUpdate(s: seq<Entry>, k: nat, e: Entry, kind: Kind)
    requires k < |s|
    ensures Count(s[k := e], kind) == Count(s, kind) - Bit(Is(s[k], kind)) + Bit(Is(e, kind))
  {
    assert s == s[..k] + ([s[k]] + s[k + 1..]) && s[k := e] == s[..k] + ([e] + s[k + 1..]);
    CountConcat(s[..k], [s[k]] + s[k + 1..], kind);
    CountConcat(s[..k], [e] + s[k + 1..], kind);
    CountConcat([s[k]], s[k + 1..], kind);
    CountConcat([e], s[k + 1..], kind);
  }

  lemma CountRemove(s: seq<Entry>, k: nat, kind: Kind)
    requires k < |s|
    ensures Count(SwapRemove(s, k), kind) == Count(s, kind) - Bit(Is(s[k], kind))
  {
    var last := s[|s| - 1];
    CountUpdate(s, k, last, kind);
    LastMoves(s, k);
    CountAppend(SwapRemove(s, k), last, kind);
  }

  lemma LastMoves(s: seq<Entry>, k: nat)
    requires k < |s|
    ensures s[k := s[|s| - 1]] == SwapRemove(s, k) + [s[|s| - 1]]
  {}

  /** Swap-removal takes out exactly the entry found, keeps every other one, and moves none but the last. */
  lemma SwapRemoveKeeps(s: seq<Entry>, k: nat)
    requires k < |s|
    ensures multiset(SwapRemove(s, k)) + multiset{s[k]} == multiset(s)
    ensures |SwapRemove(s, k)| == |s| - 1
    ensures forall j :: 0 <= j < |s| - 1 ==> SwapRemove(s, k)[j] == if j == k then s[|s| - 1] else s[j]
  {
    assert SwapRemove(s, k) == s[k := s[|s| - 1]][..|s| - 1];
    FillHole(s, k);
  }

  lemma {:induction false} FindsIt(s: seq<Entry>, i: Ident)
    ensures Find(s, i) == |s| <==> Count(s, Under(i)) == 0
  {
    if s != [] {
      FindsIt(s[1..], i);
    }
  }

  // ---------- Counting events ----------

  function AcceptedCount(es: seq<Event>, r: Reg): nat {
    if es == [] then 0 else Bit(es[0] == Accepted(r)) + AcceptedCount(es[1..], r)
  }

  function ResolvedCount(es: seq<Event>, r: Reg): nat {
    if es == [] then 0 else Bit(es[0].Resolved? && es[0].r == r) + ResolvedCount(es[1..], r)
  }

  function ResumedCount(es: seq<Event>, r: Reg): nat {
    if es == [] then 0 else Bit(es[0] == Resumed(r)) + ResumedCount(es[1..], r)
  }

  lemma {:induction false} EventsConcat(es: seq<Event>, fs: seq<Event>, r: Reg)
    ensures AcceptedCount(es + fs, r) == AcceptedCount(es, r) + AcceptedCount(fs, r)
    ensures ResolvedCount(es + fs, r) == ResolvedCount(es, r) + ResolvedCount(fs, r)
    ensures ResumedCount(es + fs, r) == ResumedCount(es, r) + ResumedCount(fs, r)
  {
    if es == [] {
      assert es + fs == fs;
    } else {
      assert (es + fs)[0] == es[0] && (es + fs)[1..] == es[1..] + fs;
      EventsConcat(es[1..], fs, r);
    }
  }

  lemma OneEvent(e: Event, r: Reg)
    ensures AcceptedCount([e], r) == Bit(e == Accepted(r)) && ResumedCount([e], r) == Bit(e == Resumed(r))
    ensures ResolvedCount([e], r) == Bit(e.Resolved? && e.r == r)
  {}

  lemma HeadCount(s: seq<Reg>, r: Reg)
    requires s != []
    ensures multiset(s)[r] == Bit(s[0] == r) + multiset(s[1..])[r]
  {
    Head(s);
  }

  /** A broadcast resolves every registration in the list, as often as it is there, and nothing else. */
  lemma {:induction false} DeliveriesCount(s: seq<Entry>, v: nat, r: Reg)
    ensures AcceptedCount(Deliveries(s, v), r) == ResumedCount(Deliveries(s, v), r) == 0
    ensures ResolvedCount(Deliveries(s, v), r) == Count(s, Holds(r)) == multiset(LiveRegs(s))[r]
  {
    if s != [] {
      DeliveriesCount(s[1..], v, r);
      if s[0].r.Some? {
        var d := [Resolved(s[0].r.value, Broadcasted(v))];
        assert Deliveries(s, v) == d + Deliveries(s[1..], v);
        EventsConcat(d, Deliveries(s[1..], v), r);
        OneEvent(d[0], r);
        HeadCount(LiveRegs(s), r);
        assert LiveRegs(s)[1..] == LiveRegs(s[1..]);
      } else {
        assert Deliveries(s, v) == Deliveries(s[1..], v) && LiveRegs(s) == LiveRegs(s[1..]);
      }
    }
  }

  // ---------- What goes well ----------

  /** Nothing invalid is done, and nobody is dropped. */
  ghost predicate ProperEvents(es: seq<Event>) {
    forall e :: e in es ==> !e.Fault? && !e.Dropped?
  }

  ghost predicate Proper(st: State, ls: seq<Label>)
    decreases |ls|
  {
    ls != [] ==> ProperEvents(Next(st, ls[0]).1) && Proper(Next(st, ls[0]).0, ls[1..])
  }

  /** A registration that would be accepted, by a vector that is full. */
  predicate Reallocates(st: State, l: Label) {
    && |st.results| >= st.cap
    && ((l.AddListener? && l.r !in st.known) || (l.AddAlertable? && l.r !in st.known && l.flag !in st.flags))
  }

  /** One of the calls of kick_out holds the last position. */
  ghost predicate HoldsLast(kicks: seq<Kick>, size: nat) {
    exists j: nat :: j < |kicks| && kicks[j].k == size - 1
  }

  /** While a kick_out is between its search and its removal: a reallocation, a clear, a search that
      comes upon the emptied entry, or another removal while it holds the last position. And a second
      broadcast while one clears `_ready_to_run`. */
  ghost predicate Disturbs(st: State, l: Label) {
    || (l.BroadcastRun? && st.ready.Some?)
    || (st.kicks != [] &&
        match l
        case AddListener(_, _, _) => Reallocates(st, l)
        case AddAlertable(_, _, _) => Reallocates(st, l)
        case Broadcast(_) => true
        case BroadcastRun(_) => true
        case KickBegin(i, _) => FindsEmptied(st, i)
        case Alert(flag) =>
          FindsEmptied(st, flag) || (Find(st.results, flag) < |st.results| && HoldsLast(st.kicks, |st.results|))
        case KickEnd => HoldsLast(st.kicks[..|st.kicks| - 1], |st.results|)
        case _ => false)
  }

  predicate FindsEmptied(st: State, i: Ident) {
    var k := Find(st.results, i);
    k < |st.results| && st.results[k].r == None
  }

  ghost predicate Undisturbed(st: State, ls: seq<Label>)
    decreases |ls|
  {
    ls != [] ==> !Disturbs(st, ls[0]) && Undisturbed(Next(st, ls[0]).0, ls[1..])
  }

  // ---------- The invariant of undisturbed runs ----------

  /** How often a registration waits for its result: in the list, or with a resolver. */
  function Open(st: State, r: Reg): nat {
    Count(st.results, Holds(r)) + st.kept[r]
  }

  /** How often it has its result and is not yet resumed. */
  function Waiting(st: State, r: Reg): nat {
    st.prepared[r] + (if st.ready.Some? then multiset(st.ready.value)[r] else 0)
  }

  /** The position is that of an emptied entry. */
  predicate Placed(st: State, kick: Kick) {
    kick.valid && kick.k < |st.results| && st.results[kick.k].r == None
  }

  /** Every kick_out under way holds an emptied entry of its own, and there are no others. */
  ghost predicate Places(st: State) {
    && (forall j: nat :: j < |st.kicks| ==> Placed(st, st.kicks[j]))
    && (forall i: nat, j: nat :: i < j < |st.kicks| ==> st.kicks[i].k != st.kicks[j].k)
    && Count(st.results, Emptied) == |st.kicks|
  }

  /** No registration waits twice, and only known ones do. */
  ghost predicate Inv(st: State) {
    Places(st) && forall r: Reg :: Open(st, r) <= Bit(r in st.known)
  }

  /** What a step does to the accounts of the registration `r`. */
  ghost predicate Accounts(st: State, step: (State, seq<Event>), r: Reg) {
    var (st', es) := step;
    && Open(st, r) + AcceptedCount(es, r) == ResolvedCount(es, r) + Open(st', r)
    && Waiting(st, r) + ResolvedCount(es, r) == ResumedCount(es, r) + Waiting(st', r)
    && AcceptedCount(es, r) <= Bit(r in st'.known) - Bit(r in st.known)
  }

  ghost predicate AllAccounts(st: State, step: (State, seq<Event>)) {
    && (forall r: Reg :: Accounts(st, step, r))
    && st.known <= step.0.known
  }

  lemma AppendPlaces(st: State, e: Entry, grow: nat)
    requires Places(st) && e.r.Some? && (st.kicks == [] || |st.results| < st.cap)
    ensures Places(Append(st, e, grow))
  {
    CountAppend(st.results, e, Emptied);
  }

  lemma AddAccounts(st: State, q: Reg, i: Ident, grow: nat)
    requires Inv(st) && q !in st.known && (st.kicks == [] || |st.results| < st.cap)
    ensures Places(Add(st, q, i, grow).0) && ProperEvents(Add(st, q, i, grow).1) && AllAccounts(st, Add(st, q, i, grow))
  {
    AppendPlaces(st, Entry(Some(q), i), grow);
    forall r: Reg
      ensures Accounts(st, Add(st, q, i, grow), r)
    {
      CountAppend(st.results, Entry(Some(q), i), Holds(r));
      OneEvent(Accepted(q), r);
    }
  }

  lemma {:induction false} DeliveriesProper(s: seq<Entry>, v: nat)
    ensures forall e :: e in Deliveries(s, v) ==> e.Resolved?
  {
    if s != [] {
      DeliveriesProper(s[1..], v);
    }
  }

  lemma BroadcastAccount(st: State, l: Label, r: Reg)
    requires st.kicks == [] && (l.Broadcast? || (l.BroadcastRun? && st.ready == None))
    ensures Accounts(st, Next(st, l), r)
  {
    DeliveriesCount(st.results, l.v, r);
    var st' := Next(st, l).0;
    assert Count(st'.results, Holds(r)) == 0;
    assert Waiting(st', r) == Waiting(st, r) + multiset(LiveRegs(st.results))[r];
  }

  lemma BroadcastAccounts(st: State, l: Label)
    requires Inv(st) && st.kicks == [] && (l.Broadcast? || (l.BroadcastRun? && st.ready == None))
    ensures Places(Next(st, l).0) && ProperEvents(Next(st, l).1) && AllAccounts(st, Next(st, l))
  {
    DeliveriesProper(st.results, l.v);
    forall r: Reg
      ensures Accounts(st, Next(st, l), r)
    {
      BroadcastAccount(st, l, r);
    }
  }

  /** Emptying the entry `k`, which was not empty, for a new kick_out. */
  lemma BeginPlaces(st: State, k: nat, i: Ident)
    requires Places(st) && k < |st.results| && st.results[k].r.Some?
    ensures Places(st.(results := st.results[k := Entry(None, i)], kicks := st.kicks + [Kick(k, true)]))
  {
    CountUpdate(st.results, k, Entry(None, i), Emptied);
    assert forall j: nat :: j < |st.kicks| ==> Placed(st, st.kicks[j]);
  }

  lemma KickBeginAccounts(st: State, i: Ident, keeps: bool)
    requires Inv(st) && !FindsEmptied(st, i)
    ensures var step := KickBeginStep(st, i, keeps); Places(step.0) && ProperEvents(step.1) && AllAccounts(st, step)
  {
    var k := Find(st.results, i);
    if k < |st.results| {
      var q := st.results[k].r.value;
      BeginPlaces(st, k, i);
      assert Places(KickBeginStep(st, i, keeps).0);
      forall r: Reg
        ensures Accounts(st, KickBeginStep(st, i, keeps), r)
      {
        CountUpdate(st.results, k, Entry(None, i), Holds(r));
        OneEvent(if keeps then HandedOver(q) else Resolved(q, KickedOut), r);
      }
    }
  }

  /** Removing an entry that no kick_out holds, when none holds the last one. */
  lemma RemovePlaces(st: State, k: nat)
    requires k < |st.results| && !HoldsLast(st.kicks, |st.results|)
    requires forall j: nat :: j < |st.kicks| ==> Placed(st, st.kicks[j]) && st.kicks[j].k != k
    requires forall i: nat, j: nat :: i < j < |st.kicks| ==> st.kicks[i].k != st.kicks[j].k
    requires Count(st.results, Emptied) == |st.kicks| + Bit(st.results[k].r == None)
    ensures Places(RemoveAt(st, k))
  {
    SwapRemoveKeeps(st.results, k);
    CountRemove(st.results, k, Emptied);
    var st' := RemoveAt(st, k);
    forall j: nat | j < |st'.kicks|
      ensures Placed(st', st'.kicks[j])
    {
      assert Placed(st, st.kicks[j]) && st.kicks[j].k != |st.results| - 1;
    }
  }

  lemma RemoveCounts(st: State, k: nat, r: Reg)
    requires k < |st.results|
    ensures Count(RemoveAt(st, k).results, Holds(r)) == Count(st.results, Holds(r)) - Bit(st.results[k].r == Some(r))
  {
    CountRemove(st.results, k, Holds(r));
  }

  lemma KickEndAccounts(st: State)
    requires Inv(st) && st.kicks != [] && !Disturbs(st, KickEnd)
    ensures var step := KickEndStep(st); Places(step.0) && step.1 == [] && AllAccounts(st, step)
  {
    var n := |st.kicks| - 1;
    var kick := st.kicks[n];
    assert Placed(st, kick);
    var st1 := st.(kicks := st.kicks[..n]);
    forall j: nat | j < |st1.kicks|
      ensures Placed(st1, st1.kicks[j]) && st1.kicks[j].k != kick.k
    {
      assert Placed(st, st.kicks[j]);
    }
    RemovePlaces(st1, kick.k);
    forall r: Reg
      ensures Accounts(st, KickEndStep(st), r)
    {
      RemoveCounts(st1, kick.k, r);
    }
  }

  lemma AlertAccounts(st: State, flag: Ident)
    requires Inv(st) && !Disturbs(st, Alert(flag))
    ensures var step := AlertStep(st, flag); ProperEvents(step.1) && AllAccounts(st, step)
    ensures Places(AlertStep(st, flag).0)
  {
    var k := Find(st.results, flag);
    if k < |st.results| {
      if st.results[k].r == None {
        NobodyEmptied(st, k);
        assert false;
      }
      var q := st.results[k].r.value;
      RemovePlaces(st.(flags := st.flags + {flag}), k);
      forall r: Reg
        ensures Accounts(st, AlertStep(st, flag), r)
      {
        RemoveCounts(st, k, r);
        OneEvent(Resolved(q, Alerted), r);
      }
    }
  }

  /** An entry is emptied only while a kick_out is under way. */
  lemma NobodyEmptied(st: State, k: nat)
    requires Inv(st) && k < |st.results| && st.results[k].r == None
    ensures st.kicks != []
  {
    CountUpdate(st.results, k, Entry(Some(0), 0), Emptied);
  }

  lemma KeptAccounts(st: State, q: Reg)
    requires Inv(st)
    ensures ProperEvents(Next(st, UseKept(q)).1) && AllAccounts(st, Next(st, UseKept(q)))
  {
    forall r: Reg
      ensures Accounts(st, Next(st, UseKept(q)), r)
    {
      OneEvent(Resolved(q, KickedOut), r);
    }
  }

  lemma ResumeAccounts(st: State, l: Label)
    requires Inv(st) && (l.Resume? || l.ClearNext?)
    ensures ProperEvents(Next(st, l).1) && AllAccounts(st, Next(st, l))
  {
    forall r: Reg
      ensures Accounts(st, Next(st, l), r)
    {
      if l.Resume? {
        OneEvent(Resumed(l.r), r);
      } else if st.ready.Some? && st.ready.value != [] {
        OneEvent(Resumed(st.ready.value[0]), r);
        HeadCount(st.ready.value, r);
      }
    }
  }

  lemma RejectAccounts(st: State, q: Reg, flag: Ident, grow: nat)
    requires Inv(st) && q !in st.known && flag in st.flags
    ensures var step := Next(st, AddAlertable(q, flag, grow)); ProperEvents(step.1) && AllAccounts(st, step)
  {
    forall r: Reg
      ensures Accounts(st, Next(st, AddAlertable(q, flag, grow)), r)
    {
      OneEvent(Rejected(q), r);
    }
  }

  lemma StepPlaces(st: State, l: Label)
    requires Inv(st) && !Disturbs(st, l)
    ensures Places(Next(st, l).0) && ProperEvents(Next(st, l).1) && AllAccounts(st, Next(st, l))
  {
    match l
    case AddListener(q, i, grow) =>
      if q !in st.known {
        AddAccounts(st, q, i, grow);
      }
    case AddAlertable(q, flag, grow) =>
      if q !in st.known {
        if flag in st.flags {
          RejectAccounts(st, q, flag, grow);
        } else {
          AddAccounts(st, q, flag, grow);
        }
      }
    case Broadcast(_) => BroadcastAccounts(st, l);
    case BroadcastRun(_) => BroadcastAccounts(st, l);
    case ClearNext => ResumeAccounts(st, l);
    case Resume(_) => ResumeAccounts(st, l);
    case KickBegin(i, keeps) => KickBeginKeeps(st, i, keeps);
    case KickEnd =>
      if st.kicks != [] {
        KickEndAccounts(st);
      }
    case UseKept(q) => KeptAccounts(st, q);
    case Alert(flag) => AlertAccounts(st, flag);
    case ResetFlag(_) =>
  }

  lemma KickBeginKeeps(st: State, i: Ident, keeps: bool)
    requires Inv(st) && !Disturbs(st, KickBegin(i, keeps))
    ensures var step := KickBeginStep(st, i, keeps); Places(step.0) && ProperEvents(step.1) && AllAccounts(st, step)
  {
    if FindsEmptied(st, i) {
      NobodyEmptied(st, Find(st.results, i));
      assert false;
    }
    KickBeginAccounts(st, i, keeps);
  }

  lemma StepKeepsInv(st: State, l: Label)
    requires Inv(st) && !Disturbs(st, l)
    ensures Inv(Next(st, l).0) && ProperEvents(Next(st, l).1) && AllAccounts(st, Next(st, l))
  {
    StepPlaces(st, l);
    forall r: Reg
      ensures Open(Next(st, l).0, r) <= Bit(r in Next(st, l).0.known)
    {
      assert Accounts(st, Next(st, l), r);
    }
  }

  // ---------- Whole runs ----------

  lemma {:induction false} RunAccounts(st: State, ls: seq<Label>, r: Reg)
    requires Inv(st) && Undisturbed(st, ls)
    ensures Inv(Exec(st, ls).0) && Proper(st, ls) && Accounts(st, Exec(st, ls), r)
    decreases |ls|
  {
    if ls != [] {
      var (st1, es) := Next(st, ls[0]);
      StepKeepsInv(st, ls[0]);
      assert Accounts(st, Next(st, ls[0]), r);
      RunAccounts(st1, ls[1..], r);
      EventsConcat(es, Exec(st1, ls[1..]).1, r);
    }
  }

  lemma InitHolds()
    ensures Inv(INIT)
  {}

  /** Over every undisturbed run, re-registrations of resumed coroutines included: an accepted
      registration was accepted once, and is either resolved, exactly once, or still registered, or in
      the hands of the resolver it was handed over to; and what is resolved is resumed once, or still
      to be. */
  lemma ResolvedExactlyOnce(ls: seq<Label>, r: Reg)
    requires Undisturbed(INIT, ls)
    ensures var (st, es) := Exec(INIT, ls);
            && AcceptedCount(es, r) == ResolvedCount(es, r) + Count(st.results, Holds(r)) + st.kept[r] <= 1
            && ResolvedCount(es, r) == ResumedCount(es, r) + Waiting(st, r)
  {
    InitHolds();
    var st: State :| st == INIT;
    RunAccounts(st, ls, r);
  }

  /** The next broadcast leaves nobody behind: a registered coroutine that is not removed before it is
      delivered that very value, and in any case is resolved exactly once up to and with it, or handed
      over to a resolver that still has it. */
  lemma NextBroadcastDelivers(ls: seq<Label>, more: seq<Label>, v: nat, r: Reg)
    requires Undisturbed(INIT, ls) && Undisturbed(Exec(INIT, ls).0, more)
    requires !Disturbs(Exec(Exec(INIT, ls).0, more).0, Broadcast(v))
    ensures var st := Exec(INIT, ls).0; var (st1, es) := Exec(st, more); var (st2, fs) := Next(st1, Broadcast(v));
            && st2.results == []
            && (Count(st.results, Holds(r)) == 1 ==>
                  && ResolvedCount(es, r) + ResolvedCount(fs, r) + st2.kept[r] == 1
                  && (ResolvedCount(es, r) == 0 && r !in st1.kept ==> Resolved(r, Broadcasted(v)) in fs))
  {
    RunAccounts(INIT, ls, r);
    var st := Exec(INIT, ls).0;
    RunAccounts(st, more, r);
    var st1 := Exec(st, more).0;
    DeliveriesCount(st1.results, v, r);
    if Count(st1.results, Holds(r)) > 0 {
      DeliveredValue(st1.results, v, r);
    }
  }

  lemma {:induction false} DeliveredValue(s: seq<Entry>, v: nat, r: Reg)
    requires Count(s, Holds(r)) > 0
    ensures Resolved(r, Broadcasted(v)) in Deliveries(s, v)
  {
    if s[0].r != Some(r) {
      DeliveredValue(s[1..], v, r);
    }
  }

  // ---------- What each operation does ----------

  /** A registration that is accepted is registered, as the last; one that the flag turns away is not. */
  lemma Registers(st: State, r: Reg, i: Ident, grow: nat)
    requires r !in st.known
    ensures var (st', es) := Next(st, AddListener(r, i, grow));
            && es == [Accepted(r)] && st'.results == st.results + [Entry(Some(r), i)]
            && st' == st.(results := st'.results, cap := st'.cap, kicks := st'.kicks, known := st.known + {r})
            && (|st.results| < st.cap ==> st'.cap == st.cap && st'.kicks == st.kicks)
            && (|st.results| >= st.cap ==> st'.cap > |st.results| && forall kick :: kick in st'.kicks ==> !kick.valid)
    ensures if i in st.flags then Next(st, AddAlertable(r, i, grow)) == (st.(known := st.known + {r}), [Rejected(r)])
            else Next(st, AddAlertable(r, i, grow)) == Next(st, AddListener(r, i, grow))
  {}

  lemma {:induction false} LiveRegsConcat(s: seq<Entry>, t: seq<Entry>)
    ensures LiveRegs(s + t) == LiveRegs(s) + LiveRegs(t)
    decreases |s|
  {
    if s == [] {
      assert s + t == t;
    } else {
      assert (s + t)[0] == s[0] && (s + t)[1..] == s[1..] + t;
      LiveRegsConcat(s[1..], t);
      Associative(if s[0].r.Some? then [s[0].r.value] else [], LiveRegs(s[1..]), LiveRegs(t));
    }
  }

  /** The registrations come in the order of the list: a later one is behind all earlier ones. */
  lemma LiveRegsInOrder(s: seq<Entry>, r: Reg, i: Ident)
    ensures LiveRegs([]) == []
    ensures LiveRegs(s + [Entry(Some(r), i)]) == LiveRegs(s) + [r]
    ensures LiveRegs(s + [Entry(None, i)]) == LiveRegs(s)
  {
    LiveRegsConcat(s, [Entry(Some(r), i)]);
    LiveRegsConcat(s, [Entry(None, i)]);
    assert [Entry(Some(r), i)][1..] == [] && [Entry(None, i)][1..] == [];
  }

  lemma {:induction false} DeliveriesInOrder(s: seq<Entry>, v: nat)
    ensures |Deliveries(s, v)| == |LiveRegs(s)|
    ensures forall k :: 0 <= k < |LiveRegs(s)| ==> Deliveries(s, v)[k] == Resolved(LiveRegs(s)[k], Broadcasted(v))
  {
    if s != [] {
      DeliveriesInOrder(s[1..], v);
    }
  }

  /** A broadcast delivers to every registration, in order, and leaves none; it hands their coroutines to the
      caller, or resumes them itself, in order too. */
  lemma BroadcastDeliversInOrder(st: State, v: nat)
    ensures var (st', es) := Next(st, Broadcast(v));
            && st'.results == [] && st'.prepared == st.prepared + multiset(LiveRegs(st.results))
            && |es| == |LiveRegs(st.results)|
            && (forall k :: 0 <= k < |es| ==> es[k] == Resolved(LiveRegs(st.results)[k], Broadcasted(v)))
            && st' == st.(results := [], prepared := st'.prepared, kicks := st'.kicks)
            && |st'.kicks| == |st.kicks| && forall kick :: kick in st'.kicks ==> !kick.valid
    ensures st.ready == None ==>
              var (st', es) := Next(st, BroadcastRun(v));
              && st'.results == [] && es == Next(st, Broadcast(v)).1 && st'.kicks == Next(st, Broadcast(v)).0.kicks
              && st' == st.(results := [], ready := Some(LiveRegs(st.results)), kicks := st'.kicks)
    ensures st.ready.Some? ==>
              Next(st, BroadcastRun(v)).1 == [Fault]
              && Next(st, ClearNext) ==
                   if st.ready.value == [] then (st.(ready := None), [])
                   else (st.(ready := Some(st.ready.value[1..])), [Resumed(st.ready.value[0])])
  {
    DeliveriesInOrder(st.results, v);
  }

  /** kick_out hands the first result under the identity out, and then takes the entry it emptied out of the
      list, keeping all others. */
  lemma KicksOutTheFirst(st: State, i: Ident, keeps: bool)
    requires Inv(st) && !Disturbs(st, KickBegin(i, keeps))
    ensures var k := Find(st.results, i); var (st', es) := Next(st, KickBegin(i, keeps));
            if Count(st.results, Under(i)) == 0 then st' == st && es == []
            else
              && k < |st.results| && st.results[k].i == i && (forall j :: 0 <= j < k ==> st.results[j].i != i)
              && st.results[k].r.Some? && st'.results == st.results[k := Entry(None, i)]
              && st'.kicks == st.kicks + [Kick(k, true)] && st'.known == st.known && st'.flags == st.flags
              && (if keeps then es == [HandedOver(st.results[k].r.value)]
                                && st'.kept == st.kept + multiset{st.results[k].r.value}
                  else es == [Resolved(st.results[k].r.value, KickedOut)]
                       && st'.prepared == st.prepared + multiset{st.results[k].r.value})
  {
    FindsIt(st.results, i);
    if FindsEmptied(st, i) {
      NobodyEmptied(st, Find(st.results, i));
      assert false;
    }
  }

  lemma KickEndRemovesIt(st: State)
    requires Inv(st) && st.kicks != [] && !Disturbs(st, KickEnd)
    ensures var k := st.kicks[|st.kicks| - 1].k; var (st', es) := Next(st, KickEnd);
            && es == [] && k < |st.results| && st.results[k].r == None
            && multiset(st'.results) + multiset{st.results[k]} == multiset(st.results)
            && (forall j :: 0 <= j < |st.results| - 1 ==>
                  st'.results[j] == if j == k then st.results[|st.results| - 1] else st.results[j])
            && st' == st.(results := st'.results, kicks := st'.kicks) && |st'.kicks| == |st.kicks| - 1
  {
    assert Placed(st, st.kicks[|st.kicks| - 1]);
    SwapRemoveKeeps(st.results, st.kicks[|st.kicks| - 1].k);
  }

  /** An alert sets the flag and takes the first registration under it out, which goes on without value. */
  lemma AlertTakesTheFirst(st: State, flag: Ident)
    requires Inv(st) && !Disturbs(st, Alert(flag))
    ensures var k := Find(st.results, flag); var (st', es) := Next(st, Alert(flag));
            && st'.flags == st.flags + {flag} && st'.known == st.known && st'.kept == st.kept
            && (if Count(st.results, Under(flag)) == 0 then st'.results == st.results && es == []
                else
                  && k < |st.results| && st.results[k].r.Some? && es == [Resolved(st.results[k].r.value, Alerted)]
                  && multiset(st'.results) + multiset{st.results[k]} == multiset(st.results)
                  && st'.prepared == st.prepared + multiset{st.results[k].r.value})
  {
    FindsIt(st.results, flag);
    var k := Find(st.results, flag);
    if k < |st.results| {
      if st.results[k].r == None {
        NobodyEmptied(st, k);
        assert false;
      }
      SwapRemoveKeeps(st.results, k);
    }
  }

  /** A result that was kept is used once; what is prepared is resumed once; a reset clears the flag. */
  lemma UsesAndResumes(st: State, r: Reg)
    ensures r in st.kept ==>
              Next(st, UseKept(r)) == (st.(kept := st.kept - multiset{r}, prepared := st.prepared + multiset{r}),
                                       [Resolved(r, KickedOut)])
    ensures r in st.prepared ==> Next(st, Resume(r)) == (st.(prepared := st.prepared - multiset{r}), [Resumed(r)])
    ensures Next(st, ResetFlag(r)) == (st.(flags := st.flags - {r}), [])
  {}

  /** Whether the last alert or reset of the flag in the run was an alert. */
  function LastWasAlert(ls: seq<Label>, flag: Ident, before: bool): bool {
    if ls == [] then before
    else
      var now := if ls[0] == Alert(flag) then true else if ls[0] == ResetFlag(flag) then false else before;
      LastWasAlert(ls[1..], flag, now)
  }

  /** A flag is set exactly from an alert of it until it is reset. */
  lemma {:induction false} FlagIsLastAlert(st: State, ls: seq<Label>, flag: Ident)
    ensures flag in Exec(st, ls).0.flags <==> LastWasAlert(ls, flag, flag in st.flags)
    decreases |ls|
  {
    if ls != [] {
      FlagStep(st, ls[0], flag);
      FlagIsLastAlert(Next(st, ls[0]).0, ls[1..], flag);
    }
  }

  lemma FlagStep(st: State, l: Label, flag: Ident)
    ensures flag in Next(st, l).0.flags <==>
              if l == Alert(flag) then true else if l == ResetFlag(flag) then false else flag in st.flags
  {}

  /** The event is about the registration `r`. */
  predicate Concerns(e: Event, r: Reg) {
    !e.Fault? && e.r == r
  }

  lemma StillRegistered(st: State, l: Label, r: Reg)
    requires Inv(st) && !Disturbs(st, l) && Count(st.results, Holds(r)) == 1 && st.kept[r] == 0
    requires forall e :: e in Next(st, l).1 ==> !Concerns(e, r)
    ensures Count(Next(st, l).0.results, Holds(r)) == 1 && Next(st, l).0.kept[r] == 0
  {
    var (st', es) := Next(st, l);
    StepKeepsInv(st, l);
    assert Accounts(st, Next(st, l), r);
    NoneConcerned(es, r);
    KeptFromEvents(st, l, r);
  }

  lemma KeptFromEvents(st: State, l: Label, r: Reg)
    ensures Next(st, l).0.kept[r] > st.kept[r] ==> HandedOver(r) in Next(st, l).1
  {
    if l.KickBegin? {
      var k := Find(st.results, l.i);
      if k < |st.results| && st.results[k].r == Some(r) && l.keeps {
        assert Next(st, l).1 == [HandedOver(r)];
      }
    }
  }

  lemma {:induction false} NoneConcerned(es: seq<Event>, r: Reg)
    requires forall e :: e in es ==> !Concerns(e, r)
    ensures ResolvedCount(es, r) == AcceptedCount(es, r) == 0 && HandedOver(r) !in es
  {
    if es != [] {
      assert es[0] in es;
      assert forall e :: e in es[1..] ==> e in es;
      NoneConcerned(es[1..], r);
    }
  }

  lemma {:induction false} RemainsRegistered(st: State, ls: seq<Label>, r: Reg)
    requires Inv(st) && Undisturbed(st, ls) && Count(st.results, Holds(r)) == 1 && st.kept[r] == 0
    requires forall e :: e in Exec(st, ls).1 ==> !Concerns(e, r)
    ensures Inv(Exec(st, ls).0) && Count(Exec(st, ls).0.results, Holds(r)) == 1
    decreases |ls|
  {
    if ls != [] {
      var (st1, es) := Next(st, ls[0]);
      var rest := Exec(st1, ls[1..]).1;
      assert Exec(st, ls).1 == es + rest;
      assert forall e :: e in es ==> e in es + rest;
      assert forall e :: e in rest ==> e in es + rest;
      StepKeepsInv(st, ls[0]);
      StillRegistered(st, ls[0], r);
      RemainsRegistered(st1, ls[1..], r);
    }
  }

  /** From the registration to the delivery: a coroutine that registers afresh, with the flag unset if it
      gives one, and is not heard of in the undisturbed stretch after it, gets the value of the broadcast
      that ends the stretch. */
  lemma RegisteredIsDelivered(ls: seq<Label>, l: Label, more: seq<Label>, v: nat)
    requires Undisturbed(INIT, ls) && (l.AddListener? || l.AddAlertable?)
    requires var st := Exec(INIT, ls).0;
             l.r !in st.known && !Disturbs(st, l) && (l.AddAlertable? ==> l.flag !in st.flags)
    requires var st1 := Next(Exec(INIT, ls).0, l).0;
             && Undisturbed(st1, more) && !Disturbs(Exec(st1, more).0, Broadcast(v))
             && forall e :: e in Exec(st1, more).1 ==> !Concerns(e, l.r)
    ensures Resolved(l.r, Broadcasted(v)) in Next(Exec(Next(Exec(INIT, ls).0, l).0, more).0, Broadcast(v)).1
  {
    var st, r := Exec(INIT, ls).0, l.r;
    RunAccounts(INIT, ls, r);
    Registers(st, r, if l.AddListener? then l.i else l.flag, l.grow);
    var st1 := Next(st, l).0;
    CountAppend(st.results, Entry(Some(r), if l.AddListener? then l.i else l.flag), Holds(r));
    StepKeepsInv(st, l);
    assert Open(st, r) == 0;
    RemainsRegistered(st1, more, r);
    DeliveredValue(Exec(st1, more).0.results, v, r);
  }

  // ---------- ... and only then ----------

  /** Some kick_out under way holds an invalid position, or there are too few emptied entries for all. */
  ghost predicate Doomed(st: State) {
    (exists j: nat :: j < |st.kicks| && !st.kicks[j].valid) || Count(st.results, Emptied) < |st.kicks|
  }

  lemma FewerEmptied(st: State, k: nat)
    requires k < |st.results|
    ensures Count(RemoveAt(st, k).results, Emptied) == Count(st.results, Emptied) - Bit(st.results[k].r == None)
  {
    CountRemove(st.results, k, Emptied);
  }

  lemma InvalidStays(kicks: seq<Kick>, n: nat, j: nat)
    requires j < |kicks| && (!kicks[j].valid || kicks[j].k >= n)
    ensures |Invalidate(kicks, n)| == |kicks| && !Invalidate(kicks, n)[j].valid
  {}

  /** The positions that are left, none of them more valid than before. */
  lemma DoomedStill(st: State, st': State, n: nat)
    requires Doomed(st) && (st'.kicks == st.kicks || st'.kicks == Invalidate(st.kicks, n))
    requires Count(st'.results, Emptied) <= Count(st.results, Emptied)
    ensures Doomed(st')
  {
    if j: nat :| j < |st.kicks| && !st.kicks[j].valid {
      InvalidStays(st.kicks, n, j);
    }
  }

  /** When the removal of a kick_out goes well, in itself. */
  lemma EndIsProper(st: State)
    requires st.kicks != []
    ensures ProperEvents(KickEndStep(st).1) <==> Placed(st, st.kicks[|st.kicks| - 1])
  {
    var kick := st.kicks[|st.kicks| - 1];
    var es := KickEndStep(st).1;
    if !kick.valid || kick.k >= |st.results| {
      assert es == [Fault] && es[0] in es;
    } else if st.results[kick.k].r.Some? {
      assert es == [Dropped(st.results[kick.k].r.value)] && es[0] in es;
    }
  }

  lemma SecondRunFaults(st: State, v: nat)
    ensures st.ready.Some? ==> !ProperEvents(Next(st, BroadcastRun(v)).1)
  {
    if st.ready.Some? {
      assert Next(st, BroadcastRun(v)).1 == [Fault];
      assert Fault in Next(st, BroadcastRun(v)).1;
    }
  }

  /** What is doomed stays so until something improper happens. */
  lemma DoomedStays(st: State, l: Label)
    requires Doomed(st) && ProperEvents(Next(st, l).1)
    ensures Doomed(Next(st, l).0)
  {
    var st' := Next(st, l).0;
    match l
    case AddListener(r, i, grow) =>
      CountAppend(st.results, Entry(Some(r), i), Emptied);
      DoomedStill(st, st', 0);
    case AddAlertable(r, i, grow) =>
      CountAppend(st.results, Entry(Some(r), i), Emptied);
      DoomedStill(st, st', 0);
    case Broadcast(_) => DoomedStill(st, st', 0);
    case BroadcastRun(_) => DoomedStill(st, st', 0);
    case KickBegin(i, keeps) => DoomedBegin(st, i, keeps);
    case KickEnd =>
      if st.kicks != [] {
        DoomedEnd(st);
      }
    case Alert(flag) =>
      var k := Find(st.results, flag);
      if k < |st.results| {
        FewerEmptied(st, k);
        DoomedStill(st, st', |st.results| - 1);
      }
    case _ =>
  }

  lemma DoomedBegin(st: State, i: Ident, keeps: bool)
    requires Doomed(st)
    ensures Doomed(KickBeginStep(st, i, keeps).0)
  {
    var k := Find(st.results, i);
    if k < |st.results| {
      CountUpdate(st.results, k, Entry(None, i), Emptied);
      var st' := KickBeginStep(st, i, keeps).0;
      assert forall j: nat :: j < |st.kicks| ==> st'.kicks[j] == st.kicks[j];
    }
  }

  lemma DoomedEnd(st: State)
    requires Doomed(st) && st.kicks != [] && ProperEvents(KickEndStep(st).1)
    ensures Doomed(KickEndStep(st).0)
  {
    var n := |st.kicks| - 1;
    EndIsProper(st);
    var st1 := st.(kicks := st.kicks[..n]);
    FewerEmptied(st1, st.kicks[n].k);
    if j: nat :| j < |st.kicks| && !st.kicks[j].valid {
      InvalidStays(st1.kicks, |st.results| - 1, j);
    }
  }

  /** A disturbance is improper itself, or dooms a kick_out under way. */
  lemma DisturbanceDooms(st: State, l: Label)
    requires Inv(st) && Disturbs(st, l) && ProperEvents(Next(st, l).1)
    ensures Doomed(Next(st, l).0)
  {
    var st' := Next(st, l).0;
    match l
    case AddListener(_, _, _) => InvalidStays(st.kicks, 0, 0);
    case AddAlertable(_, _, _) => InvalidStays(st.kicks, 0, 0);
    case Broadcast(_) => InvalidStays(st.kicks, 0, 0);
    case BroadcastRun(_) =>
      SecondRunFaults(st, l.v);
      InvalidStays(st.kicks, 0, 0);
    case KickBegin(i, _) => CountUpdate(st.results, Find(st.results, i), Entry(None, i), Emptied);
    case Alert(flag) => AlertDooms(st, flag);
    case KickEnd => KickEndDooms(st);
  }

  lemma AlertDooms(st: State, flag: Ident)
    requires Inv(st) && Disturbs(st, Alert(flag))
    ensures Doomed(AlertStep(st, flag).0)
  {
    var k := Find(st.results, flag);
    FewerEmptied(st.(flags := st.flags + {flag}), k);
    if HoldsLast(st.kicks, |st.results|) {
      var j: nat :| j < |st.kicks| && st.kicks[j].k == |st.results| - 1;
      InvalidStays(st.kicks, |st.results| - 1, j);
    }
  }

  lemma KickEndDooms(st: State)
    requires Inv(st) && st.kicks != [] && Disturbs(st, KickEnd)
    ensures Doomed(KickEndStep(st).0)
  {
    var n := |st.kicks| - 1;
    assert Placed(st, st.kicks[n]);
    var kicks := st.kicks[..n];
    var j: nat :| j < |kicks| && kicks[j].k == |st.results| - 1;
    InvalidStays(kicks, |st.results| - 1, j);
  }

  lemma {:induction false} DoomedRun(st: State, ls: seq<Label>)
    requires Doomed(st) && Proper(st, ls)
    ensures Exec(st, ls).0.kicks != []
    decreases |ls|
  {
    if ls != [] {
      DoomedStays(st, ls[0]);
      DoomedRun(Next(st, ls[0]).0, ls[1..]);
    }
  }

  lemma {:induction false} DisturbedFrom(st: State, ls: seq<Label>)
    requires Inv(st) && Exec(st, ls).0.kicks == []
    ensures Proper(st, ls) <==> Undisturbed(st, ls)
    decreases |ls|
  {
    if ls != [] {
      if Disturbs(st, ls[0]) {
        if Proper(st, ls) {
          DisturbanceDooms(st, ls[0]);
          DoomedRun(Next(st, ls[0]).0, ls[1..]);
        }
      } else {
        StepKeepsInv(st, ls[0]);
        DisturbedFrom(Next(st, ls[0]).0, ls[1..]);
      }
    }
  }

  /** The exact condition. A run after which every kick_out has returned does nothing invalid, and drops
      no registration that nobody kicked out, if and only if, while a kick_out was between its search and
      its removal, `_results` was not reallocated or cleared, no search came upon the emptied entry, and
      no other removal found it in the last position; and no broadcast began to fill `_ready_to_run`
      while another cleared it. */
  lemma DeliveryExactly(ls: seq<Label>)
    requires Exec(INIT, ls).0.kicks == []
    ensures Proper(INIT, ls) <==> Undisturbed(INIT, ls)
  {
    DisturbedFrom(INIT, ls);
  }

  /** Nothing happens while a kick_out is under way, as with a lock that excludes, or with a resolver that
      resumes nobody; and one thread at a time broadcasts through `_ready_to_run`. */
  ghost predicate Atomic(st: State, ls: seq<Label>)
    decreases |ls|
  {
    ls != [] ==>
      && (st.kicks != [] ==> ls[0] == KickEnd && |st.kicks| == 1)
      && (st.ready.Some? ==> !ls[0].BroadcastRun?)
      && Atomic(Next(st, ls[0]).0, ls[1..])
  }

  /** Then every run is undisturbed. */
  lemma {:induction false} AtomicIsUndisturbed(st: State, ls: seq<Label>)
    requires Atomic(st, ls)
    ensures Undisturbed(st, ls)
    decreases |ls|
  {
    if ls != [] {
      AtomicIsUndisturbed(Next(st, ls[0]).0, ls[1..]);
    }
  }

  const REREGISTERS: seq<Label> := [AddListener(0, 7, 0), KickBegin(7, false), Resume(0), AddListener(1, 7, 0), KickEnd]

  /** One listener that registers again when it is kicked out, and a resolver that resumes it: the new
      registration reallocates, and kick_out goes on with a position of the old vector. */
  lemma ReregistrationFaults() returns (ls: seq<Label>)
    ensures ls == REREGISTERS && Fault in Exec(INIT, ls).1 && Exec(INIT, ls).0.kicks == []
  {
    var i: nat :| i == 0;
    ls := REREGISTERS[i..];
    var st1 := Next(INIT, ls[0]).0;
    var st2 := Next(st1, ls[1]).0;
    var st3 := Next(st2, ls[2]).0;
    var st4 := Next(st3, ls[3]).0;
    var st5 := Next(st4, ls[4]).0;
    assert st1.results == [Entry(Some(0), 7)] && st1.cap == 1;
    assert st2.kicks == [Kick(0, true)] && |st2.results| == 1;
    assert st4.kicks == [Kick(0, false)];
    assert Next(st4, ls[4]).1 == [Fault] && st5.kicks == [];
    assert ls[1..][1..][1..][1..][1..] == [];
    assert Exec(st4, ls[1..][1..][1..][1..]) == (st5, [Fault] + []);
    assert Fault in Exec(st3, ls[1..][1..][1..]).1;
    assert Fault in Exec(st2, ls[1..][1..]).1;
    assert Fault in Exec(st1, ls[1..]).1;
  }

  const REBROADCASTS: seq<Label> := [AddListener(0, 7, 0), BroadcastRun(1), ClearNext, BroadcastRun(2)]

  /** A coroutine that is resumed from the clearing of `_ready_to_run` and broadcasts the same way. */
  lemma RebroadcastFaults() returns (ls: seq<Label>)
    ensures ls == REBROADCASTS && Fault in Exec(INIT, ls).1 && Exec(INIT, ls).0.kicks == []
  {
    var i: nat :| i == 0;
    ls := REBROADCASTS[i..];
    var st1 := Next(INIT, ls[0]).0;
    var st2 := Next(st1, ls[1]).0;
    var st3 := Next(st2, ls[2]).0;
    assert st1.results == [Entry(Some(0), 7)] && st1.ready == None && st1.kicks == [];
    assert LiveRegs(st1.results) == [0] && st2.ready == Some([0]) && st3.ready == Some([]);
    assert Next(st3, ls[3]) == (st3, [Fault]) && st3.kicks == [];
    assert ls[1..][1..][1..][1..] == [];
    assert Exec(st3, ls[1..][1..][1..]) == (st3, [Fault] + []);
    assert Fault in Exec(st2, ls[1..][1..]).1;
    assert Fault in Exec(st1, ls[1..]).1;
  }

  const KICKS_TWICE: seq<Label> := [AddListener(0, 7, 5), AddListener(1, 8, 0), KickBegin(7, false),
                                    KickBegin(7, false), KickEnd, KickEnd]

  /** No reallocation is needed: when the same identity is kicked out again from inside, the second call
      finds the emptied entry and removes it, and the first one then removes what has taken its place, a
      registration under another identity. */
  lemma SecondKickDropsAnother() returns (ls: seq<Label>)
    ensures ls == KICKS_TWICE && Dropped(1) in Exec(INIT, ls).1 && Exec(INIT, ls).0.kicks == []
  {
    var i: nat :| i == 0;
    ls := KICKS_TWICE[i..];
    assert INIT == TwiceState(i);
    TwiceFrom(i);
  }

  lemma {:induction false} TwiceFrom(i: nat)
    requires i <= 6
    ensures Exec(TwiceState(i), KICKS_TWICE[i..]).0 == TwiceState(6)
    ensures i < 6 ==> Dropped(1) in Exec(TwiceState(i), KICKS_TWICE[i..]).1
    decreases 6 - i
  {
    if i < 6 {
      TwiceStep(i);
      assert KICKS_TWICE[i..][1..] == KICKS_TWICE[i + 1..];
      TwiceFrom(i + 1);
    }
  }

  lemma TwiceStep(i: nat)
    requires i < 6
    ensures Next(TwiceState(i), KICKS_TWICE[i]).0 == TwiceState(i + 1)
    ensures i == 5 ==> Dropped(1) in Next(TwiceState(i), KICKS_TWICE[i]).1
  {
    if i < 2 {
      TwiceRegisters(i);
    } else if i == 2 {
      TwiceBeginsOutside();
    } else if i == 3 {
      TwiceBeginsInside();
    } else if i == 4 {
      TwiceEndsInside();
    } else {
      TwiceEndsOutside();
    }
  }

  lemma TwiceRegisters(i: nat)
    requires i < 2
    ensures Next(TwiceState(i), KICKS_TWICE[i]).0 == TwiceState(i + 1)
  {
    assert Invalidate([], 0) == [];
    assert [Entry(Some(0), 7)] + [Entry(Some(1), 8)] == [Entry(Some(0), 7), Entry(Some(1), 8)];
  }

  lemma TwiceBeginsOutside()
    ensures Next(TwiceState(2), KICKS_TWICE[2]).0 == TwiceState(3)
  {
    var st := TwiceState(2);
    assert Find(st.results, 7) == 0;
    assert st.results[0 := Entry(None, 7)] == [Entry(None, 7), Entry(Some(1), 8)];
    assert [] + [Kick(0, true)] == [Kick(0, true)];
    assert multiset{} + multiset{0} == multiset{0};
  }

  lemma TwiceBeginsInside()
    ensures Next(TwiceState(3), KICKS_TWICE[3]).0 == TwiceState(4)
  {
    var st := TwiceState(3);
    assert Find(st.results, 7) == 0;
    assert st.results[0 := Entry(None, 7)] == [Entry(None, 7), Entry(Some(1), 8)];
    assert [Kick(0, true)] + [Kick(0, true)] == [Kick(0, true), Kick(0, true)];
  }

  lemma TwiceEndsInside()
    ensures Next(TwiceState(4), KICKS_TWICE[4]).0 == TwiceState(5)
  {
    var st := TwiceState(4);
    assert st.kicks[..1] == [Kick(0, true)];
    assert SwapRemove(st.results, 0) == [Entry(Some(1), 8)];
    assert Invalidate([Kick(0, true)], 1) == [Kick(0, true)];
  }

  lemma TwiceEndsOutside()
    ensures Next(TwiceState(5), KICKS_TWICE[5]).0 == TwiceState(6)
    ensures Dropped(1) in Next(TwiceState(5), KICKS_TWICE[5]).1
  {
    var st := TwiceState(5);
    assert st.kicks[..0] == [];
    assert SwapRemove(st.results, 0) == [];
    assert Invalidate([], 0) == [];
    assert multiset{0} + multiset{1} == multiset{0, 1};
  }

  /** The states of that run. */
  function TwiceState(i: nat): State {
    var s := if i == 0 then [] else if i == 1 then [Entry(Some(0), 7)]
             else if i == 2 then [Entry(Some(0), 7), Entry(Some(1), 8)]
             else if i < 5 then [Entry(None, 7), Entry(Some(1), 8)] else if i == 5 then [Entry(Some(1), 8)] else [];
    var kicks := if i < 3 || i > 5 then [] else if i == 4 then [Kick(0, true), Kick(0, true)] else [Kick(0, true)];
    State(s, if i == 0 then 0 else 6, kicks, None,
          if i < 3 then multiset{} else if i < 6 then multiset{0} else multiset{0, 1}, multiset{}, {},
          if i == 0 then {} else if i == 1 then {0} else {0, 1})
  }

  // ---------- Alerts ----------

  /** The flag is set and at most `n` coroutines are registered under it. */
  ghost predicate Alarmed(st: State, flag: Ident, n: nat) {
    flag in st.flags && Count(st.results, Under(flag)) <= n
  }

  lemma StepKeepsAlarm(st: State, l: Label, flag: Ident, n: nat)
    requires Alarmed(st, flag, n) && l != ResetFlag(flag) && (l.AddListener? ==> l.i != flag)
    ensures Alarmed(Next(st, l).0, flag, n)
    ensures l.AddAlertable? && l.flag == flag ==> Accepted(l.r) !in Next(st, l).1
  {
    match l
    case AddListener(r, i, _) => CountAppend(st.results, Entry(Some(r), i), Under(flag));
    case AddAlertable(r, i, _) => CountAppend(st.results, Entry(Some(r), i), Under(flag));
    case KickBegin(i, _) =>
      var k := Find(st.results, i);
      if k < |st.results| {
        CountUpdate(st.results, k, Entry(None, i), Under(flag));
      }
    case KickEnd =>
      if st.kicks != [] {
        var kick := st.kicks[|st.kicks| - 1];
        if kick.valid && kick.k < |st.results| {
          CountRemove(st.results, kick.k, Under(flag));
        }
      }
    case Alert(i) =>
      var k := Find(st.results, i);
      if k < |st.results| {
        CountRemove(st.results, k, Under(flag));
      }
    case _ =>
  }

  lemma {:induction false} RunKeepsAlarm(st: State, ls: seq<Label>, flag: Ident, n: nat)
    requires Alarmed(st, flag, n)
    requires forall k :: 0 <= k < |ls| ==> ls[k] != ResetFlag(flag) && (ls[k].AddListener? ==> ls[k].i != flag)
    ensures Alarmed(Exec(st, ls).0, flag, n)
    decreases |ls|
  {
    if ls != [] {
      StepKeepsAlarm(st, ls[0], flag, n);
      RunKeepsAlarm(Next(st, ls[0]).0, ls[1..], flag, n);
    }
  }

  /** From an alert on, until the flag is reset, no alertable registration under it is accepted: its
      result is dropped at once. The alert itself takes one registration under the flag out, so a
      coroutine that alone uses the flag is not registered until the reset. (Only alertable
      registrations use the address of the flag as identity.) */
  lemma AlertTurnsAway(st: State, ls: seq<Label>, flag: Ident, r: Reg, grow: nat)
    requires forall k :: 0 <= k < |ls| ==> ls[k] != ResetFlag(flag) && (ls[k].AddListener? ==> ls[k].i != flag)
    ensures var st' := Exec(Next(st, Alert(flag)).0, ls).0; var (st2, es) := Next(st', AddAlertable(r, flag, grow));
            var n := Count(st.results, Under(flag));
            && Count(st'.results, Under(flag)) <= (if n == 0 then 0 else n - 1)
            && (n <= 1 ==> Find(st'.results, flag) == |st'.results|)
            && st2.results == st'.results && (r !in st'.known ==> es == [Rejected(r)])
  {
    var n := Count(st.results, Under(flag));
    var k := Find(st.results, flag);
    FindsIt(st.results, flag);
    if k < |st.results| {
      CountRemove(st.results, k, Under(flag));
    }
    RunKeepsAlarm(Next(st, Alert(flag)).0, ls, flag, if n == 0 then 0 else n - 1);
    FindsIt(Exec(Next(st, Alert(flag)).0, ls).0.results, flag);
  }

  // ---------- The class ----------

  lemma ExecCons(st: State, l: Label, rest: seq<Label>, st1: State, es: seq<Event>)
    requires Next(st, l) == (st1, es)
    ensures Exec(st, [l] + rest) == (Exec(st1, rest).0, es + Exec(st1, rest).1)
  {
    assert ([l] + rest)[0] == l && ([l] + rest)[1..] == rest;
  }

  lemma {:induction false} ExecSnoc(st: State, ls: seq<Label>, l: Label, st1: State, es: seq<Event>,
                                    st2: State, fs: seq<Event>)
    requires Exec(st, ls) == (st1, es) && Next(st1, l) == (st2, fs)
    ensures Exec(st, ls + [l]) == (st2, es + fs)
    decreases |ls|
  {
    if ls == [] {
      ExecCons(st, l, [], st2, fs);
      assert Exec(st2, []) == (st2, []);
      assert ls + [l] == [l] + [] && fs + [] == fs && es + fs == fs;
    } else {
      var (sa, ea) := Next(st, ls[0]);
      var rest := ls[1..];
      var eb := Exec(sa, rest).1;
      ExecSnoc(sa, rest, l, st1, eb, st2, fs);
      ExecCons(st, ls[0], rest + [l], sa, ea);
      assert ls + [l] == [ls[0]] + (rest + [l]);
      Associative(ea, eb, fs);
    }
  }

  lemma EndShrinks(st: State)
    requires st.kicks != []
    ensures |Next(st, KickEnd).0.kicks| == |st.kicks| - 1
  {}

  lemma NoFaultAtEnd(es: seq<Event>, fs: seq<Event>)
    ensures ProperEvents(es + fs) ==> fs != [Fault]
  {
    if fs == [Fault] {
      assert (es + fs)[|es|] == Fault;
    }
  }

  /** What calls made inside a kick_out leave alone: the positions held further out, if not their validity. */
  ghost predicate Within(outer: seq<Kick>, kicks: seq<Kick>) {
    |outer| <= |kicks| && forall j: nat :: j < |outer| ==> kicks[j].k == outer[j].k
  }

  lemma StaysWithin(outer: seq<Kick>, st: State, l: Label)
    requires Within(outer, st.kicks) && (l.KickEnd? ==> |st.kicks| > |outer|)
    ensures Within(outer, Next(st, l).0.kicks)
  {}

  class Distributor {
    var results: seq<Entry>
    var flags: set<Ident>

    // Not fields of the source, but what is known of the vectors and of the calls and registrations
    // under way, and what others do at the points where they are resumed.
    var cap: nat
    var kicks: seq<Kick>
    var ready: Option<seq<Reg>>
    var prepared: multiset<Reg>
    var kept: multiset<Reg>
    var known: set<Reg>
    var script: seq<Label>

    function View(): State
      reads this
    {
      State(results, cap, kicks, ready, prepared, kept, flags, known)
    }

    constructor (script0: seq<Label>)
      ensures View() == INIT && script == script0
    {
      results, flags, cap, kicks, ready := [], {}, 0, [], None;
      prepared, kept, known, script := multiset{}, multiset{}, {}, script0;
    }

    /** push_back; `grow` is by how much the vector over-allocates when it is full. */
    method PushBack(e: Entry, grow: nat)
      modifies `results, `cap, `kicks
      ensures View() == Append(old(View()), e, grow) && results == old(results) + [e]
    {
      if |results| >= cap {
        cap, kicks := |results| + 1 + grow, Invalidate(kicks, 0);
      }
      results := results + [e];
    }

    method AddListener(r: Reg, i: Ident, grow: nat)
      requires r !in known
      modifies this
      ensures View() == Next(old(View()), Label.AddListener(r, i, grow)).0
      ensures results == old(results) + [Entry(Some(r), i)] && known == old(known) + {r} && flags == old(flags)
    {
      PushBack(Entry(Some(r), i), grow);
      known := known + {r};
    }

    method AddAlertable(r: Reg, flag: Ident, grow: nat) returns (accepted: bool)
      requires r !in known
      modifies this
      ensures View() == Next(old(View()), Label.AddAlertable(r, flag, grow)).0 && accepted == (flag !in old(flags))
      ensures results == old(results) + (if accepted then [Entry(Some(r), flag)] else [])
      ensures known == old(known) + {r} && flags == old(flags)
    {
      accepted := flag !in flags;
      if accepted {
        PushBack(Entry(Some(r), flag), grow);
      }
      known := known + {r};
    }

    /** Resolves every registration with `v`; `buffer` receives the prepared coroutines in order. */
    method ResolveAll() returns (buffer: seq<Reg>)
      modifies `results, `kicks
      ensures View() == Clear(old(View())) && buffer == LiveRegs(old(results)) && results == []
    {
      buffer := [];
      for k := 0 to |results|
        invariant View() == old(View())
        invariant LiveRegs(results) == buffer + LiveRegs(results[k..])
      {
        assert results[k..][1..] == results[k + 1..];
        if results[k].r.Some? {
          Associative(buffer, [results[k].r.value], LiveRegs(results[k + 1..]));
          buffer := buffer + [results[k].r.value];
        }
      }
      assert buffer + [] == buffer;
      results, kicks := [], Invalidate(kicks, 0);
    }

    method Broadcast(v: nat) returns (buffer: seq<Reg>)
      modifies this
      ensures View() == Next(old(View()), Label.Broadcast(v)).0 && buffer == LiveRegs(old(results)) && results == []
    {
      buffer := ResolveAll();
      prepared := prepared + multiset(buffer);
    }

    /** std::find_if over `_results`. */
    method FindIf(i: Ident) returns (k: nat)
      ensures k == Find(results, i)
    {
      k := 0;
      while k < |results| && results[k].i != i
        invariant k <= |results| && Find(results, i) == k + Find(results[k..], i)
      {
        assert results[k..][1..] == results[k + 1..];
        k := k + 1;
      }
    }

    /** Swap with the last and pop. */
    method SwapPop(k: nat)
      requires k < |results|
      modifies `results, `kicks
      ensures View() == RemoveAt(old(View()), k)
      ensures multiset(results) + multiset{old(results)[k]} == multiset(old(results))
    {
      var last := |results| - 1;
      SwapRemoveKeeps(results, k);
      if k != last {
        results := results[k := results[last]][last := results[k]];
      }
      results, kicks := results[..last], Invalidate(kicks, last);
    }

    method Alert(flag: Ident) returns (out: Option<Reg>)
      modifies this
      ensures View() == Next(old(View()), Label.Alert(flag)).0 && flags == old(flags) + {flag}
      ensures Find(old(results), flag) < |old(results)| ==>
                multiset(results) + multiset{old(results)[Find(old(results), flag)]} == multiset(old(results))
      ensures var k := Find(old(results), flag); out == if k < |old(results)| then old(results)[k].r else None
    {
      flags := flags + {flag};
      var k := FindIf(flag);
      out := None;
      if k < |results| {
        out := results[k].r;
        SwapPop(k);
        if out.Some? {
          prepared := prepared + multiset{out.value};
        }
      }
    }

    /** kick_out up to the call of the resolver, which gets `r`. */
    method CallResolver(i: Ident, keeps: bool) returns (k: nat, r: Option<Reg>)
      modifies this
      ensures View() == Next(old(View()), KickBegin(i, keeps)).0 && script == old(script) && k == Find(old(results), i)
      ensures if k < |old(results)| then r == old(results)[k].r && kicks == old(kicks) + [Kick(k, true)]
                                         && results == old(results)[k := Entry(None, i)]
              else r == None && View() == old(View())
    {
      k := FindIf(i);
      r := None;
      if k < |results| {
        r := results[k].r;
        results, kicks := results[k := Entry(None, i)], kicks + [Kick(k, true)];
        HandOut(r, keeps);
      }
    }

    /** The resolver keeps the result it gets, or uses it. */
    method HandOut(r: Option<Reg>, keeps: bool)
      modifies `kept, `prepared
      ensures kept == old(kept) + (if r.Some? && keeps then multiset{r.value} else multiset{})
      ensures prepared == old(prepared) + (if r.Some? && !keeps then multiset{r.value} else multiset{})
    {
      if r.Some? {
        if keeps {
          kept := kept + multiset{r.value};
        } else {
          prepared := prepared + multiset{r.value};
        }
      }
    }

    /** What happens while the resolver runs: the calls that are made inside it return inside it. */
    method Inside(ghost st0: State, ghost ls0: seq<Label>, ghost es0: seq<Event>)
      returns (ghost ls: seq<Label>, ghost es: seq<Event>)
      requires Exec(st0, ls0) == (View(), es0)
      modifies this
      ensures Exec(st0, ls) == (View(), es) && ls0 <= ls
      ensures |kicks| == |old(kicks)| && Within(old(kicks), kicks)
    {
      ls, es := ls0, es0;
      var depth := |kicks|;
      while script != [] || |kicks| > depth
        invariant Exec(st0, ls) == (View(), es) && ls0 <= ls && Within(old(kicks), kicks)
        decreases |script|, |kicks|
      {
        var l := KickEnd;
        if script != [] {
          l, script := script[0], script[1..];
        }
        if l != KickEnd || |kicks| > depth {
          StaysWithin(old(kicks), View(), l);
          if l == KickEnd {
            EndShrinks(View());
          }
          ghost var (st', fs) := Next(View(), l);
          ExecSnoc(st0, ls, l, View(), es, st', fs);
          ls, es := ls + [l], es + fs;
          Do(l);
        }
      }
    }

    /** A step of somebody else. */
    method Do(l: Label)
      modifies this
      ensures View() == Next(old(View()), l).0 && script == old(script)
    {
      Become(Next(View(), l).0);
    }

    method Become(st: State)
      modifies this
      ensures View() == st && script == old(script)
    {
      results, flags, cap, kicks, ready := st.results, st.flags, st.cap, st.kicks, st.ready;
      prepared, kept, known := st.prepared, st.kept, st.known;
    }

    /** kick_out, whatever happens while its resolver runs. It goes on with the position it found; `ok` is
        false when that has become invalid, and then what it does is not defined. If nothing in the run
        disturbs it, it takes out exactly the entry it emptied. */
    method KickOut(i: Ident, keeps: bool) returns (r: Option<Reg>, ok: bool, ghost ls: seq<Label>, ghost es: seq<Event>)
      modifies this
      ensures Exec(old(View()), ls) == (View(), es) && [KickBegin(i, keeps)] <= ls
      ensures var k := Find(old(results), i);
              if k == |old(results)| then r == None && ok && View() == old(View())
              else r == old(results)[k].r && |kicks| == |old(kicks)| && |ls| > 1 && ls[|ls| - 1] == KickEnd
      ensures Inv(old(View())) && Undisturbed(old(View()), ls) ==> Inv(View()) && ok && ProperEvents(es)
    {
      ghost var st0 := View();
      var size := |results|;
      var k;
      k, r := CallResolver(i, keeps);
      es, ok := Next(st0, KickBegin(i, keeps)).1, true;
      ExecCons(st0, KickBegin(i, keeps), [], View(), es);
      assert Exec(View(), []) == (View(), []) && es + [] == es;
      ls := [KickBegin(i, keeps)] + [];
      if k < size {
        ghost var during;
        ls, during := Inside(st0, ls, es);
        ghost var st1 := View();
        ghost var fs := Next(st1, KickEnd).1;
        ok := Remove(k);
        ExecSnoc(st0, ls, KickEnd, st1, during, View(), fs);
        ls, es := ls + [KickEnd], during + fs;
        NoFaultAtEnd(during, fs);
        if Inv(st0) && Undisturbed(st0, ls) {
          UndisturbedRun(st0, ls);
        }
      } else if Inv(st0) && Undisturbed(st0, ls) {
        UndisturbedRun(st0, ls);
      }
    }

    /** kick_out after its resolver: swaps the entry at the position it holds with the last, and pops. */
    method Remove(k: nat) returns (ok: bool)
      requires kicks != [] && kicks[|kicks| - 1].k == k
      modifies this
      ensures View() == Next(old(View()), KickEnd).0 && |kicks| == |old(kicks)| - 1
      ensures ok <==> Next(old(View()), KickEnd).1 != [Fault]
      ensures ok ==> k < |old(results)| && multiset(results) + multiset{old(results)[k]} == multiset(old(results))
    {
      ok := kicks[|kicks| - 1].valid && k < |results|;
      kicks := kicks[..|kicks| - 1];
      if ok {
        var dropped := results[k].r;
        SwapPop(k);
        if dropped.Some? {
          prepared := prepared + multiset{dropped.value};
        }
      }
    }
  }

  lemma {:induction false} UndisturbedRun(st: State, ls: seq<Label>)
    requires Inv(st) && Undisturbed(st, ls)
    ensures Inv(Exec(st, ls).0) && ProperEvents(Exec(st, ls).1)
    decreases |ls|
  {
    if ls != [] {
      StepKeepsInv(st, ls[0]);
      UndisturbedRun(Next(st, ls[0]).0, ls[1..]);
    }
  }
}
