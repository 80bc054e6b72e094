/** prepared_coro, awaitable and awaitable_result as the classes they are; each method is proved to be
    what AwaitableModel says of it. */
module AwaitableCode {
  import opened Options
  import opened M = AwaitableModel

  /** prepared_coro (lines 245-282). Over any sequence of operations, the handles put in are the ones
      given out to be resumed, destroyed or passed on, in order and each once, and then the one held. */
  class PreparedCoro {
    var coro: Option<Handle>
    ghost var received: seq<Handle>
    ghost var out: seq<Handle>

    ghost predicate Valid()
      reads this
    {
      received == out + Held(coro)
    }

    constructor (h: Option<Handle>)
      ensures Valid() && coro == h && received == Held(h) && out == []
    {
      coro := h;
      received, out := Held(h), [];
    }

    /** resume, the call operator, destroy, symmetric_transfer and the destructor all take the handle
        out first; `h` is what they resume, destroy or return. */
    method Take() returns (h: Option<Handle>)
      requires Valid()
      modifies this
      ensures Valid() && h == old(coro) && coro == None && received == old(received)
      ensures out == received && out == old(out) + Held(h)
    {
      h := coro;
      coro := None;
      out := out + Held(h);
    }

    /** Assignment by move: what was held is resumed, and the handle of `other` held instead. */
    method Assign(other: PreparedCoro) returns (resumed: Option<Handle>)
      requires Valid() && other.Valid() && other != this
      modifies this, other
      ensures Valid() && other.Valid() && other.coro == None && coro == old(other.coro)
      ensures out == old(received) && out == old(out) + Held(resumed) && received == old(received) + Held(coro)
      ensures other.received == old(other.received) && other.out == other.received
    {
      resumed := Take();
      coro := other.Take();
      received := received + Held(coro);
    }
  }

  function Held(h: Option<Handle>): seq<Handle> {
    if h.Some? then [h.value] else []
  }

  /** The fields of one awaitable. */
  class AwaitableObject {
    var tag: Tag
    var owner: Option<Handle>
    var store: Store
    ghost var token: Token

    ghost function View(): Awaitable
      reads this
    {
      Awaitable(tag, owner, store, token)
    }

    ghost predicate Valid()
      reads this
    {
      Sound(View())
    }

    constructor (t: Tag, s: Store)
      requires Sound(Awaitable(t, None, s, Free))
      ensures Valid() && View() == Awaitable(t, None, s, Free)
    {
      tag, owner, store, token := t, None, s, Free;
    }

    method DestroyState()
      requires TagFits(View())
      modifies `store
      ensures M.DestroyState(old(View())) == Some(View())
    {
      store := Nothing;
    }

    /** set_value, set_exception and drop. */
    method Settle(k: Kind)
      requires TagFits(View())
      modifies `tag, `store
      ensures M.Settle(old(View()), k) == Some(View())
    {
      DestroyState();
      match k {
        case WithValue(x) => tag, store := Value, Val(x);
        case WithException => tag, store := Exception, Exc;
        case WithNothing => tag := NoValue;
      }
    }

    method Wakeup() returns (p: PreparedCoro)
      requires TagFits(View())
      modifies `tag, `store, `owner
      ensures fresh(p) && p.Valid() && p.coro == old(owner) && p.out == [] && p.received == Held(old(owner))
      ensures owner == None && TagFits(View()) && Ready(View())
      ensures forall a: Id :: M.Wakeup(a, old(View())) ==
                              (Some(View()), if p.coro.Some? then [HandedOut(a, p.coro.value)] else [])
    {
      if !(tag == NoValue || tag == Value || tag == Exception) {
        Settle(WithNothing);
      }
      p := new PreparedCoro(owner);
      owner := None;
    }

    /** The move constructor; `other` is left without value, but with its handle and its result. It does
        not look whether the callback it moves is under way; if so, the new object is not sound. */
    constructor Move(other: AwaitableObject)
      requires other.Valid()
      modifies other
      ensures other.Valid() && (Valid() <==> !UnderWay(old(other.View())))
      ensures forall st: State, a: Id, b: Id ::
                MoveStep(st, a, old(other.View()), b) == (Put(Put(st, a, other.View()), b, View()), [])
    {
      tag, owner, token := other.tag, None, Free;
      store := if other.store == Temp then Nothing else other.store;
      new;
      other.DestroyState();
      other.tag := NoValue;
    }

    /** await_suspend: what it starts, or the coroutine that an empty coroutine object resumes at once. */
    method AwaitSuspend(h: Handle) returns (op: Option<OpId>, woken: Option<Handle>)
      requires Valid() && !Ready(View()) && owner == None
      modifies this
      ensures Valid() && op == Prepared(old(View())) && Prepared(View()) == None
      ensures if op.Some? then owner == Some(h) && woken == None else owner == None && woken == Some(h) && Ready(View())
      ensures forall st: State, a: Id ::
                SuspendStep(st, a, old(View()), h) ==
                  (if op.Some? then (Start(Put(st, a, View()), op.value), [Stored(a, h), StartEvent(st, op.value)])
                   else (Put(st, a, View()), [Stored(a, h)] + [HandedOut(a, h)]))
    {
      owner, op, woken := Some(h), None, None;
      if tag == Coro {
        op := store.frame;
        if op.Some? {
          store, token := Co(None), InPromise;
        } else {
          var p := Wakeup();
          woken := p.Take();
        }
      } else if tag == Callback {
        op := Some(store.op);
        store, token := Closure(store.op, true), InResult;
      } else {
        op := store.boxed;
        store, token := Ptr(None), InResult;
      }
    }

    /** create_result: throws invalid_state, that is returns null, when somebody awaits already. */
    method CreateResult(h: Handle) returns (res: AwaitableResult?)
      requires Valid()
      modifies this
      ensures Valid() && (res == null <==> old(owner).Some?)
      ensures res != null ==> fresh(res) && res.ptr == this && token == InResult
      ensures View() == if res == null then old(View()) else old(View()).(owner := Some(h), token := InResult)
      ensures forall st: State, a: Id ::
                Act(st, Label.CreateResult(a, h), old(View())) ==
                  if res == null then (st, [InvalidState]) else (Put(st, a, View()), [Stored(a, h)])
    {
      res := null;
      if owner == None {
        owner, token := Some(h), InResult;
        res := new AwaitableResult(this);
      }
    }

    /** cancel: throws invalid_state when somebody awaits. A prepared operation is never started then. */
    method Cancel() returns (ok: bool)
      requires Valid()
      modifies `tag, `store
      ensures Valid() && ok == (owner == None)
      ensures if ok then View() == Awaitable(NoValue, None, Nothing, Free) else View() == old(View())
    {
      ok := owner == None;
      if ok {
        DestroyState();
        tag := NoValue;
      }
    }

    /** dtor: `op` is the prepared operation it starts in detached mode. When somebody awaits it throws out
        of a destructor, which ends the program: then nothing comes after `ok` being false. */
    method Dtor() returns (ok: bool, op: Option<OpId>)
      requires Valid()
      modifies `store
      ensures ok == (owner == None) && op == if ok then Prepared(old(View())) else None
      ensures forall st: State, a: Id :: Inv(st) && a in st.objs && st.objs[a] == old(View()) ==>
                DestroyStep(st, a, old(View())).1 ==
                  (if !ok then [Terminates] else if op.Some? then [Started(op.value)] else [])
    {
      ok, op := owner == None, None;
      if ok {
        match tag {
          case Coro => op := store.frame;
          case Callback => op := Some(store.op);
          case CallbackPtr => op := store.boxed;
          case _ =>
        }
        store := Nothing;
      }
    }

    /** set_callback_internal. `waiter` is the awaitable of the callback, null when this one is ready
        and the callback is called at once; `woken` is the callback's frame when there is nothing to
        start. */
    method SetCallback(h: Handle) returns (waiter: AwaitableObject?, op: Option<OpId>, woken: Option<Handle>)
      requires Valid() && (Ready(View()) || owner == None)
      modifies this
      ensures Valid() && (waiter == null <==> Ready(old(View())))
      ensures waiter == null ==> View() == old(View()) && op == None && woken == None
      ensures waiter != null ==>
                && fresh(waiter) && waiter.Valid() && View() == Awaitable(NoValue, None, Nothing, Free)
                && op == Prepared(old(View())) && woken == (if op.Some? then None else Some(h))
      ensures waiter != null ==> forall st: State, a: Id, b: Id ::
                SetCallbackStep(st, a, old(View()), b, h) ==
                  (var st' := Put(Put(st, a, View()), b, waiter.View());
                   if op.Some? then (Start(st', op.value), [Stored(b, h), StartEvent(st, op.value)])
                   else (st', [Stored(b, h), HandedOut(b, h)]))
    {
      waiter, op, woken := null, None, None;
      if tag == NoValue || tag == Value || tag == Exception {
        return;
      }
      waiter := new AwaitableObject(NoValue, Nothing);
      var res := waiter.CreateResult(h);
      if tag == Callback {
        op := Some(store.op);
      } else if tag == CallbackPtr {
        op := store.boxed;
      } else {
        op := store.frame;
        store := Co(None);
        if op.Some? {
          waiter.token := InPromise;
        } else {
          var p := res.Use(WithNothing);
          woken := p.Take();
        }
      }
      var _ := Cancel();
    }
  }

  /** awaitable_result (lines 1150-1310): a unique pointer to the awaitable it resolves. */
  class AwaitableResult {
    var ptr: AwaitableObject?

    constructor (p: AwaitableObject?)
      ensures ptr == p
    {
      ptr := p;
    }

    /** get_temp_state: whatever is alive in the awaitable gives way to the temporary state. */
    method GetTempState() returns (ok: bool)
      requires ptr != null ==> ptr.Valid() && ptr.token == InResult
      modifies ptr
      ensures ok == (ptr != null)
      ensures ptr != null ==>
                && ptr.Valid() && !UnderWay(ptr.View())
                && forall st: State, a: Id ::
                     Act(st, Label.GetTempState(a), old(ptr.View())) == (Put(st, a, ptr.View()), [])
    {
      ok := ptr != null;
      if ok {
        ptr.DestroyState();
        ptr.tag, ptr.store := NoValue, Temp;
      }
    }

    /** Every way to use the result, its destruction included. */
    method Use(k: Kind) returns (p: PreparedCoro)
      requires ptr != null ==> ptr.Valid() && ptr.token == InResult
      modifies this, ptr
      ensures ptr == null && fresh(p) && p.Valid() && p.out == [] && (old(ptr) == null ==> p.coro == None)
      ensures var o := old(ptr); o != null ==>
                && o.Valid() && p.coro == old(ptr.owner) && p.coro.Some? && Ready(o.View())
                && forall st: State, a: Id ::
                     ResolveStep(st, a, old(ptr.View()), k) == (Put(st, a, o.View()), [HandedOut(a, p.coro.value)])
    {
      var o := ptr;
      ptr := null;
      if o == null {
        p := new PreparedCoro(None);
      } else {
        o.Settle(k);
        p := o.Wakeup();
        o.token := Free;
      }
    }
  }
}
