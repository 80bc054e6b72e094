/** class scheduler (coro_scheduler.h:262-496) over the heap of TimerHeap: each method is what runs
    under the mutex, and is proved to be a step of SchedulerProtocol. */
module SchedulerCode {
  import opened Options
  import TimerHeap
  import opened SchedulerProtocol

  /** An alert re-keys what is pending under its flag, sets the flag and notifies. */
  lemma AlertSteps(st: State, flag: TimerHeap.Ident, st': State)
    requires MutexFree(st) && TimerHeap.HeapStep(st.pending, TimerHeap.Rekey(flag, st.clock), None, st'.pending)
    requires st' == st.(pending := st'.pending, flags := st.flags + {flag}, pcs := NotifyAll(st.pcs))
    ensures Step(st, Label.Alert(flag), Quiet, st') && MutexFree(st')
    ensures forall x :: x in st'.pending && x.ident == flag ==> x.timestamp <= st.clock
  {}

  class Scheduler {
    const sch: TimerHeap.Heap<Res>
    var clock: int
    var flags: set<TimerHeap.Ident>
    var stops: set<Thread>
    var pcs: map<Thread, Pc>       // where the threads in run_thread stand

    ghost predicate Valid()
      reads this, sch
    {
      sch.Valid() && forall t: Thread :: t in pcs ==> pcs[t] != Looking
    }

    ghost function View(): State
      reads this, sch
    {
      State(clock, multiset(sch.heap), flags, stops, pcs)
    }

    constructor (now: int)
      ensures Valid() && fresh(sch) && Initial(View())
    {
      sch := new TimerHeap.Heap<Res>();
      clock, flags, stops, pcs := now, {}, {}, map[];
    }

    method SleepUntil(r: Res, tp: int, ident: TimerHeap.Ident)
      requires Valid()
      modifies this, sch
      ensures Valid()
      ensures Step(old(View()), Label.SleepUntil(r, tp, ident), Scheduled(TimerHeap.Item(tp, Some(r), ident)), View())
      ensures multiset(sch.heap) == old(multiset(sch.heap)) + multiset{TimerHeap.Item(tp, Some(r), ident)}
    {
      var n := sch.GetFirstScheduledTime();
      if n.None? || tp < n.value {
        pcs := NotifyAll(pcs);
      }
      sch.ScheduleAt(r, tp, ident);
    }

    method SleepUntilAlertable(r: Res, flag: TimerHeap.Ident, tp: int) returns (resolved: bool)
      requires Valid()
      modifies this, sch
      ensures Valid() && resolved == (flag in old(flags))
      ensures Step(old(View()), Label.SleepUntilAlertable(r, flag, tp),
                   if resolved then Resolved(r) else Scheduled(TimerHeap.Item(tp, Some(r), flag)), View())
      ensures multiset(sch.heap) == old(multiset(sch.heap))
                                    + (if resolved then multiset{} else multiset{TimerHeap.Item(tp, Some(r), flag)})
    {
      resolved := flag in flags;
      if !resolved {
        var n := sch.GetFirstScheduledTime();
        if n.Some? && tp < n.value {
          pcs := NotifyAll(pcs);
        }
        sch.ScheduleAt(r, tp, flag);
      }
    }

    method RemoveFirst() returns (r: Option<Res>, ghost e: Event)
      requires Valid()
      modifies sch
      ensures Valid() && Step(old(View()), Label.RemoveFirst, e, View())
      ensures e.Removed? <==> old(sch.heap) != []
      ensures e.Removed? ==> multiset(sch.heap) == old(multiset(sch.heap)) - multiset{e.x}
      ensures r == if e.Removed? then e.x.res else None
    {
      e := if sch.heap == [] then Quiet else Removed(sch.heap[0]);
      r := sch.RemoveFirst();
    }

    /** cancel resolves what this returns once it is outside the mutex. */
    method RemoveByIdent(ident: TimerHeap.Ident) returns (r: Option<Res>, ghost e: Event)
      requires Valid()
      modifies sch
      ensures Valid() && Step(old(View()), Label.RemoveByIdent(ident), e, View())
      ensures e.Removed? <==> TimerHeap.Has(old(multiset(sch.heap)), ident)
      ensures e.Removed? ==> e.x.ident == ident && multiset(sch.heap) == old(multiset(sch.heap)) - multiset{e.x}
      ensures r == if e.Removed? then e.x.res else None
    {
      ghost var taken;
      r, taken := sch.RemoveByIdent(ident);
      e := if taken.Some? then Removed(taken.value) else Quiet;
    }

    method Alert(flag: TimerHeap.Ident)
      requires Valid()
      modifies this, sch
      ensures Valid() && Step(old(View()), Label.Alert(flag), Quiet, View())
      ensures flags == old(flags) + {flag} && pcs == NotifyAll(old(pcs))
      ensures forall x :: x in multiset(sch.heap) && x.ident == flag ==> x.timestamp <= clock
    {
      ghost var st := View();
      flags := flags + {flag};
      var _ := sch.SetTime(flag, clock);
      pcs := NotifyAll(pcs);
      AlertSteps(st, flag, View());
    }

    /** One turn of the loop in run_thread, from taking the mutex until it is given up: by leaving,
        by calling the executor on the result returned, or by waiting. `mid` is the state between the
        test of the stop token and the rest. */
    method RunThreadTurn(t: Thread) returns (r: Option<Res>, ghost e: Event, ghost mid: State)
      requires Valid() && t in pcs && pcs[t] == Ready
      modifies this, sch
      ensures Valid() && Step(old(View()), Test(t), Quiet, mid)
      ensures if t in old(stops) then View() == mid && r == None else Step(mid, Turn(t), e, View())
      ensures e.Executed? <==> t !in old(stops) && exists x :: x in old(multiset(sch.heap)) && x.timestamp < old(clock)
      ensures pcs == old(pcs)[t := pcs[t]] && (pcs[t] == Exited <==> t in old(stops))
      ensures e.Executed? ==> pcs[t] == Executing && multiset(sch.heap) == old(multiset(sch.heap)) - multiset{e.x}
      ensures pcs[t].Blocked? ==> IsFirstTime(old(multiset(sch.heap)), pcs[t].deadline)
      ensures r == if e.Executed? then e.x.res else None
    {
      r, e := None, Quiet;
      if t in stops {
        pcs := pcs[t := Exited];
        mid := View();
        return;
      }
      pcs := pcs[t := Looking];
      mid := View();
      r, e := LoopBody(t);
    }

    method LoopBody(t: Thread) returns (r: Option<Res>, ghost e: Event)
      requires sch.Valid() && t in pcs && pcs[t] == Looking
      requires forall u: Thread :: u in pcs && u != t ==> pcs[u] != Looking
      modifies this, sch
      ensures Valid() && Step(old(View()), Turn(t), e, View())
      ensures r == if e.Executed? then e.x.res else None
      ensures e.Executed? <==> exists x :: x in old(multiset(sch.heap)) && x.timestamp < old(clock)
      ensures pcs == old(pcs)[t := pcs[t]] && pcs[t] != Exited
      ensures e.Executed? ==> pcs[t] == Executing && multiset(sch.heap) == old(multiset(sch.heap)) - multiset{e.x}
      ensures pcs[t].Blocked? ==> IsFirstTime(old(multiset(sch.heap)), pcs[t].deadline)
    {
      r, e := None, Quiet;
      var tm := sch.GetFirstScheduledTime();
      if tm.Some? {
        if clock > tm.value {
          e := Executed(sch.heap[0]);
          r := sch.RemoveFirst();
          pcs := pcs[t := Executing];
        } else {
          pcs := pcs[t := Blocked(tm)];
        }
      } else {
        pcs := pcs[t := Blocked(None)];
      }
    }
  }
}
