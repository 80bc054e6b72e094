# Verified models of the coroutine library's concurrent core

This project models five components of a C++20 coroutine library and proves what they are for:

- **`coro_mutex`**, a lock-free hand-off lock. `MutexSteps` is a transition system over any number of
  threads and slots in which every atomic operation is a step, and every turn of the list reversal
  too; `MutexRuns` proves properties of whole runs; `MutexReread` is the same system with the test of
  `_next` in `add_request` as a read of its own; `CoroMutexCode` is the class, with the loops of
  `add_request` and `make_queue` over `_next` links, each method a run of the transition system in
  which the other threads take any number of steps at every point where they can.
- **`generic_scheduler` and `scheduler`**. `TimerHeap` is the binary heap with its sift loops, its
  removal with a stale tail and its re-keying scan; `TimerHeapRuns` is the multiset of timed entries
  it implements, over sequences of operations; `SchedulerProtocol` is the mutex and condition
  variable protocol of any number of `run_thread` threads and clients, and `SchedulerCode` the class.
- **`when_all` and `when_each`**, completion counters under concurrency (`WhenAllSteps`,
  `WhenEachSteps`): any number of producers race with one awaiter.
- **`limited_queue`**, a ring on free-running 32-bit counters (`LimitedQueueModel`).
- **`awaitable`, `awaitable_result`, `prepared_coro`** as one ownership state machine over any number
  of awaitables (`AwaitableModel`, classes in `AwaitableCode`), and **`distributor`** as a client
  (`DistributorModel`).

A transition system is a function `Next(state, label)`; a label that is not enabled leaves the state
alone, so every sequence of labels is an interleaving and "every run" is "for every sequence of
labels". `Fault` is the event of something the code must never do. Most proofs are one invariant, one
lemma per kind of step, and an induction over the run. What invariants leave open, that each operation
does its work whenever it can, is stated beside them without the transition function (the sections "What
each operation does"). Where a promise does not hold in every run, the
runs in which it does are named by a condition on their steps, and a theorem says that it holds in
those and in no others. In the classes, additional fields say where the other threads stand.

`dafny verify dfyconfig.toml` checks the project.

## What the model assumes, and where the code and its promises part

- Atomic operations are sequentially consistent.
- In `add_request` the test of `s->_next` (coro_mutex.h:147) is a read after the successful
  compare-exchange, and an `unlock` may have written or given up the field in between. `MutexSteps` and
  `MutexRuns` take the value that the compare-exchange found; `CoroMutexCode` reads the field again.
  `MutexReread.RereadExactly` says what the later read does: a run is safe if and only if no test is
  taken while its slot is the last of `_queue` or after it was resumed; in those runs
  (`TimelyIsFifo`) everything else holds as well. `RereadBreaksExclusion` is a run that is not.
- Threads, slots, handles, identities and result objects are opaque numbers. A slot may be requested
  again once its memory has been given up; a result object of the distributor is used once.
- The clock can be set to anything at any time and threads may wake spuriously. `std::push_heap` and
  `std::pop_heap` are implemented from their meaning in [alg.heap.operations] of ISO C++20. A result
  that has been moved out of is `None`.
- `sleep_until_alertable` on an empty heap does not notify (coro_scheduler.h:299 compares with an
  absent time), unlike `sleep_until` (line 278), so a thread in an indefinite wait sleeps on.
  `SchedulerProtocol.AlertableSafeExactly` gives the exact condition under which the call is safe,
  `AlertableStepExactly` the exact condition in one state, `EmptyHeapOversleeps` a run that breaks it.
- The stop callback of `run_thread` notifies without the mutex (coro_scheduler.h:363-365). The
  notification is lost if and only if it falls between a test of the stop token and the wait
  (`SchedulerProtocol.StopIsHeardExactly`; `StopIsLost` is a run).
- Alerts rest on two rules: only `alert` sets a flag, and only alertable sleeps (registrations) use
  the address of a flag as identity.
- `when_all` is used as its comments ask: `add` before `co_await`, `reset` after it; fewer than
  2^32 - 2 awaitables are outstanding. `when_each` counts positions without wrapping, which fits the
  32-bit code for fewer than 2^32 - 2 awaitables.
- `when_each::await_suspend` leaves the handle in `_r` when its compare-exchange fails
  (coroutine.h:1860-1863). `_r` is a `prepared_coro`, which resumes what it holds when it is assigned or
  destroyed (coroutine.h:275-281), so the stale handle is resumed from inside the next `await_suspend`,
  or by the destructor. `WhenEachSteps.OrderlyExactly`: a run is orderly if and only if neither happens;
  `WholeLifeExactly`: the whole life of an object is, if and only if no such compare-exchange fails.
  The promises of `when_each` are proved for the orderly runs; `StaleAwaitFaults`, `SpuriousHappens` and
  `DestructionResumes` say what happens in others.
- `limited_queue` is a ring for every count only until `_front` wraps. Beyond that it is one if and
  only if the count divides 2^32 (`LimitedQueueModel.SoundExactly`).
- The move constructor of `awaitable` does not look at `_owner`. Moving one whose callback has been
  started and is not resolved lets a callback be started twice, or a null pointer be called, and
  nothing else does (`AwaitableModel.MoveSafeExactly`, `CarefulExactly`, `MovedCallbackFaults`). The
  test a caller can make is `is_awaiting`.
- `~awaitable` throws `invalid_state` when somebody awaits (coroutine.h:1059). A destructor is
  `noexcept`, so the program terminates there; the model goes on after the event `Terminates`, which
  only adds runs.
- `distributor::kick_out` calls its resolver between its search and its removal, holding an iterator
  (coro_distributor.h:108-121). A resolver that drops a prepared coroutine resumes it there, and the
  default lock does not lock. `DistributorModel.DeliveryExactly`: the runs in which nothing invalid
  happens and nobody is dropped are those in which nothing disturbs a kick_out under way, that is no
  reallocation or clear of `_results`, no search that comes upon the emptied entry, and no other removal
  while that entry is the last. Delivery is proved for those runs. `ReregistrationFaults` and
  `SecondKickDropsAnother` are others. With a lock that excludes, or resolvers that resume nobody, every
  run is undisturbed (`AtomicIsUndisturbed`).
- The overload of `distributor::broadcast` at coro_distributor.h:90-93 resumes the coroutines from
  `_ready_to_run.clear()`. A coroutine resumed there that broadcasts the same way pushes onto the vector
  being cleared; that is one of the disturbances in `DeliveryExactly`, and `RebroadcastFaults` a run.

## Model

| member | source | states |
|---|---|---|
| MutexSteps.LinksUnique | coro_mutex.h:122-130 | memory determines the linked list between two ends, so the abstraction of a state is unique |
| MutexSteps.PushRetry | coro_mutex.h:145 | a failed compare-exchange keeps the invariant and changes nothing a waiter sees |
| MutexSteps.PushWin | coro_mutex.h:145-147 | the compare-exchange that finds null makes its thread the only acquiring one, with its slot due first |
| MutexSteps.PushOnto | coro_mutex.h:145-155 | any other successful compare-exchange appends its slot to the end of the waiting line |
| MutexSteps.Capture | coro_mutex.h:150-191 | the exchange with the doorman, after winning or after a failed unlock, leaves the waiting line as it was |
| MutexSteps.ReverseMoves | coro_mutex.h:169-176 | one turn of `make_queue` dereferences a live slot, shortens the captured list and keeps the line |
| MutexSteps.WinnerResumes | coro_mutex.h:150-164 | the slot that found null is resumed as the first of the line and is then the one owner |
| MutexSteps.PopRefines | coro_mutex.h:193-198 | `unlock` finds `_queue` not null and resumes the first of the line |
| MutexSteps.UnlockRefines | coro_mutex.h:179-191 | `unlock` frees the lock only if the line is empty; a failed compare-exchange means somebody waits |
| MutexSteps.TryLockRefines | coro_mutex.h:82-86 | `try_lock` succeeds only on a free lock with an empty line |
| MutexSteps.RequestRefines | coro_mutex.h:105-118 | entering `add_request` with a fresh slot keeps the invariant and the line |
| MutexSteps.StepRefines | coro_mutex.h:82-199 | every step of every thread keeps the invariant and is a step of the FIFO lock on `_queue ++ reverse(stack above the bottom)`; nothing invalid is dereferenced |
| MutexRuns.RunRefines | coro_mutex.h:82-199 | every interleaving of any number of threads is a run of the FIFO lock with the same events |
| MutexRuns.GrantsAreFifo | coro_mutex.h:143-199 | slots resumed so far, followed by the line, are the slots pushed so far, in the order of their successful compare-exchanges; no `Fault` in any run |
| MutexRuns.MutualExclusion | coro_mutex.h:82-199 | at most one owner, acquirer or unlocker exists, and `_requests` is null exactly when none does |
| MutexRuns.QueueIsPrivate | coro_mutex.h:136-199 | only the one critical thread writes `_queue`, or the `_next` of a slot other than the request it is pushing |
| MutexRuns.ListsAreUnique | coro_mutex.h:122-138 | two readings of one state have the same lists and the same line |
| MutexRuns.SlotsAreConserved | coro_mutex.h:143-199 | every live slot has exactly one place (being pushed, on the stack, captured, queued, or winning), once; dead slots have none |
| MutexRuns.BoundedWaiting | coro_mutex.h:166-199 | a slot with k slots ahead is resumed by exactly the (k+1)-th hand-off, whatever pushes interleave |
| MutexRuns.NoBarging | coro_mutex.h:82-189 | while anyone waits, no step frees the lock or lets `try_lock` in, and a hand-off goes to the first of the line |
| MutexRuns.TryLockExactly | coro_mutex.h:82-86 | in every state reached, `try_lock` succeeds iff nobody owns the lock, acquires it or releases it, and changes nothing otherwise |
| MutexRuns.RequestIsPushed | coro_mutex.h:143-147 | a request among no others is pushed by its first compare-exchange on a free lock, by its second otherwise |
| MutexRuns.WinnerGoesOn | coro_mutex.h:147-153 | the slot that found null goes on to the hand-off that resumes it |
| MutexRuns.UnlockExactly | coro_mutex.h:179-198 | `unlock` gives the ownership up, frees the lock iff nobody waits, and hands off otherwise |
| MutexRuns.HandOffTerminates | coro_mutex.h:169-199 | a thread in `make_queue` reaches `to` and hands over within its number of captured slots + 2 own steps, whatever the others do |
| MutexReread.WaitingField | coro_mutex.h:169-176 | a waiting slot, wherever it is, has a null `_next` if and only if it is the last of `_queue` |
| MutexReread.TimelyTest | coro_mutex.h:145-147 | a later test that is not late finds what the compare-exchange found and changes nothing |
| MutexReread.LateTest | coro_mutex.h:145-172 | a test taken while its slot is the last of `_queue` sets a second thread into the lock; one taken after the slot was resumed reads memory that was given up |
| MutexReread.RereadExactly | coro_mutex.h:143-199 | with the test as a read of its own, a run keeps mutual exclusion in every state and dereferences nothing dead iff no test is late |
| MutexReread.TimelyIsFifo | coro_mutex.h:143-199 | runs without a late test refine the FIFO lock with the test as written: exclusion, and grants in push order |
| MutexReread.RereadBreaksExclusion | coro_mutex.h:145-172 | a concrete run of the code as written puts two threads inside the lock |
| CoroMutexCode.CoroMutex.TryLock | coro_mutex.h:82-86 | exactly the step of the model; succeeds iff `_requests` was null |
| CoroMutexCode.CoroMutex.Request | coro_mutex.h:113-117 | entering `add_request` with a zeroed field is the step of the model |
| CoroMutexCode.CoroMutex.CompareExchange | coro_mutex.h:145 | one compare-exchange with its write to `_next` on failure is one step of the model |
| CoroMutexCode.OthersOnlyPush | coro_mutex.h:143-199 | while a thread acquires or unlocks, the others resume nobody, own nothing and do not write `_queue` |
| CoroMutexCode.ServedFirst | coro_mutex.h:193-198 | the one slot resumed in a run was the first of what was due or pushed in it, and the rest is due |
| CoroMutexCode.CoroMutex.MakeQueue | coro_mutex.h:169-176 | among steps of other threads, the loop terminates at `to`, having moved every captured slot and resumed nobody |
| CoroMutexCode.TimelyFinds | coro_mutex.h:145-147 | a test that is not late finds a null field iff the push found the lock free |
| CoroMutexCode.CoroMutex.AddRequest | coro_mutex.h:143-156 | among steps of other threads, also between push and test: the slot is pushed to the end of the line; if the test is not late, it takes the lock iff the push found it free, and then owns it, with exactly what was pushed since due |
| CoroMutexCode.CoroMutex.Push | coro_mutex.h:145 | the compare-exchange loop, with any finite interference between its turns, ends with the slot last in line and what the last turn found |
| CoroMutexCode.CoroMutex.TakeLock | coro_mutex.h:147-153 | the slot that found null is the one resumed and the one owner, whatever is pushed meanwhile |
| CoroMutexCode.CoroMutex.FreeIfAlone | coro_mutex.h:181-189 | the lock is freed iff nothing was due or pushed up to the compare-exchange |
| CoroMutexCode.CoroMutex.ServeFirst | coro_mutex.h:193-198 | the first of what was due or pushed is resumed and owns the lock, the rest is due |
| CoroMutexCode.CoroMutex.Unlock | coro_mutex.h:179-199 | among steps of other threads: of the line of what was due and what was pushed meanwhile, the first is the new owner and the rest is due; an empty line frees the lock |
| CoroMutexCode.Ownership.Release | coro_mutex.h:48-56 | an ownership unlocks once; releasing it again does nothing |
| TimerHeap.RootIsMin | coro_scheduler.h:35-38 | in heap order no element is earlier than the root |
| TimerHeap.Heap.SiftUp | coro_scheduler.h:104-114 | restores the order from one violated above `start`, permuting only cells up to `start` |
| TimerHeap.Heap.SiftDown | coro_scheduler.h:115-135 | restores the order from one violated below `start`; a cell holds what it held, what a child held, or the sinking element; a last cell no earlier than that is not touched, and an element in order is not moved |
| TimerHeap.Heap.PushHeap | coro_scheduler.h:32 | `std::push_heap`: a heap with the same elements |
| TimerHeap.Heap.PopHeap | coro_scheduler.h:43 | `std::pop_heap`: the former root is last, the rest is a heap, same elements |
| TimerHeap.Heap.ScheduleAt | coro_scheduler.h:30-33 | adds exactly the entry and keeps the order |
| TimerHeap.Heap.GetFirstScheduledTime | coro_scheduler.h:35-38 | the minimum over all entries, absent iff there is none |
| TimerHeap.Heap.RemoveFirst | coro_scheduler.h:40-48 | takes out an earliest entry, and only that |
| TimerHeap.Heap.UpdateHeapElement | coro_scheduler.h:100-136 | any replacement of any element, earlier or later, ends in a heap that differs only in that element; every cell holds it, what was there, what its parent held on the way up, or what a child held below |
| TimerHeap.StaleTail | coro_scheduler.h:58-61 | with the moved-from copy still last, dropping the last cell leaves the old entries minus exactly the removed one |
| TimerHeap.Heap.FillFromBack | coro_scheduler.h:58-61 | the middle case: sifting with the stale tail in range loses no live result and leaves a heap |
| TimerHeap.Heap.RemoveByIdent | coro_scheduler.h:49-66 | takes out exactly one matching entry and returns its result, or changes nothing if none matches |
| TimerHeap.ScanMatch | coro_scheduler.h:71-76 | re-keying the match at `i` leaves no scanned match later than the new time, though the array is re-ordered |
| TimerHeap.ScanAhead | coro_scheduler.h:69-79 | re-keying a match brings no match at another time behind the scan, if of those none stands above another |
| TimerHeap.Heap.SetTime | coro_scheduler.h:69-79 | heap order holds, entries only change from matching to re-timed, no match is later than the new time, and one has it if there was a match, which is what is returned; if of the matches at another time none stands above another, all matches get exactly the new time |
| TimerHeapRuns.RekeyKeeps | coro_scheduler.h:69-79 | the multiset of (result, identity) pairs and every entry under another identity are unchanged |
| TimerHeapRuns.RekeyUnique | coro_scheduler.h:69-79 | an identity used once gets exactly the new time, and nothing else changes |
| TimerHeapRuns.EntriesAreConserved | coro_scheduler.h:30-79 | over every sequence of operations, what was scheduled is pending or was taken out, as often |
| TimerHeapRuns.DrainIsSorted | coro_scheduler.h:40-48 | draining yields non-decreasing times and, with what is left, all entries |
| SchedulerProtocol.NobodyOversleeps | coro_scheduler.h:274-490 | in every run whose alertable sleeps are safe, a blocked thread has a deadline no later than any entry, and waits without one only when there is none |
| SchedulerProtocol.AlertableSafeExactly | coro_scheduler.h:293-303 | an alertable sleep keeps every blocked thread in time iff the flag is set or the heap is not empty |
| SchedulerProtocol.AlertableStepExactly | coro_scheduler.h:293-303 | from a state where nobody oversleeps, an alertable sleep keeps it so iff the flag is set, or the heap is not empty, or every blocked thread wakes by its time |
| SchedulerProtocol.EmptyHeapOversleeps | coro_scheduler.h:293-303 | a run from the initial state after which a thread oversleeps |
| SchedulerProtocol.StopIsHeardExactly | coro_scheduler.h:361-382 | a thread never blocks again after the notification of its stop, iff it does not stand between its test of the token and its wait then |
| SchedulerProtocol.StopIsLost | coro_scheduler.h:361-382 | a run from the initial state after which a stopped thread waits without a deadline |
| SchedulerProtocol.StepKeepsInTime | coro_scheduler.h:274-490 | each step keeps every blocked thread's deadline no later than the first entry |
| SchedulerProtocol.ResultsAreConserved | coro_scheduler.h:342-382 | over every run each scheduled result is pending, executed or removed, as often as it was scheduled |
| SchedulerProtocol.ExecutedWhenDue | coro_scheduler.h:366-375 | in every run, what is executed is strictly past its time, nothing pending is earlier, and its time is the one it was scheduled for or that of an alert of its flag |
| SchedulerProtocol.AlertsAreNotLost | coro_scheduler.h:293-490 | from an alert until the flag is reset, every entry under it is due by the last alert, and alertable sleeps on it are resolved at once |
| SchedulerProtocol.TurnExecutesIfDue | coro_scheduler.h:366-381 | in every run a turn executes iff some pending entry has a time strictly before the clock; otherwise its thread waits with exactly the first time as deadline, or without one iff nothing is pending |
| SchedulerProtocol.SleepsAreScheduled | coro_scheduler.h:274-281 | in every run a sleep is pending afterwards, and everybody is notified iff it comes before all others |
| SchedulerProtocol.AlertableSleepsAreScheduled | coro_scheduler.h:293-303 | the same of an alertable sleep whose flag is not set, but for the empty heap; one whose flag is set is resolved at once |
| SchedulerProtocol.RemovesWhatThereIs | coro_scheduler.h:342-354 | a removal takes out an entry iff there is a first one, or one under the identity |
| SchedulerProtocol.AlertWakesAll | coro_scheduler.h:485-490 | an alert sets its flag, makes the sleeps under it due and blocks nobody |
| SchedulerProtocol.FlagIsLastAlert | coro_scheduler.h:485-490 | in every run a flag is set iff its last alert came after its last reset |
| SchedulerProtocol.LeavesOnlyIfAsked | coro_scheduler.h:366 | in every run a thread leaves only if it was asked to stop |
| SchedulerCode.Scheduler.SleepUntil | coro_scheduler.h:274-281 | is the protocol's step: exactly the entry is added, waiters are notified iff it is earlier than the first |
| SchedulerCode.Scheduler.SleepUntilAlertable | coro_scheduler.h:293-303 | resolved at once iff the flag is set, otherwise exactly the entry is added; is the protocol's step |
| SchedulerCode.Scheduler.RemoveFirst | coro_scheduler.h:342-345 | takes out an entry iff there is one, and returns its result |
| SchedulerCode.Scheduler.RemoveByIdent | coro_scheduler.h:351-474 | takes out an entry under the identity iff there is one, and returns its result |
| SchedulerCode.Scheduler.Alert | coro_scheduler.h:485-490 | sets the flag, makes every sleep under it due and wakes every waiting thread |
| SchedulerCode.Scheduler.RunThreadTurn | coro_scheduler.h:362-381 | executes an entry iff its thread was not asked to stop and some entry has a time strictly before the clock, and takes out exactly that; leaves iff asked to stop; waits otherwise, until exactly the first time or without end if nothing is scheduled |
| WhenAllSteps.StepKeepsInv | coroutine.h:1727-1777 | the counter is the outstanding completions plus one until the awaiter's own decrement, and at zero exactly one agent resumes |
| WhenAllSteps.ResumedExactlyOnce | coroutine.h:1727-1777 | in every interleaving and over all reset rounds the resumed handles are the suspended ones, in order, each once |
| WhenAllSteps.JoinsAll | coroutine.h:1741-1775 | a resumption comes only after every added awaitable completed, and then one agent can and does resume |
| WhenAllSteps.LastCompletionWakes | coroutine.h:1765-1775 | the last completion wakes a suspended awaiter |
| WhenAllSteps.AddsAndCompletes | coroutine.h:1727-1775 | in every state reached, `add` makes its awaitable outstanding, and its completion makes it not outstanding |
| WhenAllSteps.AwaitsWhatIsAdded | coroutine.h:1736-1744 | `await_ready` is true iff nothing is outstanding; if not, `await_suspend` stores the handle and suspends it, and is itself the one to resume it iff all has completed meanwhile |
| WhenAllSteps.ResetsAfterTheJoin | coroutine.h:1756-1759 | after the join the object is as new; before it `reset` does nothing |
| WhenAllSteps.WaitsFromAddToCompletion | coroutine.h:1727-1775 | from an `add` up to the completion of what it added nobody is resumed and an awaiter finds it is not ready; it is outstanding exactly from the one to the other |
| WhenAllSteps.WhenAll.Add | coroutine.h:1727-1733 | the awaitable becomes outstanding iff it is not ready, and nothing else is changed but the counter |
| WhenAllSteps.WhenAll.AwaitReady | coroutine.h:1736-1738 | ready iff nothing is outstanding, before the join and after it |
| WhenAllSteps.WhenAll.AwaitSuspend | coroutine.h:1741-1744 | stores the handle and decrements; resumes at once iff all have completed meanwhile, and is suspended with that handle otherwise |
| WhenAllSteps.WhenAll.DoResume | coroutine.h:1765-1775 | the awaitable is no longer outstanding; the suspended handle is handed out iff it was the last |
| WhenAllSteps.WhenAll.Reset | coroutine.h:1756-1759 | opens the next round iff the last one was joined |
| WhenEachSteps.StepKeepsInv | coroutine.h:1849-1955 | each step that comes upon no stale handle keeps positions, claims, hand-over and delivery consistent, and resumes nobody but the one suspended |
| WhenEachSteps.OrderlyExactly | coroutine.h:1849-1955 | a run does nothing invalid and resumes only suspended awaits iff no handle is stored, and the object not destroyed, after a failed compare-exchange |
| WhenEachSteps.WholeLifeExactly | coroutine.h:1842-1864 | up to and with its destruction, an object is orderly iff no compare-exchange of `await_suspend` fails |
| WhenEachSteps.AllDone | coroutine.h:1842-1847 | when the destructor has waited for all results, no producer touches the object any more |
| WhenEachSteps.ReturnsAreAPermutation | coroutine.h:1853-1955 | in orderly runs indices are returned in claim order, are distinct and in range, and are all of 0..n-1 after n returns; claims never exceed n |
| WhenEachSteps.EachAwaitIsWokenOnce | coroutine.h:1860-1954 | in orderly runs the resumptions are exactly those of the suspended awaits, in order and each once, made by the producer that claimed the position awaited |
| WhenEachSteps.NoLostWakeup | coroutine.h:1849-1955 | in orderly runs the claimant of an awaited position is not done while the consumer sleeps; when all are done nobody sleeps |
| WhenEachSteps.CompletionClaims | coroutine.h:1944-1950 | `add` registers the next awaitable; a completion claims the next position |
| WhenEachSteps.CompletionWrites | coroutine.h:1946-1954 | it writes its index there, and goes on to wake the consumer iff that is suspended on this very position |
| WhenEachSteps.CompletionWakes | coroutine.h:1952-1954 | it wakes exactly the coroutine suspended |
| WhenEachSteps.ReadyIfComplete | coroutine.h:1849-1851 | `await_ready` is true iff the next position is complete or there is none |
| WhenEachSteps.SuspendsIfIncomplete | coroutine.h:1860-1864 | the coroutine is suspended iff the position is still not complete at the compare-exchange |
| WhenEachSteps.ResumesWithTheClaimant | coroutine.h:1853-1858 | `await_resume` returns the producer that claimed the next position, and advances |
| WhenEachSteps.WholeLifeByOvertaking | coroutine.h:1849-1864 | a compare-exchange fails only if its position was completed since the `await_ready` before it; a whole life is orderly iff no completion falls between the two |
| WhenEachSteps.InterruptedAwaitGoesOn | coroutine.h:1860-1864 | what becomes of an await interrupted by a stale handle: it ends on the position after the one it stored the handle for |
| WhenEachSteps.DestroysWhatIsLeft | coroutine.h:1845-1847 | the destructor resumes what a failed compare-exchange left, and nobody otherwise |
| WhenEachSteps.StaleAwaitFaults | coroutine.h:1860-1864 | storing over a stale handle resumes it while nobody is suspended; if it is that of the awaiting coroutine, that one reads an index nobody wrote iff the position is not complete |
| WhenEachSteps.SpuriousHappens | coroutine.h:1860-1863 | a concrete interleaving in which the second await resumes the coroutine inside `await_suspend`, to an invalid index |
| WhenEachSteps.DestructionResumes | coroutine.h:1845-1847 | a concrete interleaving in which the destructor resumes a coroutine that has had its result |
| WhenEachSteps.WhenEach.Resumed | coroutine.h:1944-1955 | is claim, exchange and hand-over of the model; the claimed position is in range and the handle, if needed, is there |
| WhenEachSteps.WhenEach.AwaitReady | coroutine.h:1849-1851 | true iff the next position is complete or none is left |
| WhenEachSteps.WhenEach.StoreHandle | coroutine.h:1861 | assigning `_r` resumes what it held, which is a handle iff the last compare-exchange failed |
| WhenEachSteps.WhenEach.AwaitSuspend | coroutine.h:1860-1864 | suspended iff the position is not complete, which is marked then, and failed with nothing written otherwise; with a stale handle it gets as far as resuming that |
| WhenEachSteps.WhenEach.Destroy | coroutine.h:1845-1847 | is the model's step; resumes a stale handle iff the last compare-exchange failed |
| WhenEachSteps.WhenEach.AwaitResume | coroutine.h:1853-1858 | returns the next index in claim order, or the count when exhausted |
| LimitedQueueModel.CellsDiffer | coro_queue.h:37-56 | fewer than `count` consecutive positions use different cells |
| LimitedQueueModel.WrapKeepsCell | coro_queue.h:37-69 | a wrapped counter still names its cell if the count divides 2^32 |
| LimitedQueueModel.PushRefines | coro_queue.h:38-42 | a guarded push constructs in a dead cell and appends to the contents |
| LimitedQueueModel.PopRefines | coro_queue.h:50-56 | a guarded pop reads a live cell, returns the oldest item and destroys it |
| LimitedQueueModel.RunRefines | coro_queue.h:21-56 | any run of guarded operations is the run of a bounded FIFO sequence, for counts that divide 2^32, or until `_front` has wrapped |
| LimitedQueueModel.SoundExactly | coro_queue.h:21-69 | all runs keep to dead and live cells iff the count divides 2^32 |
| LimitedQueueModel.LimitedQueue.constructor | coro_queue.h:67-69 | an empty ring, every cell dead |
| LimitedQueueModel.LimitedQueue.Full | coro_queue.h:21-23 | true iff the contents have `count` items, though the counters wrap |
| LimitedQueueModel.LimitedQueue.Empty | coro_queue.h:26-28 | true iff there are no contents |
| LimitedQueueModel.LimitedQueue.Push | coro_queue.h:38-42 | appends, in a dead cell |
| LimitedQueueModel.LimitedQueue.Pop | coro_queue.h:50-56 | returns and removes the oldest, from a live cell |
| AwaitableModel.StepKeepsInv | coroutine.h:723-1310 | each operation touches only the union member the tag names, starts nothing twice, and hands out each stored handle once (with the end of a coroutine frame, lines 407-420, and `set_callback_internal`, lines 1552-1572) |
| AwaitableModel.SuspendOk | coroutine.h:809-821 | `await_suspend` starts the prepared operation, or wakes at once when an empty coroutine drops the result |
| AwaitableModel.SetCallbackOk | coroutine.h:1552-1572 | attaching a callback starts the operation with the callback's own awaitable and leaves this one empty |
| AwaitableModel.DestroyOk | coroutine.h:1058-1074 | the destructor starts a prepared operation in detached mode, never a started one |
| AwaitableModel.PromiseEndsOk | coroutine.h:407-420 | final_suspend and the promise destructor both keep the invariant, and only the first hands a handle out (which one, and with what, is `CoroutineEndWakes`) |
| AwaitableModel.AwaitablesAreLinear | coroutine.h:723-1310 | over every sequence of operations that moves no callback under way: the tag names the live member, nothing faults, each operation is started at most once, and at each address handles handed out are those stored, in order, each once (including lines 407-420, 476-483 and 1552-1572) |
| AwaitableModel.CarefulExactly | coroutine.h:723-1310 | nothing invalid can come of a run, however it goes on, iff it moves no awaitable whose callback is under way |
| AwaitableModel.ResultIsSingleUse | coroutine.h:1179-1306 | the first use of a result settles the awaitable and hands its handle out, a second use changes nothing |
| AwaitableModel.ResultResolves | coroutine.h:1179-1306 | using a result sets what it is used with and hands out the handle that awaits it, and nothing else |
| AwaitableModel.CoroutineEndWakes | coroutine.h:407-420 | the end of a coroutine hands out the handle of the one that awaits it, once, leaving its value or exception if one was set and no value otherwise |
| AwaitableModel.CoroutineDelivers | coroutine.h:346-420 | in every careful run, what a coroutine returned or threw is what the one awaiting it finds when it is resumed |
| AwaitableModel.AwaitLasts | coroutine.h:809-1118 | until its coroutine ends or its result is used, an awaitable keeps its handle and nobody is handed it, whatever else happens |
| AwaitableModel.Constructs | coroutine.h:655-715 | an awaitable is constructed resolved, or with an operation prepared and not started |
| AwaitableModel.MoveTransfers | coroutine.h:723-734 | the new object has the value or the prepared operation of the old one, which keeps its handle only |
| AwaitableModel.SuspendStarts | coroutine.h:809-821 | awaiting stores the handle and starts the prepared operation, or wakes at once if there is none to wait for |
| AwaitableModel.SetCallbackStarts | coroutine.h:1552-1572 | the operation is started for the awaitable of the callback, and the old one left empty |
| AwaitableModel.ResultsAreCreated | coroutine.h:924-1005 | `create_result` and `cancel` are refused iff somebody awaits; `get_temp_state` gives the space up to the caller |
| AwaitableModel.DestroyStarts | coroutine.h:1058-1074 | destruction starts exactly what is still prepared |
| AwaitableModel.MoveSafeExactly | coroutine.h:723-734 | no continuation of a move can fault iff no callback of the object is under way, and none is while nobody awaits it |
| AwaitableModel.MovedCallbackFaults | coroutine.h:723-734 | for a callback stored inside and for a boxed one, a concrete run in which the destructor of the new object calls what it must not |
| AwaitableCode.PreparedCoro.Take | coroutine.h:257-281 | over any sequence of uses, handles put in are given out in order, each once, all but the one held |
| AwaitableCode.PreparedCoro.Assign | coroutine.h:274-281 | assignment resumes what was held and takes over the other's handle, which the other no longer has; each handle still goes out once |
| AwaitableCode.AwaitableObject.DestroyState | coroutine.h:1076-1085 | destroys the member that is alive |
| AwaitableCode.AwaitableObject.Settle | coroutine.h:1087-1113 | replaces whatever is alive by the value, the exception or nothing |
| AwaitableCode.AwaitableObject.Wakeup | coroutine.h:1115-1118 | gives the handle out as a fresh prepared coroutine and leaves the awaitable ready and without owner |
| AwaitableCode.AwaitableObject.Move | coroutine.h:723-734 | is the model's step on any object; the new one is sound iff no callback was under way |
| AwaitableCode.AwaitableObject.AwaitSuspend | coroutine.h:809-821 | is the model's step: yields the prepared operation, which is then no longer prepared, and stores the handle, or drops and wakes at once for an empty coroutine |
| AwaitableCode.AwaitableObject.CreateResult | coroutine.h:924-928 | is the model's step, refused iff somebody awaits |
| AwaitableCode.AwaitableObject.Cancel | coroutine.h:935-939 | empties the awaitable without starting anything, refused iff somebody awaits |
| AwaitableCode.AwaitableObject.Dtor | coroutine.h:1058-1074 | starts exactly the operation still prepared; ends the program iff somebody awaits |
| AwaitableCode.AwaitableObject.SetCallback | coroutine.h:1552-1572 | is the model's step on two objects; a ready awaitable calls the callback at once and is not changed |
| AwaitableCode.AwaitableResult.GetTempState | coroutine.h:995-1005 | destroys the closure or whatever else is alive before the space is used, nothing for an empty result |
| AwaitableCode.AwaitableResult.Use | coroutine.h:1179-1306 | resolves and wakes once; an empty result does nothing |
| DistributorModel.SwapRemoveKeeps | coro_distributor.h:117-120 | takes out exactly the entry found and moves none but the last |
| DistributorModel.DeliveryExactly | coro_distributor.h:50-176 | once every kick_out has returned, a run has done nothing invalid and dropped nobody iff nothing disturbed a kick_out under way, and no second broadcast filled the vector being cleared |
| DistributorModel.StepKeepsInv | coro_distributor.h:50-176 | each undisturbing step keeps every position held by a kick_out that of its own emptied entry, and the accounts of every registration |
| DistributorModel.DisturbanceDooms | coro_distributor.h:104-123 | a disturbance is invalid itself or leaves some kick_out without its entry |
| DistributorModel.DoomedRun | coro_distributor.h:104-123 | then not every kick_out can return without something invalid or a registration dropped |
| DistributorModel.AtomicIsUndisturbed | coro_distributor.h:104-123 | runs in which nothing happens while a resolver runs are undisturbed |
| DistributorModel.ReregistrationFaults | coro_distributor.h:104-123 | a run: one listener registers again inside the resolver, the vector reallocates, and kick_out goes on with an invalid position |
| DistributorModel.SecondKickDropsAnother | coro_distributor.h:104-123 | a run without reallocation in which a kick_out inside another makes that one destroy a registration under another identity |
| DistributorModel.RebroadcastFaults | coro_distributor.h:88-93 | a run in which a broadcast begins while another clears `_ready_to_run` |
| DistributorModel.ResolvedExactlyOnce | coro_distributor.h:50-176 | over every undisturbed run, re-registrations inside a resolver included, an accepted registration is resolved exactly once, or still registered, or with the resolver it was handed to; resolved ones are resumed once or still to be |
| DistributorModel.NextBroadcastDelivers | coro_distributor.h:73-79 | in undisturbed runs a registration is resolved exactly once up to and with the next broadcast, by that very value unless it was removed before, or is with the resolver it was handed to |
| DistributorModel.AlertTurnsAway | coro_distributor.h:55-176 | in any run, from an alert until the reset no alertable registration under the flag is accepted, and a coroutine alone under it is not registered |
| DistributorModel.Registers | coro_distributor.h:50-60 | a fresh registration is appended as the last and accepted; an alertable one iff its flag is not set, and turned away otherwise |
| DistributorModel.RegisteredIsDelivered | coro_distributor.h:50-79 | from the call to the delivery: a fresh registration not turned away, and not heard of in the undisturbed stretch after it, gets the value of the broadcast that ends the stretch |
| DistributorModel.LiveRegsInOrder | coro_distributor.h:75-77 | what a broadcast delivers to comes in the order of the list |
| DistributorModel.BroadcastDeliversInOrder | coro_distributor.h:73-93 | a broadcast delivers its value to every registration, in order, and leaves none |
| DistributorModel.KicksOutTheFirst | coro_distributor.h:106-116 | the first registration under the identity is handed to the resolver, and no other |
| DistributorModel.KickEndRemovesIt | coro_distributor.h:117-122 | an undisturbed kick_out then takes out exactly the entry it emptied, and moves none but the last |
| DistributorModel.AlertTakesTheFirst | coro_distributor.h:159-176 | an alert sets the flag and resolves and takes out the first registration under it, if any |
| DistributorModel.FlagIsLastAlert | coro_distributor.h:159-176 | in every run a flag is set iff its last alert came after its last reset |
| DistributorModel.Distributor.PushBack | coro_distributor.h:52 | appends, and makes every held position invalid iff the vector is full |
| DistributorModel.Distributor.AddListener | coro_distributor.h:50-54 | exactly the registration is appended, and accepted |
| DistributorModel.Distributor.AddAlertable | coro_distributor.h:55-60 | exactly the registration is appended iff the flag is not set, nothing otherwise, and it is accepted or turned away accordingly |
| DistributorModel.Distributor.ResolveAll | coro_distributor.h:74-78 | collects every registration in order and leaves none |
| DistributorModel.Distributor.Broadcast | coro_distributor.h:73-79 | is the model's step, the buffer holding every registration in order |
| DistributorModel.Distributor.FindIf | coro_distributor.h:108-110 | the first entry under the identity, or the end |
| DistributorModel.Distributor.SwapPop | coro_distributor.h:117-120 | swaps with the last and pops, which makes positions held at the end invalid |
| DistributorModel.Distributor.CallResolver | coro_distributor.h:106-116 | hands the result of the first registration under the identity to the resolver and leaves the entry emptied |
| DistributorModel.Distributor.Remove | coro_distributor.h:117-120 | removes at the position held, or says that it is invalid |
| DistributorModel.Distributor.KickOut | coro_distributor.h:104-123 | whatever calls are made and return while the resolver runs, is a run of the model; if nothing disturbs it, it goes well and nobody is dropped |
| DistributorModel.Distributor.Alert | coro_distributor.h:159-176 | sets the flag; resolves and takes out the first registration under it, if any, and no other |

## Left out

- `multi_lock` (coro_mutex.h:203-328): `lock_others` keeps each `try_lock` result in a loop-local variable, so it is released at once; the claim that all locks are held is not what the code does.
- `coro_basic_queue` (coro_queue.h:100-183): its suspended push does not capture the value; only `limited_queue` is a finished core.
- `manual_scheduler` (coro_scheduler.h:140-260): `advance_time_until` disagrees with its own comment.
- Weak memory orders; coroutine frames, symmetric transfer, allocators, exception objects, `async_generator`, synchronous waiting and `scheduler::await`.
- `CoroMutexCode.CoroMutex.Push`: interference is any finite number of steps; the retry loop is lock-free, not wait-free, so it need not end among steps without end.
- The temporary state that `lock` obtains before it enters `add_request` (coro_mutex.h:105-115): a request starts with its slot at hand.
- `WhenEachSteps.ReturnsAreAPermutation`: restricted to orderly runs, because it is false in others (`StaleAwaitFaults`); positions are numbers without wrap-around, which fits the code for fewer than 2^32 - 2 awaitables.
- `WhenEachSteps.EachAwaitIsWokenOnce`: restricted to orderly runs, because it is false in all others (`OrderlyExactly`).
- `AwaitableModel.AwaitablesAreLinear`: restricted to runs that move no callback under way, because it is false otherwise (`CarefulExactly`).
- `MutexRuns.MutualExclusion`: of the test on the value found; for the test as a later read see `MutexReread.RereadExactly`.
- `SchedulerProtocol.NobodyOversleeps`: restricted to runs whose alertable sleeps find the flag set or the heap not empty, because it is false otherwise (`AlertableSafeExactly`).
- `SchedulerCode.Scheduler.RunThreadTurn`: one turn of the loop; the loop of `run_thread` is the repetition of turns, executor returns and wake-ups in `SchedulerProtocol`.
- `DistributorModel.ResolvedExactlyOnce`: restricted to undisturbed runs, because it is false otherwise (`DeliveryExactly`).
- `DistributorModel.NextBroadcastDelivers`: restricted to undisturbed runs, as `ResolvedExactlyOnce`.
- `DistributorModel.DeliveryExactly`: of runs after which every kick_out has returned; one that has not has done nothing with its position yet.
- A resolver of `kick_out` that throws, or takes the result by reference and leaves it where it is; the broadcast through `_ready_to_run` as a method (it is a pair of steps of `DistributorModel`).
- `cancel` with a value or an exception: it is `remove_by_ident` followed by the use of the result.
- `has_value`, `begin` and the other read frames of `awaitable`, and `await_member_callback`: thin adapters over the operations modelled.
