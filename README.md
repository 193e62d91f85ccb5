# asyncpp: the sequential kernel, in Dafny

asyncpp is a C++20 coroutine toolkit: an async mutex, four kinds of event,
a latch, a rendezvous channel, a bounded queue, lazy tasks, fire-and-forget
tasks, synchronous and asynchronous generators, stackful fibers, promises
with combinators, an intrusive reference count, signals and slots, a stop
token, pointer tagging, a locked FIFO, a scope guard and a frame allocator
hook. Each primitive commits its work at one lock or one compare-and-swap;
this project models what happens at that point as one sequential step over
the primitive's state and its intrusive wait lists, and proves what the
primitive promises about those steps.

Conventions used throughout:

- A coroutine handle, an awaiter and a dispatcher are opaque ids
  (`Common.Handle`, `Common.Dispatcher`). Resuming a coroutine, inline or by
  pushing it to a dispatcher, appends a `Common.Resumption` (handle,
  delivered value, target) to a resumption log, so "resumed exactly once,
  in this order, on this dispatcher" is a statement about that log.
- An exception is an opaque id (`Common.ExceptionId`); results that may hold
  one are datatypes.
- A coroutine body is an abstract script of steps (yield, await, return,
  throw) that the frame state machine of the task, generator or fiber
  interprets.
- Every primitive whose fields the C++ code updates in place is a Dafny
  class with those fields; its methods state the new state (often through
  a pure step function on a value view of the object) and keep its
  invariant. Loops of the C++ code (walking and draining wait lists,
  reversing the mutex stack, the fiber resume loop, running stop
  callbacks, invoking slots) are `while` loops with invariants.
- Where the code does something other than what its documentation or its
  tests say, the class follows the code, and the difference is shown under
  "## Findings" with a member for the code as written and one for the
  evident intent.

One file per header, one module per file:

| file | header | module |
|---|---|---|
| common.dfy | shared vocabulary | Common |
| mutex.dfy | include/asyncpp/mutex.h | Mutex |
| event.dfy | include/asyncpp/event.h | Event |
| latch.dfy | include/asyncpp/latch.h | Latch |
| channel.dfy | include/asyncpp/channel.h | Channel |
| queue.dfy | include/asyncpp/queue.h | Queue |
| task.dfy | include/asyncpp/task.h | Tasks |
| fire_and_forget.dfy | include/asyncpp/fire_and_forget.h | FireAndForget |
| generator.dfy | include/asyncpp/generator.h | Generator |
| async_generator.dfy | include/asyncpp/async_generator.h | AsyncGenerator |
| fiber.dfy | include/asyncpp/fiber.h | Fiber |
| promise.dfy | include/asyncpp/promise.h | Promises |
| ref.dfy | include/asyncpp/ref.h | Refs |
| signal.dfy | include/asyncpp/signal.h | Signals |
| stop_token.dfy | include/asyncpp/stop_token.h | StopTokens |
| ptr_tag.dfy | include/asyncpp/ptr_tag.h | PtrTag |
| threadsafe_queue.dfy | include/asyncpp/threadsafe_queue.h | ThreadsafeQueue |
| scope_guard.dfy | include/asyncpp/scope_guard.h | ScopeGuard |
| promise_allocator.dfy | include/asyncpp/detail/promise_allocator_base.h | PromiseAllocator |

Members whose names end in `Scenario` replay the behaviour that a test
of the repository (or the header's own documentation) describes, on fresh
objects, and state its outcome.

## Model

| member | source | states |
|---|---|---|
| Common.ResumeTarget | include/asyncpp/event.h:68-74 | a waiter resumes on its own dispatcher, else on the fallback the waking call received, else inline |
| Common.Handles | include/asyncpp/event.h:62-78 | the resumed handles of a log, one per entry and in the same order |
| Common.HandlesAppend | include/asyncpp/event.h:62-78 | the handles of two logs run one after the other are the handles of the first followed by those of the second |
| Mutex.ReversePush | include/asyncpp/mutex.h:227-235 | reversing the stack puts its head, the newest arrival, last |
| Mutex.TryLockStep | include/asyncpp/mutex.h:55-59 | try_lock succeeds exactly when the mutex is unlocked and then leaves it held with no waiter; a failed try_lock changes nothing |
| Mutex.LockSuspendStep | include/asyncpp/mutex.h:99-114 | an unlocked mutex is acquired without suspending; a held one gains the awaiter as its newest waiter and the awaiter suspends; the batch is untouched and the mutex is held either way |
| Mutex.UnlockStep | include/asyncpp/mutex.h:218-240 | unlock with no waiter leaves the mutex unlocked; otherwise it resumes the oldest waiter, which leaves the line, and the mutex stays held |
| Mutex.Arrive | include/asyncpp/mutex.h:99-114 | waiters arriving one after another at a held mutex keep it held and well formed |
| Mutex.ArriveAppends | include/asyncpp/mutex.h:107-111 | every waiter that suspends on a held mutex joins the end of the line |
| Mutex.DrainInArrivalOrder | include/asyncpp/mutex.h:227-239 | k unlocks resume the first k waiters in arrival order and leave the rest waiting |
| Mutex.FifoHandOff | test/mutex.cpp:21-44 | waiters queued on a held mutex are each resumed once, in arrival order, and the mutex stays held by the last one |
| Mutex.DrainLeavesLastHolder | include/asyncpp/mutex.h:237-239 | unlocks that each hand the lock to a waiter leave the mutex held |
| Mutex.Mutex.constructor | include/asyncpp/mutex.h:31 | a new mutex is unlocked with no waiter |
| Mutex.Mutex.Locked | include/asyncpp/mutex.h:33 | a mutex constructed locked is held with no waiter |
| Mutex.Mutex.IsLockedNow | include/asyncpp/mutex.h:85 | is_locked holds exactly when the state word is not the unlocked value |
| Mutex.Mutex.TryLock | include/asyncpp/mutex.h:55-59 | the object follows TryLockStep and resumes nobody |
| Mutex.Mutex.LockSuspend | include/asyncpp/mutex.h:94-114 | the object follows LockSuspendStep for a fresh awaiter and resumes nobody |
| Mutex.Mutex.Unlock | include/asyncpp/mutex.h:218-240 | the object follows UnlockStep and logs the one resumed waiter; no awaiter is ever resumed twice |
| Mutex.MutexLock.Adopt | include/asyncpp/mutex.h:127-129 | adopting requires a held mutex and marks the handle as holding it |
| Mutex.MutexLock.constructor | include/asyncpp/mutex.h:134 | the plain constructor attaches the mutex without locking it |
| Mutex.MutexLock.Unlock | include/asyncpp/mutex.h:157-161 | requires the handle to hold the lock, unlocks the mutex as UnlockStep does and clears the flag |
| Mutex.MutexLock.TryLock | include/asyncpp/mutex.h:168-173 | requires the handle not to hold the lock; the flag records whether try_lock on the mutex succeeded |
| Mutex.MutexLock.LockReady | include/asyncpp/mutex.h:184 | the lock awaiter is ready when the handle already holds the lock |
| Mutex.MutexLock.LockResume | include/asyncpp/mutex.h:186-189 | resuming the lock awaiter marks the lock as held |
| Mutex.MutexLock.Destroy | include/asyncpp/mutex.h:149-151 | the destructor unlocks the mutex only when the handle holds it |
| Mutex.MutexLock.MoveAssign | include/asyncpp/mutex.h:141-148 | move assignment first releases a held lock, then takes over the other handle's mutex and flag and leaves the other handle empty; a mutex the handle did not hold is left unchanged; a self-move releases the lock and leaves the handle empty |
| Mutex.ScopedLockResume | include/asyncpp/mutex.h:204-212 | lock_scoped resumes with a fresh mutex_lock that holds the acquired lock |
| Event.Wake | include/asyncpp/event.h:349-358 | set resumes each listed waiter exactly once, in list order, each on the target ResumeTarget picks for it |
| Event.HandlesOf | include/asyncpp/event.h:402-411 | the handles of a waiter list, one per waiter and in order |
| Event.SingleSet | include/asyncpp/event.h:62-78 | single_consumer_event::set leaves the event set; it returns true exactly when a waiter was suspended, and resumes that waiter once on its chosen target |
| Event.SingleReset | include/asyncpp/event.h:83-86 | reset turns only a set event into unset; an unset or awaited event is left as it was |
| Event.SingleAwait | include/asyncpp/event.h:122-133 | a single-consumer awaiter suspends exactly when the event is unset, and installs itself; on a set event it continues and changes nothing |
| Event.AutoSingleSet | include/asyncpp/event.h:198-219 | the auto-reset set resumes a suspended waiter and leaves the event unset; with no waiter it leaves the event set and returns false |
| Event.AutoSingleAwait | include/asyncpp/event.h:263-276 | the auto-reset awaiter suspends exactly on an unset event; on a set event it consumes the set, leaving the event unset, and continues |
| Event.SingleWakesOnce | test/event.cpp:33-43 | with one waiter, the first set wakes it and a second set wakes nobody |
| Event.AutoSingleSetIsConsumedOnce | test/event.cpp:109-118 | a set with no waiter is consumed by exactly one later await, which does not suspend, and the next await suspends |
| Event.MultiAwait | include/asyncpp/event.h:402-413 | a multi-consumer awaiter continues without change on a set event; otherwise it is pushed at the head of the waiter list and suspends |
| Event.MultiSet | include/asyncpp/event.h:339-359 | multi_consumer_event::set leaves the event set, resumes every waiter once from the head of the list, and returns false only when the event was already set |
| Event.AutoMultiSet | include/asyncpp/event.h:478-503 | the auto-reset set returns true exactly when there were waiters; it resumes all of them and leaves the event unset, and otherwise leaves it set |
| Event.MultiReset | include/asyncpp/event.h:362-365 | reset turns only a set event into unset and leaves a waiting list alone |
| Event.MultiArrive | include/asyncpp/event.h:402-413 | waiters arriving at an unset event keep it unset and well formed |
| Event.MultiArriveStacks | include/asyncpp/event.h:407-410 | arrivals stack up: the list holds the waiters newest first |
| Event.MultiSetWakesNewestFirst | include/asyncpp/event.h:346-358 | both multi-consumer events resume their waiters in reverse order of arrival |
| Event.MultiSetReportsWakeWithoutWaiter | include/asyncpp/event.h:339-342 | as written, set on an unset event with no waiter returns true although it resumed nobody |
| Event.MultiSetDocumented | include/asyncpp/event.h:333-338 | the documented set: it returns true exactly when it resumed a waiter |
| Event.AutoMultiFastPathKeepsSet | include/asyncpp/event.h:545-551 | as written, an awaiter passing a set auto-reset event does not reset it, so a second awaiter passes too |
| Event.AutoMultiAwaitConsuming | test/event.cpp:288-297 | the intended fast path consumes the set: the event is never left set by an await, and one that does not suspend leaves it unset |
| Event.AutoMultiConsumingLetsOneThrough | test/event.cpp:288-297 | with the intended fast path exactly one awaiter passes a set event and the next one suspends |
| Event.SingleConsumerEvent.constructor | include/asyncpp/event.h:36-37 | the event starts set or unset as asked, with nothing resumed |
| Event.SingleConsumerEvent.IsSet | include/asyncpp/event.h:45 | is_set holds exactly when the word is set |
| Event.SingleConsumerEvent.IsAwaited | include/asyncpp/event.h:51-54 | is_awaited holds exactly when an awaiter is installed |
| Event.SingleConsumerEvent.SetEvent | include/asyncpp/event.h:62-78 | the object follows SingleSet or AutoSingleSet and logs the resumptions; no awaiter is resumed twice |
| Event.SingleConsumerEvent.Reset | include/asyncpp/event.h:83-86 | the object follows SingleReset |
| Event.SingleConsumerEvent.AwaitReady | include/asyncpp/event.h:122 | ready exactly when a manual-reset event is set; the auto-reset awaiter is never ready |
| Event.SingleConsumerEvent.AwaitSuspend | include/asyncpp/event.h:123-133 | the object follows SingleAwait or AutoSingleAwait; a second concurrent awaiter is excluded by the precondition |
| Event.MultiConsumerEvent.constructor | include/asyncpp/event.h:312-313 | the event starts set or unset as asked, with nothing resumed |
| Event.MultiConsumerEvent.IsSet | include/asyncpp/event.h:322 | is_set holds exactly when the word is set |
| Event.MultiConsumerEvent.IsAwaited | include/asyncpp/event.h:328-331 | is_awaited holds exactly when some waiter is listed |
| Event.MultiConsumerEvent.SetEvent | include/asyncpp/event.h:339-359 | the object follows MultiSet or AutoMultiSet and logs the resumptions; no awaiter is resumed twice |
| Event.MultiConsumerEvent.Reset | include/asyncpp/event.h:362-365 | the object follows MultiReset |
| Event.MultiConsumerEvent.AwaitReady | include/asyncpp/event.h:401 | await_ready is is_set |
| Event.MultiConsumerEvent.AwaitSuspend | include/asyncpp/event.h:402-413 | the object follows MultiAwait for a fresh awaiter |
| Event.ResumeAll | include/asyncpp/event.h:346-358 | the loop over the taken list performs exactly the resumptions Wake describes |
| Event.WakeAppend | include/asyncpp/event.h:346-358 | waking two lists one after the other is waking their concatenation |
| Event.WakeHandles | include/asyncpp/event.h:346-358 | the resumed handles are the waiters' handles, in order |
| Latch.Decrement | include/asyncpp/latch.h:42-44 | as written, decrement lowers the counter by n and sets the event only when the counter was zero BEFORE the subtraction |
| Latch.CountdownToZeroIsNotReady | include/asyncpp/latch.h:43 | as written, counting a latch of 1 down to 0 leaves it not ready |
| Latch.DecrementIntended | include/asyncpp/latch.h:46-48 | the intended decrement makes the latch ready once the counter reaches zero |
| Latch.IntendedReadyIffZero | include/asyncpp/latch.h:26 | with the intended decrement a latch is ready after any admissible decrements exactly when its counter is zero |
| Latch.ReadyIffZeroFrom | include/asyncpp/latch.h:42-44 | the intended decrement keeps "ready exactly when zero" |
| Latch.ReadyIsStableAndZero | include/asyncpp/latch.h:42-44 | as written, a ready latch stays ready and readiness only appears at a zero counter |
| Latch.Latch.constructor | include/asyncpp/latch.h:26 | a new latch holds the initial count and is ready exactly when that count is 0 |
| Latch.Latch.IsReady | include/asyncpp/latch.h:35 | is_ready is the event's is_set |
| Latch.Latch.DecrementBy | include/asyncpp/latch.h:42-44 | the object follows Decrement and keeps readiness implying a zero counter; when the count was zero before, every waiter of the event is resumed in order, and otherwise the event and its log are untouched |
| Latch.Latch.WaitReady | include/asyncpp/latch.h:49-54 | awaiting the latch is ready exactly when its event is set |
| Latch.Latch.WaitSuspend | include/asyncpp/latch.h:49-54 | awaiting the latch suspends as the event's awaiter does |
| Channel.CancelReaders | include/asyncpp/channel.h:193-205 | close resumes every waiting reader once, in list order, with none |
| Channel.CancelWriters | include/asyncpp/channel.h:206-219 | close resumes every waiting writer once, in list order, with false |
| Channel.TryReadStep | include/asyncpp/channel.h:142-161 | try_read on an open channel with a waiting writer takes the oldest writer's value and resumes that writer with true; otherwise it returns none and changes nothing |
| Channel.TryWriteStep | include/asyncpp/channel.h:169-187 | try_write on an open channel with a waiting reader hands the value to the oldest reader and resumes it; otherwise it returns false and changes nothing |
| Channel.CloseStep | include/asyncpp/channel.h:190-220 | the first close closes the channel and cancels all readers, then all writers; a later close does nothing |
| Channel.ReadSuspendStep | include/asyncpp/channel.h:228-258 | a reader takes the oldest writer's value without suspending, and that writer is resumed with true; with no writer the reader joins the tail and suspends |
| Channel.WriteSuspendStep | include/asyncpp/channel.h:271-302 | a writer on a closed channel continues; an open one with a reader hands over its value without suspending; otherwise it joins the tail; as written its result stays false whenever it does not suspend |
| Channel.DeliveredWriteReportsFalse | include/asyncpp/channel.h:278-290 | as written, a write that delivered its value to a waiting reader completes with false, like a write to a closed channel |
| Channel.WriteSuspendIntended | include/asyncpp/channel.h:305-307 | the intended write: a write that does not suspend reports true exactly when it delivered its value |
| Channel.WritersArrive | include/asyncpp/channel.h:292-301 | writers arriving at an open channel with no reader keep it open with no reader |
| Channel.Values | include/asyncpp/channel.h:142-161 | the values of a writer list, in order |
| Channel.WritersArriveAppends | include/asyncpp/channel.h:292-301 | each writer that suspends joins the end of the writer list |
| Channel.ReadManyTakesOldest | include/asyncpp/channel.h:142-161 | k try_reads return the k oldest writers' values in order and leave the rest |
| Channel.WritersAreConsumedFifo | test/channel.cpp:88-117 | queued writers are read first in, first out |
| Channel.ClosedIsFinal | include/asyncpp/channel.h:190-192 | close is idempotent and final: afterwards try_read returns none, try_write false, and both awaiters are ready at once |
| Channel.Seen | include/asyncpp/channel.h:142-307 | every awaiter the channel has resumed or still holds, resumed readers and writers first, then the waiting readers and writers |
| Channel.TakeWriterKeepsNoDup | include/asyncpp/channel.h:142-161 | when a read takes the oldest waiting writer and resumes it, no awaiter has been resumed twice or both resumed and still waiting |
| Channel.TakeReaderKeepsNoDup | include/asyncpp/channel.h:169-187 | when a write hands its value to the oldest waiting reader, the same distinctness of all awaiters is kept |
| Channel.CloseKeepsNoDup | include/asyncpp/channel.h:190-220 | cancelling every reader and then every writer on close resumes each at most once, and none stays waiting |
| Channel.ReaderArrivesKeepsNoDup | include/asyncpp/channel.h:250-258 | a reader that suspends, not seen before, keeps all awaiters distinct |
| Channel.WriterArrivesKeepsNoDup | include/asyncpp/channel.h:292-301 | a writer that suspends, not seen before, keeps all awaiters distinct |
| Channel.CancelAllReaders | include/asyncpp/channel.h:193-205 | close's loop over the reader list performs exactly CancelReaders |
| Channel.CancelAllWriters | include/asyncpp/channel.h:206-219 | close's loop over the writer list performs exactly CancelWriters |
| Channel.Channel.constructor | include/asyncpp/channel.h:26-29 | a new channel is open with no waiter |
| Channel.Channel.IsClosed | include/asyncpp/channel.h:78 | is_closed reports the closed flag |
| Channel.Channel.TryRead | include/asyncpp/channel.h:142-161 | the object follows TryReadStep and logs the writer it resumes; no awaiter is resumed twice or resumed while still waiting |
| Channel.Channel.TryWrite | include/asyncpp/channel.h:169-187 | the object follows TryWriteStep and logs the reader it resumes; no awaiter is resumed twice or resumed while still waiting |
| Channel.Channel.Close | include/asyncpp/channel.h:190-220 | the object follows CloseStep and logs every cancellation; no awaiter is resumed twice or resumed while still waiting |
| Channel.Channel.ReadReady | include/asyncpp/channel.h:223-225 | a read is ready exactly when the channel is closed |
| Channel.Channel.ReadSuspend | include/asyncpp/channel.h:228-263 | the object follows ReadSuspendStep; no awaiter is resumed twice or resumed while still waiting |
| Channel.Channel.WriteReady | include/asyncpp/channel.h:266-268 | a write is ready exactly when the channel is closed |
| Channel.Channel.WriteSuspend | include/asyncpp/channel.h:271-307 | the object follows WriteSuspendStep; no awaiter is resumed twice or resumed while still waiting |
| Queue.PushValues | include/asyncpp/queue.h:403-416 | the values suspended producers still hold, in list order |
| Queue.FailPops | include/asyncpp/queue.h:173-208 | failing consumers resumes each one once, in order, with none |
| Queue.FailPushes | include/asyncpp/queue.h:296-311 | failing producers resumes each one once, in order, with false |
| Queue.EmptyIffSizeZero | include/asyncpp/queue.h:211-223 | empty holds exactly when size is zero, which is exactly when no accepted value is pending |
| Queue.TryPushStep | include/asyncpp/queue.h:226-242 | try_push fails with no change on a full buffer; otherwise it hands the value to the oldest waiting consumer, or appends it to the pending values when none waits |
| Queue.TryPopStep | include/asyncpp/queue.h:265-283 | try_pop returns none with no change on an empty buffer; otherwise it returns the oldest pending value, and the oldest suspended producer, if any, moves its value into the buffer and is resumed with true |
| Queue.PopSuspendStep | include/asyncpp/queue.h:349-363 | a consumer that finds the buffer empty joins the tail, on its own dispatcher or else the queue's default one; the pending values are unchanged |
| Queue.PushReadyStep | include/asyncpp/queue.h:381-400 | a producer is ready when a consumer waits, which takes the value directly, or when the buffer has room, which takes the value; otherwise nothing changes and it must suspend |
| Queue.PushSuspendStep | include/asyncpp/queue.h:403-416 | a producer that must wait joins the tail with its value, which becomes the newest pending value, and size grows by one |
| Queue.ClearStep | include/asyncpp/queue.h:296-311 | clear leaves the queue empty with size zero, fails every suspended producer with false and keeps waiting consumers and the bound |
| Queue.MoveAssignStep | include/asyncpp/queue.h:173-208 | move assignment fails the target's own waiters and takes over the source's whole state, leaving the source with no waiter and an empty buffer |
| Queue.PopManyInOrder | include/asyncpp/queue.h:265-283 | successive pops hand out the pending values in the order the queue accepted them |
| Queue.PushAll | include/asyncpp/queue.h:381-416 | producers pushing with no consumer waiting keep the queue well formed with no consumer |
| Queue.PushAllAppends | include/asyncpp/queue.h:381-416 | every pushed value joins the end of the pending values, whether it was buffered or its producer suspended |
| Queue.PushesPopInOrder | test/queue.cpp:36-71 | whatever the bound, values pushed into an empty queue pop out in the order pushed |
| Queue.Seen | include/asyncpp/queue.h:173-416 | every awaiter the queue has resumed or still holds, resumed consumers and producers first, then the waiting consumers and producers |
| Queue.TakePopKeepsNoDup | include/asyncpp/queue.h:226-242 | when a push hands its value to the oldest waiting consumer and resumes it, no awaiter has been resumed twice or both resumed and still waiting |
| Queue.TakePushKeepsNoDup | include/asyncpp/queue.h:265-283 | when a pop moves the oldest suspended producer's value in and resumes it with true, all awaiters stay distinct |
| Queue.ClearKeepsNoDup | include/asyncpp/queue.h:296-311 | failing every producer on clear resumes each at most once and none stays waiting |
| Queue.PopArrivesKeepsNoDup | include/asyncpp/queue.h:349-363 | a consumer that suspends, not seen before, keeps all awaiters distinct |
| Queue.PushArrivesKeepsNoDup | include/asyncpp/queue.h:403-416 | a producer that suspends, not seen before, keeps all awaiters distinct |
| Queue.MoveKeepsNoDup | include/asyncpp/queue.h:173-208 | move assignment fails the target's waiters once each and takes over the source's distinct waiters, keeping all awaiters distinct |
| Queue.SplitKeepsNoDup | include/asyncpp/queue.h:159-170 | a queue's waiting awaiters are distinct among themselves and from those it resumed, so a move can take them over |
| Queue.FailAllPops | include/asyncpp/queue.h:173-208 | the drain loop over consumers performs exactly FailPops |
| Queue.FailAllPushes | include/asyncpp/queue.h:296-311 | the drain loop over producers performs exactly FailPushes |
| Queue.Queue.constructor | include/asyncpp/queue.h:37-38 | a new queue has the given bound and default dispatcher, an empty buffer and no waiter |
| Queue.Queue.Move | include/asyncpp/queue.h:159-170 | the move constructor takes over everything and leaves the source empty with no waiter; no awaiter is resumed twice or resumed while still waiting |
| Queue.Queue.Size | include/asyncpp/queue.h:211-217 | size counts buffered values plus suspended producers |
| Queue.Queue.Empty | include/asyncpp/queue.h:220-223 | empty holds when nothing is buffered and no producer is suspended |
| Queue.Queue.TryPush | include/asyncpp/queue.h:226-242 | the object follows TryPushStep and logs the consumer it resumes; no awaiter is resumed twice or resumed while still waiting |
| Queue.Queue.TryEmplace | include/asyncpp/queue.h:246-262 | try_emplace has try_push's effect |
| Queue.Queue.TryPop | include/asyncpp/queue.h:265-283 | the object follows TryPopStep and logs the producer it resumes; no awaiter is resumed twice or resumed while still waiting |
| Queue.Queue.Clear | include/asyncpp/queue.h:296-311 | the object follows ClearStep; no awaiter is resumed twice or resumed while still waiting |
| Queue.Queue.MoveAssign | include/asyncpp/queue.h:173-208 | the object follows MoveAssignStep and logs the failed waiters; no awaiter is resumed twice or resumed while still waiting |
| Queue.Queue.PopReady | include/asyncpp/queue.h:326-346 | a pop is ready, with TryPopStep's value, exactly when the buffer is not empty |
| Queue.Queue.PopSuspend | include/asyncpp/queue.h:349-363 | the object follows PopSuspendStep; no awaiter is resumed twice or resumed while still waiting |
| Queue.Queue.PushReady | include/asyncpp/queue.h:381-400 | the object follows PushReadyStep; no awaiter is resumed twice or resumed while still waiting |
| Queue.Queue.PushSuspend | include/asyncpp/queue.h:403-416 | the object follows PushSuspendStep; no awaiter is resumed twice or resumed while still waiting |
| Tasks.Store | include/asyncpp/task.h:41-43 | a finished body always fills the slot, and reading the slot back reproduces exactly how the body ended: its value or its exception |
| Tasks.Get | include/asyncpp/task.h:45-49 | get rethrows a stored exception, returns a stored value, and raises bad_variant_access while the slot is still empty |
| Tasks.TaskFrame.constructor | include/asyncpp/task.h:27 | a fresh frame has not started its body, has an empty slot and no continuation |
| Tasks.TaskFrame.ReturnValue | include/asyncpp/task.h:59-69 | return_value stores the value in the slot and changes nothing else |
| Tasks.TaskFrame.UnhandledException | include/asyncpp/task.h:41-43 | unhandled_exception stores the exception in the slot and changes nothing else |
| Tasks.TaskFrame.FinalSuspend | include/asyncpp/task.h:28-39 | final suspension requires a continuation, transfers to it exactly once and keeps the slot |
| Tasks.TaskFrame.GetResult | include/asyncpp/task.h:70 | task_promise::get delivers Get of the slot |
| Tasks.ReturnVoid | include/asyncpp/task.h:78 | return_void stores the returned marker |
| Tasks.Task.constructor | include/asyncpp/task.h:97-100 | a task takes a live frame whose body has not finished |
| Tasks.Task.Null | include/asyncpp/task.h:103 | a task built from nullptr holds no frame |
| Tasks.Task.Move | include/asyncpp/task.h:106 | the move constructor takes the frame and leaves the other task empty |
| Tasks.Task.MoveAssign | include/asyncpp/task.h:108-111 | move assignment swaps the two frames; self-assignment changes nothing |
| Tasks.Task.IsValid | include/asyncpp/task.h:122-124 | operator bool holds exactly when the `task` holds a frame |
| Tasks.Task.Destroy | include/asyncpp/task.h:116-119 | the destructor destroys a held frame and empties the `task` object, so a second destruction does nothing |
| Tasks.Task.AwaitSuspend | include/asyncpp/task.h:131-136 | awaiting stores the awaiting coroutine as the single continuation and transfers to the frame, whose body starts |
| Tasks.Task.AwaitResume | include/asyncpp/task.h:137-140 | await_resume delivers the frame's result or rethrows its exception |
| Tasks.RunToCompletion | include/asyncpp/task.h:127-147 | a complete await transfers back to the awaiting coroutine exactly once, and it reads back the body's value or exception |
| Tasks.FibTaskComputesFib | test/task.cpp:9-12 | recursive awaiting composes: fib_task(n) ends with the n-th Fibonacci number |
| Tasks.FibTaskTen | test/task.cpp:15-18 | fib_task(10) delivers 55 |
| FireAndForget.Ref | include/asyncpp/fire_and_forget.h:94-98 | ref adds one reference and changes nothing else |
| FireAndForget.Unref | include/asyncpp/fire_and_forget.h:89-93 | unref drops one reference and destroys the frame exactly when the count goes from 1 to 0 |
| FireAndForget.FinalSuspend | include/asyncpp/fire_and_forget.h:63-71 | final suspension drops the body's reference; the frame is destroyed there exactly when that was the last one, and otherwise waits at its final point |
| FireAndForget.Create | include/asyncpp/fire_and_forget.h:42-62 | a new frame is owned by its one task object, and only an eager task enters its body at once |
| FireAndForget.ResumeKeepsInv | include/asyncpp/fire_and_forget.h:55-59 | resuming a body suspended at an await keeps the count equal to the owners plus the running body |
| FireAndForget.CopyKeepsInv | include/asyncpp/fire_and_forget.h:116-118 | the copy constructor adds an owner and a reference together |
| FireAndForget.DestroyKeepsInv | include/asyncpp/fire_and_forget.h:127-129 | the destructor removes an owner and its reference; the frame dies there exactly when it was the last owner and no body is running |
| FireAndForget.StartStep | include/asyncpp/fire_and_forget.h:132-141 | as written, start resumes a held frame unless it waits at its final point, then drops this object's reference and clears the handle |
| FireAndForget.StartFromInitialKeepsInv | include/asyncpp/fire_and_forget.h:132-141 | starting a lazy task from its initial point enters the body and keeps the count consistent with one owner fewer |
| FireAndForget.StartOnCopyResumesSuspendedBody | include/asyncpp/fire_and_forget.h:135-136 | as written, start on a copy resumes a body that another copy already started and that waits at an await, and a body that then ends frees the frame its awaited operation still holds |
| FireAndForget.StartIntended | include/asyncpp/fire_and_forget.h:131-141 | the intended start resumes only a frame still at its initial point, so the body is entered at most once |
| FireAndForget.StartIntendedKeepsSuspendedBody | include/asyncpp/fire_and_forget.h:131-141 | with the intended start a body suspended at an await is left alive with its own reference |
| FireAndForget.SelfCopyAssignDestroysTwice | include/asyncpp/fire_and_forget.h:120-125 | as written, self copy assignment by a sole owner destroys the frame, and the object's destructor later destroys it again |
| FireAndForget.SelfCopyAssignIntendedIsNoOp | include/asyncpp/fire_and_forget.h:120-125 | taking the new reference before dropping the old one makes self copy assignment change nothing |
| FireAndForget.OnUnhandledException | include/asyncpp/fire_and_forget.h:73-78 | an escaping exception calls the installed handler, and std::terminate when none is installed |
| FireAndForget.Promise.constructor | include/asyncpp/fire_and_forget.h:27-34 | a new promise has one reference, has not entered its body and has no handler |
| FireAndForget.Promise.AddRef | include/asyncpp/fire_and_forget.h:94-98 | the object follows Ref |
| FireAndForget.Promise.RemoveRef | include/asyncpp/fire_and_forget.h:89-93 | the object follows Unref |
| FireAndForget.Promise.InitialReady | include/asyncpp/fire_and_forget.h:53 | the initial awaiter is ready exactly for an eager task |
| FireAndForget.Promise.EnterBody | include/asyncpp/fire_and_forget.h:55-59 | entering the body takes the body's reference and runs it |
| FireAndForget.Promise.RunBodyStep | include/asyncpp/fire_and_forget.h:63-72 | a resumed body runs to its end or to its next await |
| FireAndForget.Promise.FinalReady | include/asyncpp/fire_and_forget.h:66 | the final awaiter is ready exactly when it dropped the last reference |
| FireAndForget.Promise.SetExceptionPolicy | include/asyncpp/fire_and_forget.h:80-83 | awaiting an exception_policy installs its handler and does not suspend |
| FireAndForget.Promise.UnhandledException | include/asyncpp/fire_and_forget.h:73-78 | the object follows OnUnhandledException |
| FireAndForget.Task.constructor | include/asyncpp/fire_and_forget.h:102-105 | a fire-and-forget `task` takes the handle and with it the frame's first reference |
| FireAndForget.Task.Move | include/asyncpp/fire_and_forget.h:108 | the move constructor takes the handle and leaves the other task empty |
| FireAndForget.Task.MoveAssign | include/asyncpp/fire_and_forget.h:111-114 | move assignment swaps the two handles; a self-move leaves the handle as it was |
| FireAndForget.Task.Copy | include/asyncpp/fire_and_forget.h:116-118 | the copy constructor shares the frame and adds a reference |
| FireAndForget.Task.CopyAssign | include/asyncpp/fire_and_forget.h:120-125 | as written, copy assignment drops the old reference before taking the new one |
| FireAndForget.Task.Destroy | include/asyncpp/fire_and_forget.h:127-129 | the destructor drops the object's reference |
| FireAndForget.Task.Start | include/asyncpp/fire_and_forget.h:132-141 | the object follows StartStep |
| FireAndForget.LifetimeScenarios | test/fire_and_forget.cpp:6-25 | a started lazy task and an eager task run their bodies, an unstarted lazy task never does, and each frame is destroyed exactly once |
| Generator.GenFrame.constructor | include/asyncpp/generator.h:19-25 | a new frame is suspended at its initial point: nothing of the body has run and it is not done |
| Generator.GenFrame.Resume | include/asyncpp/generator.h:26-41 | one resumption runs the body to its next yield or to its final suspension, which always suspends and keeps the exception the body threw |
| Generator.Increment | include/asyncpp/generator.h:74-81 | operator++ resumes exactly once and rethrows the stored exception exactly when the body has finished |
| Generator.Deref | include/asyncpp/generator.h:86 | operator* gives the value of the latest yield |
| Generator.Generator.Null | include/asyncpp/generator.h:121 | the default generator holds no frame |
| Generator.Generator.constructor | include/asyncpp/generator.h:122 | the generator takes the frame's handle |
| Generator.Generator.Move | include/asyncpp/generator.h:123 | the move constructor takes the handle and empties the other generator |
| Generator.Generator.MoveAssign | include/asyncpp/generator.h:125-128 | move assignment swaps the two handles; a self-move leaves the handle as it was |
| Generator.Generator.Destroy | include/asyncpp/generator.h:130-132 | the destructor destroys a held frame |
| Generator.Generator.Begin | include/asyncpp/generator.h:133-142 | begin resumes a held frame exactly once, rethrows a stored exception when the body already finished, and returns an iterator on the same handle; an empty generator is not touched |
| Generator.ForEach | test/generator.cpp:13-16 | a range-for over a fresh generator sees every yielded value once, in order, and then the body's exception if it threw one |
| AsyncGenerator.AsyncGenFrame.constructor | include/asyncpp/async_generator.h:37-40 | a new frame is suspended at its initial point, with no consumer recorded and no transfer made |
| AsyncGenerator.AsyncGenFrame.RunProducer | include/asyncpp/async_generator.h:21-32 | a resumption runs the producer to its next yield or to its end, records the consumer and transfers control straight back to it; finished() holds exactly after the last value, and only then is the thrown exception stored |
| AsyncGenerator.AsyncGenFrame.TakeException | include/asyncpp/async_generator.h:48-50 | the stored exception is moved out, so it is rethrown once and the slot is left empty |
| AsyncGenerator.End | include/asyncpp/async_generator.h:113 | the end iterator has no promise |
| AsyncGenerator.Deref | include/asyncpp/async_generator.h:139 | operator* gives the value of the latest yield |
| AsyncGenerator.Increment | include/asyncpp/async_generator.h:114-138 | co_await ++it records the consumer and resumes the producer once; when the body has finished the iterator becomes end and the stored exception is rethrown, otherwise it stays on the same promise |
| AsyncGenerator.AsyncGenerator.Null | include/asyncpp/async_generator.h:168 | the default generator holds no frame |
| AsyncGenerator.AsyncGenerator.constructor | include/asyncpp/async_generator.h:169 | the generator takes the frame's handle |
| AsyncGenerator.AsyncGenerator.Move | include/asyncpp/async_generator.h:170-172 | the move constructor takes the handle and empties the other generator |
| AsyncGenerator.AsyncGenerator.MoveAssign | include/asyncpp/async_generator.h:176-180 | move assignment takes the other handle, empties the other generator and destroys the frame this one held; a self-move leaves the frame in place and alive |
| AsyncGenerator.AsyncGenerator.Destroy | include/asyncpp/async_generator.h:173-175 | the destructor destroys a held frame |
| AsyncGenerator.AsyncGenerator.Begin | include/asyncpp/async_generator.h:184-213 | begin on an empty generator is ready at once and yields end; otherwise it records the consumer, resumes the producer once, and yields end after rethrowing a stored exception if the body finished without yielding, else an iterator at the first value |
| AsyncGenerator.ForEach | test/async_generator.cpp:30-33 | the consumer loop sees every yielded value once and in order, the producer hands control only to that consumer once per resumption, and a thrown exception reaches the loop after the last value |
| AsyncGenerator.ConsumeSample | test/async_generator.cpp:27-39 | consuming a producer that yields 0..9 adds up to 45 with no exception |
| Fiber.PageRound | include/asyncpp/fiber.h:47-49 | the page count times the page size is the least page multiple that holds the request |
| Fiber.AllocateStack | include/asyncpp/fiber.h:44-72 | a failed mapping reports false and leaves the context alone; otherwise the stack size is the request rounded up to whole pages, the mapping is that plus two guard pages, and the usable top sits one guard page below the end of the mapping |
| Fiber.StackLayout | include/asyncpp/fiber.h:59-70 | the mapping splits into a lower guard page, the usable stack and an upper guard page, in that order and without overlap |
| Fiber.AllocatedSizeAsWritten | include/asyncpp/fiber.h:48-50 | the size_t computation of the rounded size always stays below 2^64 |
| Fiber.HugeRequestGetsEmptyStack | include/asyncpp/fiber.h:48-49 | as written, a request of SIZE_MAX bytes with 4 KiB pages wraps to a page count of zero and a successful empty stack |
| Fiber.AllocateStackChecked | include/asyncpp/fiber.h:44-72 | the intended allocation fails like a failed mapping when the rounded size and guard pages do not fit a size_t, and otherwise agrees with AllocateStack |
| Fiber.AsWrittenAgreesWhenItFits | include/asyncpp/fiber.h:48-50 | whenever the rounded size and guard pages fit a size_t, the wrapping computation gives the exact rounded size |
| Fiber.DeallocateStack | include/asyncpp/fiber.h:74-79 | with nothing mapped deallocation succeeds at once; otherwise it reports the outcome of munmap |
| Fiber.RunBody | include/asyncpp/fiber.h:817-871 | the function runs through ready awaiters inline, stops at the first awaiter that is not ready with that awaiter installed as suspend handler, or returns after its last step with resume_cb cleared; nothing else changes |
| Fiber.EnterFiber | include/asyncpp/fiber.h:780-790 | switching in starts a fresh fiber (was_started set) or returns into its pending fib_await, which first rethrows a captured exception, then throws a destroy request, else goes on; the fiber then holds a handler exactly when it is still running |
| Fiber.HandleSuspend | include/asyncpp/fiber.h:740-746 | the resume loop clears the handler and calls await_suspend once; void and true leave the loop, false switches straight back in, a returned handle is resumed, an exception is captured for the fiber to rethrow |
| Fiber.Finish | include/asyncpp/fiber.h:748-749 | after the loop the continuation is resumed exactly when the fiber has finished and one is set, and nothing else changes |
| Fiber.ResumeLoop | include/asyncpp/fiber.h:721-750 | resume_cb never leaves a handler or a captured exception behind, a fiber still running is parked in a fib_await, and the continuation is resumed exactly once exactly when the fiber finished |
| Fiber.DestroyStep | include/asyncpp/fiber.h:751-767 | destroy_cb frees the fiber, and a fiber that is not both started and running is freed without being resumed |
| Fiber.DestroyUnwinds | include/asyncpp/fiber.h:751-757 | a started fiber whose function has no catch-all is unwound by the destroy request before its stack is freed, without returning normally |
| Fiber.ReadyAwaiterSkipsSuspend | test/fiber.cpp:46-71 | a ready awaiter is resumed inline and the fiber finishes in its first resumption without await_suspend being called |
| Fiber.SuspendingAwaiterWaitsForNextResume | test/fiber.cpp:73-103 | await_suspend returning void or true leaves the fiber suspended until the next resumption |
| Fiber.RefusedSuspendContinues | test/fiber.cpp:105-133 | await_suspend returning false re-enters the fiber in the same resumption |
| Fiber.ReturnedHandleIsResumed | test/fiber.cpp:170-211 | a handle returned by await_suspend is resumed while the fiber stays suspended |
| Fiber.SuspendExceptionIsRethrownInFiber | test/fiber.cpp:213-246 | an exception from await_suspend is rethrown inside the fiber, which catches it and finishes in the same resumption, and await_resume is never called |
| Fiber.DestroyThrowsAtPendingAwait | test/fiber.cpp:282-299 | destroying a fiber suspended in fib_await makes that fib_await throw inside the fiber before the stack is freed |
| Fiber.UnstartedFiberIsNotResumed | include/asyncpp/fiber.h:753 | a fiber that never started is freed without running anything |
| Fiber.FiberHandle.constructor | include/asyncpp/fiber.h:713-720 | make_fiber_handle gives a handle that has not started and has nothing pending |
| Fiber.FiberHandle.Done | include/asyncpp/fiber.h:948 | done() holds exactly when resume_cb has been cleared |
| Fiber.AwaitOnce | include/asyncpp/fiber.h:818-871 | one fib_await always calls await_ready; a ready awaiter is resumed inline and the function moves to its next step, any other is installed as the suspend handler at the same step |
| Fiber.FiberHandle.AwaitStep | include/asyncpp/fiber.h:818-871 | the object reports a suspension exactly when the awaiter is not ready, and its new state is the one-step AwaitOnce of the old |
| Fiber.FiberHandle.RunBodyM | include/asyncpp/fiber.h:786-790 | the object's run of the function follows RunBody |
| Fiber.FiberHandle.RaiseM | include/asyncpp/fiber.h:787-789 | an exception at a pending fib_await is absorbed by the function's catch-all, or ends the function when it is the destroy request |
| Fiber.FiberHandle.EnterFiberM | include/asyncpp/fiber.h:780-790 | the object follows EnterFiber |
| Fiber.FiberHandle.HandleSuspendM | include/asyncpp/fiber.h:740-746 | the object follows HandleSuspend |
| Fiber.FiberHandle.Resume | include/asyncpp/fiber.h:721-750 | the resume callback's while loop follows ResumeLoop |
| Fiber.FiberHandle.Destroy | include/asyncpp/fiber.h:751-767 | the destroy callback follows DestroyStep |
| Fiber.FiberObject.constructor | include/asyncpp/fiber.h:905-908 | a new fiber owns a fresh, unstarted handle for its function |
| Fiber.FiberObject.Empty | include/asyncpp/fiber.h:910 | the default fiber owns no handle |
| Fiber.FiberObject.Move | include/asyncpp/fiber.h:916 | the move constructor takes the handle and empties the other fiber |
| Fiber.FiberObject.MoveAssign | include/asyncpp/fiber.h:918-924 | move assignment destroys a held handle and takes the other one, leaving the other fiber empty; self-assignment changes nothing |
| Fiber.FiberObject.Dispose | include/asyncpp/fiber.h:912-914 | the destructor destroys a held handle |
| Fiber.FiberObject.Await | include/asyncpp/fiber.h:944-958 | awaiting an empty fiber throws "empty fiber"; a finished fiber continues at once; an already awaited one throws "already awaited"; otherwise the awaiter becomes the continuation and control transfers into the fiber |
| Fiber.FiberOf.constructor | include/asyncpp/fiber.h:988-993 | a new fiber<T> owns a fresh unstarted handle and a result slot |
| Fiber.FiberOf.Await | include/asyncpp/fiber.h:1025-1040 | awaiting a fiber<T> without a result slot throws "empty fiber"; otherwise it behaves exactly as awaiting the fiber<void> inside: continue, throw, or record the continuation and transfer |
| Fiber.FiberOf.AwaitResume | include/asyncpp/fiber.h:1034-1037 | await_resume returns the function's result, which is present once the function returned |
| Promises.Settled | include/asyncpp/promise.h:91 | a result settles the state into fulfilled exactly when it is a value, and never leaves it pending |
| Promises.OutcomeOf | include/asyncpp/promise.h:192-195 | the result a settled state reports settles back into that same state |
| Promises.OutcomeOfSettled | include/asyncpp/promise.h:91-94 | reading back a settled result gives the result that settled it |
| Promises.SettleStep | include/asyncpp/promise.h:88-91 | only a pending state takes a result and reports true; a settled state reports false and keeps its result |
| Promises.Live | include/asyncpp/promise.h:96-97 | the callbacks invoked are exactly the non-empty ones, each as often as it was registered |
| Promises.LiveSnoc | include/asyncpp/promise.h:96-97 | registering one more callback adds it to the invoked ones at the end, unless it is empty |
| Promises.RunCallbacks | include/asyncpp/promise.h:93-102 | settling calls every non-empty callback once, in registration order, each with the same result |
| Promises.Promise.constructor | include/asyncpp/promise.h:34 | a new promise is pending with no callbacks |
| Promises.Promise.IsPending | include/asyncpp/promise.h:47-50 | is_pending reports exactly the pending state |
| Promises.Promise.IsFulfilled | include/asyncpp/promise.h:57-60 | is_fulfilled reports exactly the fulfilled state |
| Promises.Promise.IsRejected | include/asyncpp/promise.h:67-70 | is_rejected reports exactly the rejected state |
| Promises.Promise.TrySettle | include/asyncpp/promise.h:88-138 | try_fulfill and try_reject settle only a pending promise, empty its callback list and then call every waiting non-empty callback with the result, in order; on a settled promise they report false and change nothing |
| Promises.Promise.TryFulfill | include/asyncpp/promise.h:88-104 | try_fulfill follows SettleStep with the value |
| Promises.Promise.TryReject | include/asyncpp/promise.h:122-138 | try_reject follows SettleStep with the exception |
| Promises.Promise.Settle | include/asyncpp/promise.h:78-80 | fulfill and reject throw std::logic_error exactly when the promise is not pending, and otherwise settle it and run every queued live callback with the outcome, in order, after the earlier calls |
| Promises.Promise.OnResult | include/asyncpp/promise.h:168-180 | on_result queues the callback while pending, and otherwise calls it at once with the stored result; the state never changes |
| Promises.Promise.Get | include/asyncpp/promise.h:186-196 | get on a settled promise returns the value or rethrows the exception |
| Promises.Promise.TryGetNoThrow | include/asyncpp/promise.h:218-226 | try_get(nothrow) gives (null, null) while pending, the value when fulfilled and the exception when rejected |
| Promises.Promise.TryGet | include/asyncpp/promise.h:232-236 | try_get throws exactly when rejected, and returns a value exactly when fulfilled |
| Promises.Promise.AwaitReady | include/asyncpp/promise.h:245-249 | the awaiter is ready exactly when the promise is settled |
| Promises.Promise.AwaitSuspend | include/asyncpp/promise.h:250-260 | await_suspend queues a callback resuming the awaiting coroutine and suspends exactly when the promise is still pending |
| Promises.Promise.AwaitResume | include/asyncpp/promise.h:261-269 | await_resume returns the value or rethrows the exception |
| Promises.MakeSettled | include/asyncpp/promise.h:283-298 | make_fulfilled and make_rejected give a fresh promise already in that result |
| Promises.First | include/asyncpp/promise.h:323-334 | first settles with the result of the earliest input to report, and stays pending when none has |
| Promises.FirstIgnoresLater | include/asyncpp/promise.h:313-322 | results arriving after the first never change what first settled on |
| Promises.FirstValueIndex | include/asyncpp/promise.h:355-367 | the index found is the first successful result, with only failures before it, or there is none |
| Promises.FirstValueIndexSnoc | include/asyncpp/promise.h:355-367 | one more arrival changes the first success only when there was none and the new one is a value |
| Promises.FirstSuccessful | include/asyncpp/promise.h:346-385 | first_successful settles with the first success, or with the last failure once all inputs failed, and is pending otherwise |
| Promises.FirstSuccessfulRejectsOnlyWhenAllFailed | include/asyncpp/promise.h:368-369 | first_successful rejects exactly when there is at least one input and every input failed |
| Promises.All | include/asyncpp/promise.h:395-412 | all is fulfilled with every input in argument order once the last input settles, whatever their outcomes, and stays pending with no inputs |
| Promises.Values | include/asyncpp/promise.h:441 | the collected values are the arrivals' values in arrival order |
| Promises.FirstFailureIndex | include/asyncpp/promise.h:438-439 | the index found is the first failure, with only values before it, or there is none |
| Promises.FirstFailureIndexSnoc | include/asyncpp/promise.h:438-439 | one more arrival changes the first failure only when there was none and the new one is a failure |
| Promises.AllValues | include/asyncpp/promise.h:422-447 | all_values rejects with the first failure, and otherwise is fulfilled with the values in completion order once every input has reported |
| Promises.AllValuesSettledIsFinal | include/asyncpp/promise.h:437 | once all_values is settled, later arrivals never change its result |
| Refs.RemoveStep | include/asyncpp/ref.h:89-95 | remove_ref lowers the count by one and deletes the object exactly when the count reaches zero |
| Refs.Counted.constructor | include/asyncpp/ref.h:65 | a new object's counter starts at 0 and it is not deleted |
| Refs.Counted.FetchIncrement | include/asyncpp/ref.h:46 | fetch_increment returns the count before adding one |
| Refs.Counted.FetchDecrement | include/asyncpp/ref.h:47 | fetch_decrement returns the count before taking one away |
| Refs.Counted.AddRef | include/asyncpp/ref.h:78-82 | add_ref adds one to the count |
| Refs.Counted.RemoveRef | include/asyncpp/ref.h:89-95 | remove_ref follows RemoveStep: the object deletes itself exactly when the count it saw was 1 |
| Refs.Ref.Empty | include/asyncpp/ref.h:133 | the default ref holds nothing |
| Refs.Ref.Adopt | include/asyncpp/ref.h:139-141 | ref(p, adopt_ref) holds p without touching its count |
| Refs.Ref.constructor | include/asyncpp/ref.h:147-150 | ref(p) holds p and adds a reference to a non-null p |
| Refs.Ref.Copy | include/asyncpp/ref.h:158-160 | the copy constructor shares the pointer and adds a reference |
| Refs.Ref.Move | include/asyncpp/ref.h:162 | the move constructor takes the pointer and empties the source |
| Refs.Ref.Reset | include/asyncpp/ref.h:181-186 | as written, reset(p) drops the old reference before adding one to p, so resetting to the object already held deletes it when that was the last reference and then touches the deleted counter |
| Refs.Ref.ResetIntended | include/asyncpp/ref.h:181-186 | adding the new reference first makes reset to the held object keep the count, keep the object alive and never touch a deleted counter |
| Refs.Ref.ResetAdopt | include/asyncpp/ref.h:192-195 | reset(p, adopt_ref) drops the old reference and holds p without touching its count |
| Refs.Ref.Clear | include/asyncpp/ref.h:199-202 | reset() and the destructor drop the reference and leave the handle empty |
| Refs.Ref.CopyAssign | include/asyncpp/ref.h:164-168 | copy assignment shares the other pointer, adding its reference and dropping the old one; self-assignment keeps the count |
| Refs.Ref.MoveAssign | include/asyncpp/ref.h:171-175 | move assignment drops the old reference, takes the other pointer and empties the source |
| Refs.Ref.Release | include/asyncpp/ref.h:210-214 | release hands the pointer out, leaves the handle empty and keeps the count |
| Refs.Ref.IsSet | include/asyncpp/ref.h:216 | operator bool holds exactly when the handle holds a pointer |
| Refs.MakeRef | include/asyncpp/ref.h:221-224 | make_ref gives a new object with exactly one reference, held by the returned handle |
| Refs.RefCountedScenario | test/ref.cpp:14-52 | assigning over the sole reference deletes the old object, two handles share a count of 2, the last reset deletes, and release leaves the count alone |
| Refs.ResetToSelfAsWritten | include/asyncpp/ref.h:181-186 | as written, reset(get()) on the only handle deletes the object and then increments its counter |
| Refs.ResetToSelfIntended | include/asyncpp/ref.h:181-186 | with the add-then-drop order the same call leaves the object alive with a count of 1 |
| Refs.AtomicRef.Empty | include/asyncpp/ref.h:298 | the default atomic_ref holds nothing |
| Refs.AtomicRef.constructor | include/asyncpp/ref.h:306-309 | a pointer with the lock bit set is refused with std::logic_error and stays with its handle; otherwise its reference is taken over |
| Refs.AtomicRef.Exchange | include/asyncpp/ref.h:367-377 | exchange releases the new pointer from its handle, throws std::logic_error when it has the lock bit set, and otherwise stores it and returns the old pointer with its reference adopted |
| Refs.AtomicRef.Load | include/asyncpp/ref.h:336-349 | load returns a new handle to the stored pointer with one more reference |
| Refs.AtomicRef.IsSet | include/asyncpp/ref.h:389 | operator bool holds exactly when a pointer is stored |
| Signals.LiveCount | include/asyncpp/signal.h:309-318 | the number of listed nodes not marked removed is at most the length of the list |
| Signals.LiveCountSnoc | include/asyncpp/signal.h:313-315 | a node at the end adds one to the live count exactly when it is not marked removed |
| Signals.LiveCountFrame | include/asyncpp/signal.h:314 | the live count depends only on which listed nodes are marked removed |
| Signals.Unlink | include/asyncpp/signal.h:170-176 | unlinking removes exactly the given node from the list and keeps every other node |
| Signals.Invoked | include/asyncpp/signal.h:385-391 | an invocation calls exactly the listed live nodes whose counter passes the test against the counter it loaded |
| Signals.Kept | include/asyncpp/signal.h:392-394 | after an invocation the list holds exactly the nodes not marked removed |
| Signals.KeptLength | include/asyncpp/signal.h:386-395 | an invocation frees exactly the removed nodes, so size() is unchanged by it |
| Signals.Walk | include/asyncpp/signal.h:374-397 | the do-while traversal invokes the eligible nodes in list order and frees the removed ones |
| Signals.ResetCounters | include/asyncpp/signal.h:156-164 | on wrap-around every listed node, removed or not, gets counter 1 and nothing else changes |
| Signals.Signal.constructor | include/asyncpp/signal.h:119 | a new signal has no slots and its counter at 1 |
| Signals.Signal.NextCounter | include/asyncpp/signal.h:154-168 | get_next_counter hands out the current counter and advances it modulo 2^64; when the value handed out would be 0 it resets every listed node to 1 and hands out 1 instead; it never hands out the removed marker |
| Signals.Signal.Append | include/asyncpp/signal.h:321-334 | append links a new node with a fresh counter at the tail and returns a handle to it |
| Signals.Signal.Prepend | include/asyncpp/signal.h:336-350 | prepend links a new node with a fresh counter at the head and returns a handle to it |
| Signals.Signal.FreeNode | include/asyncpp/signal.h:170-176 | free_node unlinks the node, fixing head and tail, and marks it removed |
| Signals.Signal.Remove | include/asyncpp/signal.h:352-359 | remove reports false for an empty handle and otherwise frees its node |
| Signals.Signal.OwnsHandle | include/asyncpp/signal.h:361-371 | owns_handle holds exactly when the handle names a live node that is in this signal's list; an empty handle or one whose node this signal never held gives false |
| Signals.Signal.Size | include/asyncpp/signal.h:308-318 | size counts the listed nodes not marked removed |
| Signals.Signal.Empty | include/asyncpp/signal.h:129 | empty holds exactly when size is 0 |
| Signals.Signal.Invoke | include/asyncpp/signal.h:373-397 | operator() loads the counter once, calls the eligible nodes in list order, frees the removed ones and returns how many it called; counters are untouched |
| Signals.Signal.Move | include/asyncpp/signal.h:268-275 | the move constructor takes over the other's list and counter and leaves the other empty with its counter at 1 |
| Signals.Signal.MoveAssign | include/asyncpp/signal.h:277-293 | move assignment drops the old list, takes over the other's list and counter and resets the other's counter to 1 |
| Signals.UnlinkKeepsNoDup | include/asyncpp/signal.h:170-176 | unlinking keeps every node listed at most once |
| Signals.KeptKeepsNoDup | include/asyncpp/signal.h:393 | freeing the removed nodes keeps every node listed at most once |
| Signals.UnlinkLiveCount | include/asyncpp/signal.h:170-176 | removing a node lowers the live count by one exactly when it was listed and live |
| Signals.AppendedDuringInvokeIsEligible | include/asyncpp/signal.h:385-387 | as written, a slot connected after an invocation loaded the counter gets that very counter, which passes the test; the intended test rejects it |
| Signals.InvokedIntended | include/asyncpp/signal.h:385-387 | the nodes the intended test calls are a sub-list of the list, each live with a counter strictly below the loaded one |
| Signals.EarlierNodesAreInvoked | include/asyncpp/signal.h:374-398 | over nodes connected before the counter was loaded, both the written and the intended walk call exactly the live nodes, in list order |
| Signals.LaterNodesAreSkipped | include/asyncpp/signal.h:385-387 | with the intended test, nodes connected after the counter was loaded add no call, wherever the walk meets them at the tail |
| Signals.IntendedSeparatesBeforeAndAfter | include/asyncpp/signal.h:374-398 | with the intended test an invocation calls exactly the live nodes connected before it loaded the counter, in list order, and none of the nodes connected since |
| Signals.ConnectedAtLoadIsInvokedAsWritten | include/asyncpp/signal.h:385-387 | as written, a node connected after the load that received the loaded counter is called after all earlier live nodes; the intended walk leaves it out |
| Signals.SignalHandle.constructor | include/asyncpp/signal.h:44 | the handle names the given node, or none |
| Signals.SignalHandle.IsValid | include/asyncpp/signal.h:47-49 | valid holds exactly when the handle names a node not marked removed |
| Signals.SignalHandle.Disconnect | include/asyncpp/signal.h:50-53 | disconnect marks the node removed, leaves it linked and empties the handle |
| Signals.ScopedSignalHandle.constructor | include/asyncpp/signal.h:71-73 | the scoped handle wraps the given handle |
| Signals.ScopedSignalHandle.Release | include/asyncpp/signal.h:79 | release forgets the node without disconnecting it |
| Signals.ScopedSignalHandle.Dispose | include/asyncpp/signal.h:74 | the destructor disconnects a node it still names |
| Signals.OwnsHandleScenario | test/signal.cpp:41-56 | an empty handle is not owned, a connected slot is owned and counted, a removed one is neither, and one disconnected through its handle is neither |
| Signals.RemoveThenAsk | test/signal.cpp:41-56 | removing the only slot through its handle leaves the signal empty and the handle no longer owned |
| Signals.ScopedHandleScenario | test/signal.cpp:76-91 | a scoped handle disconnects its slot when it goes away, unless it was released first |
| Signals.InvokeScenario | test/signal.cpp:5-39 | a connected slot is called once per invocation, and after remove nothing is called |
| Signals.ConnectDuringInvokeAsWritten | include/asyncpp/signal.h:385-387 | as written, a slot connected by a handler during an invocation is called by that same invocation, which the intended test would not do |
| Signals.SignalManager.constructor | include/asyncpp/signal.h:195 | a new manager has no events |
| Signals.SignalManager.Append | include/asyncpp/signal.h:203-208 | append finds or creates the event's signal and appends the slot there; other events are untouched |
| Signals.SignalManager.Prepend | include/asyncpp/signal.h:209-214 | prepend finds or creates the event's signal and prepends the slot there |
| Signals.SignalManager.Remove | include/asyncpp/signal.h:216-220 | remove reports false for an unknown event or an empty handle, and otherwise frees the node in that event's signal |
| Signals.SignalManager.OwnsHandle | include/asyncpp/signal.h:222-226 | owns_handle holds exactly when the event is known and the handle names a live node in that event's signal; an unknown event, an empty handle or a foreign node gives false |
| Signals.SignalManager.Invoke | include/asyncpp/signal.h:228-233 | invoke returns 0 for an event without a signal and otherwise invokes that signal |
| Signals.SignalManager.ShrinkToFit | include/asyncpp/signal.h:237-248 | shrink_to_fit erases exactly the events whose signal has no live slot, keeps the rest unchanged and returns how many it erased |
| Signals.ManagerRoutingScenario | test/signal.cpp:147-160 | a slot appended for event 10 is owned by 10 and not by 11; invoking 11 calls nothing and invoking 10 calls it |
| Signals.ManagerRemoveScenario | test/signal.cpp:162-175 | after remove the event calls nothing; a slot appended again is called; after its handle disconnects nothing is called again |
| StopTokens.Pack | include/asyncpp/stop_token.h:93-100 | the packed word has its lock bit clear, its low bit set exactly when a stop was requested, and the source count in the upper 30 bits |
| StopTokens.WordRoundTrip | include/asyncpp/stop_token.h:93-100 | every lock-clear word is the packing of its own request bit and source count |
| StopTokens.SourceIncrementBits | include/asyncpp/stop_token.h:119-121 | adding one source unit (4) to a packed word adds one to the count and keeps the request bit |
| StopTokens.StopPossibleBits | include/asyncpp/stop_token.h:107 | the word without its lock bit is non-zero exactly when a stop was requested or a source remains |
| StopTokens.StopRequestedBits | include/asyncpp/stop_token.h:109-111 | the word's low bit is set exactly when a stop was requested |
| StopTokens.NoSourceBits | include/asyncpp/stop_token.h:170 | the test `value < 4` holds exactly when no source remains |
| StopTokens.RequestBits | include/asyncpp/stop_token.h:220-221 | or-ing in the request bit sets the flag and keeps the source count |
| StopTokens.Without | include/asyncpp/stop_token.h:180-203 | unlinking a callback removes it and keeps exactly the others; the list is unchanged when it is not there |
| StopTokens.WithoutKeepsNoDup | include/asyncpp/stop_token.h:180-203 | unlinking keeps the callback list free of duplicates |
| StopTokens.WithoutSplits | include/asyncpp/stop_token.h:180-203 | unlinking a callback drops it in place and keeps the order of the rest |
| StopTokens.StopState.constructor | include/asyncpp/stop_token.h:93-100 | a new state has one owner, one source, no request and no callback |
| StopTokens.StopState.StopPossible | include/asyncpp/stop_token.h:107 | stop_possible answers the word test, which holds exactly when a stop was requested or a source remains |
| StopTokens.StopState.StopRequested | include/asyncpp/stop_token.h:109-111 | stop_requested answers the low bit, which is the request flag |
| StopTokens.StopState.AddOwner | include/asyncpp/stop_token.h:113 | add_owner adds one owner and changes nothing else |
| StopTokens.StopState.ReleaseOwnership | include/asyncpp/stop_token.h:115-117 | release_ownership removes one owner and frees the state exactly when none remains |
| StopTokens.StopState.AddSource | include/asyncpp/stop_token.h:119 | add_ssrc adds one source and keeps everything else |
| StopTokens.StopState.SubSource | include/asyncpp/stop_token.h:121 | sub_ssrc removes one source and keeps everything else |
| StopTokens.StopState.RequestStop | include/asyncpp/stop_token.h:122-160 | request_stop returns true exactly on the first request; that request sets the bit and runs every registered callback once, most recent first, leaving the list empty; a later request runs nothing |
| StopTokens.StopState.RegisterCallback | include/asyncpp/stop_token.h:162-178 | register_callback succeeds exactly when no stop was requested and a source remains, pushing the callback on the head; after a request the callback runs at once; with no source it is refused without running |
| StopTokens.StopState.RemoveCallback | include/asyncpp/stop_token.h:180-203 | remove_callback unlinks the callback if it is still listed and changes nothing else |
| StopTokens.StopSource.constructor | include/asyncpp/stop_token.h:284 | stop_source() creates a fresh state with one owner and one source |
| StopTokens.StopSource.NoStopState | include/asyncpp/stop_token.h:286 | a nostopstate source holds no state |
| StopTokens.StopSource.Copy | include/asyncpp/stop_token.h:288-290 | copying a source shares its state, which gains one owner and one source |
| StopTokens.StopSource.Move | include/asyncpp/stop_token.h:292 | moving a source takes its state and leaves the other without one |
| StopTokens.StopSource.StopPossible | include/asyncpp/stop_token.h:309 | a source can stop exactly when it holds a state |
| StopTokens.StopSource.StopRequested | include/asyncpp/stop_token.h:311-313 | a source reports a request exactly when it holds a state on which a stop was requested |
| StopTokens.StopSource.RequestStop | include/asyncpp/stop_token.h:315-318 | request_stop is false without a state; otherwise it is the state's request_stop, true only the first time |
| StopTokens.StopSource.GetToken | include/asyncpp/stop_token.h:320 | get_token returns a new token sharing the state, which gains one owner |
| StopTokens.StopSource.Dispose | include/asyncpp/stop_token.h:305-307 | the destructor takes one source and one owner from the state, which is freed exactly when no owner remains |
| StopTokens.StopSource.CopyAssign | include/asyncpp/stop_token.h:294-301 | copy assignment between different states moves this source and its ownership from the old state to the other's; sharing one state (or self-assignment) changes nothing |
| StopTokens.StopSource.MoveAssign | include/asyncpp/stop_token.h:303 | the defaulted move assignment takes the other's state and empties the other; the old state loses an owner but keeps its source count; a self-move changes nothing |
| StopTokens.StopSource.MoveAssignIntended | include/asyncpp/stop_token.h:303-307 | move assignment that also takes this source off the old state, as the destructor would; a self-move changes nothing |
| StopTokens.StopToken.Empty | include/asyncpp/stop_token.h:25 | a default token holds no state |
| StopTokens.StopToken.constructor | include/asyncpp/stop_token.h:278 | a token made from a state shares it and adds one owner |
| StopTokens.StopToken.StopPossible | include/asyncpp/stop_token.h:35-37 | a token can stop exactly when its state exists and has a request or a remaining source |
| StopTokens.StopToken.StopRequested | include/asyncpp/stop_token.h:39-41 | a token reports a request exactly when its state exists and a stop was requested |
| StopTokens.StopToken.Dispose | include/asyncpp/stop_token.h:250-252 | dropping a token removes one owner, freeing the state when it was the last |
| StopTokens.StopCallback.constructor | include/asyncpp/stop_token.h:345-350 | constructing a callback registers it and keeps a share of the state when no stop was requested and a source remains; after a request it runs at once; otherwise it is refused |
| StopTokens.StopCallback.FromToken | include/asyncpp/stop_token.h:354-359 | constructing a callback from an rvalue token registers it under the same conditions; on registration the token's state reference moves into the callback, leaving the token empty and the owner count unchanged, and otherwise the token keeps its state |
| StopTokens.StopCallback.Dispose | include/asyncpp/stop_token.h:361-363 | the destructor unlinks a registered callback and releases its share of the state |
| StopTokens.RequestOnceScenario | include/asyncpp/stop_token.h:284-318 | a fresh source can stop and has no request; its first request answers true and later ones false; a nostopstate source cannot stop and its request is false |
| StopTokens.CallbackOrderScenario | include/asyncpp/stop_token.h:122-203 | registered callbacks run once each on the first request, the most recent first; a removed one never runs; one registered after the request runs at once without being listed |
| StopTokens.NoSourceScenario | include/asyncpp/stop_token.h:162-178 | with every source gone a token cannot stop and a new callback is refused without running |
| StopTokens.LifetimeScenario | include/asyncpp/stop_token.h:115-117 | the state is freed exactly when its last owner, a token that outlives its source, lets go |
| StopTokens.MoveAssignAsWritten | include/asyncpp/stop_token.h:303 | after the defaulted move assignment a token of the old state still reports a possible stop though no source is left; with the intended assignment it reports none |
| PtrTag.FitsTagIsBelowAlignment | include/asyncpp/ptr_tag.h:19 | the constraint alignof(T) > ID is exactly "the tag has no bit outside the alignment mask" |
| PtrTag.Tag | include/asyncpp/ptr_tag.h:18-22 | the tagged pointer's low bits are the tag and its other bits are the aligned pointer |
| PtrTag.Untag | include/asyncpp/ptr_tag.h:67-72 | untagging splits a value into an aligned pointer and a tag below the alignment that together make up the value |
| PtrTag.UntagTag | include/asyncpp/ptr_tag.h:67-72 | untagging a tagged pointer gives back the pointer and the tag |
| PtrTag.TagUntag | include/asyncpp/ptr_tag.h:18-22 | tagging the two halves of an untagged value gives back the value |
| PtrTag.TagChangesPointer | include/asyncpp/ptr_tag.h:18-22 | a non-zero tag changes the pointer |
| PtrTag.MaskTotal | include/asyncpp/ptr_tag.h:117-123 | of two alignments, one mask lies inside the other, so std::min picks one of them |
| PtrTag.WithinIsSmaller | include/asyncpp/ptr_tag.h:117-123 | for alignment masks, lying inside is being no larger |
| PtrTag.WithinTrans | include/asyncpp/ptr_tag.h:117-123 | lying inside is transitive |
| PtrTag.MinAlign | include/asyncpp/ptr_tag.h:117-123 | min_alignof returns one of the listed alignments |
| PtrTag.MinAlignIsMask | include/asyncpp/ptr_tag.h:117-123 | the smallest alignment is itself a power-of-two alignment |
| PtrTag.MinAlignBelow | include/asyncpp/ptr_tag.h:117-123 | the smallest alignment's mask lies inside every listed alignment's mask |
| PtrTag.MinAlignIsMinimum | include/asyncpp/ptr_tag.h:117-123 | min_alignof is one of the alignments and no larger than any of them |
| PtrTag.GetTag | include/asyncpp/ptr_tag.h:131-135 | ptr_get_tag returns a tag below the smallest alignment of the listed types |
| PtrTag.GetTagOfTagged | include/asyncpp/ptr_tag.h:131-135 | a pointer to any listed type, tagged with a value below the smallest alignment, reports that tag from ptr_get_tag |
| PtrTag.GetTagBits | include/asyncpp/ptr_tag.h:131-135 | reading an aligned pointer's low bits through a smaller mask recovers a tag that fits it |
| PtrTag.TagValue | include/asyncpp/ptr_tag.h:31-34 | the test enum's enumerators have the numeric values 0 and 1 |
| PtrTag.TagOfValue | include/asyncpp/ptr_tag.h:81-85 | static_cast back to the enum is the inverse of the enumerator's value |
| PtrTag.UntagTagEnum | include/asyncpp/ptr_tag.h:81-85 | tagging with an enumerator and untagging with the enum type gives back the pointer and the enumerator |
| PtrTag.PtrTagSample | test/ptr_tag.cpp:17-26 | a pointer with alignment 8 tagged with 1 differs from the original, reports tag 1 and untags to the pointer and 1 |
| PtrTag.PtrTagEnumSample | test/ptr_tag.cpp:28-37 | the same with the enumerator test1, which untagging with the enum type gives back |
| ThreadsafeQueue.PopStep | include/asyncpp/threadsafe_queue.h:57-63 | pop on an empty queue returns none and keeps the queue; otherwise it returns the front element and the queue keeps exactly the rest |
| ThreadsafeQueue.PopMany | include/asyncpp/threadsafe_queue.h:57-63 | n successive pops hand out n results |
| ThreadsafeQueue.PopAllIsFifo | include/asyncpp/threadsafe_queue.h:57-72 | popping as many times as there are elements hands out every element in the order pushed and empties the queue; further pops return none |
| ThreadsafeQueue.PopEmpty | include/asyncpp/threadsafe_queue.h:59 | pops on an empty queue return none and leave it empty |
| ThreadsafeQueue.PushDoesNotOvertake | include/asyncpp/threadsafe_queue.h:57-72 | a push at the back does not change what pop takes from a non-empty queue and is what pop takes from an empty one |
| ThreadsafeQueue.ThreadsafeQueue.constructor | include/asyncpp/threadsafe_queue.h:25-26 | the queue starts with the contents of the container built from the forwarded arguments |
| ThreadsafeQueue.ThreadsafeQueue.Copy | include/asyncpp/threadsafe_queue.h:28-31 | the copy has the other queue's contents |
| ThreadsafeQueue.ThreadsafeQueue.Move | include/asyncpp/threadsafe_queue.h:33-36 | the new queue takes the other queue's contents |
| ThreadsafeQueue.ThreadsafeQueue.CopyAssign | include/asyncpp/threadsafe_queue.h:37-43 | copy assignment gives this queue the other's contents; self-assignment changes nothing |
| ThreadsafeQueue.ThreadsafeQueue.MoveAssign | include/asyncpp/threadsafe_queue.h:45-51 | move assignment gives this queue the other's contents; self-assignment changes nothing |
| ThreadsafeQueue.ThreadsafeQueue.Pop | include/asyncpp/threadsafe_queue.h:57-63 | pop returns and removes what PopStep says |
| ThreadsafeQueue.ThreadsafeQueue.Push | include/asyncpp/threadsafe_queue.h:69-72 | push appends the value at the back |
| ThreadsafeQueue.ThreadsafeQueue.Emplace | include/asyncpp/threadsafe_queue.h:78-82 | emplace appends the constructed value at the back |
| ThreadsafeQueue.FifoScenario | include/asyncpp/threadsafe_queue.h:57-72 | three pushes come back out of three pops in the order pushed, and a fourth pop returns none |
| ThreadsafeQueue.CopyScenario | include/asyncpp/threadsafe_queue.h:28-43 | popping a copy leaves the original's contents, and a self-assignment keeps them |
| ScopeGuard.LastCallWins | include/asyncpp/scope_guard.h:26-28 | after a series of engage and disengage calls the guard is engaged exactly when the last call was engage; with no call it keeps the constructor's flag |
| ScopeGuard.DestructorRuns | include/asyncpp/scope_guard.h:23-25 | the destructor calls the stored function exactly once when engaged and not at all otherwise |
| ScopeGuard.ScopeGuard.constructor | include/asyncpp/scope_guard.h:18 | the guard stores the function and the flag, engaged by default |
| ScopeGuard.ScopeGuard.Disengage | include/asyncpp/scope_guard.h:26 | disengage clears the flag, keeps the function and is recorded as the latest flag call |
| ScopeGuard.ScopeGuard.Engage | include/asyncpp/scope_guard.h:27 | engage sets the flag, keeps the function and is recorded as the latest flag call |
| ScopeGuard.ScopeGuard.IsEngaged | include/asyncpp/scope_guard.h:28 | is_engaged reports the constructor's flag when no engage or disengage was called since, and otherwise whether the last such call was engage |
| ScopeGuard.ScopeGuard.Function | include/asyncpp/scope_guard.h:29-30 | function() hands out the stored function, which no operation of the guard replaces |
| ScopeGuard.ScopeGuard.Dispose | include/asyncpp/scope_guard.h:23-25 | the destructor adds to the call log what DestructorRuns says for the flag it finds |
| ScopeGuard.DefaultGuardScenario | test/scope_guard.cpp:13-19 | a default guard is engaged and calls its function once on exit |
| ScopeGuard.DisengageScenario | test/scope_guard.cpp:21-44 | disengaging suppresses the call on exit; engaging again restores it |
| ScopeGuard.NotEngagedScenario | test/scope_guard.cpp:46-77 | a guard constructed disengaged does not call on exit unless engaged, and a later disengage wins again |
| ScopeGuard.FunctionScenario | test/scope_guard.cpp:79-90 | function() returns the function the guard was built with, and a guard built disengaged reports so |
| PromiseAllocator.HeaderSize | include/asyncpp/detail/promise_allocator_base.h:23-35 | there are bytes in front of the frame exactly when the allocator is stateful |
| PromiseAllocator.BlockSize | include/asyncpp/detail/promise_allocator_base.h:23-34 | new asks for exactly the frame size with an always-equal allocator and for one allocator object more with a stateful one |
| PromiseAllocator.FrameStart | include/asyncpp/detail/promise_allocator_base.h:33-34 | the frame starts one header past the block |
| PromiseAllocator.BlockStart | include/asyncpp/detail/promise_allocator_base.h:43 | delete steps back one header from the frame to the block |
| PromiseAllocator.BlockOfFrame | include/asyncpp/detail/promise_allocator_base.h:32-45 | the block delete computes from a frame is the block new allocated for it |
| PromiseAllocator.FrameLayout | include/asyncpp/detail/promise_allocator_base.h:32-34 | the stored allocator and the frame lie inside the block without overlapping, and the frame ends where the block ends |
| PromiseAllocator.DebugAllocator.constructor | test/debug_allocator.h:5-10 | a new debug allocator has all four counters at zero and no live block |
| PromiseAllocator.DebugAllocator.Allocate | test/debug_allocator.h:11-15 | allocate adds n to the allocated sum and one to the allocated count and returns a fresh non-null block of n bytes |
| PromiseAllocator.DebugAllocator.Deallocate | test/debug_allocator.h:16-20 | deallocate adds n to the released sum and one to the released count and retires the block; every call and byte stays matched |
| PromiseAllocator.LiveBytesRemove | test/debug_allocator.h:16-20 | retiring a live block takes exactly its bytes out of the live total |
| PromiseAllocator.LiveBytesAdd | test/debug_allocator.h:11-15 | a fresh block adds exactly its bytes to the live total |
| PromiseAllocator.New | include/asyncpp/detail/promise_allocator_base.h:21-36 | operator new allocates one block of BlockSize bytes from the allocator, stores a copy of a stateful allocator in front of the frame and returns the non-null frame address |
| PromiseAllocator.Delete | include/asyncpp/detail/promise_allocator_base.h:37-47 | operator delete ignores null; otherwise the allocator that owns the frame gets back the block new allocated, with the size new asked for |
| PromiseAllocator.AlwaysEqualScenario | include/asyncpp/detail/promise_allocator_base.h:23-41 | with an always-equal allocator a frame costs one allocation and one release of exactly its size; deleting null does nothing |
| PromiseAllocator.StatefulScenario | test/async_generator.cpp:41-58 | two frames through a stateful allocator start one allocator object into their blocks, and after both are deleted every byte and call is matched and no header is left |

## Left out

- Memory ordering and retry loops: every compare-and-swap loop, acquire/release order and `std::mutex` critical section is one atomic step; interleavings between two threads inside one operation are not modelled.
- The lock held between a queue's or channel's `await_ready` and `await_suspend` is not modelled: the two calls are one step when the await suspends.
- Context switching of fibers (the per-architecture assembly, ucontext and Windows fiber paths), `mmap`/`mprotect` themselves and the sanitizer and valgrind hooks: entering a fiber and returning to its caller is one abstract step, and a mapping is an address returned by the caller or a failure.
- Dispatchers, the thread pool, timers and the thread-local current dispatcher: a dispatcher is an id recorded in the resumption log; pushing work to it is not executed.
- `generator.h`'s `fmap` is not part of this model: it is a generator written in terms of the modelled `begin`/`++` and adds no state of its own.
- A `co_await` inside a generator body is refused by the compiler (deleted `await_transform`); the generator script simply has no await step.
- The printf tracing of `fire_and_forget.h` is output only and is left out.
- `promise::get` with a timeout and the blocking wait of `promise::get` on a pending promise: `get` is modelled on a settled promise only, which is the state the blocking wait ends in.
- Copies of a `promise` share one state; the model has one object per state, so handle copies and their aliasing are not modelled.
- `atomic_ref`'s spinlock (`lock`, `unlock_with`, the cpu pause) is left out; `operator=`, `store`, `release`, `reset` and the destructor of `atomic_ref` are compositions of the modelled `Exchange` and `Load` and are not modelled separately.
- The comparison operators and hashes of `ref` and `atomic_ref` compare and hash the raw pointer and are left out.
- Signals.Signal.MoveAssign: requires the two signals to differ, because a self-move locks the same `std::mutex` twice through `std::scoped_lock`, which is undefined; the C++ operator also lacks its `return *this`.
- Queue.Queue.MoveAssign: requires the two queues to differ, because a self-move locks the same `std::mutex` twice through `std::scoped_lock`, which is undefined; it also requires the awaiters waiting on the source queue to be distinct from those the target has seen, since one coroutine cannot wait on two queues at once.
- The signal destructor's unlinking of the remaining nodes, `operator+=`/`operator-=` (spellings of `append` and `remove`) and the move operations of `signal_manager` are left out.
- Slots that change their own signal while it is being invoked are modelled only for a slot that connects another one; a slot that removes itself or invokes the signal again is not.
- Signals.Signal.Remove: a node that was already unlinked is left alone; the C++ code relinks its stale neighbours, which is not modelled.
- Signals.Signal.Remove, Signals.SignalManager.Remove: a handle whose node belongs to another signal is excluded by the precondition; `signal::remove` (signal.h:352-359) would unlink that node through its own neighbour pointers and mark it removed, which needs a node store shared between signals, and each modelled signal owns its nodes.
- StopTokens.StopState.AddSource: requires fewer than 2^30 - 1 sources; the source count sits in bits 2-31 of the 32-bit state word, and one more `add_ssrc` would wrap it to zero, which the model does not follow.
- The stop state's lock bit, its `yield` and `binary_semaphore` spinning, and the `m_requester`/`m_destroyed` bookkeeping for a callback that removes itself while it runs are left out; between operations the lock bit is clear.
- The branch of `stop_token.h` that aliases `std::stop_token` when the standard library provides one, and `swap` and `==` on tokens and sources, are left out.
- Pointers are 64-bit values (`bv64`); other pointer widths are not modelled.
- Queue.Queue.Move, Queue.MoveAssignStep: the moved-from buffer is modelled as empty; the `std::deque` move the C++ code uses leaves it valid but unspecified, so emptiness is a choice of the model, not a promise of the source.
- PromiseAllocator.Delete: the moved-from allocator in the frame header is never destroyed by the C++ code; the model drops it from the header map when the block is returned, and does not model the destructor call that is missing.
- The allocator of the frame-allocation hook is modelled as the counting `debug_allocator` of the tests; `parameter_pack::get_last` (the last coroutine argument) is the `alloc` parameter, and the `static_assert`s are compile-time checks.

## Findings

| source | as written | input that shows it | evidently intended | confidence | as-written member | corrected member |
|---|---|---|---|---|---|---|
| include/asyncpp/latch.h:42-44 | `decrement` sets the event only when the count was 0 before `fetch_sub` | a latch of 1 decremented by 1: the count is 0 but the latch is not ready | the latch becomes ready when the count reaches 0, as its documentation says | high, not executed | Latch.CountdownToZeroIsNotReady | Latch.IntendedReadyIffZero |
| include/asyncpp/event.h:339-357 | `multi_consumer_event::set` returns true whenever the event was not set | `set()` on an unset event with no waiter returns true | true exactly when a waiting coroutine was resumed, as its documentation says | high, not executed | Event.MultiSetReportsWakeWithoutWaiter | Event.MultiSetDocumented |
| include/asyncpp/event.h:545-551 | the auto-reset multi-consumer fast path passes a set event without resetting it | two awaiters on a set event: both pass without suspending | an awaiter passing a set event consumes it, so only one passes (test/event.cpp:288-297) | high, not executed | Event.AutoMultiFastPathKeepsSet | Event.AutoMultiConsumingLetsOneThrough |
| include/asyncpp/channel.h:278-290 | a write that hands its value to a waiting reader keeps its result false | a reader waits, then a writer writes: the write completes with false, as if the channel were closed | the write reports true when it delivered its value | high, not executed | Channel.DeliveredWriteReportsFalse | Channel.WriteSuspendIntended |
| include/asyncpp/fire_and_forget.h:120-125 | copy assignment drops the old reference before taking the new one | self copy assignment by the only owner destroys the frame, and the destructor later destroys it again | self-assignment changes nothing | high, not executed | FireAndForget.SelfCopyAssignDestroysTwice | FireAndForget.SelfCopyAssignIntendedIsNoOp |
| include/asyncpp/fire_and_forget.h:132-141 | `start` resumes any frame that is not done | `start` on a copy of a task whose body already started and waits at an await resumes that body from the await | the body is started only once, from its initial suspension | medium, not executed | FireAndForget.StartOnCopyResumesSuspendedBody | FireAndForget.StartIntendedKeepsSuspendedBody |
| include/asyncpp/fiber.h:48-50 | the rounded stack size is computed in `size_t` and wraps | a request of SIZE_MAX bytes with 4096-byte pages gives 0 pages and a successful empty stack | the allocation fails when the rounded size and guard pages do not fit | medium, not executed | Fiber.HugeRequestGetsEmptyStack | Fiber.AllocateStackChecked |
| include/asyncpp/ref.h:181-186 | `reset(p)` drops the old reference before adding one to `p` | `r.reset(r.get())` on the only reference deletes the object and then increments its freed count | resetting to the held object keeps it alive with its count | high, not executed | Refs.ResetToSelfAsWritten | Refs.ResetToSelfIntended |
| include/asyncpp/signal.h:385-387 | a slot is invoked when `counter >= node->counter` | a handler that connects a new slot during an invocation: the new slot gets the loaded counter and is called by that same invocation | only slots connected before the invocation started are called | medium, not executed | Signals.ConnectDuringInvokeAsWritten | Signals.IntendedSeparatesBeforeAndAfter |
| include/asyncpp/stop_token.h:303 | the defaulted move assignment of `stop_source` moves the state reference without taking this source off the old state | move another source into the only source of a state: a token of the old state still reports that a stop is possible | the old state loses this source, as the destructor would take it | high, not executed | StopTokens.MoveAssignAsWritten | StopTokens.StopSource.MoveAssignIntended |
