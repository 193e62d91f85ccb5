/** The stackful fibers of include/asyncpp/fiber.h, without the
    per-architecture context switch: the stack-size arithmetic of
    fiber_allocate_stack, and the protocol by which a fiber handle (which
    poses as a C++20 coroutine handle) runs its entry function, lets it
    await ordinary awaiters through fib_await, and is destroyed. Switching
    into the fiber and back is an abstract step. */
module Fiber {
  import opened Common

  // ---------------------------------------------------------------------
  // Stack allocation arithmetic

  /** 2^64: std::size_t arithmetic wraps modulo this. */
  const SizeModulus: nat := 0x1_0000_0000_0000_0000

  /** stack_context: the usable stack top and size, and the whole mapping
      (its base, none when nothing was mapped, and its length). */
  datatype StackContext = StackContext(stack: nat, stackSize: nat, mmapBase: Option<nat>, mmapSize: nat)

  /** The requested size rounded up to whole pages: the page count and
      the byte size it covers, the least multiple of the page size that
      holds the request. */
  function PageRound(size: nat, page: nat): (r: (nat, nat))
    requires page > 0
    ensures r.1 == r.0 * page && size <= r.1 < size + page
  {
    var k := (size + page - 1) / page;
    (k, k * page)
  }

  /** fiber_allocate_stack as written with unbounded sizes: round up to
      whole pages, map that plus one guard page below and one above, and
      place the stack top just below the upper guard page. `mapped` is what
      mmap returned: the base address, or none for MAP_FAILED. */
  function AllocateStack(ctx: StackContext, size: nat, page: nat, mapped: Option<nat>): (r: (bool, StackContext))
    requires page > 0
    ensures !r.0 <==> mapped.None?
    ensures !r.0 ==> r.1 == ctx
    ensures r.0 ==> r.1.stackSize == PageRound(size, page).1 && r.1.stackSize >= size
                    && r.1.mmapSize == r.1.stackSize + 2 * page
                    && r.1.mmapBase == mapped
                    && r.1.stack == mapped.value + page + r.1.stackSize
  {
    var rounded := PageRound(size, page).1;
    if mapped.None? then (false, ctx)
    else (true, StackContext(mapped.value + page + rounded, rounded, mapped, rounded + 2 * page))
  }

  /** The mapping splits into the lower guard page, the usable stack and
      the upper guard page, in that order and without overlap; the stack
      grows down from its top, which is where the upper guard page starts. */
  lemma StackLayout(ctx: StackContext, size: nat, page: nat, base: nat)
    requires page > 0
    ensures var c := AllocateStack(ctx, size, page, Some(base)).1;
            var lowerGuardEnd := base + page;
            var upperGuardStart := c.stack;
            lowerGuardEnd + c.stackSize == upperGuardStart
            && upperGuardStart + page == base + c.mmapSize
            && c.stackSize == PageRound(size, page).0 * page
  {
  }

  /** The same computation in std::size_t, where `size + pagesize - 1`
      wraps around for the largest requests. */
  function AllocatedSizeAsWritten(size: nat, page: nat): (r: nat)
    requires 0 < page < SizeModulus && size < SizeModulus
    ensures r < SizeModulus
  {
    var pageCount := ((size + page - 1) % SizeModulus) / page;
    (pageCount * page) % SizeModulus
  }

  /** With 4 KiB pages, a request of SIZE_MAX bytes wraps to a page count of
      zero: the allocation reports success with an empty stack. */
  lemma HugeRequestGetsEmptyStack()
    ensures AllocatedSizeAsWritten(SizeModulus - 1, 4096) == 0
  {
  }

  /** The intended allocation: a request whose rounded size and guard
      pages do not fit a std::size_t fails like a failed mapping. */
  function AllocateStackChecked(ctx: StackContext, size: nat, page: nat, mapped: Option<nat>): (r: (bool, StackContext))
    requires 0 < page < SizeModulus
    ensures r.0 ==> r.1.stackSize >= size && r.1.mmapSize < SizeModulus
    ensures r.0 ==> r.1 == AllocateStack(ctx, size, page, mapped).1
    ensures !r.0 ==> r.1 == ctx
  {
    if PageRound(size, page).1 + 2 * page >= SizeModulus then (false, ctx)
    else AllocateStack(ctx, size, page, mapped)
  }

  /** Whenever the checked size fits, the size_t computation agrees with it. */
  lemma {:induction false} AsWrittenAgreesWhenItFits(size: nat, page: nat)
    requires 0 < page < SizeModulus && size < SizeModulus
    requires PageRound(size, page).1 + 2 * page < SizeModulus
    ensures AllocatedSizeAsWritten(size, page) == PageRound(size, page).1
  {
    assert size + page - 1 < SizeModulus by {
      assert size <= PageRound(size, page).1;
    }
  }

  /** fiber_deallocate_stack: nothing mapped is a successful no-op;
      otherwise the outcome of munmap. */
  function DeallocateStack(ctx: StackContext, munmapOk: bool): (ok: bool)
    ensures ctx.mmapBase.None? ==> ok
    ensures ctx.mmapBase.Some? ==> ok == munmapOk
  {
    ctx.mmapBase.None? || munmapOk
  }

  // ---------------------------------------------------------------------
  // The fiber handle protocol

  /** What an awaiter's await_suspend does when the resume loop calls it:
      returns nothing, returns a bool, returns a handle to resume, or throws. */
  datatype SuspendResult = ReturnsVoid | ReturnsBool(b: bool) | ReturnsHandle(h: Handle) | Throws(e: ExceptionId)

  /** An awaiter the fiber's function passes to fib_await. */
  datatype Awaiter = Awaiter(ready: bool, onSuspend: SuspendResult)

  /** The fiber's entry function as a script: the awaiters it passes to
      fib_await in order, and whether it wraps each fib_await in a
      catch-all (as the tests do), continuing with its next step. */
  datatype Body = Body(awaits: seq<Awaiter>, catches: bool)

  /** fiber_handle_base as a value: where the function stands (`pc`, the
      fib_await it is in), `running` (resume_cb is set, i.e. not done),
      the flags, the pending suspend handler (the awaiter) and exception,
      the continuation; the ghost counters record what happened. */
  datatype FS = FS(pc: nat, running: bool, started: bool, wantDestroy: bool,
                   handler: Option<Awaiter>, exception: Option<ExceptionId>, continuation: Option<Handle>,
                   resumed: seq<Handle>, readyCalls: nat, suspendCalls: nat, resumeCalls: nat,
                   continuationResumes: nat, returned: bool, terminated: bool, freed: bool)

  /** A fresh handle from make_fiber_handle: not started, nothing pending. */
  function NewHandle(): (r: FS)
  {
    FS(0, true, false, false, None, None, None, [], 0, 0, 0, 0, false, false, false)
  }

  /** The fiber is switched out with nothing pending for the resume loop:
      either never started, or inside the fib_await of step `pc`. */
  ghost predicate Parked(b: Body, s: FS)
  {
    s.running && s.handler.None? && s.pc <= |b.awaits|
    && (s.started ==> s.pc < |b.awaits|)
    && (!s.started ==> s.pc == 0 && s.exception.None?)
  }

  /** One fib_await: await_ready is called; a ready awaiter's
      await_resume runs inline and the function moves to its next step,
      any other awaiter is installed as the suspend handler. */
  function AwaitOnce(b: Body, s: FS): (r: FS)
    requires s.pc < |b.awaits|
    ensures r.readyCalls == s.readyCalls + 1
    ensures b.awaits[s.pc].ready ==> r.pc == s.pc + 1 && r.handler == s.handler && r.resumeCalls == s.resumeCalls + 1
    ensures !b.awaits[s.pc].ready ==> r.pc == s.pc && r.handler == Some(b.awaits[s.pc]) && r.resumeCalls == s.resumeCalls
  {
    var s1 := s.(readyCalls := s.readyCalls + 1);
    if b.awaits[s.pc].ready then s1.(resumeCalls := s1.resumeCalls + 1, pc := s1.pc + 1)
    else s1.(handler := Some(b.awaits[s.pc]))
  }

  /** The function runs on from step `pc`: each fib_await calls
      await_ready; a ready awaiter's await_resume runs inline and the
      function goes on; otherwise fib_await installs the suspend handler and
      switches out. After the last step the function returns: resume_cb is
      cleared and the fiber switches out for good. */
  function RunBody(b: Body, s: FS): (r: FS)
    requires s.pc <= |b.awaits|
    ensures s.pc <= r.pc <= |b.awaits|
    ensures r.handler.Some? ==> r.running == s.running && r.pc < |b.awaits| && r.handler == Some(b.awaits[r.pc])
    ensures r.handler.None? ==> !r.running && r.returned && r.pc == |b.awaits|
    ensures r.started == s.started && r.wantDestroy == s.wantDestroy && r.exception == s.exception
    ensures r.continuation == s.continuation && r.resumed == s.resumed && r.suspendCalls == s.suspendCalls
    ensures r.continuationResumes == s.continuationResumes && r.terminated == s.terminated && r.freed == s.freed
    decreases |b.awaits| - s.pc
  {
    if s.pc == |b.awaits| then s.(running := false, returned := true, handler := None)
    else if b.awaits[s.pc].ready then RunBody(b, AwaitOnce(b, s))
    else AwaitOnce(b, s)
  }

  /** RunBody takes one fib_await at a time: after a ready awaiter it goes
      on from the next step, and a suspending one ends it. */
  lemma RunBodyUnfold(b: Body, s: FS)
    requires s.pc < |b.awaits|
    ensures b.awaits[s.pc].ready ==> RunBody(b, s) == RunBody(b, AwaitOnce(b, s))
    ensures !b.awaits[s.pc].ready ==> RunBody(b, s) == AwaitOnce(b, s)
  {
  }

  /** An exception surfaces at the fib_await of step `pc`: the function's
      catch-all absorbs it and it goes on; otherwise the destroy request is
      caught at the fiber's root and the function ends, and any other
      exception escapes the fiber and terminates the program. */
  function Raise(b: Body, s: FS, destroyRequest: bool): (r: FS)
    requires s.pc < |b.awaits|
  {
    if b.catches then RunBody(b, s.(pc := s.pc + 1))
    else if destroyRequest then s.(running := false, handler := None)
    else s.(running := false, handler := None, terminated := true)
  }

  /** Switching into the fiber. A fresh fiber starts its function
      (was_started is set). A fiber inside fib_await first rethrows a
      captured exception, then throws the destroy request if one was made,
      and otherwise returns the awaiter's await_resume and goes on. */
  function EnterFiber(b: Body, s: FS): (r: FS)
    requires Parked(b, s)
    ensures r.started && r.exception.None? && r.pc <= |b.awaits|
    ensures r.handler.Some? ==> r.running && r.pc < |b.awaits| && r.handler == Some(b.awaits[r.pc])
    ensures r.handler.Some? ==> r.pc >= s.pc + (if s.started then 1 else 0)
    ensures r.handler.None? ==> !r.running
    ensures r.continuation == s.continuation && r.resumed == s.resumed && r.wantDestroy == s.wantDestroy
    ensures r.suspendCalls == s.suspendCalls && r.continuationResumes == s.continuationResumes && r.freed == s.freed
  {
    if !s.started then RunBody(b, s.(started := true))
    else if s.exception.Some? then Raise(b, s.(exception := None), false)
    else if s.wantDestroy then Raise(b, s, true)
    else RunBody(b, s.(resumeCalls := s.resumeCalls + 1, pc := s.pc + 1))
  }

  /** The resume loop takes the suspend handler (clearing it first) and
      calls the awaiter's await_suspend with the fiber's handle. Void and
      true mean: stay suspended; false means: switch straight back into the
      fiber; a handle is resumed and the fiber stays suspended; an exception
      is captured for the fiber to rethrow. Returns whether to leave the loop. */
  function HandleSuspend(b: Body, s: FS): (r: (FS, bool))
    requires s.handler.Some? && s.running && s.started && s.exception.None? && s.pc < |b.awaits|
    ensures r.0.handler.None? && r.0.suspendCalls == s.suspendCalls + 1
    ensures r.0.pc == s.pc && r.0.running && r.0.started
    ensures r.0.continuation == s.continuation && r.0.continuationResumes == s.continuationResumes
    ensures r.0.wantDestroy == s.wantDestroy && r.0.freed == s.freed
    ensures !r.1 ==> Parked(b, r.0)
    ensures r.1 ==> r.0.exception.None?
    ensures s.handler.value.onSuspend.Throws? <==> r.0.exception.Some?
    ensures r.1 <==> !(s.handler.value.onSuspend.Throws? || s.handler.value.onSuspend == ReturnsBool(false))
  {
    var s0 := s.(handler := None, suspendCalls := s.suspendCalls + 1);
    match s.handler.value.onSuspend
    case ReturnsVoid => (s0, true)
    case ReturnsBool(x) => (s0, x)
    case ReturnsHandle(h) => (s0.(resumed := s0.resumed + [h]), true)
    case Throws(e) => (s0.(exception := Some(e)), false)
  }

  /** After the loop: a finished fiber resumes its continuation, if set. */
  function Finish(s: FS): (r: FS)
    ensures r == s.(continuationResumes := r.continuationResumes)
    ensures r.continuationResumes == s.continuationResumes + (if !s.running && s.continuation.Some? then 1 else 0)
  {
    if !s.running && s.continuation.Some? then s.(continuationResumes := s.continuationResumes + 1) else s
  }

  /** resume_cb: switch into the fiber until it stays suspended or its
      function is over, then resume the continuation of a finished fiber.
      The handler is never left installed; a fiber still running is parked
      inside a fib_await; the continuation is resumed exactly when the
      fiber has finished. */
  function ResumeLoop(b: Body, s: FS): (r: FS)
    requires Parked(b, s)
    ensures r.handler.None? && r.exception.None? && r.started
    ensures r.running ==> Parked(b, r)
    ensures r.continuation == s.continuation && r.wantDestroy == s.wantDestroy && r.freed == s.freed
    ensures r.continuationResumes == s.continuationResumes + (if !r.running && s.continuation.Some? then 1 else 0)
    decreases |b.awaits| + 1 - s.pc + (if s.started then 0 else 1)
  {
    var s1 := EnterFiber(b, s);
    if s1.handler.None? then Finish(s1)
    else
      var (s2, leave) := HandleSuspend(b, s1);
      if leave then Finish(s2) else ResumeLoop(b, s2)
  }

  /** destroy_cb: a started, unfinished fiber is asked to unwind (the
      destroy request is thrown at its pending fib_await) by one more
      resumption; a fiber that never started is not resumed. Only then are
      the stack and the handle freed. */
  function DestroyStep(b: Body, s: FS): (r: FS)
    requires s.running ==> Parked(b, s)
    ensures r.freed
    ensures !(s.running && s.started) ==> r == s.(freed := true)
  {
    if s.running && s.started then ResumeLoop(b, s.(wantDestroy := true)).(freed := true)
    else s.(freed := true)
  }

  /** A function without a catch-all is always unwound by the destroy
      request: the fiber is done before its stack is freed, and its
      function did not return normally. */
  lemma {:induction false} DestroyUnwinds(b: Body, s: FS)
    requires Parked(b, s) && s.started && !b.catches && s.exception.None?
    ensures !DestroyStep(b, s).running && !DestroyStep(b, s).returned == !s.returned
  {
    var s1 := EnterFiber(b, s.(wantDestroy := true));
    assert s1 == s.(wantDestroy := true, running := false, handler := None);
  }

  /** test/fiber.cpp:46-71: a ready awaiter is resumed inline; the fiber
      finishes within the first resumption without suspending. */
  lemma ReadyAwaiterSkipsSuspend(h: SuspendResult)
    ensures var r := ResumeLoop(Body([Awaiter(true, h)], false), NewHandle());
            !r.running && r.readyCalls == 1 && r.suspendCalls == 0 && r.resumeCalls == 1
  {
    var b := Body([Awaiter(true, h)], false);
    var s1 := NewHandle().(started := true, readyCalls := 1, resumeCalls := 1, pc := 1);
    assert RunBody(b, s1) == s1.(running := false, returned := true, handler := None);
  }

  /** test/fiber.cpp:73-103 and 135-168: await_suspend returning void or
      true leaves the fiber suspended until the next resumption. */
  lemma SuspendingAwaiterWaitsForNextResume(kind: SuspendResult)
    requires kind == ReturnsVoid || kind == ReturnsBool(true)
    ensures var b := Body([Awaiter(false, kind)], false);
            var r1 := ResumeLoop(b, NewHandle());
            r1.running && r1.readyCalls == 1 && r1.suspendCalls == 1 && r1.resumeCalls == 0
            && var r2 := ResumeLoop(b, r1);
               !r2.running && r2.readyCalls == 1 && r2.suspendCalls == 1 && r2.resumeCalls == 1
  {
  }

  /** test/fiber.cpp:105-133: await_suspend returning false re-enters the
      fiber within the same resumption. */
  lemma RefusedSuspendContinues()
    ensures var r := ResumeLoop(Body([Awaiter(false, ReturnsBool(false))], false), NewHandle());
            !r.running && r.readyCalls == 1 && r.suspendCalls == 1 && r.resumeCalls == 1
  {
  }

  /** test/fiber.cpp:170-211: a returned handle is resumed by the resume
      loop while the fiber stays suspended. */
  lemma ReturnedHandleIsResumed(h: Handle)
    ensures var b := Body([Awaiter(false, ReturnsHandle(h))], false);
            var r1 := ResumeLoop(b, NewHandle());
            r1.running && r1.resumed == [h] && r1.suspendCalls == 1 && r1.resumeCalls == 0
            && var r2 := ResumeLoop(b, r1);
               !r2.running && r2.resumed == [h] && r2.resumeCalls == 1
  {
  }

  /** test/fiber.cpp:213-246: an exception from await_suspend is rethrown
      inside the fiber, where the function catches it and finishes, all in
      the first resumption; await_resume is never called. */
  lemma SuspendExceptionIsRethrownInFiber(e: ExceptionId)
    ensures var r := ResumeLoop(Body([Awaiter(false, Throws(e))], true), NewHandle());
            !r.running && r.returned && r.readyCalls == 1 && r.suspendCalls == 1 && r.resumeCalls == 0
  {
  }

  /** test/fiber.cpp:282-299: destroying a fiber suspended in fib_await
      makes that fib_await throw inside the fiber (the function catches it
      and returns) before the stack is freed. */
  lemma DestroyThrowsAtPendingAwait()
    ensures var b := Body([Awaiter(false, ReturnsVoid)], true);
            var r1 := ResumeLoop(b, NewHandle());
            r1.running && var d := DestroyStep(b, r1);
            d.freed && !d.running && d.returned && d.resumeCalls == 0
  {
  }

  /** A fiber that was never started is freed without running anything. */
  lemma UnstartedFiberIsNotResumed(b: Body)
    ensures DestroyStep(b, NewHandle()) == NewHandle().(freed := true)
  {
  }

  /** The fiber handle as an object. */
  class FiberHandle {
    const body: Body
    var pc: nat
    var running: bool
    var started: bool
    var wantDestroy: bool
    var handler: Option<Awaiter>
    var exception: Option<ExceptionId>
    var continuation: Option<Handle>
    var returned: bool
    ghost var resumed: seq<Handle>
    ghost var readyCalls: nat
    ghost var suspendCalls: nat
    ghost var resumeCalls: nat
    ghost var continuationResumes: nat
    ghost var terminated: bool
    ghost var freed: bool

    ghost function View(): (r: FS)
      reads this
    {
      FS(pc, running, started, wantDestroy, handler, exception, continuation, resumed,
         readyCalls, suspendCalls, resumeCalls, continuationResumes, returned, terminated, freed)
    }

    /** make_fiber_handle once the stack was allocated and the context made. */
    constructor (body: Body)
      ensures this.body == body && View() == NewHandle()
    {
      this.body := body;
      pc := 0;
      running := true;
      started := false;
      wantDestroy := false;
      handler := None;
      exception := None;
      continuation := None;
      returned := false;
      resumed := [];
      readyCalls := 0;
      suspendCalls := 0;
      resumeCalls := 0;
      continuationResumes := 0;
      terminated := false;
      freed := false;
    }

    /** done(): the resume callback has been cleared. */
    method Done() returns (d: bool)
      ensures d == !running
    {
      d := !running;
    }

    /** One fib_await of the function: a ready awaiter is resumed inline
        and the function goes on; otherwise the handler is installed. */
    method AwaitStep() returns (suspended: bool)
      requires pc < |body.awaits|
      modifies this
      ensures suspended <==> !body.awaits[old(pc)].ready
      ensures View() == AwaitOnce(body, old(View()))
    {
      var a := body.awaits[pc];
      readyCalls := readyCalls + 1;
      if a.ready {
        resumeCalls := resumeCalls + 1;
        pc := pc + 1;
        suspended := false;
      } else {
        handler := Some(a);
        suspended := true;
      }
    }

    method RunBodyM()
      requires pc <= |body.awaits|
      modifies this
      ensures View() == RunBody(body, old(View()))
    {
      ghost var target := RunBody(body, View());
      while pc < |body.awaits|
        invariant pc <= |body.awaits|
        invariant RunBody(body, View()) == target
        decreases |body.awaits| - pc
      {
        RunBodyUnfold(body, View());
        var suspended := AwaitStep();
        if suspended {
          return;
        }
      }
      running := false;
      returned := true;
      handler := None;
    }

    method RaiseM(destroyRequest: bool)
      requires pc < |body.awaits|
      modifies this
      ensures View() == Raise(body, old(View()), destroyRequest)
    {
      if body.catches {
        pc := pc + 1;
        RunBodyM();
      } else {
        running := false;
        handler := None;
        if !destroyRequest {
          terminated := true;
        }
      }
    }

    method EnterFiberM()
      requires Parked(body, View())
      modifies this
      ensures View() == EnterFiber(body, old(View()))
    {
      ghost var s := View();
      if !started {
        started := true;
        assert View() == s.(started := true);
        RunBodyM();
      } else if exception.Some? {
        exception := None;
        assert View() == s.(exception := None);
        RaiseM(false);
      } else if wantDestroy {
        RaiseM(true);
      } else {
        resumeCalls := resumeCalls + 1;
        pc := pc + 1;
        assert View() == s.(resumeCalls := s.resumeCalls + 1, pc := s.pc + 1);
        RunBodyM();
      }
    }

    method HandleSuspendM() returns (leave: bool)
      requires handler.Some? && running && started && exception.None? && pc < |body.awaits|
      modifies this
      ensures (View(), leave) == HandleSuspend(body, old(View()))
    {
      var a := handler.value;
      handler := None;
      suspendCalls := suspendCalls + 1;
      match a.onSuspend {
        case ReturnsVoid => leave := true;
        case ReturnsBool(x) => leave := x;
        case ReturnsHandle(h) =>
          resumed := resumed + [h];
          leave := true;
        case Throws(e) =>
          exception := Some(e);
          leave := false;
      }
    }

    /** resume(): the resume callback's loop. */
    method Resume()
      requires Parked(body, View())
      modifies this
      ensures View() == ResumeLoop(body, old(View()))
    {
      ghost var target := ResumeLoop(body, View());
      var leave := false;
      while running && !leave
        invariant running && !leave ==> Parked(body, View()) && ResumeLoop(body, View()) == target
        invariant !(running && !leave) ==> Finish(View()) == target
        decreases running && !leave, |body.awaits| + 1 - pc + (if started then 0 else 1)
      {
        EnterFiberM();
        if handler.Some? {
          leave := HandleSuspendM();
        }
      }
      if !running && continuation.Some? {
        continuationResumes := continuationResumes + 1;
      }
    }

    /** destroy(): destroy_cb. */
    method Destroy()
      requires running ==> Parked(body, View())
      modifies this
      ensures View() == DestroyStep(body, old(View()))
    {
      if running && started {
        wantDestroy := true;
        Resume();
      }
      freed := true;
    }
  }

  /** Why awaiting a fiber throws std::logic_error. */
  datatype FiberError = EmptyFiber | AlreadyAwaited

  /** How co_await on a fiber proceeds: at once (the fiber is done), by
      transferring to the fiber, or with a thrown logic_error. */
  datatype AwaitOutcome = Continues | Transferred | Failed(error: FiberError)

  /** fiber<void>: owns a fiber handle, or is empty. */
  class FiberObject {
    var handle: FiberHandle?

    constructor (body: Body)
      ensures handle != null && fresh(handle) && handle.body == body && handle.View() == NewHandle()
    {
      handle := new FiberHandle(body);
    }

    constructor Empty()
      ensures handle == null
    {
      handle := null;
    }

    constructor Move(other: FiberObject)
      modifies other
      ensures handle == old(other.handle) && other.handle == null
    {
      handle := other.handle;
      other.handle := null;
    }

    /** Move assignment destroys a held handle first (unless it is
        self-assignment). */
    method MoveAssign(other: FiberObject)
      requires handle != null && handle.running ==> Parked(handle.body, handle.View())
      modifies this, other, handle
      ensures other == this ==> handle == old(handle)
      ensures other != this ==> handle == old(other.handle) && other.handle == null
      ensures other != this && old(handle) != null ==> old(handle).freed
    {
      if other != this {
        if handle != null {
          handle.Destroy();
        }
        handle := other.handle;
        other.handle := null;
      }
    }

    /** The destructor destroys a held handle. */
    method Dispose()
      requires handle != null && handle.running ==> Parked(handle.body, handle.View())
      modifies handle
      ensures handle != null ==> handle.View() == DestroyStep(handle.body, old(handle.View()))
    {
      if handle != null {
        handle.Destroy();
      }
    }

    /** co_await fiber by coroutine `h`: await() throws on an empty fiber;
        await_ready is done(); await_suspend throws if a continuation is
        already set, else records `h` and transfers to the fiber. */
    method Await(h: Handle) returns (outcome: AwaitOutcome)
      requires handle != null && handle.running ==> Parked(handle.body, handle.View())
      modifies handle
      ensures handle == null ==> outcome == Failed(EmptyFiber)
      ensures handle != null && !old(handle.running) ==> outcome == Continues && handle.View() == old(handle.View())
      ensures handle != null && old(handle.running) && old(handle.continuation).Some? ==>
                outcome == Failed(AlreadyAwaited) && handle.View() == old(handle.View())
      ensures handle != null && old(handle.running) && old(handle.continuation).None? ==>
                outcome == Transferred
                && handle.View() == ResumeLoop(handle.body, old(handle.View()).(continuation := Some(h)))
    {
      if handle == null {
        return Failed(EmptyFiber);
      }
      var done := handle.Done();
      if done {
        return Continues;
      }
      if handle.continuation.Some? {
        return Failed(AlreadyAwaited);
      }
      handle.continuation := Some(h);
      handle.Resume();
      outcome := Transferred;
    }
  }

  /** fiber<T>: the entry function's result lands in a separately owned
      optional slot once the function returns; awaiting delegates to the
      fiber<void> inside. */
  class FiberOf<T> {
    const base: FiberObject
    /** m_result is present (not moved away). */
    var hasResult: bool
    /** The value the entry function returns. */
    const value: T

    constructor (body: Body, value: T)
      ensures hasResult && fresh(base) && base.handle != null && fresh(base.handle)
      ensures base.handle.body == body && base.handle.View() == NewHandle() && this.value == value
    {
      base := new FiberObject(body);
      hasResult := true;
      this.value := value;
    }

    /** await(): an empty fiber<T> is detected through its result slot. */
    method Await(h: Handle) returns (outcome: AwaitOutcome)
      requires base.handle != null && base.handle.running ==> Parked(base.handle.body, base.handle.View())
      modifies base.handle
      ensures !hasResult ==> outcome == Failed(EmptyFiber)
      ensures hasResult && base.handle == null ==> outcome == Failed(EmptyFiber)
      ensures hasResult && base.handle != null && !old(base.handle.running) ==>
                outcome == Continues && base.handle.View() == old(base.handle.View())
      ensures hasResult && base.handle != null && old(base.handle.running) && old(base.handle.continuation).Some? ==>
                outcome == Failed(AlreadyAwaited) && base.handle.View() == old(base.handle.View())
      ensures hasResult && base.handle != null && old(base.handle.running) && old(base.handle.continuation).None? ==>
                outcome == Transferred
                && base.handle.View() == ResumeLoop(base.handle.body, old(base.handle.View()).(continuation := Some(h)))
    {
      if !hasResult {
        return Failed(EmptyFiber);
      }
      outcome := base.Await(h);
    }

    /** await_resume: the result must be present, i.e. the function returned. */
    method AwaitResume() returns (v: T)
      requires base.handle != null && base.handle.returned
      ensures v == value
    {
      v := value;
    }
  }
}
