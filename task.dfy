/** The lazy task of include/asyncpp/task.h: a coroutine frame whose promise
    holds a result slot and one continuation, and the `task` object that
    owns the frame and can be awaited once. */
module Tasks {
  import opened Common

  /** An exception in flight: one the body threw, or the
      std::bad_variant_access raised by reading an empty result slot. */
  datatype Error = Thrown(id: ExceptionId) | BadVariantAccess

  /** task_promise_base::m_value: empty, a value (for task<void> the
      `returned` marker, here the unit value), or a captured exception. */
  datatype Slot<T> = Empty | Value(value: T) | Exception(error: Error)

  /** How a coroutine body ends: co_return of a value, or an escaping exception. */
  datatype Completion<T> = Return(value: T) | Throw(error: Error)

  /** What task_promise::get delivers: a value, or an exception it throws. */
  datatype Outcome<T> = Returned(value: T) | Raised(error: Error)

  /** The slot once the body has ended: return_value / return_void store
      the value, unhandled_exception stores the exception. Consuming it with
      Get reproduces exactly how the body ended. */
  function Store<T>(c: Completion<T>): (s: Slot<T>)
    ensures s != Empty
    ensures c.Return? ==> Get(s) == Returned(c.value)
    ensures c.Throw? ==> Get(s) == Raised(c.error)
  {
    match c
    case Return(v) => Value(v)
    case Throw(e) => Exception(e)
  }

  /** task_promise::get (rethrow_if_exception): the stored exception is
      rethrown, otherwise the variant is read as a value, which throws
      std::bad_variant_access while the slot is still empty. */
  function Get<T>(s: Slot<T>): (r: Outcome<T>)
    ensures s == Empty ==> r == Raised(BadVariantAccess)
    ensures r.Returned? <==> s.Value?
  {
    match s
    case Exception(e) => Raised(e)
    case Value(v) => Returned(v)
    case Empty => Raised(BadVariantAccess)
  }

  /** The coroutine frame with its task_promise. */
  class TaskFrame<T> {
    /** The body has been entered (it starts suspended at initial_suspend). */
    var started: bool
    /** The body has reached final_suspend. */
    var finished: bool
    var slot: Slot<T>
    var continuation: Option<Handle>
    /** The continuations final_suspend transferred control to. */
    ghost var transfers: seq<Handle>
    ghost var destroyed: bool

    /** The slot is filled exactly when the body has ended, and the single
        continuation is resumed once, at final suspension. */
    ghost predicate Valid()
      reads this
    {
      (!started ==> slot == Empty && !finished)
      && (finished ==> slot != Empty && continuation.Some? && transfers == [continuation.value])
      && (!finished ==> transfers == [])
    }

    /** The body is running and has not ended yet. */
    predicate Running()
      reads this
    {
      started && !finished && slot == Empty
    }

    /** A fresh frame: initial_suspend always suspends, so nothing of the
        body has run. */
    constructor ()
      ensures Valid() && !started && !finished && slot == Empty && continuation == None
      ensures transfers == [] && !destroyed
    {
      started := false;
      finished := false;
      slot := Empty;
      continuation := None;
      transfers := [];
      destroyed := false;
    }

    /** return_value. */
    method ReturnValue(v: T)
      requires Valid() && Running()
      modifies this
      ensures Valid() && slot == Value(v) && started && !finished
      ensures continuation == old(continuation) && transfers == old(transfers) && destroyed == old(destroyed)
    {
      slot := Value(v);
    }

    /** unhandled_exception. */
    method UnhandledException(e: Error)
      requires Valid() && Running()
      modifies this
      ensures Valid() && slot == Exception(e) && started && !finished
      ensures continuation == old(continuation) && transfers == old(transfers) && destroyed == old(destroyed)
    {
      slot := Exception(e);
    }

    /** final_suspend's awaiter: never ready; transfers to the continuation,
        which must have been set. */
    method FinalSuspend() returns (next: Handle)
      requires Valid() && started && !finished && slot != Empty && continuation.Some?
      modifies this
      ensures Valid() && finished && next == old(continuation.value) && transfers == [next]
      ensures slot == old(slot) && continuation == old(continuation) && destroyed == old(destroyed)
    {
      finished := true;
      next := continuation.value;
      transfers := transfers + [next];
    }

    /** task_promise::get. */
    method GetResult() returns (r: Outcome<T>)
      ensures r == Get(slot)
    {
      match slot {
        case Exception(e) => r := Raised(e);
        case Value(v) => r := Returned(v);
        case Empty => r := Raised(BadVariantAccess);
      }
    }
  }

  /** task_promise<void>::return_void stores the `returned` marker. */
  method ReturnVoid(frame: TaskFrame<()>)
    requires frame.Valid() && frame.Running()
    modifies frame
    ensures frame.Valid() && frame.slot == Value(()) && !frame.finished
    ensures frame.continuation == old(frame.continuation) && frame.transfers == old(frame.transfers)
  {
    frame.ReturnValue(());
  }

  /** The `task` object: sole owner of its frame, or empty. */
  class Task<T> {
    var coro: TaskFrame?<T>

    /** task(handle): the handle must be a live frame that has not finished. */
    constructor (frame: TaskFrame<T>)
      requires frame.Valid() && !frame.finished
      ensures coro == frame
    {
      coro := frame;
    }

    /** task(nullptr): an invalid task. */
    constructor Null()
      ensures coro == null
    {
      coro := null;
    }

    /** The move constructor takes the frame and leaves `other` empty. */
    constructor Move(other: Task<T>)
      modifies other
      ensures coro == old(other.coro) && other.coro == null
    {
      coro := other.coro;
      other.coro := null;
    }

    /** Move assignment exchanges the two frames. */
    method MoveAssign(other: Task<T>)
      modifies this, other
      ensures other != this ==> coro == old(other.coro) && other.coro == old(coro)
      ensures other == this ==> coro == old(coro)
    {
      var mine := coro;
      coro := other.coro;
      other.coro := mine;
    }

    /** operator bool (and its negation, operator!). */
    method IsValid() returns (b: bool)
      ensures b <==> coro != null
    {
      b := coro != null;
    }

    /** The destructor destroys a held frame; the `task` is empty afterwards,
        so destroying again does nothing. */
    method Destroy()
      modifies this, coro
      ensures coro == null
      ensures old(coro) != null ==> old(coro).destroyed
      ensures old(coro) != null ==> unchanged(old(coro)`slot, old(coro)`started, old(coro)`finished)
    {
      if coro != null {
        coro.destroyed := true;
      }
      coro := null;
    }

    /** co_await task: await_ready is false; await_suspend stores the
        awaiting coroutine as the frame's single continuation and transfers
        to the frame, which starts its body. */
    method AwaitSuspend(h: Handle) returns (next: TaskFrame<T>)
      requires coro != null && coro.Valid() && !coro.started
      modifies coro
      ensures next == coro && coro.Valid() && coro.Running()
      ensures coro.continuation == Some(h) && coro.transfers == [] && coro.destroyed == old(coro.destroyed)
    {
      coro.continuation := Some(h);
      coro.started := true;
      next := coro;
    }

    /** The awaiter's await_resume: the frame's result, or its exception. */
    method AwaitResume() returns (r: Outcome<T>)
      requires coro != null
      ensures r == Get(coro.slot)
    {
      r := coro.GetResult();
    }
  }

  /** A complete run of an awaited task: started by AwaitSuspend, ending
      with `c`, and final suspension handing control back. The awaiting
      coroutine is resumed once and reads back how the body ended. */
  method RunToCompletion<T>(t: Task<T>, h: Handle, c: Completion<T>) returns (next: Handle, r: Outcome<T>)
    requires t.coro != null && t.coro.Valid() && !t.coro.started
    modifies t.coro
    ensures next == h && t.coro.Valid() && t.coro.finished && t.coro.transfers == [h]
    ensures r == (match c case Return(v) => Returned(v) case Throw(e) => Raised(e))
  {
    var frame := t.AwaitSuspend(h);
    match c {
      case Return(v) => frame.ReturnValue(v);
      case Throw(e) => frame.UnhandledException(e);
    }
    next := frame.FinalSuspend();
    r := t.AwaitResume();
  }

  function Fib(n: nat): (r: nat)
  {
    if n <= 1 then n else Fib(n - 1) + Fib(n - 2)
  }

  /** The slot of fib_task(n) (test/task.cpp) once it has run to the end:
      the two awaited sub-tasks' results are read with get, and an exception
      from either would end this body as well. */
  function FibTask(n: nat): (r: Slot<int>)
  {
    if n <= 1 then Store(Return(n as int))
    else
      match Get(FibTask(n - 1))
      case Raised(e) => Store(Throw(e))
      case Returned(a) =>
        match Get(FibTask(n - 2))
        case Raised(e) => Store(Throw(e))
        case Returned(b) => Store(Return(a + b))
  }

  /** Recursive awaiting composes: every fib_task returns the Fibonacci number. */
  lemma {:induction false} FibTaskComputesFib(n: nat)
    ensures FibTask(n) == Value(Fib(n) as int)
  {
    if n > 1 {
      FibTaskComputesFib(n - 1);
      FibTaskComputesFib(n - 2);
    }
  }

  lemma FibTaskTen()
    ensures Get(FibTask(10)) == Returned(55)
  {
    FibTaskComputesFib(10);
    assert Fib(2) == 1 && Fib(3) == 2 && Fib(4) == 3 && Fib(5) == 5 && Fib(6) == 8;
    assert Fib(7) == 13 && Fib(8) == 21 && Fib(9) == 34 && Fib(10) == 55;
  }
}
