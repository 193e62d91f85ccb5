/** The fire-and-forget task of include/asyncpp/fire_and_forget.h: a frame
    whose lifetime is governed by a reference count shared between the `task`
    objects that hold its handle and the running body itself. The body is an
    abstract script: each time it is resumed it either runs to its end or
    suspends at an await inside the body. */
module FireAndForget {
  import opened Common

  /** Where the frame stands. `Suspended` is a body suspended at an await
      inside it (its awaited operation will resume it). */
  datatype Phase = AtInitial | Suspended | AtFinal | Freed

  /** The promise: its reference count, its phase, whether the body was
      ever entered, how many times the frame has been destroyed, and the
      installed exception handler. */
  datatype Frame = Frame(eager: bool, count: nat, phase: Phase, entered: bool, frees: nat,
                         handler: Option<nat>)

  /** The count is exactly the number of task objects holding the handle,
      plus one while the body is inside its run; the frame is destroyed
      once, exactly when that reaches zero. */
  ghost predicate Inv(f: Frame, owners: nat)
  {
    f.count == owners + (if f.phase == Suspended then 1 else 0)
    && (f.phase == Freed <==> f.count == 0)
    && f.frees == (if f.phase == Freed then 1 else 0)
    && (f.phase == AtInitial ==> !f.entered)
    && (f.phase == Suspended || f.phase == AtFinal ==> f.entered)
  }

  /** promise_type::ref. */
  function Ref(f: Frame): (g: Frame)
    ensures g.count == f.count + 1 && g.phase == f.phase && g.frees == f.frees
  {
    f.(count := f.count + 1)
  }

  /** promise_type::unref: the count drops, and the frame is destroyed
      exactly when it goes from 1 to 0. */
  function Unref(f: Frame): (g: Frame)
    requires f.count >= 1
    ensures g.count == f.count - 1
    ensures g.frees == f.frees + (if f.count == 1 then 1 else 0)
    ensures g.phase == (if f.count == 1 then Freed else f.phase)
  {
    if f.count == 1 then f.(count := 0, phase := Freed, frees := f.frees + 1)
    else f.(count := f.count - 1)
  }

  /** final_suspend: drops the body's reference; if that was the last one
      the awaiter is ready and the frame runs off its end and is destroyed,
      otherwise it stays suspended at the final point for its last owner. */
  function FinalSuspend(f: Frame): (g: Frame)
    requires f.count >= 1 && f.phase != Freed
    ensures g.count == f.count - 1 && (g.phase == Freed <==> f.count == 1)
    ensures g.phase != Freed ==> g.phase == AtFinal && g.frees == f.frees
  {
    var u := Unref(f);
    if u.phase == Freed then u else u.(phase := AtFinal)
  }

  /** The body runs after a resumption, holding its reference: to its end
      (`completes`) or to an await inside it. */
  function RunBody(f: Frame, completes: bool): (g: Frame)
    requires f.count >= 1 && f.phase != Freed
  {
    if completes then FinalSuspend(f) else f.(phase := Suspended)
  }

  /** Entering the body from the initial suspension point: initial
      awaiter's await_resume takes the body's reference, then the body runs. */
  function Enter(f: Frame, completes: bool): (g: Frame)
    requires f.phase != Freed
  {
    RunBody(Ref(f).(entered := true), completes)
  }

  /** A new frame with its task object (count 1). An eager task skips the
      initial suspension and enters its body at once; a lazy one waits. */
  function Create(eager: bool, completes: bool): (f: Frame)
    ensures Inv(f, 1)
    ensures f.entered <==> eager
  {
    var f0 := Frame(eager, 1, AtInitial, false, 0, None);
    if eager then Enter(f0, completes) else f0
  }

  /** The awaited operation resumes a body suspended inside it. */
  lemma ResumeKeepsInv(f: Frame, owners: nat, completes: bool)
    requires Inv(f, owners) && f.phase == Suspended
    ensures Inv(RunBody(f, completes), owners)
  {
  }

  /** Copying a task object (copy constructor) adds an owner. */
  lemma CopyKeepsInv(f: Frame, owners: nat)
    requires Inv(f, owners) && owners >= 1
    ensures Inv(Ref(f), owners + 1)
  {
  }

  /** Destroying a task object that holds the handle removes an owner; the
      frame is destroyed here iff that owner was the last reference. */
  lemma DestroyKeepsInv(f: Frame, owners: nat)
    requires Inv(f, owners) && owners >= 1
    ensures Inv(Unref(f), owners - 1)
    ensures Unref(f).phase == Freed <==> owners == 1 && f.phase != Suspended
  {
  }

  /** fire_and_forget_task::start as written: if the handle is held and the
      frame is not at its final point, resume it, drop this object's
      reference and clear the handle. Returns the new frame and whether the
      handle is kept. */
  function StartStep(f: Frame, completes: bool): (r: (Frame, bool))
    requires f.count >= (if f.phase == Suspended then 2 else 1) && f.phase != Freed
    ensures r.1 <==> f.phase == AtFinal
    ensures r.1 ==> r.0 == f
  {
    if f.phase == AtFinal then (f, true)
    else
      var g := if f.phase == AtInitial then Enter(f, completes) else RunBody(f, completes);
      (Unref(g), false)
  }

  /** Starting a lazy task (owners held by one object) from its initial
      point runs the body and leaves the counts consistent with one owner
      fewer. */
  lemma {:induction false} StartFromInitialKeepsInv(f: Frame, owners: nat, completes: bool)
    requires Inv(f, owners) && owners >= 1 && f.phase == AtInitial
    ensures Inv(StartStep(f, completes).0, owners - 1)
    ensures StartStep(f, completes).0.entered
  {
    var g := Enter(f, completes);
    if completes {
      assert g == FinalSuspend(Ref(f).(entered := true));
      assert g.count == owners && g.phase != Freed;
    } else {
      assert g.count == owners + 1 && g.phase == Suspended;
    }
  }

  /** As written, `start` also resumes a frame that a copy of the `task` has
      already started and that is now suspended at an await in its body. If
      the body then ends, the frame is destroyed while its awaited operation
      still holds the handle and will resume it. */
  lemma StartOnCopyResumesSuspendedBody()
    ensures var f := Create(false, false);
            var copy := Ref(f);
            var afterFirst := StartStep(copy, false).0;
            Inv(afterFirst, 1) && afterFirst.phase == Suspended
            && StartStep(afterFirst, true).0.phase == Freed
  {
    var f := Create(false, false);
    var copy := Ref(f);
    var afterFirst := StartStep(copy, false).0;
    assert afterFirst.count == 2;
  }

  /** The intended `start`: only a frame still at its initial suspension
      point is resumed, so the body is entered at most once and a body
      suspended in an await is left to its awaited operation. */
  function StartIntended(f: Frame, completes: bool): (r: (Frame, bool))
    requires f.count >= (if f.phase == Suspended then 2 else 1) && f.phase != Freed
    ensures f.phase != AtInitial ==> r == (f, true)
    ensures f.phase == AtInitial ==> !r.1 && r.0.entered
  {
    if f.phase == AtInitial then
      var g := Enter(f, completes);
      (Unref(g), false)
    else (f, true)
  }

  /** With the intended start, every started copy leaves a suspended body
      alive with its own reference. */
  lemma StartIntendedKeepsSuspendedBody(f: Frame, owners: nat, completes: bool)
    requires Inv(f, owners) && owners >= 1 && f.phase == Suspended
    ensures StartIntended(f, completes).0 == f && Inv(f, owners)
  {
  }

  /** Copy assignment `t = t` as written: the old reference is dropped
      before the new one is taken, so a sole owner destroys the frame and
      then takes a reference to the destroyed frame. */
  function SelfCopyAssign(f: Frame): (g: Frame)
    requires f.count >= 1
  {
    Ref(Unref(f))
  }

  /** With a sole owner of a lazy frame, self copy assignment destroys the
      frame, and the object's later destruction destroys it a second time. */
  lemma SelfCopyAssignDestroysTwice()
    ensures var f := Create(false, true);
            var g := SelfCopyAssign(f);
            g.phase == Freed && g.frees == 1 && Unref(g).frees == 2
  {
  }

  /** The intended copy assignment takes the new reference before dropping
      the old one; for self-assignment that leaves the frame unchanged. */
  function SelfCopyAssignIntended(f: Frame): (g: Frame)
  {
    Unref(Ref(f))
  }

  lemma SelfCopyAssignIntendedIsNoOp(f: Frame, owners: nat)
    requires Inv(f, owners) && owners >= 1
    ensures SelfCopyAssignIntended(f) == f
  {
  }

  /** What an exception escaping the body leads to: the handler installed
      through an exception_policy, else std::terminate. */
  datatype ExceptionAction = CallHandler(handler: nat) | Terminate

  function OnUnhandledException(f: Frame): (a: ExceptionAction)
    ensures a.Terminate? <==> f.handler.None?
    ensures f.handler.Some? ==> a == CallHandler(f.handler.value)
  {
    if f.handler.Some? then CallHandler(f.handler.value) else Terminate
  }

  /** The promise as an object. */
  class Promise {
    const eager: bool
    var count: nat
    var phase: Phase
    var entered: bool
    ghost var frees: nat
    var handler: Option<nat>

    ghost function View(): (r: Frame)
      reads this
    {
      Frame(eager, count, phase, entered, frees, handler)
    }

    /** The frame as created by the call, before the initial suspension. */
    constructor (eager: bool)
      ensures View() == Frame(eager, 1, AtInitial, false, 0, None)
    {
      this.eager := eager;
      count := 1;
      phase := AtInitial;
      entered := false;
      frees := 0;
      handler := None;
    }

    method AddRef()
      modifies this
      ensures View() == Ref(old(View()))
    {
      count := count + 1;
    }

    method RemoveRef()
      requires count >= 1
      modifies this
      ensures View() == Unref(old(View()))
    {
      var before := count;
      count := count - 1;
      if before == 1 {
        phase := Freed;
        frees := frees + 1;
      }
    }

    /** initial_suspend's awaiter: ready exactly for an eager task. */
    method InitialReady() returns (ready: bool)
      ensures ready == eager
    {
      ready := eager;
    }

    /** initial_suspend's await_resume and the body's run. */
    method EnterBody(completes: bool)
      requires phase != Freed
      modifies this
      ensures View() == Enter(old(View()), completes)
    {
      AddRef();
      entered := true;
      RunBodyStep(completes);
    }

    method RunBodyStep(completes: bool)
      requires count >= 1 && phase != Freed
      modifies this
      ensures View() == RunBody(old(View()), completes)
    {
      if completes {
        var _ := FinalReady();
      } else {
        phase := Suspended;
      }
    }

    /** final_suspend's await_ready. */
    method FinalReady() returns (ready: bool)
      requires count >= 1 && phase != Freed
      modifies this
      ensures View() == FinalSuspend(old(View()))
      ensures ready <==> old(count) == 1
    {
      ready := count == 1;
      RemoveRef();
      if !ready {
        phase := AtFinal;
      }
    }

    /** await_transform(exception_policy): installs the handler; the
        returned suspend_never never suspends. */
    method SetExceptionPolicy(h: nat) returns (ready: bool)
      modifies this
      ensures ready && View() == old(View()).(handler := Some(h))
    {
      handler := Some(h);
      ready := true;
    }

    method UnhandledException() returns (a: ExceptionAction)
      ensures a == OnUnhandledException(View())
    {
      if handler.Some? {
        a := CallHandler(handler.value);
      } else {
        a := Terminate;
      }
    }
  }

  /** fire_and_forget_task_impl: holds the frame's handle, or none. */
  class Task {
    var coro: Promise?

    /** From the handle returned by get_return_object: the frame's initial
        reference belongs to this object. */
    constructor (p: Promise)
      ensures coro == p
    {
      coro := p;
    }

    constructor Move(other: Task)
      modifies other
      ensures coro == old(other.coro) && other.coro == null
    {
      coro := other.coro;
      other.coro := null;
    }

    method MoveAssign(other: Task)
      modifies this, other
      ensures other != this ==> coro == old(other.coro) && other.coro == old(coro)
      ensures other == this ==> coro == old(coro)
    {
      var mine := coro;
      coro := other.coro;
      other.coro := mine;
    }

    /** The copy constructor shares the frame and adds a reference. */
    constructor Copy(other: Task)
      modifies other.coro
      ensures coro == other.coro
      ensures other.coro != null ==> other.coro.View() == Ref(old(other.coro.View()))
    {
      coro := other.coro;
      if other.coro != null {
        other.coro.AddRef();
      }
    }

    /** Copy assignment as written: drop the old reference, then share and
        reference the other object's frame. */
    method CopyAssign(other: Task)
      requires coro != null ==> coro.count >= 1
      modifies this, coro, other.coro
      ensures coro == old(other.coro)
      ensures old(coro) != null && old(coro) == old(other.coro) ==> coro.View() == SelfCopyAssign(old(coro.View()))
      ensures old(coro) != null && old(coro) != old(other.coro) ==> old(coro).View() == Unref(old(coro.View()))
      ensures coro != null && old(coro) != coro ==> coro.View() == Ref(old(other.coro.View()))
    {
      if coro != null {
        coro.RemoveRef();
      }
      coro := other.coro;
      if coro != null {
        coro.AddRef();
      }
    }

    /** The destructor drops this object's reference. */
    method Destroy()
      requires coro != null ==> coro.count >= 1
      modifies this, coro
      ensures coro == null
      ensures old(coro) != null ==> old(coro).View() == Unref(old(coro.View()))
    {
      if coro != null {
        coro.RemoveRef();
      }
      coro := null;
    }

    /** start (lazy tasks only). */
    method Start(completes: bool)
      requires coro != null ==> !coro.eager && coro.phase != Freed
                                && coro.count >= (if coro.phase == Suspended then 2 else 1)
      modifies this, coro
      ensures old(coro) == null ==> coro == null
      ensures old(coro) != null ==>
                var r := StartStep(old(coro.View()), completes);
                old(coro).View() == r.0 && (coro != null <==> r.1) && (r.1 ==> coro == old(coro))
    {
      if coro != null && coro.phase != AtFinal {
        if coro.phase == AtInitial {
          coro.EnterBody(completes);
        } else {
          coro.RunBodyStep(completes);
        }
        coro.RemoveRef();
        coro := null;
      }
    }
  }

  /** The three uses of test/fire_and_forget.cpp: a started lazy task runs
      its body; an eager one runs it on creation; an unstarted lazy one never
      runs it. In each case the frame is destroyed exactly once, at the end of
      the statement. */
  lemma LifetimeScenarios()
    ensures var f := StartStep(Create(false, true), true).0;
            f.entered && f.phase == Freed && f.frees == 1
    ensures var f := Create(true, true);
            f.entered && f.phase == AtFinal && Unref(f).frees == 1
    ensures var f := Create(false, true);
            !f.entered && Unref(f).phase == Freed && Unref(f).frees == 1 && !Unref(f).entered
  {
  }
}
