/** The thread-safe promise of include/asyncpp/promise.h: a shared state
    that is pending, fulfilled with a value or rejected with an exception,
    plus the list of callbacks waiting for that result; and the combinators
    first, first_successful, all and all_values, driven by the order in
    which their inputs report a result. The mutex and condition variable
    only serialise these steps. */
module Promises {
  import opened Common

  /** The variant m_value. */
  datatype PState<T> = Pending | Fulfilled(value: T) | Rejected(error: ExceptionId)

  /** A result as a callback receives it: (value, null) or (null, exception). */
  datatype Outcome<T> = Value(value: T) | Failure(error: ExceptionId)

  /** An entry of m_on_result: the resume callback of a suspended co_await,
      any other callback (an opaque id), or an empty std::function. */
  datatype Callback = ResumeAwaiter(handle: Handle) | Listener(id: nat) | NoCallback

  /** The state a result settles into. */
  function Settled<T>(o: Outcome<T>): (s: PState<T>)
    ensures !s.Pending?
    ensures s.Fulfilled? <==> o.Value?
  {
    match o
    case Value(v) => Fulfilled(v)
    case Failure(e) => Rejected(e)
  }

  /** The result a settled state reports; inverse of Settled. */
  function OutcomeOf<T>(s: PState<T>): (o: Outcome<T>)
    requires !s.Pending?
    ensures Settled(o) == s
  {
    match s
    case Fulfilled(v) => Value(v)
    case Rejected(e) => Failure(e)
  }

  lemma OutcomeOfSettled<T>(o: Outcome<T>)
    ensures OutcomeOf(Settled(o)) == o
  {
  }

  /** try_fulfill / try_reject on the state alone: only a pending promise
      takes the result; a settled one reports false and keeps its result. */
  function SettleStep<T>(s: PState<T>, o: Outcome<T>): (r: (PState<T>, bool))
    ensures r.1 <==> s.Pending?
    ensures r.1 ==> r.0 == Settled(o)
    ensures !r.1 ==> r.0 == s
  {
    if s.Pending? then (Settled(o), true) else (s, false)
  }

  /** The callbacks that are actually invoked: the non-empty ones. */
  function Live(cbs: seq<Callback>): (r: seq<Callback>)
    ensures NoCallback !in r
    ensures |r| <= |cbs|
    ensures forall c :: c != NoCallback ==> multiset(r)[c] == multiset(cbs)[c]
  {
    if cbs == [] then []
    else
      assert cbs == [cbs[0]] + cbs[1..];
      var rest := Live(cbs[1..]);
      if cbs[0] == NoCallback then rest else [cbs[0]] + rest
  }

  lemma {:induction false} LiveSnoc(cbs: seq<Callback>, c: Callback)
    ensures Live(cbs + [c]) == Live(cbs) + (if c == NoCallback then [] else [c])
  {
    if cbs == [] {
      assert [] + [c] == [c];
    } else {
      assert (cbs + [c])[1..] == cbs[1..] + [c];
      LiveSnoc(cbs[1..], c);
    }
  }

  /** Settling runs the moved-out callback list in order: every non-empty
      callback once, each with the same result. */
  method RunCallbacks<T>(cbs: seq<Callback>, o: Outcome<T>) returns (calls: seq<(Callback, Outcome<T>)>)
    ensures |calls| == |Live(cbs)|
    ensures forall i :: 0 <= i < |calls| ==> calls[i] == (Live(cbs)[i], o)
  {
    calls := [];
    var i := 0;
    while i < |cbs|
      invariant 0 <= i <= |cbs|
      invariant |calls| == |Live(cbs[..i])|
      invariant forall k :: 0 <= k < |calls| ==> calls[k] == (Live(cbs[..i])[k], o)
    {
      LiveSnoc(cbs[..i], cbs[i]);
      assert cbs[..i + 1] == cbs[..i] + [cbs[i]];
      if cbs[i] != NoCallback {
        calls := calls + [(cbs[i], o)];
      }
      i := i + 1;
    }
    assert cbs[..i] == cbs;
  }

  /** The shared state behind every copy of a promise (copies alias it). */
  class Promise<T> {
    var state: PState<T>
    var onResult: seq<Callback>
    /** Every callback invocation made on behalf of this promise, in order. */
    ghost var calls: seq<(Callback, Outcome<T>)>

    /** Callbacks wait only while pending: settling moves the list out, and
        registering on a settled promise runs the callback at once. */
    ghost predicate Valid()
      reads this
    {
      !state.Pending? ==> onResult == []
    }

    /** promise(): pending, no callbacks. */
    constructor ()
      ensures Valid() && state == Pending && onResult == [] && calls == []
    {
      state := Pending;
      onResult := [];
      calls := [];
    }

    method IsPending() returns (b: bool)
      ensures b <==> state.Pending?
    {
      b := state.Pending?;
    }

    method IsFulfilled() returns (b: bool)
      ensures b <==> state.Fulfilled?
    {
      b := state.Fulfilled?;
    }

    method IsRejected() returns (b: bool)
      ensures b <==> state.Rejected?
    {
      b := state.Rejected?;
    }

    /** try_fulfill and try_reject: settle a pending promise, then run the
        callbacks that were waiting; a settled promise is left alone. */
    method TrySettle(o: Outcome<T>) returns (ok: bool)
      requires Valid()
      modifies this
      ensures Valid()
      ensures (state, ok) == SettleStep(old(state), o)
      ensures ok ==> onResult == [] && |calls| == |old(calls)| + |Live(old(onResult))|
      ensures ok ==> calls[..|old(calls)|] == old(calls)
      ensures ok ==> forall i :: 0 <= i < |Live(old(onResult))| ==> calls[|old(calls)| + i] == (Live(old(onResult))[i], o)
      ensures !ok ==> onResult == old(onResult) && calls == old(calls)
    {
      if !state.Pending? {
        return false;
      }
      state := Settled(o);
      var cbs := onResult;
      onResult := [];
      var run := RunCallbacks(cbs, o);
      calls := calls + run;
      ok := true;
    }

    method TryFulfill(v: T) returns (ok: bool)
      requires Valid()
      modifies this
      ensures Valid() && (state, ok) == SettleStep(old(state), Value(v))
    {
      ok := TrySettle(Value(v));
    }

    method TryReject(e: ExceptionId) returns (ok: bool)
      requires Valid()
      modifies this
      ensures Valid() && (state, ok) == SettleStep(old(state), Failure(e))
    {
      ok := TrySettle(Failure(e));
    }

    /** fulfill / reject: like the try_ forms, but a settled promise makes
        them throw std::logic_error. */
    method Settle(o: Outcome<T>) returns (logicError: bool)
      requires Valid()
      modifies this
      ensures Valid()
      ensures logicError <==> !old(state).Pending?
      ensures state == SettleStep(old(state), o).0
      ensures !logicError ==> onResult == [] && |calls| == |old(calls)| + |Live(old(onResult))|
      ensures !logicError ==> calls[..|old(calls)|] == old(calls)
      ensures !logicError ==> forall i :: 0 <= i < |Live(old(onResult))| ==> calls[|old(calls)| + i] == (Live(old(onResult))[i], o)
      ensures logicError ==> onResult == old(onResult) && calls == old(calls)
    {
      var ok := TrySettle(o);
      logicError := !ok;
    }

    /** on_result: queue the callback while pending, otherwise run it now
        with the stored result. */
    method OnResult(cb: Callback)
      requires Valid()
      modifies this
      ensures Valid() && state == old(state)
      ensures old(state).Pending? ==> onResult == old(onResult) + [cb] && calls == old(calls)
      ensures !old(state).Pending? ==> onResult == [] && calls == old(calls) + [(cb, OutcomeOf(state))]
    {
      if state.Pending? {
        onResult := onResult + [cb];
      } else {
        calls := calls + [(cb, OutcomeOf(state))];
      }
    }

    /** get() once the promise is settled: the value, or the exception rethrown. */
    method Get() returns (o: Outcome<T>)
      requires !state.Pending?
      ensures Settled(o) == state
    {
      o := OutcomeOf(state);
    }

    /** try_get(std::nothrow): (null, null) while pending, else the value
        or the exception. */
    method TryGetNoThrow() returns (value: Option<T>, error: Option<ExceptionId>)
      ensures state.Pending? ==> value == None && error == None
      ensures state.Fulfilled? ==> value == Some(state.value) && error == None
      ensures state.Rejected? ==> value == None && error == Some(state.error)
    {
      match state {
        case Pending => value, error := None, None;
        case Fulfilled(v) => value, error := Some(v), None;
        case Rejected(e) => value, error := None, Some(e);
      }
    }

    /** try_get(): the same, with the exception rethrown. */
    method TryGet() returns (value: Option<T>, thrown: Option<ExceptionId>)
      ensures state.Rejected? <==> thrown.Some?
      ensures thrown.Some? ==> thrown.value == state.error && value == None
      ensures value.Some? <==> state.Fulfilled?
      ensures value.Some? ==> value.value == state.value
    {
      value, thrown := TryGetNoThrow();
    }

    /** The awaiter's await_ready: the promise is settled. */
    method AwaitReady() returns (ready: bool)
      ensures ready <==> !state.Pending?
    {
      ready := !state.Pending?;
    }

    /** await_suspend(h): while pending, queue a callback resuming h and
        suspend; a promise settled in the meantime does not suspend. */
    method AwaitSuspend(h: Handle) returns (suspend: bool)
      requires Valid()
      modifies this
      ensures Valid() && state == old(state) && calls == old(calls)
      ensures suspend <==> old(state).Pending?
      ensures suspend ==> onResult == old(onResult) + [ResumeAwaiter(h)]
      ensures !suspend ==> onResult == old(onResult)
    {
      suspend := state.Pending?;
      if suspend {
        onResult := onResult + [ResumeAwaiter(h)];
      }
    }

    /** await_resume: the promise is settled by now. */
    method AwaitResume() returns (o: Outcome<T>)
      requires !state.Pending?
      ensures Settled(o) == state
    {
      o := OutcomeOf(state);
    }
  }

  /** make_fulfilled and make_rejected. */
  method MakeSettled<T>(o: Outcome<T>) returns (p: Promise<T>)
    ensures fresh(p) && p.Valid() && p.state == Settled(o) && p.onResult == []
  {
    p := new Promise();
    var _ := p.Settle(o);
  }

  // ---------------------------------------------------------------------
  // Combinators. `arrivals` lists the inputs' results in the order their
  // callbacks run (an input already settled when the combinator registers
  // runs its callback at once, in argument order).

  /** first: the result of the earliest input to report, if any. */
  function FirstSpec<T>(arrivals: seq<Outcome<T>>): (r: PState<T>)
  {
    if arrivals == [] then Pending else Settled(arrivals[0])
  }

  /** first: every callback tries to settle the shared promise with its
      input's result; only the first succeeds. */
  method First<T>(arrivals: seq<Outcome<T>>) returns (p: Promise<T>)
    ensures p.Valid() && p.state == FirstSpec(arrivals)
  {
    p := new Promise();
    var i := 0;
    while i < |arrivals|
      invariant 0 <= i <= |arrivals|
      invariant p.Valid() && p.state == FirstSpec(arrivals[..i])
    {
      assert arrivals[..i + 1][0] == arrivals[0];
      match arrivals[i] {
        case Value(v) =>
          var _ := p.TryFulfill(v);
        case Failure(e) =>
          var _ := p.TryReject(e);
      }
      i := i + 1;
    }
    assert arrivals[..i] == arrivals;
  }

  /** Later results never change what first settled on. */
  lemma FirstIgnoresLater<T>(a: seq<Outcome<T>>, b: seq<Outcome<T>>)
    requires a != []
    ensures FirstSpec(a + b) == FirstSpec(a)
  {
    assert (a + b)[0] == a[0];
  }

  /** Index of the first successful result, if any. */
  function FirstValueIndex<T>(arrivals: seq<Outcome<T>>): (r: Option<nat>)
    ensures r.Some? ==> r.value < |arrivals| && arrivals[r.value].Value?
                        && forall k :: 0 <= k < r.value ==> arrivals[k].Failure?
    ensures r.None? ==> forall k :: 0 <= k < |arrivals| ==> arrivals[k].Failure?
  {
    if arrivals == [] then None
    else if arrivals[0].Value? then Some(0)
    else
      match FirstValueIndex(arrivals[1..])
      case None => None
      case Some(j) => Some(j + 1)
  }

  /** first_successful over `total` inputs: the first success, or, once all
      inputs have failed, the last failure; pending otherwise (in
      particular, forever when there are no inputs). */
  function FirstSuccessfulSpec<T>(total: nat, arrivals: seq<Outcome<T>>): (r: PState<T>)
    requires |arrivals| <= total
  {
    match FirstValueIndex(arrivals)
    case Some(i) => Fulfilled(arrivals[i].value)
    case None =>
      if |arrivals| == total && total > 0 then Rejected(arrivals[total - 1].error) else Pending
  }

  /** first_successful: each callback counts itself as finished; a success
      settles a still-pending promise; a failure settles it only when it is
      the last input to finish. */
  method FirstSuccessful<T>(total: nat, arrivals: seq<Outcome<T>>) returns (p: Promise<T>)
    requires |arrivals| <= total
    ensures p.Valid() && p.state == FirstSuccessfulSpec(total, arrivals)
  {
    p := new Promise();
    var finished := 0;
    while finished < |arrivals|
      invariant 0 <= finished <= |arrivals|
      invariant p.Valid() && p.state == FirstSuccessfulSpec(total, arrivals[..finished])
    {
      ghost var before := arrivals[..finished];
      assert arrivals[..finished + 1] == before + [arrivals[finished]];
      FirstValueIndexSnoc(before, arrivals[finished]);
      finished := finished + 1;
      var pending := p.IsPending();
      if pending {
        match arrivals[finished - 1] {
          case Value(v) =>
            var _ := p.TryFulfill(v);
          case Failure(e) =>
            if finished == total {
              var _ := p.TryReject(e);
            }
        }
      }
    }
    assert arrivals[..finished] == arrivals;
  }

  lemma {:induction false} FirstValueIndexSnoc<T>(a: seq<Outcome<T>>, o: Outcome<T>)
    ensures FirstValueIndex(a + [o]) ==
              (if FirstValueIndex(a).Some? then FirstValueIndex(a)
               else if o.Value? then Some(|a|) else None)
  {
    if a != [] {
      assert (a + [o])[1..] == a[1..] + [o];
      FirstValueIndexSnoc(a[1..], o);
    }
  }

  /** first_successful rejects exactly when every input has failed. */
  lemma FirstSuccessfulRejectsOnlyWhenAllFailed<T>(total: nat, arrivals: seq<Outcome<T>>)
    requires |arrivals| <= total
    ensures FirstSuccessfulSpec(total, arrivals).Rejected? <==>
              total > 0 && |arrivals| == total && forall k :: 0 <= k < |arrivals| ==> arrivals[k].Failure?
  {
    if total > 0 && |arrivals| == total && FirstValueIndex(arrivals).Some? {
      var i := FirstValueIndex(arrivals).value;
      assert arrivals[i].Value?;
    }
  }

  /** all: fulfilled, with the inputs in argument order, by the callback of
      the last input to settle; the inputs' outcomes do not matter. With no
      inputs no callback ever runs and the promise stays pending. */
  method All<T>(inputs: seq<Outcome<T>>) returns (p: Promise<seq<Outcome<T>>>)
    ensures p.Valid()
    ensures p.state == (if inputs == [] then Pending else Fulfilled(inputs))
  {
    p := new Promise();
    var count := 0;
    while count < |inputs|
      invariant 0 <= count <= |inputs|
      invariant p.Valid() && p.state == (if count == |inputs| && inputs != [] then Fulfilled(inputs) else Pending)
    {
      var curid := count;
      count := count + 1;
      if curid + 1 == |inputs| {
        var _ := p.Settle(Value(inputs));
      }
    }
  }

  /** The values of the results, in the order they arrived. */
  function Values<T>(arrivals: seq<Outcome<T>>): (vs: seq<T>)
    requires forall k :: 0 <= k < |arrivals| ==> arrivals[k].Value?
    ensures |vs| == |arrivals|
    ensures forall k :: 0 <= k < |arrivals| ==> vs[k] == arrivals[k].value
  {
    if arrivals == [] then [] else [arrivals[0].value] + Values(arrivals[1..])
  }

  /** Index of the first failure, if any. */
  function FirstFailureIndex<T>(arrivals: seq<Outcome<T>>): (r: Option<nat>)
    ensures r.Some? ==> r.value < |arrivals| && arrivals[r.value].Failure?
                        && forall k :: 0 <= k < r.value ==> arrivals[k].Value?
    ensures r.None? ==> forall k :: 0 <= k < |arrivals| ==> arrivals[k].Value?
  {
    if arrivals == [] then None
    else if arrivals[0].Failure? then Some(0)
    else
      match FirstFailureIndex(arrivals[1..])
      case None => None
      case Some(j) => Some(j + 1)
  }

  lemma {:induction false} FirstFailureIndexSnoc<T>(a: seq<Outcome<T>>, o: Outcome<T>)
    ensures FirstFailureIndex(a + [o]) ==
              (if FirstFailureIndex(a).Some? then FirstFailureIndex(a)
               else if o.Failure? then Some(|a|) else None)
  {
    if a != [] {
      assert (a + [o])[1..] == a[1..] + [o];
      FirstFailureIndexSnoc(a[1..], o);
    }
  }

  /** all_values over `total` inputs: rejected by the first failure;
      otherwise fulfilled with the values in completion order once every
      input has reported; pending before that. */
  function AllValuesSpec<T>(total: nat, arrivals: seq<Outcome<T>>): (r: PState<seq<T>>)
    requires |arrivals| <= total
  {
    match FirstFailureIndex(arrivals)
    case Some(i) => Rejected(arrivals[i].error)
    case None => if |arrivals| == total && total > 0 then Fulfilled(Values(arrivals)) else Pending
  }

  /** all_values: each callback counts itself; on a still-pending result a
      failure rejects, and a value is collected, fulfilling the result
      when it was the last input. */
  method AllValues<T>(total: nat, arrivals: seq<Outcome<T>>) returns (p: Promise<seq<T>>)
    requires |arrivals| <= total
    ensures p.Valid() && p.state == AllValuesSpec(total, arrivals)
  {
    p := new Promise();
    var results: seq<T> := [];
    var count := 0;
    while count < |arrivals|
      invariant 0 <= count <= |arrivals|
      invariant p.Valid() && p.state == AllValuesSpec(total, arrivals[..count])
      invariant FirstFailureIndex(arrivals[..count]).None? ==> results == Values(arrivals[..count])
    {
      ghost var before := arrivals[..count];
      assert arrivals[..count + 1] == before + [arrivals[count]];
      FirstFailureIndexSnoc(before, arrivals[count]);
      count := count + 1;
      var pending := p.IsPending();
      if pending {
        match arrivals[count - 1] {
          case Failure(e) =>
            var _ := p.Settle(Failure(e));
          case Value(v) =>
            results := results + [v];
            assert results == Values(arrivals[..count]);
            if count == total {
              var _ := p.Settle(Value(results));
            }
        }
      }
    }
    assert arrivals[..count] == arrivals;
  }

  /** A combinator's result is final: later arrivals never change a
      settled all_values result. */
  lemma AllValuesSettledIsFinal<T>(total: nat, a: seq<Outcome<T>>, b: seq<Outcome<T>>)
    requires |a + b| <= total && !AllValuesSpec(total, a).Pending?
    ensures AllValuesSpec(total, a + b) == AllValuesSpec(total, a)
  {
    var i := FirstFailureIndex(a);
    if i.Some? {
      assert (a + b)[i.value] == a[i.value];
      forall k | 0 <= k < i.value
        ensures (a + b)[k].Value?
      {
        assert (a + b)[k] == a[k];
      }
    } else {
      assert a + b == a;
    }
  }
}
