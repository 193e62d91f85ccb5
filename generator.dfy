/** The synchronous generator of include/asyncpp/generator.h. The body is
    an abstract script: it yields `values` in order and then either returns
    or throws `ending`. It cannot await anything, since the promise's
    await_transform is deleted. */
module Generator {
  import opened Common

  /** The frame with its generator_promise. */
  class GenFrame<T> {
    const values: seq<T>
    const ending: Option<ExceptionId>
    /** How many times the frame has been resumed. */
    var resumes: nat
    var done: bool
    /** m_value: the last yielded value (null before the first yield). */
    var value: Option<T>
    /** m_exception, set by unhandled_exception. */
    var exception: Option<ExceptionId>
    ghost var destroyed: bool

    /** After k resumptions the body is suspended at its k-th yield, or has
        reached its final suspension point (which always suspends) after the
        last value, with the exception it threw recorded. */
    ghost predicate Valid()
      reads this
    {
      resumes <= |values| + 1
      && (done <==> resumes == |values| + 1)
      && (1 <= resumes <= |values| ==> value == Some(values[resumes - 1]))
      && (resumes == 0 ==> value == None)
      && (done ==> value == (if values == [] then None else Some(values[|values| - 1])))
      && exception == (if done then ending else None)
    }

    /** initial_suspend always suspends: nothing of the body runs yet. */
    constructor (values: seq<T>, ending: Option<ExceptionId>)
      ensures Valid() && this.values == values && this.ending == ending
      ensures resumes == 0 && !done && !destroyed
    {
      this.values := values;
      this.ending := ending;
      resumes := 0;
      done := false;
      value := None;
      exception := None;
      destroyed := false;
    }

    /** One resumption: the body runs to its next yield (yield_value records
        the value and suspends) or to its end. Resuming a finished frame is
        undefined, hence the precondition. */
    method Resume()
      requires Valid() && !done
      modifies this
      ensures Valid() && resumes == old(resumes) + 1 && destroyed == old(destroyed)
    {
      if resumes < |values| {
        value := Some(values[resumes]);
      } else {
        done := true;
        exception := ending;
      }
      resumes := resumes + 1;
    }
  }

  /** generator_iterator: a (possibly null) handle to the frame. */
  datatype GenIterator<T> = GenIterator(coro: GenFrame?<T>)

  /** iterator == end: the handle is null or the body is done. */
  predicate AtEnd<T>(it: GenIterator<T>)
    reads it.coro
  {
    it.coro == null || it.coro.done
  }

  /** operator++: resume once; when the body has finished, rethrow the
      exception it stored. */
  method Increment<T>(it: GenIterator<T>) returns (err: Option<ExceptionId>)
    requires it.coro != null && it.coro.Valid() && !it.coro.done
    modifies it.coro
    ensures it.coro.Valid() && it.coro.resumes == old(it.coro.resumes) + 1
    ensures err == (if it.coro.done then it.coro.ending else None)
  {
    it.coro.Resume();
    err := None;
    if it.coro.done && it.coro.exception.Some? {
      err := it.coro.exception;
    }
  }

  /** operator*: the value recorded by the last yield. */
  method Deref<T>(it: GenIterator<T>) returns (v: T)
    requires it.coro != null && it.coro.Valid() && !AtEnd(it) && it.coro.resumes >= 1
    ensures v == it.coro.values[it.coro.resumes - 1]
  {
    v := it.coro.value.value;
  }

  /** The generator object: sole owner of its frame, or empty. */
  class Generator<T> {
    var coro: GenFrame?<T>

    constructor Null()
      ensures coro == null
    {
      coro := null;
    }

    constructor (frame: GenFrame<T>)
      ensures coro == frame
    {
      coro := frame;
    }

    constructor Move(other: Generator<T>)
      modifies other
      ensures coro == old(other.coro) && other.coro == null
    {
      coro := other.coro;
      other.coro := null;
    }

    method MoveAssign(other: Generator<T>)
      modifies this, other
      ensures other != this ==> coro == old(other.coro) && other.coro == old(coro)
      ensures other == this ==> coro == old(coro)
    {
      var mine := coro;
      coro := other.coro;
      other.coro := mine;
    }

    /** The destructor destroys a held frame. */
    method Destroy()
      modifies coro
      ensures old(coro) != null ==> old(coro).destroyed
    {
      if coro != null {
        coro.destroyed := true;
      }
    }

    /** begin: resume a held frame once, rethrowing the stored exception if
        the body has already finished; the iterator holds the frame's handle. */
    method Begin() returns (it: GenIterator<T>, err: Option<ExceptionId>)
      requires coro != null ==> coro.Valid() && coro.resumes == 0
      modifies coro
      ensures it.coro == coro
      ensures coro == null ==> err == None
      ensures coro != null ==> coro.Valid() && coro.resumes == 1
                               && err == (if coro.done then coro.ending else None)
    {
      err := None;
      if coro != null {
        coro.Resume();
        if coro.done && coro.exception.Some? {
          err := coro.exception;
        }
      }
      it := GenIterator(coro);
    }
  }

  /** A range-for over a fresh generator: every yielded value is seen once,
      in order, and an exception the body throws reaches the loop after the
      last value. */
  method ForEach<T>(g: Generator<T>) returns (seen: seq<T>, err: Option<ExceptionId>)
    requires g.coro != null && g.coro.Valid() && g.coro.resumes == 0
    modifies g.coro
    ensures seen == g.coro.values && err == g.coro.ending
  {
    var it;
    it, err := g.Begin();
    seen := [];
    var frame := g.coro;
    while !AtEnd(it)
      invariant it.coro == frame && frame.Valid() && frame.resumes == |seen| + 1
      invariant seen == frame.values[..|seen|]
      invariant err == (if frame.done then frame.ending else None)
      decreases |frame.values| + 1 - frame.resumes
    {
      var v := Deref(it);
      seen := seen + [v];
      err := Increment(it);
    }
    assert seen == frame.values;
  }
}
