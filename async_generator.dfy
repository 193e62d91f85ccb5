/** The asynchronous generator of include/asyncpp/async_generator.h. The
    producer body is an abstract script: it yields `values` in order (the
    awaits it makes in between only delay it) and then returns or throws
    `ending`. Producer and consumer hand control to each other directly: the
    consumer's begin/++ record the consumer's handle and resume the
    producer, and the producer's yield and final suspension resume that
    recorded handle. */
module AsyncGenerator {
  import opened Common

  /** The frame with its async_generator_promise. */
  class AsyncGenFrame<T> {
    const values: seq<T>
    const ending: Option<ExceptionId>
    /** How many times the producer has been resumed by its consumer. */
    var resumes: nat
    /** m_value: the yielded value; null once the body has finished. */
    var value: Option<T>
    /** m_exception, set by unhandled_exception. */
    var exception: Option<ExceptionId>
    /** m_consumerCoroutine. */
    var consumer: Option<Handle>
    /** The handles the producer transferred control to, in order. */
    ghost var transfers: seq<Handle>
    ghost var destroyed: bool

    ghost predicate Valid()
      reads this
    {
      resumes <= |values| + 1
      && |transfers| == resumes
      && (1 <= resumes <= |values| ==> value == Some(values[resumes - 1]))
      && (resumes == |values| + 1 ==> value == None)
      && (resumes <= |values| ==> exception == None)
    }

    /** finished(): the value pointer is null. */
    predicate Finished()
      reads this
    {
      value == None
    }

    /** initial_suspend always suspends. */
    constructor (values: seq<T>, ending: Option<ExceptionId>)
      ensures Valid() && this.values == values && this.ending == ending
      ensures resumes == 0 && consumer == None && transfers == [] && !destroyed
    {
      this.values := values;
      this.ending := ending;
      resumes := 0;
      value := None;
      exception := None;
      consumer := None;
      transfers := [];
      destroyed := false;
    }

    /** The consumer `h` resumes the producer, which runs to its next
        co_yield (the value is recorded) or to its end (unhandled_exception
        records a throw, final_suspend clears the value); either way it
        transfers control straight back to the recorded consumer. */
    method RunProducer(h: Handle)
      requires Valid() && resumes <= |values|
      modifies this
      ensures Valid() && resumes == old(resumes) + 1 && consumer == Some(h)
      ensures transfers == old(transfers) + [h]
      ensures Finished() <==> resumes == |values| + 1
      ensures exception == (if Finished() then ending else None)
      ensures destroyed == old(destroyed)
    {
      consumer := Some(h);
      if resumes < |values| {
        value := Some(values[resumes]);
      } else {
        exception := ending;
        value := None;
      }
      resumes := resumes + 1;
      transfers := transfers + [consumer.value];
    }

    /** rethrow_if_unhandled_exception: the exception is moved out, so it is
        rethrown once. */
    method TakeException() returns (err: Option<ExceptionId>)
      modifies this
      ensures err == old(exception) && exception == None
      ensures resumes == old(resumes) && value == old(value) && transfers == old(transfers)
      ensures consumer == old(consumer) && destroyed == old(destroyed)
    {
      err := exception;
      exception := None;
    }
  }

  /** async_generator_iterator: the promise it reads from; end has none.
      Equality compares only that promise. */
  datatype AsyncIterator<T> = AsyncIterator(promise: AsyncGenFrame?<T>)

  function End<T>(): (it: AsyncIterator<T>)
    ensures it.promise == null
  {
    AsyncIterator(null)
  }

  /** operator*. */
  method Deref<T>(it: AsyncIterator<T>) returns (v: T)
    requires it.promise != null && it.promise.Valid() && !it.promise.Finished() && it.promise.resumes >= 1
    ensures v == it.promise.values[it.promise.resumes - 1]
  {
    v := it.promise.value.value;
  }

  /** co_await ++it (the consumer is `h`): record the consumer, resume the
      producer; if the body has finished, the iterator becomes end before
      the stored exception is rethrown. */
  method Increment<T>(it: AsyncIterator<T>, h: Handle) returns (next: AsyncIterator<T>, err: Option<ExceptionId>)
    requires it.promise != null && it.promise.Valid() && it.promise.resumes <= |it.promise.values|
    modifies it.promise
    ensures it.promise.Valid() && it.promise.resumes == old(it.promise.resumes) + 1
    ensures it.promise.transfers == old(it.promise.transfers) + [h]
    ensures next == (if it.promise.Finished() then End() else it)
    ensures err == (if it.promise.Finished() then it.promise.ending else None)
  {
    it.promise.RunProducer(h);
    next := it;
    err := None;
    if it.promise.Finished() {
      var p := it.promise;
      next := End();
      err := p.TakeException();
    }
  }

  class AsyncGenerator<T> {
    var coroutine: AsyncGenFrame?<T>

    constructor Null()
      ensures coroutine == null
    {
      coroutine := null;
    }

    constructor (frame: AsyncGenFrame<T>)
      ensures coroutine == frame
    {
      coroutine := frame;
    }

    constructor Move(other: AsyncGenerator<T>)
      modifies other
      ensures coroutine == old(other.coroutine) && other.coroutine == null
    {
      coroutine := other.coroutine;
      other.coroutine := null;
    }

    /** Move assignment moves `other` into a temporary and swaps with it;
        the temporary's destructor then destroys this object's former
        frame. A self-move ends with the frame back in place, alive. */
    method MoveAssign(other: AsyncGenerator<T>)
      modifies this, other, coroutine
      ensures other != this ==> coroutine == old(other.coroutine) && other.coroutine == null
      ensures other != this && old(coroutine) != null ==> old(coroutine).destroyed
      ensures other == this ==> coroutine == old(coroutine)
      ensures other == this && coroutine != null ==> coroutine.destroyed == old(coroutine.destroyed)
    {
      var temp := new AsyncGenerator.Move(other);
      var mine := coroutine;
      coroutine := temp.coroutine;
      temp.coroutine := mine;
      temp.Destroy();
    }

    /** The destructor destroys a held frame. */
    method Destroy()
      modifies coroutine
      ensures old(coroutine) != null ==> old(coroutine).destroyed
    {
      if coroutine != null {
        coroutine.destroyed := true;
      }
    }

    /** co_await begin() (the consumer is `h`). An empty generator is ready
        at once and yields end. Otherwise the consumer is recorded and the
        producer resumed; if it finished without yielding, the stored
        exception is rethrown and the result is end, else an iterator at the
        first value. */
    method Begin(h: Handle) returns (it: AsyncIterator<T>, err: Option<ExceptionId>)
      requires coroutine != null ==> coroutine.Valid() && coroutine.resumes == 0
      modifies coroutine
      ensures coroutine == null ==> it == End() && err == None
      ensures coroutine != null ==> coroutine.Valid() && coroutine.resumes == 1 && coroutine.transfers == [h]
      ensures coroutine != null ==> it == (if coroutine.Finished() then End() else AsyncIterator(coroutine))
      ensures coroutine != null ==> err == (if coroutine.Finished() then coroutine.ending else None)
    {
      err := None;
      if coroutine == null {
        it := End();
        return;
      }
      coroutine.RunProducer(h);
      if coroutine.Finished() {
        err := coroutine.TakeException();
        it := End();
      } else {
        it := AsyncIterator(coroutine);
      }
    }
  }

  /** The consumer loop `for (it = co_await begin(); it != end(); co_await ++it)`
      of a coroutine `h` over a fresh generator: it sees every yielded value
      once, in order; the producer hands control only to `h`, once per
      resumption; an exception the producer throws reaches the loop after
      the last value. */
  method ForEach<T>(g: AsyncGenerator<T>, h: Handle) returns (seen: seq<T>, err: Option<ExceptionId>)
    requires g.coroutine != null && g.coroutine.Valid() && g.coroutine.resumes == 0
    modifies g.coroutine
    ensures seen == g.coroutine.values && err == g.coroutine.ending
    ensures g.coroutine.transfers == seq(|g.coroutine.values| + 1, _ => h)
  {
    var it;
    it, err := g.Begin(h);
    seen := [];
    var frame := g.coroutine;
    while it != End()
      invariant frame.Valid() && frame.resumes == |seen| + 1
      invariant it == (if frame.Finished() then End() else AsyncIterator(frame))
      invariant seen == frame.values[..|seen|]
      invariant err == (if frame.Finished() then frame.ending else None)
      invariant frame.transfers == seq(|seen| + 1, _ => h)
      decreases |frame.values| + 1 - frame.resumes
    {
      var v := Deref(it);
      seen := seen + [v];
      it, err := Increment(it, h);
    }
    assert seen == frame.values;
  }

  function Sum(xs: seq<int>): (r: int)
  {
    if xs == [] then 0 else xs[0] + Sum(xs[1..])
  }

  lemma {:induction false} SumSnoc(xs: seq<int>, x: int)
    ensures Sum(xs + [x]) == Sum(xs) + x
  {
    if xs != [] {
      assert (xs + [x])[1..] == xs[1..] + [x];
      SumSnoc(xs[1..], x);
    }
  }

  /** The sum of 0, 1, ..., n - 1. */
  lemma {:induction false} SumRange(n: nat)
    ensures Sum(seq(n, i => i)) == n * (n - 1) / 2
  {
    if n > 0 {
      SumRange(n - 1);
      assert seq(n, i => i) == seq(n - 1, i => i) + [n - 1];
      SumSnoc(seq(n - 1, i => i), n - 1);
    }
  }

  /** test/async_generator.cpp: consuming a producer that yields 0..9 adds
      up to 45, and the loop ends without an exception. */
  method ConsumeSample(h: Handle) returns (num: int, err: Option<ExceptionId>)
    ensures num == 45 && err == None
  {
    var frame := new AsyncGenFrame(seq(10, i => i), None);
    var g := new AsyncGenerator(frame);
    var seen;
    seen, err := ForEach(g, h);
    SumRange(10);
    num := Sum(seen);
  }
}
