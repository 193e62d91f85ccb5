/** The single-use countdown latch of include/asyncpp/latch.h: a size_t
    counter and a multi-consumer event that marks the latch ready. */
module Latch {
  import opened Common
  import Event

  /** latch::max, the largest value of std::size_t. */
  const Max: nat := 0x1_0000_0000_0000_0000 - 1

  /** latch::decrement as written: the counter drops by `n`, and the event is
      set only when the value BEFORE the subtraction was zero. Decrements that
      sum past the counter are undefined, hence the precondition. */
  function Decrement(count: nat, ready: bool, n: nat): (r: (nat, bool))
    requires n <= count
    ensures r.0 == count - n
    ensures r.1 <==> ready || count == 0
    ensures r.1 && !ready ==> n == 0
  {
    (count - n, ready || count == 0)
  }

  /** The counter and readiness after a series of decrements, as written. */
  function Run(count: nat, ready: bool, ns: seq<nat>): (r: (nat, bool))
    requires Sum(ns) <= count
    decreases |ns|
  {
    if ns == [] then (count, ready)
    else
      var (c, rd) := Decrement(count, ready, ns[0]);
      Run(c, rd, ns[1..])
  }

  function Sum(ns: seq<nat>): (r: nat)
  {
    if ns == [] then 0 else ns[0] + Sum(ns[1..])
  }

  /** As written, counting a latch of 1 down to 0 does not make it ready,
      although the counter has reached zero. */
  lemma CountdownToZeroIsNotReady()
    ensures Run(1, 1 == 0, [1]) == (0, false)
  {
  }

  /** The intended decrement: the latch becomes ready when the counter
      REACHES zero. */
  function DecrementIntended(count: nat, ready: bool, n: nat): (r: (nat, bool))
    requires n <= count
    ensures r.0 == count - n
    ensures r.1 <==> ready || r.0 == 0
  {
    (count - n, ready || count == n)
  }

  function RunIntended(count: nat, ready: bool, ns: seq<nat>): (r: (nat, bool))
    requires Sum(ns) <= count
    decreases |ns|
  {
    if ns == [] then (count, ready)
    else
      var (c, rd) := DecrementIntended(count, ready, ns[0]);
      RunIntended(c, rd, ns[1..])
  }

  /** With the intended decrement, a latch constructed with `initial` is
      ready after any admissible decrements exactly when its counter is zero. */
  lemma {:induction false} IntendedReadyIffZero(initial: nat, ns: seq<nat>)
    requires Sum(ns) <= initial
    ensures RunIntended(initial, initial == 0, ns).1 <==> RunIntended(initial, initial == 0, ns).0 == 0
  {
    ReadyIffZeroFrom(initial, initial == 0, ns);
  }

  lemma {:induction false} ReadyIffZeroFrom(count: nat, ready: bool, ns: seq<nat>)
    requires Sum(ns) <= count && (ready <==> count == 0)
    ensures RunIntended(count, ready, ns).1 <==> RunIntended(count, ready, ns).0 == 0
    decreases |ns|
  {
    if ns != [] {
      var (c, rd) := DecrementIntended(count, ready, ns[0]);
      ReadyIffZeroFrom(c, rd, ns[1..]);
    }
  }

  /** As written, readiness never appears without the counter being zero,
      and once ready the latch stays ready. */
  lemma {:induction false} ReadyIsStableAndZero(count: nat, ready: bool, ns: seq<nat>)
    requires Sum(ns) <= count && (ready ==> count == 0)
    ensures ready ==> Run(count, ready, ns).1
    ensures Run(count, ready, ns).1 ==> Run(count, ready, ns).0 == 0
    decreases |ns|
  {
    if ns != [] {
      var (c, rd) := Decrement(count, ready, ns[0]);
      ReadyIsStableAndZero(c, rd, ns[1..]);
    }
  }

  class Latch {
    var count: nat
    const event: Event.MultiConsumerEvent

    /** The counter fits a size_t, the event is a manual-reset one, and
        readiness implies a zero counter. */
    ghost predicate Valid()
      reads this, event
    {
      count <= Max && event.Valid() && !event.autoReset
      && (event.state == Event.MSet ==> count == 0)
    }

    /** latch(initial): ready at construction exactly when `initial` is 0. */
    constructor (initial: nat)
      requires initial <= Max
      ensures Valid() && fresh(event) && count == initial
      ensures event.state == (if initial == 0 then Event.MSet else Event.MUnset)
    {
      count := initial;
      event := new Event.MultiConsumerEvent(false, initial == 0);
    }

    method IsReady() returns (b: bool)
      ensures b <==> event.state == Event.MSet
    {
      b := event.IsSet();
    }

    /** latch::decrement(n); the resumptions of the event's set go to its log. */
    method DecrementBy(n: nat)
      requires Valid() && n <= count
      modifies this, event
      ensures Valid()
      ensures (count, event.state == Event.MSet) == Decrement(old(count), old(event.state) == Event.MSet, n)
      ensures old(count) == 0 ==>
                event.state == Event.MSet && event.log == old(event.log) + Event.Wake(Event.MultiWaiters(old(event.state)), None)
      ensures old(count) != 0 ==> event.state == old(event.state) && event.log == old(event.log)
    {
      var before := count;
      count := count - n;
      if before == 0 {
        var _ := event.SetEvent(None);
      }
    }

    /** co_await latch (own = the current dispatcher) and latch::wait(d):
        both are the event's awaiter with that dispatcher. */
    method WaitReady() returns (ready: bool)
      ensures ready <==> event.state == Event.MSet
    {
      ready := event.AwaitReady();
    }

    method WaitSuspend(w: Event.Waiter) returns (suspended: bool)
      requires Valid() && w.handle !in Handles(event.log) + Event.HandlesOf(Event.MultiWaiters(event.state))
      modifies event
      ensures Valid()
      ensures (suspended, event.state) == Event.MultiAwait(old(event.state), w)
    {
      suspended := event.AwaitSuspend(w);
    }
  }
}
