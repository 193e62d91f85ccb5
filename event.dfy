/** The four events of include/asyncpp/event.h.

    Each event's atomic word is either unset, set, or a pointer to its
    awaiter(s). A waiter carries the coroutine handle and the dispatcher it
    asked to be resumed on; `set` resumes waiters by the order of
    Common.ResumeTarget and the model appends each resumption to a log. */
module Event {
  import opened Common

  /** An awaiter suspended on an event: its coroutine and its own dispatcher. */
  datatype Waiter = Waiter(handle: Handle, own: Option<Dispatcher>)

  /** The resumptions `set` performs for the waiters `ws`, in list order. */
  function Wake(ws: seq<Waiter>, fallback: Option<Dispatcher>): (log: seq<Resumption<()>>)
    ensures |log| == |ws|
    ensures forall i :: 0 <= i < |ws| ==>
      log[i] == Resumption(ws[i].handle, (), ResumeTarget(ws[i].own, fallback))
  {
    if ws == [] then [] else [Resumption(ws[0].handle, (), ResumeTarget(ws[0].own, fallback))] + Wake(ws[1..], fallback)
  }

  function HandlesOf(ws: seq<Waiter>): (hs: seq<Handle>)
    ensures |hs| == |ws| && forall i :: 0 <= i < |ws| ==> hs[i] == ws[i].handle
  {
    if ws == [] then [] else [ws[0].handle] + HandlesOf(ws[1..])
  }

  // ---------------------------------------------------------------------
  // single_consumer_event and single_consumer_auto_reset_event
  // ---------------------------------------------------------------------

  /** The word of a single-consumer event: null, the event itself, or its one awaiter. */
  datatype Single = Unset | Set | Awaited(w: Waiter)

  /** single_consumer_event::set: the event ends up set; a suspended waiter
      is resumed exactly once, and the result says whether there was one. */
  function SingleSet(s: Single, fallback: Option<Dispatcher>): (r: (bool, Single, seq<Resumption<()>>))
    ensures r.1 == Set
    ensures r.0 <==> s.Awaited?
    ensures |r.2| == (if s.Awaited? then 1 else 0)
    ensures s.Awaited? ==> r.2[0].handle == s.w.handle && r.2[0].target == ResumeTarget(s.w.own, fallback)
  {
    if s.Awaited? then (true, Set, Wake([s.w], fallback)) else (false, Set, [])
  }

  /** reset (all four events): only a set event becomes unset; an unset or
      awaited state is left alone. */
  function SingleReset(s: Single): (r: Single)
    ensures r != Set
    ensures s != Set ==> r == s
    ensures !r.Awaited? || r == s
  {
    if s == Set then Unset else s
  }

  /** The awaiter of single_consumer_event: await_ready is is_set(); from
      unset, await_suspend installs the awaiter and suspends. A second
      concurrent awaiter is a contract violation. */
  function SingleAwait(s: Single, w: Waiter): (r: (bool, Single))
    requires !s.Awaited?
    ensures r.0 <==> s == Unset
    ensures r.0 ==> r.1 == Awaited(w)
    ensures !r.0 ==> r.1 == s
  {
    if s == Set then (false, Set) else (true, Awaited(w))
  }

  /** single_consumer_auto_reset_event::set: a suspended waiter is resumed and
      the event is left unset; with no waiter the event is left set. */
  function AutoSingleSet(s: Single, fallback: Option<Dispatcher>): (r: (bool, Single, seq<Resumption<()>>))
    ensures r.0 <==> s.Awaited?
    ensures r.1 == (if s.Awaited? then Unset else Set)
    ensures |r.2| == (if s.Awaited? then 1 else 0)
    ensures s.Awaited? ==> r.2[0].handle == s.w.handle && r.2[0].target == ResumeTarget(s.w.own, fallback)
  {
    if s.Awaited? then (true, Unset, Wake([s.w], fallback)) else (false, Set, [])
  }

  /** The awaiter of single_consumer_auto_reset_event: never ready;
      await_suspend suspends from unset, and consumes a set event (leaving it
      unset) without suspending. */
  function AutoSingleAwait(s: Single, w: Waiter): (r: (bool, Single))
    requires !s.Awaited?
    ensures r.0 <==> s == Unset
    ensures r.0 ==> r.1 == Awaited(w)
    ensures !r.0 ==> r.1 == Unset
  {
    if s == Set then (false, Unset) else (true, Awaited(w))
  }

  /** With one waiter, set wakes it and a second set wakes nobody
      (test/event.cpp:33-43). */
  lemma SingleWakesOnce(w: Waiter, fallback: Option<Dispatcher>)
    ensures var (suspended, s1) := SingleAwait(Unset, w);
            var (woke, s2, log) := SingleSet(s1, fallback);
            suspended && woke && s2 == Set && HandlesOf([w]) == Handles(log)
            && !SingleSet(s2, fallback).0 && SingleSet(s2, fallback).2 == []
  {
    var (woke, s2, log) := SingleSet(Awaited(w), fallback);
    assert Handles(log) == [log[0].handle];
  }

  /** Auto-reset: a set with no waiter is consumed by exactly one later
      await, which does not suspend (test/event.cpp:109-118). */
  lemma AutoSingleSetIsConsumedOnce(w1: Waiter, w2: Waiter, fallback: Option<Dispatcher>)
    ensures var s1 := AutoSingleSet(Unset, fallback).1;
            var (suspended1, s2) := AutoSingleAwait(s1, w1);
            !suspended1 && s2 == Unset && AutoSingleAwait(s2, w2).0
  {
  }

  // ---------------------------------------------------------------------
  // multi_consumer_event and multi_consumer_auto_reset_event
  // ---------------------------------------------------------------------

  /** The word of a multi-consumer event: null, the event itself, or the head
      of an intrusive list of awaiters (`ws[0]` is the head, the newest). */
  datatype Multi = MUnset | MSet | MWaiting(ws: seq<Waiter>)

  predicate MultiWellFormed(s: Multi)
  {
    s.MWaiting? ==> s.ws != []
  }

  function MultiWaiters(s: Multi): (r: seq<Waiter>)
  {
    if s.MWaiting? then s.ws else []
  }

  /** await_ready of both multi-consumer awaiters is is_set(). */
  predicate MultiIsSet(s: Multi)
  {
    s == MSet
  }

  /** await_suspend of both multi-consumer awaiters: on a set event it does
      not suspend and changes nothing (the auto-reset event is NOT reset
      here); otherwise the awaiter is pushed at the head of the list. */
  function MultiAwait(s: Multi, w: Waiter): (r: (bool, Multi))
    requires MultiWellFormed(s)
    ensures MultiWellFormed(r.1)
    ensures r.0 <==> s != MSet
    ensures !r.0 ==> r.1 == s
    ensures r.0 ==> MultiWaiters(r.1) == [w] + MultiWaiters(s)
  {
    match s
    case MSet => (false, s)
    case MUnset => (true, MWaiting([w]))
    case MWaiting(ws) => (true, MWaiting([w] + ws))
  }

  /** multi_consumer_event::set: the event ends up set and every waiter is
      resumed once, from the head of the list. The result is false only if
      the event was already set; it is true on an unset event with no waiter. */
  function MultiSet(s: Multi, fallback: Option<Dispatcher>): (r: (bool, Multi, seq<Resumption<()>>))
    requires MultiWellFormed(s)
    ensures r.1 == MSet
    ensures r.0 <==> s != MSet
    ensures r.2 == Wake(MultiWaiters(s), fallback)
  {
    if s == MSet then (false, MSet, []) else (true, MSet, Wake(MultiWaiters(s), fallback))
  }

  /** multi_consumer_auto_reset_event::set: with no waiter the event is left
      set and the result is false; with waiters every one of them is resumed
      from the head of the list and the event is left unset. */
  function AutoMultiSet(s: Multi, fallback: Option<Dispatcher>): (r: (bool, Multi, seq<Resumption<()>>))
    requires MultiWellFormed(s)
    ensures r.0 <==> MultiWaiters(s) != []
    ensures r.1 == (if r.0 then MUnset else MSet)
    ensures r.2 == Wake(MultiWaiters(s), fallback)
  {
    if !s.MWaiting? then (false, MSet, []) else (true, MUnset, Wake(s.ws, fallback))
  }

  function MultiReset(s: Multi): (r: Multi)
    ensures r != MSet
    ensures s != MSet ==> r == s
  {
    if s == MSet then MUnset else s
  }

  /** Waiters `ws` suspend one after another on an unset event. */
  function MultiArrive(s: Multi, ws: seq<Waiter>): (r: Multi)
    requires MultiWellFormed(s) && s != MSet
    ensures MultiWellFormed(r) && r != MSet
    decreases |ws|
  {
    if ws == [] then s else MultiArrive(MultiAwait(s, ws[0]).1, ws[1..])
  }

  lemma {:induction false} MultiArriveStacks(s: Multi, ws: seq<Waiter>)
    requires MultiWellFormed(s) && s != MSet
    ensures MultiWaiters(MultiArrive(s, ws)) == Reverse(ws) + MultiWaiters(s)
    decreases |ws|
  {
    if ws != [] {
      var s' := MultiAwait(s, ws[0]).1;
      MultiArriveStacks(s', ws[1..]);
      assert Reverse(ws) == Reverse(ws[1..]) + [ws[0]];
    }
  }

  /** Wake order: waiters of a multi-consumer event are resumed in REVERSE
      order of arrival, the most recent first. */
  lemma MultiSetWakesNewestFirst(ws: seq<Waiter>, fallback: Option<Dispatcher>)
    ensures var log := MultiSet(MultiArrive(MUnset, ws), fallback).2;
            Handles(log) == HandlesOf(Reverse(ws))
    ensures var log := AutoMultiSet(MultiArrive(MUnset, ws), fallback).2;
            Handles(log) == HandlesOf(Reverse(ws))
  {
    MultiArriveStacks(MUnset, ws);
  }

  /** As written, multi_consumer_event::set on an unset event with no waiter
      reports true although it resumed nobody. */
  lemma MultiSetReportsWakeWithoutWaiter(fallback: Option<Dispatcher>)
    ensures MultiSet(MUnset, fallback).0 && MultiSet(MUnset, fallback).2 == []
  {
  }

  /** The documented contract of multi_consumer_event::set: true exactly if
      a coroutine was waiting and was resumed. */
  function MultiSetDocumented(s: Multi, fallback: Option<Dispatcher>): (r: (bool, Multi, seq<Resumption<()>>))
    requires MultiWellFormed(s)
    ensures r.1 == MSet
    ensures r.0 <==> r.2 != []
    ensures r.2 == Wake(MultiWaiters(s), fallback)
  {
    (s.MWaiting?, MSet, Wake(MultiWaiters(s), fallback))
  }

  /** As written, a multi_consumer_auto_reset_event that is set stays set
      after an awaiter passes through its fast path, so a second awaiter
      also passes; test/event.cpp:288-297 expects the first await to reset it. */
  lemma AutoMultiFastPathKeepsSet(w1: Waiter, w2: Waiter)
    ensures MultiIsSet(MSet)
    ensures MultiAwait(MSet, w1) == (false, MSet)
    ensures MultiIsSet(MultiAwait(MSet, w1).1)
  {
  }

  /** The intended fast path: awaiting a set auto-reset event consumes the
      set, so exactly one awaiter passes and the next one suspends. */
  function AutoMultiAwaitConsuming(s: Multi, w: Waiter): (r: (bool, Multi))
    requires MultiWellFormed(s)
    ensures MultiWellFormed(r.1) && r.1 != MSet
    ensures r.0 <==> s != MSet
    ensures !r.0 ==> r.1 == MUnset
    ensures r.0 ==> MultiWaiters(r.1) == [w] + MultiWaiters(s)
  {
    if s == MSet then (false, MUnset) else MultiAwait(s, w)
  }

  lemma AutoMultiConsumingLetsOneThrough(w1: Waiter, w2: Waiter)
    ensures var (s1, e1) := AutoMultiAwaitConsuming(MSet, w1);
            !s1 && AutoMultiAwaitConsuming(e1, w2).0
  {
  }

  // ---------------------------------------------------------------------
  // The event objects
  // ---------------------------------------------------------------------

  /** single_consumer_event, or single_consumer_auto_reset_event when
      `autoReset` is true. */
  class SingleConsumerEvent {
    const autoReset: bool
    var state: Single
    ghost var log: seq<Resumption<()>>

    /** At most one resumption per awaiter, and a waiting awaiter has not
        been resumed yet. */
    ghost predicate Valid()
      reads this
    {
      NoDup(Handles(log) + (if state.Awaited? then [state.w.handle] else []))
    }

    constructor (autoReset: bool, setInitially: bool)
      ensures Valid() && this.autoReset == autoReset && log == []
      ensures state == if setInitially then Set else Unset
    {
      this.autoReset := autoReset;
      state := if setInitially then Set else Unset;
      log := [];
    }

    method IsSet() returns (b: bool)
      ensures b <==> state == Set
    {
      b := state == Set;
    }

    method IsAwaited() returns (b: bool)
      ensures b <==> state.Awaited?
    {
      b := state.Awaited?;
    }

    method SetEvent(fallback: Option<Dispatcher>) returns (woke: bool)
      requires Valid()
      modifies this
      ensures Valid()
      ensures var r := if autoReset then AutoSingleSet(old(state), fallback) else SingleSet(old(state), fallback);
              woke == r.0 && state == r.1 && log == old(log) + r.2
    {
      var was := state;
      state := Set;
      woke := false;
      if was.Awaited? {
        if autoReset {
          state := Unset;
        }
        var w := was.w;
        var r := Resumption(w.handle, (), ResumeTarget(w.own, fallback));
        assert Wake([w], fallback) == [r];
        HandlesAppend(log, [r]);
        assert Handles([r]) == [w.handle];
        log := log + [r];
        assert Handles(log) + [] == Handles(old(log)) + [w.handle];
        woke := true;
      }
    }

    method Reset()
      modifies this
      ensures state == SingleReset(old(state)) && log == old(log)
    {
      if state == Set {
        state := Unset;
      }
    }

    /** await_ready: is_set() for the manual-reset event, false for the auto-reset one. */
    method AwaitReady() returns (ready: bool)
      ensures ready <==> !autoReset && state == Set
    {
      ready := !autoReset && state == Set;
    }

    /** await_suspend for a fresh awaiter; a second concurrent awaiter
        violates the contract. */
    method AwaitSuspend(w: Waiter) returns (suspended: bool)
      requires Valid() && !state.Awaited? && w.handle !in Handles(log)
      modifies this
      ensures Valid() && log == old(log)
      ensures !autoReset ==> (suspended, state) == SingleAwait(old(state), w)
      ensures autoReset ==> (suspended, state) == AutoSingleAwait(old(state), w)
    {
      if state == Unset {
        state := Awaited(w);
        assert Handles(log) + [] == Handles(log);
        NoDupSnoc<Handle>(Handles(log), w.handle);
        suspended := true;
      } else {
        if autoReset {
          state := Unset;
        }
        suspended := false;
      }
    }
  }

  /** multi_consumer_event, or multi_consumer_auto_reset_event when
      `autoReset` is true. */
  class MultiConsumerEvent {
    const autoReset: bool
    var state: Multi
    ghost var log: seq<Resumption<()>>

    ghost predicate Valid()
      reads this
    {
      MultiWellFormed(state) && NoDup(Handles(log) + HandlesOf(MultiWaiters(state)))
    }

    constructor (autoReset: bool, setInitially: bool)
      ensures Valid() && this.autoReset == autoReset && log == []
      ensures state == if setInitially then MSet else MUnset
    {
      this.autoReset := autoReset;
      state := if setInitially then MSet else MUnset;
      log := [];
    }

    method IsSet() returns (b: bool)
      ensures b <==> MultiIsSet(state)
    {
      b := state == MSet;
    }

    method IsAwaited() returns (b: bool)
      requires Valid()
      ensures b <==> MultiWaiters(state) != []
    {
      b := state.MWaiting?;
    }

    /** set: exchanges the word, then walks the taken list from its head,
        resuming each awaiter. */
    method SetEvent(fallback: Option<Dispatcher>) returns (woke: bool)
      requires Valid()
      modifies this
      ensures Valid()
      ensures var r := if autoReset then AutoMultiSet(old(state), fallback) else MultiSet(old(state), fallback);
              woke == r.0 && state == r.1 && log == old(log) + r.2
    {
      SetCases(autoReset, state, fallback);
      var was := state;
      state := MSet;
      if was == MSet || (autoReset && was == MUnset) {
        assert log == old(log) + [];
        return false;
      }
      if autoReset {
        state := MUnset;
      }
      var ws := MultiWaiters(was);
      var performed := ResumeAll(ws, fallback);
      WakeKeepsNoDup(log, ws, fallback);
      log := log + performed;
      woke := true;
    }

    method Reset()
      modifies this
      ensures state == MultiReset(old(state)) && log == old(log)
    {
      if state == MSet {
        state := MUnset;
      }
    }

    method AwaitReady() returns (ready: bool)
      ensures ready <==> MultiIsSet(state)
    {
      ready := state == MSet;
    }

    /** await_suspend for a fresh awaiter. */
    method AwaitSuspend(w: Waiter) returns (suspended: bool)
      requires Valid() && w.handle !in Handles(log) + HandlesOf(MultiWaiters(state))
      modifies this
      ensures Valid() && log == old(log)
      ensures (suspended, state) == MultiAwait(old(state), w)
    {
      if state == MSet {
        return false;
      }
      var ws := MultiWaiters(state);
      PushKeepsNoDup(log, ws, w);
      assert MultiAwait(state, w) == (true, MWaiting([w] + ws));
      state := MWaiting([w] + ws);
      suspended := true;
    }
  }

  /** The walk of `set` over a taken list: from the head, each awaiter is
      resumed on its own dispatcher, else on the fallback, else inline. */
  method ResumeAll(ws: seq<Waiter>, fallback: Option<Dispatcher>) returns (performed: seq<Resumption<()>>)
    ensures performed == Wake(ws, fallback)
  {
    performed := [];
    var i := 0;
    while i < |ws|
      invariant 0 <= i <= |ws|
      invariant performed == Wake(ws[..i], fallback)
    {
      var w := ws[i];
      assert ws[..i + 1] == ws[..i] + [w];
      WakeAppend(ws[..i], [w], fallback);
      performed := performed + [Resumption(w.handle, (), ResumeTarget(w.own, fallback))];
      i := i + 1;
    }
    assert ws[..i] == ws;
  }

  lemma {:induction false} WakeAppend(a: seq<Waiter>, b: seq<Waiter>, fallback: Option<Dispatcher>)
    ensures Wake(a + b, fallback) == Wake(a, fallback) + Wake(b, fallback)
  {
    assert |Wake(a + b, fallback)| == |Wake(a, fallback) + Wake(b, fallback)|;
    forall i | 0 <= i < |a + b|
      ensures Wake(a + b, fallback)[i] == (Wake(a, fallback) + Wake(b, fallback))[i]
    {
      if i >= |a| {
        assert (a + b)[i] == b[i - |a|];
      }
    }
  }

  lemma WakeHandles(ws: seq<Waiter>, fallback: Option<Dispatcher>)
    ensures Handles(Wake(ws, fallback)) == HandlesOf(ws)
  {
  }

  /** The two multi-consumer `set`s side by side: nothing happens unless
      there is something to wake (or, without auto-reset, the event was
      unset); otherwise the whole list is woken. */
  lemma SetCases(autoReset: bool, s: Multi, fallback: Option<Dispatcher>)
    requires MultiWellFormed(s)
    ensures var r := if autoReset then AutoMultiSet(s, fallback) else MultiSet(s, fallback);
            r == if s == MSet || (autoReset && s == MUnset) then (false, MSet, [])
                 else (true, if autoReset then MUnset else MSet, Wake(MultiWaiters(s), fallback))
  {
  }

  /** Waking a whole list moves its handles to the log, still distinct,
      and leaves no waiter. */
  lemma WakeKeepsNoDup(log: seq<Resumption<()>>, ws: seq<Waiter>, fallback: Option<Dispatcher>)
    requires NoDup(Handles(log) + HandlesOf(ws))
    ensures NoDup(Handles(log + Wake(ws, fallback)) + HandlesOf([]))
  {
    WakeHandles(ws, fallback);
    HandlesAppend(log, Wake(ws, fallback));
    assert Handles(log + Wake(ws, fallback)) + HandlesOf([]) == Handles(log) + HandlesOf(ws);
  }

  /** A fresh awaiter pushed on the head keeps the handles distinct. */
  lemma PushKeepsNoDup<V>(log: seq<Resumption<V>>, ws: seq<Waiter>, w: Waiter)
    requires NoDup(Handles(log) + HandlesOf(ws)) && w.handle !in Handles(log) + HandlesOf(ws)
    ensures NoDup(Handles(log) + HandlesOf([w] + ws))
  {
    assert HandlesOf([w] + ws) == [w.handle] + HandlesOf(ws);
    NoDupCons(Handles(log), HandlesOf(ws), w.handle);
  }

  lemma NoDupCons(a: seq<Handle>, b: seq<Handle>, x: Handle)
    requires NoDup(a + b) && x !in a + b
    ensures NoDup(a + ([x] + b))
  {
    var s := a + ([x] + b);
    forall i, j | 0 <= i < j < |s|
      ensures s[i] != s[j]
    {
      if i == |a| {
        assert s[j] in a + b;
      } else if j == |a| {
        assert s[i] in a + b;
      } else {
        var i' := if i < |a| then i else i - 1;
        var j' := if j < |a| then j else j - 1;
        assert s[i] == (a + b)[i'] && s[j] == (a + b)[j'];
      }
    }
  }
}
