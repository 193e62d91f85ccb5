/** The asynchronous mutex of include/asyncpp/mutex.h.

    The lock word is either "unlocked", "locked with no waiters", or a pointer
    to an intrusive LIFO stack of lock awaiters; the mutex also owns a FIFO
    batch `awaiters` that `unlock` refills by reversing the stack. Each atomic
    step of the source is one transition here; a resumed awaiter is appended
    to a ghost log (the source resumes it inline, on the unlocking thread). */
module Mutex {
  import opened Common

  /** The state word. `stack[0]` is the head of the intrusive list, i.e. the
      most recent arrival. */
  datatype Word = Unlocked | LockedNoWaiters | LockedStack(stack: seq<Handle>)

  /** The whole mutex: its word and the batch of awaiters taken off the stack. */
  datatype MutexView = MutexView(word: Word, awaiters: seq<Handle>)

  /** A stack word is never empty (the empty stack is LockedNoWaiters), and a
      non-empty batch only exists while the mutex is held. */
  predicate WellFormed(m: MutexView)
  {
    (m.word.LockedStack? ==> m.word.stack != [])
    && (m.awaiters != [] ==> m.word != Unlocked)
  }

  predicate IsLocked(m: MutexView)
  {
    m.word != Unlocked
  }

  /** Waiters in arrival order: the batch, then the stack from its oldest entry. */
  function Waiters(m: MutexView): (r: seq<Handle>)
  {
    m.awaiters + (if m.word.LockedStack? then Reverse(m.word.stack) else [])
  }

  lemma ReversePush<T>(h: T, s: seq<T>)
    ensures Reverse([h] + s) == Reverse(s) + [h]
  {
    assert ([h] + s)[1..] == s;
  }

  /** mutex::try_lock: succeeds exactly on an unlocked mutex and leaves it
      held; otherwise nothing changes. */
  function TryLockStep(m: MutexView): (r: (bool, MutexView))
    requires WellFormed(m)
    ensures WellFormed(r.1) && IsLocked(r.1)
    ensures r.0 <==> !IsLocked(m)
    ensures r.0 ==> r.1.word == LockedNoWaiters && Waiters(r.1) == []
    ensures !r.0 ==> r.1 == m
  {
    if m.word == Unlocked then (true, m.(word := LockedNoWaiters)) else (false, m)
  }

  /** lock_awaiter::await_suspend for awaiter `h`: an unlocked mutex is
      acquired without suspending (result false); otherwise `h` is pushed on
      the stack and suspends (result true), becoming the newest waiter. */
  function LockSuspendStep(m: MutexView, h: Handle): (r: (bool, MutexView))
    requires WellFormed(m)
    ensures WellFormed(r.1) && IsLocked(r.1)
    ensures r.0 <==> IsLocked(m)
    ensures r.1.awaiters == m.awaiters
    ensures Waiters(r.1) == if r.0 then Waiters(m) + [h] else Waiters(m)
  {
    match m.word
    case Unlocked => (false, m.(word := LockedNoWaiters))
    case LockedNoWaiters => (true, m.(word := LockedStack([h])))
    case LockedStack(st) =>
      ReversePush(h, st);
      (true, m.(word := LockedStack([h] + st)))
  }

  /** mutex::unlock on a held mutex: with no waiter the mutex becomes
      unlocked; otherwise the oldest waiter is resumed and now holds it. */
  function UnlockStep(m: MutexView): (r: (Option<Handle>, MutexView))
    requires WellFormed(m) && IsLocked(m)
    ensures WellFormed(r.1)
    ensures r.0.None? <==> Waiters(m) == []
    ensures IsLocked(r.1) <==> Waiters(m) != []
    ensures r.0.Some? ==> r.0.value == Waiters(m)[0] && Waiters(r.1) == Waiters(m)[1..]
    ensures r.0.None? ==> Waiters(r.1) == []
  {
    if m.awaiters != [] then
      (Some(m.awaiters[0]), m.(awaiters := m.awaiters[1..]))
    else if m.word == LockedNoWaiters then
      (None, m.(word := Unlocked))
    else
      var batch := Reverse(m.word.stack);
      (Some(batch[0]), MutexView(LockedNoWaiters, batch[1..]))
  }

  /** Waiters `hs` arrive one after another at a held mutex. */
  function Arrive(m: MutexView, hs: seq<Handle>): (r: MutexView)
    requires WellFormed(m) && IsLocked(m)
    ensures WellFormed(r) && IsLocked(r)
    decreases |hs|
  {
    if hs == [] then m else Arrive(LockSuspendStep(m, hs[0]).1, hs[1..])
  }

  /** `k` successive unlocks of a held mutex: the handles they resume and the
      final state. */
  function Drain(m: MutexView, k: nat): (r: (seq<Handle>, MutexView))
    requires WellFormed(m) && IsLocked(m) && k <= |Waiters(m)|
    decreases k
  {
    if k == 0 then ([], m)
    else
      var (w, m') := UnlockStep(m);
      var (rest, m'') := Drain(m', k - 1);
      ([w.value] + rest, m'')
  }

  /** Every waiter that suspends on a held mutex joins the end of the line. */
  lemma {:induction false} ArriveAppends(m: MutexView, hs: seq<Handle>)
    requires WellFormed(m) && IsLocked(m)
    ensures Waiters(Arrive(m, hs)) == Waiters(m) + hs
    decreases |hs|
  {
    if hs != [] {
      var m' := LockSuspendStep(m, hs[0]).1;
      ArriveAppends(m', hs[1..]);
      assert [hs[0]] + hs[1..] == hs;
    }
  }

  /** Unlocking `k` times resumes the first `k` waiters in arrival order. */
  lemma {:induction false} DrainInArrivalOrder(m: MutexView, k: nat)
    requires WellFormed(m) && IsLocked(m) && k <= |Waiters(m)|
    ensures Drain(m, k).0 == Waiters(m)[..k]
    ensures Waiters(Drain(m, k).1) == Waiters(m)[k..]
    decreases k
  {
    if k > 0 {
      var m' := UnlockStep(m).1;
      DrainInArrivalOrder(m', k - 1);
    }
  }

  /** FIFO hand-off: waiters that queue on a held mutex are each resumed once,
      in the order they arrived, and the last unlock leaves the mutex held by
      the last of them (test/mutex.cpp:21-44 with two waiters). */
  lemma FifoHandOff(hs: seq<Handle>)
    requires hs != []
    ensures var m := Arrive(MutexView(LockedNoWaiters, []), hs);
            |Waiters(m)| == |hs| && Drain(m, |hs|).0 == hs && IsLocked(Drain(m, |hs|).1)
  {
    var m0 := MutexView(LockedNoWaiters, []);
    ArriveAppends(m0, hs);
    var m := Arrive(m0, hs);
    DrainInArrivalOrder(m, |hs|);
    DrainLeavesLastHolder(m, |hs|);
  }

  lemma {:induction false} DrainLeavesLastHolder(m: MutexView, k: nat)
    requires WellFormed(m) && IsLocked(m) && 0 < k <= |Waiters(m)|
    ensures IsLocked(Drain(m, k).1)
    decreases k
  {
    var m' := UnlockStep(m).1;
    if k > 1 {
      DrainLeavesLastHolder(m', k - 1);
    }
  }

  /** The mutex object. Waiter handles stand for lock_awaiter objects, each
      used for one await. */
  class Mutex {
    var word: Word
    var awaiters: seq<Handle>
    /** The awaiters resumed so far, in order. */
    ghost var resumed: seq<Handle>

    function View(): (r: MutexView)
      reads this
    {
      MutexView(word, awaiters)
    }

    /** No awaiter is ever resumed twice or resumed while still waiting. */
    ghost predicate Valid()
      reads this
    {
      WellFormed(View()) && NoDup(resumed + Waiters(View()))
    }

    /** mutex(): starts unlocked. */
    constructor ()
      ensures Valid() && View() == MutexView(Unlocked, []) && resumed == []
    {
      word := Unlocked;
      awaiters := [];
      resumed := [];
    }

    /** mutex(construct_locked): starts held, with no waiter. */
    constructor Locked()
      ensures Valid() && View() == MutexView(LockedNoWaiters, []) && resumed == []
    {
      word := LockedNoWaiters;
      awaiters := [];
      resumed := [];
    }

    method IsLockedNow() returns (b: bool)
      requires Valid()
      ensures b <==> IsLocked(View())
    {
      b := word != Unlocked;
    }

    method TryLock() returns (ok: bool)
      requires Valid()
      modifies this
      ensures Valid() && resumed == old(resumed)
      ensures (ok, View()) == TryLockStep(old(View()))
    {
      ok := word == Unlocked;
      if ok {
        word := LockedNoWaiters;
        assert Waiters(View()) == Waiters(old(View())) == [];
      }
    }

    /** co_await lock(): await_ready is false, so this is await_suspend for
        the fresh awaiter `h`; `suspended` is its result. */
    method LockSuspend(h: Handle) returns (suspended: bool)
      requires Valid() && h !in resumed && h !in Waiters(View())
      modifies this
      ensures Valid() && resumed == old(resumed)
      ensures (suspended, View()) == LockSuspendStep(old(View()), h)
    {
      var r := LockSuspendStep(View(), h);
      suspended := r.0;
      match word {
        case Unlocked => word := LockedNoWaiters;
        case LockedNoWaiters => word := LockedStack([h]);
        case LockedStack(st) => word := LockedStack([h] + st);
      }
      if suspended {
        assert resumed + Waiters(View()) == (old(resumed) + Waiters(old(View()))) + [h];
        assert h !in old(resumed) + Waiters(old(View()));
        NoDupSnoc<Handle>(old(resumed) + Waiters(old(View())), h);
      } else {
        assert resumed + Waiters(View()) == old(resumed) + Waiters(old(View()));
      }
    }

    /** mutex::unlock: when the batch is empty the stack is taken and
        reversed into it; then the head of the batch is resumed inline. */
    method Unlock() returns (woken: Option<Handle>)
      requires Valid() && IsLocked(View())
      modifies this
      ensures Valid()
      ensures (woken, View()) == UnlockStep(old(View()))
      ensures resumed == old(resumed) + (if woken.Some? then [woken.value] else [])
    {
      var head := awaiters;
      if head == [] {
        if word == LockedNoWaiters {
          word := Unlocked;
          return None;
        }
        var next := word.stack;
        ghost var taken := next;
        word := LockedNoWaiters;
        while next != []
          invariant Reverse(taken) == Reverse(next) + head
          decreases |next|
        {
          head := [next[0]] + head;
          next := next[1..];
        }
        assert head == Reverse(taken);
      }
      awaiters := head[1..];
      woken := Some(head[0]);
      assert old(resumed) + Waiters(old(View())) == (old(resumed) + [head[0]]) + Waiters(View());
      resumed := resumed + [head[0]];
    }
  }

  /** mutex_lock: a handle that may hold the lock of one mutex. */
  class MutexLock {
    var mtx: Mutex?
    var locked: bool

    /** mutex_lock(mtx, adopt_lock): the mutex must already be held. */
    constructor Adopt(m: Mutex)
      requires m.Valid() && IsLocked(m.View())
      ensures mtx == m && locked
    {
      mtx := m;
      locked := true;
    }

    /** mutex_lock(mtx): does not lock. */
    constructor (m: Mutex)
      ensures mtx == m && !locked
    {
      mtx := m;
      locked := false;
    }

    /** mutex_lock::unlock: requires the lock to be held by this handle. */
    method Unlock()
      requires locked && mtx != null && mtx.Valid() && IsLocked(mtx.View())
      modifies this, mtx
      ensures mtx == old(mtx) && !locked && mtx.Valid()
      ensures mtx.View() == UnlockStep(old(mtx.View())).1
    {
      var _ := mtx.Unlock();
      locked := false;
    }

    /** mutex_lock::try_lock: requires the lock not to be held by this handle
        and records the outcome. */
    method TryLock() returns (ok: bool)
      requires !locked && mtx != null && mtx.Valid()
      modifies this, mtx
      ensures mtx == old(mtx) && mtx.Valid() && locked == ok
      ensures (ok, mtx.View()) == TryLockStep(old(mtx.View()))
    {
      ok := mtx.TryLock();
      locked := ok;
    }

    /** The awaiter of mutex_lock::lock is ready when the handle already holds the lock. */
    method LockReady() returns (ready: bool)
      ensures ready == locked
    {
      ready := locked;
    }

    /** Resuming that awaiter marks the lock as held. */
    method LockResume()
      modifies this
      ensures locked && mtx == old(mtx)
    {
      locked := true;
    }

    /** ~mutex_lock: unlocks only if a mutex is attached and held. */
    method Destroy()
      requires mtx != null && locked ==> mtx.Valid() && IsLocked(mtx.View())
      modifies mtx
      ensures mtx != null && locked ==> mtx.View() == UnlockStep(old(mtx.View())).1
      ensures mtx != null && !locked ==> mtx.View() == old(mtx.View())
    {
      if mtx != null && locked {
        var _ := mtx.Unlock();
      }
    }

    /** Move assignment: releases a lock this handle holds, then takes over
        `other`'s mutex and flag, leaving `other` empty. A self-move thus
        releases the lock and leaves the handle empty. */
    method MoveAssign(other: MutexLock)
      requires mtx != null && locked ==> mtx.Valid() && IsLocked(mtx.View())
      modifies this, other, mtx
      ensures other != this ==> mtx == old(other.mtx) && locked == old(other.locked)
      ensures other.mtx == null && !other.locked
      ensures old(mtx) != null && old(locked) ==> old(mtx).View() == UnlockStep(old(mtx.View())).1
      ensures old(mtx) != null && !old(locked) ==> old(mtx).View() == old(mtx.View())
    {
      if mtx != null && locked {
        var _ := mtx.Unlock();
      }
      mtx := other.mtx;
      other.mtx := null;
      locked := other.locked;
      other.locked := false;
    }
  }

  /** co_await lock_scoped(): after the mutex awaiter resumes, the result is
      a mutex_lock adopting the now-held lock. */
  method ScopedLockResume(m: Mutex) returns (l: MutexLock)
    requires m.Valid() && IsLocked(m.View())
    ensures fresh(l) && l.mtx == m && l.locked
  {
    l := new MutexLock.Adopt(m);
  }
}
