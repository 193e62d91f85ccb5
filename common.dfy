/** Vocabulary shared by every primitive of the coroutine toolkit: optional
    values, coroutine handles and dispatchers as opaque ids, and the log entry
    recorded whenever a suspended coroutine is resumed. */
module Common {

  datatype Option<+T> = None | Some(value: T)

  /** A suspended coroutine (or the awaiter object that stands for it). */
  type Handle = nat

  /** A dispatcher that a resumption may be pushed to. */
  type Dispatcher = nat

  /** A thrown exception (a std::exception_ptr), as an opaque id. */
  type ExceptionId = nat

  /** Where a resumption runs: inline on the current thread, or pushed to a dispatcher. */
  datatype Target = Inline | Via(dispatcher: Dispatcher)

  /** One resumption of a suspended coroutine, with the value its await delivers. */
  datatype Resumption<+V> = Resumption(handle: Handle, value: V, target: Target)

  /** The order every event and channel uses to choose where a waiter resumes:
      the waiter's own dispatcher, else the fallback the waking call received,
      else inline. */
  function ResumeTarget(own: Option<Dispatcher>, fallback: Option<Dispatcher>): (t: Target)
    ensures t.Via? <==> own.Some? || fallback.Some?
    ensures own.Some? ==> t == Via(own.value)
    ensures own.None? && fallback.Some? ==> t == Via(fallback.value)
  {
    if own.Some? then Via(own.value)
    else if fallback.Some? then Via(fallback.value)
    else Inline
  }

  /** The handles of a log, in order. */
  function Handles<V>(log: seq<Resumption<V>>): (hs: seq<Handle>)
    ensures |hs| == |log|
    ensures forall i :: 0 <= i < |log| ==> hs[i] == log[i].handle
  {
    if log == [] then [] else [log[0].handle] + Handles(log[1..])
  }

  lemma {:induction false} HandlesAppend<V>(a: seq<Resumption<V>>, b: seq<Resumption<V>>)
    ensures Handles(a + b) == Handles(a) + Handles(b)
  {
    assert |Handles(a + b)| == |Handles(a) + Handles(b)|;
    forall i | 0 <= i < |a + b|
      ensures Handles(a + b)[i] == (Handles(a) + Handles(b))[i]
    {
    }
  }

  /** No element occurs twice. */
  predicate NoDup<T(==)>(s: seq<T>)
  {
    forall i, j :: 0 <= i < j < |s| ==> s[i] != s[j]
  }

  lemma NoDupSnoc<T>(s: seq<T>, x: T)
    requires NoDup(s) && x !in s
    ensures NoDup(s + [x])
  {
    forall i, j | 0 <= i < j < |s + [x]|
      ensures (s + [x])[i] != (s + [x])[j]
    {
      if j == |s| {
        assert s[i] in s;
      }
    }
  }

  /** A concatenation is duplicate-free exactly when both parts are and
      they share no element. */
  lemma NoDupConcat<T>(a: seq<T>, b: seq<T>)
    ensures NoDup(a + b) <==> NoDup(a) && NoDup(b) && forall x :: x in a ==> x !in b
  {
    if NoDup(a + b) {
      assert forall i :: 0 <= i < |a| ==> (a + b)[i] == a[i];
      assert forall j :: 0 <= j < |b| ==> (a + b)[|a| + j] == b[j];
      forall x | x in a
        ensures x !in b
      {
        var i :| 0 <= i < |a| && a[i] == x;
        forall j | 0 <= j < |b|
          ensures b[j] != x
        {
          assert (a + b)[i] != (a + b)[|a| + j];
        }
      }
    }
    if NoDup(a) && NoDup(b) && forall x :: x in a ==> x !in b {
      forall i, j | 0 <= i < j < |a + b|
        ensures (a + b)[i] != (a + b)[j]
      {
        if j < |a| {
        } else if i >= |a| {
          assert (a + b)[i] == b[i - |a|] && (a + b)[j] == b[j - |a|];
        } else {
          assert (a + b)[i] in a && (a + b)[j] in b;
        }
      }
    }
  }

  lemma AppendAssoc<T>(a: seq<T>, b: seq<T>, c: seq<T>)
    ensures a + (b + c) == a + b + c
  {
  }

  lemma AppendEmpty<T>(a: seq<T>)
    ensures a + [] == a
  {
  }

  /** Exchanging two adjacent blocks keeps a sequence duplicate-free. */
  lemma NoDupSwap<T>(a: seq<T>, b: seq<T>, c: seq<T>, d: seq<T>)
    requires NoDup(a + b + c + d)
    ensures NoDup(a + c + b + d)
  {
    NoDupConcat(a + b + c, d);
    NoDupConcat(a + b, c);
    NoDupConcat(a, b);
    NoDupConcat(a, c);
    NoDupConcat(a + c, b);
    NoDupConcat(a + c + b, d);
  }

  /** The elements of s in reverse order. */
  function Reverse<T>(s: seq<T>): (r: seq<T>)
    ensures |r| == |s|
    ensures forall i :: 0 <= i < |s| ==> r[i] == s[|s| - 1 - i]
  {
    if s == [] then [] else Reverse(s[1..]) + [s[0]]
  }
}
