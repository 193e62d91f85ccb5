/** The mutex-protected FIFO of include/asyncpp/threadsafe_queue.h: a
    std::queue over a std::deque. Every operation holds the mutex for its
    whole body, so each one is a single atomic step here; the mutex itself
    is not modelled. */
module ThreadsafeQueue {
  import opened Common

  /** What pop does to the contents `q`: the front element and the rest, or
      none and no change when the queue is empty. */
  function PopStep<T>(q: seq<T>): (r: (Option<T>, seq<T>))
    ensures r.0.None? <==> q == []
    ensures r.0.None? ==> r.1 == q
    ensures r.0.Some? ==> [r.0.value] + r.1 == q
  {
    if q == [] then (None, q) else (Some(q[0]), q[1..])
  }

  /** The values `n` successive pops hand out, and the contents left. */
  function PopMany<T>(q: seq<T>, n: nat): (r: (seq<Option<T>>, seq<T>))
    ensures |r.0| == n
    decreases n
  {
    if n == 0 then ([], q)
    else
      var (v, rest) := PopStep(q);
      var (vs, left) := PopMany(rest, n - 1);
      ([v] + vs, left)
  }

  /** The values, each as a present optional. */
  function Present<T>(xs: seq<T>): (r: seq<Option<T>>)
    ensures |r| == |xs| && forall i :: 0 <= i < |xs| ==> r[i] == Some(xs[i])
  {
    if xs == [] then [] else [Some(xs[0])] + Present(xs[1..])
  }

  /** `n` absent optionals. */
  function Nones<T>(n: nat): (r: seq<Option<T>>)
    ensures |r| == n && forall i :: 0 <= i < n ==> r[i] == None
  {
    if n == 0 then [] else [None] + Nones(n - 1)
  }

  /** FIFO: popping as many times as there are elements hands every element
      out in the order it was pushed and leaves the queue empty; any further
      pop returns none. */
  lemma {:induction false} PopAllIsFifo<T>(q: seq<T>, extra: nat)
    ensures PopMany(q, |q| + extra).0 == Present(q) + Nones(extra)
    ensures PopMany(q, |q| + extra).1 == []
    decreases |q| + extra
  {
    if q == [] {
      PopEmpty(q, extra);
    } else {
      PopAllIsFifo(q[1..], extra);
      assert [Some(q[0])] + Present(q[1..]) == Present(q);
      var tail: seq<Option<T>> := Nones(extra);
      assert [Some(q[0])] + (Present(q[1..]) + tail) == Present(q) + tail;
    }
  }

  /** Pops on an empty queue return none and leave it empty. */
  lemma {:induction false} PopEmpty<T>(q: seq<T>, n: nat)
    requires q == []
    ensures PopMany(q, n).0 == Nones(n)
    ensures PopMany(q, n).1 == []
    decreases n
  {
    if n > 0 {
      PopEmpty(q, n - 1);
    }
  }

  /** A push at the back does not change what pop takes from a non-empty
      queue, and is what pop takes from an empty one. */
  lemma PushDoesNotOvertake<T>(q: seq<T>, x: T)
    ensures PopStep(q + [x]).0 == (if q == [] then Some(x) else Some(q[0]))
    ensures q != [] ==> PopStep(q + [x]).1 == PopStep(q).1 + [x]
  {
    if q != [] {
      assert (q + [x])[1..] == q[1..] + [x];
    }
  }

  class ThreadsafeQueue<T> {
    var items: seq<T>

    /** threadsafe_queue(args...) forwards to the container's constructor;
        the container it builds is given here as its contents. */
    constructor (init: seq<T>)
      ensures items == init
    {
      items := init;
    }

    /** The copy constructor copies the other queue's contents, which stay. */
    constructor Copy(other: ThreadsafeQueue<T>)
      ensures items == other.items
    {
      items := other.items;
    }

    /** The move constructor takes the other queue's contents; the moved-from
        deque is left valid but unspecified. */
    constructor Move(other: ThreadsafeQueue<T>)
      modifies other
      ensures items == old(other.items)
    {
      items := other.items;
      other.items := [];
    }

    /** Copy assignment copies unless it is a self-assignment, which changes
        nothing. */
    method CopyAssign(other: ThreadsafeQueue<T>)
      modifies this
      ensures items == old(other.items)
      ensures other == this ==> items == old(items)
    {
      if other != this {
        items := other.items;
      }
    }

    /** Move assignment takes the other queue's contents; self-assignment
        changes nothing. The moved-from deque is left valid but unspecified. */
    method MoveAssign(other: ThreadsafeQueue<T>)
      modifies this, other
      ensures items == old(other.items)
      ensures other == this ==> items == old(items)
    {
      if other != this {
        items := other.items;
        other.items := [];
      }
    }

    /** pop: none and no change on an empty queue, else the oldest element,
        removed. */
    method Pop() returns (v: Option<T>)
      modifies this
      ensures (v, items) == PopStep(old(items))
    {
      if items == [] {
        return None;
      }
      v := Some(items[0]);
      items := items[1..];
    }

    /** push appends at the back. */
    method Push(v: T)
      modifies this
      ensures items == old(items) + [v]
    {
      items := items + [v];
    }

    /** emplace constructs the element in place at the back; its effect is
        push's. */
    method Emplace(v: T)
      modifies this
      ensures items == old(items) + [v]
    {
      Push(v);
    }
  }

  /** Three pushes come back out of three pops in the order pushed, and a
      fourth pop finds the queue empty. */
  method FifoScenario<T>(a: T, b: T, c: T) returns (out: seq<Option<T>>)
    ensures out == [Some(a), Some(b), Some(c), None]
  {
    var q := new ThreadsafeQueue<T>([]);
    q.Push(a);
    q.Emplace(b);
    q.Push(c);
    var x := q.Pop();
    var y := q.Pop();
    var z := q.Pop();
    var w := q.Pop();
    out := [x, y, z, w];
  }

  /** A copy is independent: popping the copy leaves the original's
      contents, and a self-assignment keeps them. */
  method CopyScenario<T>(a: T, b: T) returns (copied: Option<T>, original: seq<T>)
    ensures copied == Some(a) && original == [a, b]
  {
    var q := new ThreadsafeQueue<T>([a]);
    q.Push(b);
    var r := new ThreadsafeQueue.Copy(q);
    copied := r.Pop();
    q.CopyAssign(q);
    original := q.items;
  }
}
