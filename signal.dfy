/** The signal/slot list of include/asyncpp/signal.h. A signal keeps its
    slots (nodes) in a doubly-linked list, given here as the sequence of
    node ids from head to tail; every node carries a counter, kept in a map
    by node id: 0 marks a removed node, and live nodes get increasing values
    from the signal's 64-bit counter, so that an invocation can skip slots
    connected after it began. Handles name a node. */
module Signals {
  import opened Common

  type NodeId = nat

  /** signal_removed_counter. */
  const Removed: nat := 0

  /** 2^64: m_current_counter is a std::size_t. */
  const CounterModulus: nat := 0x1_0000_0000_0000_0000

  /** The number of nodes in the list not marked removed. */
  function LiveCount(nodes: seq<NodeId>, counter: map<NodeId, nat>): (n: nat)
    requires forall k :: 0 <= k < |nodes| ==> nodes[k] in counter
    ensures n <= |nodes|
  {
    if nodes == [] then 0
    else (if counter[nodes[0]] != Removed then 1 else 0) + LiveCount(nodes[1..], counter)
  }

  lemma {:induction false} LiveCountSnoc(nodes: seq<NodeId>, counter: map<NodeId, nat>, x: NodeId)
    requires forall k :: 0 <= k < |nodes| ==> nodes[k] in counter
    requires x in counter
    ensures LiveCount(nodes + [x], counter) == LiveCount(nodes, counter) + (if counter[x] != Removed then 1 else 0)
  {
    if nodes != [] {
      assert (nodes + [x])[1..] == nodes[1..] + [x];
      LiveCountSnoc(nodes[1..], counter, x);
    } else {
      assert [] + [x] == [x];
    }
  }

  /** LiveCount depends only on the counters of the listed nodes. */
  lemma {:induction false} LiveCountFrame(nodes: seq<NodeId>, c1: map<NodeId, nat>, c2: map<NodeId, nat>)
    requires forall k :: 0 <= k < |nodes| ==> nodes[k] in c1 && nodes[k] in c2
    requires forall k :: 0 <= k < |nodes| ==> (c1[nodes[k]] == Removed <==> c2[nodes[k]] == Removed)
    ensures LiveCount(nodes, c1) == LiveCount(nodes, c2)
  {
    if nodes != [] {
      LiveCountFrame(nodes[1..], c1, c2);
    }
  }

  /** The list without node x. */
  function Unlink(nodes: seq<NodeId>, x: NodeId): (r: seq<NodeId>)
    ensures x !in r
    ensures forall y :: y != x ==> (y in r <==> y in nodes)
    ensures |r| <= |nodes|
  {
    if nodes == [] then []
    else if nodes[0] == x then Unlink(nodes[1..], x)
    else [nodes[0]] + Unlink(nodes[1..], x)
  }

  /** Whether an invocation that loaded `start` as the current counter
      invokes a node with counter `c`, as written: a live node whose
      counter is at most `start`. */
  predicate Eligible(start: nat, c: nat)
  {
    c != Removed && start >= c
  }

  /** The intended test: only nodes connected before the invocation
      loaded the counter, i.e. with a counter below it. */
  predicate EligibleIntended(start: nat, c: nat)
  {
    c != Removed && start > c
  }

  /** The nodes an invocation calls, in list order. */
  function Invoked(nodes: seq<NodeId>, counter: map<NodeId, nat>, start: nat): (r: seq<NodeId>)
    requires forall k :: 0 <= k < |nodes| ==> nodes[k] in counter
    ensures |r| <= |nodes|
    ensures forall y :: y in r ==> y in nodes && Eligible(start, counter[y])
    ensures forall y :: y in nodes && Eligible(start, counter[y]) ==> y in r
  {
    if nodes == [] then []
    else
      var last := nodes[|nodes| - 1];
      Invoked(nodes[..|nodes| - 1], counter, start) + (if Eligible(start, counter[last]) then [last] else [])
  }

  /** The list after an invocation freed the nodes it found removed. */
  function Kept(nodes: seq<NodeId>, counter: map<NodeId, nat>): (r: seq<NodeId>)
    requires forall k :: 0 <= k < |nodes| ==> nodes[k] in counter
    ensures |r| <= |nodes|
    ensures forall y :: y in r <==> y in nodes && counter[y] != Removed
  {
    if nodes == [] then []
    else
      var last := nodes[|nodes| - 1];
      Kept(nodes[..|nodes| - 1], counter) + (if counter[last] != Removed then [last] else [])
  }

  /** An invocation leaves exactly the live nodes: size() is unchanged by it. */
  lemma {:induction false} KeptLength(nodes: seq<NodeId>, counter: map<NodeId, nat>)
    requires forall k :: 0 <= k < |nodes| ==> nodes[k] in counter
    ensures forall k :: 0 <= k < |Kept(nodes, counter)| ==> Kept(nodes, counter)[k] in counter
    ensures LiveCount(Kept(nodes, counter), counter) == LiveCount(nodes, counter)
    ensures |Kept(nodes, counter)| == LiveCount(nodes, counter)
  {
    var r := Kept(nodes, counter);
    forall k | 0 <= k < |r| ensures r[k] in counter {
      assert r[k] in r;
    }
    if nodes != [] {
      var init := nodes[..|nodes| - 1];
      var last := nodes[|nodes| - 1];
      assert nodes == init + [last];
      KeptLength(init, counter);
      LiveCountSnoc(init, counter, last);
      var ri := Kept(init, counter);
      if counter[last] != Removed {
        LiveCountSnoc(ri, counter, last);
      } else {
        assert r == ri;
      }
    }
  }

  /** One more node of the walk: the prefix's results extended by that node. */
  lemma WalkStep(nodes: seq<NodeId>, counter: map<NodeId, nat>, start: nat, i: nat)
    requires forall k :: 0 <= k < |nodes| ==> nodes[k] in counter
    requires i < |nodes|
    ensures Invoked(nodes[..i + 1], counter, start)
            == Invoked(nodes[..i], counter, start) + (if Eligible(start, counter[nodes[i]]) then [nodes[i]] else [])
    ensures Kept(nodes[..i + 1], counter)
            == Kept(nodes[..i], counter) + (if counter[nodes[i]] != Removed then [nodes[i]] else [])
  {
    assert nodes[..i + 1][..i] == nodes[..i];
  }

  /** The traversal of operator(): walk the list from the head, invoke
      every eligible node, free every node found removed. */
  method Walk(nodes: seq<NodeId>, counter: map<NodeId, nat>, start: nat) returns (invoked: seq<NodeId>, kept: seq<NodeId>)
    requires forall k :: 0 <= k < |nodes| ==> nodes[k] in counter
    ensures invoked == Invoked(nodes, counter, start)
    ensures kept == Kept(nodes, counter)
  {
    invoked := [];
    kept := [];
    var i := 0;
    while i < |nodes|
      invariant 0 <= i <= |nodes|
      invariant invoked == Invoked(nodes[..i], counter, start)
      invariant kept == Kept(nodes[..i], counter)
    {
      var n := nodes[i];
      WalkStep(nodes, counter, start, i);
      if Eligible(start, counter[n]) {
        invoked := invoked + [n];
      }
      if counter[n] != Removed {
        kept := kept + [n];
      }
      i := i + 1;
    }
    assert nodes[..i] == nodes;
  }

  /** The wrap-around reset of get_next_counter: every node in the list,
      removed or not, gets counter 1. */
  method ResetCounters(nodes: seq<NodeId>, counter: map<NodeId, nat>) returns (r: map<NodeId, nat>)
    requires forall k :: 0 <= k < |nodes| ==> nodes[k] in counter
    ensures r.Keys == counter.Keys
    ensures forall y :: y in r && y in nodes ==> r[y] == 1
    ensures forall y :: y in r && y !in nodes ==> r[y] == counter[y]
  {
    r := counter;
    var i := 0;
    while i < |nodes|
      invariant 0 <= i <= |nodes|
      invariant r.Keys == counter.Keys
      invariant forall y :: y in r && y in nodes[..i] ==> r[y] == 1
      invariant forall y :: y in r && y !in nodes[..i] ==> r[y] == counter[y]
    {
      assert nodes[..i + 1] == nodes[..i] + [nodes[i]];
      r := r[nodes[i] := 1];
      i := i + 1;
    }
    assert nodes[..i] == nodes;
  }

  class Signal {
    var nodes: seq<NodeId>
    /** Each node's counter; nodes unlinked from the list keep theirs. */
    var counter: map<NodeId, nat>
    /** m_current_counter. */
    var current: nat
    /** Every slot invocation, in order. */
    ghost var calls: seq<NodeId>

    ghost predicate Valid()
      reads this
    {
      NoDup(nodes)
      && (forall k :: 0 <= k < |nodes| ==> nodes[k] in counter)
      && current < CounterModulus
    }

    /** signal(): no slots, the counter at 1. */
    constructor ()
      ensures Valid() && nodes == [] && counter == map[] && current == 1 && calls == []
    {
      nodes := [];
      counter := map[];
      current := 1;
      calls := [];
    }

    /** get_next_counter: hand out the counter and advance it (mod 2^64);
        when the value handed out would be 0, the counter has wrapped:
        every listed node is reset to 1 and the next value is handed out. */
    method NextCounter() returns (c: nat)
      requires Valid()
      modifies this
      ensures Valid() && nodes == old(nodes) && calls == old(calls) && counter.Keys == old(counter).Keys
      ensures c != Removed && c < CounterModulus
      ensures old(current) != 0 ==> c == old(current) && current == (old(current) + 1) % CounterModulus
                                     && counter == old(counter)
      ensures old(current) == 0 ==> c == 1 && current == 2
                                     && (forall y :: y in counter && y in nodes ==> counter[y] == 1)
                                     && (forall y :: y in counter && y !in nodes ==> counter[y] == old(counter)[y])
    {
      c := current;
      current := (current + 1) % CounterModulus;
      if c == 0 {
        counter := ResetCounters(nodes, counter);
        c := current;
        current := (current + 1) % CounterModulus;
      }
    }

    /** append: link a new node, with a fresh counter, at the tail. */
    method Append(id: NodeId) returns (h: SignalHandle)
      requires Valid() && id !in counter
      modifies this
      ensures Valid() && nodes == old(nodes) + [id] && fresh(h) && h.node == Some(id)
      ensures id in counter && counter[id] != Removed && calls == old(calls)
      ensures old(current) != 0 ==> counter == old(counter)[id := old(current)]
                                     && current == (old(current) + 1) % CounterModulus
    {
      var c := NextCounter();
      counter := counter[id := c];
      NoDupSnoc(nodes, id);
      nodes := nodes + [id];
      h := new SignalHandle(Some(id));
    }

    /** prepend: link a new node, with a fresh counter, at the head. */
    method Prepend(id: NodeId) returns (h: SignalHandle)
      requires Valid() && id !in counter
      modifies this
      ensures Valid() && nodes == [id] + old(nodes) && fresh(h) && h.node == Some(id)
      ensures id in counter && counter[id] != Removed && calls == old(calls)
      ensures old(current) != 0 ==> counter == old(counter)[id := old(current)]
                                     && current == (old(current) + 1) % CounterModulus
    {
      var c := NextCounter();
      counter := counter[id := c];
      forall i, j | 0 <= i < j < |[id] + nodes|
        ensures ([id] + nodes)[i] != ([id] + nodes)[j]
      {
        if i == 0 {
          assert nodes[j - 1] in nodes;
        }
      }
      nodes := [id] + nodes;
      h := new SignalHandle(Some(id));
    }

    /** free_node: unlink the node (fixing head and tail) and mark it removed. */
    method FreeNode(id: NodeId)
      requires Valid() && id in counter
      modifies this
      ensures Valid() && nodes == Unlink(old(nodes), id) && counter == old(counter)[id := Removed]
      ensures current == old(current) && calls == old(calls)
    {
      UnlinkKeepsNoDup(nodes, id);
      var r := Unlink(nodes, id);
      forall k | 0 <= k < |r| ensures r[k] in counter {
        assert r[k] in r;
      }
      nodes := r;
      counter := counter[id := Removed];
    }

    /** remove: false for an empty handle; otherwise the node is freed. */
    method Remove(h: SignalHandle) returns (ok: bool)
      requires Valid() && (h.node.Some? ==> h.node.value in counter)
      modifies this
      ensures Valid() && calls == old(calls) && current == old(current)
      ensures ok <==> h.node.Some?
      ensures ok ==> nodes == Unlink(old(nodes), h.node.value) && counter == old(counter)[h.node.value := Removed]
      ensures !ok ==> nodes == old(nodes) && counter == old(counter)
    {
      if h.node.None? {
        return false;
      }
      FreeNode(h.node.value);
      ok := true;
    }

    /** owns_handle: a live node that is in this signal's list. A node of
        another signal is never found in this list. */
    method OwnsHandle(h: SignalHandle) returns (owns: bool)
      requires Valid()
      ensures owns <==> h.node.Some? && h.node.value in nodes && counter[h.node.value] != Removed
      ensures h.node.Some? && h.node.value !in counter ==> !owns
    {
      if h.node.None? || (h.node.value in counter && counter[h.node.value] == Removed) {
        return false;
      }
      var i := 0;
      while i < |nodes| && nodes[i] != h.node.value
        invariant 0 <= i <= |nodes|
        invariant h.node.value !in nodes[..i]
      {
        assert nodes[..i + 1] == nodes[..i] + [nodes[i]];
        i := i + 1;
      }
      owns := i < |nodes|;
      if !owns {
        assert nodes[..i] == nodes;
      }
    }

    /** size: walk the list counting the nodes not marked removed. */
    method Size() returns (n: nat)
      requires Valid()
      ensures n == LiveCount(nodes, counter)
    {
      n := 0;
      var i := 0;
      while i < |nodes|
        invariant 0 <= i <= |nodes|
        invariant n == LiveCount(nodes[..i], counter)
      {
        LiveCountSnoc(nodes[..i], counter, nodes[i]);
        assert nodes[..i + 1] == nodes[..i] + [nodes[i]];
        if counter[nodes[i]] != Removed {
          n := n + 1;
        }
        i := i + 1;
      }
      assert nodes[..i] == nodes;
    }

    /** empty(): size() is 0. */
    method Empty() returns (b: bool)
      requires Valid()
      ensures b <==> LiveCount(nodes, counter) == 0
    {
      var n := Size();
      b := n == 0;
    }

    /** operator(): load the counter once, then walk the list invoking the
        eligible nodes and freeing the removed ones; returns how many were
        invoked. The slots themselves do nothing to the signal here. */
    method Invoke() returns (n: nat)
      requires Valid()
      modifies this
      ensures Valid() && current == old(current) && counter == old(counter)
      ensures calls == old(calls) + Invoked(old(nodes), old(counter), old(current))
      ensures n == |Invoked(old(nodes), old(counter), old(current))|
      ensures nodes == Kept(old(nodes), old(counter))
    {
      var start := current;
      var invoked, kept := Walk(nodes, counter, start);
      KeptKeepsNoDup(nodes, counter);
      KeptLength(nodes, counter);
      calls := calls + invoked;
      nodes := kept;
      n := |invoked|;
    }

    /** The move constructor: take over the other's list and counter; the
        other is left empty with its counter at 1. */
    constructor Move(other: Signal)
      requires other.Valid()
      modifies other
      ensures Valid() && nodes == old(other.nodes) && counter == old(other.counter) && current == old(other.current)
      ensures calls == []
      ensures other.nodes == [] && other.current == 1 && other.counter == old(other.counter)
    {
      nodes := other.nodes;
      counter := other.counter;
      current := other.current;
      calls := [];
      other.nodes := [];
      other.current := 1;
    }

    /** Move assignment: the old list is dropped, the other's list and
        counter taken over, and the other's counter reset to 1. */
    method MoveAssign(other: Signal)
      requires other != this && other.Valid()
      modifies this, other
      ensures Valid() && nodes == old(other.nodes) && current == old(other.current)
      ensures counter == old(counter) + old(other.counter)
      ensures other.nodes == [] && other.current == 1
    {
      nodes := other.nodes;
      counter := counter + other.counter;
      current := other.current;
      other.nodes := [];
      other.current := 1;
    }
  }

  lemma {:induction false} UnlinkKeepsNoDup(nodes: seq<NodeId>, x: NodeId)
    requires NoDup(nodes)
    ensures NoDup(Unlink(nodes, x))
  {
    if nodes != [] {
      UnlinkKeepsNoDup(nodes[1..], x);
      if nodes[0] != x {
        var r := Unlink(nodes[1..], x);
        assert nodes[0] !in r by {
          assert nodes[0] !in nodes[1..];
        }
        forall i, j | 0 <= i < j < |[nodes[0]] + r|
          ensures ([nodes[0]] + r)[i] != ([nodes[0]] + r)[j]
        {
          if i == 0 {
            assert r[j - 1] in r;
          }
        }
      }
    }
  }

  lemma {:induction false} KeptKeepsNoDup(nodes: seq<NodeId>, counter: map<NodeId, nat>)
    requires NoDup(nodes) && forall k :: 0 <= k < |nodes| ==> nodes[k] in counter
    ensures NoDup(Kept(nodes, counter))
  {
    if nodes != [] {
      var init := nodes[..|nodes| - 1];
      var last := nodes[|nodes| - 1];
      assert nodes == init + [last];
      assert last !in init by {
        forall k | 0 <= k < |init| ensures init[k] != last {
          assert init[k] == nodes[k];
        }
      }
      assert NoDup(init) by {
        forall i, j | 0 <= i < j < |init| ensures init[i] != init[j] {
          assert init[i] == nodes[i] && init[j] == nodes[j];
        }
      }
      KeptKeepsNoDup(init, counter);
      if counter[last] != Removed {
        NoDupSnoc(Kept(init, counter), last);
      }
    }
  }

  /** Removing a node leaves exactly one fewer live node when it was live
      and listed. */
  lemma {:induction false} UnlinkLiveCount(nodes: seq<NodeId>, counter: map<NodeId, nat>, x: NodeId)
    requires NoDup(nodes) && forall k :: 0 <= k < |nodes| ==> nodes[k] in counter
    requires x in counter
    ensures forall k :: 0 <= k < |Unlink(nodes, x)| ==> Unlink(nodes, x)[k] in counter[x := Removed]
    ensures LiveCount(Unlink(nodes, x), counter[x := Removed]) ==
              LiveCount(nodes, counter) - (if x in nodes && counter[x] != Removed then 1 else 0)
  {
    if nodes != [] {
      UnlinkLiveCount(nodes[1..], counter, x);
      if nodes[0] == x {
        assert x !in nodes[1..];
        LiveCountFrame(nodes[1..], counter, counter[x := Removed]);
      }
    }
  }

  /** An invocation that loaded the counter `start` and then saw a slot
      connected (by a handler, say) is handed that slot in the same walk:
      the slot's counter is `start` itself, which passes the test as
      written. */
  lemma AppendedDuringInvokeIsEligible(start: nat)
    requires 0 < start < CounterModulus
    ensures Eligible(start, start)
    ensures !EligibleIntended(start, start)
  {
  }

  /** The nodes an invocation calls with the intended test, in list order. */
  function InvokedIntended(nodes: seq<NodeId>, counter: map<NodeId, nat>, start: nat): (r: seq<NodeId>)
    requires forall k :: 0 <= k < |nodes| ==> nodes[k] in counter
    ensures |r| <= |nodes|
    ensures forall y :: y in r ==> y in nodes && EligibleIntended(start, counter[y])
  {
    if nodes == [] then []
    else
      var last := nodes[|nodes| - 1];
      InvokedIntended(nodes[..|nodes| - 1], counter, start) + (if EligibleIntended(start, counter[last]) then [last] else [])
  }

  /** Over nodes connected before the counter was loaded (counters below
      it), both tests call exactly the live nodes, in list order. */
  lemma {:induction false} EarlierNodesAreInvoked(before: seq<NodeId>, counter: map<NodeId, nat>, start: nat)
    requires forall k :: 0 <= k < |before| ==> before[k] in counter && counter[before[k]] < start
    ensures InvokedIntended(before, counter, start) == Kept(before, counter)
    ensures Invoked(before, counter, start) == Kept(before, counter)
  {
    if before != [] {
      EarlierNodesAreInvoked(before[..|before| - 1], counter, start);
    }
  }

  /** The intended test passes over every node connected after the
      counter was loaded (counters from it on). */
  lemma {:induction false} LaterNodesAreSkipped(before: seq<NodeId>, after: seq<NodeId>, counter: map<NodeId, nat>, start: nat)
    requires forall k :: 0 <= k < |before| ==> before[k] in counter
    requires forall k :: 0 <= k < |after| ==> after[k] in counter && counter[after[k]] >= start
    ensures InvokedIntended(before + after, counter, start) == InvokedIntended(before, counter, start)
    decreases |after|
  {
    if after == [] {
      assert before + after == before;
    } else {
      var init := after[..|after| - 1];
      assert (before + after)[..|before + after| - 1] == before + init;
      LaterNodesAreSkipped(before, init, counter, start);
    }
  }

  /** With the intended test, an invocation that loaded `start` while the
      list held `before` (each connected earlier, with a counter below
      `start`) and that meets slots `after` connected since (each with a
      counter from `start` on, as long as the counter has not wrapped)
      calls exactly the live nodes of `before`, in list order, and none of
      `after`. */
  lemma IntendedSeparatesBeforeAndAfter(before: seq<NodeId>, after: seq<NodeId>, counter: map<NodeId, nat>, start: nat)
    requires forall k :: 0 <= k < |before| ==> before[k] in counter && counter[before[k]] < start
    requires forall k :: 0 <= k < |after| ==> after[k] in counter && counter[after[k]] >= start
    ensures InvokedIntended(before + after, counter, start) == Kept(before, counter)
  {
    LaterNodesAreSkipped(before, after, counter, start);
    EarlierNodesAreInvoked(before, counter, start);
  }

  /** As written, the same invocation also calls a slot connected after
      the load when it received the loaded counter itself, the value the
      next connection gets. */
  lemma ConnectedAtLoadIsInvokedAsWritten(before: seq<NodeId>, x: NodeId, counter: map<NodeId, nat>, start: nat)
    requires forall k :: 0 <= k < |before| ==> before[k] in counter && counter[before[k]] < start
    requires x in counter && counter[x] == start && start != Removed
    ensures Invoked(before + [x], counter, start) == Kept(before, counter) + [x]
    ensures InvokedIntended(before + [x], counter, start) == Kept(before, counter)
  {
    assert (before + [x])[..|before + [x]| - 1] == before;
    EarlierNodesAreInvoked(before, counter, start);
  }

  /** The handle to a node: `valid` while the node is not marked removed. */
  class SignalHandle {
    var node: Option<NodeId>

    constructor (node: Option<NodeId>)
      ensures this.node == node
    {
      this.node := node;
    }

    /** valid(). */
    method IsValid(sig: Signal) returns (b: bool)
      requires node.Some? ==> node.value in sig.counter
      ensures b <==> node.Some? && sig.counter[node.value] != Removed
    {
      b := node.Some? && sig.counter[node.value] != Removed;
    }

    /** disconnect(): mark the node removed (it stays linked until a
        traversal or remove frees it) and drop the handle. */
    method Disconnect(sig: Signal)
      requires sig.Valid() && (node.Some? ==> node.value in sig.counter)
      modifies this, sig
      ensures node == None && sig.Valid()
      ensures sig.nodes == old(sig.nodes) && sig.current == old(sig.current) && sig.calls == old(sig.calls)
      ensures old(node).Some? ==> sig.counter == old(sig.counter)[old(node).value := Removed]
      ensures old(node).None? ==> sig.counter == old(sig.counter)
    {
      if node.Some? {
        sig.counter := sig.counter[node.value := Removed];
      }
      node := None;
    }
  }

  /** scoped_signal_handle: disconnects on destruction unless released. */
  class ScopedSignalHandle {
    const handle: SignalHandle

    constructor (h: SignalHandle)
      ensures handle == h
    {
      handle := h;
    }

    /** release(): forget the node without disconnecting. */
    method Release()
      modifies handle
      ensures handle.node == None
    {
      handle.node := None;
    }

    /** The destructor. */
    method Dispose(sig: Signal)
      requires sig.Valid() && (handle.node.Some? ==> handle.node.value in sig.counter)
      modifies handle, sig
      ensures handle.node == None && sig.Valid() && sig.nodes == old(sig.nodes)
      ensures sig.current == old(sig.current) && sig.calls == old(sig.calls)
      ensures old(handle.node).Some? ==> sig.counter == old(sig.counter)[old(handle.node).value := Removed]
      ensures old(handle.node).None? ==> sig.counter == old(sig.counter)
    {
      handle.Disconnect(sig);
    }
  }

  /** test/signal.cpp:41-56: an empty handle is not owned; a connected
      slot is owned and counts; after remove it is neither; a slot
      connected again and then disconnected through its handle is neither. */
  method OwnsHandleScenario() returns (ownedNone: bool, ownedFirst: bool, emptyFirst: bool,
                                       ownedAfterRemove: bool, emptyAfterRemove: bool,
                                       ownedSecond: bool, ownedAfterDisconnect: bool, emptyAfterDisconnect: bool)
    ensures !ownedNone && ownedFirst && !emptyFirst && !ownedAfterRemove && emptyAfterRemove
    ensures ownedSecond && !ownedAfterDisconnect && emptyAfterDisconnect
  {
    var sig;
    sig, ownedNone, ownedFirst, emptyFirst, ownedAfterRemove, emptyAfterRemove := OwnsThenRemove();
    ownedSecond, ownedAfterDisconnect, emptyAfterDisconnect := OwnsThenDisconnect(sig);
  }

  /** The first half of OwnsHandleScenario: connect, then remove. */
  method OwnsThenRemove() returns (sig: Signal, ownedNone: bool, ownedFirst: bool, emptyFirst: bool,
                                   ownedAfterRemove: bool, emptyAfterRemove: bool)
    ensures fresh(sig) && sig.Valid() && sig.nodes == [] && sig.counter == map[1 := 0] && sig.current == 2
    ensures !ownedNone && ownedFirst && !emptyFirst && !ownedAfterRemove && emptyAfterRemove
  {
    sig := new Signal();
    var none := new SignalHandle(None);
    ownedNone := sig.OwnsHandle(none);
    var con := sig.Append(1);
    assert sig.nodes == [1] && sig.counter == map[1 := 1];
    ownedFirst := sig.OwnsHandle(con);
    emptyFirst := sig.Empty();
    ownedAfterRemove, emptyAfterRemove := RemoveThenAsk(sig, con);
  }

  /** Removing the only slot through its handle: afterwards the handle is
      not owned and the signal is empty. */
  method RemoveThenAsk(sig: Signal, con: SignalHandle) returns (owned: bool, empty: bool)
    requires sig.Valid() && sig.nodes == [1] && sig.counter == map[1 := 1] && sig.current == 2
    requires con.node == Some(1)
    modifies sig
    ensures sig.Valid() && sig.nodes == [] && sig.counter == map[1 := 0] && sig.current == 2
    ensures !owned && empty
  {
    var _ := sig.Remove(con);
    assert sig.nodes == [] && sig.counter == map[1 := 0] && sig.current == 2;
    owned := sig.OwnsHandle(con);
    empty := sig.Empty();
  }

  /** The second half: connect again, then disconnect through the handle. */
  method OwnsThenDisconnect(sig: Signal) returns (ownedSecond: bool, ownedAfterDisconnect: bool, emptyAfterDisconnect: bool)
    requires sig.Valid() && sig.nodes == [] && sig.counter == map[1 := 0] && sig.current == 2
    modifies sig
    ensures ownedSecond && !ownedAfterDisconnect && emptyAfterDisconnect
  {
    var con := sig.Append(2);
    assert sig.nodes == [2] && sig.counter == map[1 := 0, 2 := 2];
    ownedSecond := sig.OwnsHandle(con);
    con.Disconnect(sig);
    assert sig.counter == map[1 := 0, 2 := 0];
    ownedAfterDisconnect := sig.OwnsHandle(con);
    emptyAfterDisconnect := sig.Empty();
  }

  /** test/signal.cpp:76-91: a scoped handle disconnects its slot when it
      goes away, unless it was released first. */
  method ScopedHandleScenario() returns (ownedScoped: bool, emptyAfterScope: bool, emptyAfterRelease: bool)
    ensures ownedScoped && emptyAfterScope && !emptyAfterRelease
  {
    var sig := new Signal();
    var h1 := sig.Append(1);
    var con1 := new ScopedSignalHandle(h1);
    ownedScoped := sig.OwnsHandle(con1.handle);
    con1.Dispose(sig);
    assert sig.nodes == [1] && sig.counter == map[1 := 0] && sig.current == 2;
    emptyAfterScope := sig.Empty();
    var h2 := sig.Append(2);
    var con2 := new ScopedSignalHandle(h2);
    con2.Release();
    con2.Dispose(sig);
    assert sig.nodes == [1, 2] && sig.counter == map[1 := 0, 2 := 2];
    assert [1, 2][1..] == [2];
    emptyAfterRelease := sig.Empty();
  }

  /** test/signal.cpp:5-39: a connected slot is invoked once per call;
      once removed, calls invoke nothing. */
  method InvokeScenario() returns (first: nat, afterRemove: nat)
    ensures first == 1 && afterRemove == 0
  {
    var sig := new Signal();
    var con := sig.Append(1);
    assert sig.nodes == [1] && sig.counter == map[1 := 1] && sig.current == 2;
    assert [1][..0] == [];
    first := sig.Invoke();
    var _ := sig.Remove(con);
    assert sig.nodes == [];
    afterRemove := sig.Invoke();
  }

  /** As written, a slot connected by a handler while the signal is being
      invoked is itself invoked by that same call: with one slot connected
      beforehand, the call that loaded the counter walks [first, new] and
      invokes both, where the intended test invokes only the first. */
  method ConnectDuringInvokeAsWritten() returns (n: nat, firstIntended: bool, newIntended: bool)
    ensures n == 2 && firstIntended && !newIntended
  {
    var sig := new Signal();
    var _ := sig.Append(1);
    var start := sig.current;
    var _ := sig.Append(2);
    assert sig.nodes == [1, 2] && sig.counter == map[1 := 1, 2 := 2] && start == 2;
    assert [1, 2][..1] == [1] && [1][..0] == [];
    var invoked, _ := Walk(sig.nodes, sig.counter, start);
    n := |invoked|;
    firstIntended := EligibleIntended(start, sig.counter[1]);
    newIntended := EligibleIntended(start, sig.counter[2]);
  }

  /** The mapping without event `e`: one key fewer, the rest unchanged. */
  function Erase(m: map<nat, Signal>, e: nat): (r: map<nat, Signal>)
    requires e in m
    ensures r.Keys == m.Keys - {e} && |r.Keys| == |m.Keys| - 1
    ensures forall k :: k in r ==> r[k] == m[k]
  {
    m - {e}
  }

  /** signal_manager: one signal per event, created on first use. */
  class SignalManager {
    var mapping: map<nat, Signal>

    constructor ()
      ensures mapping == map[]
    {
      mapping := map[];
    }

    /** append(event, fn): find or create the event's signal, append there. */
    method Append(event: nat, id: NodeId) returns (h: SignalHandle)
      requires event in mapping ==> mapping[event].Valid() && id !in mapping[event].counter
      modifies this, if event in mapping then {mapping[event]} else {}
      ensures event in mapping && mapping[event].Valid() && mapping[event].nodes == (if event in old(mapping) then old(mapping[event].nodes) else []) + [id]
      ensures id in mapping[event].counter && mapping[event].counter[id] != Removed
      ensures event in old(mapping) && old(mapping[event].current) != 0 ==>
                mapping[event].counter == old(mapping[event].counter)[id := old(mapping[event].current)]
                && mapping[event].current == (old(mapping[event].current) + 1) % CounterModulus
      ensures event !in old(mapping) ==> mapping[event].counter == map[id := 1] && mapping[event].current == 2
      ensures event in old(mapping) ==> mapping == old(mapping)
      ensures event !in old(mapping) ==> mapping.Keys == old(mapping).Keys + {event} && fresh(mapping[event])
      ensures fresh(h) && h.node == Some(id)
    {
      if event !in mapping {
        var s := new Signal();
        mapping := mapping[event := s];
      }
      h := mapping[event].Append(id);
    }

    /** prepend(event, fn). */
    method Prepend(event: nat, id: NodeId) returns (h: SignalHandle)
      requires event in mapping ==> mapping[event].Valid() && id !in mapping[event].counter
      modifies this, if event in mapping then {mapping[event]} else {}
      ensures event in mapping && mapping[event].Valid() && mapping[event].nodes == [id] + (if event in old(mapping) then old(mapping[event].nodes) else [])
      ensures event in old(mapping) ==> mapping == old(mapping)
      ensures event !in old(mapping) ==> mapping.Keys == old(mapping).Keys + {event} && fresh(mapping[event])
      ensures fresh(h) && h.node == Some(id)
    {
      if event !in mapping {
        var s := new Signal();
        mapping := mapping[event := s];
      }
      h := mapping[event].Prepend(id);
    }

    /** remove(event, h): false for an unknown event or an empty handle. */
    method Remove(event: nat, h: SignalHandle) returns (ok: bool)
      requires event in mapping ==> mapping[event].Valid() && (h.node.Some? ==> h.node.value in mapping[event].counter)
      modifies if event in mapping then {mapping[event]} else {}
      ensures ok <==> event in mapping && h.node.Some?
      ensures event in mapping ==> mapping[event].Valid() && mapping[event].current == old(mapping[event].current)
      ensures !ok && event in mapping ==> mapping[event].nodes == old(mapping[event].nodes) && mapping[event].counter == old(mapping[event].counter)
      ensures ok ==> mapping[event].nodes == Unlink(old(mapping[event].nodes), h.node.value)
                     && mapping[event].counter == old(mapping[event].counter)[h.node.value := Removed]
    {
      if event !in mapping {
        return false;
      }
      ok := mapping[event].Remove(h);
    }

    /** owns_handle(event, h): false for an unknown event. */
    method OwnsHandle(event: nat, h: SignalHandle) returns (owns: bool)
      requires event in mapping ==> mapping[event].Valid()
      ensures owns <==> event in mapping && h.node.Some? && h.node.value in mapping[event].nodes
                        && mapping[event].counter[h.node.value] != Removed
    {
      if event !in mapping {
        return false;
      }
      owns := mapping[event].OwnsHandle(h);
    }

    /** invoke(event): 0 for an event without a signal. */
    method Invoke(event: nat) returns (n: nat)
      requires event in mapping ==> mapping[event].Valid()
      modifies if event in mapping then {mapping[event]} else {}
      ensures event !in mapping ==> n == 0
      ensures event in mapping ==> n == |Invoked(old(mapping[event].nodes), old(mapping[event].counter), old(mapping[event].current))|
      ensures event in mapping ==> mapping[event].Valid() && mapping[event].nodes == Kept(old(mapping[event].nodes), old(mapping[event].counter))
                                   && mapping[event].counter == old(mapping[event].counter) && mapping[event].current == old(mapping[event].current)
    {
      if event !in mapping {
        return 0;
      }
      n := mapping[event].Invoke();
    }

    /** shrink_to_fit: erase every event whose signal has no live slot;
        returns how many were erased. */
    method ShrinkToFit() returns (erased: nat)
      requires forall e :: e in mapping ==> mapping[e].Valid()
      modifies this
      ensures mapping.Keys <= old(mapping).Keys
      ensures forall e :: e in mapping ==> mapping[e] == old(mapping)[e]
      ensures forall e :: e in old(mapping) ==> (e !in mapping <==> LiveSlots(old(mapping)[e]) == 0)
      ensures erased == |old(mapping).Keys| - |mapping.Keys|
    {
      ghost var m0 := mapping;
      var remaining := mapping.Keys;
      erased := 0;
      while remaining != {}
        invariant remaining <= mapping.Keys <= m0.Keys
        invariant forall e :: e in mapping ==> mapping[e] == m0[e]
        invariant forall e :: e in m0 && e !in remaining ==> (e !in mapping <==> LiveSlots(m0[e]) == 0)
        invariant erased + |mapping.Keys| == |m0.Keys|
        decreases |remaining|
      {
        var e :| e in remaining;
        var sz := mapping[e].Size();
        if sz == 0 {
          mapping := Erase(mapping, e);
          erased := erased + 1;
        }
        remaining := remaining - {e};
      }
    }
  }

  /** test/signal.cpp:147-160: a slot appended for event 10 is owned by 10
      and not by 11; invoking 11 calls nothing, invoking 10 calls it. */
  method ManagerRoutingScenario() returns (owns10: bool, owns11: bool, n11: nat, n10: nat)
    ensures owns10 && !owns11 && n11 == 0 && n10 == 1
  {
    var mgr := new SignalManager();
    var hdl := mgr.Append(10, 1);
    assert mgr.mapping[10].nodes == [1] && mgr.mapping[10].counter == map[1 := 1] && mgr.mapping[10].current == 2;
    owns10 := mgr.OwnsHandle(10, hdl);
    owns11 := mgr.OwnsHandle(11, hdl);
    n11 := mgr.Invoke(11);
    assert [1][..0] == [];
    n10 := mgr.Invoke(10);
  }

  /** test/signal.cpp:162-175: after remove, invoking the event calls
      nothing; a slot appended again is called; after its handle
      disconnects, invoking calls nothing again. */
  method ManagerRemoveScenario() returns (afterRemove: nat, second: nat, afterDisconnect: nat)
    ensures afterRemove == 0 && second == 1 && afterDisconnect == 0
  {
    var mgr, sig;
    mgr, sig, afterRemove := AppendRemoveInvoke();
    second, afterDisconnect := AppendDisconnectInvoke(mgr, sig);
  }

  /** The first half of ManagerRemoveScenario: append, remove, invoke. */
  method AppendRemoveInvoke() returns (mgr: SignalManager, sig: Signal, afterRemove: nat)
    ensures fresh(mgr) && fresh(sig) && mgr.mapping == map[10 := sig] && sig.Valid()
    ensures sig.nodes == [] && sig.counter == map[1 := 0] && sig.current == 2
    ensures afterRemove == 0
  {
    mgr := new SignalManager();
    var hdl := mgr.Append(10, 1);
    sig := mgr.mapping[10];
    var _ := mgr.Remove(10, hdl);
    assert sig.nodes == [] && sig.counter == map[1 := 0] && sig.current == 2;
    afterRemove := mgr.Invoke(10);
  }

  /** The second half: append again, invoke, disconnect, invoke. */
  method AppendDisconnectInvoke(mgr: SignalManager, sig: Signal) returns (second: nat, afterDisconnect: nat)
    requires mgr.mapping == map[10 := sig] && sig.Valid()
    requires sig.nodes == [] && sig.counter == map[1 := 0] && sig.current == 2
    modifies mgr, sig
    ensures second == 1 && afterDisconnect == 0
  {
    var hdl := mgr.Append(10, 2);
    assert sig.nodes == [2] && sig.counter == map[1 := 0, 2 := 2] && sig.current == 3;
    assert [2][..0] == [];
    second := mgr.Invoke(10);
    hdl.Disconnect(sig);
    assert sig.nodes == [2] && sig.counter == map[1 := 0, 2 := 0];
    afterDisconnect := mgr.Invoke(10);
  }

  /** The number of live slots of a signal. */
  ghost function LiveSlots(s: Signal): (r: nat)
    reads s
    requires s.Valid()
  {
    LiveCount(s.nodes, s.counter)
  }
}
