/** The bounded multi-producer multi-consumer queue of
    include/asyncpp/queue.h: a buffer of at most `maxSize` items, a default
    dispatcher, a list of consumers suspended in pop and a list of producers
    suspended in push (each producer still holding its value). A resumed
    consumer receives an optional value, a resumed producer a success flag. */
module Queue {
  import opened Common

  /** A suspended consumer. `own` is already the dispatcher it resumes on:
      its own one, or the queue's default copied in at suspension. */
  datatype PopWaiter = PopWaiter(handle: Handle, own: Option<Dispatcher>)
  datatype PushWaiter<T> = PushWaiter(handle: Handle, own: Option<Dispatcher>, value: T)

  datatype Q<T> = Q(buffer: seq<T>, maxSize: nat, dispatcher: Option<Dispatcher>,
                    pops: seq<PopWaiter>, pushes: seq<PushWaiter<T>>)

  /** The buffer never exceeds its bound; consumers wait only on an empty
      buffer and producers only on a full one. */
  predicate Inv<T>(q: Q<T>)
  {
    |q.buffer| <= q.maxSize
    && (q.pops != [] ==> q.buffer == [])
    && (q.pushes != [] ==> |q.buffer| == q.maxSize)
  }

  function PushValues<T>(ws: seq<PushWaiter<T>>): (vs: seq<T>)
    ensures |vs| == |ws| && forall i :: 0 <= i < |ws| ==> vs[i] == ws[i].value
  {
    if ws == [] then [] else [ws[0].value] + PushValues(ws[1..])
  }

  /** Every value the queue has accepted and not yet handed out, in the
      order consumers will receive them: the buffer, then the values of the
      suspended producers. */
  function Pending<T>(q: Q<T>): (r: seq<T>)
  {
    q.buffer + PushValues(q.pushes)
  }

  function PopResumption<T>(w: PopWaiter, v: Option<T>): (r: Resumption<Option<T>>)
  {
    Resumption(w.handle, v, ResumeTarget(w.own, None))
  }

  function PushResumption<T>(w: PushWaiter<T>, ok: bool): (r: Resumption<bool>)
  {
    Resumption(w.handle, ok, ResumeTarget(w.own, None))
  }

  /** The resumptions that fail consumers `ws` (they receive none). */
  function FailPops<T>(ws: seq<PopWaiter>): (log: seq<Resumption<Option<T>>>)
    ensures |log| == |ws| && forall i :: 0 <= i < |ws| ==> log[i] == PopResumption(ws[i], None)
  {
    if ws == [] then [] else [PopResumption(ws[0], None)] + FailPops(ws[1..])
  }

  /** The resumptions that fail producers `ws` (they receive false). */
  function FailPushes<T>(ws: seq<PushWaiter<T>>): (log: seq<Resumption<bool>>)
    ensures |log| == |ws| && forall i :: 0 <= i < |ws| ==> log[i] == PushResumption(ws[i], false)
  {
    if ws == [] then [] else [PushResumption(ws[0], false)] + FailPushes(ws[1..])
  }

  /** queue::size: buffered items plus suspended producers. */
  function SizeOf<T>(q: Q<T>): (r: nat)
  {
    |q.buffer| + |q.pushes|
  }

  /** queue::empty: holds when pop would suspend, i.e. nothing is buffered
      and no producer is suspended. */
  predicate IsEmpty<T>(q: Q<T>)
  {
    q.buffer == [] && q.pushes == []
  }

  lemma EmptyIffSizeZero<T>(q: Q<T>)
    ensures IsEmpty(q) <==> SizeOf(q) == 0
    ensures IsEmpty(q) <==> Pending(q) == []
  {
  }

  /** queue::try_push and queue::try_emplace: false with no change when the
      buffer is at its bound; otherwise true, handing the value to the oldest
      consumer if one waits and appending it to the buffer if not. */
  function TryPushStep<T>(q: Q<T>, v: T): (r: (bool, Q<T>, seq<Resumption<Option<T>>>))
    requires Inv(q)
    ensures Inv(r.1) && r.1.pushes == q.pushes && r.1.maxSize == q.maxSize
    ensures r.0 <==> |q.buffer| < q.maxSize
    ensures !r.0 ==> r.1 == q && r.2 == []
    ensures r.0 && q.pops != [] ==> r.1 == q.(pops := q.pops[1..]) && r.2 == [PopResumption(q.pops[0], Some(v))]
    ensures r.0 && q.pops == [] ==> Pending(r.1) == Pending(q) + [v] && r.1.pops == [] && r.2 == []
  {
    if |q.buffer| >= q.maxSize then (false, q, [])
    else if q.pops != [] then (true, q.(pops := q.pops[1..]), [PopResumption(q.pops[0], Some(v))])
    else (true, q.(buffer := q.buffer + [v]), [])
  }

  /** queue::try_pop (and the ready path of pop's await_ready): none on an
      empty buffer; otherwise the oldest pending value. If a producer is
      suspended, its value moves to the back of the buffer and it resumes
      with true. */
  function TryPopStep<T>(q: Q<T>): (r: (Option<T>, Q<T>, seq<Resumption<bool>>))
    requires Inv(q)
    ensures Inv(r.1) && r.1.pops == q.pops && r.1.maxSize == q.maxSize
    ensures r.0.Some? <==> q.buffer != []
    ensures r.0.None? ==> r.1 == q && r.2 == []
    ensures r.0.Some? ==> r.0.value == Pending(q)[0] && Pending(r.1) == Pending(q)[1..]
    ensures r.0.Some? && q.pushes != [] ==> r.2 == [PushResumption(q.pushes[0], true)] && |r.1.buffer| == |q.buffer|
    ensures q.pushes == [] ==> r.2 == []
  {
    if q.buffer == [] then (None, q, [])
    else if q.pushes == [] then (Some(q.buffer[0]), q.(buffer := q.buffer[1..]), [])
    else
      var w := q.pushes[0];
      assert Pending(q)[1..] == (q.buffer[1..] + [w.value]) + PushValues(q.pushes[1..]);
      (Some(q.buffer[0]), q.(buffer := q.buffer[1..] + [w.value], pushes := q.pushes[1..]), [PushResumption(w, true)])
  }

  /** pop_awaiter::await_suspend after await_ready found the buffer empty:
      the consumer joins the tail, taking the queue's dispatcher if it has
      none of its own. */
  function PopSuspendStep<T>(q: Q<T>, h: Handle, own: Option<Dispatcher>): (r: Q<T>)
    requires Inv(q) && q.buffer == []
    ensures Inv(r) && Pending(r) == Pending(q)
    ensures r.pops == q.pops + [PopWaiter(h, if own.Some? then own else q.dispatcher)]
  {
    q.(pops := q.pops + [PopWaiter(h, if own.Some? then own else q.dispatcher)])
  }

  /** push_awaiter::await_ready: a waiting consumer takes the value directly
      (regardless of the bound); else the value is buffered if there is room;
      else the producer must suspend. */
  function PushReadyStep<T>(q: Q<T>, v: T): (r: (bool, Q<T>, seq<Resumption<Option<T>>>))
    requires Inv(q)
    ensures Inv(r.1) && r.1.pushes == q.pushes
    ensures r.0 <==> q.pops != [] || |q.buffer| < q.maxSize
    ensures !r.0 ==> r.1 == q && r.2 == []
    ensures q.pops != [] ==> r.1 == q.(pops := q.pops[1..]) && r.2 == [PopResumption(q.pops[0], Some(v))]
    ensures r.0 && q.pops == [] ==> Pending(r.1) == Pending(q) + [v] && r.2 == []
  {
    if q.pops != [] then (true, q.(pops := q.pops[1..]), [PopResumption(q.pops[0], Some(v))])
    else if |q.buffer| < q.maxSize then (true, q.(buffer := q.buffer + [v]), [])
    else (false, q, [])
  }

  /** push_awaiter::await_suspend after await_ready returned false: the
      producer joins the tail with its value. */
  function PushSuspendStep<T>(q: Q<T>, h: Handle, own: Option<Dispatcher>, v: T): (r: Q<T>)
    requires Inv(q) && q.pops == [] && |q.buffer| >= q.maxSize
    ensures Inv(r) && Pending(r) == Pending(q) + [v] && SizeOf(r) == SizeOf(q) + 1
  {
    var w := PushWaiter(h, if own.Some? then own else q.dispatcher, v);
    assert PushValues(q.pushes + [w]) == PushValues(q.pushes) + [v];
    q.(pushes := q.pushes + [w])
  }

  /** queue::clear: the buffer is emptied and every suspended producer is
      resumed with false; suspended consumers stay. */
  function ClearStep<T>(q: Q<T>): (r: (Q<T>, seq<Resumption<bool>>))
    requires Inv(q)
    ensures Inv(r.0) && SizeOf(r.0) == 0 && IsEmpty(r.0)
    ensures r.0.pops == q.pops && r.0.maxSize == q.maxSize && r.0.dispatcher == q.dispatcher
    ensures r.1 == FailPushes(q.pushes)
  {
    (q.(buffer := [], pushes := []), FailPushes(q.pushes))
  }

  /** Move assignment `target = move(source)`: the target takes over the
      source's buffer, bound, dispatcher and both lists; the target's former
      consumers are resumed with none and its former producers with false.
      The source is left with no waiter and an empty buffer. */
  function MoveAssignStep<T>(target: Q<T>, source: Q<T>)
    : (r: (Q<T>, Q<T>, seq<Resumption<Option<T>>>, seq<Resumption<bool>>))
    requires Inv(target) && Inv(source)
    ensures Inv(r.0) && Inv(r.1)
    ensures r.0 == source
    ensures r.1.pops == [] && r.1.pushes == [] && r.1.buffer == []
    ensures r.2 == FailPops(target.pops) && r.3 == FailPushes(target.pushes)
  {
    (source, source.(buffer := [], pops := [], pushes := []), FailPops(target.pops), FailPushes(target.pushes))
  }

  /** `k` successive try_pop calls. */
  function PopMany<T>(q: Q<T>, k: nat): (r: (seq<T>, Q<T>))
    requires Inv(q)
    decreases k
  {
    if k == 0 then ([], q)
    else
      var (v, q', _) := TryPopStep(q);
      var (vs, q'') := PopMany(q', k - 1);
      (if v.Some? then [v.value] + vs else vs, q'')
  }

  /** FIFO: with a bound of at least one, successive pops hand out the
      pending values (buffered ones, then those of suspended producers) in
      the order the queue accepted them. */
  lemma {:induction false} PopManyInOrder<T>(q: Q<T>, k: nat)
    requires Inv(q) && q.maxSize >= 1 && k <= |Pending(q)|
    ensures PopMany(q, k).0 == Pending(q)[..k]
    ensures Pending(PopMany(q, k).1) == Pending(q)[k..]
    decreases k
  {
    if k > 0 {
      assert q.buffer != [];
      var q' := TryPopStep(q).1;
      PopManyInOrder(q', k - 1);
      assert Pending(q)[..k] == [Pending(q)[0]] + Pending(q')[..k - 1];
    }
  }

  /** Producers `vs` push one after another into a queue with no consumer
      waiting, each through await_ready and, if full, await_suspend. */
  function PushAll<T>(q: Q<T>, vs: seq<T>, hs: Handle): (r: Q<T>)
    requires Inv(q) && q.pops == []
    ensures Inv(r) && r.pops == [] && r.maxSize == q.maxSize
    decreases |vs|
  {
    if vs == [] then q
    else
      var (ready, q', _) := PushReadyStep(q, vs[0]);
      var q'' := if ready then q' else PushSuspendStep(q, hs, None, vs[0]);
      PushAll(q'', vs[1..], hs + 1)
  }

  lemma {:induction false} PushAllAppends<T>(q: Q<T>, vs: seq<T>, hs: Handle)
    requires Inv(q) && q.pops == []
    ensures Pending(PushAll(q, vs, hs)) == Pending(q) + vs
    decreases |vs|
  {
    if vs != [] {
      var (ready, q', _) := PushReadyStep(q, vs[0]);
      var q'' := if ready then q' else PushSuspendStep(q, hs, None, vs[0]);
      PushAllAppends(q'', vs[1..], hs + 1);
      assert [vs[0]] + vs[1..] == vs;
    }
  }

  /** Whatever the bound (at least one), values pushed into an empty queue
      come out in the order they were pushed, including those whose
      producers had to suspend (test/queue.cpp:36-71). */
  lemma PushesPopInOrder<T>(maxSize: nat, vs: seq<T>)
    requires maxSize >= 1
    ensures var q := PushAll(Q([], maxSize, None, [], []), vs, 0);
            |Pending(q)| == |vs| && PopMany(q, |vs|).0 == vs
  {
    var q0: Q<T> := Q([], maxSize, None, [], []);
    PushAllAppends(q0, vs, 0);
    var q := PushAll(q0, vs, 0);
    PopManyInOrder(q, |vs|);
    assert Pending(q)[..|vs|] == vs;
  }

  // ---------------------------------------------------------------------
  // No awaiter is resumed twice

  /** The handles of suspended consumers, in list order. */
  function PopHandles(ws: seq<PopWaiter>): (hs: seq<Handle>)
    ensures |hs| == |ws| && forall i :: 0 <= i < |ws| ==> hs[i] == ws[i].handle
  {
    if ws == [] then [] else [ws[0].handle] + PopHandles(ws[1..])
  }

  /** The handles of suspended producers, in list order. */
  function PushHandles<T>(ws: seq<PushWaiter<T>>): (hs: seq<Handle>)
    ensures |hs| == |ws| && forall i :: 0 <= i < |ws| ==> hs[i] == ws[i].handle
  {
    if ws == [] then [] else [ws[0].handle] + PushHandles(ws[1..])
  }

  /** Every awaiter a queue has resumed or holds: resumed consumers,
      resumed producers, then the waiting consumers and producers. */
  function Seen<T>(popLog: seq<Resumption<Option<T>>>, pushLog: seq<Resumption<bool>>,
                   pops: seq<PopWaiter>, pushes: seq<PushWaiter<T>>): (hs: seq<Handle>)
    ensures |hs| == |popLog| + |pushLog| + |pops| + |pushes|
  {
    Handles(popLog) + Handles(pushLog) + PopHandles(pops) + PushHandles(pushes)
  }

  /** The oldest consumer moves from its list to the end of the pop log. */
  lemma TakePopKeepsNoDup<T>(pl: seq<Resumption<Option<T>>>, sl: seq<Resumption<bool>>,
                             ps: seq<PopWaiter>, ss: seq<PushWaiter<T>>, v: Option<T>)
    requires ps != [] && NoDup(Seen(pl, sl, ps, ss))
    ensures NoDup(Seen(pl + [PopResumption(ps[0], v)], sl, ps[1..], ss))
  {
    var a, b, c, d := Handles(pl), Handles(sl), [ps[0].handle], PopHandles(ps[1..]) + PushHandles(ss);
    assert PopHandles(ps) == c + PopHandles(ps[1..]);
    assert Seen(pl, sl, ps, ss) == a + b + c + d;
    NoDupSwap(a, b, c, d);
    HandlesAppend(pl, [PopResumption(ps[0], v)]);
    assert Seen(pl + [PopResumption(ps[0], v)], sl, ps[1..], ss) == a + c + b + d;
  }

  /** The oldest producer moves from its list to the end of the push log. */
  lemma TakePushKeepsNoDup<T>(pl: seq<Resumption<Option<T>>>, sl: seq<Resumption<bool>>,
                              ps: seq<PopWaiter>, ss: seq<PushWaiter<T>>)
    requires ss != [] && NoDup(Seen(pl, sl, ps, ss))
    ensures NoDup(Seen(pl, sl + [PushResumption(ss[0], true)], ps, ss[1..]))
  {
    var a, b, c, d := Handles(pl) + Handles(sl), PopHandles(ps), [ss[0].handle], PushHandles(ss[1..]);
    assert PushHandles(ss) == c + d;
    assert Seen(pl, sl, ps, ss) == a + b + c + d;
    NoDupSwap(a, b, c, d);
    HandlesAppend(sl, [PushResumption(ss[0], true)]);
    assert Seen(pl, sl + [PushResumption(ss[0], true)], ps, ss[1..]) == a + c + b + d;
  }

  lemma FailPopsHandles<T>(ws: seq<PopWaiter>)
    ensures Handles(FailPops<T>(ws)) == PopHandles(ws)
  {
  }

  lemma FailPushesHandles<T>(ws: seq<PushWaiter<T>>)
    ensures Handles(FailPushes(ws)) == PushHandles(ws)
  {
  }

  /** The awaiters after clear, as blocks of those before it. */
  lemma SeenAfterClear<T>(pl: seq<Resumption<Option<T>>>, sl: seq<Resumption<bool>>,
                          ps: seq<PopWaiter>, ss: seq<PushWaiter<T>>)
    ensures Seen(pl, sl, ps, ss) == (Handles(pl) + Handles(sl)) + PopHandles(ps) + PushHandles(ss) + []
    ensures Seen(pl, sl + FailPushes(ss), ps, []) == (Handles(pl) + Handles(sl)) + PushHandles(ss) + PopHandles(ps) + []
  {
    var a, b, c := Handles(pl) + Handles(sl), PopHandles(ps), PushHandles(ss);
    AppendEmpty(a + b + c);
    HandlesAppend(sl, FailPushes(ss));
    FailPushesHandles(ss);
    AppendAssoc(Handles(pl), Handles(sl), c);
    AppendEmpty(a + c + b);
  }

  /** clear moves every producer to the push log. */
  lemma ClearKeepsNoDup<T>(pl: seq<Resumption<Option<T>>>, sl: seq<Resumption<bool>>,
                           ps: seq<PopWaiter>, ss: seq<PushWaiter<T>>)
    requires NoDup(Seen(pl, sl, ps, ss))
    ensures NoDup(Seen(pl, sl + FailPushes(ss), ps, []))
  {
    SeenAfterClear(pl, sl, ps, ss);
    NoDupSwap(Handles(pl) + Handles(sl), PopHandles(ps), PushHandles(ss), []);
  }

  /** A fresh consumer joins the tail of the consumer list. */
  lemma PopArrivesKeepsNoDup<T>(pl: seq<Resumption<Option<T>>>, sl: seq<Resumption<bool>>,
                                ps: seq<PopWaiter>, ss: seq<PushWaiter<T>>, w: PopWaiter)
    requires NoDup(Seen(pl, sl, ps, ss)) && w.handle !in Seen(pl, sl, ps, ss)
    ensures NoDup(Seen(pl, sl, ps + [w], ss))
  {
    var a, b, c, d := Handles(pl) + Handles(sl), PopHandles(ps), PushHandles(ss), [w.handle];
    assert Seen(pl, sl, ps, ss) == a + b + c;
    NoDupSnoc(a + b + c, w.handle);
    NoDupSwap(a + b, c, d, []);
    assert PopHandles(ps + [w]) == b + d;
    assert Seen(pl, sl, ps + [w], ss) == a + b + d + c + [];
  }

  /** A fresh producer joins the tail of the producer list. */
  lemma PushArrivesKeepsNoDup<T>(pl: seq<Resumption<Option<T>>>, sl: seq<Resumption<bool>>,
                                 ps: seq<PopWaiter>, ss: seq<PushWaiter<T>>, w: PushWaiter<T>)
    requires NoDup(Seen(pl, sl, ps, ss)) && w.handle !in Seen(pl, sl, ps, ss)
    ensures NoDup(Seen(pl, sl, ps, ss + [w]))
  {
    assert PushHandles(ss + [w]) == PushHandles(ss) + [w.handle];
    assert Seen(pl, sl, ps, ss + [w]) == Seen(pl, sl, ps, ss) + [w.handle];
    NoDupSnoc(Seen(pl, sl, ps, ss), w.handle);
  }

  /** The target's awaiters after a move assignment, as blocks of those
      before it and the source's waiters. */
  lemma SeenAfterMove<T>(pl: seq<Resumption<Option<T>>>, sl: seq<Resumption<bool>>,
                         ps: seq<PopWaiter>, ss: seq<PushWaiter<T>>,
                         ops: seq<PopWaiter>, oss: seq<PushWaiter<T>>)
    ensures Seen(pl + FailPops(ps), sl + FailPushes(ss), ops, oss)
            == (Handles(pl) + PopHandles(ps) + Handles(sl) + PushHandles(ss)) + (PopHandles(ops) + PushHandles(oss))
  {
    var a, b, c, d := Handles(pl), Handles(sl), PopHandles(ps), PushHandles(ss);
    var e, f := PopHandles(ops), PushHandles(oss);
    HandlesAppend(pl, FailPops<T>(ps));
    HandlesAppend(sl, FailPushes(ss));
    FailPopsHandles<T>(ps);
    FailPushesHandles(ss);
    AppendAssoc(a + c, b, d);
    AppendAssoc(a + c + b + d, e, f);
  }

  /** Move assignment fails the target's own waiters into its logs and takes
      over the source's waiters, which are awaiters the target never saw. */
  lemma MoveKeepsNoDup<T>(pl: seq<Resumption<Option<T>>>, sl: seq<Resumption<bool>>,
                          ps: seq<PopWaiter>, ss: seq<PushWaiter<T>>,
                          ops: seq<PopWaiter>, oss: seq<PushWaiter<T>>)
    requires NoDup(Seen(pl, sl, ps, ss)) && NoDup(PopHandles(ops) + PushHandles(oss))
    requires forall h :: h in PopHandles(ops) + PushHandles(oss) ==> h !in Seen(pl, sl, ps, ss)
    ensures NoDup(Seen(pl + FailPops(ps), sl + FailPushes(ss), ops, oss))
  {
    var a, b, c, d := Handles(pl), Handles(sl), PopHandles(ps), PushHandles(ss);
    SeenAfterMove(pl, sl, ps, ss, ops, oss);
    NoDupSwap(a, b, c, d);
    NoDupConcat(a + c + b + d, PopHandles(ops) + PushHandles(oss));
  }

  /** The waiters of a queue alone, and its logs alone, keep no duplicate. */
  lemma SplitKeepsNoDup<T>(pl: seq<Resumption<Option<T>>>, sl: seq<Resumption<bool>>,
                           ps: seq<PopWaiter>, ss: seq<PushWaiter<T>>)
    requires NoDup(Seen(pl, sl, ps, ss))
    ensures NoDup(PopHandles(ps) + PushHandles(ss)) && NoDup(Seen(pl, sl, [], []))
  {
    var a, w := Handles(pl) + Handles(sl), PopHandles(ps) + PushHandles(ss);
    assert Seen(pl, sl, ps, ss) == a + w;
    NoDupConcat(a, w);
    assert Seen(pl, sl, [], []) == a;
  }

  /** The resumptions of a drain loop that fails consumers. */
  method FailAllPops<T>(ws: seq<PopWaiter>) returns (performed: seq<Resumption<Option<T>>>)
    ensures performed == FailPops(ws)
  {
    performed := [];
    var i := 0;
    while i < |ws|
      invariant 0 <= i <= |ws| && |performed| == i
      invariant forall j :: 0 <= j < i ==> performed[j] == PopResumption(ws[j], None)
    {
      performed := performed + [PopResumption(ws[i], None)];
      i := i + 1;
    }
  }

  /** The resumptions of a drain loop that fails producers. */
  method FailAllPushes<T>(ws: seq<PushWaiter<T>>) returns (performed: seq<Resumption<bool>>)
    ensures performed == FailPushes(ws)
  {
    performed := [];
    var i := 0;
    while i < |ws|
      invariant 0 <= i <= |ws| && |performed| == i
      invariant forall j :: 0 <= j < i ==> performed[j] == PushResumption(ws[j], false)
    {
      performed := performed + [PushResumption(ws[i], false)];
      i := i + 1;
    }
  }

  class Queue<T> {
    var buffer: seq<T>
    var maxSize: nat
    var dispatcher: Option<Dispatcher>
    var pops: seq<PopWaiter>
    var pushes: seq<PushWaiter<T>>
    ghost var popLog: seq<Resumption<Option<T>>>
    ghost var pushLog: seq<Resumption<bool>>

    function View(): (r: Q<T>)
      reads this
    {
      Q(buffer, maxSize, dispatcher, pops, pushes)
    }

    /** The queue's invariant, and no awaiter resumed twice or both resumed
        and still waiting. */
    ghost predicate Valid()
      reads this
    {
      Inv(View()) && NoDup(Seen(popLog, pushLog, pops, pushes))
    }

    /** The awaiters suspended on this queue. */
    ghost function Waiting(): (r: seq<Handle>)
      reads this
    {
      PopHandles(pops) + PushHandles(pushes)
    }

    /** queue(max_size, disp); the default bound is SIZE_MAX. */
    constructor (maxSize: nat, dispatcher: Option<Dispatcher>)
      ensures Valid() && View() == Q([], maxSize, dispatcher, [], []) && popLog == [] && pushLog == []
    {
      this.maxSize := maxSize;
      this.dispatcher := dispatcher;
      buffer := [];
      pops := [];
      pushes := [];
      popLog := [];
      pushLog := [];
    }

    /** The move constructor: takes over everything; `other` keeps no waiter. */
    constructor Move(other: Queue<T>)
      requires other.Valid()
      modifies other
      ensures Valid() && View() == old(other.View()) && popLog == [] && pushLog == []
      ensures other.Valid() && other.pops == [] && other.pushes == [] && other.buffer == []
    {
      SplitKeepsNoDup(other.popLog, other.pushLog, other.pops, other.pushes);
      assert Seen<T>([], [], other.pops, other.pushes) == other.Waiting();
      buffer := other.buffer;
      maxSize := other.maxSize;
      dispatcher := other.dispatcher;
      pops := other.pops;
      pushes := other.pushes;
      popLog := [];
      pushLog := [];
      other.buffer := [];
      other.pops := [];
      other.pushes := [];
    }

    /** queue::size walks the producer list, counting. */
    method Size() returns (n: nat)
      ensures n == SizeOf(View())
    {
      n := |buffer|;
      var i := 0;
      while i < |pushes|
        invariant 0 <= i <= |pushes| && n == |buffer| + i
      {
        n := n + 1;
        i := i + 1;
      }
    }

    method Empty() returns (b: bool)
      ensures b == IsEmpty(View())
    {
      b := buffer == [] && pushes == [];
    }

    method TryPush(v: T) returns (ok: bool)
      requires Valid()
      modifies this
      ensures Valid() && pushLog == old(pushLog)
      ensures var r := TryPushStep(old(View()), v);
              ok == r.0 && View() == r.1 && popLog == old(popLog) + r.2
    {
      if |buffer| >= maxSize {
        return false;
      }
      if pops != [] {
        var w := pops[0];
        TakePopKeepsNoDup(popLog, pushLog, pops, pushes, Some(v));
        pops := pops[1..];
        popLog := popLog + [PopResumption(w, Some(v))];
      } else {
        buffer := buffer + [v];
      }
      ok := true;
    }

    /** try_emplace constructs the value in place; its effect is try_push's. */
    method TryEmplace(v: T) returns (ok: bool)
      requires Valid()
      modifies this
      ensures Valid() && pushLog == old(pushLog)
      ensures var r := TryPushStep(old(View()), v);
              ok == r.0 && View() == r.1 && popLog == old(popLog) + r.2
    {
      ok := TryPush(v);
    }

    method TryPop() returns (v: Option<T>)
      requires Valid()
      modifies this
      ensures Valid() && popLog == old(popLog)
      ensures var r := TryPopStep(old(View()));
              v == r.0 && View() == r.1 && pushLog == old(pushLog) + r.2
    {
      if buffer == [] {
        return None;
      }
      v := Some(buffer[0]);
      buffer := buffer[1..];
      if pushes != [] {
        var w := pushes[0];
        TakePushKeepsNoDup(popLog, pushLog, pops, pushes);
        pushes := pushes[1..];
        buffer := buffer + [w.value];
        pushLog := pushLog + [PushResumption(w, true)];
      }
    }

    method Clear()
      requires Valid()
      modifies this
      ensures Valid() && popLog == old(popLog)
      ensures var r := ClearStep(old(View()));
              View() == r.0 && pushLog == old(pushLog) + r.1
    {
      ClearKeepsNoDup(popLog, pushLog, pops, pushes);
      buffer := [];
      var failed := FailAllPushes(pushes);
      pushes := [];
      pushLog := pushLog + failed;
    }

    /** `this = move(other)`. */
    method MoveAssign(other: Queue<T>)
      requires Valid() && other.Valid() && other != this
      requires forall h :: h in other.Waiting() ==> h !in Seen(popLog, pushLog, pops, pushes)
      modifies this, other
      ensures Valid() && other.Valid()
      ensures var r := MoveAssignStep(old(View()), old(other.View()));
              View() == r.0 && other.View() == r.1
              && popLog == old(popLog) + r.2 && pushLog == old(pushLog) + r.3
    {
      SplitKeepsNoDup(other.popLog, other.pushLog, other.pops, other.pushes);
      MoveKeepsNoDup(popLog, pushLog, pops, pushes, other.pops, other.pushes);
      var oldPops := pops;
      var oldPushes := pushes;
      buffer := other.buffer;
      maxSize := other.maxSize;
      dispatcher := other.dispatcher;
      pops := other.pops;
      pushes := other.pushes;
      other.buffer := [];
      other.pops := [];
      other.pushes := [];
      var failedPops := FailAllPops(oldPops);
      popLog := popLog + failedPops;
      var failedPushes := FailAllPushes(oldPushes);
      pushLog := pushLog + failedPushes;
    }

    /** pop_awaiter::await_ready: true (with the popped value) when the buffer
        is non-empty, with try_pop's effect. */
    method PopReady() returns (ready: bool, v: Option<T>)
      requires Valid()
      modifies this
      ensures Valid() && popLog == old(popLog)
      ensures var r := TryPopStep(old(View()));
              ready == r.0.Some? && v == r.0 && View() == r.1 && pushLog == old(pushLog) + r.2
    {
      v := TryPop();
      ready := v.Some?;
    }

    method PopSuspend(h: Handle, own: Option<Dispatcher>)
      requires Valid() && buffer == [] && h !in Seen(popLog, pushLog, pops, pushes)
      modifies this
      ensures Valid() && popLog == old(popLog) && pushLog == old(pushLog)
      ensures View() == PopSuspendStep(old(View()), h, own)
    {
      PopArrivesKeepsNoDup(popLog, pushLog, pops, pushes, PopWaiter(h, if own.Some? then own else dispatcher));
      pops := pops + [PopWaiter(h, if own.Some? then own else dispatcher)];
    }

    method PushReady(v: T) returns (ready: bool)
      requires Valid()
      modifies this
      ensures Valid() && pushLog == old(pushLog)
      ensures var r := PushReadyStep(old(View()), v);
              ready == r.0 && View() == r.1 && popLog == old(popLog) + r.2
    {
      if pops != [] {
        var w := pops[0];
        TakePopKeepsNoDup(popLog, pushLog, pops, pushes, Some(v));
        pops := pops[1..];
        popLog := popLog + [PopResumption(w, Some(v))];
        return true;
      }
      if |buffer| < maxSize {
        buffer := buffer + [v];
        return true;
      }
      ready := false;
    }

    method PushSuspend(h: Handle, own: Option<Dispatcher>, v: T)
      requires Valid() && pops == [] && |buffer| >= maxSize && h !in Seen(popLog, pushLog, pops, pushes)
      modifies this
      ensures Valid() && popLog == old(popLog) && pushLog == old(pushLog)
      ensures View() == PushSuspendStep(old(View()), h, own, v)
    {
      PushArrivesKeepsNoDup(popLog, pushLog, pops, pushes, PushWaiter(h, if own.Some? then own else dispatcher, v));
      pushes := pushes + [PushWaiter(h, if own.Some? then own else dispatcher, v)];
    }
  }
}
