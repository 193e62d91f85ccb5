/** The rendezvous channel of include/asyncpp/channel.h: a closed flag and
    two intrusive lists, one of suspended readers and one of suspended
    writers. A value passes directly from a writer to a reader; nothing is
    buffered. A reader is resumed with an optional value, a writer with a
    success flag; both on their own dispatcher if they have one, else inline. */
module Channel {
  import opened Common

  datatype Reader = Reader(handle: Handle, own: Option<Dispatcher>)
  datatype Writer<T> = Writer(handle: Handle, own: Option<Dispatcher>, value: T)

  /** The channel's state; both lists are in arrival order (index 0 is the head). */
  datatype Chan<T> = Chan(closed: bool, readers: seq<Reader>, writers: seq<Writer<T>>)

  /** The reader list and the writer list are never both non-empty, and a
      closed channel has no waiter. */
  predicate Inv<T>(c: Chan<T>)
  {
    (c.readers == [] || c.writers == [])
    && (c.closed ==> c.readers == [] && c.writers == [])
  }

  function ReaderResumption<T>(r: Reader, result: Option<T>): (res: Resumption<Option<T>>)
  {
    Resumption(r.handle, result, ResumeTarget(r.own, None))
  }

  function WriterResumption<T>(w: Writer<T>, result: bool): (r: Resumption<bool>)
  {
    Resumption(w.handle, result, ResumeTarget(w.own, None))
  }

  /** The resumptions with which `close` cancels the readers `rs`. */
  function CancelReaders<T>(rs: seq<Reader>): (log: seq<Resumption<Option<T>>>)
    ensures |log| == |rs|
    ensures forall i :: 0 <= i < |rs| ==> log[i] == ReaderResumption(rs[i], None)
  {
    if rs == [] then [] else [ReaderResumption(rs[0], None)] + CancelReaders(rs[1..])
  }

  /** The resumptions with which `close` cancels the writers `ws`. */
  function CancelWriters<T>(ws: seq<Writer<T>>): (log: seq<Resumption<bool>>)
    ensures |log| == |ws|
    ensures forall i :: 0 <= i < |ws| ==> log[i] == WriterResumption(ws[i], false)
  {
    if ws == [] then [] else [WriterResumption(ws[0], false)] + CancelWriters(ws[1..])
  }

  /** The handles of suspended readers, in list order. */
  function ReaderHandles(rs: seq<Reader>): (hs: seq<Handle>)
    ensures |hs| == |rs| && forall i :: 0 <= i < |rs| ==> hs[i] == rs[i].handle
  {
    if rs == [] then [] else [rs[0].handle] + ReaderHandles(rs[1..])
  }

  /** The handles of suspended writers, in list order. */
  function WriterHandles<T>(ws: seq<Writer<T>>): (hs: seq<Handle>)
    ensures |hs| == |ws| && forall i :: 0 <= i < |ws| ==> hs[i] == ws[i].handle
  {
    if ws == [] then [] else [ws[0].handle] + WriterHandles(ws[1..])
  }

  /** Every awaiter the channel has resumed or holds: the resumed readers,
      the resumed writers, then the waiting readers and writers. */
  function Seen<T>(readerLog: seq<Resumption<Option<T>>>, writerLog: seq<Resumption<bool>>,
                   rs: seq<Reader>, ws: seq<Writer<T>>): (hs: seq<Handle>)
    ensures |hs| == |readerLog| + |writerLog| + |rs| + |ws|
  {
    Handles(readerLog) + Handles(writerLog) + ReaderHandles(rs) + WriterHandles(ws)
  }

  /** channel::try_read: on an open channel with a waiting writer, the oldest
      writer's value is taken and that writer is resumed with true; otherwise
      the result is none and nothing changes. */
  function TryReadStep<T>(c: Chan<T>): (r: (Option<T>, Chan<T>, seq<Resumption<bool>>))
    requires Inv(c)
    ensures Inv(r.1) && r.1.closed == c.closed && r.1.readers == c.readers
    ensures r.0.Some? <==> !c.closed && c.writers != []
    ensures r.0.Some? ==> r.0.value == c.writers[0].value && r.1.writers == c.writers[1..]
                          && r.2 == [WriterResumption(c.writers[0], true)]
    ensures r.0.None? ==> r.1 == c && r.2 == []
  {
    if c.closed || c.writers == [] then (None, c, [])
    else (Some(c.writers[0].value), c.(writers := c.writers[1..]), [WriterResumption(c.writers[0], true)])
  }

  /** channel::try_write: on an open channel with a waiting reader, the value
      goes to the oldest reader, which is resumed, and the result is true;
      otherwise the result is false and nothing changes. */
  function TryWriteStep<T>(c: Chan<T>, v: T): (r: (bool, Chan<T>, seq<Resumption<Option<T>>>))
    requires Inv(c)
    ensures Inv(r.1) && r.1.closed == c.closed && r.1.writers == c.writers
    ensures r.0 <==> !c.closed && c.readers != []
    ensures r.0 ==> r.1.readers == c.readers[1..] && r.2 == [ReaderResumption(c.readers[0], Some(v))]
    ensures !r.0 ==> r.1 == c && r.2 == []
  {
    if c.closed || c.readers == [] then (false, c, [])
    else (true, c.(readers := c.readers[1..]), [ReaderResumption(c.readers[0], Some(v))])
  }

  /** channel::close: the channel is closed for good. The first close resumes
      every waiting reader with none, then every waiting writer with false;
      a later close does nothing. */
  function CloseStep<T>(c: Chan<T>): (r: (Chan<T>, seq<Resumption<Option<T>>>, seq<Resumption<bool>>))
    requires Inv(c)
    ensures Inv(r.0) && r.0.closed
    ensures c.closed ==> r.0 == c && r.1 == [] && r.2 == []
    ensures !c.closed ==> r.1 == CancelReaders(c.readers) && r.2 == CancelWriters(c.writers)
  {
    if c.closed then (c, [], []) else (Chan(true, [], []), CancelReaders(c.readers), CancelWriters(c.writers))
  }

  /** await_ready of both awaiters: true exactly when the channel is closed. */
  predicate AwaitReady<T>(c: Chan<T>)
  {
    c.closed
  }

  /** read_awaiter::await_suspend after await_ready returned false: a waiting
      writer is consumed without suspending (the read yields its value and the
      writer is resumed with true); otherwise the reader joins the tail. */
  function ReadSuspendStep<T>(c: Chan<T>, rd: Reader): (r: (bool, Option<T>, Chan<T>, seq<Resumption<bool>>))
    requires Inv(c) && !c.closed
    ensures Inv(r.2) && !r.2.closed
    ensures r.0 <==> c.writers == []
    ensures r.0 ==> r.1 == None && r.2.readers == c.readers + [rd] && r.2.writers == c.writers && r.3 == []
    ensures !r.0 ==> r.1 == Some(c.writers[0].value) && r.2 == c.(writers := c.writers[1..])
                     && r.3 == [WriterResumption(c.writers[0], true)]
  {
    if c.writers != [] then
      (false, Some(c.writers[0].value), c.(writers := c.writers[1..]), [WriterResumption(c.writers[0], true)])
    else
      (true, None, c.(readers := c.readers + [rd]), [])
  }

  /** write_awaiter::await_suspend: on a closed channel it does not suspend;
      a waiting reader takes the value without the writer suspending;
      otherwise the writer joins the tail. As written, the writer's result
      (its m_result) stays false in both non-suspending cases. */
  function WriteSuspendStep<T>(c: Chan<T>, wr: Writer<T>): (r: (bool, bool, Chan<T>, seq<Resumption<Option<T>>>))
    requires Inv(c)
    ensures Inv(r.2) && r.2.closed == c.closed
    ensures r.0 <==> !c.closed && c.readers == []
    ensures !r.1
    ensures r.0 ==> r.2.writers == c.writers + [wr] && r.2.readers == c.readers && r.3 == []
    ensures !r.0 && !c.closed ==> r.2 == c.(readers := c.readers[1..])
                                  && r.3 == [ReaderResumption(c.readers[0], Some(wr.value))]
    ensures c.closed ==> r.2 == c && r.3 == []
  {
    if c.closed then (false, false, c, [])
    else if c.readers != [] then
      (false, false, c.(readers := c.readers[1..]), [ReaderResumption(c.readers[0], Some(wr.value))])
    else
      (true, false, c.(writers := c.writers + [wr]), [])
  }

  /** As written, a write that hands its value to a waiting reader completes
      with false, the same result as a write to a closed channel. */
  lemma DeliveredWriteReportsFalse<T>(rd: Reader, wr: Writer<T>)
    ensures var (suspended, result, c', log) := WriteSuspendStep(Chan(false, [rd], []), wr);
            !suspended && !result && log == [ReaderResumption(rd, Some(wr.value))]
  {
  }

  /** The intended write: a write that does not suspend reports true exactly
      when its value was delivered to a reader. */
  function WriteSuspendIntended<T>(c: Chan<T>, wr: Writer<T>): (r: (bool, bool, Chan<T>, seq<Resumption<Option<T>>>))
    requires Inv(c)
    ensures Inv(r.2) && r.2.closed == c.closed
    ensures r.0 <==> !c.closed && c.readers == []
    ensures !r.0 ==> (r.1 <==> r.3 != [])
    ensures r.3 != [] ==> c.readers != [] && r.3 == [ReaderResumption(c.readers[0], Some(wr.value))]
  {
    var (s, _, c', log) := WriteSuspendStep(c, wr);
    (s, log != [], c', log)
  }

  /** Writers `ws` suspend one after another on an open channel with no reader. */
  function WritersArrive<T>(c: Chan<T>, ws: seq<Writer<T>>): (r: Chan<T>)
    requires Inv(c) && !c.closed && c.readers == []
    ensures Inv(r) && !r.closed && r.readers == []
    decreases |ws|
  {
    if ws == [] then c else WritersArrive(WriteSuspendStep(c, ws[0]).2, ws[1..])
  }

  /** `k` successive try_read calls: the values they return. */
  function ReadMany<T>(c: Chan<T>, k: nat): (r: (seq<Option<T>>, Chan<T>))
    requires Inv(c)
    decreases k
  {
    if k == 0 then ([], c)
    else
      var (v, c', _) := TryReadStep(c);
      var (vs, c'') := ReadMany(c', k - 1);
      ([v] + vs, c'')
  }

  function Values<T>(ws: seq<Writer<T>>): (vs: seq<Option<T>>)
    ensures |vs| == |ws| && forall i :: 0 <= i < |ws| ==> vs[i] == Some(ws[i].value)
  {
    if ws == [] then [] else [Some(ws[0].value)] + Values(ws[1..])
  }

  lemma {:induction false} WritersArriveAppends<T>(c: Chan<T>, ws: seq<Writer<T>>)
    requires Inv(c) && !c.closed && c.readers == []
    ensures WritersArrive(c, ws).writers == c.writers + ws
    decreases |ws|
  {
    if ws != [] {
      WritersArriveAppends(WriteSuspendStep(c, ws[0]).2, ws[1..]);
      assert [ws[0]] + ws[1..] == ws;
    }
  }

  lemma {:induction false} ReadManyTakesOldest<T>(c: Chan<T>, k: nat)
    requires Inv(c) && !c.closed && k <= |c.writers|
    ensures ReadMany(c, k).0 == Values(c.writers[..k])
    ensures ReadMany(c, k).1.writers == c.writers[k..]
    decreases k
  {
    if k > 0 {
      var c' := TryReadStep(c).1;
      ReadManyTakesOldest(c', k - 1);
      assert c.writers[..k] == [c.writers[0]] + c'.writers[..k - 1];
    }
  }

  /** Queued writers are consumed first in, first out (test/channel.cpp:88-117). */
  lemma WritersAreConsumedFifo<T>(ws: seq<Writer<T>>)
    ensures ReadMany(WritersArrive(Chan(false, [], []), ws), |ws|).0 == Values(ws)
  {
    var c: Chan<T> := Chan(false, [], []);
    WritersArriveAppends(c, ws);
    ReadManyTakesOldest(WritersArrive(c, ws), |ws|);
    assert WritersArrive(c, ws).writers[..|ws|] == ws;
  }

  /** Close is idempotent and final: a closed channel stays closed and every
      later try operation and await fails at once. */
  lemma ClosedIsFinal<T>(c: Chan<T>, v: T)
    requires Inv(c)
    ensures var c' := CloseStep(c).0;
            CloseStep(c') == (c', [], []) && AwaitReady(c')
            && TryReadStep(c').0.None? && !TryWriteStep(c', v).0
  {
  }

  // ---------------------------------------------------------------------
  // No awaiter is resumed twice

  /** A writer taken from the head of the list moves to the end of the
      writer log; with no reader waiting, the awaiters stay in the same order. */
  lemma TakeWriterKeepsNoDup<T>(rl: seq<Resumption<Option<T>>>, wl: seq<Resumption<bool>>, ws: seq<Writer<T>>)
    requires ws != [] && NoDup(Seen(rl, wl, [], ws))
    ensures NoDup(Seen(rl, wl + [WriterResumption(ws[0], true)], [], ws[1..]))
  {
    HandlesAppend(wl, [WriterResumption(ws[0], true)]);
    assert WriterHandles(ws) == [ws[0].handle] + WriterHandles(ws[1..]);
    assert Seen(rl, wl + [WriterResumption(ws[0], true)], [], ws[1..]) == Seen(rl, wl, [], ws);
  }

  /** A reader taken from the head of the list moves to the end of the
      reader log: the awaiters are only reordered. */
  lemma TakeReaderKeepsNoDup<T>(rl: seq<Resumption<Option<T>>>, wl: seq<Resumption<bool>>, rs: seq<Reader>, v: Option<T>)
    requires rs != [] && NoDup(Seen(rl, wl, rs, []))
    ensures NoDup(Seen(rl + [ReaderResumption(rs[0], v)], wl, rs[1..], []))
  {
    var a, b, c, d := Handles(rl), Handles(wl), [rs[0].handle], ReaderHandles(rs[1..]);
    assert ReaderHandles(rs) == c + d;
    assert Seen(rl, wl, rs, []) == a + b + c + d;
    NoDupSwap(a, b, c, d);
    HandlesAppend(rl, [ReaderResumption(rs[0], v)]);
    assert Seen(rl + [ReaderResumption(rs[0], v)], wl, rs[1..], []) == a + c + b + d;
  }

  /** Close moves every waiting reader to the reader log and every waiting
      writer to the writer log. */
  lemma CloseKeepsNoDup<T>(rl: seq<Resumption<Option<T>>>, wl: seq<Resumption<bool>>, rs: seq<Reader>, ws: seq<Writer<T>>)
    requires NoDup(Seen(rl, wl, rs, ws))
    ensures NoDup(Seen(rl + CancelReaders(rs), wl + CancelWriters(ws), [], []))
  {
    var a, b, c, d := Handles(rl), Handles(wl), ReaderHandles(rs), WriterHandles(ws);
    NoDupSwap(a, b, c, d);
    HandlesAppend(rl, CancelReaders<T>(rs));
    HandlesAppend(wl, CancelWriters(ws));
    assert Handles(CancelReaders<T>(rs)) == c;
    assert Handles(CancelWriters(ws)) == d;
    assert Seen(rl + CancelReaders(rs), wl + CancelWriters(ws), [], []) == a + c + b + d;
  }

  /** A fresh reader joins the tail of the reader list. */
  lemma ReaderArrivesKeepsNoDup<T>(rl: seq<Resumption<Option<T>>>, wl: seq<Resumption<bool>>, rs: seq<Reader>, rd: Reader)
    requires NoDup(Seen(rl, wl, rs, [])) && rd.handle !in Seen(rl, wl, rs, [])
    ensures NoDup(Seen(rl, wl, rs + [rd], []))
  {
    assert ReaderHandles(rs + [rd]) == ReaderHandles(rs) + [rd.handle];
    assert Seen(rl, wl, rs + [rd], []) == Seen(rl, wl, rs, []) + [rd.handle];
    NoDupSnoc(Seen(rl, wl, rs, []), rd.handle);
  }

  /** A fresh writer joins the tail of the writer list. */
  lemma WriterArrivesKeepsNoDup<T>(rl: seq<Resumption<Option<T>>>, wl: seq<Resumption<bool>>, ws: seq<Writer<T>>, wr: Writer<T>)
    requires NoDup(Seen(rl, wl, [], ws)) && wr.handle !in Seen(rl, wl, [], ws)
    ensures NoDup(Seen(rl, wl, [], ws + [wr]))
  {
    assert WriterHandles(ws + [wr]) == WriterHandles(ws) + [wr.handle];
    assert Seen(rl, wl, [], ws + [wr]) == Seen(rl, wl, [], ws) + [wr.handle];
    NoDupSnoc(Seen(rl, wl, [], ws), wr.handle);
  }

  /** The resumptions of `close`'s drain loop over the reader list. */
  method CancelAllReaders<T>(rs: seq<Reader>) returns (performed: seq<Resumption<Option<T>>>)
    ensures performed == CancelReaders(rs)
  {
    performed := [];
    var i := 0;
    while i < |rs|
      invariant 0 <= i <= |rs| && |performed| == i
      invariant forall j :: 0 <= j < i ==> performed[j] == ReaderResumption(rs[j], None)
    {
      performed := performed + [ReaderResumption(rs[i], None)];
      i := i + 1;
    }
  }

  /** The resumptions of `close`'s drain loop over the writer list. */
  method CancelAllWriters<T>(ws: seq<Writer<T>>) returns (performed: seq<Resumption<bool>>)
    ensures performed == CancelWriters(ws)
  {
    performed := [];
    var i := 0;
    while i < |ws|
      invariant 0 <= i <= |ws| && |performed| == i
      invariant forall j :: 0 <= j < i ==> performed[j] == WriterResumption(ws[j], false)
    {
      performed := performed + [WriterResumption(ws[i], false)];
      i := i + 1;
    }
  }

  class Channel<T> {
    var closed: bool
    var readers: seq<Reader>
    var writers: seq<Writer<T>>
    /** Resumptions of readers and of writers, in order. */
    ghost var readerLog: seq<Resumption<Option<T>>>
    ghost var writerLog: seq<Resumption<bool>>

    function View(): (r: Chan<T>)
      reads this
    {
      Chan(closed, readers, writers)
    }

    /** The channel's invariant, and no awaiter resumed twice or both
        resumed and still waiting. */
    ghost predicate Valid()
      reads this
    {
      Inv(View()) && NoDup(Seen(readerLog, writerLog, readers, writers))
    }

    constructor ()
      ensures Valid() && View() == Chan(false, [], []) && readerLog == [] && writerLog == []
    {
      closed := false;
      readers := [];
      writers := [];
      readerLog := [];
      writerLog := [];
    }

    method IsClosed() returns (b: bool)
      ensures b == closed
    {
      b := closed;
    }

    method TryRead() returns (v: Option<T>)
      requires Valid()
      modifies this
      ensures Valid() && readerLog == old(readerLog)
      ensures var r := TryReadStep(old(View()));
              v == r.0 && View() == r.1 && writerLog == old(writerLog) + r.2
    {
      if closed || writers == [] {
        return None;
      }
      var w := writers[0];
      TakeWriterKeepsNoDup(readerLog, writerLog, writers);
      writers := writers[1..];
      v := Some(w.value);
      writerLog := writerLog + [WriterResumption(w, true)];
    }

    method TryWrite(x: T) returns (ok: bool)
      requires Valid()
      modifies this
      ensures Valid() && writerLog == old(writerLog)
      ensures var r := TryWriteStep(old(View()), x);
              ok == r.0 && View() == r.1 && readerLog == old(readerLog) + r.2
    {
      if closed || readers == [] {
        return false;
      }
      var rd := readers[0];
      TakeReaderKeepsNoDup(readerLog, writerLog, readers, Some(x));
      readers := readers[1..];
      readerLog := readerLog + [ReaderResumption(rd, Some(x))];
      ok := true;
    }

    method Close()
      requires Valid()
      modifies this
      ensures Valid()
      ensures var r := CloseStep(old(View()));
              View() == r.0 && readerLog == old(readerLog) + r.1 && writerLog == old(writerLog) + r.2
    {
      if closed {
        assert readerLog == old(readerLog) + [] && writerLog == old(writerLog) + [];
        return;
      }
      CloseKeepsNoDup(readerLog, writerLog, readers, writers);
      closed := true;
      var cancelledReaders := CancelAllReaders(readers);
      readers := [];
      readerLog := readerLog + cancelledReaders;
      var cancelledWriters := CancelAllWriters(writers);
      writers := [];
      writerLog := writerLog + cancelledWriters;
    }

    method ReadReady() returns (ready: bool)
      ensures ready == AwaitReady(View())
    {
      ready := closed;
    }

    /** read_awaiter::await_suspend; `got` is the value await_resume yields
        when the reader did not suspend. */
    method ReadSuspend(rd: Reader) returns (suspended: bool, got: Option<T>)
      requires Valid() && !closed && rd.handle !in Seen(readerLog, writerLog, readers, writers)
      modifies this
      ensures Valid() && readerLog == old(readerLog)
      ensures var r := ReadSuspendStep(old(View()), rd);
              suspended == r.0 && got == r.1 && View() == r.2 && writerLog == old(writerLog) + r.3
    {
      if writers != [] {
        var w := writers[0];
        TakeWriterKeepsNoDup(readerLog, writerLog, writers);
        writers := writers[1..];
        got := Some(w.value);
        writerLog := writerLog + [WriterResumption(w, true)];
        suspended := false;
      } else {
        ReaderArrivesKeepsNoDup(readerLog, writerLog, readers, rd);
        readers := readers + [rd];
        got := None;
        suspended := true;
      }
    }

    method WriteReady() returns (ready: bool)
      ensures ready == AwaitReady(View())
    {
      ready := closed;
    }

    /** write_awaiter::await_suspend; `result` is what await_resume yields
        when the writer did not suspend. */
    method WriteSuspend(wr: Writer<T>) returns (suspended: bool, result: bool)
      requires Valid() && wr.handle !in Seen(readerLog, writerLog, readers, writers)
      modifies this
      ensures Valid() && writerLog == old(writerLog)
      ensures var r := WriteSuspendStep(old(View()), wr);
              suspended == r.0 && result == r.1 && View() == r.2 && readerLog == old(readerLog) + r.3
    {
      ghost var step := WriteSuspendStep(View(), wr);
      result := false;
      if closed {
        assert readerLog == old(readerLog) + step.3;
        return false, result;
      }
      if readers != [] {
        var rd := readers[0];
        TakeReaderKeepsNoDup(readerLog, writerLog, readers, Some(wr.value));
        readers := readers[1..];
        readerLog := readerLog + [ReaderResumption(rd, Some(wr.value))];
        assert View() == step.2;
        return false, result;
      }
      WriterArrivesKeepsNoDup(readerLog, writerLog, writers, wr);
      writers := writers + [wr];
      assert readerLog == old(readerLog) + step.3;
      suspended := true;
    }
  }
}
