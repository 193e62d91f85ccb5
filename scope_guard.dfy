/** The scope guard of include/asyncpp/scope_guard.h: a stored no-throw
    function and an `engaged` flag; the destructor calls the function when
    the guard is still engaged. The function is an opaque value `F`; each
    call of it is recorded in a RunLog. */
module ScopeGuard {

  /** The calls made so far of guarded functions, in order. */
  class RunLog<F> {
    var runs: seq<F>

    constructor ()
      ensures runs == []
    {
      runs := [];
    }
  }

  /** A call on a guard that changes its flag. */
  datatype FlagCall = EngageCall | DisengageCall

  /** The flag after a series of engage/disengage calls, applied in order. */
  function FlagAfter(engaged: bool, calls: seq<FlagCall>): (e: bool)
    decreases |calls|
  {
    if calls == [] then engaged
    else FlagAfter(calls[0] == EngageCall, calls[1..])
  }

  /** The last call wins: after any non-empty series the guard is engaged
      exactly when the last call was engage; an empty series keeps the flag
      the constructor set. */
  lemma {:induction false} LastCallWins(engaged: bool, calls: seq<FlagCall>)
    ensures calls == [] ==> FlagAfter(engaged, calls) == engaged
    ensures calls != [] ==> (FlagAfter(engaged, calls) <==> calls[|calls| - 1] == EngageCall)
    decreases |calls|
  {
    if |calls| > 1 {
      LastCallWins(calls[0] == EngageCall, calls[1..]);
      assert calls[1..][|calls| - 2] == calls[|calls| - 1];
    }
  }

  /** The calls the destructor adds to the log: the function once when
      engaged, nothing otherwise. */
  function DestructorRuns<F>(fn: F, engaged: bool): (r: seq<F>)
    ensures |r| <= 1
    ensures |r| == 1 <==> engaged
    ensures forall i :: 0 <= i < |r| ==> r[i] == fn
  {
    if engaged then [fn] else []
  }

  class ScopeGuard<F> {
    var fn: F
    var engaged: bool
    /** The destructor has run. */
    var destroyed: bool
    /** The flag the constructor set, and the engage/disengage calls since. */
    ghost var initial: bool
    ghost var calls: seq<FlagCall>

    /** The flag is the one the calls so far leave. */
    ghost predicate Valid()
      reads this
    {
      engaged == FlagAfter(initial, calls)
    }

    constructor (fn: F, engaged: bool := true)
      ensures Valid() && initial == engaged && calls == []
      ensures this.fn == fn && this.engaged == engaged && !destroyed
    {
      this.fn := fn;
      this.engaged := engaged;
      destroyed := false;
      initial := engaged;
      calls := [];
    }

    method Disengage()
      requires Valid() && !destroyed
      modifies this
      ensures Valid() && initial == old(initial) && calls == old(calls) + [DisengageCall]
      ensures !engaged && fn == old(fn) && !destroyed
    {
      engaged := false;
      calls := calls + [DisengageCall];
      LastCallWins(initial, calls);
    }

    method Engage()
      requires Valid() && !destroyed
      modifies this
      ensures Valid() && initial == old(initial) && calls == old(calls) + [EngageCall]
      ensures engaged && fn == old(fn) && !destroyed
    {
      engaged := true;
      calls := calls + [EngageCall];
      LastCallWins(initial, calls);
    }

    /** is_engaged(): the flag the constructor set when no call changed it
        since, and otherwise whether the last call was engage. */
    function IsEngaged(): (e: bool)
      requires Valid()
      reads this
      ensures calls == [] ==> e == initial
      ensures calls != [] ==> (e <==> calls[|calls| - 1] == EngageCall)
    {
      LastCallWins(initial, calls);
      engaged
    }

    /** function() hands out the stored function. */
    function Function(): (f: F)
      reads this
      ensures f == fn
    {
      fn
    }

    /** ~scope_guard(): calls the function once if engaged, else nothing. */
    method Dispose(log: RunLog<F>)
      requires !destroyed
      modifies this, log
      ensures destroyed && engaged == old(engaged) && fn == old(fn)
      ensures log.runs == old(log.runs) + DestructorRuns(old(fn), old(engaged))
    {
      if engaged {
        log.runs := log.runs + [fn];
      }
      destroyed := true;
    }
  }

  /** test/scope_guard.cpp:13-19: a default guard is engaged and calls its
      function once on exit. */
  method DefaultGuardScenario<F>(fn: F) returns (engaged: bool, runs: seq<F>)
    ensures engaged && runs == [fn]
  {
    var log := new RunLog<F>();
    var g := new ScopeGuard(fn);
    engaged := g.IsEngaged();
    g.Dispose(log);
    runs := log.runs;
  }

  /** test/scope_guard.cpp:21-44: disengaging suppresses the call; engaging
      again restores it. */
  method DisengageScenario<F>(fn: F) returns (flags: seq<bool>, suppressed: seq<F>, restored: seq<F>)
    ensures flags == [true, false, true, false, true] && suppressed == [] && restored == [fn]
  {
    var log1 := new RunLog<F>();
    var g1 := new ScopeGuard(fn);
    var a := g1.IsEngaged();
    g1.Disengage();
    var b := g1.IsEngaged();
    g1.Dispose(log1);
    suppressed := log1.runs;

    var log2 := new RunLog<F>();
    var g2 := new ScopeGuard(fn);
    var c := g2.IsEngaged();
    g2.Disengage();
    var d := g2.IsEngaged();
    g2.Engage();
    var e := g2.IsEngaged();
    g2.Dispose(log2);
    restored := log2.runs;
    flags := [a, b, c, d, e];
  }

  /** test/scope_guard.cpp:46-77: a guard constructed disengaged does not
      call on exit unless engaged, and a later disengage wins again. */
  method NotEngagedScenario<F>(fn: F) returns (flags: seq<bool>, none: seq<F>, engaged: seq<F>, last: seq<F>)
    ensures flags == [false, false, true, false, true, false]
    ensures none == [] && engaged == [fn] && last == []
  {
    var log1 := new RunLog<F>();
    var g1 := new ScopeGuard(fn, false);
    var a := g1.IsEngaged();
    g1.Dispose(log1);
    none := log1.runs;

    var log2 := new RunLog<F>();
    var g2 := new ScopeGuard(fn, false);
    var b := g2.IsEngaged();
    g2.Engage();
    var c := g2.IsEngaged();
    g2.Dispose(log2);
    engaged := log2.runs;

    var log3 := new RunLog<F>();
    var g3 := new ScopeGuard(fn, false);
    var d := g3.IsEngaged();
    g3.Engage();
    var e := g3.IsEngaged();
    g3.Disengage();
    var f := g3.IsEngaged();
    g3.Dispose(log3);
    last := log3.runs;
    flags := [a, b, c, d, e, f];
  }

  /** test/scope_guard.cpp:79-90: function() returns the function the guard
      was constructed with, and a guard constructed disengaged reports so. */
  method FunctionScenario<F>(fn: F) returns (got: F, engaged: bool)
    ensures got == fn && !engaged
  {
    var g := new ScopeGuard(fn, false);
    got := g.Function();
    engaged := g.IsEngaged();
  }
}
