/** The stop token of include/asyncpp/stop_token.h, a reimplementation of
    std::stop_source, std::stop_token and std::stop_callback (section 32.3
    of ISO/IEC 14882:2020). A shared stop state packs into one 32-bit word
    the stop-requested bit (1), a lock bit (2) and the number of stop
    sources (in units of 4); it keeps the registered callbacks as a list,
    most recent at the head, and counts its owners (sources, tokens and
    registered callbacks), freeing itself when the last one lets go. The
    word's lock is taken and released around every list update; in this
    sequential model it is always clear between operations. */
module StopTokens {
  import opened Common

  type CallbackId = nat

  const StopRequestedBit: bv32 := 1
  const LockedBit: bv32 := 2
  const SourceIncrement: bv32 := 4

  /** The number of sources the upper 30 bits of the word can count. */
  const MaxSources: nat := 0x4000_0000

  /** The word for a request flag and a source count (lock clear). */
  function Pack(requested: bool, count: bv32): (w: bv32)
    ensures w & LockedBit == 0
    ensures (w & StopRequestedBit != 0) <==> requested
    ensures count < 0x4000_0000 ==> w >> 2 == count
  {
    (count << 2) | (if requested then 1 else 0)
  }

  /** Every lock-clear word is the packing of its flag and count. */
  lemma WordRoundTrip(w: bv32)
    requires w & LockedBit == 0
    ensures w >> 2 < 0x4000_0000
    ensures w == Pack(w & StopRequestedBit != 0, w >> 2)
  {
  }

  /** add_ssrc and sub_ssrc move the count by one and leave the flag. */
  lemma SourceIncrementBits(requested: bool, count: bv32)
    requires count < 0x3FFF_FFFF
    ensures Pack(requested, count) + SourceIncrement == Pack(requested, count + 1)
  {
  }

  /** m_value for a state with the given flag and source count. */
  function Word(requested: bool, sources: nat): (r: bv32)
    requires sources < MaxSources
  {
    Pack(requested, sources as bv32)
  }

  /** stop_possible's test on the word, `value & ~locked`, holds exactly
      when a stop was requested or a source remains. */
  lemma StopPossibleBits(requested: bool, sources: nat)
    requires sources < MaxSources
    ensures (Word(requested, sources) & !LockedBit != 0) <==> requested || sources != 0
  {
  }

  /** stop_requested's test, the low bit, is the flag. */
  lemma StopRequestedBits(requested: bool, sources: nat)
    requires sources < MaxSources
    ensures (Word(requested, sources) & StopRequestedBit != 0) <==> requested
  {
  }

  /** register_callback's test `value < 4` holds exactly when no source
      remains (the lock bit clear). */
  lemma NoSourceBits(requested: bool, sources: nat)
    requires sources < MaxSources
    ensures Word(requested, sources) < SourceIncrement <==> sources == 0
  {
  }

  /** Setting the request bit keeps the count. */
  lemma RequestBits(sources: nat)
    requires sources < MaxSources
    ensures Word(false, sources) | StopRequestedBit == Word(true, sources)
  {
  }

  /** The callback list without `cb`. */
  function Without(cbs: seq<CallbackId>, cb: CallbackId): (r: seq<CallbackId>)
    ensures cb !in r
    ensures forall x :: x != cb ==> (x in r <==> x in cbs)
    ensures cb in cbs ==> |r| < |cbs|
    ensures cb !in cbs ==> r == cbs
  {
    if cbs == [] then []
    else if cbs[0] == cb then Without(cbs[1..], cb)
    else [cbs[0]] + Without(cbs[1..], cb)
  }

  lemma {:induction false} WithoutKeepsNoDup(cbs: seq<CallbackId>, cb: CallbackId)
    requires NoDup(cbs)
    ensures NoDup(Without(cbs, cb))
  {
    if cbs != [] {
      WithoutKeepsNoDup(cbs[1..], cb);
      if cbs[0] != cb {
        var r := Without(cbs[1..], cb);
        assert cbs[0] !in r by {
          assert cbs[0] !in cbs[1..];
        }
        forall i, j | 0 <= i < j < |[cbs[0]] + r|
          ensures ([cbs[0]] + r)[i] != ([cbs[0]] + r)[j]
        {
          if i == 0 {
            assert r[j - 1] in r;
          }
        }
      }
    }
  }

  /** Removing a callback from a list without duplicates keeps the order
      of the others: the removed one drops out of the sequence in place. */
  lemma {:induction false} WithoutSplits(cbs: seq<CallbackId>, i: nat)
    requires NoDup(cbs) && i < |cbs|
    ensures Without(cbs, cbs[i]) == cbs[..i] + cbs[i + 1..]
  {
    if i == 0 {
      assert cbs[0] !in cbs[1..];
      assert cbs[..0] + cbs[1..] == cbs[1..];
    } else {
      assert NoDup(cbs[1..]) by {
        forall a, b | 0 <= a < b < |cbs[1..]| ensures cbs[1..][a] != cbs[1..][b] {
          assert cbs[1..][a] == cbs[a + 1] && cbs[1..][b] == cbs[b + 1];
        }
      }
      WithoutSplits(cbs[1..], i - 1);
      assert cbs[1..][i - 1] == cbs[i];
      assert cbs[0] != cbs[i];
      assert cbs[1..][..i - 1] == cbs[1..i];
      assert cbs[1..][i..] == cbs[i + 1..];
      assert cbs[..i] == [cbs[0]] + cbs[1..i];
    }
  }

  /** stop_state_t. */
  class StopState {
    /** The stop-requested bit of m_value. */
    var requested: bool
    /** The source count held in the upper 30 bits of m_value. */
    var sources: nat
    /** m_owners. */
    var owners: nat
    /** The callback list from m_head. */
    var callbacks: seq<CallbackId>
    /** Every callback run, in order. */
    var ran: seq<CallbackId>
    /** Whether `delete this` has happened. */
    var freed: bool

    /** m_value, with the lock bit clear between operations. */
    ghost function Value(): (r: bv32)
      reads this
      requires sources < MaxSources
    {
      Word(requested, sources)
    }

    ghost predicate Valid()
      reads this
    {
      sources < MaxSources
      && NoDup(callbacks)
      && (requested ==> callbacks == [])
    }

    /** One owner and one source, no stop requested, unlocked. */
    constructor ()
      ensures Valid() && Value() == SourceIncrement && owners == 1
      ensures !requested && sources == 1 && callbacks == [] && ran == [] && !freed
    {
      requested := false;
      sources := 1;
      owners := 1;
      callbacks := [];
      ran := [];
      freed := false;
    }

    /** stop_possible: the word without its lock bit is not zero. */
    method StopPossible() returns (b: bool)
      requires Valid()
      ensures b <==> Value() & !LockedBit != 0
      ensures b <==> requested || sources != 0
    {
      StopPossibleBits(requested, sources);
      b := requested || sources != 0;
    }

    /** stop_requested: the word's low bit. */
    method StopRequested() returns (b: bool)
      requires Valid()
      ensures b <==> Value() & StopRequestedBit != 0
      ensures b <==> requested
    {
      StopRequestedBits(requested, sources);
      b := requested;
    }

    /** add_owner. */
    method AddOwner()
      modifies this
      ensures owners == old(owners) + 1
      ensures requested == old(requested) && sources == old(sources)
      ensures callbacks == old(callbacks) && ran == old(ran) && freed == old(freed)
    {
      owners := owners + 1;
    }

    /** release_ownership: the last owner frees the state. */
    method ReleaseOwnership()
      requires owners >= 1 && !freed
      modifies this
      ensures owners == old(owners) - 1 && (freed <==> owners == 0)
      ensures requested == old(requested) && sources == old(sources)
      ensures callbacks == old(callbacks) && ran == old(ran)
    {
      owners := owners - 1;
      if owners == 0 {
        freed := true;
      }
    }

    /** add_ssrc: the word grows by one source unit. */
    method AddSource()
      requires Valid() && sources < MaxSources - 1
      modifies this
      ensures Valid() && sources == old(sources) + 1
      ensures requested == old(requested) && owners == old(owners)
      ensures callbacks == old(callbacks) && ran == old(ran) && freed == old(freed)
    {
      sources := sources + 1;
    }

    /** sub_ssrc, by a source that holds a share of the count. */
    method SubSource()
      requires Valid() && sources >= 1
      modifies this
      ensures Valid() && sources == old(sources) - 1
      ensures requested == old(requested) && owners == old(owners)
      ensures callbacks == old(callbacks) && ran == old(ran) && freed == old(freed)
    {
      sources := sources - 1;
    }

    /** request_stop: false when a stop was already requested; otherwise
        set the bit and pop and run every callback, head first. */
    method RequestStop() returns (first: bool)
      requires Valid()
      modifies this
      ensures Valid() && requested && sources == old(sources)
      ensures first <==> !old(requested)
      ensures first ==> Value() == old(Value()) | StopRequestedBit
      ensures first ==> ran == old(ran) + old(callbacks) && callbacks == []
      ensures !first ==> ran == old(ran) && callbacks == old(callbacks)
      ensures owners == old(owners) && freed == old(freed)
    {
      if requested {
        return false;
      }
      RequestBits(sources);
      var pending := callbacks;
      while pending != []
        invariant ran + pending == old(ran) + old(callbacks)
        invariant requested == old(requested) && sources == old(sources) && callbacks == old(callbacks)
        invariant owners == old(owners) && freed == old(freed)
        decreases |pending|
      {
        var cb := pending[0];
        assert [cb] + pending[1..] == pending;
        pending := pending[1..];
        ran := ran + [cb];
      }
      callbacks := [];
      requested := true;
      first := true;
    }

    /** register_callback: after a stop request the callback runs at once
        (false); with no source left it is refused (false); otherwise it is
        pushed on the head of the list (true). */
    method RegisterCallback(cb: CallbackId) returns (registered: bool)
      requires Valid() && cb !in callbacks
      modifies this
      ensures Valid() && requested == old(requested) && sources == old(sources)
      ensures owners == old(owners) && freed == old(freed)
      ensures registered <==> !requested && sources != 0
      ensures registered ==> callbacks == [cb] + old(callbacks) && ran == old(ran)
      ensures !registered && requested ==> callbacks == old(callbacks) && ran == old(ran) + [cb]
      ensures !registered && !requested ==> callbacks == old(callbacks) && ran == old(ran)
    {
      if requested {
        ran := ran + [cb];
        return false;
      }
      NoSourceBits(requested, sources);
      if sources == 0 {
        return false;
      }
      forall i, j | 0 <= i < j < |[cb] + callbacks|
        ensures ([cb] + callbacks)[i] != ([cb] + callbacks)[j]
      {
        if i == 0 {
          assert callbacks[j - 1] in callbacks;
        }
      }
      callbacks := [cb] + callbacks;
      registered := true;
    }

    /** remove_callback: a callback still in the list is unlinked; one
        already taken off by request_stop is left alone (the source then
        waits for it to finish running, or flags it as destroyed when it
        removes itself from inside its own run). */
    method RemoveCallback(cb: CallbackId)
      requires Valid()
      modifies this
      ensures Valid() && requested == old(requested) && sources == old(sources)
      ensures owners == old(owners) && freed == old(freed) && ran == old(ran)
      ensures callbacks == Without(old(callbacks), cb)
    {
      WithoutKeepsNoDup(callbacks, cb);
      callbacks := Without(callbacks, cb);
    }
  }

  /** stop_source: holds a counted reference to a state, or none
      (nostopstate or moved-from). */
  class StopSource {
    var state: StopState?

    ghost predicate Live()
      reads this, state
    {
      state != null ==> state.Valid() && !state.freed && state.owners >= 1 && state.sources >= 1
    }

    /** stop_source(): a fresh state. */
    constructor ()
      ensures state != null && fresh(state) && state.Valid() && !state.requested && state.sources == 1 && state.owners == 1
      ensures state.callbacks == [] && state.ran == [] && !state.freed
    {
      state := new StopState();
    }

    /** stop_source(nostopstate). */
    constructor NoStopState()
      ensures state == null
    {
      state := null;
    }

    /** The copy constructor: one more owner and one more source. */
    constructor Copy(other: StopSource)
      requires other.Live() && (other.state != null ==> other.state.sources < MaxSources - 1)
      modifies other.state
      ensures state == other.state
      ensures state != null ==> state.Valid() && state.owners == old(other.state.owners) + 1
                                && state.sources == old(other.state.sources) + 1
      ensures state != null ==> state.requested == old(other.state.requested) && state.callbacks == old(other.state.callbacks)
      ensures state != null ==> state.ran == old(other.state.ran) && state.freed == old(other.state.freed)
    {
      state := other.state;
      if other.state != null {
        other.state.AddOwner();
        other.state.AddSource();
      }
    }

    /** The move constructor. */
    constructor Move(other: StopSource)
      modifies other
      ensures state == old(other.state) && other.state == null
    {
      state := other.state;
      other.state := null;
    }

    /** stop_possible: there is a state. */
    method StopPossible() returns (b: bool)
      ensures b <==> state != null
    {
      b := state != null;
    }

    method StopRequested() returns (b: bool)
      requires state != null ==> state.Valid()
      ensures b <==> state != null && state.requested
    {
      b := false;
      if state != null {
        b := state.StopRequested();
      }
    }

    /** request_stop: false without a state. */
    method RequestStop() returns (first: bool)
      requires Live()
      modifies state
      ensures state == null ==> !first
      ensures state != null ==> Live() && state.requested && (first <==> !old(state.requested))
      ensures state != null && first ==> state.ran == old(state.ran) + old(state.callbacks) && state.callbacks == []
      ensures state != null && !first ==> state.ran == old(state.ran) && state.callbacks == old(state.callbacks)
      ensures state != null ==> state.owners == old(state.owners)
    {
      first := false;
      if state != null {
        first := state.RequestStop();
      }
    }

    /** get_token: a token sharing the state, which gains an owner. */
    method GetToken() returns (t: StopToken)
      requires Live()
      modifies state
      ensures fresh(t) && t.state == state
      ensures state != null ==> Live() && state.owners == old(state.owners) + 1
      ensures state != null ==> state.requested == old(state.requested) && state.sources == old(state.sources)
      ensures state != null ==> state.callbacks == old(state.callbacks) && state.ran == old(state.ran)
    {
      t := new StopToken(state);
    }

    /** The destructor: one source fewer, one owner fewer. */
    method Dispose()
      requires Live()
      modifies this, state
      ensures state == null
      ensures old(state) != null ==> old(state).sources == old(state.sources) - 1 && old(state).Valid()
      ensures old(state) != null ==> old(state).owners == old(state.owners) - 1 && (old(state).freed <==> old(state).owners == 0)
      ensures old(state) != null ==> old(state).callbacks == old(state.callbacks) && old(state).requested == old(state.requested)
      ensures old(state) != null ==> old(state).ran == old(state.ran)
    {
      if state != null {
        state.SubSource();
        state.ReleaseOwnership();
      }
      state := null;
    }

    /** Copy assignment: unless both share a state, the old state loses
        this source (and owner) and the other's gains one of each. */
    method CopyAssign(other: StopSource)
      requires Live() && other.Live()
      requires other.state != null ==> other.state.sources < MaxSources - 1
      modifies this, state, other.state
      ensures state == old(other.state)
      ensures old(state) != old(other.state) && old(state) != null ==>
                old(state).sources == old(state.sources) - 1 && old(state).owners == old(state.owners) - 1
      ensures old(state) != old(other.state) && old(other.state) != null ==>
                old(other.state).Valid() && old(other.state).sources == old(other.state.sources) + 1
                && old(other.state).owners == old(other.state.owners) + 1
      ensures old(state) == old(other.state) && old(state) != null ==>
                old(state).sources == old(state.sources) && old(state).owners == old(state.owners)
    {
      if state != other.state {
        if state != null {
          state.SubSource();
          state.ReleaseOwnership();
        }
        state := other.state;
        if state != null {
          state.AddOwner();
          state.AddSource();
        }
      }
    }

    /** The defaulted move assignment, as written: the state reference is
        moved through a temporary that is swapped in and then destroyed,
        so the old state loses this owner, but its source count is never
        decremented. A self-move puts the reference back where it was. */
    method MoveAssign(other: StopSource)
      requires Live()
      modifies this, other, state
      ensures other != this ==> state == old(other.state) && other.state == null
      ensures other == this ==> state == old(state)
      ensures other != this && old(state) != null ==>
                old(state).sources == old(state.sources) && old(state).owners == old(state.owners) - 1
                && old(state).requested == old(state.requested) && old(state).callbacks == old(state.callbacks)
      ensures other == this && state != null ==>
                state.owners == old(state.owners) && state.sources == old(state.sources) && !state.freed
    {
      var moved := other.state;
      other.state := null;
      var previous := state;
      state := moved;
      if previous != null {
        previous.ReleaseOwnership();
      }
    }

    /** Move assignment as a stop source should behave: the old state also
        loses this source, as the destructor would take it away. */
    method MoveAssignIntended(other: StopSource)
      requires Live()
      modifies this, other, state
      ensures other != this ==> state == old(other.state) && other.state == null
      ensures other == this ==> state == old(state)
      ensures other != this && old(state) != null ==>
                old(state).Valid() && old(state).sources == old(state.sources) - 1 && old(state).owners == old(state.owners) - 1
                && old(state).requested == old(state.requested)
      ensures other == this && state != null ==>
                state.owners == old(state.owners) && state.sources == old(state.sources) && !state.freed
    {
      var moved := other.state;
      other.state := null;
      var previous := state;
      state := moved;
      if previous != null {
        previous.SubSource();
        previous.ReleaseOwnership();
      }
    }
  }

  /** stop_token: a counted reference to a state, or none. */
  class StopToken {
    var state: StopState?

    /** stop_token(): no state. */
    constructor Empty()
      ensures state == null
    {
      state := null;
    }

    /** The token made by get_token (or a copy): one more owner. */
    constructor (s: StopState?)
      modifies s
      ensures state == s
      ensures s != null ==> s.owners == old(s.owners) + 1 && s.requested == old(s.requested) && s.sources == old(s.sources)
      ensures s != null ==> s.callbacks == old(s.callbacks) && s.ran == old(s.ran) && s.freed == old(s.freed)
    {
      state := s;
      if s != null {
        s.AddOwner();
      }
    }

    /** stop_possible: a state on which a stop was requested or that still
        has a source. */
    method StopPossible() returns (b: bool)
      requires state != null ==> state.Valid()
      ensures b <==> state != null && (state.requested || state.sources != 0)
    {
      b := false;
      if state != null {
        b := state.StopPossible();
      }
    }

    method StopRequested() returns (b: bool)
      requires state != null ==> state.Valid()
      ensures b <==> state != null && state.requested
    {
      b := false;
      if state != null {
        b := state.StopRequested();
      }
    }

    /** The destructor. */
    method Dispose()
      requires state != null ==> state.owners >= 1 && !state.freed
      modifies this, state
      ensures state == null
      ensures old(state) != null ==> old(state).owners == old(state.owners) - 1 && (old(state).freed <==> old(state).owners == 0)
      ensures old(state) != null ==> old(state).requested == old(state.requested) && old(state).sources == old(state.sources)
      ensures old(state) != null ==> old(state).callbacks == old(state.callbacks)
    {
      if state != null {
        state.ReleaseOwnership();
      }
      state := null;
    }
  }

  /** stop_callback: registered on construction, unregistered on
      destruction; it owns the state only while registered. */
  class StopCallback {
    const id: CallbackId
    var state: StopState?

    /** Construction from a token (by const reference): the callback is
        registered (and a copy of the state reference kept), run at once,
        or refused. */
    constructor (token: StopToken, id: CallbackId)
      requires token.state != null ==> token.state.Valid() && id !in token.state.callbacks
      modifies token.state
      ensures this.id == id
      ensures token.state == null ==> state == null
      ensures token.state != null ==> token.state.Valid() && token.state.freed == old(token.state.freed)
      ensures token.state != null ==> token.state.requested == old(token.state.requested) && token.state.sources == old(token.state.sources)
      ensures token.state != null ==> (state != null <==> !token.state.requested && token.state.sources != 0)
      ensures token.state != null && state != null ==>
                state == token.state && state.callbacks == [id] + old(token.state.callbacks)
                && state.owners == old(token.state.owners) + 1 && state.ran == old(token.state.ran)
      ensures token.state != null && state == null ==>
                token.state.callbacks == old(token.state.callbacks) && token.state.owners == old(token.state.owners)
                && token.state.ran == old(token.state.ran) + (if token.state.requested then [id] else [])
    {
      this.id := id;
      var s := token.state;
      if s == null {
        state := null;
      } else {
        var registered := s.RegisterCallback(id);
        if registered {
          s.AddOwner();
          state := s;
        } else {
          state := null;
        }
      }
    }

    /** Construction from a token passed by rvalue: on registration the
        token's state reference moves into the callback, so the token is
        left empty and the owner count stays; otherwise the token keeps its
        state and the callback runs at once or is refused. */
    constructor FromToken(token: StopToken, id: CallbackId)
      requires token.state != null ==> token.state.Valid() && id !in token.state.callbacks
      modifies token, token.state
      ensures this.id == id
      ensures old(token.state) == null ==> state == null && token.state == null
      ensures old(token.state) != null ==> old(token.state).Valid() && old(token.state).freed == old(token.state.freed)
      ensures old(token.state) != null ==> old(token.state).requested == old(token.state.requested) && old(token.state).sources == old(token.state.sources)
      ensures old(token.state) != null ==> old(token.state).owners == old(token.state.owners)
      ensures old(token.state) != null ==> (state != null <==> !old(token.state.requested) && old(token.state.sources) != 0)
      ensures state != null ==>
                state == old(token.state) && token.state == null
                && state.callbacks == [id] + old(token.state.callbacks) && state.ran == old(token.state.ran)
      ensures old(token.state) != null && state == null ==>
                token.state == old(token.state)
                && token.state.callbacks == old(token.state.callbacks)
                && token.state.ran == old(token.state.ran) + (if token.state.requested then [id] else [])
    {
      this.id := id;
      var s := token.state;
      if s == null {
        state := null;
      } else {
        var registered := s.RegisterCallback(id);
        if registered {
          state := s;
          token.state := null;
        } else {
          state := null;
        }
      }
    }

    /** The destructor: unregister, then let go of the state. */
    method Dispose()
      requires state != null ==> state.Valid() && state.owners >= 1 && !state.freed
      modifies this, state
      ensures state == null
      ensures old(state) != null ==> old(state).Valid() && old(state).callbacks == Without(old(state.callbacks), id)
      ensures old(state) != null ==> old(state).owners == old(state.owners) - 1 && old(state).ran == old(state.ran)
      ensures old(state) != null ==> old(state).requested == old(state.requested) && old(state).sources == old(state.sources)
      ensures old(state) != null ==> (old(state).freed <==> old(state).owners == 0)
    {
      if state != null {
        state.RemoveCallback(id);
        state.ReleaseOwnership();
      }
      state := null;
    }
  }

  /** A fresh source: a stop is possible and not requested; the first
      request answers true, later ones false; a nostopstate source can
      never stop. */
  method RequestOnceScenario() returns (possible: bool, requestedBefore: bool, first: bool, second: bool,
                                         requestedAfter: bool, emptyPossible: bool, emptyRequest: bool)
    ensures possible && !requestedBefore && first && !second && requestedAfter
    ensures !emptyPossible && !emptyRequest
  {
    var src := new StopSource();
    possible := src.StopPossible();
    requestedBefore := src.StopRequested();
    first := src.RequestStop();
    second := src.RequestStop();
    requestedAfter := src.StopRequested();
    var none := new StopSource.NoStopState();
    emptyPossible := none.StopPossible();
    emptyRequest := none.RequestStop();
  }

  /** Callbacks run once each on the first request, the most recently
      registered first; a callback whose registration comes after the
      request runs at once and is not registered; a removed one never runs. */
  method CallbackOrderScenario() returns (ran: seq<CallbackId>, lateRegistered: bool)
    ensures ran == [3, 1, 4] && !lateRegistered
  {
    var src := new StopSource();
    var token := src.GetToken();
    var cb1 := new StopCallback(token, 1);
    var cb2 := new StopCallback(token, 2);
    var cb3 := new StopCallback(token, 3);
    assert src.state.callbacks == [3, 2, 1];
    cb2.Dispose();
    assert [3, 2, 1][1..] == [2, 1] && [2, 1][1..] == [1];
    var _ := src.RequestStop();
    var cb4 := new StopCallback(token, 4);
    lateRegistered := cb4.state != null;
    ran := src.state.ran;
  }

  /** With every source gone, a token reports that no stop is possible
      and a callback is refused without running. */
  method NoSourceScenario() returns (possible: bool, registered: bool, ran: seq<CallbackId>)
    ensures !possible && !registered && ran == []
  {
    var src := new StopSource();
    var token := src.GetToken();
    var s := token.state;
    src.Dispose();
    possible := token.StopPossible();
    var cb := new StopCallback(token, 1);
    registered := cb.state != null;
    ran := s.ran;
  }

  /** The state is freed exactly when its last owner, here a token that
      outlives its source, lets go. */
  method LifetimeScenario() returns (freedAfterSource: bool, freedAfterToken: bool)
    ensures !freedAfterSource && freedAfterToken
  {
    var src := new StopSource();
    var token := src.GetToken();
    var s := token.state;
    src.Dispose();
    freedAfterSource := s.freed;
    token.Dispose();
    freedAfterToken := s.freed;
  }

  /** As written, moving another source into `a` leaves `a`'s former
      state counting a source that no longer exists: a token of that
      state still reports that a stop is possible, though no source can
      request one. With the intended move assignment it reports false. */
  method MoveAssignAsWritten() returns (possibleAsWritten: bool, possibleIntended: bool)
    ensures possibleAsWritten && !possibleIntended
  {
    var a := new StopSource();
    var token := a.GetToken();
    var b := new StopSource();
    a.MoveAssign(b);
    possibleAsWritten := token.StopPossible();

    var c := new StopSource();
    var token2 := c.GetToken();
    var d := new StopSource();
    c.MoveAssignIntended(d);
    possibleIntended := token2.StopPossible();
  }
}
