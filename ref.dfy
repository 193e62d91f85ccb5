/** Intrusive reference counting from include/asyncpp/ref.h: the counter
    policies, an object deriving from intrusive_refcount, the owning handle
    ref<T>, and atomic_ref<T> with its lock-bit pointer check. Deleting an
    object is recorded, and so is any later touch of its counter. */
module Refs {
  import opened Common

  /** The top bit of a std::uintptr_t, which atomic_ref uses as its lock. */
  const LockMask: nat := 0x8000_0000_0000_0000

  /** remove_ref on the counter alone: the new count and whether this call
      deletes the object (it held the last reference). */
  function RemoveStep(count: nat): (r: (nat, bool))
    requires count >= 1
    ensures r.0 + 1 == count
    ensures r.1 <==> r.0 == 0
  {
    (count - 1, count == 1)
  }

  /** An object deriving from intrusive_refcount, with its counter (which
      starts at 0). */
  class Counted {
    /** The object's address. */
    const address: nat
    var count: nat
    var deleted: bool
    /** The counter was touched after the object was deleted. */
    var touchedAfterDelete: bool

    constructor (address: nat)
      ensures this.address == address && count == 0 && !deleted && !touchedAfterDelete
    {
      this.address := address;
      count := 0;
      deleted := false;
      touchedAfterDelete := false;
    }

    /** fetch_increment: returns the count before the change. */
    method FetchIncrement() returns (before: nat)
      modifies this
      ensures before == old(count) && count == old(count) + 1
      ensures deleted == old(deleted) && touchedAfterDelete == (old(touchedAfterDelete) || old(deleted))
    {
      before := count;
      count := count + 1;
      touchedAfterDelete := touchedAfterDelete || deleted;
    }

    /** fetch_decrement: returns the count before the change. */
    method FetchDecrement() returns (before: nat)
      requires count >= 1
      modifies this
      ensures before == old(count) && count + 1 == old(count)
      ensures deleted == old(deleted) && touchedAfterDelete == (old(touchedAfterDelete) || old(deleted))
    {
      before := count;
      count := count - 1;
      touchedAfterDelete := touchedAfterDelete || deleted;
    }

    /** add_ref. */
    method AddRef()
      modifies this
      ensures count == old(count) + 1 && deleted == old(deleted)
      ensures touchedAfterDelete == (old(touchedAfterDelete) || old(deleted))
    {
      var _ := FetchIncrement();
    }

    /** remove_ref: the object deletes itself when the count it saw was 1. */
    method RemoveRef()
      requires count >= 1
      modifies this
      ensures (count, deleted && !old(deleted)) == (RemoveStep(old(count)).0, RemoveStep(old(count)).1 && !old(deleted))
      ensures deleted == (old(deleted) || old(count) == 1)
      ensures touchedAfterDelete == (old(touchedAfterDelete) || old(deleted))
    {
      var cnt := FetchDecrement();
      if cnt == 1 {
        deleted := true;
      }
    }
  }

  /** ref<T>: holds one reference to its object, or nothing. */
  class Ref {
    var ptr: Counted?

    /** ref(): empty. */
    constructor Empty()
      ensures ptr == null
    {
      ptr := null;
    }

    /** ref(p, adopt_ref): takes over a reference already counted. */
    constructor Adopt(p: Counted?)
      ensures ptr == p
    {
      ptr := p;
    }

    /** ref(p): adds a reference. */
    constructor (p: Counted?)
      modifies p
      ensures ptr == p
      ensures p != null ==> p.count == old(p.count) + 1 && p.deleted == old(p.deleted)
      ensures p != null ==> p.touchedAfterDelete == (old(p.touchedAfterDelete) || old(p.deleted))
    {
      ptr := p;
      if p != null {
        p.AddRef();
      }
    }

    /** The copy constructor adds a reference. */
    constructor Copy(other: Ref)
      modifies other.ptr
      ensures ptr == other.ptr
      ensures other.ptr != null ==> other.ptr.count == old(other.ptr.count) + 1 && other.ptr.deleted == old(other.ptr.deleted)
    {
      ptr := other.ptr;
      if other.ptr != null {
        other.ptr.AddRef();
      }
    }

    /** The move constructor takes the reference and empties the source. */
    constructor Move(other: Ref)
      modifies other
      ensures ptr == old(other.ptr) && other.ptr == null
    {
      ptr := other.ptr;
      other.ptr := null;
    }

    /** reset(p) as written: drop the old reference, then add one to p. */
    method Reset(p: Counted?)
      requires ptr != null ==> ptr.count >= 1
      modifies this, ptr, p
      ensures this.ptr == p
      ensures old(ptr) != null && old(ptr) != p ==>
                old(ptr).count + 1 == old(ptr.count) && old(ptr).deleted == (old(ptr.deleted) || old(ptr.count) == 1)
      ensures p != null && p != old(ptr) ==> p.count == old(p.count) + 1 && p.deleted == old(p.deleted)
      ensures p != null && p == old(ptr) ==>
                p.count == old(p.count) && p.deleted == (old(p.deleted) || old(p.count) == 1)
                && p.touchedAfterDelete == (old(p.touchedAfterDelete) || old(p.deleted) || old(p.count) == 1)
    {
      if ptr != null {
        ptr.RemoveRef();
      }
      ptr := p;
      if ptr != null {
        ptr.AddRef();
      }
    }

    /** reset(p) with the reference to p added before the old one is
        dropped: resetting to the object already held is harmless. */
    method ResetIntended(p: Counted?)
      requires ptr != null ==> ptr.count >= 1
      modifies this, ptr, p
      ensures this.ptr == p
      ensures old(ptr) != null && old(ptr) != p ==>
                old(ptr).count + 1 == old(ptr.count) && old(ptr).deleted == (old(ptr.deleted) || old(ptr.count) == 1)
      ensures p != null && p != old(ptr) ==> p.count == old(p.count) + 1 && p.deleted == old(p.deleted)
      ensures p != null && p == old(ptr) ==>
                p.count == old(p.count) && p.deleted == old(p.deleted)
                && p.touchedAfterDelete == (old(p.touchedAfterDelete) || old(p.deleted))
    {
      if p != null {
        p.AddRef();
      }
      if ptr != null {
        ptr.RemoveRef();
      }
      ptr := p;
    }

    /** reset(p, adopt_ref): drop the old reference, keep p's count. */
    method ResetAdopt(p: Counted?)
      requires ptr != null ==> ptr.count >= 1
      modifies this, ptr
      ensures this.ptr == p
      ensures old(ptr) != null ==>
                old(ptr).count + 1 == old(ptr.count) && old(ptr).deleted == (old(ptr.deleted) || old(ptr.count) == 1)
    {
      if ptr != null {
        ptr.RemoveRef();
      }
      ptr := p;
    }

    /** reset() and the destructor: drop the reference, become empty. */
    method Clear()
      requires ptr != null ==> ptr.count >= 1
      modifies this, ptr
      ensures ptr == null
      ensures old(ptr) != null ==>
                old(ptr).count + 1 == old(ptr.count) && old(ptr).deleted == (old(ptr.deleted) || old(ptr.count) == 1)
    {
      ResetAdopt(null);
    }

    /** Copy assignment: reset to the other's pointer unless assigning to itself. */
    method CopyAssign(other: Ref)
      requires ptr != null ==> ptr.count >= 1
      modifies this, ptr, other.ptr
      ensures ptr == old(other.ptr)
      ensures other == this && ptr != null ==> ptr.count == old(ptr.count)
      ensures other != this && old(ptr) != null && old(ptr) != ptr ==>
                old(ptr).count + 1 == old(ptr.count) && old(ptr).deleted == (old(ptr.deleted) || old(ptr.count) == 1)
      ensures other != this && ptr != null && ptr != old(ptr) ==>
                ptr.count == old(other.ptr.count) + 1 && ptr.deleted == old(other.ptr.deleted)
    {
      if other != this {
        Reset(other.ptr);
      }
    }

    /** Move assignment: drop the old reference, then take the other's;
        the source becomes empty (for a self-move, the source is this
        handle, whose pointer is read before it is cleared). */
    method MoveAssign(other: Ref)
      requires ptr != null ==> ptr.count >= 1
      modifies this, other, ptr
      ensures ptr == old(other.ptr)
      ensures other != this ==> other.ptr == null
      ensures old(ptr) != null ==>
                old(ptr).count + 1 == old(ptr.count) && old(ptr).deleted == (old(ptr.deleted) || old(ptr.count) == 1)
    {
      if ptr != null {
        ptr.RemoveRef();
      }
      var taken := other.ptr;
      other.ptr := null;
      ptr := taken;
    }

    /** release: hand the pointer out without touching the count. */
    method Release() returns (p: Counted?)
      modifies this
      ensures p == old(ptr) && ptr == null
    {
      p := ptr;
      ptr := null;
    }

    /** operator bool. */
    method IsSet() returns (b: bool)
      ensures b <==> ptr != null
    {
      b := ptr != null;
    }
  }

  /** make_ref: a new object holding one reference. */
  method MakeRef(address: nat) returns (r: Ref)
    ensures fresh(r) && fresh(r.ptr) && r.ptr != null
    ensures r.ptr.address == address && r.ptr.count == 1 && !r.ptr.deleted && !r.ptr.touchedAfterDelete
  {
    var obj := new Counted(address);
    r := new Ref(obj);
  }

  /** test/ref.cpp:14-52: assigning over the sole reference deletes the old
      object; two handles share a count of 2; the last reset deletes;
      release leaves the count alone. */
  method RefCountedScenario() returns (firstDeleted: bool, shared: nat, aliveAfterOneReset: bool,
                                       deletedAfterLastReset: bool, releasedCount: nat, releasedSet: bool)
    ensures firstDeleted && shared == 2 && aliveAfterOneReset && deletedAfterLastReset
    ensures releasedCount == 1 && !releasedSet
  {
    var hdl := MakeRef(1);
    var hdl2 := MakeRef(2);
    var first := hdl.ptr;
    var second := hdl2.ptr;
    hdl.CopyAssign(hdl2);
    firstDeleted := first.deleted;
    shared := second.count;
    hdl.Clear();
    aliveAfterOneReset := !second.deleted;
    hdl2.Clear();
    deletedAfterLastReset := second.deleted;
    var hdl3 := MakeRef(3);
    var p := hdl3.Release();
    releasedCount := p.count;
    releasedSet := hdl3.ptr != null;
  }

  /** reset(get()) on the only handle to an object, as written: the object
      is deleted by the drop and its counter is then incremented. */
  method ResetToSelfAsWritten() returns (deleted: bool, touched: bool)
    ensures deleted && touched
  {
    var r := MakeRef(1);
    var obj := r.ptr;
    r.Reset(obj);
    deleted := obj.deleted;
    touched := obj.touchedAfterDelete;
  }

  /** The same call with the add-then-drop order keeps the object alive. */
  method ResetToSelfIntended() returns (deleted: bool, touched: bool, count: nat)
    ensures !deleted && !touched && count == 1
  {
    var r := MakeRef(1);
    var obj := r.ptr;
    r.ResetIntended(obj);
    deleted := obj.deleted;
    touched := obj.touchedAfterDelete;
    count := obj.count;
  }

  /** atomic_ref<T>: a pointer word whose top bit is the lock; outside an
      operation the lock is free, so the word is just the pointer. */
  class AtomicRef {
    var ptr: Counted?

    constructor Empty()
      ensures ptr == null
    {
      ptr := null;
    }

    /** atomic_ref(ref<T>): a pointer with the lock bit set is refused with
        std::logic_error (and the handle keeps its reference); otherwise the
        reference is taken over. */
    constructor (hdl: Ref)
      modifies hdl
      ensures old(hdl.ptr) != null && old(hdl.ptr).address >= LockMask ==> ptr == null && hdl.ptr == old(hdl.ptr)
      ensures !(old(hdl.ptr) != null && old(hdl.ptr).address >= LockMask) ==> ptr == old(hdl.ptr) && hdl.ptr == null
    {
      if hdl.ptr != null && hdl.ptr.address >= LockMask {
        ptr := null;
      } else {
        ptr := hdl.ptr;
        hdl.ptr := null;
      }
    }

    /** exchange(ref<T>): the new pointer is released from its handle first,
        then checked; a pointer with the lock bit set throws logic_error,
        its reference left unowned. Otherwise the new pointer is stored
        and the old one returned with its reference adopted. */
    method Exchange(hdl: Ref) returns (previous: Ref?, logicError: bool)
      modifies this, hdl
      ensures hdl.ptr == null
      ensures logicError <==> old(hdl.ptr) != null && old(hdl.ptr).address >= LockMask
      ensures logicError ==> previous == null && ptr == old(ptr)
      ensures !logicError ==> previous != null && fresh(previous) && previous.ptr == old(ptr) && ptr == old(hdl.ptr)
    {
      var p := hdl.Release();
      if p != null && p.address >= LockMask {
        return null, true;
      }
      previous := new Ref.Adopt(ptr);
      ptr := p;
      logicError := false;
    }

    /** load: a new handle holding one more reference to the pointer. */
    method Load() returns (r: Ref)
      modifies ptr
      ensures fresh(r) && r.ptr == ptr
      ensures ptr != null ==> ptr.count == old(ptr.count) + 1 && ptr.deleted == old(ptr.deleted)
    {
      if ptr == null {
        r := new Ref.Empty();
        return;
      }
      ptr.AddRef();
      r := new Ref.Adopt(ptr);
    }

    /** operator bool: the pointer bits, without the lock bit, are non-zero. */
    method IsSet() returns (b: bool)
      ensures b <==> ptr != null
    {
      b := ptr != null;
    }
  }
}
