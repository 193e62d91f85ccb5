/** The coroutine-frame allocation of
    include/asyncpp/detail/promise_allocator_base.h. A promise type that
    derives from promise_allocator_base<Allocator> gets an operator new and
    an operator delete for its coroutine frames:
    - with an allocator whose instances are all equal (is_always_equal), a
      default-constructed allocator allocates exactly the frame size;
    - with a stateful allocator, taken from the coroutine's last argument,
      the block is one allocator object larger; the allocator is stored at
      its start and the frame begins just after it, so that delete can find
      it again from the frame address alone.
    Addresses are byte addresses, 0 is the null pointer, and the allocator
    is the counting debug_allocator of test/debug_allocator.h. */
module PromiseAllocator {

  type Pos = n: nat | n > 0 witness 1

  /** How the allocator type behaves: all instances equal, or stateful with
      objects of `objectSize` bytes (sizeof(allocator_type), at least 1). */
  datatype AllocatorKind = AlwaysEqual | Stateful(objectSize: Pos)

  /** The bytes in front of the frame: none, or one allocator object. */
  function HeaderSize(kind: AllocatorKind): (n: nat)
    ensures n == 0 <==> kind.AlwaysEqual?
  {
    match kind
    case AlwaysEqual => 0
    case Stateful(objectSize) => objectSize
  }

  /** The bytes operator new asks the allocator for, for a frame of `size`
      bytes: exactly `size`, or `size` plus one allocator object. */
  function BlockSize(kind: AllocatorKind, size: nat): (n: nat)
    ensures n >= size
    ensures n == size <==> kind.AlwaysEqual?
    ensures n - size == HeaderSize(kind)
  {
    size + HeaderSize(kind)
  }

  /** The frame address operator new returns for a block at `base`: `x + 1`
      on the allocator pointer steps over one allocator object. */
  function FrameStart(kind: AllocatorKind, base: nat): (p: nat)
    ensures p >= base && p - base == HeaderSize(kind)
  {
    base + HeaderSize(kind)
  }

  /** The block address operator delete computes from a frame address:
      `static_cast<allocator_type*>(ptr) - 1` steps back over it. */
  function BlockStart(kind: AllocatorKind, ptr: nat): (b: nat)
    requires ptr >= HeaderSize(kind)
    ensures b <= ptr && ptr - b == HeaderSize(kind)
  {
    ptr - HeaderSize(kind)
  }

  /** Delete finds the block new allocated. */
  lemma BlockOfFrame(kind: AllocatorKind, base: nat)
    ensures FrameStart(kind, base) >= HeaderSize(kind)
    ensures BlockStart(kind, FrameStart(kind, base)) == base
  {
  }

  /** The frame of `size` bytes and the stored allocator lie inside the
      block and do not overlap: the header is [base, frame), the frame is
      [frame, frame + size), and the block ends where the frame ends. */
  lemma FrameLayout(kind: AllocatorKind, base: nat, size: nat)
    ensures base + HeaderSize(kind) == FrameStart(kind, base)
    ensures FrameStart(kind, base) + size == base + BlockSize(kind, size)
  {
  }

  /** The byte allocator of test/debug_allocator.h: it counts the bytes and
      calls of allocate and deallocate. `live` maps each block handed out and
      not yet returned to its size; `next` is where the next block goes. */
  class DebugAllocator {
    var allocatedSum: nat
    var allocatedCount: nat
    var releasedSum: nat
    var releasedCount: nat
    var live: map<nat, nat>
    var next: nat

    /** Blocks are non-null and lie below `next`; every call of allocate is
        either still live or matched by one call of deallocate, and so is
        every byte. */
    ghost predicate Valid()
      reads this
    {
      next > 0
      && (forall a :: a in live ==> 0 < a && a + live[a] < next)
      && allocatedCount == releasedCount + |live|
      && allocatedSum == releasedSum + LiveBytes(live)
    }

    constructor ()
      ensures Valid() && live == map[]
      ensures allocatedSum == 0 && allocatedCount == 0 && releasedSum == 0 && releasedCount == 0
    {
      allocatedSum := 0;
      allocatedCount := 0;
      releasedSum := 0;
      releasedCount := 0;
      live := map[];
      next := 1;
      LiveBytesEmpty();
    }

    /** allocate(n): a fresh, non-null block of `n` bytes. */
    method Allocate(n: nat) returns (p: nat)
      requires Valid()
      modifies this
      ensures Valid()
      ensures p != 0 && p !in old(live) && live == old(live)[p := n]
      ensures allocatedSum == old(allocatedSum) + n && allocatedCount == old(allocatedCount) + 1
      ensures releasedSum == old(releasedSum) && releasedCount == old(releasedCount)
    {
      p := next;
      LiveBytesAdd(live, p, n);
      live := live[p := n];
      next := next + n + 1;
      allocatedSum := allocatedSum + n;
      allocatedCount := allocatedCount + 1;
    }

    /** deallocate(p, n): returns a block; the allocator requirements demand
        the pointer and the size allocate was called with. */
    method Deallocate(p: nat, n: nat)
      requires Valid() && p in live && live[p] == n
      modifies this
      ensures Valid()
      ensures live == old(live) - {p}
      ensures releasedSum == old(releasedSum) + n && releasedCount == old(releasedCount) + 1
      ensures allocatedSum == old(allocatedSum) && allocatedCount == old(allocatedCount)
    {
      LiveBytesRemove(live, p);
      live := live - {p};
      releasedSum := releasedSum + n;
      releasedCount := releasedCount + 1;
    }
  }

  /** The bytes of the live blocks. */
  ghost function LiveBytes(live: map<nat, nat>): (r: nat)
    decreases |live|
  {
    if live == map[] then 0
    else
      var a := PickKey(live);
      live[a] + LiveBytes(live - {a})
  }

  ghost function PickKey(live: map<nat, nat>): (a: nat)
    requires live != map[]
    ensures a in live
  {
    var a :| a in live; a
  }

  lemma LiveBytesEmpty()
    ensures LiveBytes(map[]) == 0
  {
  }

  /** Removing a live block takes its bytes away, whichever key the sum
      happened to pick first. */
  lemma {:induction false} LiveBytesRemove(live: map<nat, nat>, p: nat)
    requires p in live
    ensures LiveBytes(live) == live[p] + LiveBytes(live - {p})
    decreases |live|
  {
    var a := PickKey(live);
    if a != p {
      var rest := live - {a};
      LiveBytesRemove(rest, p);
      LiveBytesRemove(live - {p}, a);
      assert rest - {p} == (live - {p}) - {a};
    }
  }

  /** Adding a fresh block adds its bytes. */
  lemma LiveBytesAdd(live: map<nat, nat>, p: nat, n: nat)
    requires p !in live
    ensures LiveBytes(live[p := n]) == LiveBytes(live) + n
  {
    LiveBytesRemove(live[p := n], p);
    assert live[p := n] - {p} == live;
  }

  /** The allocator objects constructed in frame headers, by address. */
  class Memory {
    var objects: map<nat, DebugAllocator>

    constructor ()
      ensures objects == map[]
    {
      objects := map[];
    }
  }

  /** operator new(size, args...). For an always-equal allocator `alloc`
      stands for the default-constructed one; for a stateful allocator it is
      the coroutine's last argument, which is copied into the header. */
  method New(kind: AllocatorKind, size: nat, alloc: DebugAllocator, mem: Memory) returns (ptr: nat)
    requires alloc.Valid()
    modifies alloc, mem
    ensures alloc.Valid() && ptr != 0 && ptr >= HeaderSize(kind)
    ensures var base := BlockStart(kind, ptr);
            base !in old(alloc.live)
            && alloc.live == old(alloc.live)[base := BlockSize(kind, size)]
            && mem.objects == (if kind.Stateful? then old(mem.objects)[base := alloc] else old(mem.objects))
    ensures alloc.allocatedSum == old(alloc.allocatedSum) + BlockSize(kind, size)
    ensures alloc.allocatedCount == old(alloc.allocatedCount) + 1
    ensures alloc.releasedSum == old(alloc.releasedSum) && alloc.releasedCount == old(alloc.releasedCount)
  {
    var base := alloc.Allocate(BlockSize(kind, size));
    if kind.Stateful? {
      mem.objects := mem.objects[base := alloc];
    }
    ptr := FrameStart(kind, base);
  }

  /** The allocator that owns the block behind frame `ptr`: the shared
      default one, or the one stored in front of the frame. */
  function Owner(kind: AllocatorKind, ptr: nat, alloc: DebugAllocator, objects: map<nat, DebugAllocator>): (r: DebugAllocator)
    requires ptr >= HeaderSize(kind)
    requires kind.Stateful? ==> BlockStart(kind, ptr) in objects
  {
    if kind.AlwaysEqual? then alloc else objects[BlockStart(kind, ptr)]
  }

  /** `ptr` is a frame of `size` bytes that operator new returned and that
      has not been deleted: its block is live in its owner with the size new
      asked for. */
  ghost predicate FrameOf(kind: AllocatorKind, ptr: nat, size: nat, alloc: DebugAllocator, mem: Memory)
    reads mem, mem.objects.Values, alloc
  {
    ptr >= HeaderSize(kind)
    && (kind.Stateful? ==> BlockStart(kind, ptr) in mem.objects)
    && var owner := Owner(kind, ptr, alloc, mem.objects);
       owner.Valid()
       && BlockStart(kind, ptr) in owner.live
       && owner.live[BlockStart(kind, ptr)] == BlockSize(kind, size)
  }

  /** operator delete(ptr, size): nothing for the null pointer; otherwise the
      owner deallocates the block, with the size new allocated. */
  method Delete(kind: AllocatorKind, ptr: nat, size: nat, alloc: DebugAllocator, mem: Memory)
    requires ptr == 0 || FrameOf(kind, ptr, size, alloc, mem)
    modifies alloc, mem, mem.objects.Values
    ensures ptr == 0 ==> mem.objects == old(mem.objects) && unchanged(alloc) && unchanged(mem.objects.Values)
    ensures ptr != 0 ==>
              var base := BlockStart(kind, ptr);
              var owner := Owner(kind, ptr, alloc, old(mem.objects));
              owner.Valid()
              && owner.live == old(owner.live) - {base}
              && owner.releasedSum == old(owner.releasedSum) + BlockSize(kind, size)
              && owner.releasedCount == old(owner.releasedCount) + 1
              && owner.allocatedSum == old(owner.allocatedSum)
              && owner.allocatedCount == old(owner.allocatedCount)
              && mem.objects == (if kind.Stateful? then old(mem.objects) - {base} else old(mem.objects))
  {
    if ptr == 0 {
      return;
    }
    var base := BlockStart(kind, ptr);
    var owner := Owner(kind, ptr, alloc, mem.objects);
    owner.Deallocate(base, BlockSize(kind, size));
    if kind.Stateful? {
      mem.objects := mem.objects - {base};
    }
  }

  /** A frame created and destroyed through an always-equal allocator: one
      call each way, of exactly the frame size; deleting null does nothing. */
  method AlwaysEqualScenario(size: nat) returns (bytesTaken: nat, bytesReturned: nat, calls: nat, releaseCalls: nat)
    ensures bytesTaken == size && bytesReturned == size && calls == 1 && releaseCalls == 1
  {
    var alloc := new DebugAllocator();
    var mem := new Memory();
    var p := New(AlwaysEqual, size, alloc, mem);
    Delete(AlwaysEqual, p, size, alloc, mem);
    Delete(AlwaysEqual, 0, size, alloc, mem);
    bytesTaken, bytesReturned := alloc.allocatedSum, alloc.releasedSum;
    calls, releaseCalls := alloc.allocatedCount, alloc.releasedCount;
  }

  /** The first half of StatefulScenario: two frames allocated through the
      same stateful allocator, each a live block of its own. */
  method NewTwoFrames(kind: AllocatorKind, size1: nat, size2: nat, alloc: DebugAllocator, mem: Memory) returns (p1: nat, p2: nat)
    requires kind.Stateful? && alloc.Valid() && alloc.live == map[] && mem.objects == map[]
    requires alloc.allocatedSum == 0 && alloc.allocatedCount == 0 && alloc.releasedSum == 0 && alloc.releasedCount == 0
    modifies alloc, mem
    ensures p1 >= HeaderSize(kind) && p2 >= HeaderSize(kind) && BlockStart(kind, p1) != BlockStart(kind, p2)
    ensures p1 - BlockStart(kind, p1) == kind.objectSize
    ensures FrameOf(kind, p1, size1, alloc, mem) && FrameOf(kind, p2, size2, alloc, mem)
    ensures mem.objects.Keys == {BlockStart(kind, p1), BlockStart(kind, p2)}
    ensures alloc.live.Keys == {BlockStart(kind, p1), BlockStart(kind, p2)}
    ensures mem.objects[BlockStart(kind, p1)] == alloc && mem.objects[BlockStart(kind, p2)] == alloc
    ensures alloc.allocatedSum == size1 + size2 + 2 * kind.objectSize && alloc.allocatedCount == 2
    ensures alloc.releasedSum == 0 && alloc.releasedCount == 0
  {
    p1 := New(kind, size1, alloc, mem);
    p2 := New(kind, size2, alloc, mem);
  }

  /** The second half of StatefulScenario: the two frames deleted, the
      later one first, which returns both blocks and leaves no header. */
  method DeleteTwoFrames(kind: AllocatorKind, p1: nat, size1: nat, p2: nat, size2: nat, alloc: DebugAllocator, mem: Memory)
    requires kind.Stateful? && p1 >= HeaderSize(kind) && p2 >= HeaderSize(kind)
    requires BlockStart(kind, p1) != BlockStart(kind, p2)
    requires FrameOf(kind, p1, size1, alloc, mem) && FrameOf(kind, p2, size2, alloc, mem)
    requires mem.objects.Keys == {BlockStart(kind, p1), BlockStart(kind, p2)}
    requires alloc.live.Keys == {BlockStart(kind, p1), BlockStart(kind, p2)}
    requires mem.objects[BlockStart(kind, p1)] == alloc && mem.objects[BlockStart(kind, p2)] == alloc
    modifies alloc, mem
    ensures mem.objects.Keys == {} && alloc.live.Keys == {}
    ensures alloc.releasedSum == old(alloc.releasedSum) + BlockSize(kind, size1) + BlockSize(kind, size2)
    ensures alloc.releasedCount == old(alloc.releasedCount) + 2
    ensures alloc.allocatedSum == old(alloc.allocatedSum) && alloc.allocatedCount == old(alloc.allocatedCount)
  {
    Delete(kind, p2, size2, alloc, mem);
    assert FrameOf(kind, p1, size1, alloc, mem);
    Delete(kind, p1, size1, alloc, mem);
  }

  /** Two frames through a stateful allocator, deleted in the opposite
      order: each frame starts one allocator object into its block, and at
      the end every byte and call is matched and no header object is left
      (test/async_generator.cpp:41-58 checks the same balance). */
  method StatefulScenario(objectSize: Pos, size1: nat, size2: nat) returns (offset: nat, bytesTaken: nat, bytesReturned: nat, balanced: bool, headersLeft: nat)
    ensures offset == objectSize
    ensures bytesTaken == bytesReturned == size1 + size2 + 2 * objectSize
    ensures balanced && headersLeft == 0
  {
    var kind := Stateful(objectSize);
    var alloc := new DebugAllocator();
    var mem := new Memory();
    var p1, p2 := NewTwoFrames(kind, size1, size2, alloc, mem);
    offset := p1 - BlockStart(kind, p1);
    DeleteTwoFrames(kind, p1, size1, p2, size2, alloc, mem);
    assert mem.objects == map[] && alloc.live == map[];
    bytesTaken, bytesReturned := alloc.allocatedSum, alloc.releasedSum;
    balanced := alloc.allocatedCount == alloc.releasedCount && alloc.live == map[];
    headersLeft := |mem.objects|;
  }
}
