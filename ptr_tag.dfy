/** The pointer tagging of include/asyncpp/ptr_tag.h: a small integer is
    stored in the low bits of a pointer that its type's alignment leaves
    zero. Pointers are 64-bit `uintptr_t` values. An alignment, always a
    power of two, is given by its mask alignof(T) - 1: some number of low
    bits set. */
module PtrTag {
  type Address = bv64

  /** m is alignof(T) - 1 for a power-of-two alignment. */
  predicate IsMask(m: bv64)
  {
    m & (m + 1) == 0
  }

  /** The pointer is aligned: the mask's bits are clear. */
  predicate Aligned(v: Address, m: bv64)
  {
    v & m == 0
  }

  /** The tag is below the alignment: it has no bit outside the mask. */
  predicate FitsTag(id: bv64, m: bv64)
  {
    id & !m == 0
  }

  /** The requirement alignof(T) > ID of ptr_tag is FitsTag. */
  lemma FitsTagIsBelowAlignment(id: bv64, m: bv64)
    requires IsMask(m)
    ensures FitsTag(id, m) <==> id <= m
  {
  }

  /** ptr_tag<ID, T>(v): OR the tag into the low bits; the tag must be
      below the alignment and the pointer aligned. */
  function Tag(v: Address, id: bv64, m: bv64): (r: Address)
    requires IsMask(m) && FitsTag(id, m) && Aligned(v, m)
    ensures r & m == id
    ensures r & !m == v
  {
    v | id
  }

  /** ptr_untag<T>(v): split into the pointer with the low bits cleared
      and the low bits themselves. */
  function Untag(x: Address, m: bv64): (r: (Address, bv64))
    requires IsMask(m)
    ensures Aligned(r.0, m) && FitsTag(r.1, m)
    ensures r.0 | r.1 == x
  {
    (x & !m, x & m)
  }

  /** Untagging a tagged pointer gives back the pointer and the tag. */
  lemma UntagTag(v: Address, id: bv64, m: bv64)
    requires IsMask(m) && FitsTag(id, m) && Aligned(v, m)
    ensures Untag(Tag(v, id, m), m) == (v, id)
  {
  }

  /** Tagging an untagged split gives back the tagged pointer. */
  lemma TagUntag(x: Address, m: bv64)
    requires IsMask(m)
    ensures Tag(Untag(x, m).0, Untag(x, m).1, m) == x
  {
  }

  /** A non-zero tag changes the pointer. */
  lemma TagChangesPointer(v: Address, id: bv64, m: bv64)
    requires IsMask(m) && FitsTag(id, m) && Aligned(v, m) && id != 0
    ensures Tag(v, id, m) != v
  {
  }

  /** Mask a lies inside mask b. */
  predicate Within(a: bv64, b: bv64)
  {
    a & b == a
  }

  /** Of two alignments, one mask lies inside the other. */
  lemma MaskTotal(a: bv64, b: bv64)
    requires IsMask(a) && IsMask(b)
    ensures Within(a, b) || Within(b, a)
  {
  }

  /** For masks, lying inside is being no larger. */
  lemma WithinIsSmaller(a: bv64, b: bv64)
    requires IsMask(a) && IsMask(b)
    ensures Within(a, b) <==> a <= b
  {
  }

  lemma WithinTrans(x: bv64, y: bv64, z: bv64)
    requires Within(x, y) && Within(y, z)
    ensures Within(x, z)
  {
  }

  predicate AllMasks(ms: seq<bv64>)
  {
    forall i :: 0 <= i < |ms| ==> IsMask(ms[i])
  }

  /** min_alignof<T1, TExtra...>(): the smaller of the first alignment and
      the smallest of the rest (std::min); for masks "lies inside" is "no
      larger" (WithinIsSmaller), so the choice is made by Within. */
  function MinAlign(ms: seq<bv64>): (r: bv64)
    requires |ms| > 0 && AllMasks(ms)
    ensures r in ms
  {
    if |ms| == 1 then ms[0]
    else
      var rest := MinAlign(ms[1..]);
      if Within(ms[0], rest) then ms[0] else rest
  }

  /** The smallest alignment is an alignment. */
  lemma {:induction false} MinAlignIsMask(ms: seq<bv64>)
    requires |ms| > 0 && AllMasks(ms)
    ensures IsMask(MinAlign(ms))
  {
    var r := MinAlign(ms);
    assert r in ms;
  }

  /** The smallest alignment's mask lies inside every listed alignment's
      mask, so it is no larger than any of them. */
  lemma {:induction false} MinAlignBelow(ms: seq<bv64>, i: nat)
    requires |ms| > 0 && AllMasks(ms) && i < |ms|
    ensures Within(MinAlign(ms), ms[i])
  {
    if |ms| > 1 {
      var rest := MinAlign(ms[1..]);
      MinAlignIsMask(ms[1..]);
      MaskTotal(ms[0], rest);
      if i > 0 {
        MinAlignBelow(ms[1..], i - 1);
        if Within(ms[0], rest) {
          WithinTrans(ms[0], rest, ms[i]);
        }
      }
    }
  }

  /** std::min over the list: the result is one of the alignments and no
      larger than any of them. */
  lemma MinAlignIsMinimum(ms: seq<bv64>, i: nat)
    requires |ms| > 0 && AllMasks(ms) && i < |ms|
    ensures MinAlign(ms) in ms && MinAlign(ms) <= ms[i]
  {
    MinAlignIsMask(ms);
    MinAlignBelow(ms, i);
    WithinIsSmaller(MinAlign(ms), ms[i]);
  }

  /** ptr_get_tag<T...>(v): the low bits below the smallest alignment. */
  function GetTag(v: Address, ms: seq<bv64>): (t: bv64)
    requires |ms| > 0 && AllMasks(ms)
    ensures FitsTag(t, MinAlign(ms))
  {
    LowBitsFit(v, MinAlign(ms));
    v & MinAlign(ms)
  }

  lemma LowBitsFit(v: bv64, m: bv64)
    ensures FitsTag(v & m, m)
  {
  }

  /** A pointer to any of the listed types, tagged with a value below the
      smallest of their alignments, reports that tag from ptr_get_tag. */
  lemma GetTagOfTagged(v: Address, id: bv64, ms: seq<bv64>, i: nat)
    requires |ms| > 0 && AllMasks(ms)
    requires i < |ms| && Aligned(v, ms[i]) && FitsTag(id, MinAlign(ms))
    ensures IsMask(ms[i]) && FitsTag(id, ms[i])
    ensures GetTag(Tag(v, id, ms[i]), ms) == id
  {
    var a := MinAlign(ms);
    MinAlignBelow(ms, i);
    GetTagBits(v, id, a, ms[i]);
  }

  lemma GetTagBits(v: bv64, id: bv64, a: bv64, b: bv64)
    requires Within(a, b) && FitsTag(id, a) && Aligned(v, b)
    ensures FitsTag(id, b)
    ensures (v | id) & a == id
  {
  }

  /** The tag enum of test/ptr_tag.cpp; the enum overloads of ptr_tag and
      ptr_untag go through its numeric value. */
  datatype TestTag = Test0 | Test1

  function TagValue(t: TestTag): (n: bv64)
    ensures n == 0 || n == 1
  {
    match t
    case Test0 => 0
    case Test1 => 1
  }

  /** static_cast<TTag>(n) for the values the enum has. */
  function TagOfValue(n: bv64): (t: TestTag)
    requires n == 0 || n == 1
    ensures TagValue(t) == n
  {
    if n == 0 then Test0 else Test1
  }

  /** The enum overload: tagging with an enumerator and untagging with the
      enum type gives back the pointer and the enumerator, for any type
      aligned to at least 2. */
  lemma UntagTagEnum(v: Address, t: TestTag, m: bv64)
    requires IsMask(m) && m != 0 && Aligned(v, m)
    ensures FitsTag(TagValue(t), m)
    ensures Untag(Tag(v, TagValue(t), m), m) == (v, TagValue(t))
    ensures TagOfValue(Untag(Tag(v, TagValue(t), m), m).1) == t
  {
    OneBitFits(TagValue(t), m);
    UntagTag(v, TagValue(t), m);
  }

  lemma OneBitFits(n: bv64, m: bv64)
    requires (n == 0 || n == 1) && IsMask(m) && m != 0
    ensures n & !m == 0
  {
  }

  /** test/ptr_tag.cpp:17-26: a pointer to a struct holding a size_t
      (alignment 8, mask 7) tagged with 1 differs from the original,
      reports tag 1 and untags to the original pointer and 1. */
  lemma PtrTagSample(p: Address)
    requires Aligned(p, 7)
    ensures IsMask(7) && FitsTag(1, 7)
    ensures Tag(p, 1, 7) != p
    ensures GetTag(Tag(p, 1, 7), [7]) == 1
    ensures Untag(Tag(p, 1, 7), 7) == (p, 1)
  {
    TagChangesPointer(p, 1, 7);
    GetTagOfTagged(p, 1, [7], 0);
    UntagTag(p, 1, 7);
  }

  /** test/ptr_tag.cpp:28-37: the same with the enumerator test1 as tag;
      untagging with the enum type gives back test1. */
  lemma PtrTagEnumSample(p: Address)
    requires Aligned(p, 7)
    ensures IsMask(7) && FitsTag(TagValue(Test1), 7)
    ensures Tag(p, TagValue(Test1), 7) != p
    ensures GetTag(Tag(p, TagValue(Test1), 7), [7]) == TagValue(Test1)
    ensures Untag(Tag(p, TagValue(Test1), 7), 7).0 == p
    ensures TagOfValue(Untag(Tag(p, TagValue(Test1), 7), 7).1) == Test1
  {
    UntagTagEnum(p, Test1, 7);
    PtrTagSample(p);
  }
}
