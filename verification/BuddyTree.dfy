/** The state of the buddy allocator (kernel/buddy.c): per-size alloc and split bit
  vectors and free lists over a binary tree of blocks.

  Block i of size k covers leaves i*2^k up to (i+1)*2^k. Its buddy shares its
  parent, block i/2 of size k+1.
 */
module BuddyTree {
  import opened Common
  import opened Arith
  import Ring

  type Bits = seq<seq<bool>>

  datatype Blk = Blk(k: int, i: int)

  /** top is MAXSIZE; free[k] is the free list of size k, as block indices. */
  datatype Heap = Heap(top: nat, alloc: Bits, split: Bits, free: seq<seq<int>>)

  // ---------------------------------------------------------------- indices

  /** The block of size k that contains leaf x. */
  function Down(x: nat, k: nat): nat {
    if k == 0 then x else Down(x, k - 1) / 2
  }

  /** The first block of size k that starts at or after leaf x. */
  function Up(x: nat, k: nat): nat {
    if k == 0 then x else (Up(x, k - 1) + 1) / 2
  }

  function Buddy(i: int): int {
    if i % 2 == 0 then i + 1 else i - 1
  }

  predicate InRange(top: nat, k: int, i: int) {
    0 <= k <= top && 0 <= i < Pow2(top - k)
  }

  lemma ParentInRange(top: nat, k: int, i: int)
    requires InRange(top, k, i) && k < top
    ensures InRange(top, k + 1, i / 2) && InRange(top, k, Buddy(i)) && Buddy(i) / 2 == i / 2 && Buddy(Buddy(i)) == i
  {
  }

  lemma ChildInRange(top: nat, k: int, i: int)
    requires InRange(top, k, i) && k > 0
    ensures InRange(top, k - 1, 2 * i) && InRange(top, k - 1, 2 * i + 1)
  {
  }

  lemma {:induction false} DownInRange(top: nat, x: nat, k: nat)
    requires k <= top && x < Pow2(top)
    ensures InRange(top, k, Down(x, k))
  {
    if k > 0 {
      DownInRange(top, x, k - 1);
      ParentInRange(top, k - 1, Down(x, k - 1));
    }
  }

  // ---------------------------------------------------------------- bit vectors

  predicate Shaped(bits: Bits, top: nat) {
    |bits| == top + 1 && forall k :: 0 <= k <= top ==> |bits[k]| == Pow2(top - k)
  }

  function Get(bits: Bits, k: int, i: int): bool {
    0 <= k < |bits| && 0 <= i < |bits[k]| && bits[k][i]
  }

  function Put(bits: Bits, k: int, i: int, v: bool): (r: Bits)
    requires 0 <= k < |bits| && 0 <= i < |bits[k]|
    ensures |r| == |bits| && forall j :: 0 <= j < |bits| ==> |r[j]| == |bits[j]|
    ensures forall j, x :: Get(r, j, x) == if j == k && x == i then v else Get(bits, j, x)
  {
    bits[k := bits[k][i := v]]
  }

  // ---------------------------------------------------------------- invariant

  /** A block exists as a unit of allocation when its parent is split. */
  predicate Present(h: Heap, k: int, i: int) {
    k == h.top || Get(h.split, k + 1, i / 2)
  }

  predicate Shape(h: Heap) {
    Shaped(h.alloc, h.top) && Shaped(h.split, h.top) && |h.free| == h.top + 1
  }

  /** A split block is allocated and is not a leaf; a block that does not exist has no bit set. */
  ghost predicate NodeOk(h: Heap, k: int, i: int) {
    && (Get(h.split, k, i) ==> Get(h.alloc, k, i) && k > 0)
    && (Get(h.alloc, k, i) ==> Present(h, k, i))
  }

  ghost predicate BitsOk(h: Heap) {
    forall k, i :: InRange(h.top, k, i) ==> NodeOk(h, k, i)
  }

  /** The free list of size k holds exactly the existing blocks whose alloc bit is clear, once each. */
  ghost predicate ListOk(h: Heap, k: int)
    requires 0 <= k < |h.free|
  {
    && Distinct(h.free[k])
    && forall i :: i in h.free[k] <==> InRange(h.top, k, i) && Present(h, k, i) && !Get(h.alloc, k, i)
  }

  ghost predicate ListsOk(h: Heap) {
    forall k :: 0 <= k < |h.free| ==> ListOk(h, k)
  }

  /** Two existing buddies are never both free. */
  ghost predicate PairOk(h: Heap, k: int, i: int) {
    Present(h, k, i) ==> Get(h.alloc, k, i) || Get(h.alloc, k, Buddy(i))
  }

  ghost predicate Merged(h: Heap) {
    forall k, i :: InRange(h.top, k, i) && k < h.top ==> PairOk(h, k, i)
  }

  /** `live` is the set of blocks in use: handed out, or reserved at initialisation. */
  ghost predicate LiveOk(h: Heap, live: set<Blk>) {
    && (forall k, i {:trigger Blk(k, i)} :: InRange(h.top, k, i) ==>
          (Blk(k, i) in live <==> Get(h.alloc, k, i) && !Get(h.split, k, i)))
    && (forall b :: b in live ==> InRange(h.top, b.k, b.i))
  }

  ghost predicate Inv(h: Heap, live: set<Blk>) {
    Shape(h) && BitsOk(h) && ListsOk(h) && Merged(h) && LiveOk(h, live)
  }

  // ---------------------------------------------------------------- splitting a block in use

  /** One turn of bd_malloc's loop: the left half stays in use, the right half goes on the free list. */
  function Split(h: Heap, k: int, i: int): Heap
    requires Shape(h) && InRange(h.top, k, i) && k > 0
  {
    ChildInRange(h.top, k, i);
    h.(split := Put(h.split, k, i, true), alloc := Put(h.alloc, k - 1, 2 * i, true),
       free := h.free[k - 1 := [2 * i + 1] + h.free[k - 1]])
  }

  lemma SplitShape(h: Heap, k: int, i: int)
    requires Shape(h) && InRange(h.top, k, i) && k > 0
    ensures Shape(Split(h, k, i)) && Split(h, k, i).top == h.top
    ensures forall j, x :: Get(Split(h, k, i).split, j, x) == ((j == k && x == i) || Get(h.split, j, x))
    ensures forall j, x :: Get(Split(h, k, i).alloc, j, x) == ((j == k - 1 && x == 2 * i) || Get(h.alloc, j, x))
    ensures Split(h, k, i).free == h.free[k - 1 := [2 * i + 1] + h.free[k - 1]]
  {
  }

  /** Under a block that is not split nothing exists. */
  lemma NoChildren(h: Heap, k: int, i: int)
    requires Shape(h) && BitsOk(h) && InRange(h.top, k, i) && k > 0 && !Get(h.split, k, i)
    ensures InRange(h.top, k - 1, 2 * i) && InRange(h.top, k - 1, 2 * i + 1)
    ensures !Present(h, k - 1, 2 * i) && !Get(h.alloc, k - 1, 2 * i) && !Get(h.split, k - 1, 2 * i)
    ensures !Present(h, k - 1, 2 * i + 1) && !Get(h.alloc, k - 1, 2 * i + 1) && !Get(h.split, k - 1, 2 * i + 1)
  {
    ChildInRange(h.top, k, i);
    assert (2 * i) / 2 == i && (2 * i + 1) / 2 == i;
    assert NodeOk(h, k - 1, 2 * i) && NodeOk(h, k - 1, 2 * i + 1);
  }

  lemma SplitBits(h: Heap, k: int, i: int)
    requires Shape(h) && BitsOk(h) && InRange(h.top, k, i) && k > 0 && Get(h.alloc, k, i)
    ensures BitsOk(Split(h, k, i))
  {
  }

  lemma SplitPresent(h: Heap, k: int, i: int, j: int, x: int)
    requires Shape(h) && InRange(h.top, k, i) && k > 0
    ensures Present(Split(h, k, i), j, x) <==> Present(h, j, x) || (j == k - 1 && x / 2 == i)
  {
  }

  lemma SplitList(h: Heap, k: int, i: int, j: int)
    requires Shape(h) && BitsOk(h) && 0 <= j < |h.free| && ListOk(h, j)
    requires InRange(h.top, k, i) && k > 0 && !Get(h.split, k, i)
    ensures Shape(Split(h, k, i)) && ListOk(Split(h, k, i), j)
  {
    hide Split, BitsOk;
    SplitShape(h, k, i);
    NoChildren(h, k, i);
    var h' := Split(h, k, i);
    forall x
      ensures x in h'.free[j] <==> InRange(h'.top, j, x) && Present(h', j, x) && !Get(h'.alloc, j, x)
    {
      SplitPresent(h, k, i, j, x);
      assert x / 2 == i <==> x == 2 * i || x == 2 * i + 1;
      if j == k - 1 {
        assert x in h'.free[j] <==> x == 2 * i + 1 || x in h.free[j];
      }
    }
  }

  lemma SplitLists(h: Heap, k: int, i: int)
    requires Shape(h) && BitsOk(h) && ListsOk(h) && InRange(h.top, k, i) && k > 0 && !Get(h.split, k, i)
    ensures ListsOk(Split(h, k, i))
  {
    hide Split, BitsOk, ListOk;
    SplitShape(h, k, i);
    forall j | 0 <= j < |h.free|
      ensures ListOk(Split(h, k, i), j)
    {
      SplitList(h, k, i, j);
    }
  }

  lemma SplitMerged(h: Heap, k: int, i: int)
    requires Shape(h) && BitsOk(h) && Merged(h) && InRange(h.top, k, i) && k > 0
    ensures Merged(Split(h, k, i))
  {
  }

  lemma SplitLive(h: Heap, k: int, i: int, live: set<Blk>)
    requires Shape(h) && BitsOk(h) && LiveOk(h, live) && InRange(h.top, k, i) && k > 0 && Blk(k, i) in live
    ensures LiveOk(Split(h, k, i), live - {Blk(k, i)} + {Blk(k - 1, 2 * i)})
  {
    hide Split;
    SplitShape(h, k, i);
    NoChildren(h, k, i);
  }

  lemma SplitStep(h: Heap, k: int, i: int, live: set<Blk>)
    requires Inv(h, live) && Blk(k, i) in live && k > 0
    ensures InRange(h.top, k, i) && Inv(Split(h, k, i), live - {Blk(k, i)} + {Blk(k - 1, 2 * i)})
  {
    hide Split, BitsOk, ListsOk, Merged;
    assert Get(h.alloc, k, i) && !Get(h.split, k, i);
    SplitShape(h, k, i);
    SplitBits(h, k, i);
    SplitLists(h, k, i);
    SplitMerged(h, k, i);
    SplitLive(h, k, i, live);
  }

  // ---------------------------------------------------------------- taking a free block

  /** bd_malloc pops the first block of a free list and marks it allocated. */
  function Take(h: Heap, k: int): Heap
    requires Shape(h) && 0 <= k <= h.top && h.free[k] != [] && InRange(h.top, k, h.free[k][0])
  {
    h.(alloc := Put(h.alloc, k, h.free[k][0], true), free := h.free[k := h.free[k][1..]])
  }

  lemma TakeList(h: Heap, k: int, j: int)
    requires Shape(h) && BitsOk(h) && 0 <= j < |h.free| && ListOk(h, j)
    requires 0 <= k <= h.top && h.free[k] != [] && InRange(h.top, k, h.free[k][0])
    ensures Shape(Take(h, k)) && ListOk(Take(h, k), j)
  {
  }

  lemma TakeStep(h: Heap, k: int, live: set<Blk>)
    requires Inv(h, live) && 0 <= k <= h.top && h.free[k] != []
    ensures InRange(h.top, k, h.free[k][0]) && Blk(k, h.free[k][0]) !in live
    ensures Inv(Take(h, k), live + {Blk(k, h.free[k][0])})
  {
    assert ListOk(h, k);
    var i := h.free[k][0];
    assert i in h.free[k];
    var h' := Take(h, k);
    forall j | 0 <= j < |h'.free|
      ensures ListOk(h', j)
    {
      TakeList(h, k, j);
    }
  }

  // ---------------------------------------------------------------- giving a block back

  /** bd_free when the buddy is in use. */
  function Release(h: Heap, k: int, i: int): Heap
    requires Shape(h) && InRange(h.top, k, i)
  {
    h.(alloc := Put(h.alloc, k, i, false), free := h.free[k := [i] + h.free[k]])
  }

  lemma ReleaseList(h: Heap, k: int, i: int, j: int)
    requires Shape(h) && 0 <= j < |h.free| && ListOk(h, j)
    requires InRange(h.top, k, i) && Present(h, k, i) && Get(h.alloc, k, i)
    ensures Shape(Release(h, k, i)) && ListOk(Release(h, k, i), j)
  {
  }

  lemma ReleaseStep(h: Heap, k: int, i: int, live: set<Blk>)
    requires Inv(h, live) && Blk(k, i) in live && k < h.top && Get(h.alloc, k, Buddy(i))
    ensures InRange(h.top, k, i) && Inv(Release(h, k, i), live - {Blk(k, i)})
  {
    assert InRange(h.top, k, i) && Get(h.alloc, k, i) && NodeOk(h, k, i);
    ParentInRange(h.top, k, i);
    var h' := Release(h, k, i);
    forall j | 0 <= j < |h'.free|
      ensures ListOk(h', j)
    {
      ReleaseList(h, k, i, j);
    }
    forall j, x | InRange(h'.top, j, x) && j < h'.top
      ensures PairOk(h', j, x)
    {
      assert PairOk(h, j, x);
      ParentInRange(h.top, j, x);
    }
  }

  /** One turn of bd_free's loop when the buddy is free: both become their parent. */
  function Merge(h: Heap, k: int, i: int, at: int): Heap
    requires Shape(h) && InRange(h.top, k, i) && k < h.top && 0 <= at < |h.free[k]|
  {
    ParentInRange(h.top, k, i);
    h.(alloc := Put(h.alloc, k, i, false), split := Put(h.split, k + 1, i / 2, false),
       free := h.free[k := Ring.Without(h.free[k], at)])
  }

  lemma MergeShape(h: Heap, k: int, i: int, at: int)
    requires Shape(h) && InRange(h.top, k, i) && k < h.top && 0 <= at < |h.free[k]|
    ensures Shape(Merge(h, k, i, at)) && Merge(h, k, i, at).top == h.top
    ensures forall j, x :: Get(Merge(h, k, i, at).split, j, x) == (!(j == k + 1 && x == i / 2) && Get(h.split, j, x))
    ensures forall j, x :: Get(Merge(h, k, i, at).alloc, j, x) == (!(j == k && x == i) && Get(h.alloc, j, x))
    ensures Merge(h, k, i, at).free == h.free[k := Ring.Without(h.free[k], at)]
  {
  }

  lemma MergePresent(h: Heap, k: int, i: int, at: int, j: int, x: int)
    requires Shape(h) && InRange(h.top, k, i) && k < h.top && 0 <= at < |h.free[k]|
    ensures Present(Merge(h, k, i, at), j, x) <==> Present(h, j, x) && !(j == k && x / 2 == i / 2)
  {
  }

  lemma SamePair(i: int, x: int)
    ensures x / 2 == i / 2 <==> x == i || x == Buddy(i)
  {
  }

  lemma MergeBits(h: Heap, k: int, i: int, at: int)
    requires Shape(h) && BitsOk(h) && InRange(h.top, k, i) && k < h.top && 0 <= at < |h.free[k]|
    requires !Get(h.split, k, i) && !Get(h.alloc, k, Buddy(i))
    ensures BitsOk(Merge(h, k, i, at))
  {
    hide Merge;
    MergeShape(h, k, i, at);
    var h' := Merge(h, k, i, at);
    forall j, x | InRange(h'.top, j, x)
      ensures NodeOk(h', j, x)
    {
      assert NodeOk(h, j, x);
      MergePresent(h, k, i, at, j, x);
      SamePair(i, x);
    }
  }

  lemma MergeList(h: Heap, k: int, i: int, at: int, j: int)
    requires Shape(h) && 0 <= j < |h.free| && ListOk(h, j)
    requires InRange(h.top, k, i) && k < h.top && 0 <= at < |h.free[k]| && h.free[k][at] == Buddy(i)
    requires Get(h.alloc, k, i)
    ensures Shape(Merge(h, k, i, at)) && ListOk(Merge(h, k, i, at), j)
  {
    hide Merge;
    MergeShape(h, k, i, at);
    var h' := Merge(h, k, i, at);
    forall x
      ensures x in h'.free[j] <==> InRange(h'.top, j, x) && Present(h', j, x) && !Get(h'.alloc, j, x)
    {
      MergePresent(h, k, i, at, j, x);
      SamePair(i, x);
      if j == k {
        InWithout(h.free[k], at, x);
      }
    }
  }

  lemma InWithout(s: seq<int>, at: nat, x: int)
    requires Distinct(s) && at < |s|
    ensures x in Ring.Without(s, at) <==> x in s && x != s[at]
    ensures Distinct(Ring.Without(s, at))
  {
  }

  lemma MergeMerged(h: Heap, k: int, i: int, at: int)
    requires Shape(h) && Merged(h) && InRange(h.top, k, i) && k < h.top && 0 <= at < |h.free[k]|
    ensures Merged(Merge(h, k, i, at))
  {
    hide Merge;
    MergeShape(h, k, i, at);
    var h' := Merge(h, k, i, at);
    forall j, x | InRange(h'.top, j, x) && j < h'.top
      ensures PairOk(h', j, x)
    {
      assert PairOk(h, j, x);
      MergePresent(h, k, i, at, j, x);
      SamePair(i, x);
      assert Buddy(x) == i ==> x == Buddy(i);
    }
  }

  lemma MergeLists(h: Heap, k: int, i: int, at: int)
    requires Shape(h) && ListsOk(h) && InRange(h.top, k, i) && k < h.top && Get(h.alloc, k, i)
    requires 0 <= at < |h.free[k]| && h.free[k][at] == Buddy(i)
    ensures ListsOk(Merge(h, k, i, at))
  {
    hide Merge, ListOk;
    MergeShape(h, k, i, at);
    forall j | 0 <= j < |h.free|
      ensures ListOk(Merge(h, k, i, at), j)
    {
      MergeList(h, k, i, at, j);
    }
  }

  lemma MergeLive(h: Heap, k: int, i: int, at: int, live: set<Blk>)
    requires Shape(h) && BitsOk(h) && LiveOk(h, live) && Blk(k, i) in live && 0 <= k < h.top && InRange(h.top, k, i)
    requires 0 <= at < |h.free[k]|
    ensures LiveOk(Merge(h, k, i, at), live - {Blk(k, i)} + {Blk(k + 1, i / 2)})
  {
  }

  /** A block on the free list is there because its alloc bit is clear. */
  lemma FreeIsClear(h: Heap, k: int, x: int)
    requires ListsOk(h) && 0 <= k < |h.free| && x in h.free[k]
    ensures InRange(h.top, k, x) && Present(h, k, x) && !Get(h.alloc, k, x)
  {
    assert ListOk(h, k);
  }

  lemma LiveIsSet(h: Heap, live: set<Blk>, k: int, i: int)
    requires LiveOk(h, live) && Blk(k, i) in live
    ensures InRange(h.top, k, i) && Get(h.alloc, k, i) && !Get(h.split, k, i)
  {
  }

  lemma MergeStep(h: Heap, k: int, i: int, at: int, live: set<Blk>)
    requires Inv(h, live) && Blk(k, i) in live && 0 <= k < h.top
    requires 0 <= at < |h.free[k]| && h.free[k][at] == Buddy(i)
    ensures InRange(h.top, k, i) && Inv(Merge(h, k, i, at), live - {Blk(k, i)} + {Blk(k + 1, i / 2)})
  {
    hide Merge, Merged, ListsOk, BitsOk, LiveOk;
    LiveIsSet(h, live, k, i);
    FreeIsClear(h, k, Buddy(i));
    MergeShape(h, k, i, at);
    MergeBits(h, k, i, at);
    MergeMerged(h, k, i, at);
    MergeLists(h, k, i, at);
    MergeLive(h, k, i, at, live);
  }

  // ---------------------------------------------------------------- tiling

  /** A block that exists and is not split further: the units the heap is made of. */
  predicate Terminal(h: Heap, k: int, i: int) {
    InRange(h.top, k, i) && Present(h, k, i) && !Get(h.split, k, i)
  }

  /** Every ancestor of an existing block is split. */
  lemma {:induction false} AncestorsSplit(h: Heap, x: nat, k: nat, j: nat)
    requires Shape(h) && BitsOk(h) && x < Pow2(h.top) && k < j <= h.top && Present(h, k, Down(x, k))
    ensures Get(h.split, j, Down(x, j))
    decreases j
  {
    if j > k + 1 {
      AncestorsSplit(h, x, k, j - 1);
      DownInRange(h.top, x, j - 1);
      assert NodeOk(h, j - 1, Down(x, j - 1));
    }
  }

  /** Nothing exists under an unsplit block. */
  lemma {:induction false} DescendantsAbsent(h: Heap, x: nat, k: nat, j: nat)
    requires Shape(h) && BitsOk(h) && x < Pow2(h.top) && j < k <= h.top && !Get(h.split, k, Down(x, k))
    ensures !Present(h, j, Down(x, j)) && !Get(h.split, j, Down(x, j)) && !Get(h.alloc, j, Down(x, j))
    decreases k - j
  {
    DownInRange(h.top, x, j);
    if j < k - 1 {
      DescendantsAbsent(h, x, k, j + 1);
    }
    assert NodeOk(h, j, Down(x, j));
  }

  /** The size of the terminal block that covers leaf x, at or below size k. */
  ghost function CoverSize(h: Heap, x: nat, k: nat): (j: nat)
    requires Shape(h) && BitsOk(h) && x < Pow2(h.top) && k <= h.top && Present(h, k, Down(x, k))
    ensures j <= k && Terminal(h, j, Down(x, j))
  {
    DownInRange(h.top, x, k);
    if !Get(h.split, k, Down(x, k)) then k
    else
      assert NodeOk(h, k, Down(x, k));
      CoverSize(h, x, k - 1)
  }

  /** The heap is tiled: every leaf lies in exactly one terminal block, and that
      block is either in use or on the free list of its size, never both. */
  lemma Tiling(h: Heap, live: set<Blk>, x: nat)
    requires Inv(h, live) && x < Pow2(h.top)
    ensures exists k {:trigger Down(x, k)} :: 0 <= k <= h.top && Terminal(h, k, Down(x, k))
              && (Blk(k, Down(x, k)) in live <==> Down(x, k) !in h.free[k])
              && forall j {:trigger Down(x, j)} :: 0 <= j <= h.top && Terminal(h, j, Down(x, j)) ==> j == k
  {
    hide ListsOk, Merged;
    var k := CoverSize(h, x, h.top);
    TerminalIsOne(h, live, k, Down(x, k));
    forall j | 0 <= j <= h.top && Terminal(h, j, Down(x, j))
      ensures j == k
    {
      if j < k {
        AncestorsSplit(h, x, j, k);
      } else if k < j {
        AncestorsSplit(h, x, k, j);
      }
    }
  }

  lemma TerminalIsOne(h: Heap, live: set<Blk>, k: int, i: int)
    requires Inv(h, live) && Terminal(h, k, i)
    ensures Blk(k, i) in live <==> i !in h.free[k]
  {
    assert ListOk(h, k) && NodeOk(h, k, i);
  }

  /** Blocks in use do not overlap: no leaf belongs to two of them. */
  lemma LiveDisjoint(h: Heap, live: set<Blk>, b: Blk, c: Blk, x: nat)
    requires Inv(h, live) && b in live && c in live && x < Pow2(h.top)
    requires b.k >= 0 && c.k >= 0 && Down(x, b.k) == b.i && Down(x, c.k) == c.i
    ensures b == c
  {
    hide ListsOk, Merged;
    LiveIsSet(h, live, b.k, b.i);
    LiveIsSet(h, live, c.k, c.i);
    assert NodeOk(h, b.k, b.i) && NodeOk(h, c.k, c.i);
    if b.k < c.k {
      AncestorsSplit(h, x, b.k, c.k);
    } else if c.k < b.k {
      AncestorsSplit(h, x, c.k, b.k);
    }
  }
}
