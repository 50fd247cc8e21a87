/** The buddy allocator (kernel/buddy.c): bd_malloc and bd_free over bit vectors and
  linked free lists.

  The heap starts at address `base`, where the allocator keeps its own data; the
  list head of size k is the first field of the k-th 32-byte size record. Those
  leaves are reserved at initialisation and never handed out, so a free block's
  address is never a list head, and the root block always stays split.
 */
module Buddy {
  import opened Common
  import opened Arith
  import opened BuddyTree
  import opened BuddyInit
  import Ring
  import List

  const LEAF_SIZE := 16

  function BlkSize(k: nat): nat {
    Pow2(k) * LEAF_SIZE
  }

  function Addr(base: int, k: nat, i: int): int {
    base + i * BlkSize(k)
  }

  function BlkIndex(base: int, k: nat, p: int): int {
    (p - base) / BlkSize(k)
  }

  /** blk_index_next: the first block of size k that does not contain p. */
  function BlkIndexNext(base: int, k: nat, p: int): int {
    (p - base) / BlkSize(k) + if (p - base) % BlkSize(k) != 0 then 1 else 0
  }

  /** The leaf at which block i of size k starts. */
  function LeafOf(k: nat, i: nat): nat {
    i * Pow2(k)
  }

  // ---------------------------------------------------------------- address arithmetic

  lemma {:induction false} DownLeaf(k: nat, i: nat)
    ensures Down(LeafOf(k, i), k) == i
  {
    if k > 0 {
      DownLeaf(k - 1, 2 * i);
      Halves(0, k, i);
    }
  }

  /** Indices computed by shifting agree with division by the block size. */
  lemma {:induction false} DownDiv(x: nat, k: nat)
    ensures Down(x, k) == x / Pow2(k)
  {
    if k > 0 {
      DownDiv(x, k - 1);
      HalfDiv(x, Pow2(k - 1));
    }
  }

  lemma {:induction false} UpDiv(x: nat, k: nat)
    ensures Up(x, k) == x / Pow2(k) + if x % Pow2(k) != 0 then 1 else 0
  {
    if k > 0 {
      UpDiv(x, k - 1);
      HalfDiv(x, Pow2(k - 1));
    }
  }

  lemma AddrOfLeaf(base: int, k: nat, i: nat)
    ensures Addr(base, k, i) == base + LeafOf(k, i) * LEAF_SIZE
  {
  }

  lemma IndexOfLeaf(base: int, k: nat, x: nat)
    ensures BlkIndex(base, k, base + x * LEAF_SIZE) == Down(x, k)
    ensures BlkIndexNext(base, k, base + x * LEAF_SIZE) == Up(x, k)
  {
    DownDiv(x, k);
    UpDiv(x, k);
    ScaleDiv(x, Pow2(k));
  }

  lemma ScaleDiv(x: nat, d: nat)
    requires d > 0
    ensures (x * LEAF_SIZE) / (d * LEAF_SIZE) == x / d
    ensures (x * LEAF_SIZE) % (d * LEAF_SIZE) == (x % d) * LEAF_SIZE
  {
    var q, r := x / d, x % d;
    assert x == q * d + r;
    assert x * LEAF_SIZE == q * (d * LEAF_SIZE) + r * LEAF_SIZE;
    DivUnique(x * LEAF_SIZE, d * LEAF_SIZE, q, r * LEAF_SIZE);
  }

  /** A block and its left half start at the same address; its right half follows the left one. */
  lemma Halves(base: int, k: nat, i: nat)
    requires k > 0
    ensures LeafOf(k, i) == LeafOf(k - 1, 2 * i)
    ensures Addr(base, k, i) == Addr(base, k - 1, 2 * i)
    ensures Addr(base, k, i) + BlkSize(k - 1) == Addr(base, k - 1, 2 * i + 1)
  {
  }

  /** The address of a block leads back to it, at its size and at its parent's and left half's. */
  lemma AddrIndex(base: int, k: nat, i: nat)
    ensures BlkIndex(base, k, Addr(base, k, i)) == i
    ensures BlkIndex(base, k + 1, Addr(base, k, i)) == i / 2
    ensures k > 0 ==> BlkIndex(base, k - 1, Addr(base, k, i)) == 2 * i
  {
    hide LeafOf, Addr, BlkIndex, BlkIndexNext;
    AddrOfLeaf(base, k, i);
    DownLeaf(k, i);
    IndexOfLeaf(base, k, LeafOf(k, i));
    IndexOfLeaf(base, k + 1, LeafOf(k, i));
    if k > 0 {
      Halves(base, k, i);
      DownLeaf(k - 1, 2 * i);
      IndexOfLeaf(base, k - 1, LeafOf(k, i));
    }
  }

  lemma LeafInRange(top: nat, k: nat, i: nat)
    requires InRange(top, k, i)
    ensures LeafOf(k, i) < Pow2(top)
  {
    Pow2Add(top - k, k);
    MulStep(i, Pow2(top - k), Pow2(k));
  }

  // ---------------------------------------------------------------- free-list addresses

  /** The linked lists hold the addresses of the blocks on the free lists. */
  ghost predicate Match(base: int, free: seq<seq<int>>, lists: seq<seq<int>>) {
    && |free| == |lists|
    && forall k :: 0 <= k < |free| ==> ListMatch(base, k, free[k], lists[k])
  }

  ghost predicate ListMatch(base: int, k: nat, free: seq<int>, list: seq<int>) {
    |free| == |list| && forall j :: 0 <= j < |free| ==> list[j] == Addr(base, k, free[j])
  }

  /** Head addresses: the k-th size record is 32 bytes, so it starts at leaf 2k. */
  ghost predicate HeadsAt(base: int, top: nat, heads: seq<int>, reserved: set<Blk>) {
    && |heads| == top + 1
    && forall k :: 0 <= k <= top ==> heads[k] == base + 2 * k * LEAF_SIZE && Blk(0, 2 * k) in reserved
  }

  /** No free block starts at a leaf inside a block in use. */
  lemma LeafNotFree(h: Heap, live: set<Blk>, base: int, x: nat, k: nat, j: nat, y: int)
    requires Inv(h, live) && x < Pow2(h.top) && Blk(k, Down(x, k)) in live
    requires j < |h.free| && y in h.free[j]
    ensures y >= 0 && Addr(base, j, y) != base + x * LEAF_SIZE
  {
    hide Merged;
    FreeIsClear(h, j, y);
    AddrOfLeaf(base, j, y);
    DownLeaf(j, y);
    LiveIsSet(h, live, k, Down(x, k));
    assert NodeOk(h, k, Down(x, k)) && NodeOk(h, j, y);
    if LeafOf(j, y) == x {
      if j < k {
        AncestorsSplit(h, x, j, k);
      } else if k < j {
        AncestorsSplit(h, x, k, j);
      }
    }
  }

  /** A leaf inside a block in use that is not reserved is neither a list node nor a list head. */
  lemma LeafFresh(h: Heap, live: set<Blk>, reserved: set<Blk>, base: int, heads: seq<int>, lists: seq<seq<int>>, x: nat,
                  k: nat)
    requires Inv(h, live) && reserved <= live && HeadsAt(base, h.top, heads, reserved) && Match(base, h.free, lists)
    requires x < Pow2(h.top) && Blk(k, Down(x, k)) in live && Blk(k, Down(x, k)) !in reserved
    ensures List.Fresh(heads, lists, base + x * LEAF_SIZE)
  {
    hide Inv, Down;
    var p := base + x * LEAF_SIZE;
    forall j | 0 <= j < |lists|
      ensures p !in lists[j]
    {
      forall a | 0 <= a < |lists[j]|
        ensures lists[j][a] != p
      {
        assert ListMatch(base, j, h.free[j], lists[j]);
        LeafNotFree(h, live, base, x, k, j, h.free[j][a]);
      }
    }
    forall j | 0 <= j < |heads|
      ensures heads[j] != p
    {
      if heads[j] == p {
        assert x == 2 * j;
        LeafIsDown0(x);
        LiveDisjoint(h, live, Blk(0, x), Blk(k, Down(x, k)), x);
        assert false;
      }
    }
  }

  lemma LeafIsDown0(x: nat)
    ensures Down(x, 0) == x
  {
  }

  lemma MatchCons(base: int, free: seq<seq<int>>, lists: seq<seq<int>>, k: nat, i: int)
    requires Match(base, free, lists) && k < |free|
    ensures Match(base, free[k := [i] + free[k]], lists[k := [Addr(base, k, i)] + lists[k]])
  {
  }

  lemma MatchCount(base: int, free: seq<seq<int>>, lists: seq<seq<int>>)
    requires Match(base, free, lists)
    ensures |free| == |lists|
  {
  }

  lemma MatchWithout(base: int, free: seq<seq<int>>, lists: seq<seq<int>>, k: nat, at: nat)
    requires Match(base, free, lists) && k < |free| && at < |free[k]|
    ensures at < |lists[k]| && lists[k][at] == Addr(base, k, free[k][at])
    ensures Match(base, free[k := Ring.Without(free[k], at)], lists[k := Ring.Without(lists[k], at)])
  {
  }

  // ---------------------------------------------------------------- initialisation

  lemma {:induction false} UpPow2(top: nat, k: nat)
    requires k <= top
    ensures Up(Pow2(top), k) == Pow2(top - k)
  {
    if k > 0 {
      UpPow2(top, k - 1);
      assert Pow2(top - (k - 1)) == 2 * Pow2(top - k);
    }
  }

  lemma {:induction false} DownZero(k: nat)
    ensures Down(0, k) == 0
  {
    if k > 0 {
      DownZero(k - 1);
    }
  }

  lemma HeadsDistinct(base: int, heads: seq<int>)
    requires forall k :: 0 <= k < |heads| ==> heads[k] == base + 2 * k * LEAF_SIZE
    ensures Distinct(heads)
  {
  }

  lemma EmptyMatch(base: int, free: seq<seq<int>>, lists: seq<seq<int>>)
    requires |free| == |lists| && forall k :: 0 <= k < |free| ==> free[k] == [] && lists[k] == []
    ensures Match(base, free, lists)
  {
  }

  /** A free block that exists. */
  predicate Untouched(h: Heap, k: int, i: int) {
    InRange(h.top, k, i) && Present(h, k, i) && !Get(h.alloc, k, i)
  }

  /** Two different free blocks start at different addresses. */
  lemma DifferentAddr(h: Heap, base: int, j: nat, y: nat, k: nat, i: nat)
    requires Shape(h) && BitsOk(h) && Untouched(h, j, y) && Untouched(h, k, i) && (j != k || y != i)
    ensures Addr(base, j, y) != Addr(base, k, i)
  {
    AddrOfLeaf(base, j, y);
    AddrOfLeaf(base, k, i);
    DownLeaf(j, y);
    DownLeaf(k, i);
    var x := LeafOf(k, i);
    LeafInRange(h.top, k, i);
    assert NodeOk(h, k, i) && NodeOk(h, j, y);
    if LeafOf(j, y) == x {
      if j < k {
        AncestorsSplit(h, x, j, k);
      } else if k < j {
        AncestorsSplit(h, x, k, j);
      }
    }
  }

  lemma {:induction false} DownBelowUp(x: nat, m: nat, k: nat)
    requires x < m
    ensures Down(x, k) < Up(m, k)
  {
    if k > 0 {
      DownBelowUp(x, m, k - 1);
    }
  }

  lemma NotHead(h: Heap, base: int, m: nat, e: nat, k: nat, i: nat, j: nat)
    requires Marked(h, m, e) && Untouched(h, k, i) && 2 * j < m
    ensures Addr(base, k, i) != base + 2 * j * LEAF_SIZE
  {
    AddrOfLeaf(base, k, i);
    DownLeaf(k, i);
    if LeafOf(k, i) == 2 * j {
      DownBelowUp(2 * j, m, k);
    }
  }

  lemma MarkedShape(h: Heap, m: nat, e: nat)
    requires Marked(h, m, e)
    ensures Shape(h)
  {
  }

  lemma MarkedFree(h: Heap, h': Heap, m: nat, e: nat)
    requires Marked(h, m, e) && h'.alloc == h.alloc && h'.split == h.split && h'.top == h.top && |h'.free| == |h.free|
    ensures Marked(h', m, e)
  {
  }

  lemma MarkedPair(h: Heap, m: nat, e: nat, k: nat, i: nat)
    requires Marked(h, m, e) && InRange(h.top, k, i) && k < h.top && Get(h.alloc, k, i) != Get(h.alloc, k, Buddy(i))
    ensures Untouched(h, k, if Get(h.alloc, k, i) then Buddy(i) else i)
  {
    ParentInRange(h.top, k, i);
    Families(m, e, k, i);
    Families(m, e, k, Buddy(i));
  }

  lemma PairBits(h: Heap, m: nat, e: nat, k: nat, i: nat)
    requires Marked(h, m, e) && InRange(h.top, k, i) && k < h.top
    ensures Get(h.alloc, k, i) == Touches(m, e, k, i) && Get(h.alloc, k, Buddy(i)) == Touches(m, e, k, Buddy(i))
  {
  }

  lemma LeftInRange(top: nat, m: nat, e: nat, k: nat)
    requires Sizes(top, m, e) && k < top
    ensures InRange(top, k, Up(m, k)) && InRange(top, k, Down(e, k))
  {
    Gap(top, m, e, k);
    assert Pow2(top - k) >= 2 by { assert Pow2(top - k) == 2 * Pow2(top - k - 1); }
  }

  /** What the left pair looks like: its free half, if only one half is free, is the left block itself. */
  lemma LeftPair(top: nat, m: nat, e: nat, k: nat)
    requires Sizes(top, m, e) && k < top
    ensures var l := Up(m, k);
            if k == top - 1 then Touches(m, e, k, l) && Touches(m, e, k, Buddy(l))
            else !Touches(m, e, k, l) && (Touches(m, e, k, Buddy(l)) <==> l % 2 == 1)
  {
    Gap(top, m, e, k);
  }

  /** What the right pair looks like: its free half, if any, is the block before the right one. */
  lemma RightPair(top: nat, m: nat, e: nat, k: nat)
    requires Sizes(top, m, e) && k < top - 1
    ensures var l, r := Up(m, k), Down(e, k);
            && Touches(m, e, k, r) && (Touches(m, e, k, Buddy(r)) <==> r % 2 == 0)
            && (r % 2 == 1 ==> Buddy(r) == r - 1) && r != l && (l % 2 == 1 ==> r != l + 1 || r % 2 == 0)
            && (l % 2 == 1 && r % 2 == 1 ==> Buddy(r) != l)
  {
    Gap(top, m, e, k);
  }

  /** What bd_initfree has found after the sizes below k. */
  ghost function Gathered(top: nat, m: nat, e: nat, k: nat): int {
    if k == top then (e - m) * LEAF_SIZE
    else (Pow2(k) * Up(m, k) - m + e - Pow2(k) * Down(e, k)) * LEAF_SIZE
  }

  lemma GatheredStep(top: nat, m: nat, e: nat, k: nat)
    requires Sizes(top, m, e) && k < top
    ensures Gathered(top, m, e, k + 1) == Gathered(top, m, e, k) + |Expected(top, m, e, k)| * BlkSize(k)
  {
    Telescope(m, e, k);
    Gap(top, m, e, k);
  }

  /** At each size below the root's children the last whole block before leaf e if it is a left
      half, then the first whole block from leaf m on if it is a right half. */
  ghost predicate InitialLists(top: nat, m: nat, e: nat, free: seq<seq<int>>) {
    && |free| == top + 1
    && forall k :: 0 <= k <= top ==>
         free[k] == if k >= top - 1 then []
                    else (if Down(e, k) % 2 == 1 then [Down(e, k) - 1] else [])
                         + (if Up(m, k) % 2 == 1 then [Up(m, k)] else [])
  }

  /** k is the smallest size from f up with a free block. */
  ghost predicate Smallest(free: seq<seq<int>>, f: nat, k: nat) {
    f <= k < |free| && free[k] != [] && forall j :: f <= j < k ==> free[j] == []
  }

  /** The first block of size `from` has been taken and cut down to size k: each size in
      between has just the right half of what was left. */
  ghost predicate Carved(free: seq<seq<int>>, free': seq<seq<int>>, from: nat, k: nat)
    requires k <= from < |free| && free[from] != []
  {
    && |free'| == |free|
    && forall j :: 0 <= j < |free| ==>
         free'[j] == if j == from then free[j][1..]
                     else if k <= j < from then [Pow2(from - j) * free[from][0] + 1]
                     else free[j]
  }

  /** The list without its element x. */
  ghost predicate Removed(s: seq<int>, s': seq<int>, x: int) {
    exists at :: 0 <= at < |s| && s[at] == x && s' == s[..at] + s[at + 1..]
  }

  /** Block i of size k has been joined with its free buddies up to size k', where its buddy is
      in use, and put on the list. */
  ghost predicate Joined(free: seq<seq<int>>, free': seq<seq<int>>, k: nat, i: nat, k': nat) {
    && |free'| == |free| && k <= k' < |free|
    && (forall j :: k <= j < k' ==> Removed(free[j], free'[j], Buddy(Down(i, j - k))))
    && Buddy(Down(i, k' - k)) !in free[k'] && free'[k'] == [Down(i, k' - k)] + free[k']
    && forall j :: 0 <= j < |free| && !(k <= j <= k') ==> free'[j] == free[j]
  }

  class Allocator {
    const top: nat                       // MAXSIZE
    const base: int                      // bd_base
    const lists: List.FreeLists          // bd_sizes[k].free
    ghost const reserved: set<Blk>       // metadata and memory past the end
    var alloc: Bits                      // bd_sizes[k].alloc
    var split: Bits                      // bd_sizes[k].split
    ghost var free: seq<seq<int>>
    ghost var live: set<Blk>

    ghost function H(): Heap
      reads this
    {
      Heap(top, alloc, split, free)
    }

    ghost predicate Valid()
      reads this, lists
    {
      && Inv(H(), live) && lists.Valid() && Match(base, free, lists.lists)
      && HeadsAt(base, top, lists.heads, reserved) && reserved <= live
    }

    /** bd_init in leaves: metadata in [0, m), memory up to leaf e. The free bytes found
        are exactly the ones that are neither metadata nor missing, so the final
        check cannot fail. */
    constructor (base: int, top: nat, m: nat, e: nat)
      requires Sizes(top, m, e) && 2 * (top + 1) <= m
      ensures Valid() && this.base == base && this.top == top
      ensures reserved == live == ReservedLeaves(top, m, e) && fresh(lists)
      ensures InitialLists(top, m, e, free)
    {
      this.base, this.top := base, top;
      var heads := seq(top + 1, k => base + 2 * k * LEAF_SIZE);
      lists := new List.FreeLists(heads);
      alloc := seq(top + 1, k requires 0 <= k <= top => seq(Pow2(top - k), i => false));
      split := seq(top + 1, k requires 0 <= k <= top => seq(Pow2(top - k), i => false));
      free := seq(top + 1, k => []);
      reserved := ReservedLeaves(top, m, e);
      live := ReservedLeaves(top, m, e);
      new;
      HeadsDistinct(base, heads);
      EmptyMatch(base, free, lists.lists);
      MarkInUse(m, e);
      FillLists(m, e);
    }

    /** bd_mark_data_structures and bd_mark_unavailable on vectors of zeros. */
    method MarkInUse(m: nat, e: nat)
      requires Sizes(top, m, e) && Shape(H()) && forall k, i :: InRange(top, k, i) ==>
                                                                  !Get(alloc, k, i) && !Get(split, k, i)
      modifies this`alloc, this`split
      ensures Marked(H(), m, e)
    {
      hide Marked, Get, Up, Down;
      Mark(0, m);
      Mark(e, Pow2(top));
      BothMarks(H(), m, e);
    }

    /** The end of bd_init: its check of the number of free bytes cannot fail. */
    method FillLists(m: nat, e: nat)
      requires Sizes(top, m, e) && 2 * (top + 1) <= m && Marked(H(), m, e) && Pushed()
      requires live == reserved == ReservedLeaves(top, m, e) && forall k :: 0 <= k <= top ==> free[k] == []
      modifies this`free, lists
      ensures Valid() && InitialLists(top, m, e, free)
    {
      hide Marked, Match, List.FreeLists.Valid, ReservedLeaves, Expected, HeadsAt;
      var f := InitFree(m, e);
      assert f == BlkSize(top) - m * LEAF_SIZE - (Pow2(top) - e) * LEAF_SIZE;  // panic("bd_init: free mem")
      InitInv(m, e);
      InitLists(m, e);
    }

    lemma InitLists(m: nat, e: nat)
      requires |free| == top + 1
      requires forall k :: 0 <= k <= top ==> free[k] == if k == top then [] else Expected(top, m, e, k)
      ensures InitialLists(top, m, e, free)
    {
    }

    /** Initialisation establishes the invariant. */
    lemma InitInv(m: nat, e: nat)
      requires Sizes(top, m, e) && 2 * (top + 1) <= m && Marked(H(), m, e) && Pushed()
      requires forall k :: 0 <= k <= top ==> free[k] == if k == top then [] else Expected(top, m, e, k)
      requires live == reserved == ReservedLeaves(top, m, e)
      ensures Valid()
    {
      hide Marked, List.FreeLists.Valid, Match, Expected;
      MarkedShape(H(), m, e);
      MarkedBits(H(), m, e);
      forall k | 0 <= k < |free|
        ensures ListOk(H(), k)
      {
        if k == top {
          MarkedRoot(H(), m, e);
        } else {
          MarkedList(H(), m, e, k);
        }
      }
    }

    /** bd_mark: every block that touches leaves [start, stop) is marked, at every size. */
    method Mark(start: nat, stop: nat)
      requires Shaped(alloc, top) && Shaped(split, top) && start <= stop <= Pow2(top)
      modifies this`alloc, this`split
      ensures Shaped(alloc, top) && Shaped(split, top)
      ensures forall k, i :: InRange(top, k, i) ==>
                && Get(alloc, k, i) == (old(Get(alloc, k, i)) || Down(start, k) <= i < Up(stop, k))
                && Get(split, k, i) == (old(Get(split, k, i)) || (k > 0 && Down(start, k) <= i < Up(stop, k)))
    {
      var k := 0;
      while k <= top
        invariant 0 <= k <= top + 1 && Shaped(alloc, top) && Shaped(split, top)
        invariant forall j, i :: InRange(top, j, i) ==>
                    && Get(alloc, j, i) == (old(Get(alloc, j, i)) || (j < k && Down(start, j) <= i < Up(stop, j)))
                    && Get(split, j, i) ==
                       (old(Get(split, j, i)) || (j < k && j > 0 && Down(start, j) <= i < Up(stop, j)))
      {
        IndexOfLeaf(base, k, start);
        IndexOfLeaf(base, k, stop);
        UpBound(stop, top, k);
        MarkSize(k, BlkIndex(base, k, base + start * LEAF_SIZE), BlkIndexNext(base, k, base + stop * LEAF_SIZE));
        k := k + 1;
      }
    }

    /** The inner loop of bd_mark at one size. */
    method MarkSize(k: nat, from: nat, to: nat)
      requires Shaped(alloc, top) && Shaped(split, top) && k <= top && to <= Pow2(top - k)
      modifies this`alloc, this`split
      ensures Shaped(alloc, top) && Shaped(split, top)
      ensures forall j, i :: InRange(top, j, i) ==>
                && Get(alloc, j, i) == (old(Get(alloc, j, i)) || (j == k && from <= i < to))
                && Get(split, j, i) == (old(Get(split, j, i)) || (j == k && k > 0 && from <= i < to))
    {
      hide Put, Get, Pow2;
      var bi := from;
      while bi < to
        invariant from <= bi && (bi <= to || bi == from) && Shaped(alloc, top) && Shaped(split, top)
        invariant forall j, i :: InRange(top, j, i) ==>
                    && Get(alloc, j, i) == (old(Get(alloc, j, i)) || (j == k && from <= i < bi))
                    && Get(split, j, i) == (old(Get(split, j, i)) || (j == k && k > 0 && from <= i < bi))
      {
        if k > 0 {
          // if a block is allocated at size k, mark it as split too
          split := Put(split, k, bi, true);
        }
        alloc := Put(alloc, k, bi, true);
        bi := bi + 1;
      }
    }

    static lemma BothMarks(h: Heap, m: nat, e: nat)
      requires Shape(h) && Sizes(h.top, m, e)
      requires forall k, i :: InRange(h.top, k, i) ==>
                 && Get(h.alloc, k, i) == (Down(0, k) <= i < Up(m, k) || Down(e, k) <= i < Up(Pow2(h.top), k))
                 && Get(h.split, k, i) ==
                    (k > 0 && (Down(0, k) <= i < Up(m, k) || Down(e, k) <= i < Up(Pow2(h.top), k)))
      ensures Marked(h, m, e)
    {
      forall k: nat | k <= h.top
        ensures Up(Pow2(h.top), k) == Pow2(h.top - k) && Down(0, k) == 0
      {
        UpPow2(h.top, k);
        DownZero(k);
      }
    }

    /** Everything pushed so far is a free block. */
    ghost predicate Pushed()
      reads this, lists
    {
      && |free| == top + 1 && lists.Valid() && Match(base, free, lists.lists)
      && |lists.heads| == top + 1 && (forall k :: 0 <= k <= top ==> lists.heads[k] == base + 2 * k * LEAF_SIZE)
      && forall j, y :: 0 <= j <= top && y in free[j] ==> Untouched(H(), j, y)
    }

    /** bd_initfree_pair: if exactly one of two buddies is marked, the other goes on the free list. */
    method InitPair(k: nat, bi: nat, ghost m: nat, ghost e: nat) returns (f: int)
      requires Sizes(top, m, e) && 2 * (top + 1) <= m && Marked(H(), m, e) && Pushed()
      requires k < top && InRange(top, k, bi) && bi !in free[k] && Buddy(bi) !in free[k]
      modifies this`free, lists
      ensures Marked(H(), m, e) && Pushed()
      ensures var one := if Get(alloc, k, bi) then Buddy(bi) else bi;
              if Get(alloc, k, bi) != Get(alloc, k, Buddy(bi)) then
                f == BlkSize(k) && free == old(free)[k := [one] + old(free)[k]]
              else
                f == 0 && free == old(free)
    {
      hide Marked, Match, List.FreeLists.Valid, BlkSize, Addr;
      ParentInRange(top, k, bi);
      var buddy := Buddy(bi);
      f := 0;
      MarkedShape(H(), m, e);
      if alloc[k][bi] != alloc[k][buddy] {
        MarkedPair(H(), m, e, k, bi);
        f := BlkSize(k);                              // one of the pair is free
        var one := if alloc[k][bi] then buddy else bi;
        InitFresh(m, e, k, one);
        MatchCons(base, free, lists.lists, k, one);
        MatchCount(base, free, lists.lists);
        lists.PushFront(k, Addr(base, k, one));
        free := free[k := [one] + free[k]];
        MarkedFree(Heap(top, alloc, split, old(free)), H(), m, e);
      }
    }

    lemma InitFresh(m: nat, e: nat, k: nat, i: nat)
      requires Sizes(top, m, e) && 2 * (top + 1) <= m && Marked(H(), m, e) && Pushed()
      requires k <= top && Untouched(H(), k, i) && i !in free[k]
      ensures List.Fresh(lists.heads, lists.lists, Addr(base, k, i))
    {
      hide Marked, List.FreeLists.Valid, Addr;
      MarkedShape(H(), m, e);
      MarkedBits(H(), m, e);
      forall j | 0 <= j < |lists.lists|
        ensures Addr(base, k, i) !in lists.lists[j]
      {
        assert ListMatch(base, j, free[j], lists.lists[j]);
        forall a | 0 <= a < |lists.lists[j]|
          ensures lists.lists[j][a] != Addr(base, k, i)
        {
          assert free[j][a] in free[j];
          DifferentAddr(H(), base, j, free[j][a], k, i);
        }
      }
      forall j | 0 <= j < |lists.heads|
        ensures lists.heads[j] != Addr(base, k, i)
      {
        NotHead(H(), base, m, e, k, i, j);
      }
    }

    /** bd_initfree: at each size, look only at the left and the right pair. */
    method InitFree(m: nat, e: nat) returns (f: int)
      requires Sizes(top, m, e) && 2 * (top + 1) <= m && Marked(H(), m, e) && Pushed()
      requires forall k :: 0 <= k <= top ==> free[k] == []
      modifies this`free, lists
      ensures Marked(H(), m, e) && Pushed()
      ensures forall k :: 0 <= k <= top ==> free[k] == if k == top then [] else Expected(top, m, e, k)
      ensures f == (e - m) * LEAF_SIZE
    {
      hide Marked, Match, List.FreeLists.Valid, Expected;
      f := 0;
      var k := 0;
      while k < top
        invariant 0 <= k <= top && Marked(H(), m, e) && Pushed()
        invariant forall j :: 0 <= j <= top ==> free[j] == if j < k then Expected(top, m, e, j) else []
        invariant f == Gathered(top, m, e, k)
      {
        var g := InitSize(k, m, e);
        f := f + g;
        GatheredStep(top, m, e, k);
        k := k + 1;
      }
    }

    /** One turn of bd_initfree's loop. */
    method InitSize(k: nat, m: nat, e: nat) returns (f: int)
      requires Sizes(top, m, e) && 2 * (top + 1) <= m && Marked(H(), m, e) && Pushed() && k < top && free[k] == []
      modifies this`free, lists
      ensures Marked(H(), m, e) && Pushed() && free == old(free)[k := Expected(top, m, e, k)]
      ensures f == |Expected(top, m, e, k)| * BlkSize(k)
    {
      hide Marked, Match, List.FreeLists.Valid, BlkSize, BlkIndex, BlkIndexNext, Touches;
      IndexOfLeaf(base, k, m);
      IndexOfLeaf(base, k, e);
      Gap(top, m, e, k);
      var left := BlkIndexNext(base, k, base + m * LEAF_SIZE);
      var right := BlkIndex(base, k, base + e * LEAF_SIZE);
      LeftInRange(top, m, e, k);
      PairBits(H(), m, e, k, left);
      PairBits(H(), m, e, k, right);
      LeftPair(top, m, e, k);
      f := InitPair(k, left, m, e);
      if right <= left {
        assert free[k] == Expected(top, m, e, k) && free == old(free)[k := Expected(top, m, e, k)];
        return;
      }
      RightPair(top, m, e, k);
      var g := InitPair(k, right, m, e);
      f := f + g;
      assert free[k] == Expected(top, m, e, k) && free == old(free)[k := Expected(top, m, e, k)];
    }

    /** Push address Addr(k, i), which lies inside the block (j, b) in use, on list k. */
    method Push(k: nat, p: int, ghost i: nat, ghost j: nat)
      requires Valid() && k < |lists.lists| && p == Addr(base, k, i) && LeafOf(k, i) < Pow2(top)
      requires Blk(j, Down(LeafOf(k, i), j)) in live && Blk(j, Down(LeafOf(k, i), j)) !in reserved
      modifies this`free, lists
      ensures lists.Valid() && Match(base, free, lists.lists)
      ensures |old(free)| > k && free == old(free)[k := [i] + old(free)[k]]
    {
      hide Inv, List.FreeLists.Valid, Addr, Down, HeadsAt;
      AddrOfLeaf(base, k, i);
      LeafFresh(H(), live, reserved, base, lists.heads, lists.lists, LeafOf(k, i), j);
      MatchCons(base, free, lists.lists, k, i);
      lists.PushFront(k, p);
      free := free[k := [i] + free[k]];
    }

    /** bd_malloc: pop the first free block of size k and mark it. */
    method TakeFirst(k: nat) returns (p: int, ghost i: nat)
      requires Valid() && k <= top && |free| == top + 1 && free[k] != []
      modifies this`alloc, this`free, this`live, lists
      ensures Valid() && p == Addr(base, k, i) && InRange(top, k, i)
      ensures Blk(k, i) !in old(live) && live == old(live) + {Blk(k, i)}
      ensures i == old(free)[k][0] && free == old(free)[k := old(free)[k][1..]]
    {
      hide Inv, List.FreeLists.Valid, Addr, HeadsAt, Put;
      TakeStep(H(), k, live);
      i := free[k][0];
      MatchWithout(base, free, lists.lists, k, 0);
      assert Ring.Without(free[k], 0) == free[k][1..];
      assert Ring.Without(lists.lists[k], 0) == lists.lists[k][1..];
      p := lists.Pop(k);
      AddrIndex(base, k, i);
      InvShape(H(), live);
      alloc := Put(alloc, k, BlkIndex(base, k, p), true);
      free := free[k := free[k][1..]];
      live := live + {Blk(k, i)};
    }

    static lemma InvShape(h: Heap, live: set<Blk>)
      requires Inv(h, live)
      ensures Shape(h)
    {
    }

    /** One turn of bd_malloc's splitting loop. */
    method SplitHalf(p: int, k: nat, ghost i: nat)
      requires Valid() && 0 < k <= top && InRange(top, k, i) && p == Addr(base, k, i)
      requires Blk(k, i) in live && Blk(k, i) !in reserved
      modifies this`alloc, this`split, this`free, this`live, lists
      ensures Valid() && p == Addr(base, k - 1, 2 * i) && InRange(top, k - 1, 2 * i)
      ensures live == old(live) - {Blk(k, i)} + {Blk(k - 1, 2 * i)}
      ensures Blk(k - 1, 2 * i) !in old(live)
      ensures |old(free)| == top + 1 && free == old(free)[k - 1 := [2 * i + 1] + old(free)[k - 1]]
    {
      hide Inv, List.FreeLists.Valid, Addr, HeadsAt, Put, Down, LeafOf;
      AddrIndex(base, k, i);
      Halves(base, k, i);
      MatchCount(base, free, lists.lists);
      ChildInRange(top, k, i);
      InvShape(H(), live);
      SplitStep(H(), k, i, live);
      HalfLeaf(top, k, i);
      LeftNotReserved(H(), live, k, i);
      var q := p + BlkSize(k - 1);                  // p's buddy
      Push(k - 1, q, 2 * i + 1, k);
      split := Put(split, k, BlkIndex(base, k, p), true);
      alloc := Put(alloc, k - 1, BlkIndex(base, k - 1, p), true);
      live := live - {Blk(k, i)} + {Blk(k - 1, 2 * i)};
    }

    static lemma HalfLeaf(top: nat, k: nat, i: nat)
      requires k > 0 && InRange(top, k, i)
      ensures Down(LeafOf(k - 1, 2 * i + 1), k) == i && LeafOf(k - 1, 2 * i + 1) < Pow2(top)
    {
      ChildInRange(top, k, i);
      DownLeaf(k - 1, 2 * i + 1);
      LeafInRange(top, k - 1, 2 * i + 1);
    }

    static lemma LeftNotReserved(h: Heap, live: set<Blk>, k: nat, i: nat)
      requires Inv(h, live) && Blk(k, i) in live && k > 0
      ensures Blk(k - 1, 2 * i) !in live
    {
    }

    /** firstk: the smallest size whose blocks hold n bytes. */
    static method FirstK(n: nat) returns (k: nat)
      ensures BlkSize(k) >= n && (k > 0 ==> BlkSize(k - 1) < n)
    {
      k := 0;
      var size := LEAF_SIZE;
      while size < n
        invariant size == BlkSize(k) && (k > 0 ==> BlkSize(k - 1) < n)
        decreases n - size
      {
        k := k + 1;
        size := size * 2;
      }
    }

    /** The scan of bd_malloc: the first size from f up with a free block. */
    method FindSize(f: nat) returns (k: nat)
      requires Valid() && |free| == top + 1
      ensures f <= k && (forall j :: f <= j < k && j <= top ==> free[j] == []) && (k <= top ==> free[k] != [])
    {
      hide Inv, HeadsAt;
      k := f;
      while k <= top
        invariant f <= k && forall j :: f <= j < k && j <= top ==> free[j] == []
      {
        assert ListMatch(base, k, free[k], lists.lists[k]);
        var empty := lists.Empty(k);
        if !empty {
          return;
        }
        k := k + 1;
      }
    }

    /** bd_malloc: null exactly when no free list from the first fitting size up has
        a block; otherwise a new block of exactly that size is in use, and nothing
        else changes hands. It is cut out of the first block on the smallest list that
        has one: its leftmost part, and the right halves are left over. */
    method Malloc(nbytes: nat) returns (p: Option<int>, ghost fk: nat, ghost i: nat, ghost from: nat)
      requires Valid()
      modifies this`alloc, this`split, this`free, this`live, lists
      ensures Valid()
      ensures BlkSize(fk) >= nbytes && (fk > 0 ==> BlkSize(fk - 1) < nbytes)
      ensures p.None? <==> forall k :: fk <= k < |old(free)| ==> old(free)[k] == []
      ensures p.None? ==> unchanged(this) && unchanged(lists)
      ensures p.Some? ==> && InRange(top, fk, i) && p.value == Addr(base, fk, i)
                          && Blk(fk, i) !in old(live) && live == old(live) + {Blk(fk, i)}
      ensures p.Some? ==> && Smallest(old(free), fk, from) && i == Pow2(from - fk) * old(free)[from][0]
                          && Carved(old(free), free, from, fk)
    {
      hide Inv, Addr, BlkSize, HeadsAt, Match, List.FreeLists.Valid, Carved;
      InvShape(H(), live);
      var f := FirstK(nbytes);
      fk := f;
      i := 0;
      var k := FindSize(f);
      from := k;
      if k > top {
        p := None;
        return;
      }
      var q;
      q, i := TakeFirst(k);
      CarvedNone(old(free), free, from);
      while k > f
        invariant f <= k <= from && Valid() && InRange(top, k, i) && q == Addr(base, k, i)
        invariant Blk(k, i) !in old(live) && live == old(live) + {Blk(k, i)}
        invariant i == Pow2(from - k) * old(free)[from][0] && Carved(old(free), free, from, k)
      {
        ghost var free1 := free;
        SplitHalf(q, k, i);
        CarvedMore(old(free), free1, free, from, k, i);
        k := k - 1;
        i := 2 * i;
      }
      p := Some(q);
    }

    static lemma CarvedNone(free: seq<seq<int>>, free': seq<seq<int>>, from: nat)
      requires from < |free| && free[from] != [] && free' == free[from := free[from][1..]]
      ensures Carved(free, free', from, from)
    {
    }

    static lemma CarvedMore(free: seq<seq<int>>, free1: seq<seq<int>>, free2: seq<seq<int>>, from: nat, k: nat, i: int)
      requires 0 < k <= from < |free| && free[from] != [] && free[k - 1] == [] && Carved(free, free1, from, k)
      requires i == Pow2(from - k) * free[from][0] && free2 == free1[k - 1 := [2 * i + 1] + free1[k - 1]]
      ensures Carved(free, free2, from, k - 1) && 2 * i == Pow2(from - (k - 1)) * free[from][0]
    {
      hide Pow2;
      Doubled(from - k, free[from][0]);
      assert free1[k - 1] == [];
    }

    static lemma Doubled(n: nat, b: int)
      ensures 2 * (Pow2(n) * b) == Pow2(n + 1) * b
    {
    }

    /** size: the size of the block in use that starts at p. The scan stops at that
        size, so it never looks past the split vector of the root. */
    method Size(p: int, ghost b: nat, ghost i: nat) returns (k: nat)
      requires Valid() && Blk(b, i) in live && b < top && p == Addr(base, b, i)
      ensures k == b
    {
      hide Inv, Addr, HeadsAt, Match, Down, BlkIndex;
      LiveFacts(H(), live, b, i);
      ghost var x := LeafOf(b, i);
      AddrOfLeaf(base, b, i);
      k := 0;
      while k <= top
        invariant k <= b
        decreases top - k
      {
        SizeProbe(H(), live, b, i, k);
        IndexOfLeaf(base, k + 1, x);
        if split[k + 1][BlkIndex(base, k + 1, p)] {
          return;
        }
        k := k + 1;
      }
    }

    static lemma LiveFacts(h: Heap, live: set<Blk>, k: nat, i: nat)
      requires Inv(h, live) && Blk(k, i) in live
      ensures Shape(h) && InRange(h.top, k, i) && Present(h, k, i) && Get(h.alloc, k, i) && !Get(h.split, k, i)
    {
    }

    /** Along the path over a block in use, exactly the blocks above it are split. */
    static lemma SizeProbe(h: Heap, live: set<Blk>, b: nat, i: nat, k: nat)
      requires Inv(h, live) && Blk(b, i) in live && k <= b < h.top
      ensures var x := LeafOf(b, i);
              && InRange(h.top, k + 1, Down(x, k + 1))
              && (Get(h.split, k + 1, Down(x, k + 1)) <==> k == b)
              && Shape(h)
    {
      hide Merged, ListsOk, LeafOf;
      LiveFacts(h, live, b, i);
      var x := LeafOf(b, i);
      LeafInRange(h.top, b, i);
      DownLeaf(b, i);
      DownInRange(h.top, x, k + 1);
      if k + 1 < b {
        DescendantsAbsent(h, x, b, k + 1);
      }
    }

    /** The root is split for good: leaf 0 is reserved, so the root is never a block in use. */
    lemma RootNotLive(k: nat, i: nat)
      requires Valid() && Blk(k, i) in live && Blk(k, i) !in reserved && 0 < |lists.heads|
      ensures k < top
    {
      hide Inv, List.FreeLists.Valid, Match;
      LiveFacts(H(), live, k, i);
      if k == top {
        assert i == 0 by { assert Pow2(0) == 1; }
        DownZero(k);
        LeafIsDown0(0);
        assert lists.heads[0] == base + 2 * 0 * LEAF_SIZE && Blk(0, 0) in reserved;
        LiveDisjoint(H(), live, Blk(0, 0), Blk(k, 0), 0);
        assert false;
      }
    }

    /** One turn of bd_free's loop when the buddy is free. */
    method MergeUp(p: int, k: nat, ghost i: nat) returns (p': int)
      requires Valid() && k < top && InRange(top, k, i) && p == Addr(base, k, i) && Shaped(alloc, top)
      requires Blk(k, i) in live && Blk(k, i) !in reserved && !Get(alloc, k, Buddy(i))
      modifies this`alloc, this`split, this`free, this`live, lists
      ensures Valid() && p' == Addr(base, k + 1, i / 2) && InRange(top, k + 1, i / 2)
      ensures live == old(live) - {Blk(k, i)} + {Blk(k + 1, i / 2)} && Blk(k + 1, i / 2) !in old(live)
      ensures |old(free)| == top + 1 == |free| && free == old(free)[k := free[k]]
              && Removed(old(free)[k], free[k], Buddy(i))
    {
      hide Inv, List.FreeLists.Valid, Addr, HeadsAt, Match, Put, BlkIndex;
      ParentInRange(top, k, i);
      AddrIndex(base, k, i);
      LiveFacts(H(), live, k, i);
      var bi := BlkIndex(base, k, p);
      var buddy := Buddy(bi);
      ghost var at := BuddyOnList(k, i);
      MergeStep(H(), k, i, at, live);
      MatchWithout(base, free, lists.lists, k, at);
      MatchCount(base, free, lists.lists);
      ParentNotLive(H(), live, k, i);
      alloc := Put(alloc, k, bi, false);                        // free p at size k
      var q := Addr(base, k, buddy);
      lists.RemoveNode(q, k, at);                               // remove buddy from free list
      PairAddr(base, k, i);
      p' := if buddy % 2 == 0 then q else p;
      AddrIndex(base, k, if buddy % 2 == 0 then buddy else i);
      split := Put(split, k + 1, BlkIndex(base, k + 1, p'), false);
      free := free[k := Ring.Without(free[k], at)];
      live := live - {Blk(k, i)} + {Blk(k + 1, i / 2)};
    }

    lemma BuddyOnList(k: nat, i: nat) returns (at: nat)
      requires Inv(H(), live) && k < top && Blk(k, i) in live && !Get(alloc, k, Buddy(i))
      ensures at < |free[k]| && free[k][at] == Buddy(i)
    {
      LiveFacts(H(), live, k, i);
      ParentInRange(top, k, i);
      assert ListOk(H(), k);
      assert Buddy(i) in free[k];
      at :| 0 <= at < |free[k]| && free[k][at] == Buddy(i);
    }

    static lemma ParentNotLive(h: Heap, live: set<Blk>, k: nat, i: nat)
      requires Inv(h, live) && Blk(k, i) in live && k < h.top
      ensures Blk(k + 1, i / 2) !in live
    {
    }

    /** Of two buddies, the even one starts where the parent starts. */
    static lemma PairAddr(base: int, k: nat, i: nat)
      ensures Addr(base, k, if i % 2 == 0 then i else Buddy(i)) == Addr(base, k + 1, i / 2)
    {
      Halves(base, k + 1, i / 2);
    }

    /** bd_free: the block in use that starts at p is given back, and merged with its
        buddies as far as they are free. */
    method Free(p0: int, ghost k0: nat, ghost i0: nat) returns (ghost k1: nat)
      requires Valid() && Blk(k0, i0) in live && Blk(k0, i0) !in reserved && p0 == Addr(base, k0, i0)
      modifies this`alloc, this`split, this`free, this`live, lists
      ensures Valid() && live == old(live) - {Blk(k0, i0)}
      ensures Joined(old(free), free, k0, i0, k1)
    {
      hide Inv, List.FreeLists.Valid, Addr, HeadsAt, Match, Put, BlkIndex;
      HeadCount();
      RootNotLive(k0, i0);
      LiveFacts(H(), live, k0, i0);
      var k := Size(p0, k0, i0);
      var p := p0;
      ghost var i := i0;
      while true  // k < MAXSIZE holds throughout: the root is never reached
        invariant k <= top && InRange(top, k, i) && Valid() && p == Addr(base, k, i)
        invariant Blk(k, i) in live && Blk(k, i) !in reserved
        invariant live == old(live) - {Blk(k0, i0)} + {Blk(k, i)}
                  && (Blk(k, i) !in old(live) || Blk(k, i) == Blk(k0, i0))
        invariant k0 <= k && i == Down(i0, k - k0) && |free| == |old(free)| == top + 1
        invariant forall j :: k0 <= j < k ==> Removed(old(free)[j], free[j], Buddy(Down(i0, j - k0)))
        invariant forall j :: 0 <= j < |free| && !(k0 <= j < k) ==> free[j] == old(free)[j]
        decreases top - k
      {
        HeadCount();
        RootNotLive(k, i);
        LiveFacts(H(), live, k, i);
        ParentInRange(top, k, i);
        AddrIndex(base, k, i);
        var buddy := Buddy(BlkIndex(base, k, p));
        if alloc[k][buddy] {
          BusyNotListed(H(), live, k, Buddy(i));
          break;
        }
        p := MergeUp(p, k, i);
        k, i := k + 1, i / 2;
      }
      k1 := k;
      GiveBack(p, k, i);
    }

    static lemma BusyNotListed(h: Heap, live: set<Blk>, k: nat, i: int)
      requires Inv(h, live) && k < |h.free| && Get(h.alloc, k, i)
      ensures i !in h.free[k]
    {
      assert ListOk(h, k);
    }

    lemma HeadCount()
      requires Valid()
      ensures 0 < |lists.heads|
    {
    }

    /** The end of bd_free: the buddy is in use, so the block goes on its free list. */
    method GiveBack(p: int, k: nat, ghost i: nat)
      requires Valid() && k < top && InRange(top, k, i) && p == Addr(base, k, i) && Shaped(alloc, top)
      requires Blk(k, i) in live && Blk(k, i) !in reserved && Get(alloc, k, Buddy(i))
      modifies this`alloc, this`free, this`live, lists
      ensures Valid() && live == old(live) - {Blk(k, i)}
      ensures |old(free)| == top + 1 && free == old(free)[k := [i] + old(free)[k]]
    {
      hide Inv, List.FreeLists.Valid, Addr, HeadsAt, Match, Put, BlkIndex, LeafOf;
      AddrIndex(base, k, i);
      LiveFacts(H(), live, k, i);
      ReleaseStep(H(), k, i, live);
      LeafInRange(top, k, i);
      DownLeaf(k, i);
      MatchCount(base, free, lists.lists);
      Push(k, p, i, k);
      alloc := Put(alloc, k, BlkIndex(base, k, p), false);
      live := live - {Blk(k, i)};
    }
  }
}
