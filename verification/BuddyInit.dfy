/** The shape bd_init gives the heap (kernel/buddy.c).

  In leaves: the allocator's own data fills [0, m) and memory ends at leaf e, so
  [e, 2^top) does not exist. Every block touching either range is marked at every
  size. At each size at most two free blocks remain whose buddy is not free: one
  next to the left range and one next to the right range.
 */
module BuddyInit {
  import opened Arith
  import opened BuddyTree

  /** Block i of size k touches [0, m) or [e, 2^top). */
  predicate Touches(m: nat, e: nat, k: nat, i: int) {
    i < Up(m, k) || Down(e, k) <= i
  }

  /** The vectors after the two calls of bd_mark. */
  ghost predicate Marked(h: Heap, m: nat, e: nat) {
    && Shape(h)
    && forall k, i :: InRange(h.top, k, i) ==>
         && Get(h.alloc, k, i) == Touches(m, e, k, i)
         && Get(h.split, k, i) == (k > 0 && Touches(m, e, k, i))
  }

  /** The metadata fits in a quarter of the heap, memory ends in its upper half, and some memory is missing. */
  predicate Sizes(top: nat, m: nat, e: nat) {
    top >= 2 && 0 < m && 4 * m <= Pow2(top) && Pow2(top) <= 2 * e && e < Pow2(top)
  }

  lemma {:induction false} UpBound(x: nat, j: nat, k: nat)
    requires k <= j && x <= Pow2(j)
    ensures Up(x, k) <= Pow2(j - k) && (x > 0 ==> Up(x, k) > 0)
  {
    if k > 0 {
      UpBound(x, j, k - 1);
      assert Pow2(j - (k - 1)) == 2 * Pow2(j - k);
    }
  }

  lemma {:induction false} DownBound(x: nat, j: nat, k: nat)
    requires k <= j && Pow2(j) <= x
    ensures Pow2(j - k) <= Down(x, k)
  {
    if k > 0 {
      DownBound(x, j, k - 1);
      assert Pow2(j - (k - 1)) == 2 * Pow2(j - k);
    }
  }

  lemma DownBelow(top: nat, e: nat, k: nat)
    requires k <= top && e < Pow2(top)
    ensures Down(e, k) < Pow2(top - k)
  {
    DownInRange(top, e, k);
  }

  /** The left and right indices at size k leave a gap, except at the size just below the root. */
  lemma Gap(top: nat, m: nat, e: nat, k: nat)
    requires Sizes(top, m, e) && k < top
    ensures Up(m, k) >= 1 && Down(e, k) < Pow2(top - k)
    ensures k < top - 1 ==> 2 * Up(m, k) <= Down(e, k)
    ensures k == top - 1 ==> Up(m, k) == 1 == Down(e, k)
  {
    assert Pow2(top) == 2 * Pow2(top - 1) == 4 * Pow2(top - 2);
    DownBound(e, top - 1, k);
    DownBelow(top, e, k);
    UpBound(m, top - 1, k);
    if k < top - 1 {
      UpBound(m, top - 2, k);
      assert Pow2(top - 1 - k) == 2 * Pow2(top - 2 - k);
    } else {
      assert Pow2(0) == 1 && Pow2(top - k) == 2 * Pow2(0);
    }
  }

  /** A marked block has a marked parent, and under a marked parent one child is marked. */
  lemma Families(m: nat, e: nat, k: nat, i: nat)
    ensures Touches(m, e, k, i) ==> Touches(m, e, k + 1, i / 2)
    ensures Touches(m, e, k + 1, i / 2) ==> Touches(m, e, k, i) || Touches(m, e, k, Buddy(i))
  {
  }

  /** The free blocks of size k that exist: left if it is odd, and the one before right if right is odd. */
  lemma FreeAt(m: nat, e: nat, k: nat, i: nat)
    requires Up(m, k) < Down(e, k)
    ensures Touches(m, e, k + 1, i / 2) && !Touches(m, e, k, i) <==>
            (i == Up(m, k) && Up(m, k) % 2 == 1) || (i == Down(e, k) - 1 && Down(e, k) % 2 == 1)
  {
  }

  ghost function ReservedLeaves(top: nat, m: nat, e: nat): set<Blk> {
    set x | 0 <= x < Pow2(top) && (x < m || e <= x) :: Blk(0, x)
  }

  lemma MarkedBits(h: Heap, m: nat, e: nat)
    requires Sizes(h.top, m, e) && Marked(h, m, e)
    ensures BitsOk(h) && Merged(h) && LiveOk(h, ReservedLeaves(h.top, m, e))
  {
    forall k, i | InRange(h.top, k, i)
      ensures NodeOk(h, k, i) && (k < h.top ==> PairOk(h, k, i))
    {
      if k < h.top {
        ParentInRange(h.top, k, i);
        Families(m, e, k, i);
      }
    }
    forall k, i | InRange(h.top, k, i)
      ensures Blk(k, i) in ReservedLeaves(h.top, m, e) <==> Get(h.alloc, k, i) && !Get(h.split, k, i)
    {
    }
    forall b | b in ReservedLeaves(h.top, m, e)
      ensures InRange(h.top, b.k, b.i)
    {
    }
  }

  /** What initialisation must push at size k. */
  ghost function Expected(top: nat, m: nat, e: nat, k: nat): seq<int> {
    var l, r := Up(m, k), Down(e, k);
    if k == top - 1 then []
    else (if r % 2 == 1 then [r - 1] else []) + (if l % 2 == 1 then [l] else [])
  }

  /** The free list of size k holds what initialisation must push. */
  lemma MarkedList(h: Heap, m: nat, e: nat, k: nat)
    requires Sizes(h.top, m, e) && Marked(h, m, e) && k < h.top
    requires h.free[k] == Expected(h.top, m, e, k)
    ensures ListOk(h, k)
  {
    var l, r := Up(m, k), Down(e, k);
    Gap(h.top, m, e, k);
    forall i
      ensures i in h.free[k] <==> InRange(h.top, k, i) && Present(h, k, i) && !Get(h.alloc, k, i)
    {
      if InRange(h.top, k, i) {
        ParentInRange(h.top, k, i);
        if k < h.top - 1 {
          FreeAt(m, e, k, i);
        }
      }
    }
  }

  /** The root is marked, so its list stays empty. */
  lemma MarkedRoot(h: Heap, m: nat, e: nat)
    requires Sizes(h.top, m, e) && Marked(h, m, e) && h.free[h.top] == []
    ensures ListOk(h, h.top)
  {
    UpBound(m, h.top, h.top);
    assert Pow2(0) == 1;
    forall i | InRange(h.top, h.top, i)
      ensures Get(h.alloc, h.top, i)
    {
      assert i == 0;
    }
  }

  /** The telescoping sum: what size k contributes closes the gap between one size and the next. */
  lemma Telescope(m: nat, e: nat, k: nat)
    ensures Pow2(k + 1) * Up(m, k + 1) == Pow2(k) * Up(m, k) + (if Up(m, k) % 2 == 1 then Pow2(k) else 0)
    ensures Pow2(k) * Down(e, k) == Pow2(k + 1) * Down(e, k + 1) + (if Down(e, k) % 2 == 1 then Pow2(k) else 0)
  {
    Scale(Pow2(k), Up(m, k + 1), Up(m, k));
    Scale(Pow2(k), Down(e, k + 1), Down(e, k));
  }

  lemma Scale(p: int, a: int, l: int)
    requires -1 <= 2 * a - l <= 1
    ensures (2 * p) * a == p * l + (2 * a - l) * p
    ensures 2 * a == l ==> (2 * p) * a == p * l
    ensures 2 * a == l + 1 ==> (2 * p) * a == p * l + p
    ensures 2 * a == l - 1 ==> (2 * p) * a == p * l - p
  {
  }
}
