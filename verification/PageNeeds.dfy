/** How many table pages walk (kernel/vm.c) has to create before a range of virtual
  pages can be mapped.
 */
module PageNeeds {
  import opened Common
  import opened PageTree

  ghost function Interval(a: int, b: int): (s: set<int>)
    ensures forall x :: x in s <==> a <= x <= b
    decreases b - a
  {
    if a > b then {} else Interval(a, b - 1) + {b}
  }

  /** The second-level pages and the leaf pages that page numbers lo up to hi - 1 need. */
  ghost function Mids(lo: int, hi: int): set<int> {
    if lo < hi then Interval(lo / 512 / 512, (hi - 1) / 512 / 512) else {}
  }

  ghost function Leaves(lo: int, hi: int): set<int> {
    if lo < hi then Interval(lo / 512, (hi - 1) / 512) else {}
  }

  /** How many of them a table lacks. */
  ghost function Needed(t: Tree, lo: int, hi: int): nat {
    |Mids(lo, hi) - t.l1.Keys| + |Leaves(lo, hi) - t.l0.Keys|
  }

  /** What walk needs for the one page number v: none, a leaf page, or both. */
  ghost function Missing(t: Tree, v: int): nat {
    (if v / 512 / 512 in t.l1 then 0 else 1) + (if v / 512 in t.l0 then 0 else 1)
  }

  /** The table now has the pages the range needs, and no other new ones. */
  ghost predicate Supplied(t: Tree, t': Tree, lo: int, hi: int) {
    t'.l1.Keys == t.l1.Keys + Mids(lo, hi) && t'.l0.Keys == t.l0.Keys + Leaves(lo, hi)
  }

  lemma RangeStep(lo: int, v: int)
    requires 0 <= lo <= v
    ensures Mids(lo, v + 1) == Mids(lo, v) + {v / 512 / 512} && Leaves(lo, v + 1) == Leaves(lo, v) + {v / 512}
  {
    assert lo < v ==> (v - 1) / 512 <= v / 512 <= (v - 1) / 512 + 1;
    assert lo < v ==> (v - 1) / 512 / 512 <= v / 512 / 512 <= (v - 1) / 512 / 512 + 1;
    assert lo / 512 <= v / 512 && lo / 512 / 512 <= v / 512 / 512;
  }

  lemma OneMore(all: set<int>, have: set<int>, x: int)
    ensures |(all + {x}) - have| == |all - have| + if x in all || x in have then 0 else 1
  {
    if x in all || x in have {
      assert (all + {x}) - have == all - have;
    } else {
      assert (all + {x}) - have == (all - have) + {x};
    }
  }

  /** One more page number needs what the table lacks once the earlier ones are supplied. */
  lemma NeededStep(t: Tree, t': Tree, lo: int, v: int)
    requires 0 <= lo <= v && Supplied(t, t', lo, v)
    ensures Needed(t, lo, v + 1) == Needed(t, lo, v) + Missing(t', v)
  {
    RangeStep(lo, v);
    OneMore(Mids(lo, v), t.l1.Keys, v / 512 / 512);
    OneMore(Leaves(lo, v), t.l0.Keys, v / 512);
  }

  lemma SuppliedStep(t: Tree, t': Tree, t'': Tree, lo: int, v: int)
    requires 0 <= lo <= v && Supplied(t, t', lo, v) && Supplied(t', t'', v, v + 1)
    ensures Supplied(t, t'', lo, v + 1)
  {
    RangeStep(lo, v);
    RangeStep(v, v);
  }

  lemma SuppliedNone(t: Tree, lo: int, hi: int)
    requires hi <= lo
    ensures Supplied(t, t, lo, hi) && Needed(t, lo, hi) == 0
  {
  }

  lemma NeededOne(t: Tree, v: int)
    requires 0 <= v
    ensures Needed(t, v, v + 1) == Missing(t, v)
  {
    SuppliedNone(t, v, v);
    NeededStep(t, t, v, v);
  }

  lemma RangeGrows(lo: int, mid: int, hi: int)
    requires 0 <= lo && mid <= hi
    ensures Mids(lo, mid) <= Mids(lo, hi) && Leaves(lo, mid) <= Leaves(lo, hi)
  {
    if lo < mid {
      assert (mid - 1) / 512 <= (hi - 1) / 512 && (mid - 1) / 512 / 512 <= (hi - 1) / 512 / 512;
    }
  }

  /** A longer range needs no fewer pages. */
  lemma NeededMonotone(t: Tree, lo: int, mid: int, hi: int)
    requires 0 <= lo && mid <= hi
    ensures Needed(t, lo, mid) <= Needed(t, lo, hi)
  {
    hide Mids, Leaves;
    RangeGrows(lo, mid, hi);
    SubsetCard(Mids(lo, mid) - t.l1.Keys, Mids(lo, hi) - t.l1.Keys);
    SubsetCard(Leaves(lo, mid) - t.l0.Keys, Leaves(lo, hi) - t.l0.Keys);
  }
}
