/** Which block each unit of the heap belongs to (user/umalloc.c): a partition of the units
  obtained from sbrk into blocks of consecutive units.

  Addresses count headers: a block at h with size n consists of the units h up to h+n-1.
 */
module UnitMap {
  import opened Common

  /** Block h owns exactly the units from h to h + size[h] - 1. */
  ghost predicate BlockOk(own: map<int, int>, size: map<int, int>, h: int) {
    h in size && size[h] >= 1 && forall u :: h <= u < h + size[h] ==> u in own && own[u] == h
  }

  ghost predicate UnitOk(own: map<int, int>, size: map<int, int>, heads: set<int>, u: int)
    requires u in own
  {
    own[u] in heads && own[u] in size && own[u] <= u < own[u] + size[own[u]]
  }

  ghost predicate Partition(own: map<int, int>, size: map<int, int>, heads: set<int>) {
    && (forall h :: h in heads ==> BlockOk(own, size, h))
    && (forall u :: u in own ==> UnitOk(own, size, heads, u))
  }

  /** Blocks do not overlap. */
  lemma Apart(own: map<int, int>, size: map<int, int>, heads: set<int>, a: int, b: int)
    requires Partition(own, size, heads) && a in heads && b in heads && a < b
    ensures a in size && b in size && a + size[a] <= b
  {
    assert BlockOk(own, size, a) && BlockOk(own, size, b);
    assert own[b] == b;
  }

  /** Block b is given to its lower neighbour a. */
  ghost function Absorb(own: map<int, int>, a: int, b: int): map<int, int> {
    map u | u in own :: if own[u] == b then a else own[u]
  }

  lemma AbsorbOk(own: map<int, int>, size: map<int, int>, heads: set<int>, a: int, b: int)
    requires Partition(own, size, heads) && a in heads && b in heads && a in size && b in size && a + size[a] == b
    ensures Partition(Absorb(own, a, b), size[a := size[a] + size[b]], heads - {b})
            && Absorb(own, a, b).Keys == own.Keys
  {
  }

  /** The last units of block p, from q on, become a block of their own. */
  ghost function Carve(own: map<int, int>, p: int, q: int): map<int, int> {
    map u | u in own :: if own[u] == p && q <= u then q else own[u]
  }

  lemma CarveOk(own: map<int, int>, size: map<int, int>, heads: set<int>, p: int, n: int)
    requires Partition(own, size, heads) && p in heads && p in size && 1 <= n < size[p]
    ensures var q := p + size[p] - n;
            && q !in heads && Carve(own, p, q).Keys == own.Keys
            && Partition(Carve(own, p, q), size[p := size[p] - n][q := n], heads + {q})
  {
    var q := p + size[p] - n;
    assert BlockOk(own, size, p);
    if q in heads {
      Apart(own, size, heads, p, q);
      assert false;
    }
    var own', size', heads' := Carve(own, p, q), size[p := size[p] - n][q := n], heads + {q};
    forall h | h in heads'
      ensures BlockOk(own', size', h)
    {
      if h != q {
        assert BlockOk(own, size, h);
      }
    }
    forall u | u in own'
      ensures UnitOk(own', size', heads', u)
    {
      assert UnitOk(own, size, heads, u);
    }
  }

  /** n new units from h on form a new block. */
  ghost function Grow(own: map<int, int>, h: int, n: nat): (own': map<int, int>)
    ensures forall u :: u in own' <==> u in own || h <= u < h + n
    ensures forall u :: u in own' ==> own'[u] == if h <= u < h + n then h else own[u]
  {
    if n == 0 then own else Grow(own, h, n - 1)[h + n - 1 := h]
  }

  lemma HeadsOwned(own: map<int, int>, size: map<int, int>, heads: set<int>)
    requires Partition(own, size, heads)
    ensures forall h :: h in heads ==> h in own
  {
  }

  lemma GrowOk(own: map<int, int>, size: map<int, int>, heads: set<int>, h: int, n: nat)
    requires Partition(own, size, heads) && n >= 1 && forall u :: h <= u < h + n ==> u !in own
    ensures h !in heads && Partition(Grow(own, h, n), size[h := n], heads + {h})
  {
    hide Grow, BlockOk, UnitOk;
    HeadsOwned(own, size, heads);
    assert h !in own;
    var own' := Grow(own, h, n);
    forall x | x in heads + {h}
      ensures BlockOk(own', size[h := n], x)
    {
      GrownBlock(own, size, own', h, n, x);
    }
    forall u | u in own'
      ensures UnitOk(own', size[h := n], heads + {h}, u)
    {
      GrownUnit(own, size, own', h, n, heads, u);
    }
  }

  lemma GrownBlock(own: map<int, int>, size: map<int, int>, own': map<int, int>, h: int, n: nat, x: int)
    requires n >= 1 && (x == h || BlockOk(own, size, x)) && forall u :: h <= u < h + n ==> u !in own
    requires forall u :: u in own' <==> u in own || h <= u < h + n
    requires forall u :: u in own' ==> own'[u] == if h <= u < h + n then h else own[u]
    ensures BlockOk(own', size[h := n], x)
  {
    var size' := size[h := n];
    forall u | x <= u < x + size'[x]
      ensures u in own' && own'[u] == x
    {
      if x != h {
        assert u in own;
      }
    }
  }

  lemma GrownUnit(own: map<int, int>, size: map<int, int>, own': map<int, int>, h: int, n: nat, heads: set<int>, u: int)
    requires n >= 1 && u in own' && h !in heads
    requires u in own && !(h <= u < h + n) ==> UnitOk(own, size, heads, u)
    requires u in own || h <= u < h + n
    requires own'[u] == if h <= u < h + n then h else own[u]
    ensures UnitOk(own', size[h := n], heads + {h}, u)
  {
  }

  // ---------------------------------------------------------------- counting

  ghost function Total(size: map<int, int>, heads: set<int>): int
    requires heads <= size.Keys
  {
    if heads == {} then 0
    else
      var h := Pick(heads);
      size[h] + Total(size, heads - {h})
  }

  /** The sizes of all blocks add up to the number of units. */
  lemma {:induction false} TotalUnits(own: map<int, int>, size: map<int, int>, heads: set<int>)
    requires Partition(own, size, heads)
    ensures heads <= size.Keys && Total(size, heads) == |own.Keys|
    decreases heads
  {
    forall h | h in heads
      ensures h in size
    {
      assert BlockOk(own, size, h);
    }
    if heads == {} {
      NoUnits(own, size, heads);
    } else {
      var h := Pick(heads);
      var rest := map u | u in own && own[u] != h :: own[u];
      var mine := set u | u in own && own[u] == h;
      WithoutBlock(own, size, heads, h, rest);
      TotalUnits(rest, size, heads - {h});
      assert BlockOk(own, size, h);
      assert forall u :: u in mine ==> UnitOk(own, size, heads, u);
      IntervalCard(mine, h, size[h]);
      assert own.Keys == rest.Keys + mine && rest.Keys !! mine;
    }
  }

  lemma NoUnits(own: map<int, int>, size: map<int, int>, heads: set<int>)
    requires Partition(own, size, heads) && heads == {}
    ensures own.Keys == {}
  {
    if own.Keys != {} {
      var u := Pick(own.Keys);
      assert false;
    }
  }

  lemma NoElements(s: set<int>)
    requires forall u :: u !in s
    ensures |s| == 0
  {
    if |s| != 0 {
      var u := Pick(s);
    }
  }

  lemma WithoutBlock(own: map<int, int>, size: map<int, int>, heads: set<int>, h: int, rest: map<int, int>)
    requires Partition(own, size, heads) && rest == map u | u in own && own[u] != h :: own[u]
    ensures Partition(rest, size, heads - {h})
  {
  }

  lemma {:induction false} IntervalCard(s: set<int>, h: int, n: nat)
    requires forall u :: u in s <==> h <= u < h + n
    ensures |s| == n
    decreases n
  {
    if n == 0 {
      NoElements(s);
    } else {
      IntervalCard(s - {h + n - 1}, h, n - 1);
    }
  }
}
