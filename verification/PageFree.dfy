/** Freeing a whole page table (kernel/vm.c: freewalk and uvmfree). */
module PageFree {
  import opened Arith
  import opened Kalloc
  import opened PageTree
  import opened Vm

  /** There is a table with this level and key: the root, l1[key] or l0[key]. */
  ghost predicate Has(t: Tree, level: nat, key: int) {
    if level == 2 then key == 0 else if level == 1 then key in t.l1 else level == 0 && key in t.l0
  }

  ghost function Table(t: Tree, level: nat, key: int): int
    requires Has(t, level, key)
  {
    if level == 2 then t.root else if level == 1 then t.l1[key] else t.l0[key]
  }

  /** The tables below entries 0..i of a table. */
  ghost function Below(t: Tree, level: nat, key: int, i: int): set<int> {
    if level == 2 then (set j | j in t.l1 && j < i :: t.l1[j]) + (set k | k in t.l0 && k / 512 < i :: t.l0[k])
    else if level == 1 then set k | k in t.l0 && k / 512 == key && k % 512 < i :: t.l0[k]
    else {}
  }

  /** A table and all tables below it. */
  ghost function Sub(t: Tree, level: nat, key: int): set<int> {
    if Has(t, level, key) then {Table(t, level, key)} + Below(t, level, key, 512) else {}
  }

  ghost predicate LeafEmpty(mem: map<int, Page>, t: Tree, k: int)
    requires k in t.l0
  {
    LeafOk(mem, t, k) && forall i :: 0 <= i < 512 ==> !PageTree.Valid(mem[t.l0[k]][i])
  }

  ghost predicate MidEmpty(mem: map<int, Page>, t: Tree, j: int)
    requires j in t.l1
  {
    MidOk(mem, t, j) && forall k :: k in t.l0 && k / 512 == j ==> LeafEmpty(mem, t, k)
  }

  /** The tables are linked as t says, and no leaf entry is valid. */
  ghost predicate Intact(mem: map<int, Page>, t: Tree, level: nat, key: int) {
    && Has(t, level, key)
    && if level == 2 then RootOk(mem, t) && forall j :: j in t.l1 ==> MidEmpty(mem, t, j)
       else if level == 1 then MidEmpty(mem, t, key)
       else LeafEmpty(mem, t, key)
  }

  ghost predicate Addresses(mem: map<int, Page>) {
    forall x :: x in mem ==> x > 0 && x % PGSIZE == 0
  }

  /** Entry w points at the table below, or there is none and w is not valid. */
  ghost predicate Points(w: int, t: Tree, level: nat, key: int) {
    if Has(t, level, key) then PageTree.Valid(w) && w / 2 % 8 == 0 && PTE2PA(w) == Table(t, level, key)
    else !PageTree.Valid(w)
  }

  lemma PointsAt(page: int)
    requires page % PGSIZE == 0
    ensures var w := PA2PTE(page) + PTE_V; PageTree.Valid(w) && w / 2 % 8 == 0 && PTE2PA(w) == page
  {
    PteRoundTrip(page, 0);
    var n := page / 4096;
    DivUnique(n * 1024 + 1, 2, n * 512, 1);
    DivUnique(n * 512, 8, n * 64, 0);
  }

  lemma RootEntry(mem: map<int, Page>, t: Tree, i: int)
    requires Addresses(mem) && Intact(mem, t, 2, 0) && 0 <= i < 512
    ensures t.root in mem && |mem[t.root]| == WORDS && Points(mem[t.root][i], t, 1, i)
            && (i in t.l1 ==> Intact(mem, t, 1, i))
  {
    hide PA2PTE, PTE2PA;
    assert Entry(mem[t.root][i], t.l1, i);
    if i in t.l1 {
      assert MidEmpty(mem, t, i);
      PointsAt(t.l1[i]);
    }
  }

  lemma MidEntry(mem: map<int, Page>, t: Tree, j: int, i: int)
    requires Addresses(mem) && Intact(mem, t, 1, j) && 0 <= i < 512
    ensures t.l1[j] in mem && |mem[t.l1[j]]| == WORDS && Points(mem[t.l1[j]][i], t, 0, j * 512 + i)
    ensures j * 512 + i in t.l0 ==> Intact(mem, t, 0, j * 512 + i)
  {
  }

  /** What entry i of a table says. */
  lemma EntryAt(mem: map<int, Page>, t: Tree, level: nat, key: int, i: int)
    requires level <= 2 && Addresses(mem) && Intact(mem, t, level, key) && 0 <= i < 512
    ensures var page := Table(t, level, key);
            && page in mem && |mem[page]| == WORDS
            && (level == 0 ==> !PageTree.Valid(mem[page][i]))
            && (level > 0 ==> && Points(mem[page][i], t, level - 1, key * 512 + i)
                              && (Has(t, level - 1, key * 512 + i) ==> Intact(mem, t, level - 1, key * 512 + i)))
  {
    hide Points, MidEmpty;
    if level == 2 {
      RootEntry(mem, t, i);
    } else if level == 1 {
      MidEntry(mem, t, key, i);
    }
  }

  /** Pages outside a subtree do not matter to it. */
  lemma IntactFrame(mem: map<int, Page>, mem': map<int, Page>, t: Tree, level: nat, key: int)
    requires level <= 1 && Intact(mem, t, level, key) && mem'.Keys == mem.Keys
    requires forall x :: x in Sub(t, level, key) && x in mem ==> mem'[x] == mem[x]
    ensures Intact(mem', t, level, key)
  {
    assert Table(t, level, key) in Sub(t, level, key);
    if level == 1 {
      forall k | k in t.l0 && k / 512 == key
        ensures LeafEmpty(mem', t, k)
      {
        assert LeafEmpty(mem, t, k);
        var x := t.l0[k];
        assert x in Below(t, level, key, 512);
        assert x in mem.Keys && x in mem'.Keys && mem'[x] == mem[x];
      }
    }
  }

  // ---------------------------------------------------------------- subtrees are disjoint

  lemma MidBelow(t: Tree, key: int, i: int)
    requires 0 <= i < 512
    ensures Below(t, 1, key, i + 1) == Below(t, 1, key, i) + Sub(t, 0, key * 512 + i)
  {
  }

  lemma RootBelow(t: Tree, i: int)
    requires 0 <= i < 512 && Keys(t)
    ensures Below(t, 2, 0, i + 1) == Below(t, 2, 0, i) + Sub(t, 1, i)
  {
  }

  lemma BelowStep(t: Tree, level: nat, key: int, i: int)
    requires 1 <= level <= 2 && Has(t, level, key) && 0 <= i < 512 && Keys(t)
    ensures Below(t, level, key, i + 1) == Below(t, level, key, i) + Sub(t, level - 1, key * 512 + i)
  {
    hide Sub, Below;
    if level == 2 {
      RootBelow(t, i);
    } else {
      MidBelow(t, key, i);
    }
  }

  /** Subtrees under different entries have no page in common, and none contains the table itself. */
  lemma Apart(t: Tree, level: nat, key: int, i: int, c: int)
    requires 1 <= level <= 2 && Has(t, level, key) && 0 <= i < 512 && 0 <= c < 512 && Keys(t) && Unshared(t)
    ensures i != c ==> Sub(t, level - 1, key * 512 + i) !! Sub(t, level - 1, key * 512 + c)
    ensures Table(t, level, key) !in Sub(t, level - 1, key * 512 + i)
  {
    InTables(t);
    if level == 2 {
      SubMid(t, i);
      SubMid(t, c);
    }
  }

  lemma SubMid(t: Tree, j: int)
    requires Keys(t)
    ensures forall x :: x in Sub(t, 1, j) ==>
                          j in t.l1 && (x == t.l1[j] || exists k :: k in t.l0 && k / 512 == j && t.l0[k] == x)
  {
  }

  /** The tables below one entry. */
  ghost function Child(t: Tree, level: nat, key: int, c: int): set<int> {
    if level > 0 then Sub(t, level - 1, key * 512 + c) else {}
  }

  lemma {:induction false} Ahead(t: Tree, level: nat, key: int, i: int, c: int)
    requires level <= 2 && Has(t, level, key) && 0 <= i <= c < 512 && Keys(t) && Unshared(t)
    ensures Child(t, level, key, c) !! Below(t, level, key, i) && Table(t, level, key) !in Below(t, level, key, i)
    ensures Table(t, level, key) !in Child(t, level, key, c)
    decreases i
  {
    hide Sub, Table;
    if level > 0 {
      Apart(t, level, key, c, c);
      if i > 0 {
        Ahead(t, level, key, i - 1, c);
        BelowStep(t, level, key, i - 1);
        Apart(t, level, key, i - 1, c);
      }
    }
  }

  lemma {:induction false} Within(t: Tree, level: nat, key: int, c: int, n: int)
    requires level <= 2 && Has(t, level, key) && 0 <= c < n <= 512 && Keys(t)
    ensures Child(t, level, key, c) <= Below(t, level, key, n)
    decreases n
  {
  }

  ghost predicate ChildIntact(mem: map<int, Page>, t: Tree, level: nat, key: int, c: int) {
    level > 0 && Has(t, level - 1, key * 512 + c) ==> Intact(mem, t, level - 1, key * 512 + c)
  }

  /** What has happened when freewalk is about to look at entry i of a table. */
  ghost predicate Walked(mem0: map<int, Page>, free0: seq<int>, mem: map<int, Page>, free: seq<int>, t: Tree,
                         level: nat, key: int, i: int)
    requires Has(t, level, key)
  {
    var page := Table(t, level, key);
    && mem.Keys == mem0.Keys && page in mem && |mem[page]| == WORDS == |mem0[page]|
    && (forall k :: 0 <= i <= k < 512 ==> mem[page][k] == mem0[page][k])
    && (forall c :: i <= c < 512 ==> ChildIntact(mem, t, level, key, c))
    && (forall x :: x in free <==> x in free0 || x in Below(t, level, key, i))
    && (forall x :: x in mem && x != page && x !in Below(t, level, key, i) ==> mem[x] == mem0[x])
  }

  lemma WalkStart(mem: map<int, Page>, free: seq<int>, t: Tree, level: nat, key: int)
    requires level <= 2 && Addresses(mem) && Intact(mem, t, level, key) && Keys(t)
    ensures Walked(mem, free, mem, free, t, level, key, 0)
  {
    hide Intact;
    forall c | 0 <= c < 512
      ensures ChildIntact(mem, t, level, key, c)
    {
      EntryAt(mem, t, level, key, c);
    }
    EntryAt(mem, t, level, key, 0);
    assert Below(t, level, key, 0) == {};
  }

  /** An entry without a table below it. */
  lemma WalkSkip(mem0: map<int, Page>, free0: seq<int>, mem: map<int, Page>, free: seq<int>, t: Tree, level: nat,
                 key: int, i: int)
    requires level <= 2 && Has(t, level, key) && 0 <= i < 512 && Keys(t)
             && Walked(mem0, free0, mem, free, t, level, key, i)
    requires level > 0 ==> !Has(t, level - 1, key * 512 + i)
    ensures Walked(mem0, free0, mem, free, t, level, key, i + 1)
  {
    hide Intact;
    if level > 0 {
      BelowStep(t, level, key, i);
    }
  }

  /** The tables below entry i have been freed and the entry cleared. */
  lemma WalkChild(mem0: map<int, Page>, free0: seq<int>, mem: map<int, Page>, free: seq<int>, mem1: map<int, Page>,
                  free1: seq<int>,
                  mem2: map<int, Page>, t: Tree, level: nat, key: int, i: int)
    requires 1 <= level <= 2 && Has(t, level, key) && 0 <= i < 512 && Keys(t) && Unshared(t)
    requires Walked(mem0, free0, mem, free, t, level, key, i) && Has(t, level - 1, key * 512 + i)
    requires mem1.Keys == mem.Keys && (forall x :: x in free1 <==> x in free || x in Child(t, level, key, i))
    requires forall x :: x in mem && x !in Child(t, level, key, i) ==> mem1[x] == mem[x]
    requires Table(t, level, key) in mem1 && |mem1[Table(t, level, key)]| == WORDS
    requires mem2 == mem1[Table(t, level, key) := mem1[Table(t, level, key)][i := 0]]
    ensures Walked(mem0, free0, mem2, free1, t, level, key, i + 1)
  {
    hide Intact, Sub, Below, Table, Has;
    BelowStep(t, level, key, i);
    Ahead(t, level, key, i, i);
    forall c | i + 1 <= c < 512
      ensures ChildIntact(mem2, t, level, key, c)
    {
      assert ChildIntact(mem, t, level, key, c);
      Apart(t, level, key, i, c);
      Ahead(t, level, key, 0, c);
      if Has(t, level - 1, key * 512 + c) {
        IntactFrame(mem, mem2, t, level - 1, key * 512 + c);
      }
    }
  }

  /** The tables in the order in which the free list has them after freewalk: a table before
      those below it, and these from the last entry to the first. */
  ghost function Order(t: Tree, level: nat, key: int): seq<int>
    decreases level, 513
  {
    (if Has(t, level, key) then [Table(t, level, key)] else []) + OrderBelow(t, level, key, 512)
  }

  ghost function OrderBelow(t: Tree, level: nat, key: int, i: nat): seq<int>
    decreases level, i
  {
    if level == 0 || i == 0 then []
    else (if Has(t, level - 1, key * 512 + i - 1) then Order(t, level - 1, key * 512 + i - 1) else [])
         + OrderBelow(t, level, key, i - 1)
  }

  lemma OrderStep(t: Tree, level: nat, key: int, i: nat)
    ensures OrderBelow(t, level, key, 0) == []
    ensures level > 0 && Has(t, level - 1, key * 512 + i) ==>
              OrderBelow(t, level, key, i + 1) == Order(t, level - 1, key * 512 + i) + OrderBelow(t, level, key, i)
    ensures level == 0 || !Has(t, level - 1, key * 512 + i) ==>
              OrderBelow(t, level, key, i + 1) == OrderBelow(t, level, key, i)
    ensures Has(t, level, key) ==> Order(t, level, key) == [Table(t, level, key)] + OrderBelow(t, level, key, 512)
  {
    hide Has, Table;
  }

  /** freewalk: the table and all tables below it are free, and nothing else changes. */
  method FreeWalk(m: Memory, page: int, ghost t: Tree, ghost level: nat, ghost key: int)
    requires m.Valid() && Keys(t) && Unshared(t) && level <= 2 && Has(t, level, key) && Intact(m.mem, t, level, key)
             && page == Table(t, level, key)
    requires forall x :: x in m.free ==> x !in Sub(t, level, key)
    modifies m
    ensures m.Valid() && m.mem.Keys == old(m.mem).Keys
    ensures forall x :: x in m.free <==> x in old(m.free) || x in Sub(t, level, key)
    ensures forall x :: x in m.mem && x !in Sub(t, level, key) ==> m.mem[x] == old(m.mem)[x]
    ensures m.free == Order(t, level, key) + old(m.free)
    decreases level
  {
    hide Intact, Memory.Valid, Below, Table, Has, Sub, Points, Order, OrderBelow;
    OrderStep(t, level, key, 0);
    KnownAddresses(m);
    WalkStart(m.mem, m.free, t, level, key);
    TableInSub(t, level, key);
    var i := 0;
    while i < 512
      invariant 0 <= i <= 512 && m.Valid() && Walked(old(m.mem), old(m.free), m.mem, m.free, t, level, key, i)
      invariant page !in m.free && m.free == OrderBelow(t, level, key, i) + old(m.free)
    {
      ghost var mem0, free0 := m.mem, m.free;
      OrderStep(t, level, key, i);
      EntryAt(old(m.mem), t, level, key, i);
      var pte := m.mem[page][i];
      Decode(pte, t, level, key, i);
      Ahead(t, level, key, i, i);
      ChildInSub(t, level, key, i);
      if pte % 2 == 1 && pte / 2 % 8 == 0 {
        var child := PTE2PA(pte);
        assert ChildIntact(m.mem, t, level, key, i);
        FreeWalk(m, child, t, level - 1, key * 512 + i);
        ghost var mem1, free1 := m.mem, m.free;
        m.Store(page, m.mem[page][i := 0]);
        WalkChild(old(m.mem), old(m.free), mem0, free0, mem1, free1, m.mem, t, level, key, i);
      } else {
        assert pte % 2 == 0;  // panic("freewalk: leaf")
        WalkSkip(old(m.mem), old(m.free), m.mem, m.free, t, level, key, i);
      }
      i := i + 1;
    }
    m.Kfree(page);
  }

  lemma KnownAddresses(m: Memory)
    requires m.Valid()
    ensures Addresses(m.mem)
  {
  }

  lemma TableInSub(t: Tree, level: nat, key: int)
    requires Has(t, level, key)
    ensures forall x :: x in Sub(t, level, key) <==> x == Table(t, level, key) || x in Below(t, level, key, 512)
  {
  }

  lemma ChildInSub(t: Tree, level: nat, key: int, i: int)
    requires level <= 2 && Has(t, level, key) && 0 <= i < 512 && Keys(t)
    ensures Child(t, level, key, i) <= Sub(t, level, key)
  {
  }

  /** What freewalk makes of an entry. */
  lemma Decode(pte: int, t: Tree, level: nat, key: int, i: int)
    requires level > 0 ==> Points(pte, t, level - 1, key * 512 + i)
    requires level == 0 ==> !PageTree.Valid(pte)
    ensures if pte % 2 == 1 && pte / 2 % 8 == 0
            then level > 0 && Has(t, level - 1, key * 512 + i) && PTE2PA(pte) == Table(t, level - 1, key * 512 + i)
            else pte % 2 == 0 && (level > 0 ==> !Has(t, level - 1, key * 512 + i))
  {
  }

  /** With no valid leaf entry, the whole tree may go. */
  lemma NothingMapped(mem: map<int, Page>, t: Tree)
    requires TreeOk(mem, t) && forall v :: 0 <= v < MAXVPN ==> !PageTree.Valid(Pte(mem, t, v))
    ensures Intact(mem, t, 2, 0) && Keys(t) && Unshared(t)
  {
    forall k | k in t.l0
      ensures LeafEmpty(mem, t, k)
    {
      assert LeafOk(mem, t, k);
      forall i | 0 <= i < 512
        ensures !PageTree.Valid(mem[t.l0[k]][i])
      {
        var v := k * 512 + i;
        assert v / 512 == k && v % 512 == i && 0 <= v < MAXVPN;
        assert !PageTree.Valid(Pte(mem, t, v));
      }
    }
    forall j | j in t.l1
      ensures MidEmpty(mem, t, j)
    {
      assert MidOk(mem, t, j);
    }
  }

  lemma KeyOf<K, V>(m: map<K, V>, x: V) returns (k: K)
    requires x in m.Values
    ensures k in m && m[k] == x
  {
    k :| k in m.Keys && m[k] == x;
  }

  lemma WholeTree(t: Tree)
    requires Keys(t)
    ensures Sub(t, 2, 0) == Tables(t)
  {
    InTables(t);
    forall x | x in Tables(t)
      ensures x in Sub(t, 2, 0)
    {
      if x in t.l1.Values {
        var j := KeyOf(t.l1, x);
        assert x in Below(t, 2, 0, 512);
      } else if x in t.l0.Values {
        var k := KeyOf(t.l0, x);
        assert k / 512 < 512;
        assert x in Below(t, 2, 0, 512);
      }
    }
  }

  /** uvmfree: every page of the address space, data and tables, is back with the allocator. */
  method UvmFree(pt: PageTable, sz: int)
    requires pt.Ok() && 0 < sz <= MAXVA
    requires forall v :: 0 <= v < MAXVPN ==>
                           if v <= (sz - 1) / PGSIZE then PageTree.Valid(Pte(pt.m.mem, pt.t, v))
                               && Flags(Pte(pt.m.mem, pt.t, v)) != PTE_V
                                             else !PageTree.Valid(Pte(pt.m.mem, pt.t, v))
    requires DataPages(pt.m.mem, pt.m.free, pt.t, 0, (sz - 1) / PGSIZE + 1)
    modifies pt, pt.m
    ensures pt.m.Valid() && pt.m.mem.Keys == old(pt.m.mem).Keys
    ensures forall x :: x in pt.m.free <==> || x in old(pt.m.free) || x in old(Tables(pt.t))
                                            || x in Freed(old(pt.m.mem), old(pt.t), 0, (sz - 1) / PGSIZE + 1)
    ensures pt.m.free == Order(old(pt.t), 2, 0) + Freed(old(pt.m.mem), old(pt.t), 0, (sz - 1) / PGSIZE + 1)
                         + old(pt.m.free)
  {
    hide Order, TreeOk, Memory.Valid, Tables, Pte, Freed, DataPages, Sub, Intact, Keys, Unshared;
    ghost var t := pt.t;
    pt.UvmUnmap(0, sz, true);
    NothingMapped(pt.m.mem, t);
    WholeTree(t);
    FreeWalk(pt.m, pt.root, t, 2, 0);
  }
}
