/** fork's copy of an address space (kernel/vm.c: uvmcopy). */
module VmCopy {
  import opened Common
  import opened Kalloc
  import opened PageTree
  import opened PageNeeds
  import opened Vm

  /** What the child must get: for each of the first n pages of the parent, its flags and its contents. */
  ghost function Wanted(mem: map<int, Page>, t: Tree, n: nat): (w: seq<(int, Page)>)
    ensures |w| == n
    ensures forall i :: 0 <= i < n ==> w[i] == WantedAt(mem, t, i)
  {
    seq(n, i requires 0 <= i < n => WantedAt(mem, t, i))
  }

  ghost function WantedAt(mem: map<int, Page>, t: Tree, i: int): (int, Page) {
    var pte := Pte(mem, t, i);
    (Flags(pte), if PTE2PA(pte) in mem then mem[PTE2PA(pte)] else Filled(0))
  }

  /** The parent's tables and its first n data pages are neither free nor the child's tables. */
  ghost predicate Separate(mem: map<int, Page>, parent: Tree, owned: set<int>, n: int) {
    && Tables(parent) !! owned
    && forall v :: 0 <= v < n ==> SeparateAt(mem, parent, owned, v)
  }

  ghost predicate SeparateAt(mem: map<int, Page>, parent: Tree, owned: set<int>, v: int) {
    var pte := Pte(mem, parent, v);
    PageTree.Valid(pte) && Flags(pte) != PTE_V && PTE2PA(pte) in mem && PTE2PA(pte) !in owned
  }

  /** While only pages owned by the child's side change, the parent stays as it was. */
  lemma ParentStays(mem: map<int, Page>, mem': map<int, Page>, parent: Tree, owned: set<int>, n: int)
    requires TreeOk(mem, parent) && Separate(mem, parent, owned, n)
    requires mem'.Keys == mem.Keys && forall x :: x in mem && x !in owned ==> mem'[x] == mem[x]
    ensures TreeOk(mem', parent) && SameMap(mem, parent, mem', parent)
    ensures forall v :: 0 <= v < n && v < MAXVPN ==> WantedAt(mem', parent, v) == WantedAt(mem, parent, v)
  {
    hide TreeOk, Tables, Pte;
    assert forall x :: x in Tables(parent) ==> x !in owned;
    Outside(mem, parent, mem');
    forall v | 0 <= v < n && v < MAXVPN
      ensures WantedAt(mem', parent, v) == WantedAt(mem, parent, v)
    {
      assert SeparateAt(mem, parent, owned, v);
    }
  }

  lemma ValidFlags(pte: int)
    requires PageTree.Valid(pte) && Flags(pte) != PTE_V
    ensures 2 <= Flags(pte) < 1024
  {
  }

  /** The parent's table is in order as long as the child's side keeps to its own pages. */
  lemma ParentOk(parent: PageTable, child: PageTable, mem0: map<int, Page>, owned: set<int>, n: int)
    requires parent.m == child.m && child.Ok() && parent.t.root == parent.root
    requires TreeOk(mem0, parent.t) && Separate(mem0, parent.t, owned, n) && Owned(child.m.free, child.t) <= owned
    requires child.m.mem.Keys == mem0.Keys && forall x :: x in mem0 && x !in owned ==> child.m.mem[x] == mem0[x]
    ensures parent.Ok() && SameMap(mem0, parent.t, child.m.mem, parent.t)
    ensures Separate(child.m.mem, parent.t, Owned(child.m.free, child.t), if n < MAXVPN then n else MAXVPN)
    ensures forall v :: 0 <= v < n && v < MAXVPN ==> WantedAt(child.m.mem, parent.t, v) == WantedAt(mem0, parent.t, v)
  {
    hide TreeOk, Memory.Valid, Tables, Pte, WantedAt;
    ParentStays(mem0, child.m.mem, parent.t, owned, n);
    forall i | 0 <= i < |child.m.free|
      ensures child.m.free[i] !in Tables(parent.t)
    {
      assert child.m.free[i] in Owned(child.m.free, child.t);
    }
    forall v | 0 <= v < n && v < MAXVPN
      ensures SeparateAt(child.m.mem, parent.t, Owned(child.m.free, child.t), v)
    {
      assert SeparateAt(mem0, parent.t, owned, v);
      assert Pte(child.m.mem, parent.t, v) == Pte(mem0, parent.t, v);
    }
  }

  /** One turn of uvmcopy's loop. */
  method CopyOne(parent: PageTable, child: PageTable, i: int, ghost v: int) returns (pa: int)
    requires parent != child && parent.m == child.m && parent.Ok() && child.Ok() && i == v * PGSIZE && 0 <= v < MAXVPN
    requires SeparateAt(child.m.mem, parent.t, Owned(child.m.free, child.t), v)
             && !PageTree.Valid(Pte(child.m.mem, child.t, v))
    modifies parent`t, child`t, child.m
    ensures parent.t == old(parent.t) && child.Ok() && child.Framed() && child.root == old(child.root)
    ensures pa == 0 <==> |old(child.m.free)| < 1 + Missing(old(child.t), v)
    ensures pa != 0 ==> && Supplied(old(child.t), child.t, v, v + 1)
                        && |child.m.free| == |old(child.m.free)| - 1 - Missing(old(child.t), v)
                        && pa == old(child.m.free)[0] && TakenFrom(old(child.m.free), child.m.free)
    ensures pa == 0 ==> && SameMap(old(child.m.mem), old(child.t), child.m.mem, child.t)
                        && Owned(child.m.free, child.t) == old(Owned(child.m.free, child.t))
    ensures pa != 0 ==> var w := WantedAt(old(child.m.mem), parent.t, v);
                        && DataPage(child.m.mem, child.m.free, child.t, pa) && child.m.mem[pa] == w.1
                           && pa % PGSIZE == 0
                        && pa !in Owned(child.m.free, child.t)
                           && Owned(child.m.free, child.t) + {pa} == old(Owned(child.m.free, child.t))
                        && forall x :: 0 <= x < MAXVPN ==>
                             Pte(child.m.mem, child.t, x) == if x == v then LeafPte(pa, w.0)
                                 else Pte(old(child.m.mem), old(child.t), x)
  {
    hide TreeOk, Memory.Valid, Tables, Pte, LeafPte, Owned, Flags, PTE2PA, Missing, Supplied;
    var p := parent.Walk(i, false);
    assert p.Some? by { MappedHasLeaf(parent.m.mem, parent.t, v); }  // panic("uvmcopy: pte should exist")
    var pte := parent.GetPte(p.value, v);
    assert PageTree.Valid(pte);                                      // panic("uvmcopy: page not present")
    child.Aligned();
    pa := child.GrowOne(i, Flags(pte), child.m.mem[PTE2PA(pte)]);
  }

  /** uvmcopy: the child maps a new page with the same flags and the same contents for every
      page of the parent, exactly if there are free pages for them and for the table pages
      they need; otherwise its leaf map is what it was and no page is lost. None is the
      panic of unmapping an empty range, exactly if there are not even pages to map the
      first one. The parent does not change. */
  method UvmCopy(parent: PageTable, child: PageTable, sz: int) returns (r: Option<int>, ghost got: seq<int>)
    requires parent != child && parent.m == child.m && parent.Ok() && child.Ok() && 0 <= sz <= MAXVA
    requires Separate(parent.m.mem, parent.t, Owned(child.m.free, child.t), PgRoundUp(sz) / PGSIZE)
    requires forall v :: 0 <= v < PgRoundUp(sz) / PGSIZE ==> !PageTree.Valid(Pte(child.m.mem, child.t, v))
    modifies parent`t, child`t, child.m
    ensures parent.Ok() && child.Ok() && parent.t == old(parent.t) && child.Framed()
    ensures var n := PgRoundUp(sz) / PGSIZE;
            && (r == Some(0) <==> n + Needed(old(child.t), 0, n) <= |old(child.m.free)|)
            && (r == None <==> sz > 0 && |old(child.m.free)| < 1 + Missing(old(child.t), 0))
    ensures r == Some(0) ==> && |got| == PgRoundUp(sz) / PGSIZE
                             && Grown(old(child.m.mem), old(child.t), old(child.m.free), child.m.mem, child.t,
                                      child.m.free, 0, got,
                                      Wanted(old(child.m.mem), parent.t, |got|))
                             && TakenFrom(old(child.m.free), child.m.free)
                             && InTurn(old(child.m.free), old(child.t), 0, got)
    ensures r != Some(0) ==> && (r == None || r == Some(-1)) && |got| < PgRoundUp(sz) / PGSIZE
                             && (forall x :: 0 <= x < MAXVPN ==>
                                               Norm(Pte(child.m.mem, child.t, x)) ==
                                                   Norm(Pte(old(child.m.mem), old(child.t), x)))
                             && Owned(child.m.free, child.t) == old(Owned(child.m.free, child.t))
  {
    hide TreeOk, Memory.Valid, Tables, Pte, LeafPte, Owned, Grown, Separate, SeparateAt, WantedAt, Missing, Supplied,
         Needed, TakenFrom, InTurn;
    ghost var mem0, t0, free0 := child.m.mem, child.t, child.m.free;
    ghost var owned, n := Owned(free0, t0), PgRoundUp(sz) / PGSIZE;
    got := [];
    Rounding(sz, sz);
    GrownNone(mem0, t0, free0, 0);
    OwnedLess(mem0, t0, free0, mem0, t0, free0, got, []);
    SuppliedNone(t0, 0, 0);
    TakenNone(free0);
    InTurnNone(free0, t0, 0);
    NeededOne(t0, 0);
    var i := 0;
    while i < sz
      invariant parent.m == child.m && parent.t == old(parent.t) && parent.root == old(parent.root) && parent.Ok()
                && child.Ok()
      invariant child.root == old(child.root) && i == |got| * PGSIZE && |got| <= n
                && Owned(child.m.free, child.t) <= owned
      invariant Grown(mem0, t0, free0, child.m.mem, child.t, child.m.free, 0, got, Wanted(mem0, parent.t, |got|))
      invariant Supplied(t0, child.t, 0, |got|) && |child.m.free| == |free0| - |got| - Needed(t0, 0, |got|)
      invariant TakenFrom(free0, child.m.free) && InTurn(free0, t0, 0, got)
      invariant got != [] ==> Missing(t0, 0) < |free0|
      decreases sz - i
    {
      ghost var v, mem1, t1, free1 := |got|, child.m.mem, child.t, child.m.free;
      ghost var want := Wanted(mem0, parent.t, v);
      GrownFrame(mem0, t0, free0, mem1, t1, free1, 0, got, want);
      GrownElsewhere(mem0, t0, free0, mem1, t1, free1, 0, got, want, v);
      ParentOk(parent, child, mem0, owned, n);
      SeparateOne(child.m.mem, parent.t, Owned(child.m.free, child.t), n, v);
      NeededStep(t0, t1, 0, v);
      NeededMonotone(t0, 0, v + 1, n);
      var pa := CopyOne(parent, child, i, v);
      if pa == 0 {
        SameGrown(mem0, t0, free0, mem1, t1, free1, child.m.mem, child.t, child.m.free, 0, got, want);
        r := UndoCopy(parent, child, i, mem0, t0, free0, got, want, n);
        return;
      }
      GrowStep(mem0, t0, free0, mem1, t1, free1, child.m.mem, child.t, child.m.free, 0, got, want, pa,
               WantedAt(mem0, parent.t, v).0, WantedAt(mem0, parent.t, v).1);
      TakenTrans(free0, free1, child.m.free);
      InTurnStep(free0, free1, t0, 0, got);
      got := got + [pa];
      SuppliedStep(t0, t1, child.t, 0, v);
      assert Wanted(mem0, parent.t, v + 1) == want + [WantedAt(mem0, parent.t, v)];
      i := i + PGSIZE;
      OwnedLess(mem0, t0, free0, child.m.mem, child.t, child.m.free, got, Wanted(mem0, parent.t, |got|));
      GrownFrame(mem0, t0, free0, child.m.mem, child.t, child.m.free, 0, got, Wanted(mem0, parent.t, |got|));
      ParentOk(parent, child, mem0, owned, n);
    }
    GrownFrame(mem0, t0, free0, child.m.mem, child.t, child.m.free, 0, got, Wanted(mem0, parent.t, |got|));
    r := Some(0);
  }

  lemma OwnedLess(mem: map<int, Page>, t: Tree, free: seq<int>, mem': map<int, Page>, t': Tree, free': seq<int>,
                  got: seq<int>, want: seq<(int, Page)>)
    requires Grown(mem, t, free, mem', t', free', 0, got, want)
    ensures Owned(free', t') <= Owned(free, t)
  {
    hide Pte, LeafPte, Owned;
  }

  lemma SeparateOne(mem: map<int, Page>, parent: Tree, owned: set<int>, n: int, v: int)
    requires 0 <= v < n <= MAXVPN && Separate(mem, parent, owned, n)
    ensures SeparateAt(mem, parent, owned, v)
  {
    hide SeparateAt;
  }

  /** The err path: what was mapped is unmapped and freed. */
  method UndoCopy(parent: PageTable, child: PageTable, i: int, ghost mem0: map<int, Page>, ghost t0: Tree,
                  ghost free0: seq<int>,
                  ghost got: seq<int>, ghost want: seq<(int, Page)>, ghost n: int) returns (r: Option<int>)
    requires parent != child && parent.m == child.m && child.Ok() && i == |got| * PGSIZE && |got| < n <= MAXVPN
    requires parent.t.root == parent.root && TreeOk(mem0, parent.t) && Separate(mem0, parent.t, Owned(free0, t0), n)
    requires Grown(mem0, t0, free0, child.m.mem, child.t, child.m.free, 0, got, want)
             && want == Wanted(mem0, parent.t, |got|)
    requires forall v :: 0 <= v < n ==> !PageTree.Valid(Pte(mem0, t0, v))
    modifies child`t, child.m
    ensures parent.Ok() && child.Ok() && child.root == old(child.root)
    ensures (r == None || r == Some(-1)) && (r == None <==> got == [])
    ensures child.m.mem.Keys == mem0.Keys && forall x :: x in mem0 && x !in Owned(free0, t0) ==>
                                                           child.m.mem[x] == mem0[x]
    ensures forall x :: 0 <= x < MAXVPN ==> Norm(Pte(child.m.mem, child.t, x)) == Norm(Pte(mem0, t0, x))
    ensures Owned(child.m.free, child.t) == Owned(free0, t0)
  {
    hide TreeOk, Memory.Valid, Tables, Pte, LeafPte, Owned, Grown, SeparateAt;
    ghost var mem1, t1, free1 := child.m.mem, child.t, child.m.free;
    WantedFlags(mem0, parent.t, Owned(free0, t0), n, |got|);
    GrownMapped(mem0, t0, free0, mem1, t1, free1, 0, got, want);
    FreedNone(mem1, t1, 0);
    if i > 0 {
      child.UvmUnmap(0, i, true);
      r := Some(-1);
    } else {
      // uvmunmap(new, 0, 0, 1): its loop starts with page 0 all the same
      GrownElsewhere(mem0, t0, free0, mem1, t1, free1, 0, got, want, 0);
      var mapped := child.MayUnmap(0, 0);
      assert !mapped;  // panic
      r := None;
    }
    Restored(mem0, t0, free0, mem1, t1, free1, child.m.mem, child.m.free, 0, got, want);
    ParentOk(parent, child, mem0, Owned(free0, t0), n);
  }

  lemma WantedFlags(mem: map<int, Page>, parent: Tree, owned: set<int>, n: int, k: nat)
    requires Separate(mem, parent, owned, n) && k <= n
    ensures forall i :: 0 <= i < k ==> 2 <= Wanted(mem, parent, k)[i].0 < 1024
  {
    hide Pte, Tables;
    forall i | 0 <= i < k
      ensures 2 <= Wanted(mem, parent, k)[i].0 < 1024
    {
      assert SeparateAt(mem, parent, owned, i);
      ValidFlags(Pte(mem, parent, i));
    }
  }

  /** A page table at `root` with one mapped page, all of it in `pages`. */
  ghost predicate OnePage(mem: map<int, Page>, t: Tree, pages: set<int>) {
    TreeOk(mem, t) && Tables(t) <= pages && SeparateAt(mem, t, {}, 0) && PTE2PA(Pte(mem, t, 0)) in pages
  }

  lemma OnePageTree(mem: map<int, Page>, t: Tree, pages: set<int>)
    requires OnePage(mem, t, pages)
    ensures TreeOk(mem, t)
  {
  }

  lemma OwnedPages(free: seq<int>, page: int)
    ensures Owned(free, Tree(page, map[], map[])) == (set x | x in free) + {page}
  {
  }

  lemma OnePageGot(mem0: map<int, Page>, t0: Tree, free0: seq<int>, mem: map<int, Page>, t: Tree, free: seq<int>,
                   got: seq<int>)
    requires Grown(mem0, t0, free0, mem, t, free, 0, got, Zeroed(|got|)) && |got| == 1 && TreeOk(mem, t)
    ensures OnePage(mem, t, Owned(free0, t0)) && mem.Keys == mem0.Keys
  {
    hide Tables, TreeOk;
    assert Pte(mem, t, 0) == LeafPte(got[0], USER);
    PteRoundTrip(got[0], USER);
    assert got[0] in Owned(free, t) + (set x | x in got);
  }

  /** Another table's page lies apart from it. */
  lemma OnePageApart(mem: map<int, Page>, t: Tree, pages: set<int>, page: int)
    requires OnePage(mem, t, pages) && page in mem && page !in pages
    ensures OnePage(mem[page := Filled(0)], t, pages) && Separate(mem[page := Filled(0)], t, {page}, 1)
  {
    hide Tables, TreeOk, Pte;
    Outside(mem, t, mem[page := Filled(0)]);
  }

  /** The three free pages become the only page of a process and its two lower tables. */
  method SmallParent(m: Memory, page: int) returns (parent: PageTable)
    requires m.Valid() && |m.free| == 3 && page in m.mem && page !in m.free
    modifies m
    ensures fresh(parent) && parent.m == m && parent.Ok() && m.free == [] && m.mem.Keys == old(m.mem).Keys
    ensures OnePage(m.mem, parent.t, (set x | x in old(m.free)) + {page})
  {
    hide Memory.Valid, TreeOk, Tables, Pte, Grown, LeafPte, Owned, OnePage, Needed;
    parent := new PageTable(m, page);
    ghost var mem0, t0 := m.mem, parent.t;
    NeededOne(t0, 0);
    OwnedPages(m.free, page);
    var sz; ghost var ok, got;
    sz, ok, got := parent.UvmAlloc(0, 1);
    OnePageGot(mem0, t0, old(m.free), m.mem, parent.t, m.free, got);
  }

  /** The panic does happen: a process with one page forks when no page is free. */
  method CopyPanics() returns (r: Option<int>)
    ensures r == None
  {
    hide Memory.Valid, TreeOk, Pte, Tables, Owned, OnePage, Separate;
    var m := SmallMemory();
    ghost var pages := (set x | x in m.free) + {4096};
    var parent := SmallParent(m, 4096);
    OnePageApart(m.mem, parent.t, pages, 8192);
    var child := new PageTable(m, 8192);
    OwnedPages([], 8192);
    assert Owned(m.free, child.t) == {8192};
    OnePageTree(m.mem, parent.t, pages);
    ghost var got;
    r, got := UvmCopy(parent, child, 1);
  }

  /** Five pages, three of them free. */
  method SmallMemory() returns (m: Memory)
    ensures fresh(m) && m.Valid() && m.free == [12288, 16384, 20480]
    ensures m.mem.Keys == {4096, 8192, 12288, 16384, 20480}
  {
    hide Memory.Valid, Filled;
    m := new Memory(map[4096 := Filled(0), 8192 := Filled(0), 12288 := Filled(0), 16384 := Filled(0),
                        20480 := Filled(0)]);
    m.Kfree(20480);
    m.Kfree(16384);
    m.Kfree(12288);
  }
}
