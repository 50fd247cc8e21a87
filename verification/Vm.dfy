/** Virtual memory (kernel/vm.c): walk, mappages, uvmunmap, uvmalloc and uvmdealloc on
  page tables in memory.
 */
module Vm {
  import Arith
  import opened Common
  import opened Kalloc
  import opened PageTree
  import opened PageNeeds

  function PgRoundUp(sz: int): int { (sz + PGSIZE - 1) / PGSIZE * PGSIZE }

  function PgRoundDown(a: int): int { a / PGSIZE * PGSIZE }

  /** Pages that are free or hold this page table. */
  ghost function Owned(free: seq<int>, t: Tree): set<int> {
    (set x | x in free) + Tables(t)
  }

  ghost predicate Disjoint(free: seq<int>, t: Tree) {
    forall i :: 0 <= i < |free| ==> free[i] !in Tables(t)
  }

  class PageTable {
    const m: Memory
    ghost var t: Tree
    var root: int

    ghost predicate Ok()
      reads this, m
    {
      && m.Valid() && TreeOk(m.mem, t) && t.root == root
      && Disjoint(m.free, t)
    }

    /** Only pages that were free or part of this table may have changed. */
    twostate predicate Framed()
      reads this, m
    {
      && m.mem.Keys == old(m.mem).Keys
      && forall x :: x in m.mem && x !in Owned(old(m.free), old(t)) ==> m.mem[x] == old(m.mem)[x]
    }

    /** uvmcreate, on a page kalloc has just returned. */
    constructor (m: Memory, page: int)
      requires m.Valid() && page in m.mem && page !in m.free
      modifies m
      ensures Ok() && this.m == m && root == page && m.free == old(m.free) && m.mem == old(m.mem)[page := Filled(0)]
      ensures t == Tree(page, map[], map[]) && forall v :: Pte(m.mem, t, v) == 0
    {
      this.m, root := m, page;
      t := Tree(page, map[], map[]);
      new;
      m.Store(page, Filled(0));
    }

    lemma Aligned()
      requires m.Valid()
      ensures forall x :: x in m.mem ==> x > 0 && x % PGSIZE == 0 && |m.mem[x]| == WORDS
    {
    }

    lemma FreeIsDistinct()
      requires m.Valid()
      ensures Distinct(m.free)
    {
    }

    lemma NotFree(x: int)
      requires Ok() && x in Tables(t)
      ensures x !in m.free
    {
    }

    /** One level of walk: follow the entry, or create the page it should point at. */
    method Descend(table: int, i: int, alloc: bool, ghost mid: bool, ghost k: int) returns (next: int)
      requires Ok() && 0 <= i < 512
      requires mid ==> table == root && k == i < 256
      requires !mid ==> 0 <= k < 256 * 512 && i == k % 512 && k / 512 in t.l1 && table == t.l1[k / 512]
      modifies this`t, m
      ensures Ok() && Framed() && SameMap(old(m.mem), old(t), m.mem, t) && root == old(root)
      ensures Owned(m.free, t) == old(Owned(m.free, t))
      ensures mid ==> (next != 0 ==> k in t.l1 && next == t.l1[k] && t.l0 == old(t).l0 && t.l1 == old(t).l1[k := next])
      ensures !mid ==> (next != 0 ==> k in t.l0 && next == t.l0[k] && t.l1 == old(t).l1 && t.l0 == old(t).l0[k := next])
      ensures next == 0 || !alloc ==> t == old(t) && m.mem == old(m.mem) && m.free == old(m.free)
      ensures next == 0 <==> (if mid then k !in old(t).l1 else k !in old(t).l0) && (!alloc || old(m.free) == [])
      ensures next != 0 ==>
              |m.free| == |old(m.free)| - if (if mid then k in old(t).l1 else k in old(t).l0) then 0 else 1
      ensures TakenFrom(old(m.free), m.free)
    {
      hide TreeOk, Memory.Valid, Tables, Chain;
      Aligned();
      InTables(t);
      NotFree(table);
      Follow(m.mem, t, i, k, mid);
      var pte := m.mem[table][i];
      if pte % 2 == 1 {
        next := PTE2PA(pte);
        return;
      }
      if !alloc {
        return 0;
      }
      ghost var mem0, free0 := m.mem, m.free;
      FreshPage(m.free, t);
      next := m.Kalloc();
      if next == 0 {
        return;
      }
      Outside(mem0, t, m.mem);
      ghost var mem1 := m.mem;
      if mid {
        AddMidOk(mem1, t, k, next);
      } else {
        AddLeafOk(mem1, t, k, next);
      }
      m.Store(next, Filled(0));
      m.Store(table, m.mem[table][i := PA2PTE(next) + PTE_V]);
      t := if mid then AddMid(t, k, next) else AddLeaf(t, k, next);
      MoveToTables(free0, old(t), t, next);
    }

    /** walk: the place of the entry for va, as a page and an index into it; None exactly
        if more table pages are missing than can be created. The flat map does not change. */
    method Walk(va: int, alloc: bool) returns (r: Option<(int, int)>)
      requires Ok() && 0 <= va < MAXVA
      modifies this`t, m
      ensures Ok() && Framed() && SameMap(old(m.mem), old(t), m.mem, t) && root == old(root)
      ensures Owned(m.free, t) == old(Owned(m.free, t))
      ensures r.Some? ==> var v := va / PGSIZE;
                          v / 512 in t.l0 && r.value == (t.l0[v / 512], v % 512)
      ensures r.None? <==> Missing(old(t), va / PGSIZE) > if alloc then |old(m.free)| else 0
      ensures r.Some? && alloc ==> && Supplied(old(t), t, va / PGSIZE, va / PGSIZE + 1)
                                   && |m.free| == |old(m.free)| - Missing(old(t), va / PGSIZE)
      ensures r.None? ==> va / PGSIZE / 512 !in old(t).l0
      ensures !alloc ==> t == old(t) && m.mem == old(m.mem) && m.free == old(m.free)
      ensures TakenFrom(old(m.free), m.free)
    {
      hide TreeOk, Memory.Valid, Tables, TakenFrom;
      TakenNone(m.free);
      Digits(va);
      ghost var v := va / PGSIZE;
      if v / 512 in t.l0 {
        LeafNeedsMid(m.mem, t, v / 512);
      }
      var pagetable := root;
      var level := 2;
      while level > 0
        invariant 0 <= level <= 2 && Ok() && Framed() && SameMap(old(m.mem), old(t), m.mem, t) && root == old(root)
        invariant Owned(m.free, t) == old(Owned(m.free, t))
        invariant level == 2 ==> pagetable == root && t == old(t) && m.free == old(m.free)
        invariant level == 1 ==> && v / 512 / 512 in t.l1 && pagetable == t.l1[v / 512 / 512] && t.l0 == old(t).l0
        invariant level <= 1 ==> t.l1.Keys == old(t).l1.Keys + {v / 512 / 512}
        invariant level == 0 ==>
                  v / 512 in t.l0 && pagetable == t.l0[v / 512] && t.l0.Keys == old(t).l0.Keys + {v / 512}
        invariant |m.free| + Missing(old(t), v) == |old(m.free)| + Missing(t, v)
        invariant !alloc ==> t == old(t) && m.mem == old(m.mem) && m.free == old(m.free)
        invariant TakenFrom(old(m.free), m.free)
      {
        label before:
        ghost var mem0, t0, free0 := m.mem, t, m.free;
        var next := Descend(pagetable, PX(level, va), alloc, level == 2, if level == 2 then v / 512 / 512 else v / 512);
        SameTrans(old(m.mem), old(t), mem0, t0, m.mem, t);
        TakenTrans(old(m.free), free0, m.free);
        if next == 0 {
          return None;
        }
        pagetable := next;
        level := level - 1;
      }
      RangeStep(v, v);
      r := Some((pagetable, PX(0, va)));
    }

    /** A store through the pointer walk returned. */
    method SetPte(r: (int, int), w: int, ghost v: int)
      requires Ok() && 0 <= v < MAXVPN && v / 512 in t.l0 && r == (t.l0[v / 512], v % 512)
      modifies m
      ensures Ok() && m.free == old(m.free) && m.mem.Keys == old(m.mem).Keys
      ensures forall x :: 0 <= x < MAXVPN ==> Pte(m.mem, t, x) == if x == v then w else Pte(old(m.mem), t, x)
      ensures forall x :: x in m.mem && x !in Tables(t) ==> m.mem[x] == old(m.mem)[x]
    {
      hide TreeOk, Memory.Valid, Tables, Pte;
      StoreOk(m.mem, t, v, w);
      InTables(t);
      NotFree(r.0);
      m.Store(r.0, m.mem[r.0][r.1 := w]);
    }

    method GetPte(r: (int, int), ghost v: int) returns (w: int)
      requires Ok() && 0 <= v < MAXVPN && v / 512 in t.l0 && r == (t.l0[v / 512], v % 512)
      ensures w == Pte(m.mem, t, v)
    {
      hide Memory.Valid, Tables;
      assert LeafOk(m.mem, t, v / 512);
      w := m.mem[r.0][r.1];
    }

    /** walkaddr: the address a user page is mapped to, or 0. */
    method WalkAddr(va: int) returns (pa: int)
      requires Ok() && 0 <= va
      modifies this`t, m
      ensures Ok() && t == old(t) && m.mem == old(m.mem) && m.free == old(m.free)
      ensures pa == if va < MAXVA && Valid(Pte(m.mem, t, va / PGSIZE)) && Pte(m.mem, t, va / PGSIZE) / PTE_U % 2 == 1
                    then PTE2PA(Pte(m.mem, t, va / PGSIZE)) else 0
    {
      hide TreeOk, Memory.Valid, Tables, Missing, Supplied, Needed;
      if va >= MAXVA {
        return 0;
      }
      var r := Walk(va, false);
      if r.None? {
        return 0;
      }
      var pte := GetPte(r.value, va / PGSIZE);
      if pte % 2 == 0 {
        return 0;
      }
      if pte / PTE_U % 2 == 0 {
        return 0;
      }
      pa := PTE2PA(pte);
    }

    /** mappages: n pages from that of va on are mapped to consecutive physical pages,
        and no other entry changes; n is all of them exactly if there are free pages for the
        table pages they need. */
    method MapPages(va: int, size: int, pa0: int, perm: int) returns (rc: int, ghost n: nat)
      requires Ok() && 0 <= va && 0 < size && va + size <= MAXVA
      requires forall v :: va / PGSIZE <= v <= (va + size - 1) / PGSIZE ==> !Valid(Pte(m.mem, t, v))
      modifies this`t, m
      ensures Ok() && Framed() && root == old(root) && Owned(m.free, t) == old(Owned(m.free, t))
      ensures TakenFrom(old(m.free), m.free)
      ensures var first, count := va / PGSIZE, (va + size - 1) / PGSIZE - va / PGSIZE + 1;
              && n <= count && (rc == 0 <==> n == count) && (rc == 0 || rc == -1)
              && (rc == 0 <==> Needed(old(t), first, first + count) <= |old(m.free)|)
              && (rc == 0 ==> && Supplied(old(t), t, first, first + count)
                              && |m.free| == |old(m.free)| - Needed(old(t), first, first + count))
              && forall x :: 0 <= x < MAXVPN ==>
                   Pte(m.mem, t, x) == if first <= x < first + n then LeafPte(pa0 + (x - first) * PGSIZE, perm)
                                       else Pte(old(m.mem), old(t), x)
    {
      hide TreeOk, Memory.Valid, Tables, Pte, LeafPte, Owned, Needed, Missing, Supplied, TakenFrom;
      TakenNone(m.free);
      ghost var first := va / PGSIZE;
      ghost var after := (va + size - 1) / PGSIZE + 1;
      SuppliedNone(t, first, first);
      var a := PgRoundDown(va);
      var last := PgRoundDown(va + size - 1);
      var pa := pa0;
      n := 0;
      while true
        invariant Ok() && Framed() && root == old(root) && Owned(m.free, t) == old(Owned(m.free, t))
        invariant a == (first + n) * PGSIZE <= last && pa == pa0 + n * PGSIZE && TakenFrom(old(m.free), m.free)
        invariant Supplied(old(t), t, first, first + n) && |m.free| == |old(m.free)| - Needed(old(t), first, first + n)
        invariant forall x :: 0 <= x < MAXVPN ==>
                    Pte(m.mem, t, x) == if first <= x < first + n then LeafPte(pa0 + (x - first) * PGSIZE, perm)
                                        else Pte(old(m.mem), old(t), x)
        decreases last - a
      {
        ghost var t0, free0 := t, m.free;
        NeededStep(old(t), t, first, first + n);
        NeededMonotone(old(t), first, first + n + 1, after);
        var more := MapOne(a, pa, perm);
        TakenTrans(old(m.free), free0, m.free);
        if !more {
          return -1, n;
        }
        SuppliedStep(old(t), t0, t, first, first + n);
        n := n + 1;
        if a == last {
          break;
        }
        a := a + PGSIZE;
        pa := pa + PGSIZE;
      }
      rc := 0;
    }

    /** One turn of mappages' loop. */
    method MapOne(a: int, pa: int, perm: int) returns (ok: bool)
      requires Ok() && 0 <= a < MAXVA && a % PGSIZE == 0 && !Valid(Pte(m.mem, t, a / PGSIZE))
      modifies this`t, m
      ensures Ok() && Framed() && root == old(root) && Owned(m.free, t) == old(Owned(m.free, t))
      ensures ok <==> Missing(old(t), a / PGSIZE) <= |old(m.free)|
      ensures ok ==> && Supplied(old(t), t, a / PGSIZE, a / PGSIZE + 1)
                     && |m.free| == |old(m.free)| - Missing(old(t), a / PGSIZE)
      ensures !ok ==> SameMap(old(m.mem), old(t), m.mem, t)
      ensures TakenFrom(old(m.free), m.free)
      ensures ok ==> forall x :: 0 <= x < MAXVPN ==>
                Pte(m.mem, t, x) == if x == a / PGSIZE then LeafPte(pa, perm) else Pte(old(m.mem), old(t), x)
    {
      hide TreeOk, Memory.Valid, Tables, Pte, LeafPte, Missing, Supplied, Needed;
      var r := Walk(a, true);
      if r.None? {
        return false;
      }
      var pte := GetPte(r.value, a / PGSIZE);
      assert !Valid(pte);  // panic("remap")
      TablesOwned(m.free, t);
      SetPte(r.value, LeafPte(pa, perm), a / PGSIZE);
      ok := true;
    }

    /** The tests a turn of uvmunmap's loop starts with; where one fails the kernel panics. */
    method MayUnmap(a: int, ghost v: int) returns (ok: bool)
      requires Ok() && a == v * PGSIZE && 0 <= v < MAXVPN
      modifies this`t, m
      ensures Ok() && t == old(t) && m.mem == old(m.mem) && m.free == old(m.free)
      ensures ok <==> Valid(Pte(m.mem, t, v)) && Flags(Pte(m.mem, t, v)) != PTE_V
    {
      hide TreeOk, Memory.Valid, Tables, Missing, Supplied;
      var r := Walk(a, false);
      if r.None? {
        return false;              // panic("uvmunmap: walk")
      }
      var pte := GetPte(r.value, v);
      ok := Valid(pte) && Flags(pte) != PTE_V;
    }

    /** One turn of uvmunmap's loop. */
    method UnmapOne(a: int, doFree: bool, ghost v: int, ghost hi: int)
      requires Ok() && a == v * PGSIZE && 0 <= v < hi <= MAXVPN
      requires Valid(Pte(m.mem, t, v)) && Flags(Pte(m.mem, t, v)) != PTE_V
      requires doFree ==> DataPages(m.mem, m.free, t, v, hi)
      modifies this`t, m
      ensures Ok() && t == old(t) && m.mem.Keys == old(m.mem).Keys
      ensures forall x :: 0 <= x < MAXVPN ==> Pte(m.mem, t, x) == if x == v then 0 else Pte(old(m.mem), t, x)
      ensures if doFree then m.free == [PTE2PA(Pte(old(m.mem), t, v))] + old(m.free) else m.free == old(m.free)
      ensures doFree ==> DataPages(m.mem, m.free, t, v + 1, hi)
      ensures forall x :: x in m.mem && x !in Tables(t) && (doFree ==> x != PTE2PA(Pte(old(m.mem), t, v))) ==>
                            m.mem[x] == old(m.mem)[x]
    {
      hide TreeOk, Memory.Valid, Tables, Pte, Missing, Supplied, Needed;
      var r := Walk(a, false);
      assert r.Some? by { MappedHasLeaf(m.mem, t, v); }
      var pte := GetPte(r.value, v);
      assert Valid(pte);           // panic("uvmunmap: not mapped")
      assert Flags(pte) != PTE_V;  // panic("uvmunmap: not a leaf")
      if doFree {
        var pa := PTE2PA(pte);
        assert DataPage(m.mem, m.free, t, pa);
        ghost var mem0 := m.mem;
        m.Kfree(pa);
        Outside(mem0, t, m.mem);
      }
      SetPte(r.value, 0, v);
    }

    /** uvmunmap: the entries of the range are cleared and no other entry changes; with
        do_free the pages they mapped go back to the allocator. */
    method UvmUnmap(va: int, size: int, doFree: bool)
      requires Ok() && 0 <= va && 0 < size && va + size <= MAXVA
      requires forall v :: va / PGSIZE <= v <= (va + size - 1) / PGSIZE ==>
                 Valid(Pte(m.mem, t, v)) && Flags(Pte(m.mem, t, v)) != PTE_V
      requires doFree ==> DataPages(m.mem, m.free, t, va / PGSIZE, (va + size - 1) / PGSIZE + 1)
      modifies this`t, m
      ensures Ok() && t == old(t) && m.mem.Keys == old(m.mem).Keys
      ensures var lo, hi := va / PGSIZE, (va + size - 1) / PGSIZE + 1;
              && (forall x :: 0 <= x < MAXVPN ==> Pte(m.mem, t, x) == if lo <= x < hi then 0 else Pte(old(m.mem), t, x))
              && (if doFree then m.free == Freed(old(m.mem), t, lo, hi) + old(m.free) else m.free == old(m.free))
              && (forall x :: x in m.mem && x !in old(Owned(m.free, t))
                              && (doFree ==> x !in Freed(old(m.mem), t, lo, hi)) ==>
                    m.mem[x] == old(m.mem)[x])
    {
      hide TreeOk, Memory.Valid, Tables, Pte, Freed, DataPages, Owned;
      ghost var lo := va / PGSIZE;
      ghost var hi := (va + size - 1) / PGSIZE + 1;
      var a := PgRoundDown(va);
      var last := PgRoundDown(va + size - 1);
      ghost var v := lo;
      FreedNone(m.mem, t, lo);
      TablesOwned(m.free, t);
      while true
        invariant lo <= v < hi && a == v * PGSIZE <= last
        invariant Ok() && t == old(t) && m.mem.Keys == old(m.mem).Keys
        invariant forall x :: 0 <= x < MAXVPN ==> Pte(m.mem, t, x) == if lo <= x < v then 0 else Pte(old(m.mem), t, x)
        invariant if doFree then m.free == Freed(old(m.mem), t, lo, v) + old(m.free) else m.free == old(m.free)
        invariant doFree ==> DataPages(m.mem, m.free, t, v, hi)
        invariant forall x :: x in m.mem && x !in old(Owned(m.free, t))
                              && (doFree ==> x !in Freed(old(m.mem), t, lo, v)) ==>
                    m.mem[x] == old(m.mem)[x]
        decreases last - a
      {
        UnmapOne(a, doFree, v, hi);
        FreedOne(old(m.mem), t, lo, v);
        v := v + 1;
        if a == last {
          break;
        }
        a := a + PGSIZE;
      }
    }

    /** One turn of the loops of uvmalloc and uvmcopy: a new page with these contents is
        mapped at a, or nothing is and no page is lost. */
    method GrowOne(a: int, perm: int, contents: Page) returns (pa: int)
      requires Ok() && 0 <= a < MAXVA && a % PGSIZE == 0 && !Valid(Pte(m.mem, t, a / PGSIZE)) && |contents| == WORDS
      modifies this`t, m
      ensures Ok() && Framed() && root == old(root)
      ensures pa == 0 <==> |old(m.free)| < 1 + Missing(old(t), a / PGSIZE)
      ensures pa != 0 ==> && Supplied(old(t), t, a / PGSIZE, a / PGSIZE + 1)
                          && |m.free| == |old(m.free)| - 1 - Missing(old(t), a / PGSIZE)
                          && pa == old(m.free)[0] && TakenFrom(old(m.free), m.free)
      ensures pa == 0 ==> SameMap(old(m.mem), old(t), m.mem, t) && Owned(m.free, t) == old(Owned(m.free, t))
      ensures pa != 0 ==> && DataPage(m.mem, m.free, t, pa) && m.mem[pa] == contents && pa % PGSIZE == 0
                          && pa !in Owned(m.free, t) && Owned(m.free, t) + {pa} == old(Owned(m.free, t))
                          && forall x :: 0 <= x < MAXVPN ==>
                               Pte(m.mem, t, x) == if x == a / PGSIZE then LeafPte(pa, perm)
                                   else Pte(old(m.mem), old(t), x)
    {
      hide TreeOk, Memory.Valid, Tables, Pte, LeafPte, Missing, Supplied, Needed, TakenFrom, Owned;
      Aligned();
      FreeIsDistinct();
      FreshPage(m.free, t);
      pa := m.Kalloc();
      if pa == 0 {
        return;
      }
      TakenOne(old(m.free));
      ghost var free1 := m.free;
      TakeOwned(old(m.free), t);
      m.Store(pa, contents);
      Outside(old(m.mem), t, m.mem);
      ghost var mem0, t0 := m.mem, t;
      var rc; ghost var n;
      NeededOne(t, a / PGSIZE);
      rc, n := MapPages(a, PGSIZE, pa, perm);
      TakenTrans(old(m.free), free1, m.free);
      NotOwned(m.free, t, pa);
      if rc != 0 {
        ghost var mem1 := m.mem;
        m.Kfree(pa);
        GiveOwned(m.free, t);
        Outside(mem1, t, m.mem);
        pa := 0;
      }
    }

    /** uvmdealloc: the pages past the new size are unmapped and freed. */
    method UvmDealloc(oldsz: int, newsz: int) returns (r: int)
      requires Ok() && 0 <= newsz && oldsz <= MAXVA
      requires forall v :: PgRoundUp(newsz) / PGSIZE <= v < PgRoundUp(oldsz) / PGSIZE ==>
                 Valid(Pte(m.mem, t, v)) && Flags(Pte(m.mem, t, v)) != PTE_V
      requires DataPages(m.mem, m.free, t, PgRoundUp(newsz) / PGSIZE, PgRoundUp(oldsz) / PGSIZE)
      modifies this`t, m
      ensures Ok() && t == old(t) && r == if newsz >= oldsz then oldsz else newsz
      ensures var lo, hi := PgRoundUp(newsz) / PGSIZE, PgRoundUp(oldsz) / PGSIZE;
              && (forall x :: 0 <= x < MAXVPN ==>
                                Pte(m.mem, t, x) == if newsz < oldsz && lo <= x < hi then 0 else Pte(old(m.mem), t, x))
              && (if newsz < oldsz then m.free == Freed(old(m.mem), t, lo, hi) + old(m.free) else m.free == old(m.free))
              && m.mem.Keys == old(m.mem).Keys
              && (forall x :: x in m.mem && x !in old(Owned(m.free, t)) && x !in Freed(old(m.mem), t, lo, hi) ==>
                                m.mem[x] == old(m.mem)[x])
    {
      hide TreeOk, Memory.Valid, Tables, Pte, DataPages;
      if newsz >= oldsz {
        return oldsz;
      }
      var newup := PgRoundUp(newsz);
      Rounding(newsz, oldsz);
      if newup < PgRoundUp(oldsz) {
        UvmUnmap(newup, oldsz - newup, true);
      }
      r := newsz;
    }

    /** uvmalloc's way out when memory is used up. */
    method RollBack(a: int, oldsz: int, ghost mem0: map<int, Page>, ghost t0: Tree, ghost free0: seq<int>,
                    ghost lo: int, ghost got: seq<int>)
      requires Ok() && 0 <= lo && oldsz == lo * PGSIZE && a == (lo + |got|) * PGSIZE && lo + |got| <= MAXVPN
      requires Grown(mem0, t0, free0, m.mem, t, m.free, lo, got, Zeroed(|got|))
      requires forall v :: lo <= v < lo + |got| ==> !Valid(Pte(mem0, t0, v))
      modifies this`t, m
      ensures Ok() && root == old(root)
      ensures m.mem.Keys == mem0.Keys && forall x :: x in mem0 && x !in Owned(free0, t0) ==> m.mem[x] == mem0[x]
      ensures forall x :: 0 <= x < MAXVPN ==> Norm(Pte(m.mem, t, x)) == Norm(Pte(mem0, t0, x))
      ensures Owned(m.free, t) == Owned(free0, t0)
    {
      hide TreeOk, Memory.Valid, Tables, Pte, LeafPte, Owned, Grown;
      ghost var mem1, t1, free1 := m.mem, t, m.free;
      GrownMapped(mem0, t0, free0, mem1, t1, free1, lo, got, Zeroed(|got|));
      FreedNone(mem1, t1, lo);
      var _ := UvmDealloc(a, oldsz);
      Restored(mem0, t0, free0, mem1, t1, free1, m.mem, m.free, lo, got, Zeroed(|got|));
    }

    /** uvmalloc: either every page of the range is mapped to its own zeroed page, or the
        leaf map is what it was and every data page is back with the allocator. It is the
        first exactly if there are free pages for the range and the table pages it needs. */
    method UvmAlloc(oldsz0: int, newsz: int) returns (r: int, ghost ok: bool, ghost got: seq<int>)
      requires Ok() && 0 <= oldsz0 && newsz <= MAXVA
      requires forall v :: PgRoundUp(oldsz0) / PGSIZE <= v < PgRoundUp(newsz) / PGSIZE ==> !Valid(Pte(m.mem, t, v))
      modifies this`t, m
      ensures Ok() && Framed() && root == old(root)
      ensures newsz < oldsz0 ==> r == oldsz0 && ok && got == []
      ensures newsz >= oldsz0 ==> r == if ok then newsz else 0
      ensures var lo, hi := PgRoundUp(oldsz0) / PGSIZE, PgRoundUp(newsz) / PGSIZE;
              && (ok <==> Max0(hi - lo) + Needed(old(t), lo, hi) <= |old(m.free)|)
              && (ok ==> |m.free| == |old(m.free)| - Max0(hi - lo) - Needed(old(t), lo, hi))
      ensures ok ==> && |got| == Max0(PgRoundUp(newsz) / PGSIZE - PgRoundUp(oldsz0) / PGSIZE)
                     && Grown(old(m.mem), old(t), old(m.free), m.mem, t, m.free, PgRoundUp(oldsz0) / PGSIZE, got,
                              Zeroed(|got|))
      ensures ok ==> UserPages(m.mem, t, PgRoundUp(oldsz0) / PGSIZE, got)
      ensures ok ==> && TakenFrom(old(m.free), m.free)
                     && InTurn(old(m.free), old(t), PgRoundUp(oldsz0) / PGSIZE, got)
      ensures !ok ==> && (forall x :: 0 <= x < MAXVPN ==> Norm(Pte(m.mem, t, x)) == Norm(Pte(old(m.mem), old(t), x)))
                      && Owned(m.free, t) == old(Owned(m.free, t))
    {
      hide TreeOk, Memory.Valid, Tables, Pte, LeafPte, Owned, Grown, Missing, Supplied, Needed, TakenFrom, InTurn;
      got, ok := [], true;
      TakenNone(m.free);
      InTurnNone(m.free, t, PgRoundUp(oldsz0) / PGSIZE);
      GrownNone(m.mem, t, m.free, PgRoundUp(oldsz0) / PGSIZE);
      if newsz < oldsz0 {
        SuppliedNone(t, PgRoundUp(oldsz0) / PGSIZE, PgRoundUp(newsz) / PGSIZE);
        return oldsz0, true, got;
      }
      var oldsz := PgRoundUp(oldsz0);
      Rounding(oldsz0, newsz);
      ghost var lo, hi := oldsz / PGSIZE, PgRoundUp(newsz) / PGSIZE;
      SuppliedNone(t, lo, lo);
      var a := oldsz;
      while a < newsz
        invariant Ok() && root == old(root) && a == (lo + |got|) * PGSIZE && lo <= lo + |got| <= hi
        invariant Supplied(old(t), t, lo, lo + |got|)
                  && |m.free| == |old(m.free)| - |got| - Needed(old(t), lo, lo + |got|)
        invariant Grown(old(m.mem), old(t), old(m.free), m.mem, t, m.free, lo, got, Zeroed(|got|))
        invariant TakenFrom(old(m.free), m.free) && InTurn(old(m.free), old(t), lo, got)
        decreases newsz - a
      {
        ghost var mem0, t0, free0 := m.mem, t, m.free;
        GrownElsewhere(old(m.mem), old(t), old(m.free), m.mem, t, m.free, lo, got, Zeroed(|got|), lo + |got|);
        NeededStep(old(t), t, lo, lo + |got|);
        NeededMonotone(old(t), lo, lo + |got| + 1, hi);
        var mem := GrowOne(a, USER, Filled(0));
        if mem == 0 {
          SameGrown(old(m.mem), old(t), old(m.free), mem0, t0, free0, m.mem, t, m.free, lo, got, Zeroed(|got|));
          RollBack(a, oldsz, old(m.mem), old(t), old(m.free), lo, got);
          return 0, false, got;
        }
        GrowStep(old(m.mem), old(t), old(m.free), mem0, t0, free0, m.mem, t, m.free, lo, got, Zeroed(|got|), mem, USER,
                 Filled(0));
        assert Zeroed(|got|) + [(USER, Filled(0))] == Zeroed(|got| + 1);
        SuppliedStep(old(t), t0, t, lo, lo + |got|);
        TakenTrans(old(m.free), free0, m.free);
        InTurnStep(old(m.free), free0, old(t), lo, got);
        got := got + [mem];
        a := a + PGSIZE;
      }
      GrownFrame(old(m.mem), old(t), old(m.free), m.mem, t, m.free, lo, got, Zeroed(|got|));
      Aligned();
      GrownForUser(old(m.mem), old(t), old(m.free), m.mem, t, m.free, lo, got);
      r := newsz;
    }

    /** What uvmalloc has mapped the user can reach: walkaddr finds the new page at every
        address of the range. */
    method AllocThenLookUp(oldsz: int, newsz: int, v: int, off: int) returns (r: int, pa: int, ghost got: seq<int>)
      requires Ok() && 0 <= oldsz && newsz <= MAXVA && 0 <= off < PGSIZE
      requires PgRoundUp(oldsz) / PGSIZE <= v < PgRoundUp(newsz) / PGSIZE
      requires forall x :: PgRoundUp(oldsz) / PGSIZE <= x < PgRoundUp(newsz) / PGSIZE ==> !Valid(Pte(m.mem, t, x))
      modifies this`t, m
      ensures Ok()
      ensures var lo, hi := PgRoundUp(oldsz) / PGSIZE, PgRoundUp(newsz) / PGSIZE;
              r != 0 <==> hi - lo + Needed(old(t), lo, hi) <= |old(m.free)|
      ensures r != 0 ==> && r == newsz && |got| == PgRoundUp(newsz) / PGSIZE - PgRoundUp(oldsz) / PGSIZE
                         && pa == got[v - PgRoundUp(oldsz) / PGSIZE] && pa != 0
                         && pa in m.mem && m.mem[pa] == seq(512, _ => 0)
    {
      hide TreeOk, Memory.Valid, Tables, Pte, Grown, Owned, Missing, Supplied, Needed, Zeroed;
      ghost var ok;
      r, ok, got := UvmAlloc(oldsz, newsz);
      PageOf(v, off);
      pa := WalkAddr(v * PGSIZE + off);
    }
  }

  lemma PageOf(v: int, off: int)
    requires 0 <= off < PGSIZE
    ensures (v * PGSIZE + off) / PGSIZE == v
  {
  }

  /** The bits of an entry the user may read, write and execute through: V, R, W, X and U. */
  predicate ForUser(pte: int) {
    pte % 2 == 1 && pte / 2 % 2 == 1 && pte / 4 % 2 == 1 && pte / 8 % 2 == 1 && pte / 16 % 2 == 1
  }

  /** From lo on the user has these pages, zeroed. */
  ghost predicate UserPages(mem: map<int, Page>, t: Tree, lo: int, got: seq<int>) {
    && (forall v :: lo <= v < lo + |got| ==>
                      ForUser(Pte(mem, t, v)) && PTE2PA(Pte(mem, t, v)) == got[v - lo] && got[v - lo] != 0)
    && (forall i :: 0 <= i < |got| ==> got[i] in mem && mem[got[i]] == seq(512, _ => 0))
  }

  lemma GrownForUser(mem: map<int, Page>, t: Tree, free: seq<int>, mem': map<int, Page>, t': Tree, free': seq<int>,
                     lo: int, got: seq<int>)
    requires Grown(mem, t, free, mem', t', free', lo, got, Zeroed(|got|)) && 0 <= lo && lo + |got| <= MAXVPN
    requires forall x :: x in mem' ==> x > 0
    ensures UserPages(mem', t', lo, got)
  {
    hide Pte, LeafPte, Owned, Tables, PTE2PA, Flags;
    forall v | lo <= v < lo + |got|
      ensures ForUser(Pte(mem', t', v)) && PTE2PA(Pte(mem', t', v)) == got[v - lo]
    {
      PteRoundTrip(got[v - lo], USER);
      UserBits(got[v - lo]);
    }
  }

  lemma UserBits(pa: int)
    requires pa % PGSIZE == 0
    ensures ForUser(LeafPte(pa, USER))
  {
    FiveBits(pa / 4096);
  }

  lemma FiveBits(n: int)
    ensures ForUser(n * 1024 + 31)
  {
    var q := n * 1024 + 31;
    OddQuotient(q, 1, n * 512 + 15, 0);
    OddQuotient(q, 2, n * 256 + 7, 1);
    OddQuotient(q, 4, n * 128 + 3, 3);
    OddQuotient(q, 8, n * 64 + 1, 7);
    OddQuotient(q, 16, n * 32, 15);
  }

  lemma OddQuotient(q: int, d: int, m: int, r: int)
    requires 0 <= r < d && q == d * (2 * m + 1) + r
    ensures q / d % 2 == 1
  {
    Arith.DivUnique(q, d, 2 * m + 1, r);
  }

  /** Pages have been taken from the front of the free list. */
  ghost predicate TakenFrom(free: seq<int>, free': seq<int>) {
    |free'| <= |free| && free' == free[|free| - |free'|..]
  }

  lemma TakenNone(free: seq<int>)
    ensures TakenFrom(free, free)
  {
  }

  lemma TakenOne(free: seq<int>)
    requires free != []
    ensures TakenFrom(free, free[1..])
  {
  }

  lemma TakenTrans(free: seq<int>, free1: seq<int>, free2: seq<int>)
    requires TakenFrom(free, free1) && TakenFrom(free1, free2)
    ensures TakenFrom(free, free2)
  {
  }

  /** Each page of the range was the first free one after the earlier pages and their tables. */
  ghost predicate InTurn(free: seq<int>, t: Tree, lo: int, got: seq<int>) {
    forall i :: 0 <= i < |got| ==> AtTurn(free, t, lo, i, got[i])
  }

  ghost predicate AtTurn(free: seq<int>, t: Tree, lo: int, i: nat, pa: int) {
    var n := i + Needed(t, lo, lo + i);
    0 <= n < |free| && pa == free[n]
  }

  lemma InTurnNone(free: seq<int>, t: Tree, lo: int)
    ensures InTurn(free, t, lo, [])
  {
  }

  lemma InTurnStep(free: seq<int>, free': seq<int>, t: Tree, lo: int, got: seq<int>)
    requires InTurn(free, t, lo, got) && TakenFrom(free, free') && free' != []
    requires |free'| == |free| - |got| - Needed(t, lo, lo + |got|) && Needed(t, lo, lo + |got|) >= 0
    ensures InTurn(free, t, lo, got + [free'[0]])
  {
    hide Needed;
    var n := |free| - |free'|;
    assert free'[0] == free[n];
    assert AtTurn(free, t, lo, |got|, free'[0]);
  }

  const USER := PTE_W + PTE_X + PTE_R + PTE_U

  function Max0(x: int): int { if x < 0 then 0 else x }

  function Norm(pte: int): int { if Valid(pte) then pte else 0 }

  lemma Rounding(newsz: int, oldsz: int)
    requires 0 <= newsz <= oldsz <= MAXVA
    ensures PgRoundUp(newsz) % PGSIZE == 0 && PgRoundUp(newsz) <= PgRoundUp(oldsz) <= MAXVA
    ensures oldsz > 0 ==> PgRoundUp(oldsz) / PGSIZE == (oldsz - 1) / PGSIZE + 1
    ensures PgRoundUp(newsz) < PgRoundUp(oldsz) ==> PgRoundUp(newsz) < oldsz
  {
  }

  lemma TakeOwned(free: seq<int>, t: Tree)
    requires free != [] && Distinct(free) && Disjoint(free, t)
    ensures free[0] !in Owned(free[1..], t) && Owned(free[1..], t) + {free[0]} == Owned(free, t)
            && Disjoint(free[1..], t)
  {
  }

  lemma GiveOwned(free: seq<int>, t: Tree)
    requires free != []
    ensures Owned(free, t) == Owned(free[1..], t) + {free[0]}
  {
  }

  lemma NotOwned(free: seq<int>, t: Tree, pa: int)
    ensures pa !in Owned(free, t) <==> pa !in free && pa !in Tables(t)
  {
  }

  /** What uvmalloc maps: zeroed pages the user may read, write and execute. */
  ghost function Zeroed(n: nat): (w: seq<(int, Page)>)
    ensures |w| == n && forall i :: 0 <= i < n ==> w[i] == (USER, Filled(0))
  {
    seq(n, i => (USER, Filled(0)))
  }

  /** From the state before to the state now, exactly entries lo.. have been mapped, to the new
      pages `got`, with the permissions and contents wanted. */
  ghost predicate Grown(mem: map<int, Page>, t: Tree, free: seq<int>, mem': map<int, Page>, t': Tree, free': seq<int>,
                        lo: int, got: seq<int>, want: seq<(int, Page)>) {
    && Distinct(got) && |want| == |got|
    && (forall i :: 0 <= i < |got| ==>
                      DataPage(mem', free', t', got[i]) && got[i] % PGSIZE == 0 && mem'[got[i]] == want[i].1)
    && Owned(free', t') + (set x | x in got) == Owned(free, t)
    && (forall x :: 0 <= x < MAXVPN ==>
                      Pte(mem', t', x) == if lo <= x < lo + |got| then LeafPte(got[x - lo], want[x - lo].0)
                          else Pte(mem, t, x))
    && mem'.Keys == mem.Keys && (forall x :: x in mem && x !in Owned(free, t) ==> mem'[x] == mem[x])
  }

  lemma GrownNone(mem: map<int, Page>, t: Tree, free: seq<int>, lo: int)
    ensures Grown(mem, t, free, mem, t, free, lo, [], [])
  {
  }

  lemma GrownFrame(mem: map<int, Page>, t: Tree, free: seq<int>, mem': map<int, Page>, t': Tree, free': seq<int>,
                   lo: int, got: seq<int>, want: seq<(int, Page)>)
    requires Grown(mem, t, free, mem', t', free', lo, got, want)
    ensures mem'.Keys == mem.Keys && forall x :: x in mem && x !in Owned(free, t) ==> mem'[x] == mem[x]
  {
    hide Pte, LeafPte, Owned;
  }

  lemma GrownElsewhere(mem: map<int, Page>, t: Tree, free: seq<int>, mem': map<int, Page>, t': Tree, free': seq<int>,
                       lo: int, got: seq<int>,
                       want: seq<(int, Page)>, v: int)
    requires Grown(mem, t, free, mem', t', free', lo, got, want) && v >= lo + |got| && 0 <= v < MAXVPN
    ensures Pte(mem', t', v) == Pte(mem, t, v)
  {
  }

  /** One more page is mapped. */
  lemma GrowStep(mem: map<int, Page>, t: Tree, free: seq<int>, mem0: map<int, Page>, t0: Tree, free0: seq<int>,
                 mem1: map<int, Page>, t1: Tree, free1: seq<int>, lo: int, got: seq<int>, want: seq<(int, Page)>,
                 pa: int, perm: int, contents: Page)
    requires Grown(mem, t, free, mem0, t0, free0, lo, got, want) && 0 <= lo
    requires DataPage(mem1, free1, t1, pa) && mem1[pa] == contents && pa % PGSIZE == 0
    requires pa !in Owned(free1, t1) && Owned(free1, t1) + {pa} == Owned(free0, t0)
    requires forall x :: 0 <= x < MAXVPN ==>
               Pte(mem1, t1, x) == if x == lo + |got| then LeafPte(pa, perm) else Pte(mem0, t0, x)
    requires mem1.Keys == mem0.Keys && forall x :: x in mem1 && x !in Owned(free0, t0) ==> mem1[x] == mem0[x]
    ensures Grown(mem, t, free, mem1, t1, free1, lo, got + [pa], want + [(perm, contents)])
  {
    hide Pte, LeafPte, Owned, Tables;
    var got' := got + [pa];
    forall i | 0 <= i < |got|
      ensures got[i] != pa && DataPage(mem1, free1, t1, got[i]) && mem1[got[i]] == want[i].1
    {
      NotOwned(free0, t0, got[i]);
      NotOwned(free1, t1, got[i]);
    }
    assert (set x | x in got') == (set x | x in got) + {pa};
  }

  /** A failed attempt changed only which pages hold tables. */
  lemma SameGrown(mem: map<int, Page>, t: Tree, free: seq<int>, mem0: map<int, Page>, t0: Tree, free0: seq<int>,
                  mem1: map<int, Page>, t1: Tree, free1: seq<int>, lo: int, got: seq<int>, want: seq<(int, Page)>)
    requires Grown(mem, t, free, mem0, t0, free0, lo, got, want)
    requires SameMap(mem0, t0, mem1, t1) && Owned(free1, t1) == Owned(free0, t0)
    requires mem1.Keys == mem0.Keys && forall x :: x in mem1 && x !in Owned(free0, t0) ==> mem1[x] == mem0[x]
    ensures Grown(mem, t, free, mem1, t1, free1, lo, got, want)
  {
    hide Pte, LeafPte, Owned, Tables;
    forall i | 0 <= i < |got|
      ensures DataPage(mem1, free1, t1, got[i]) && mem1[got[i]] == want[i].1
    {
      NotOwned(free0, t0, got[i]);
      NotOwned(free1, t1, got[i]);
    }
  }

  /** The pages mapped so far may be unmapped and freed. */
  lemma GrownMapped(mem: map<int, Page>, t: Tree, free: seq<int>, mem': map<int, Page>, t': Tree, free': seq<int>,
                    lo: int, got: seq<int>,
                    want: seq<(int, Page)>)
    requires Grown(mem, t, free, mem', t', free', lo, got, want) && 0 <= lo && lo + |got| <= MAXVPN
    requires forall i :: 0 <= i < |want| ==> 2 <= want[i].0 < 1024
    ensures forall v :: lo <= v < lo + |got| ==>
              Valid(Pte(mem', t', v)) && Flags(Pte(mem', t', v)) != PTE_V && PTE2PA(Pte(mem', t', v)) == got[v - lo]
    ensures DataPages(mem', free', t', lo, lo + |got|)
  {
    hide Pte, LeafPte, Owned, Tables, PTE2PA, Flags;
    forall v | lo <= v < lo + |got|
      ensures Valid(Pte(mem', t', v)) && Flags(Pte(mem', t', v)) != PTE_V && PTE2PA(Pte(mem', t', v)) == got[v - lo]
    {
      PteRoundTrip(got[v - lo], want[v - lo].0);
    }
  }

  lemma {:induction false} FreedPages(mem: map<int, Page>, t: Tree, lo: int, hi: int, got: seq<int>)
    requires hi == lo + |got| && forall v :: lo <= v < hi ==> PTE2PA(Pte(mem, t, v)) == got[v - lo]
    ensures forall x :: x in Freed(mem, t, lo, hi) <==> x in got
    decreases |got|
  {
    hide Pte, PTE2PA;
    if got != [] {
      var n := |got| - 1;
      FreedPages(mem, t, lo, hi - 1, got[..n]);
      FreedOne(mem, t, lo, hi - 1);
      assert got == got[..n] + [got[n]];
    }
  }

  /** After the roll-back the leaf map is what it was and every data page is free again. */
  lemma Restored(mem: map<int, Page>, t: Tree, free: seq<int>, mem1: map<int, Page>, t1: Tree, free1: seq<int>,
                 mem2: map<int, Page>, free2: seq<int>, lo: int, got: seq<int>, want: seq<(int, Page)>)
    requires Grown(mem, t, free, mem1, t1, free1, lo, got, want) && 0 <= lo && lo + |got| <= MAXVPN
    requires forall i :: 0 <= i < |want| ==> 2 <= want[i].0 < 1024
    requires forall v :: lo <= v < lo + |got| ==> !Valid(Pte(mem, t, v))
    requires forall x :: 0 <= x < MAXVPN ==> Pte(mem2, t1, x) == if lo <= x < lo + |got| then 0 else Pte(mem1, t1, x)
    requires free2 == Freed(mem1, t1, lo, lo + |got|) + free1 && mem2.Keys == mem1.Keys
    requires forall x :: x in mem2 && x !in Owned(free1, t1) && x !in Freed(mem1, t1, lo, lo + |got|) ==>
                           mem2[x] == mem1[x]
    ensures mem2.Keys == mem.Keys && forall x :: x in mem2 && x !in Owned(free, t) ==> mem2[x] == mem[x]
    ensures forall x :: 0 <= x < MAXVPN ==> Norm(Pte(mem2, t1, x)) == Norm(Pte(mem, t, x))
    ensures Owned(free2, t1) == Owned(free, t)
  {
    hide Pte, LeafPte, Tables, PTE2PA, Flags, Freed;
    GrownMapped(mem, t, free, mem1, t1, free1, lo, got, want);
    FreedPages(mem1, t1, lo, lo + |got|, got);
    assert forall x :: x in free2 <==> x in got || x in free1;
  }

  /** The pages that entries lo..hi map, the last one first. */
  ghost function Freed(mem: map<int, Page>, t: Tree, lo: int, hi: int): seq<int>
    decreases hi - lo
  {
    if lo >= hi then [] else [PTE2PA(Pte(mem, t, hi - 1))] + Freed(mem, t, lo, hi - 1)
  }

  lemma FreedNone(mem: map<int, Page>, t: Tree, lo: int)
    ensures Freed(mem, t, lo, lo) == []
  {
  }

  lemma FreedOne(mem: map<int, Page>, t: Tree, lo: int, v: int)
    requires lo <= v
    ensures Freed(mem, t, lo, v + 1) == [PTE2PA(Pte(mem, t, v))] + Freed(mem, t, lo, v)
    ensures forall x :: x in Freed(mem, t, lo, v + 1) <==> x == PTE2PA(Pte(mem, t, v)) || x in Freed(mem, t, lo, v)
  {
  }

  /** The pages that entries lo..hi map are distinct, allocated, and not table pages. */
  ghost predicate DataPages(mem: map<int, Page>, free: seq<int>, t: Tree, lo: int, hi: int) {
    && (forall v :: lo <= v < hi ==> DataPage(mem, free, t, PTE2PA(Pte(mem, t, v))))
    && (forall v, w :: lo <= v < w < hi ==> PTE2PA(Pte(mem, t, v)) != PTE2PA(Pte(mem, t, w)))
  }

  ghost predicate DataPage(mem: map<int, Page>, free: seq<int>, t: Tree, pa: int) {
    pa in mem && pa !in free && pa !in Tables(t)
  }

  lemma TablesOwned(free: seq<int>, t: Tree)
    ensures Tables(t) <= Owned(free, t)
  {
  }

  lemma MappedHasLeaf(mem: map<int, Page>, t: Tree, v: int)
    requires Valid(Pte(mem, t, v))
    ensures v / 512 in t.l0
  {
  }

  /** The first free page is not a table page. */
  lemma FreshPage(free: seq<int>, t: Tree)
    requires Disjoint(free, t)
    ensures free != [] ==> free[0] !in Tables(t)
  {
  }

  lemma MoveToTables(free: seq<int>, t: Tree, t': Tree, page: int)
    requires free != [] && page == free[0] && Tables(t') == Tables(t) + {page}
    ensures Owned(free[1..], t') == Owned(free, t)
  {
  }

  lemma LeafNeedsMid(mem: map<int, Page>, t: Tree, k: int)
    requires TreeOk(mem, t) && k in t.l0
    ensures k / 512 in t.l1
  {
  }

  lemma SameTrans(mem0: map<int, Page>, t0: Tree, mem1: map<int, Page>, t1: Tree, mem2: map<int, Page>, t2: Tree)
    requires SameMap(mem0, t0, mem1, t1) && SameMap(mem1, t1, mem2, t2)
    ensures SameMap(mem0, t0, mem2, t2)
  {
  }

  /** What the entry at one level says. */
  lemma Follow(mem: map<int, Page>, t: Tree, i: int, k: int, mid: bool)
    requires TreeOk(mem, t) && 0 <= i < 512 && (forall x :: x in mem ==> x > 0 && x % PGSIZE == 0)
    requires mid ==> k == i
    requires !mid ==> 0 <= k < 512 * 512 && i == k % 512 && k / 512 in t.l1
    ensures var table := if mid then t.root else t.l1[k / 512];
            && table in mem && |mem[table]| == WORDS
            && var m := if mid then t.l1 else t.l0;
               if k in m then Valid(mem[table][i]) && PTE2PA(mem[table][i]) == m[k]
                   && m[k] > 0 else !Valid(mem[table][i])
  {
    if mid {
      assert Entry(mem[t.root][i], t.l1, i);
      if k in t.l1 {
        assert MidOk(mem, t, k);
        PteRoundTrip(t.l1[k], 0);
      }
    } else {
      assert MidOk(mem, t, k / 512);
      assert k / 512 * 512 + i == k;
      assert Entry(mem[t.l1[k / 512]][i], t.l0, k);
      if k in t.l0 {
        assert LeafOk(mem, t, k);
        PteRoundTrip(t.l0[k], 0);
      }
    }
  }
}
