/** Sv39 page tables (kernel/vm.c, kernel/riscv.h) as values.

  A page table is a tree of three levels of 512-entry pages in physical memory
  (section 4.4 of the RISC-V privileged architecture, version 1.10). `Tree` records
  which page implements which part: l1[i] is the second-level page under entry i
  of the root, l0[k] the leaf page for virtual page numbers 512k up to 512k+511.
 */
module PageTree {
  import opened Arith
  import opened Kalloc

  const MAXVA := 0x40_0000_0000      // 1L << (9 + 9 + 9 + 12 - 1)
  const MAXVPN := 0x400_0000         // MAXVA / PGSIZE

  const PTE_V := 1
  const PTE_R := 2
  const PTE_W := 4
  const PTE_X := 8
  const PTE_U := 16

  function PA2PTE(pa: int): int { pa / 4096 * 1024 }

  function PTE2PA(pte: int): int { pte / 1024 * 4096 }

  function Flags(pte: int): int { pte % 1024 }

  predicate Valid(pte: int) { pte % 2 == 1 }

  /** PA2PTE(pa) | perm | PTE_V */
  function LeafPte(pa: int, perm: int): int { PA2PTE(pa) + perm / 2 * 2 + 1 }

  /** PX(level, va) */
  function PX(level: int, va: int): int {
    if level == 0 then va / 0x1000 % 512
    else if level == 1 then va / 0x20_0000 % 512
    else va / 0x4000_0000 % 512
  }

  /** A page-table entry gives back the address and the flags it was made of. */
  lemma PteRoundTrip(pa: int, perm: int)
    requires pa % PGSIZE == 0 && 0 <= perm < 1024
    ensures PTE2PA(LeafPte(pa, perm)) == pa && Flags(LeafPte(pa, perm)) == perm / 2 * 2 + 1 && Valid(LeafPte(pa, perm))
    ensures PTE2PA(PA2PTE(pa) + PTE_V) == pa && Flags(PA2PTE(pa) + PTE_V) == PTE_V && Valid(PA2PTE(pa) + PTE_V)
  {
    PteParts(pa / 4096, perm / 2 * 2 + 1);
    PteParts(pa / 4096, PTE_V);
  }

  lemma PteParts(n: int, f: int)
    requires 0 <= f < 1024
    ensures (n * 1024 + f) / 1024 == n && (n * 1024 + f) % 1024 == f && (n * 1024 + f) % 2 == f % 2
  {
    DivUnique(n * 1024 + f, 1024, n, f);
    DivUnique(n * 1024 + f, 2, n * 512 + f / 2, f % 2);
  }

  /** The indices of the three levels are the digits of the page number. */
  lemma Digits(va: int)
    requires 0 <= va < MAXVA
    ensures var v := va / PGSIZE;
            0 <= v < MAXVPN && PX(0, va) == v % 512 && PX(1, va) == v / 512 % 512 && PX(2, va) == v / 512 / 512
  {
  }

  datatype Tree = Tree(root: int, l1: map<int, int>, l0: map<int, int>)

  /** The entry w for key k points at the page m has for k, or is not valid. */
  predicate Entry(w: int, m: map<int, int>, k: int) {
    if k in m then w == PA2PTE(m[k]) + PTE_V else !Valid(w)
  }

  ghost predicate Injective(m: map<int, int>) {
    forall i, j :: i in m && j in m && m[i] == m[j] ==> i == j
  }

  /** Every page of the tree occurs once. */
  ghost predicate Unshared(t: Tree) {
    && Injective(t.l1) && Injective(t.l0) && t.l1.Values !! t.l0.Values
    && t.root !in t.l1.Values && t.root !in t.l0.Values
  }

  ghost predicate Keys(t: Tree) {
    && (forall i :: i in t.l1 ==> 0 <= i < 256)
    && (forall k :: k in t.l0 ==> 0 <= k < 256 * 512 && k / 512 in t.l1)
  }

  ghost predicate RootOk(mem: map<int, Page>, t: Tree) {
    t.root in mem && |mem[t.root]| == WORDS && forall i :: 0 <= i < 512 ==> Entry(mem[t.root][i], t.l1, i)
  }

  ghost predicate MidOk(mem: map<int, Page>, t: Tree, i: int)
    requires i in t.l1
  {
    t.l1[i] in mem && |mem[t.l1[i]]| == WORDS && forall j :: 0 <= j < 512 ==> Entry(mem[t.l1[i]][j], t.l0, i * 512 + j)
  }

  ghost predicate LeafOk(mem: map<int, Page>, t: Tree, k: int)
    requires k in t.l0
  {
    t.l0[k] in mem && |mem[t.l0[k]]| == WORDS
  }

  ghost predicate TreeOk(mem: map<int, Page>, t: Tree) {
    && Unshared(t) && Keys(t) && RootOk(mem, t)
    && (forall i :: i in t.l1 ==> MidOk(mem, t, i))
    && (forall k :: k in t.l0 ==> LeafOk(mem, t, k))
  }

  ghost function Tables(t: Tree): set<int> {
    {t.root} + t.l1.Values + t.l0.Values
  }

  /** The flat map the tree implements: the entry for virtual page number v, 0 if there is none. */
  ghost function Pte(mem: map<int, Page>, t: Tree, v: int): int {
    var k := v / 512;
    if k in t.l0 && t.l0[k] in mem && |mem[t.l0[k]]| == WORDS then mem[t.l0[k]][v % 512] else 0
  }

  ghost predicate SameMap(mem: map<int, Page>, t: Tree, mem': map<int, Page>, t': Tree) {
    forall v :: 0 <= v < MAXVPN ==> Pte(mem', t', v) == Pte(mem, t, v)
  }

  lemma {:induction false} InTables(t: Tree)
    ensures t.root in Tables(t)
    ensures forall i :: i in t.l1 ==> t.l1[i] in t.l1.Values && t.l1[i] in Tables(t)
    ensures forall k :: k in t.l0 ==> t.l0[k] in t.l0.Values && t.l0[k] in Tables(t)
  {
  }

  // ---------------------------------------------------------------- adding table pages

  /** walk creates a second-level page. */
  ghost function AddMid(t: Tree, i: int, page: int): Tree { t.(l1 := t.l1[i := page]) }

  /** walk creates a leaf page. */
  ghost function AddLeaf(t: Tree, k: int, page: int): Tree { t.(l0 := t.l0[k := page]) }

  /** Memory after linking a zeroed page under entry i of `table`. */
  function Link(mem: map<int, Page>, table: int, i: int, page: int): map<int, Page>
    requires table in mem && |mem[table]| == WORDS && 0 <= i < 512 && table != page
  {
    mem[page := Filled(0)][table := mem[table][i := PA2PTE(page) + PTE_V]]
  }

  lemma AddMidOk(mem: map<int, Page>, t: Tree, i: int, page: int)
    requires TreeOk(mem, t) && 0 <= i < 256 && i !in t.l1 && page !in Tables(t)
    ensures t.root in mem && |mem[t.root]| == WORDS && t.root != page
    ensures var mem', t' := Link(mem, t.root, i, page), AddMid(t, i, page);
            TreeOk(mem', t') && SameMap(mem, t, mem', t') && Tables(t') == Tables(t) + {page}
  {
    InTables(t);
    var mem', t' := Link(mem, t.root, i, page), AddMid(t, i, page);
    assert t'.l1.Values == t.l1.Values + {page} by {
      assert t'.l1[i] == page;
      assert forall j :: j in t.l1 ==> t'.l1[j] == t.l1[j];
    }
    forall j | j in t'.l1
      ensures MidOk(mem', t', j)
    {
      if j != i {
        assert MidOk(mem, t, j);
      } else {
        forall x | 0 <= x < 512
          ensures Entry(mem'[page][x], t'.l0, i * 512 + x)
        {
          assert (i * 512 + x) / 512 == i;
        }
      }
    }
    forall k | k in t'.l0
      ensures LeafOk(mem', t', k) && mem'[t.l0[k]] == mem[t.l0[k]]
    {
      assert LeafOk(mem, t, k);
    }
  }

  lemma AddLeafOk(mem: map<int, Page>, t: Tree, k: int, page: int)
    requires TreeOk(mem, t) && 0 <= k < 256 * 512 && k !in t.l0 && k / 512 in t.l1 && page !in Tables(t)
    ensures t.l1[k / 512] in mem && |mem[t.l1[k / 512]]| == WORDS && t.l1[k / 512] != page
    ensures var mem', t' := Link(mem, t.l1[k / 512], k % 512, page), AddLeaf(t, k, page);
            TreeOk(mem', t') && SameMap(mem, t, mem', t') && Tables(t') == Tables(t) + {page}
  {
    InTables(t);
    var i := k / 512;
    assert MidOk(mem, t, i);
    var mem', t' := Link(mem, t.l1[i], k % 512, page), AddLeaf(t, k, page);
    assert t'.l0.Values == t.l0.Values + {page} by {
      assert t'.l0[k] == page;
      assert forall j :: j in t.l0 ==> t'.l0[j] == t.l0[j];
    }
    AddLeafMid(mem, t, k, page);
    forall j | j in t'.l0
      ensures LeafOk(mem', t', j) && (j != k ==> mem'[t.l0[j]] == mem[t.l0[j]])
    {
      if j != k {
        assert LeafOk(mem, t, j);
      }
    }
  }

  lemma AddLeafMid(mem: map<int, Page>, t: Tree, k: int, page: int)
    requires TreeOk(mem, t) && 0 <= k < 256 * 512 && k !in t.l0 && k / 512 in t.l1 && page !in Tables(t)
    requires t.l1[k / 512] in mem && |mem[t.l1[k / 512]]| == WORDS && t.l1[k / 512] != page
    ensures var mem', t' := Link(mem, t.l1[k / 512], k % 512, page), AddLeaf(t, k, page);
            RootOk(mem', t') && forall j :: j in t'.l1 ==> MidOk(mem', t', j)
  {
  }

  // ---------------------------------------------------------------- writing an entry

  /** Storing through the pointer walk returns changes the flat map at one page number and nothing else. */
  lemma StoreOk(mem: map<int, Page>, t: Tree, v: int, w: int)
    requires TreeOk(mem, t) && 0 <= v < MAXVPN && v / 512 in t.l0
    ensures t.l0[v / 512] in mem && |mem[t.l0[v / 512]]| == WORDS
    ensures var page := t.l0[v / 512];
            var mem' := mem[page := mem[page][v % 512 := w]];
            TreeOk(mem', t) && forall x :: 0 <= x < MAXVPN ==> Pte(mem', t, x) == if x == v then w else Pte(mem, t, x)
  {
    InTables(t);
    var k := v / 512;
    assert LeafOk(mem, t, k);
    var page := t.l0[k];
    var mem' := mem[page := mem[page][v % 512 := w]];
    forall i | i in t.l1
      ensures MidOk(mem', t, i)
    {
      assert MidOk(mem, t, i);
    }
    forall j | j in t.l0
      ensures LeafOk(mem', t, j)
    {
      assert LeafOk(mem, t, j);
    }
    forall x | 0 <= x < MAXVPN
      ensures Pte(mem', t, x) == if x == v then w else Pte(mem, t, x)
    {
      assert x == v <==> x / 512 == k && x % 512 == v % 512;
      if x / 512 in t.l0 {
        assert LeafOk(mem, t, x / 512);
      }
    }
  }

  /** Changes to pages outside the tree do not touch it. */
  lemma Outside(mem: map<int, Page>, t: Tree, mem': map<int, Page>)
    requires TreeOk(mem, t) && mem'.Keys == mem.Keys && forall x :: x in Tables(t) && x in mem ==> mem'[x] == mem[x]
    ensures TreeOk(mem', t) && SameMap(mem, t, mem', t)
  {
    hide Tables;
    InTables(t);
    assert t.root in Tables(t);
    forall i | i in t.l1
      ensures MidOk(mem', t, i)
    {
      assert MidOk(mem, t, i);
      var x := t.l1[i];
      assert x in t.l1.Values;
      assert x in Tables(t) && x in mem && mem'[x] == mem[x];
    }
    forall k | k in t.l0
      ensures LeafOk(mem', t, k) && mem'[t.l0[k]] == mem[t.l0[k]]
    {
      assert LeafOk(mem, t, k);
      var x := t.l0[k];
      assert x in t.l0.Values;
      assert x in Tables(t) && x in mem && mem'[x] == mem[x];
    }
  }
}
