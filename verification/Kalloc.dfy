/** The physical page allocator (kernel/kalloc.c).

  Memory is a set of pages of 512 words, named by their addresses. Free pages are
  chained through their first word.
 */
module Kalloc {
  import opened Common

  const PGSIZE := 4096
  const WORDS := 512

  type Page = seq<int>

  /** memset(pa, byte, PGSIZE): every 64-bit word repeats the byte. */
  function Filled(byte: int): (p: Page)
    ensures |p| == WORDS && forall i :: 0 <= i < WORDS ==> p[i] == byte * 0x0101_0101_0101_0101
  {
    seq(WORDS, i => byte * 0x0101_0101_0101_0101)
  }

  /** From `head` the chain visits exactly the pages of `free`, in order. */
  ghost predicate Chain(mem: map<int, Page>, head: int, free: seq<int>)
    decreases |free|
  {
    if free == [] then head == 0
    else head == free[0] && head != 0 && head in mem && |mem[head]| == WORDS && Chain(mem, mem[head][0], free[1..])
  }

  lemma {:induction false} ChainFrame(mem: map<int, Page>, mem': map<int, Page>, head: int, free: seq<int>)
    requires Chain(mem, head, free)
    requires forall x :: x in free ==> x in mem' && (x in mem ==> mem'[x] == mem[x])
    ensures Chain(mem', head, free)
    decreases |free|
  {
    if free != [] {
      ChainFrame(mem, mem', mem[head][0], free[1..]);
    }
  }

  /** The pages from first up to end, the last one first. */
  ghost function Downward(first: int, end: int): seq<int>
    decreases end - first
  {
    if end <= first then [] else [end - PGSIZE] + Downward(first, end - PGSIZE)
  }

  class Memory {
    var mem: map<int, Page>
    var freelist: int
    ghost var free: seq<int>

    ghost predicate Valid()
      reads this
    {
      && Distinct(free) && Chain(mem, freelist, free)
      && (forall x :: x in mem ==> |mem[x]| == WORDS && x > 0 && x % PGSIZE == 0)
      && (forall x :: x in free ==> x in mem)
    }

    /** Memory as it is before kinit puts any page on the free list. */
    constructor (mem: map<int, Page>)
      requires forall x :: x in mem ==> |mem[x]| == WORDS && x > 0 && x % PGSIZE == 0
      ensures Valid() && this.mem == mem && free == []
    {
      this.mem, freelist, free := mem, 0, [];
    }

    /** kfree: the page joins the front of the free list; its contents become junk. */
    method Kfree(pa: int)
      requires Valid() && pa in mem && pa !in free
      modifies this
      ensures Valid() && free == [pa] + old(free)
      ensures mem.Keys == old(mem).Keys && forall x :: x in mem && x != pa ==> mem[x] == old(mem)[x]
    {
      mem := mem[pa := Filled(1)[0 := freelist]];
      ChainFrame(old(mem), mem, freelist, free);
      assert ([pa] + free)[1..] == free;
      freelist := pa;
      free := [pa] + free;
    }

    /** kalloc: the first free page, filled with junk, or 0. */
    method Kalloc() returns (pa: int)
      requires Valid()
      modifies this
      ensures Valid() && mem.Keys == old(mem).Keys
      ensures pa == 0 <==> old(free) == []
      ensures pa == 0 ==> unchanged(this)
      ensures pa != 0 ==> && pa == old(free)[0] && free == old(free)[1..] && pa !in free && pa in mem
                          && mem[pa] == Filled(5)
                          && forall x :: x in mem && x != pa ==> mem[x] == old(mem)[x]
    {
      pa := freelist;
      if pa != 0 {
        freelist := mem[pa][0];
        free := free[1..];
        mem := mem[pa := Filled(5)];
        ChainFrame(old(mem), mem, freelist, free);
      }
    }

    /** A store to a page that is not free. */
    method Store(pa: int, page: Page)
      requires Valid() && pa in mem && pa !in free && |page| == WORDS
      modifies this`mem
      ensures Valid() && mem == old(mem)[pa := page] && mem.Keys == old(mem).Keys
    {
      mem := mem[pa := page];
      ChainFrame(old(mem), mem, freelist, free);
    }

    /** freerange: every whole page in [start, end) is freed, the last one first in the list. */
    method FreeRange(start: int, end: int) returns (ghost last: int)
      requires Valid() && start > 0
      requires forall x :: (start + PGSIZE - 1) / PGSIZE * PGSIZE <= x <= end - PGSIZE && x % PGSIZE == 0 ==>
                             x in mem && x !in free
      modifies this
      ensures Valid() && mem.Keys == old(mem).Keys
      ensures forall x :: x in free <==>
                            x in old(free) || ((start + PGSIZE - 1) / PGSIZE * PGSIZE <= x <= end - PGSIZE
                                               && x % PGSIZE == 0)
      ensures free == Downward((start + PGSIZE - 1) / PGSIZE * PGSIZE, last) + old(free)
      ensures forall x :: x in mem && (x in old(free) || x !in free) ==> mem[x] == old(mem)[x]
    {
      hide Memory.Valid, Chain;
      var first := (start + PGSIZE - 1) / PGSIZE * PGSIZE;
      var p := first;
      while p + PGSIZE <= end
        invariant first <= p && p % PGSIZE == 0 && Valid() && mem.Keys == old(mem).Keys
        invariant forall x :: x in free <==> x in old(free) || (first <= x < p && x % PGSIZE == 0)
        invariant p <= end || p == first
        invariant free == Downward(first, p) + old(free)
        invariant forall x :: x in mem && (x in old(free) || x !in free) ==> mem[x] == old(mem)[x]
        decreases end - p
      {
        Kfree(p);
        assert forall x :: x % PGSIZE == 0 ==> (first <= x < p + PGSIZE <==> first <= x < p || x == p);
        p := p + PGSIZE;
      }
      last := p;
    }
  }
}
