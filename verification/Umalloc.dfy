/** The Kernighan and Ritchie allocator of user/umalloc.c.

  Free blocks form a circular list through their headers. `free` lists them upwards
  from the static header `base`, which lies below all memory that sbrk returns.
 */
module Umalloc {
  import opened Common
  import opened UnitMap

  // ---------------------------------------------------------------- the free list as a value

  function Next(f: seq<int>, i: int): int { if i + 1 < |f| then i + 1 else 0 }

  lemma NextFacts(f: seq<int>)
    ensures forall i :: 0 <= i < |f| ==> 0 <= Next(f, i) < |f|
    ensures forall i :: 0 <= i < |f| ==> Next(f, i) == if i + 1 < |f| then i + 1 else 0
  {
  }

  ghost predicate Linked(ptr: map<int, int>, f: seq<int>, i: int)
    requires 0 <= i < |f|
  {
    f[i] in ptr && ptr[f[i]] == f[Next(f, i)]
  }

  ghost predicate Links(ptr: map<int, int>, f: seq<int>) {
    forall i :: 0 <= i < |f| ==> Linked(ptr, f, i)
  }

  /** All links but the one out of f[t]. */
  ghost predicate LinksBut(ptr: map<int, int>, f: seq<int>, t: int) {
    forall i :: 0 <= i < |f| && i != t ==> Linked(ptr, f, i)
  }

  /** There is a gap between f[i] and f[i+1]: they do not overlap and cannot be joined. */
  ghost predicate Gap(size: map<int, int>, f: seq<int>, i: int)
    requires 0 <= i && i + 1 < |f|
  {
    f[i] in size && size[f[i]] >= 0 && f[i] + size[f[i]] < f[i + 1]
  }

  ghost predicate Ordered(size: map<int, int>, f: seq<int>) {
    forall i :: 0 <= i && i + 1 < |f| ==> Gap(size, f, i)
  }

  lemma {:induction false} Ascending(size: map<int, int>, f: seq<int>, i: int, j: int)
    requires Ordered(size, f) && 0 <= i < j < |f|
    ensures f[i] < f[j]
    decreases j - i
  {
    assert Gap(size, f, j - 1);
    if i + 1 < j {
      Ascending(size, f, i, j - 1);
    }
  }

  lemma AllAscending(size: map<int, int>, f: seq<int>)
    requires Ordered(size, f)
    ensures forall i, j :: 0 <= i < j < |f| ==> f[i] < f[j]
  {
    forall i, j | 0 <= i < j < |f|
      ensures f[i] < f[j]
    {
      Ascending(size, f, i, j);
    }
  }

  function RemoveAt(f: seq<int>, j: nat): seq<int>
    requires j < |f|
  {
    f[..j] + f[j + 1..]
  }

  function InsertAt(f: seq<int>, j: nat, x: int): seq<int>
    requires j <= |f|
  {
    f[..j] + [x] + f[j..]
  }

  /** Leaving out f[t + 1]: only the link out of f[t] has to change. */
  lemma RemoveLinks(ptr: map<int, int>, f: seq<int>, t: nat)
    requires Links(ptr, f) && t + 1 < |f|
    ensures var f' := RemoveAt(f, t + 1);
            LinksBut(ptr, f', t) && f[t + 1] in ptr && ptr[f[t + 1]] == f'[Next(f', t)]
  {
    var f' := RemoveAt(f, t + 1);
    assert Linked(ptr, f, t + 1);
    forall i | 0 <= i < |f'| && i != t
      ensures Linked(ptr, f', i)
    {
      assert Linked(ptr, f, if i <= t then i else i + 1);
    }
  }

  lemma RemoveOrdered(size: map<int, int>, f: seq<int>, j: nat)
    requires Ordered(size, f) && 0 < j < |f|
    ensures Ordered(size, RemoveAt(f, j))
  {
    var f' := RemoveAt(f, j);
    forall i | 0 <= i && i + 1 < |f'|
      ensures Gap(size, f', i)
    {
      assert Gap(size, f, if i < j then i else i + 1);
      if i == j - 1 {
        assert Gap(size, f, j);
      }
    }
  }

  /** Writing a header outside the list changes nothing for the list. */
  lemma LinksFrame(ptr: map<int, int>, f: seq<int>, t: int, x: int, v: int)
    requires LinksBut(ptr, f, t)
             && (x !in f || (0 <= t < |f| && x == f[t] && forall i :: 0 <= i < |f| && i != t ==> f[i] != x))
    ensures LinksBut(ptr[x := v], f, t)
  {
    var ptr' := ptr[x := v];
    forall i | 0 <= i < |f| && i != t
      ensures Linked(ptr', f, i)
    {
      assert Linked(ptr, f, i);
    }
  }

  lemma OrderedFrame(size: map<int, int>, f: seq<int>, x: int, v: int)
    requires Ordered(size, f) && x !in f
    ensures Ordered(size[x := v], f)
  {
    var size' := size[x := v];
    forall i | 0 <= i && i + 1 < |f|
      ensures Gap(size', f, i)
    {
      assert Gap(size, f, i);
    }
  }

  /** A block f[j] may change size as long as it stays clear of its successor. */
  lemma Resize(size: map<int, int>, f: seq<int>, j: nat, v: int)
    requires Ordered(size, f) && j < |f| && v >= 0 && (j + 1 < |f| ==> f[j] + v < f[j + 1])
    ensures Ordered(size[f[j] := v], f)
  {
    AllAscending(size, f);
    var size' := size[f[j] := v];
    forall i | 0 <= i && i + 1 < |f|
      ensures Gap(size', f, i)
    {
      assert Gap(size, f, i);
      assert i != j ==> f[i] != f[j];
    }
  }

  lemma InsertOrdered(size: map<int, int>, f: seq<int>, t: nat, x: int)
    requires Ordered(size, f) && t < |f| && x in size && size[x] >= 0 && f[t] in size && size[f[t]] >= 0
    requires f[t] + size[f[t]] < x && (t + 1 < |f| ==> x + size[x] < f[t + 1])
    ensures Ordered(size, InsertAt(f, t + 1, x))
  {
    var f' := InsertAt(f, t + 1, x);
    forall i | 0 <= i && i + 1 < |f'|
      ensures Gap(size, f', i)
    {
      if i < t {
        assert Gap(size, f, i);
      } else if i > t + 1 {
        assert Gap(size, f, i - 1);
      }
    }
  }

  /** f[t] now points at x, and x where f[t] should have. */
  lemma InsertLinks(ptr: map<int, int>, f: seq<int>, t: nat, x: int)
    requires LinksBut(ptr, f, t) && t < |f| && x !in f && x in ptr && ptr[x] == f[Next(f, t)]
    requires forall i :: 0 <= i < |f| && i != t ==> f[i] != f[t]
    ensures Links(ptr[f[t] := x], InsertAt(f, t + 1, x))
  {
    var f', ptr' := InsertAt(f, t + 1, x), ptr[f[t] := x];
    forall i | 0 <= i < |f'|
      ensures Linked(ptr', f', i)
    {
      if i < t {
        assert Linked(ptr, f, i);
      } else if i > t + 1 {
        assert Linked(ptr, f, i - 1);
      }
    }
  }

  /** The link out of f[t] restored. */
  lemma RestoreLinks(ptr: map<int, int>, f: seq<int>, t: nat)
    requires LinksBut(ptr, f, t) && t < |f| && forall i :: 0 <= i < |f| && i != t ==> f[i] != f[t]
    ensures Links(ptr[f[t] := f[Next(f, t)]], f)
  {
    var ptr' := ptr[f[t] := f[Next(f, t)]];
    forall i | 0 <= i < |f|
      ensures Linked(ptr', f, i)
    {
      if i != t {
        assert Linked(ptr, f, i);
      }
    }
  }

  /** The blocks: those on the list, without the static header, and those handed out. */
  ghost function Heads(f: seq<int>, base: int, live: map<int, int>): set<int> {
    (set x | x in f && x != base) + live.Keys
  }

  lemma RemovedHeads(f: seq<int>, base: int, live: map<int, int>, j: nat, live': map<int, int>)
    requires 0 < j < |f| && f[0] == base && (forall i, k :: 0 <= i < k < |f| ==> f[i] < f[k]) && f[j] !in live
                                                            && live'.Keys == live.Keys
    ensures Heads(RemoveAt(f, j), base, live') == Heads(f, base, live) - {f[j]}
  {
  }

  lemma AfterRemoved(size: map<int, int>, f: seq<int>, t: nat)
    requires Ordered(size, f) && t + 1 < |f|
    ensures |RemoveAt(f, t + 1)| == |f| - 1 && RemoveAt(f, t + 1)[0] == f[0] && RemoveAt(f, t + 1)[t] == f[t]
    ensures t + 2 < |f| ==>
            RemoveAt(f, t + 1)[t + 1] == f[t + 2] && f[t + 1] in size && f[t + 1] + size[f[t + 1]] < f[t + 2]
  {
    if t + 2 < |f| {
      assert Gap(size, f, t + 1);
    }
  }

  lemma RemovedMembers(f: seq<int>, j: nat)
    requires j < |f| && forall i, k :: 0 <= i < k < |f| ==> f[i] < f[k]
    ensures forall x :: x in RemoveAt(f, j) <==> x in f && x != f[j]
  {
  }

  lemma InsertMembers(f: seq<int>, j: nat, x: int)
    requires j <= |f|
    ensures forall y :: y in InsertAt(f, j, x) <==> y in f || y == x
  {
  }

  ghost predicate SameAt(m: map<int, int>, m': map<int, int>, x: int) {
    (x in m <==> x in m') && (x in m ==> m'[x] == m[x])
  }

  /** No header was written inside the blocks in use, and they own the same units. */
  ghost predicate Respects(own: map<int, int>, inUse: set<int>, ptr: map<int, int>, size: map<int, int>,
                           own': map<int, int>, ptr': map<int, int>, size': map<int, int>) {
    forall x :: x in own && own[x] in inUse ==>
                  x in own' && own'[x] == own[x] && SameAt(ptr, ptr', x) && SameAt(size, size', x)
  }

  lemma RespectsTrans(own: map<int, int>, inUse: set<int>, ptr: map<int, int>, size: map<int, int>,
                      own1: map<int, int>, ptr1: map<int, int>, size1: map<int, int>,
                      own2: map<int, int>, ptr2: map<int, int>, size2: map<int, int>)
    requires Respects(own, inUse, ptr, size, own1, ptr1, size1) && Respects(own1, inUse, ptr1, size1, own2, ptr2, size2)
    ensures Respects(own, inUse, ptr, size, own2, ptr2, size2)
  {
  }

  /** morecore asks for no fewer than 4096 units. */
  function Units(nu: int): (n: nat)
    ensures n >= 4096 && n >= nu && (n == 4096 || n == nu)
  {
    if nu < 4096 then 4096 else nu
  }

  /** (nbytes + sizeof(Header) - 1) / sizeof(Header) + 1 */
  function NUnits(nbytes: nat): (n: int)
    ensures n * 16 >= nbytes + 16 && (n - 1) * 16 < nbytes + 16
  {
    (nbytes + 16 - 1) / 16 + 1
  }

  /** No block on the list has n units. */
  ghost predicate NoneFits(size: map<int, int>, f: seq<int>, n: int) {
    forall j :: 0 <= j < |f| ==> f[j] in size && size[f[j]] < n
  }

  /** Index j comes after k and not after i, going round the list. */
  predicate Passed(k: int, i: int, j: int) {
    if k <= i then k < j <= i else k < j || j <= i
  }

  /** Going round the list from the element after freep, f[j] is the first with n units. */
  ghost predicate FirstFit(size: map<int, int>, f: seq<int>, freep: int, n: int, j: int) {
    && 0 <= j < |f| && f[j] in size && size[f[j]] >= n
    && exists k :: && 0 <= k < |f| && f[k] == freep
                   && forall i :: 0 <= i < |f| && i != j && Before(k, i, j) ==> f[i] in size && size[f[i]] < n
  }

  /** Going round from the index after k, i comes before j. */
  predicate Before(k: int, i: int, j: int) {
    if k < j then k < i < j else k < i || i < j
  }

  /** Where a free block ends that starts with n units at hp: it is joined with the one above. */
  function UpTo(size: map<int, int>, f: seq<int>, hp: int, n: int): int {
    if hp + n in f && hp + n in size then hp + n + size[hp + n] else hp + n
  }

  /** Where it starts: it is joined with the one below, if there is one. */
  ghost predicate StartsAt(size: map<int, int>, f: seq<int>, hp: int, b: int) {
    if b == hp then forall x :: x in f && x in size ==> x + size[x] != hp
    else b in f && b in size && b + size[b] == hp
  }

  /** n units at hp have joined the free list as part of block b. */
  ghost predicate Added(size: map<int, int>, f: seq<int>, size': map<int, int>, f': seq<int>, hp: int, n: int, b: int) {
    && b in f' && b in size' && b <= hp && StartsAt(size, f, hp, b) && b + size'[b] == UpTo(size, f, hp, n) >= hp + n
    && (forall x :: x in f' && x != b ==> x in f && x in size && x in size' && size'[x] == size[x])
    && (forall x :: x in f ==> x in f' || x == hp + n)
  }

  /** p is the last element of the list below x. */
  ghost predicate LastBelow(f: seq<int>, p: int, x: int) {
    p in f && p < x && forall y :: y in f ==> y <= p || x <= y
  }

  lemma WentRound(size: map<int, int>, f: seq<int>, n: int, k: int, i: int)
    requires 0 <= k < |f| && 0 <= i < |f| && Next(f, i) == k
    requires forall j :: 0 <= j < |f| && Passed(k, i, j) ==> f[j] in size && size[f[j]] < n
    requires f[k] in size && size[f[k]] < n
    ensures NoneFits(size, f, n)
  {
  }

  /** What the int parameter of sbrk receives for nu * sizeof(Header). */
  function SbrkArg(nu: int): int {
    var w := nu * 16 % 0x1_0000_0000;
    if w < 0x8000_0000 then w else w - 0x1_0000_0000
  }

  /** morecore asks sbrk for what it then records exactly when the request is below 2 GB, header included. */
  lemma SbrkExact(nbytes: nat)
    requires nbytes < UINT32
    ensures SbrkArg(Units(NUnits(nbytes))) == Units(NUnits(nbytes)) * 16 <==> nbytes <= 0x8000_0000 - 32
  {
  }

  lemma AddedFrom(size: map<int, int>, f: seq<int>, hp: int, n: int, size': map<int, int>, f': seq<int>, b: int)
    requires n >= 1 && hp !in f && b in f' && b in size' && StartsAt(size[hp := n], f, hp, b)
    requires b + size'[b] == UpTo(size[hp := n], f, hp, n)
    requires forall x :: x in f ==> x in size && size[x] >= 0
    requires forall x :: x in f' && x != b ==> x in f && x in size' && size'[x] == size[hp := n][x]
    requires forall x :: x in f ==> x in f' || x == hp + n
    ensures Added(size, f, size', f', hp, n, b)
  {
  }

  lemma TooSmall(size: map<int, int>, f: seq<int>, n: int, x: int)
    requires NoneFits(size, f, n) && x in f
    ensures x in size && size[x] < n
  {
  }

  /** Of a list on which nothing fitted, only the block with the new units can fit. */
  lemma OnlyNew(size0: map<int, int>, f0: seq<int>, size: map<int, int>, f: seq<int>, hp: int, m: int, b: int, n: int,
                j: nat)
    requires NoneFits(size0, f0, n) && Added(size0, f0, size, f, hp, m, b) && 0 < j < |f| && m >= 1
    requires f[j] in size && size[f[j]] >= n && forall i, k :: 0 <= i < k < |f| ==> f[i] < f[k]
    ensures f[j] == b && StartsAt(size0, f0, hp, b) && b + size[b] == UpTo(size0, f0, hp, m)
    ensures LastBelow(f0, f[j - 1], b)
  {
    hide StartsAt, UpTo;
    if f[j] != b {
      TooSmall(size0, f0, n, f[j]);
      assert false;
    }
    forall y | y in f0
      ensures y <= f[j - 1] || b <= y
    {
      if y in f {
        var i :| 0 <= i < |f| && f[i] == y;
      }
    }
  }

  /** The first block that fits after all those passed. */
  lemma FitsFirst(size: map<int, int>, f: seq<int>, freep: int, n: int, k: int, i: int)
    requires 0 <= k < |f| && f[k] == freep && 0 <= i && i + 1 < |f| && f[i + 1] in size && size[f[i + 1]] >= n
    requires forall j :: 0 <= j < |f| && Passed(k, i, j) ==> f[j] in size && size[f[j]] < n
    requires forall x, y :: 0 <= x < y < |f| ==> f[x] < f[y]
    ensures FirstFit(size, f, freep, n, i + 1) && LastBelow(f, f[i], f[i + 1])
  {
    forall y | y in f
      ensures y <= f[i] || f[i + 1] <= y
    {
      var x :| 0 <= x < |f| && f[x] == y;
    }
  }

  class Heap {
    const base: int
    var ptr: map<int, int>
    var size: map<int, int>
    var freep: int
    ghost var free: seq<int>
    ghost var live: map<int, int>
    ghost var own: map<int, int>

    /** The blocks partition the units; handed-out blocks have the recorded sizes. */
    ghost predicate BlocksOk()
      reads this`size, this`free, this`live, this`own
    {
      && base > 0 && |free| >= 1 && free[0] == base && base in size && size[base] == 0
      && Ordered(size, free) && Partition(own, size, Heads(free, base, live))
      && (forall u :: u in own ==> u > base)
      && (forall b :: b in live ==> b in size && size[b] == live[b] && b !in free)
    }

    ghost predicate Ready()
      reads this
    {
      BlocksOk() && Links(ptr, free) && freep in free
    }

    /** Before the first malloc the list does not exist. */
    ghost predicate Valid()
      reads this
    {
      if freep == 0 then base > 0 && free == [] && live == map[] && own == map[] else Ready()
    }

    constructor (base: int)
      requires base > 0
      ensures Valid() && this.base == base && live == map[] && own == map[]
    {
      this.base := base;
      ptr, size, freep, free, live, own := map[], map[], 0, [], map[], map[];
    }

    /** No unit is lost: the sizes of the free and the handed-out blocks add up to the memory obtained. */
    lemma Accounted()
      requires Ready()
      ensures Heads(free, base, live) <= size.Keys && Total(size, Heads(free, base, live)) == |own.Keys|
    {
      TotalUnits(own, size, Heads(free, base, live));
    }

    /** Handed-out blocks lie above base, and blocks do not overlap. */
    lemma LiveFacts(b: int)
      requires BlocksOk() && b in live
      ensures b > base && live[b] >= 1
      ensures forall j :: 0 <= j < |free| && free[j] < b ==>
                            free[j] in size && size[free[j]] >= 0 && free[j] + size[free[j]] <= b
      ensures forall j :: 0 <= j < |free| && b < free[j] ==> b + size[b] <= free[j]
    {
      hide Partition, Ordered, Heads;
      LiveBlock(b);
      forall j | 0 <= j < |free| && free[j] < b
        ensures free[j] in size && size[free[j]] >= 0 && free[j] + size[free[j]] <= b
      {
        BelowLive(b, j);
      }
      forall j | 0 <= j < |free| && b < free[j]
        ensures b + size[b] <= free[j]
      {
        AboveLive(b, j);
      }
    }

    lemma LiveBlock(b: int)
      requires BlocksOk() && b in live
      ensures b > base && live[b] >= 1 && b in Heads(free, base, live)
    {
      hide Ordered;
      assert BlockOk(own, size, b);
      HeadsOwned(own, size, Heads(free, base, live));
    }

    lemma BelowLive(b: int, j: nat)
      requires BlocksOk() && b in live && j < |free| && free[j] < b
      ensures free[j] in size && size[free[j]] >= 0 && free[j] + size[free[j]] <= b
    {
      hide Ordered;
      var heads := Heads(free, base, live);
      if free[j] != base {
        assert free[j] in heads && b in heads;
        assert BlockOk(own, size, free[j]);
        Apart(own, size, heads, free[j], b);
      }
    }

    lemma AboveLive(b: int, j: nat)
      requires BlocksOk() && b in live && j < |free| && b < free[j]
      ensures b + size[b] <= free[j]
    {
      hide Ordered, Partition;
      var heads := Heads(free, base, live);
      LiveBlock(b);
      assert free[j] in heads && b in heads;
      Apart(own, size, heads, b, free[j]);
    }

    /** Where bp belongs: after the last list element below it. */
    ghost function Place(bp: int, n: nat): (t: nat)
      reads this
      requires 0 < n <= |free| && free[0] < bp
      ensures t < n && free[t] < bp && forall j :: t < j < n ==> free[j] >= bp
    {
      if free[n - 1] < bp then n - 1 else Place(bp, n - 1)
    }

    lemma ListFacts()
      requires BlocksOk()
      ensures |free| >= 1 && free[0] == base && (forall b :: b in live ==> b !in free)
      ensures forall i, j :: 0 <= i < j < |free| ==> free[i] < free[j]
    {
      AllAscending(size, free);
    }

    /** free's search: it ends at the list element after which bp belongs. */
    method FindPlace(bp: int) returns (p: int, ghost t: nat)
      requires Ready() && bp in live
      ensures p in free && p < bp && forall x :: x in free ==> x <= p || bp < x
      ensures t < |free| && p == free[t] && (t + 1 < |free| ==> bp < free[t + 1])
      ensures LastBelow(free, p, bp)
    {
      hide BlocksOk, Links, Place, Next;
      ListFacts();
      LiveFacts(bp);
      t := Place(bp, |free|);
      NextFacts(free);
      ghost var k :| 0 <= k < |free| && free[k] == freep;
      p := freep;
      InList(k);
      while !(bp > p && bp < ptr[p])
        invariant 0 <= k < |free| && p == free[k] && p in ptr && ptr[p] == free[Next(free, k)]
        decreases if k <= t then t - k else t + |free| - k
      {
        if p >= ptr[p] && (bp > p || bp < ptr[p]) {
          break;
        }
        p := ptr[p];
        k := Next(free, k);
        InList(k);
      }
    }

    /** In the middle of free: bp points onwards and cannot be joined with the block above
        it; the link out of p is yet to be set. */
    ghost predicate Joined(bp: int, p: int, t: int)
      reads this
    {
      && BlocksOk() && bp in live && 0 <= t < |free| && p == free[t] && p < bp
      && (t + 1 < |free| ==> bp + size[bp] < free[t + 1])
      && LinksBut(ptr, free, t) && bp in ptr && ptr[bp] == free[Next(free, t)]
    }

    /** free, first half: join bp with the free block above it. */
    method JoinUpper(bp: int, p: int, ghost t: nat)
      requires Ready() && bp in live && t < |free| && p == free[t] && p < bp && (t + 1 < |free| ==> bp < free[t + 1])
      modifies this`ptr, this`size, this`free, this`own, this`live
      ensures Joined(bp, p, t) && own.Keys == old(own).Keys && live == old(live)[bp := size[bp]]
              && bp + size[bp] == UpTo(old(size), old(free), bp, old(live)[bp]) >= bp + old(live)[bp]
      ensures forall x :: x in free ==> x in old(free) && x in old(size) && x in size && size[x] == old(size)[x]
      ensures forall x :: x in old(free) ==> x in free || x == bp + old(live)[bp]
      ensures Respects(old(own), old(live).Keys - {bp}, old(ptr), old(size), own, ptr, size)
    {
      hide Partition, Linked, Gap, Heads, UpTo, RemoveAt;
      LiveFacts(bp);
      OwnFacts();
      SizesKnown();
      UpperEnd(bp, t);
      AllAscending(size, free);
      InList(t);
      var q := ptr[p];
      if bp + size[bp] == q {
        JoinUpperLists(bp, t);
        InList(t + 1);
        own := Absorb(own, bp, q);
        size := size[bp := size[bp] + size[q]];
        ptr := ptr[bp := ptr[q]];
        free := RemoveAt(free, t + 1);
        live := live[bp := size[bp]];
      } else {
        LinksFrame(ptr, free, t, bp, q);
        ptr := ptr[bp := q];
      }
    }

    /** The free block above bp, if there is one that bp can be joined with, is the next one. */
    lemma UpperEnd(bp: int, t: nat)
      requires BlocksOk() && bp in live && t < |free| && free[t] < bp && (t + 1 < |free| ==> bp < free[t + 1])
      ensures UpTo(size, free, bp, size[bp]) ==
              if t + 1 < |free| && bp + size[bp] == free[t + 1] then bp + size[bp] + size[free[t + 1]]
              else bp + size[bp]
    {
      hide Partition;
      LiveFacts(bp);
      SizesKnown();
      AllAscending(size, free);
      var e := bp + size[bp];
      forall i | 0 <= i < |free| && i != t + 1
        ensures free[i] != e
      {
        NotThere(bp, t, i);
      }
    }

    lemma NotThere(bp: int, t: nat, i: nat)
      requires BlocksOk() && bp in live && t < |free| && free[t] < bp && (t + 1 < |free| ==> bp < free[t + 1])
      requires i < |free| && i != t + 1
      ensures free[i] != bp + size[bp]
    {
      hide Partition;
      LiveFacts(bp);
      AllAscending(size, free);
      if i > t {
        assert free[t + 1] < free[i];
      }
    }

    /** What joining bp with free[t + 1] makes of the lists. */
    lemma JoinUpperLists(bp: int, t: nat)
      requires Ready() && bp in live && t + 1 < |free| && free[t] < bp && bp + size[bp] == free[t + 1]
      ensures var q, f := free[t + 1], RemoveAt(free, t + 1);
              && q in ptr && q in size && size[q] >= 1
              && var ptr', size', live', own' := ptr[bp := ptr[q]], size[bp := size[bp] + size[q]],
                 live[bp := size[bp] + size[q]], Absorb(own, bp, q);
                 && LinksBut(ptr', f, t) && ptr'[bp] == f[Next(f, t)] && Ordered(size', f) && own'.Keys == own.Keys
                 && Partition(own', size', Heads(f, base, live')) && (t + 1 < |f| ==> bp + size'[bp] < f[t + 1])
                 && (forall x :: x in f <==> x in free && x != q)
                 && |f| == |free| - 1 && f[0] == free[0] && f[t] == free[t]
    {
      hide Partition, Linked, Gap, Absorb, Heads, RemoveAt;
      var q, f, n := free[t + 1], RemoveAt(free, t + 1), size[bp];
      AllAscending(size, free);
      SizesKnown();
      HeadsHave();
      RemoveLinks(ptr, free, t);
      RemovedMembers(free, t + 1);
      LinksFrame(ptr, f, t, bp, ptr[q]);
      RemoveOrdered(size, free, t + 1);
      OrderedFrame(size, f, bp, n + size[q]);
      AbsorbOk(own, size, Heads(free, base, live), bp, q);
      RemovedHeads(free, base, live, t + 1, live[bp := n + size[q]]);
      AfterRemoved(size, free, t);
    }

    lemma HeadsHave()
      requires BlocksOk()
      ensures forall i :: 0 < i < |free| ==> free[i] in Heads(free, base, live)
      ensures forall b :: b in live ==> b in Heads(free, base, live)
    {
      AllAscending(size, free);
    }

    /** free, second half: join with the free block below, or link bp in after it. */
    method JoinLower(bp: int, p: int, ghost t: nat) returns (ghost b: int)
      requires Joined(bp, p, t)
      modifies this`ptr, this`size, this`free, this`own, this`live
      ensures BlocksOk() && Links(ptr, free) && p in free && own.Keys == old(own).Keys && live == old(live) - {bp}
      ensures b in free && b in size && p in old(size)
              && (if p + old(size)[p] == bp then b == p else b == bp) && b + size[b] == bp + old(live)[bp]
      ensures forall x :: x in free && x != b ==>
                            x in old(free) && x in old(size) && x in size && size[x] == old(size)[x]
      ensures forall x :: x in old(free) ==> x in free
      ensures Respects(old(own), old(live).Keys - {bp}, old(ptr), old(size), own, ptr, size)
    {
      hide BlocksOk, LinksBut, Links, Respects, Next;
      JoinedFacts(bp, p, t);
      if p + size[p] == bp {
        JoinBelow(bp, p, t);
        b := p;
      } else {
        LinkAfter(bp, p, t);
        b := bp;
      }
    }

    lemma JoinedFacts(bp: int, p: int, t: nat)
      requires Joined(bp, p, t)
      ensures t < |free| && p == free[t] && p in size && size[p] >= 0 && p + size[p] <= bp && bp in live && bp in size
              && size[bp] == live[bp]
    {
      hide Partition, Linked, Gap, Heads;
      LiveFacts(bp);
      SizesKnown();
    }

    method JoinBelow(bp: int, p: int, ghost t: nat)
      requires Joined(bp, p, t) && p in size && p + size[p] == bp
      modifies this`ptr, this`size, this`own, this`live
      ensures BlocksOk() && Links(ptr, free) && p in free && own.Keys == old(own).Keys && live == old(live) - {bp}
      ensures p in size && p + size[p] == bp + old(live)[bp]
      ensures forall x :: x in free && x != p ==> x in old(size) && x in size && size[x] == old(size)[x]
      ensures Respects(old(own), old(live).Keys - {bp}, old(ptr), old(size), own, ptr, size)
    {
      hide Partition, Linked, Gap, Heads;
      LiveFacts(bp);
      OwnFacts();
      SizesKnown();
      AllAscending(size, free);
      JoinLowerLists(bp, t);
      own := Absorb(own, p, bp);
      size := size[p := size[p] + size[bp]];
      ptr := ptr[p := ptr[bp]];
      live := live - {bp};
    }

    method LinkAfter(bp: int, p: int, ghost t: nat)
      requires Joined(bp, p, t) && p in size && size[p] >= 0 && p + size[p] < bp
      modifies this`ptr, this`free, this`live
      ensures BlocksOk() && Links(ptr, free) && p in free && live == old(live) - {bp}
      ensures forall x :: x in free <==> x in old(free) || x == bp
      ensures forall x :: x in free ==> x in size
      ensures Respects(old(own), old(live).Keys - {bp}, old(ptr), old(size), own, ptr, size)
    {
      hide Partition, Linked, Gap, Heads;
      LiveFacts(bp);
      OwnFacts();
      AllAscending(size, free);
      LinkLists(bp, t);
      ptr := ptr[p := bp];
      free := InsertAt(free, t + 1, bp);
      live := live - {bp};
      SizesKnown();
    }

    /** Free blocks, and what is outside all blocks, are not in use; a block in use owns its header. */
    lemma OwnFacts()
      requires BlocksOk()
      ensures forall x :: x in free && x in own ==> own[x] !in live && own[x] in free
      ensures forall b :: b in live ==> b in own && own[b] == b
    {
      forall b | b in live
        ensures b in own && own[b] == b
      {
        assert BlockOk(own, size, b);
      }
      forall x | x in free && x in own
        ensures own[x] !in live && own[x] in free
      {
        assert BlockOk(own, size, x);
      }
    }

    /** The tail that is cut off a free block is not in use either. */
    lemma Tail(j: nat, n: int)
      requires BlocksOk() && 0 < j < |free| && free[j] in size && 1 <= n < size[free[j]]
      ensures var q := free[j] + size[free[j]] - n; q in own && own[q] == free[j] && free[j] !in live
    {
      AllAscending(size, free);
      assert BlockOk(own, size, free[j]);
    }

    lemma NothingInUse(own0: map<int, int>, inUse: set<int>, ptr0: map<int, int>, size0: map<int, int>)
      requires (own0 == map[] && own == map[]) || (own == own0 && ptr == ptr0 && size == size0)
      ensures Respects(own0, inUse, ptr0, size0, own, ptr, size)
    {
    }

    lemma InListAt(t: nat)
      requires BlocksOk() && Links(ptr, free) && t < |free|
      ensures free[t] in ptr && ptr[free[t]] == free[Next(free, t)] && ptr[free[t]] in size
    {
      hide Partition, Links;
      InList(t);
      SizesKnown();
    }

    lemma SizesKnown()
      requires BlocksOk()
      ensures forall i :: 0 <= i < |free| ==> free[i] in size && size[free[i]] >= 0 && (i > 0 ==> size[free[i]] >= 1)
    {
      AllAscending(size, free);
      forall i | 0 < i < |free|
        ensures free[i] in size && size[free[i]] >= 1
      {
        assert free[0] < free[i];
        assert BlockOk(own, size, free[i]);
      }
    }

    lemma JoinLowerLists(bp: int, t: nat)
      requires t < |free| && Joined(bp, free[t], t) && free[t] in size && free[t] + size[free[t]] == bp
      ensures var p := free[t];
              var ptr', size', live', own' := ptr[p := ptr[bp]], size[p := size[p] + size[bp]], live - {bp},
                  Absorb(own, p, bp);
              && p != base && size[p] >= 1 && Links(ptr', free) && Ordered(size', free) && own'.Keys == own.Keys
              && Partition(own', size', Heads(free, base, live'))
    {
      var p := free[t];
      SizesKnown();
      AllAscending(size, free);
      RestoreLinks(ptr, free, t);
      Resize(size, free, t, size[p] + size[bp]);
      AbsorbOk(own, size, Heads(free, base, live), p, bp);
      assert Heads(free, base, live - {bp}) == Heads(free, base, live) - {bp};
    }

    lemma LinkLists(bp: int, t: nat)
      requires t < |free| && Joined(bp, free[t], t) && free[t] in size && size[free[t]] >= 0
               && free[t] + size[free[t]] < bp
      ensures var p, f := free[t], InsertAt(free, t + 1, bp);
              && Links(ptr[p := bp], f) && Ordered(size, f) && f[0] == base && p in f
                 && (forall x :: x in f <==> x in free || x == bp)
              && Partition(own, size, Heads(f, base, live - {bp}))
    {
      var p, f := free[t], InsertAt(free, t + 1, bp);
      AllAscending(size, free);
      LiveFacts(bp);
      InsertLinks(ptr, free, t, bp);
      InsertOrdered(size, free, t, bp);
      InsertMembers(free, t + 1, bp);
      assert Heads(f, base, live - {bp}) == Heads(free, base, live);
    }

    /** free: the block is back on the list, joined with its free neighbours, as block b; the
        search for the next malloc starts after the last free block below it. */
    method Free(ap: int) returns (ghost b: int)
      requires Ready() && ap - 1 in live
      modifies this`ptr, this`size, this`freep, this`free, this`own, this`live
      ensures Ready() && live == old(live) - {ap - 1} && own.Keys == old(own).Keys
      ensures LastBelow(old(free), freep, ap - 1)
      ensures b in free && b in size && StartsAt(old(size), old(free), ap - 1, b)
              && b + size[b] == UpTo(old(size), old(free), ap - 1, old(live)[ap - 1])
      ensures forall x :: x in free && x != b ==>
                            x in old(free) && x in old(size) && x in size && size[x] == old(size)[x]
      ensures forall x :: x in old(free) ==> x in free || x == ap - 1 + old(live)[ap - 1]
      ensures Respects(old(own), old(live).Keys - {ap - 1}, old(ptr), old(size), own, ptr, size)
    {
      hide BlocksOk, Links, Respects;
      var bp := ap - 1;
      var p; ghost var t;
      p, t := FindPlace(bp);
      OneBelow(bp, p);
      JoinUpper(bp, p, t);
      ghost var own1, ptr1, size1 := own, ptr, size;
      assert live.Keys - {bp} == old(live).Keys - {bp};
      b := JoinLower(bp, p, t);
      RespectsTrans(old(own), old(live).Keys - {bp}, old(ptr), old(size), own1, ptr1, size1, own, ptr, size);
      freep := p;
    }

    /** Only the last free block below bp can end where bp starts. */
    lemma OneBelow(bp: int, p: int)
      requires Ready() && bp in live && LastBelow(free, p, bp)
      ensures p in size && bp in size && size[bp] == live[bp]
      ensures StartsAt(size, free, bp, if p + size[p] == bp then p else bp)
    {
      hide Partition, Links, Ordered;
      SizesKnown();
      AllAscending(size, free);
      forall x | x in free && x in size && x + size[x] == bp
        ensures x == p
      {
        var i, j :| 0 <= i < |free| && free[i] == x && 0 <= j < |free| && free[j] == p;
        if i < j {
          EndsBelow(i, j);
          assert false;
        }
      }
    }

    /** morecore: at least 4096 units from sbrk, put on the list by free; 0 if sbrk failed. */
    method Morecore(nu0: int, sbrk: Option<int>) returns (p: int, ghost b: int)
      requires Ready() && nu0 >= 1
      requires sbrk.Some? ==> sbrk.value > base && forall u :: sbrk.value <= u < sbrk.value + Units(nu0) ==> u !in own
      modifies this`ptr, this`size, this`freep, this`free, this`own, this`live
      ensures Ready() && live == old(live)
      ensures sbrk.None? ==> p == 0 && own == old(own) && size == old(size) && free == old(free)
      ensures sbrk.Some? ==>
                && p == freep > 0 && LastBelow(old(free), p, sbrk.value)
                && Added(old(size), old(free), size, free, sbrk.value, Units(nu0), b)
                && forall u :: u in own <==> u in old(own) || sbrk.value <= u < sbrk.value + Units(nu0)
      ensures Respects(old(own), old(live).Keys, old(ptr), old(size), own, ptr, size)
    {
      hide Partition, Links, Ordered, Heads, Grow, Added, StartsAt, UpTo;
      b := base;
      SizesKnown();
      if sbrk.None? {
        return 0, base;
      }
      var nu, hp := Units(nu0), sbrk.value;
      Obtained(hp, nu);
      size := size[hp := nu];
      own := Grow(own, hp, nu);
      live := live[hp := nu];
      ghost var own1, ptr1, size1 := own, ptr, size;
      assert live.Keys - {hp} == old(live).Keys;
      b := Free(hp + 1);
      AddedFrom(old(size), old(free), hp, nu, size, free, b);
      RespectsTrans(old(own), old(live).Keys, old(ptr), old(size), own1, ptr1, size1, own, ptr, size);
      assert live == old(live);
      AtLeastBase();
      p := freep;
    }

    lemma AtLeastBase()
      requires Ready()
      ensures freep >= base > 0
    {
      AllAscending(size, free);
    }

    /** A new block may be handed out. */
    lemma Obtained(hp: int, nu: nat)
      requires Ready() && nu >= 1 && hp > base && forall u :: hp <= u < hp + nu ==> u !in own
      ensures hp !in live && hp !in free && Ordered(size[hp := nu], free)
      ensures Partition(Grow(own, hp, nu), size[hp := nu], Heads(free, base, live[hp := nu]))
    {
      hide Links, Grow;
      GrowOk(own, size, Heads(free, base, live), hp, nu);
      assert Heads(free, base, live[hp := nu]) == Heads(free, base, live) + {hp};
      OrderedFrame(size, free, hp, nu);
    }

    /** The end of malloc: n units from free[j], the whole block or its tail. */
    method Take(prevp: int, p: int, n: int, ghost j: nat) returns (q: int)
      requires Ready() && 0 < j < |free| && prevp == free[j - 1] && p == free[j] && p in size && 1 <= n <= size[p]
      modifies this`ptr, this`size, this`freep, this`free, this`own, this`live
      ensures Ready() && q > base > 0 && q !in old(live) && live == old(live)[q := n] && own.Keys == old(own).Keys
              && freep == prevp && q == p + old(size)[p] - n
      ensures Respects(old(own), old(live).Keys, old(ptr), old(size), own, ptr, size)
    {
      hide BlocksOk, Links, Respects;
      if size[p] == n {
        TakeWhole(prevp, p, j);
        q := p;
      } else {
        q := TakeTail(p, n, j);
      }
      freep := prevp;
    }

    method TakeWhole(prevp: int, p: int, ghost j: nat)
      requires Ready() && 0 < j < |free| && prevp == free[j - 1] && p == free[j] && p in size && size[p] >= 1
      modifies this`ptr, this`free, this`live
      ensures BlocksOk() && Links(ptr, free) && prevp in free && p > base > 0 && p !in old(live)
              && live == old(live)[p := size[p]]
      ensures Respects(old(own), old(live).Keys, old(ptr), old(size), own, ptr, size)
    {
      hide Partition, Linked, Gap, Heads, RemoveAt;
      OwnFacts();
      AllAscending(size, free);
      InList(j);
      UnlinkLists(j);
      ptr := ptr[prevp := ptr[p]];
      free := RemoveAt(free, j);
      live := live[p := size[p]];
    }

    method TakeTail(p: int, n: int, ghost j: nat) returns (q: int)
      requires Ready() && 0 < j < |free| && p == free[j] && p in size && 1 <= n < size[p]
      modifies this`size, this`own, this`live
      ensures BlocksOk() && Links(ptr, free) && q > base > 0 && q !in old(live) && live == old(live)[q := n]
              && own.Keys == old(own).Keys && q == p + old(size)[p] - n
      ensures Respects(old(own), old(live).Keys, old(ptr), old(size), own, ptr, size)
    {
      hide Partition, Linked, Gap, Heads;
      OwnFacts();
      Tail(j, n);
      AllAscending(size, free);
      CarveLists(j, n);
      assert p > base;
      size := size[p := size[p] - n];
      q := p + size[p];
      size := size[q := n];
      own := Carve(own, p, q);
      live := live[q := n];
    }

    lemma UnlinkLists(j: nat)
      requires Ready() && 0 < j < |free| && free[j] in ptr && free[j] in size
      ensures var p, f := free[j], RemoveAt(free, j);
              && p !in live && |f| >= 1 && Links(ptr[free[j - 1] := ptr[p]], f) && Ordered(size, f) && f[0] == base
                 && free[j - 1] in f
              && (forall x :: x in f <==> x in free && x != p)
              && Partition(own, size, Heads(f, base, live[p := size[p]]))
    {
      hide Partition, Linked, Gap, RemoveAt;
      var p, f := free[j], RemoveAt(free, j);
      AllAscending(size, free);
      RemoveLinks(ptr, free, j - 1);
      RemovedMembers(free, j);
      AfterRemoved(size, free, j - 1);
      RemoveOrdered(size, free, j);
      AllAscending(size, f);
      assert forall i :: 0 <= i < |f| && i != j - 1 ==> f[i] != f[j - 1];
      RestoreLinks(ptr, f, j - 1);
      RemoveOrdered(size, free, j);
      RemovedHeads(free, base, live, j, live);
      HeadsHave();
      assert Heads(f, base, live[p := size[p]]) == Heads(f, base, live) + {p};
      assert Heads(free, base, live) - {p} + {p} == Heads(free, base, live);
    }

    lemma CarveLists(j: nat, n: int)
      requires Ready() && 0 < j < |free| && free[j] in size && 1 <= n < size[free[j]]
      ensures var p := free[j];
              var q := p + size[p] - n;
              var size' := size[p := size[p] - n][q := n];
              && q !in live && q !in free && q != base && Ordered(size', free) && Carve(own, p, q).Keys == own.Keys
              && Partition(Carve(own, p, q), size', Heads(free, base, live[q := n]))
    {
      hide Partition, Linked, Gap, Carve;
      var p := free[j];
      var q := p + size[p] - n;
      AllAscending(size, free);
      HeadsHave();
      SizesKnown();
      CarveOk(own, size, Heads(free, base, live), p, n);
      GapAfter(j);
      Resize(size, free, j, size[p] - n);
      assert forall i :: 0 <= i < |free| ==> free[i] == base || free[i] in Heads(free, base, live);
      assert free[0] < p < q;
      OrderedFrame(size[p := size[p] - n], free, q, n);
      assert Heads(free, base, live[q := n]) == Heads(free, base, live) + {q};
    }

    lemma EndsBelow(i: nat, j: nat)
      requires BlocksOk() && i < j < |free|
      ensures free[i] in size && free[i] + size[free[i]] < free[j]
    {
      hide Partition;
      AllAscending(size, free);
      GapAfter(i);
      assert free[i + 1] <= free[j];
    }

    lemma GapAfter(j: nat)
      requires Ordered(size, free) && j < |free|
      ensures j + 1 < |free| ==> free[j] in size && free[j] + size[free[j]] < free[j + 1]
    {
      if j + 1 < |free| {
        assert Gap(size, free, j);
      }
    }

    /** malloc's first call: the list is the static header alone. */
    method Start()
      requires freep == 0 && Valid()
      modifies this`ptr, this`size, this`freep, this`free
      ensures Ready() && free == [base] && freep == base && size == old(size)[base := 0]
    {
      ptr := ptr[base := base];
      freep := base;
      size := size[base := 0];
      free := [base];
      assert Linked(ptr, free, 0);
    }

    /** The list and the sizes malloc starts from: at first the static header alone. */
    ghost function List(): seq<int>
      reads this
    {
      if freep == 0 then [base] else free
    }

    ghost function Sizes(): map<int, int>
      reads this
    {
      if freep == 0 then size[base := 0] else size
    }

    /** malloc: a block of n units, enough for nbytes and a header, disjoint from all others; 0
        if nothing fits and sbrk failed. morecore is called at most once: `grown` says whether.
        The units are the last ones of block b. That is the first one going round from freep
        that is large enough, or else the one with the new units; the next search starts there. */
    method Malloc(nbytes: nat, sbrk: Option<int>) returns (r: int, ghost grown: bool, ghost b: int)
      requires Valid()
      requires sbrk.Some? ==> sbrk.value > base && forall u :: sbrk.value <= u < sbrk.value + Units(NUnits(nbytes)) ==>
                                                                 u !in own
      modifies this
      ensures Ready()
      ensures r == 0 ==> && sbrk.None? && !grown && NoneFits(size, free, NUnits(nbytes))
                         && live == old(live) && own == old(own)
      ensures r != 0 ==> r - 1 !in old(live) && live == old(live)[r - 1 := NUnits(nbytes)]
      ensures r != 0 && !grown ==> own.Keys == old(own).Keys
      ensures r != 0 && grown ==> && sbrk.Some? && (old(freep) != 0 ==> NoneFits(old(size), old(free), NUnits(nbytes)))
                                  && forall u :: u in own <==>
                                                   u in old(own) || sbrk.value <= u < sbrk.value + Units(NUnits(nbytes))
      ensures r != 0 ==> LastBelow(old(List()), freep, b)
      ensures r != 0 && !grown ==>
                && (exists j :: FirstFit(old(Sizes()), old(List()), old(freep), NUnits(nbytes), j)
                                && old(List())[j] == b)
                && b in old(Sizes()) && r - 1 + NUnits(nbytes) == b + old(Sizes())[b]
      ensures r != 0 && grown ==>
                && StartsAt(old(Sizes()), old(List()), sbrk.value, b)
                && r - 1 + NUnits(nbytes) == UpTo(old(Sizes()), old(List()), sbrk.value, Units(NUnits(nbytes)))
      ensures Respects(old(own), old(live).Keys, old(ptr), old(size), own, ptr, size)
    {
      hide BlocksOk, Links, NoneFits, Respects, Added, FirstFit, StartsAt, UpTo, LastBelow, Looking, NUnits;
      var n := NUnits(nbytes);
      grown, b := false, base;
      if freep == 0 {
        Start();
      }
      NothingInUse(old(own), old(live).Keys, old(ptr), old(size));
      ghost var free0, size0, freep0 := free, size, freep;
      var prevp := freep;
      ghost var k, i := Looks(n);
      var p := ptr[prevp];
      while true
        invariant Ready() && live == old(live) && prevp in ptr && p in size && Looking(k, i, prevp, p, n)
        invariant 0 <= k < |free| && 0 <= i < |free|
        invariant !grown ==> own == old(own) && free == free0 && size == size0 && freep == freep0
        invariant grown ==> sbrk.Some? && !NoneFits(size, free, n)
        invariant Respects(old(own), old(live).Keys, old(ptr), old(size), own, ptr, size)
        invariant grown ==> forall u :: u in own <==> u in old(own) || sbrk.value <= u < sbrk.value + Units(n)
        invariant grown ==> NoneFits(size0, free0, n) && Added(size0, free0, size, free, sbrk.value, Units(n), b)
        decreases if grown then 0 else 1, if i < k then k - i else k + |free| - i
      {
        ghost var own1, ptr1, size1 := own, ptr, size;
        if size[p] >= n {
          Found(k, i, prevp, p, n);
          if grown {
            OnlyNew(size0, free0, size, free, sbrk.value, Units(n), b, n, i + 1);
          } else {
            b := p;
            FirstList(p, old(freep), n);
          }
          p := Take(prevp, p, n, i + 1);
          RespectsTrans(old(own), old(live).Keys, old(ptr), old(size), own1, ptr1, size1, own, ptr, size);
          return p + 1, grown, b;
        }
        if p == freep {
          Round(k, i, prevp, p, n);
          p, b := Morecore(n, sbrk);
          RespectsTrans(old(own), old(live).Keys, old(ptr), old(size), own1, ptr1, size1, own, ptr, size);
          if p == 0 {
            return 0, grown, b;
          }
          grown := true;
          NowFits(size0, free0, sbrk.value, Units(n), b, n);
          k, i := Looks(n);
        } else {
          i := Onward(k, i, prevp, p, n);
        }
        prevp := p;
        p := ptr[p];
      }
    }

    /** The search started after free[k] and has reached free[i]; nothing up to there fits. */
    ghost predicate Looking(k: int, i: int, prevp: int, p: int, n: int)
      reads this
    {
      && 0 <= k < |free| && 0 <= i < |free| && freep == free[k] && prevp == free[i]
      && p == free[Next(free, i)] && prevp in ptr && p == ptr[prevp] && p in size
      && forall j :: 0 <= j < |free| && Passed(k, i, j) ==> free[j] in size && size[free[j]] < n
    }

    lemma Looks(n: int) returns (k: int, i: int)
      requires Ready()
      ensures freep in ptr && ptr[freep] in size && 0 <= k == i < |free| && Looking(k, i, freep, ptr[freep], n)
    {
      hide BlocksOk, Links, Next;
      k :| 0 <= k < |free| && free[k] == freep;
      i := k;
      InListAt(k);
    }

    lemma Onward(k: int, i: int, prevp: int, p: int, n: int) returns (i': int)
      requires Ready() && Looking(k, i, prevp, p, n) && p in size && size[p] < n && p != freep
      ensures p in ptr && ptr[p] in size && Looking(k, i', p, ptr[p], n)
      ensures (if i' < k then k - i' else k + |free| - i') < (if i < k then k - i else k + |free| - i)
      ensures 0 <= i' < |free|
    {
      hide BlocksOk, Links;
      i' := Next(free, i);
      InListAt(i');
      Repeats(k, i');
    }

    lemma Round(k: int, i: int, prevp: int, p: int, n: int)
      requires Ready() && Looking(k, i, prevp, p, n) && p in size && size[p] < n && p == freep
      ensures NoneFits(size, free, n)
    {
      hide BlocksOk, Links;
      NextFacts(free);
      Repeats(k, Next(free, i));
      WentRound(size, free, n, k, i);
    }

    lemma Found(k: int, i: int, prevp: int, p: int, n: int)
      requires Ready() && Looking(k, i, prevp, p, n) && p in size && size[p] >= n >= 1
      ensures 0 < i + 1 < |free| && prevp == free[i] && p == free[i + 1] && LastBelow(free, prevp, p)
      ensures FirstFit(size, free, freep, n, i + 1)
      ensures forall x, y :: 0 <= x < y < |free| ==> free[x] < free[y]
    {
      hide BlocksOk, Links, Passed;
      BaseIsEmpty();
      ListFacts();
      FitsFirst(size, free, freep, n, k, i);
    }

    /** In the list of the static header alone nothing fits. */
    lemma FirstList(p: int, freep0: int, n: int)
      requires Ready() && p in free && p in size && size[p] >= n >= 1 && (freep0 == 0 ==> free == [base])
      ensures freep0 != 0
    {
      BaseIsEmpty();
    }

    lemma BaseIsEmpty()
      requires BlocksOk()
      ensures base in size && size[base] == 0 && free[0] == base
    {
    }

    /** The list has no repetitions. */
    lemma Repeats(k: nat, i: nat)
      requires BlocksOk() && k < |free| && i < |free|
      ensures free[k] == free[i] ==> k == i
    {
      AllAscending(size, free);
    }

    lemma NowFits(size0: map<int, int>, f0: seq<int>, hp: int, m: int, b: int, n: int)
      requires Added(size0, f0, size, free, hp, m, b) && n <= m
      ensures !NoneFits(size, free, n)
    {
      var j :| 0 <= j < |free| && free[j] == b;
    }

    lemma InList(k: int)
      requires Links(ptr, free) && 0 <= k < |free|
      ensures free[k] in ptr && ptr[free[k]] == free[Next(free, k)]
    {
      assert Linked(ptr, free, k);
    }
  }
}
