/** Sizing of the buddy allocator (kernel/buddy.c): how many sizes bd_init manages,
  how much the allocator's own data takes, and the bit operations on its vectors.
 */
module BuddySizes {
  import opened Arith
  import opened BuddyTree
  import opened BuddyInit
  import opened Buddy

  // ---------------------------------------------------------------- number of sizes

  /** log2: the position of the highest set bit. */
  method Log2(n: nat) returns (k: nat)
    requires n > 0
    ensures Pow2(k) <= n < Pow2(k + 1)
  {
    k := 0;
    var x := n;
    while x > 1
      invariant x >= 1 && x * Pow2(k) <= n < (x + 1) * Pow2(k)
      decreases x
    {
      HalveBounds(x, Pow2(k), n);
      k := k + 1;
      x := x / 2;
    }
    assert Pow2(k + 1) == 2 * Pow2(k);
  }

  lemma HalveBounds(x: nat, p: nat, n: nat)
    requires x * p <= n < (x + 1) * p
    ensures (x / 2) * (2 * p) <= n < (x / 2 + 1) * (2 * p)
  {
    var h := x / 2;
    assert h * (2 * p) == (2 * h) * p && (h + 1) * (2 * p) == (2 * h + 2) * p;
    if x == 2 * h {
      assert (x + 1) * p == (2 * h) * p + p && (2 * h + 2) * p == (2 * h) * p + 2 * p;
    } else {
      assert x == 2 * h + 1;
      assert x * p == (2 * h) * p + p;
    }
  }

  /** The number of sizes bd_init chooses for `total` bytes of memory: the largest
      block is the smallest power-of-two block that covers them. */
  method NumSizes(total: nat) returns (nsizes: nat)
    requires total >= LEAF_SIZE
    ensures nsizes >= 1 && total <= BlkSize(nsizes - 1) && (nsizes > 1 ==> BlkSize(nsizes - 2) <= total)
    ensures total < BlkSize(nsizes - 1) ==> nsizes > 1 && BlkSize(nsizes - 2) < total
  {
    var k := Log2(total / LEAF_SIZE);
    assert Pow2(k + 1) == 2 * Pow2(k);
    nsizes := k + 1;
    if total > BlkSize(nsizes - 1) {
      nsizes := nsizes + 1;  // round up to the next power of 2
    } else if nsizes > 1 {
      assert Pow2(k) == 2 * Pow2(k - 1);
    }
  }

  /** The first leaf past the end of memory, as bd_mark_unavailable rounds it. */
  function EndLeaf(total: nat, top: nat): int {
    Pow2(top) - (if BlkSize(top) - total > 0 then (BlkSize(top) - total - 1) / LEAF_SIZE + 1 else 0)
  }

  lemma EndIsLastLeaf(total: nat, top: nat)
    requires total <= BlkSize(top)
    ensures EndLeaf(total, top) == total / LEAF_SIZE
  {
  }

  // ---------------------------------------------------------------- metadata

  /** Bytes of bit vector for the sizes with up to 2^n blocks. */
  function VectorBytes(n: nat): nat {
    (Pow2(n) + 7) / 8 + if n == 0 then 0 else VectorBytes(n - 1)
  }

  /** bd_sizes, then an alloc vector for every size, then a split vector for every size but the first. */
  function MetaBytes(top: nat): nat
    requires top > 0
  {
    32 * (top + 1) + VectorBytes(top) + VectorBytes(top - 1)
  }

  function MetaLeaves(top: nat): nat
    requires top > 0
  {
    (MetaBytes(top) - 1) / LEAF_SIZE + 1
  }

  /** From seven sizes up the allocator's data fits in a quarter of the heap, and covers its size records. */
  lemma MetaFits(top: nat)
    requires top >= 6
    ensures 0 < 4 * MetaLeaves(top) <= Pow2(top) && 2 * (top + 1) <= MetaLeaves(top)
  {
  }

  /** bd_init's preconditions hold for every memory size that is not itself a block size, from seven sizes up. */
  lemma InitSizes(total: nat, top: nat)
    requires top >= 6 && BlkSize(top - 1) < total < BlkSize(top)
    ensures EndLeaf(total, top) >= 0 && Sizes(top, MetaLeaves(top), EndLeaf(total, top))
  {
    hide MetaLeaves, EndLeaf;
    MetaFits(top);
    EndIsLastLeaf(total, top);
    assert Pow2(top) == 2 * Pow2(top - 1);
    var q := total / LEAF_SIZE;
    assert 16 * q <= total < 16 * q + 16;
  }

  lemma {:induction false} MoreSizes(j: nat, k: nat)
    requires k <= j
    ensures BlkSize(k) <= BlkSize(j)
  {
    if k < j {
      MoreSizes(j - 1, k);
      assert Pow2(j) == 2 * Pow2(j - 1);
    }
  }

  /** bd_init on `total` bytes from base on: seven sizes or more, and not itself a block size. */
  method BdInit(base: int, total: nat) returns (a: Allocator)
    requires BlkSize(5) < total && forall k: nat :: total != BlkSize(k)
    ensures fresh(a) && fresh(a.lists) && a.Valid() && a.base == base
    ensures a.top >= 6 && BlkSize(a.top - 1) < total < BlkSize(a.top)
    ensures a.reserved == a.live == ReservedLeaves(a.top, MetaLeaves(a.top), total / LEAF_SIZE)
    ensures InitialLists(a.top, MetaLeaves(a.top), total / LEAF_SIZE, a.free)
  {
    var nsizes := NumSizes(total);
    var top := nsizes - 1;
    if top < 6 {
      MoreSizes(5, top);
      assert false;
    }
    assert BlkSize(top - 1) != total;
    InitSizes(total, top);
    EndIsLastLeaf(total, top);
    MetaFits(top);
    a := new Allocator(base, top, MetaLeaves(top), EndLeaf(total, top));
  }

  /** The right index bd_initfree looks at is inside the vectors exactly when some memory is missing. */
  lemma {:induction false} RightInRange(top: nat, e: nat, k: nat)
    requires k < top && e <= Pow2(top)
    ensures InRange(top, k, Down(e, k)) <==> e < Pow2(top)
  {
    if e < Pow2(top) {
      DownInRange(top, e, k);
    } else {
      DownPow2(top, k);
    }
  }

  lemma {:induction false} DownPow2(top: nat, k: nat)
    requires k <= top
    ensures Down(Pow2(top), k) == Pow2(top - k)
  {
    if k > 0 {
      DownPow2(top, k - 1);
      assert Pow2(top - (k - 1)) == 2 * Pow2(top - k);
    }
  }

  // ---------------------------------------------------------------- bits in bytes

  type Bytes = seq<bv8>

  function Mask(n: nat): bv8
    requires n < 8
  {
    match n
    case 0 => 1
    case 1 => 2
    case 2 => 4
    case 3 => 8
    case 4 => 16
    case 5 => 32
    case 6 => 64
    case _ => 128
  }

  predicate Has(b: bv8, n: nat)
    requires n < 8
  {
    b & Mask(n) == Mask(n)
  }

  function With(b: bv8, n: nat): (r: bv8)
    requires n < 8
    ensures forall m: nat :: m < 8 ==> Has(r, m) == (m == n || Has(b, m))
  {
    b | Mask(n)
  }

  function Minus(b: bv8, n: nat): (r: bv8)
    requires n < 8
    ensures forall m: nat :: m < 8 ==> Has(r, m) == (m != n && Has(b, m))
  {
    b & !Mask(n)
  }

  predicate BitIsSet(a: Bytes, index: nat)
    requires index / 8 < |a|
  {
    Has(a[index / 8], index % 8)
  }

  /** bit_set changes exactly the named bit. */
  function BitSet(a: Bytes, index: nat): (r: Bytes)
    requires index / 8 < |a|
    ensures |r| == |a| && forall j: nat :: j / 8 < |a| ==> BitIsSet(r, j) == (j == index || BitIsSet(a, j))
  {
    hide Has, With;
    a[index / 8 := With(a[index / 8], index % 8)]
  }

  /** bit_clear changes exactly the named bit. */
  function BitClear(a: Bytes, index: nat): (r: Bytes)
    requires index / 8 < |a|
    ensures |r| == |a| && forall j: nat :: j / 8 < |a| ==> BitIsSet(r, j) == (j != index && BitIsSet(a, j))
  {
    hide Has, Minus;
    a[index / 8 := Minus(a[index / 8], index % 8)]
  }

  /** The bytes hold a vector of bits, as bd_sizes[k].alloc and split do. */
  ghost predicate Holds(a: Bytes, row: seq<bool>) {
    |row| <= 8 * |a| && forall i: nat :: i < |row| ==> BitIsSet(a, i) == row[i]
  }

  /** Setting or clearing a bit of the bytes does that to the vector they hold. */
  lemma VectorOps(a: Bytes, row: seq<bool>, i: nat)
    requires Holds(a, row) && i < |row|
    ensures Holds(BitSet(a, i), row[i := true]) && Holds(BitClear(a, i), row[i := false])
  {
    hide BitIsSet;
  }
}
