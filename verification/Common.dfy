/** Shared vocabulary: optional values and the kernel's unsigned 32-bit counters. */
module Common {

  datatype Option<+T> = None | Some(value: T)

  const UINT32: nat := 0x1_0000_0000

  /** A C `uint` counter: incrementing and decrementing wrap modulo 2^32. */
  function Inc32(x: int): int {
    if x == UINT32 - 1 then 0 else x + 1
  }

  function Dec32(x: int): int {
    if x == 0 then UINT32 - 1 else x - 1
  }

  ghost predicate Distinct(s: seq<int>) {
    forall i, j :: 0 <= i < j < |s| ==> s[i] != s[j]
  }

  lemma SubsetCard(a: set<int>, b: set<int>)
    requires a <= b
    ensures |a| <= |b|
  {
    assert b == a + (b - a);
    assert a * (b - a) == {};
  }

  lemma NonEmpty<T>(s: set<T>)
    ensures s == {} || exists x :: x in s
  {
  }

  /** Some element of a non-empty set. */
  ghost function Pick<T>(s: set<T>): (r: T)
    requires s != {}
    ensures r in s
  {
    NonEmpty(s);
    var x :| x in s; x
  }
}
