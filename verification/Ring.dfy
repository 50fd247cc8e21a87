/** Circular doubly linked rings with a sentinel head.

  The kernel threads two structures this way: the free lists of the buddy
  allocator (kernel/list.c) and the LRU list of the buffer cache
  (kernel/bio.c). Nodes are addresses; `next` and `prev` are the link fields of
  every node in memory. The sequence `s` is the ring read from `head.next`.
 */
module Ring {
  import opened Common

  type Links = map<int, int>

  /** The node at position i of the ring; positions -1 and |s| are the head. */
  function Node(head: int, s: seq<int>, i: int): int {
    if 0 <= i < |s| then s[i] else head
  }

  /** The nodes at positions i-1 and i point at each other. */
  ghost predicate Linked(head: int, s: seq<int>, i: int, next: Links, prev: Links) {
    var a, b := Node(head, s, i - 1), Node(head, s, i);
    a in next && b in prev && next[a] == b && prev[b] == a
  }

  ghost predicate IsRing(head: int, s: seq<int>, next: Links, prev: Links) {
    && Distinct(s)
    && head !in s
    && forall i :: 0 <= i <= |s| ==> Linked(head, s, i, next, prev)
  }

  function Without(s: seq<int>, j: nat): (r: seq<int>)
    requires j < |s|
    ensures |r| == |s| - 1
    ensures forall i :: 0 <= i < |r| ==> r[i] == if i < j then s[i] else s[i + 1]
  {
    s[..j] + s[j + 1..]
  }

  lemma Neighbours(head: int, s: seq<int>, next: Links, prev: Links, j: nat)
    requires IsRing(head, s, next, prev) && j < |s|
    ensures s[j] in next && next[s[j]] == Node(head, s, j + 1) && next[s[j]] in prev
    ensures s[j] in prev && prev[s[j]] == Node(head, s, j - 1) && prev[s[j]] in next
  {
    assert Linked(head, s, j, next, prev) && Linked(head, s, j + 1, next, prev);
  }

  lemma RemoveLink(head: int, s: seq<int>, next: Links, prev: Links, j: nat, i: nat)
    requires IsRing(head, s, next, prev) && j < |s| && i <= |s| - 1
    requires s[j] in prev && s[j] in next
    ensures var e := s[j];
            Linked(head, Without(s, j), i, next[prev[e] := next[e]], prev[next[e] := prev[e]])
  {
    Neighbours(head, s, next, prev, j);
    var r := Without(s, j);
    if i < j {
      assert Linked(head, s, i, next, prev);
      assert Node(head, r, i - 1) == Node(head, s, i - 1) && Node(head, r, i) == Node(head, s, i);
    } else if i > j {
      assert Linked(head, s, i + 1, next, prev);
      assert Node(head, r, i - 1) == Node(head, s, i) && Node(head, r, i) == Node(head, s, i + 1);
    }
  }

  /** lst_remove: unlinking the node at position j leaves the ring without it. */
  lemma Remove(head: int, s: seq<int>, next: Links, prev: Links, j: nat)
    requires IsRing(head, s, next, prev) && j < |s|
    ensures s[j] in next && s[j] in prev
    ensures var e := s[j];
            IsRing(head, Without(s, j), next[prev[e] := next[e]], prev[next[e] := prev[e]])
  {
    Neighbours(head, s, next, prev, j);
    var e, r := s[j], Without(s, j);
    var next', prev' := next[prev[e] := next[e]], prev[next[e] := prev[e]];
    forall i | 0 <= i <= |r|
      ensures Linked(head, r, i, next', prev')
    {
      RemoveLink(head, s, next, prev, j, i);
    }
  }

  /** lst_push: linking a fresh node between head and head.next puts it first. */
  lemma Push(head: int, s: seq<int>, next: Links, prev: Links, e: int)
    requires IsRing(head, s, next, prev) && e !in s && e != head
    ensures head in next
    ensures IsRing(head, [e] + s, next[e := next[head]][head := e], prev[e := head][next[head] := e])
  {
    var r := [e] + s;
    assert Linked(head, s, 0, next, prev);
    var next' := next[e := next[head]][head := e];
    var prev' := prev[e := head][next[head] := e];
    forall i | 0 <= i <= |r|
      ensures Linked(head, r, i, next', prev')
    {
      if i > 1 {
        assert Linked(head, s, i - 1, next, prev);
      }
    }
  }

  /** A ring is untouched by link updates at nodes that are not on it. */
  lemma Frame(head: int, s: seq<int>, next: Links, prev: Links, next': Links, prev': Links)
    requires IsRing(head, s, next, prev)
    requires forall x :: x == head || x in s ==>
                           && (x in next ==> x in next' && next'[x] == next[x])
                           && (x in prev ==> x in prev' && prev'[x] == prev[x])
    ensures IsRing(head, s, next', prev')
  {
    forall i | 0 <= i <= |s|
      ensures Linked(head, s, i, next', prev')
    {
      assert Linked(head, s, i, next, prev);
    }
  }
}
