/** The intrusive free lists of kernel/list.c.

  Several circular doubly linked lists share one memory: a node's links are
  stored in the free block itself, and an operation names only the node. The
  class keeps, for every head, the sequence of nodes its ring links.
 */
module List {
  import opened Common
  import opened Ring

  /** No node is on two lists, and no head is a node. */
  ghost predicate Apart(heads: seq<int>, lists: seq<seq<int>>) {
    && |heads| == |lists|
    && Distinct(heads)
    && (forall j, k, x :: 0 <= j < |lists| && 0 <= k < |lists| && x in lists[j] && x in lists[k] ==> j == k)
    && (forall j, k :: 0 <= j < |heads| && 0 <= k < |lists| ==> heads[j] !in lists[k])
  }

  ghost predicate Fresh(heads: seq<int>, lists: seq<seq<int>>, e: int) {
    e !in heads && forall k :: 0 <= k < |lists| ==> e !in lists[k]
  }

  ghost predicate Rings(heads: seq<int>, lists: seq<seq<int>>, next: Links, prev: Links)
    requires |heads| == |lists|
  {
    forall k :: 0 <= k < |lists| ==> IsRing(heads[k], lists[k], next, prev)
  }

  lemma PushKeeps(heads: seq<int>, lists: seq<seq<int>>, next: Links, prev: Links, k: nat, e: int)
    requires Apart(heads, lists) && Rings(heads, lists, next, prev) && k < |lists| && Fresh(heads, lists, e)
    ensures heads[k] in next
    ensures Apart(heads, lists[k := [e] + lists[k]])
    ensures Rings(heads, lists[k := [e] + lists[k]],
                  next[e := next[heads[k]]][heads[k] := e], prev[e := heads[k]][next[heads[k]] := e])
  {
    hide IsRing;
    var lists' := lists[k := [e] + lists[k]];
    Push(heads[k], lists[k], next, prev, e);
    FirstOf(heads[k], lists[k], next, prev);
    var next', prev' := next[e := next[heads[k]]][heads[k] := e], prev[e := heads[k]][next[heads[k]] := e];
    forall j | 0 <= j < |lists'|
      ensures IsRing(heads[j], lists'[j], next', prev')
    {
      if j != k {
        Frame(heads[j], lists[j], next, prev, next', prev');
      }
    }
  }

  lemma FirstOf(head: int, s: seq<int>, next: Links, prev: Links)
    requires IsRing(head, s, next, prev)
    ensures head in next && next[head] == if s == [] then head else s[0]
  {
    assert Linked(head, s, 0, next, prev);
  }

  lemma RemoveKeeps(heads: seq<int>, lists: seq<seq<int>>, next: Links, prev: Links, k: nat, at: nat)
    requires Apart(heads, lists) && Rings(heads, lists, next, prev) && k < |lists| && at < |lists[k]|
    ensures lists[k][at] in next && lists[k][at] in prev
    ensures Apart(heads, lists[k := Without(lists[k], at)])
    ensures var e := lists[k][at];
            Rings(heads, lists[k := Without(lists[k], at)], next[prev[e] := next[e]], prev[next[e] := prev[e]])
  {
    hide IsRing;
    var lists', e := lists[k := Without(lists[k], at)], lists[k][at];
    Remove(heads[k], lists[k], next, prev, at);
    Neighbours(heads[k], lists[k], next, prev, at);
    assert forall x :: x in lists'[k] ==> x in lists[k];
    var next', prev' := next[prev[e] := next[e]], prev[next[e] := prev[e]];
    forall j | 0 <= j < |lists'|
      ensures IsRing(heads[j], lists'[j], next', prev')
    {
      if j != k {
        assert prev[e] in lists[k] || prev[e] == heads[k];
        assert next[e] in lists[k] || next[e] == heads[k];
        Frame(heads[j], lists[j], next, prev, next', prev');
      }
    }
  }

  class FreeLists {
    const heads: seq<int>
    var next: Links
    var prev: Links
    ghost var lists: seq<seq<int>>

    ghost predicate Valid()
      reads this
    {
      Apart(heads, lists) && Rings(heads, lists, next, prev)
    }

    /** lst_init on every head. */
    constructor (heads: seq<int>)
      requires Distinct(heads)
      ensures Valid() && this.heads == heads && |lists| == |heads| && forall k :: 0 <= k < |lists| ==> lists[k] == []
    {
      this.heads := heads;
      next := map h | h in heads :: h;
      prev := map h | h in heads :: h;
      lists := seq(|heads|, k => []);
    }

    /** lst_empty */
    method Empty(k: nat) returns (r: bool)
      requires Valid() && k < |lists|
      ensures r <==> lists[k] == []
    {
      FirstOf(heads[k], lists[k], next, prev);
      r := next[heads[k]] == heads[k];
    }

    /** lst_push */
    method PushFront(k: nat, e: int)
      requires Valid() && k < |lists| && Fresh(heads, lists, e)
      modifies this
      ensures Valid() && lists == old(lists)[k := [e] + old(lists)[k]]
    {
      hide IsRing, Apart, Rings;
      PushKeeps(heads, lists, next, prev, k, e);
      Sizes(heads, lists);
      next, prev := next[e := next[heads[k]]][heads[k] := e], prev[e := heads[k]][next[heads[k]] := e];
      lists := lists[k := [e] + lists[k]];
    }

    static lemma Sizes(heads: seq<int>, lists: seq<seq<int>>)
      requires Apart(heads, lists)
      ensures |heads| == |lists|
    {
    }

    /** lst_remove: the caller names only the node. */
    method RemoveNode(e: int, ghost k: nat, ghost at: nat)
      requires Valid() && k < |lists| && at < |lists[k]| && lists[k][at] == e
      modifies this
      ensures Valid() && lists == old(lists)[k := Without(old(lists)[k], at)]
    {
      hide IsRing, Apart, Rings;
      RemoveKeeps(heads, lists, next, prev, k, at);
      next, prev := next[prev[e] := next[e]], prev[next[e] := prev[e]];
      lists := lists[k := Without(lists[k], at)];
    }

    /** lst_pop, on a list that is not empty. */
    method Pop(k: nat) returns (e: int)
      requires Valid() && k < |lists| && lists[k] != []
      modifies this
      ensures Valid() && e == old(lists)[k][0] && lists == old(lists)[k := old(lists)[k][1..]]
    {
      FirstOf(heads[k], lists[k], next, prev);
      e := next[heads[k]];
      assert Without(lists[k], 0) == lists[k][1..];
      RemoveNode(e, k, 0);
    }
  }
}
