/** Rings and descriptor chains of a virtio queue (kernel/virtio_disk.c; section 2.6 of
  Virtual I/O Device version 1.1), as values.
 */
module VirtioRing {
  import opened Common

  const NUM := 8

  // ---------------------------------------------------------------- rings

  /** From position `start` on, modulo NUM, the ring holds q. */
  ghost predicate Holds(ring: seq<int>, start: nat, q: seq<int>) {
    |ring| == NUM && forall k :: 0 <= k < |q| ==> ring[(start + k) % NUM] == q[k]
  }

  lemma Push(ring: seq<int>, start: nat, q: seq<int>, x: int)
    requires Holds(ring, start, q) && |q| < NUM
    ensures |ring| == NUM && Holds(ring[(start + |q|) % NUM := x], start, q + [x])
  {
  }

  lemma Pop(ring: seq<int>, start: nat, q: seq<int>)
    requires Holds(ring, start, q) && q != []
    ensures ring[start % NUM] == q[0] && Holds(ring, start + 1, q[1..])
  {
  }

  /** A 16-bit ring index. */
  function Wrap16(n: nat): int { n % 0x1_0000 }

  function Inc16(idx: int): int { (idx + 1) % 0x1_0000 }

  /** The place of a ring index in the ring. */
  function Slot(idx: int): (i: int)
    ensures 0 <= i < NUM
  {
    idx % NUM
  }

  lemma WrapSteps(n: nat)
    ensures Slot(Wrap16(n)) == Slot(n) && Inc16(Wrap16(n)) == Wrap16(n + 1) && Slot(Slot(n) + 1) == Slot(n + 1)
            && Slot(Slot(n)) == Slot(n)
  {
  }

  /** The ring holds q from `start` on, and idx, a 16-bit counter, is where the next entry goes. */
  ghost predicate RingOk(ring: seq<int>, idx: int, start: nat, q: seq<int>) {
    Holds(ring, start, q) && idx == Wrap16(start + |q|)
  }

  lemma RingPush(ring: seq<int>, idx: int, start: nat, q: seq<int>, x: int)
    requires RingOk(ring, idx, start, q) && |q| < NUM
    ensures |ring| == NUM && RingOk(ring[Slot(idx) := x], Inc16(idx), start, q + [x])
  {
    hide Holds, Wrap16;
    Push(ring, start, q, x);
    WrapSteps(start + |q|);
    assert |q + [x]| == |q| + 1;
  }

  lemma RingPop(ring: seq<int>, idx: int, start: nat, q: seq<int>)
    requires RingOk(ring, idx, start, q) && q != []
    ensures |ring| == NUM && ring[Slot(start)] == q[0] && RingOk(ring, idx, start + 1, q[1..])
  {
  }

  lemma RingIndex(ring: seq<int>, idx: int, start: nat, q: seq<int>)
    requires RingOk(ring, idx, start, q)
    ensures idx == Wrap16(start + |q|) && |ring| == NUM
  {
  }

  /** Nothing in the ring: the counters agree. */
  lemma RingEmpty(ring: seq<int>, idx: int, start: nat, q: seq<int>)
    requires RingOk(ring, idx, start, q)
    ensures idx != Wrap16(start) ==> q != []
  {
  }

  /** With fewer than NUM outstanding, comparing positions modulo NUM is exact, whatever
      the 16-bit counters have wrapped to. */
  lemma ModuloIsExact(seen: nat, done: nat)
    requires seen <= done < seen + NUM
    ensures Slot(Slot(seen)) != Slot(Wrap16(done)) <==> seen != done
  {
  }

  // ---------------------------------------------------------------- chains

  datatype Phase = Queued | Taken | Done | Seen

  /** A request: its buffer, what to do with it, the second and third descriptor, and how
      far it has come. */
  datatype Req = Req(b: int, sector: int, write: bool, i1: int, i2: int, phase: Phase)

  ghost predicate ChainOk(owner: map<int, int>, h: int, r: Req) {
    && h != r.i1 && h != r.i2 && r.i1 != r.i2
    && h in owner && r.i1 in owner && r.i2 in owner
    && owner[h] == h && owner[r.i1] == h && owner[r.i2] == h
  }

  ghost predicate OwnerOk(owner: map<int, int>, reqs: map<int, Req>, i: int)
    requires i in owner
  {
    0 <= i < NUM && owner[i] in reqs && (i == owner[i] || i == reqs[owner[i]].i1 || i == reqs[owner[i]].i2)
  }

  /** Descriptors in use are partitioned into chains of three. */
  ghost predicate Chains(owner: map<int, int>, reqs: map<int, Req>) {
    && (forall h :: h in reqs ==> ChainOk(owner, h, reqs[h]))
    && (forall i :: i in owner ==> OwnerOk(owner, reqs, i))
  }

  /** Three descriptors for each request. */
  lemma {:induction false} CountChains(owner: map<int, int>, reqs: map<int, Req>)
    requires Chains(owner, reqs)
    ensures |owner.Keys| == 3 * |reqs.Keys|
    decreases reqs.Keys
  {
    if reqs.Keys == {} {
      NoChains(owner, reqs);
    } else {
      var h := Pick(reqs.Keys);
      assert ChainOk(owner, h, reqs[h]);
      DropChain(owner, reqs, h);
      var three := {h, reqs[h].i1, reqs[h].i2};
      CountChains(owner - three, reqs - {h});
      assert (owner - three).Keys == owner.Keys - three && three <= owner.Keys;
      assert (reqs - {h}).Keys == reqs.Keys - {h};
    }
  }

  lemma NoChains(owner: map<int, int>, reqs: map<int, Req>)
    requires Chains(owner, reqs) && reqs.Keys == {}
    ensures owner.Keys == {}
  {
    if owner.Keys != {} {
      var i := Pick(owner.Keys);
      assert false;
    }
  }

  lemma DropChain(owner: map<int, int>, reqs: map<int, Req>, h: int)
    requires Chains(owner, reqs) && h in reqs
    ensures Chains(owner - {h, reqs[h].i1, reqs[h].i2}, reqs - {h})
  {
  }

  /** Three free descriptors become a chain. */
  lemma AddChain(owner: map<int, int>, reqs: map<int, Req>, h: int, r: Req)
    requires Chains(owner, reqs) && h !in owner && r.i1 !in owner && r.i2 !in owner && h != r.i1 && h != r.i2
             && r.i1 != r.i2
    requires 0 <= h < NUM && 0 <= r.i1 < NUM && 0 <= r.i2 < NUM
    ensures h !in reqs && Chains(owner[h := h][r.i1 := h][r.i2 := h], reqs[h := r])
  {
  }

  /** Chains do not depend on the progress of the requests. */
  lemma SamePhase(owner: map<int, int>, reqs: map<int, Req>, h: int, phase: Phase)
    requires Chains(owner, reqs) && h in reqs
    ensures Chains(owner, reqs[h := reqs[h].(phase := phase)])
  {
  }

  /** At most NUM/3 requests are in flight. */
  lemma InFlight(owner: map<int, int>, reqs: map<int, Req>)
    requires Chains(owner, reqs)
    ensures |reqs.Keys| <= NUM / 3
  {
    CountChains(owner, reqs);
    forall i | i in owner.Keys
      ensures i in {0, 1, 2, 3, 4, 5, 6, 7}
    {
      assert OwnerOk(owner, reqs, i);
    }
    SubsetCard(owner.Keys, {0, 1, 2, 3, 4, 5, 6, 7});
  }

  // ---------------------------------------------------------------- lists of requests in one phase

  /** q lists the requests in the given phase, each once. */
  ghost predicate Lists(q: seq<int>, reqs: map<int, Req>, phase: Phase) {
    && (forall i, j :: 0 <= i < j < |q| ==> q[i] != q[j])
    && (forall h :: h in q <==> h in reqs && reqs[h].phase == phase)
  }

  lemma {:induction false} ListLength(q: seq<int>, s: set<int>)
    requires (forall i, j :: 0 <= i < j < |q| ==> q[i] != q[j]) && forall i :: 0 <= i < |q| ==> q[i] in s
    ensures |q| <= |s|
    decreases |q|
  {
    if q != [] {
      var n := |q| - 1;
      ListLength(q[..n], s - {q[n]});
    }
  }

  lemma ShortList(q: seq<int>, owner: map<int, int>, reqs: map<int, Req>, phase: Phase)
    requires Chains(owner, reqs) && Lists(q, reqs, phase)
    ensures |q| <= NUM / 3
  {
    InFlight(owner, reqs);
    assert forall i :: 0 <= i < |q| ==> q[i] in q;
    ListLength(q, reqs.Keys);
  }

  lemma Listed(q: seq<int>, reqs: map<int, Req>, phase: Phase)
    requires Lists(q, reqs, phase) && q != []
    ensures q[0] in reqs && reqs[q[0]].phase == phase
  {
  }

  lemma Enlist(q: seq<int>, reqs: map<int, Req>, phase: Phase, h: int, r: Req)
    requires Lists(q, reqs, phase) && (h in reqs ==> reqs[h].phase != phase) && r.phase == phase
    ensures Lists(q + [h], reqs[h := r], phase)
  {
  }

  lemma Delist(q: seq<int>, reqs: map<int, Req>, phase: Phase, r: Req)
    requires Lists(q, reqs, phase) && q != [] && r.phase != phase
    ensures Lists(q[1..], reqs[q[0] := r], phase)
  {
  }

  /** A request that stays outside the phase does not matter to the list. */
  lemma Unlisted(q: seq<int>, reqs: map<int, Req>, phase: Phase, h: int, r: Req)
    requires Lists(q, reqs, phase) && (h in reqs ==> reqs[h].phase != phase) && r.phase != phase
    ensures Lists(q, reqs[h := r], phase)
  {
  }

  lemma Dropped(q: seq<int>, reqs: map<int, Req>, phase: Phase, h: int)
    requires Lists(q, reqs, phase) && h in reqs && reqs[h].phase != phase
    ensures Lists(q, reqs - {h}, phase)
  {
  }
}
