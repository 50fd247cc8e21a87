/** The buffer cache (kernel/bio.c).

  A fixed set of buffers, threaded on an LRU ring, caches disk blocks. To its
  clients the cache is transparent: it has a current contents for every block
  (`view`), of which the disk may hold an older version only while the block's
  buffer is referenced. `refs` and `held` are what clients know of the
  reference counts and the buffer sleep-locks.
 */
module Bio {
  import opened Common
  import Ring

  type Block = seq<int>

  datatype Id = Id(dev: int, blockno: int)

  datatype Buf = Buf(id: Id, valid: bool, refcnt: int, locked: bool, data: Block)

  /** What clients see: the disk, the latest contents of every block, the
      reference count of every block's buffer, and the blocks whose buffer is
      locked. */
  datatype CacheState = CacheState(disk: map<Id, Block>, view: map<Id, Block>, refs: map<Id, int>, held: set<Id>)

  ghost predicate Shape(a: CacheState) {
    a.view.Keys == a.disk.Keys && a.refs.Keys == a.disk.Keys && a.held <= a.disk.Keys
  }

  ghost predicate Cached(buf: seq<Buf>, id: Id) {
    exists i :: 0 <= i < |buf| && buf[i].valid && buf[i].id == id
  }

  /** A single buffer agrees with the client's view: only a referenced buffer may
      differ from the disk. */
  ghost predicate BufOk(b: Buf, a: CacheState) {
    && 0 <= b.refcnt < UINT32
    && (b.refcnt != 0 || b.locked ==> b.valid)
    && (b.valid ==>
          && b.id in a.disk && b.id in a.view && b.id in a.refs
          && b.data == a.view[b.id]
          && b.refcnt == a.refs[b.id]
          && (b.locked <==> b.id in a.held)
          && (b.refcnt == 0 ==> b.data == a.disk[b.id]))
  }

  /** The buffers, in ring order, represent the client's view. No buffer behind
      another one with the same identity holds anything, so two valid buffers
      never cache the same block, and bget's first hit is the valid one. */
  ghost predicate Agree(buf: seq<Buf>, order: seq<int>, a: CacheState) {
    && Distinct(order)
    && (forall i :: 0 <= i < |order| ==> 0 <= order[i] < |buf|)
    && (forall b :: 0 <= b < |buf| ==> b in order)
    && (forall i, j :: 0 <= i < j < |order| && buf[order[i]].id == buf[order[j]].id ==> !buf[order[j]].valid)
    && (forall i :: 0 <= i < |buf| ==> BufOk(buf[i], a))
    && (forall k :: k in a.disk && k in a.view && k in a.refs && !Cached(buf, k) ==>
                      a.view[k] == a.disk[k] && a.refs[k] == 0 && k !in a.held)
  }

  ghost predicate SameElsewhere(a: CacheState, a': CacheState, k: Id)
    requires Shape(a) && Shape(a')
  {
    && a'.disk.Keys == a.disk.Keys
    && forall x :: x in a.disk && x != k ==>
                     && a'.disk[x] == a.disk[x] && a'.view[x] == a.view[x] && a'.refs[x] == a.refs[x]
                     && (x in a'.held <==> x in a.held)
  }

  /** The first buffer of the ring with an identity may be changed alone. */
  lemma ChangeFirst(buf: seq<Buf>, order: seq<int>, a: CacheState, p: nat, b: Buf, a': CacheState)
    requires Shape(a) && Shape(a') && Agree(buf, order, a)
    requires p < |order| && 0 <= order[p] < |buf| && b.id == buf[order[p]].id && b.id in a.disk && b.valid
    requires forall q :: 0 <= q < p ==> 0 <= order[q] < |buf| && buf[order[q]].id != b.id
    requires SameElsewhere(a, a', b.id) && BufOk(b, a')
    ensures Agree(buf[order[p] := b], order, a')
  {
    var buf' := buf[order[p] := b];
    forall i | 0 <= i < |buf'|
      ensures BufOk(buf'[i], a')
    {
      assert i in order && BufOk(buf[i], a);
    }
    forall x | x in a'.disk
      ensures Cached(buf', x) || (a'.view[x] == a'.disk[x] && a'.refs[x] == 0 && x !in a'.held)
    {
      assert buf'[order[p]].id == b.id;
      if Cached(buf, x) {
        var i :| 0 <= i < |buf| && buf[i].valid && buf[i].id == x;
        assert buf'[i].valid && buf'[i].id == x;
      }
    }
  }

  lemma ValidIsFirst(buf: seq<Buf>, order: seq<int>, a: CacheState, b: nat) returns (p: nat)
    requires Agree(buf, order, a) && b < |buf| && buf[b].valid
    ensures p < |order| && order[p] == b
    ensures forall q :: 0 <= q < p ==> 0 <= order[q] < |buf| && buf[order[q]].id != buf[b].id
    ensures BufOk(buf[b], a)
  {
    assert b in order;
    p :| 0 <= p < |order| && order[p] == b;
  }

  /** The buffer that caches a block may be changed alone. */
  lemma Change(buf: seq<Buf>, order: seq<int>, a: CacheState, i: nat, b: Buf, a': CacheState)
    requires Shape(a) && Shape(a') && Agree(buf, order, a)
    requires i < |buf| && buf[i].valid && b.id == buf[i].id && b.id in a.disk && b.valid
    requires SameElsewhere(a, a', b.id) && BufOk(b, a')
    ensures Agree(buf[i := b], order, a')
  {
    var p := ValidIsFirst(buf, order, a, i);
    ChangeFirst(buf, order, a, p, b, a');
  }

  /** A locked buffer is valid and agrees with the client's view. */
  lemma Locked(buf: seq<Buf>, order: seq<int>, a: CacheState, i: nat)
    requires Agree(buf, order, a) && i < |buf| && (buf[i].locked || buf[i].refcnt != 0 || buf[i].valid)
    ensures buf[i].valid && BufOk(buf[i], a)
  {
  }

  /** The first buffer of the ring with an identity is the one that caches the block, if any does. */
  lemma FirstIsValid(buf: seq<Buf>, order: seq<int>, a: CacheState, p: nat)
    requires Shape(a) && Agree(buf, order, a)
    requires p < |order| && 0 <= order[p] < |buf| && buf[order[p]].id in a.disk
    requires forall q :: 0 <= q < p ==> 0 <= order[q] < |buf| && buf[order[q]].id != buf[order[p]].id
    ensures var b := buf[order[p]];
            && b.refcnt == a.refs[b.id] && 0 <= b.refcnt < UINT32
            && a.view[b.id] == if b.valid then b.data else a.disk[b.id]
  {
    var b := buf[order[p]];
    assert BufOk(b, a);
    if !b.valid {
      forall j | 0 <= j < |buf| && buf[j].id == b.id
        ensures !buf[j].valid
      {
        assert j in order;
      }
      assert !Cached(buf, b.id);
    }
  }

  /** A hit in bget: the buffer gains a reference, and is filled if it was never used. */
  lemma Hit(buf: seq<Buf>, order: seq<int>, a: CacheState, p: nat, rc: int)
    requires Shape(a) && Agree(buf, order, a)
    requires p < |order| && 0 <= order[p] < |buf| && buf[order[p]].id in a.disk
    requires forall q :: 0 <= q < p ==> 0 <= order[q] < |buf| && buf[order[q]].id != buf[order[p]].id
    requires 0 <= rc < UINT32 && (rc == 0 ==> a.view[buf[order[p]].id] == a.disk[buf[order[p]].id])
    ensures var id := buf[order[p]].id;
            Agree(buf[order[p] := Buf(id, true, rc, true, a.view[id])], order,
                  CacheState(a.disk, a.view, a.refs[id := rc], a.held + {id}))
  {
    hide Agree;
    var id := buf[order[p]].id;
    ChangeFirst(buf, order, a, p, Buf(id, true, rc, true, a.view[id]),
                CacheState(a.disk, a.view, a.refs[id := rc], a.held + {id}));
  }

  /** A miss in bget: an unreferenced buffer is recycled for a block no buffer has. */
  lemma Recycle(buf: seq<Buf>, order: seq<int>, a: CacheState, i: nat, id: Id)
    requires Shape(a) && Agree(buf, order, a)
    requires i < |buf| && buf[i].refcnt == 0 && id in a.disk
    requires forall k :: k in a.held ==> a.refs[k] != 0
    requires forall j :: 0 <= j < |buf| ==> buf[j].id != id
    ensures a.refs[id] == 0 && a.view[id] == a.disk[id]
    ensures Agree(buf[i := Buf(id, true, 1, true, a.disk[id])], order,
                  CacheState(a.disk, a.view, a.refs[id := 1], a.held + {id}))
  {
    var b := Buf(id, true, 1, true, a.disk[id]);
    var buf', a' := buf[i := b], CacheState(a.disk, a.view, a.refs[id := 1], a.held + {id});
    assert !Cached(buf, id);
    forall j | 0 <= j < |buf'|
      ensures BufOk(buf'[j], a')
    {
      assert BufOk(buf[j], a);
    }
    forall x | x in a.disk
      ensures Cached(buf', x) || (a'.view[x] == a'.disk[x] && a'.refs[x] == 0 && x !in a'.held)
    {
      RecycleCoverage(buf, order, a, i, id, x);
    }
  }

  lemma RecycleCoverage(buf: seq<Buf>, order: seq<int>, a: CacheState, i: nat, id: Id, x: Id)
    requires Shape(a) && Agree(buf, order, a)
    requires i < |buf| && buf[i].refcnt == 0 && id in a.disk && x in a.disk
    requires forall k :: k in a.held ==> a.refs[k] != 0
    ensures x == id || Cached(buf[i := Buf(id, true, 1, true, a.disk[id])], x)
            || (a.view[x] == a.disk[x] && a.refs[x] == 0 && x !in a.held)
    ensures Cached(buf[i := Buf(id, true, 1, true, a.disk[id])], id)
  {
    var buf' := buf[i := Buf(id, true, 1, true, a.disk[id])];
    assert buf'[i].valid && buf'[i].id == id;
    if Cached(buf, x) {
      var j :| 0 <= j < |buf| && buf[j].valid && buf[j].id == x;
      assert BufOk(buf[j], a);
      if j != i {
        assert buf'[j].valid && buf'[j].id == x;
      }
    }
  }

  /** Moving a valid buffer to the front of the ring keeps the agreement. */
  lemma FrontKeepsAgree(buf: seq<Buf>, order: seq<int>, a: CacheState, j: nat)
    requires Agree(buf, order, a) && j < |order| && buf[order[j]].valid
    ensures Agree(buf, [order[j]] + Ring.Without(order, j), a)
  {
    var order' := [order[j]] + Ring.Without(order, j);
    forall b | 0 <= b < |buf|
      ensures b in order'
    {
      assert b in order;
      var i :| 0 <= i < |order| && order[i] == b;
      assert if i == j then order'[0] == b else if i < j then order'[i + 1] == b else order'[i] == b;
    }
    forall p, q | 0 <= p < q < |order'|
      ensures order'[p] != order'[q]
      ensures buf[order'[p]].id == buf[order'[q]].id ==> !buf[order'[q]].valid
    {
      var q0 := if q - 1 < j then q - 1 else q;
      var p0 := if p == 0 then j else if p - 1 < j then p - 1 else p;
      assert order'[q] == order[q0] && order'[p] == order[p0] && p0 != q0;
    }
  }

  // ---------------------------------------------------------------- how many buffers are referenced

  /** The number of blocks whose buffer is referenced. */
  ghost function Busy(refs: map<Id, int>): nat {
    |set id | id in refs && refs[id] != 0|
  }

  lemma BusyUpdate(refs: map<Id, int>, id: Id, v: int)
    requires id in refs
    ensures Busy(refs[id := v]) == Busy(refs) - (if refs[id] != 0 then 1 else 0) + (if v != 0 then 1 else 0)
  {
    var refs' := refs[id := v];
    var s, s' := set x | x in refs && refs[x] != 0, set x | x in refs' && refs'[x] != 0;
    assert s - {id} == s' - {id};
    assert s == if refs[id] != 0 then (s - {id}) + {id} else s - {id};
    assert s' == if v != 0 then (s' - {id}) + {id} else s' - {id};
  }

  /** The block x has a referenced buffer among the first k. */
  ghost predicate HasBuffer(buf: seq<Buf>, k: nat, x: Id)
    requires k <= |buf|
  {
    exists i :: 0 <= i < k && buf[i].refcnt != 0 && buf[i].id == x
  }

  ghost predicate NoTwins(buf: seq<Buf>) {
    forall i, j :: 0 <= i < j < |buf| && buf[i].refcnt != 0 && buf[j].refcnt != 0 ==> buf[i].id != buf[j].id
  }

  ghost predicate AllReferenced(buf: seq<Buf>, k: nat)
    requires k <= |buf|
  {
    forall i :: 0 <= i < k ==> buf[i].refcnt != 0
  }

  ghost function Referenced(buf: seq<Buf>, k: nat): set<Id>
    requires k <= |buf|
  {
    if k == 0 then {}
    else if buf[k - 1].refcnt != 0 then Referenced(buf, k - 1) + {buf[k - 1].id}
    else Referenced(buf, k - 1)
  }

  lemma {:induction false} InReferenced(buf: seq<Buf>, k: nat, x: Id)
    requires k <= |buf|
    ensures x in Referenced(buf, k) <==> HasBuffer(buf, k, x)
  {
    if k > 0 {
      InReferenced(buf, k - 1, x);
    }
  }

  /** The blocks with a referenced buffer among the first k are k exactly if all of these are referenced. */
  lemma {:induction false} ReferencedCount(buf: seq<Buf>, k: nat)
    requires k <= |buf| && NoTwins(buf)
    ensures |Referenced(buf, k)| <= k
    ensures |Referenced(buf, k)| == k <==> AllReferenced(buf, k)
  {
    if k > 0 {
      ReferencedCount(buf, k - 1);
      InReferenced(buf, k - 1, buf[k - 1].id);
    }
  }

  lemma AgreeNoTwins(buf: seq<Buf>, order: seq<int>, a: CacheState)
    requires Agree(buf, order, a)
    ensures NoTwins(buf)
  {
    forall i, j | 0 <= i < j < |buf| && buf[i].refcnt != 0 && buf[j].refcnt != 0
      ensures buf[i].id != buf[j].id
    {
      assert BufOk(buf[i], a) && BufOk(buf[j], a);
      var p := ValidIsFirst(buf, order, a, i);
      var q := ValidIsFirst(buf, order, a, j);
    }
  }

  lemma AgreeHasBuffer(buf: seq<Buf>, order: seq<int>, a: CacheState, x: Id)
    requires Shape(a) && Agree(buf, order, a)
    ensures HasBuffer(buf, |buf|, x) <==> x in a.refs && a.refs[x] != 0
  {
    if x in a.refs && a.refs[x] != 0 {
      assert Cached(buf, x);
      var i :| 0 <= i < |buf| && buf[i].valid && buf[i].id == x;
      assert BufOk(buf[i], a);
    }
    if HasBuffer(buf, |buf|, x) {
      var i :| 0 <= i < |buf| && buf[i].refcnt != 0 && buf[i].id == x;
      assert BufOk(buf[i], a);
    }
  }

  /** A cache has a free buffer exactly if fewer blocks are referenced than there are buffers. */
  lemma BusyBuffers(buf: seq<Buf>, order: seq<int>, a: CacheState)
    requires Shape(a) && Agree(buf, order, a)
    ensures Busy(a.refs) <= |buf|
    ensures Busy(a.refs) == |buf| <==> AllReferenced(buf, |buf|)
  {
    hide Agree, HasBuffer, NoTwins;
    AgreeNoTwins(buf, order, a);
    ReferencedCount(buf, |buf|);
    forall x
      ensures x in Referenced(buf, |buf|) <==> x in a.refs && a.refs[x] != 0
    {
      InReferenced(buf, |buf|, x);
      AgreeHasBuffer(buf, order, a, x);
    }
    assert Referenced(buf, |buf|) == set id | id in a.refs && a.refs[id] != 0;
  }

  /** b is the buffer for this block nearest the front of the ring. */
  ghost predicate FirstFor(buf: seq<Buf>, order: seq<int>, id: Id, b: int) {
    exists i :: && 0 <= i < |order| && order[i] == b && 0 <= b < |buf| && buf[b].id == id
                && forall j :: 0 <= j < i ==> 0 <= order[j] < |buf| && buf[order[j]].id != id
  }

  /** b is the unreferenced buffer nearest the end of the ring: the least recently released. */
  ghost predicate LastUnused(buf: seq<Buf>, order: seq<int>, b: int) {
    exists i :: && 0 <= i < |order| && order[i] == b && 0 <= b < |buf| && buf[b].refcnt == 0
                && forall j :: i < j < |order| ==> 0 <= order[j] < |buf| && buf[order[j]].refcnt != 0
  }

  /** b has moved to the front, the others keep their order. */
  ghost predicate ToFront(order: seq<int>, order': seq<int>, b: int) {
    exists i :: 0 <= i < |order| && order[i] == b && order' == [b] + order[..i] + order[i + 1..]
  }

  class BufferCache {
    const n: nat                     // NBUF
    var disk: map<Id, Block>         // the device behind virtio_disk_rw
    var buf: seq<Buf>
    var next: Ring.Links             // links of buffers 0..n-1 and of the list head, n
    var prev: Ring.Links
    ghost var order: seq<int>        // the ring from head.next, most recently used first
    ghost var view: map<Id, Block>
    ghost var refs: map<Id, int>
    ghost var held: set<Id>

    ghost function A(): CacheState
      reads this
    {
      CacheState(disk, view, refs, held)
    }

    ghost predicate Valid()
      reads this
    {
      && |buf| == n && |order| == n
      && Shape(A()) && Agree(buf, order, A())
      && Ring.IsRing(n, order, next, prev)
    }

    /** binit: every buffer starts unused, with identity (0, 0). */
    constructor (n: nat, disk: map<Id, Block>)
      ensures Valid() && this.n == n && this.disk == disk && view == disk
      ensures held == {} && (forall k :: k in disk ==> refs[k] == 0)
      ensures forall i :: 0 <= i < n ==> buf[i].refcnt == 0
    {
      this.n := n;
      this.disk := disk;
      buf := seq(n, i => Buf(Id(0, 0), false, 0, false, []));
      next, prev := map[n as int := n as int], map[n as int := n as int];
      order := [];
      view := disk;
      refs := map k | k in disk :: 0;
      held := {};
      new;
      var b := 0;
      while b < n
        invariant 0 <= b <= n && |order| == b
        invariant forall i :: 0 <= i < b ==> order[i] == b - 1 - i
        invariant Ring.IsRing(n, order, next, prev)
        invariant buf == seq(n, i => Buf(Id(0, 0), false, 0, false, []))
        invariant this.disk == view == disk && held == {} && refs == map k | k in disk :: 0
      {
        hide Ring.IsRing;
        Ring.Push(n, order, next, prev, b);
        next, prev := next[b := next[n]][n := b], prev[b := n][next[n] := b];
        order := [b] + order;
        b := b + 1;
      }
      forall b | 0 <= b < n
        ensures b in order
      {
        assert order[n - 1 - b] == b;
      }
    }

    /** First scan of bget: the buffer with this identity nearest the front of
        the ring, with its position. */
    method Find(id: Id) returns (b: int, ghost i: int)
      requires Valid()
      ensures 0 <= b <= n && 0 <= i <= n
      ensures b == n ==> forall j :: 0 <= j < n ==> buf[j].id != id
      ensures b < n ==> i < n && order[i] == b && buf[b].id == id && forall j :: 0 <= j < i ==>
              0 <= order[j] < n && buf[order[j]].id != id
      ensures b < n ==> FirstFor(buf, order, id, b)
    {
      assert Ring.Linked(n, order, 0, next, prev);
      b, i := next[n], 0;
      while b != n
        invariant 0 <= i <= n && b == Ring.Node(n, order, i)
        invariant forall j :: 0 <= j < i ==> buf[order[j]].id != id
        decreases n - i
      {
        assert b == order[i];
        if buf[b].id == id {
          return;
        }
        assert Ring.Linked(n, order, i + 1, next, prev);
        b, i := next[b], i + 1;
      }
      forall j | 0 <= j < n
        ensures buf[j].id != id
      {
        assert j in order;
      }
    }

    /** Second scan of bget: the least recently used buffer nobody references. */
    method FindUnused() returns (b: int)
      requires Valid()
      ensures 0 <= b <= n
      ensures b < n ==> buf[b].refcnt == 0
      ensures b == n ==> forall j :: 0 <= j < n ==> buf[j].refcnt != 0
      ensures b < n ==> LastUnused(buf, order, b)
    {
      assert Ring.Linked(n, order, n, next, prev);
      b := prev[n];
      ghost var i := n - 1;
      while b != n
        invariant -1 <= i < n && b == Ring.Node(n, order, i)
        invariant forall j :: i < j < n ==> buf[order[j]].refcnt != 0
        decreases i
      {
        assert b == order[i];
        if buf[b].refcnt == 0 {
          return;
        }
        assert Ring.Linked(n, order, i, next, prev);
        b, i := prev[b], i - 1;
      }
      forall j | 0 <= j < n
        ensures buf[j].refcnt != 0
      {
        assert j in order;
      }
    }

    /** bread, with bget inlined: a locked buffer holding the latest contents of
        the block, or None where the kernel panics because every buffer is
        referenced. Waiting for the buffer's sleep-lock is not modelled, so the
        block must not be held. */
    method Bread(id: Id) returns (r: Option<int>)
      requires Valid() && id in disk && id !in held
      requires refs[id] == UINT32 - 1 ==> view[id] == disk[id]
      requires forall k :: k in held ==> refs[k] != 0
      modifies this
      ensures Valid() && disk == old(disk) && view == old(view)
      ensures r.None? <==> old(refs)[id] == 0 && Busy(old(refs)) == n
      ensures r.None? ==> unchanged(this)
      ensures r.Some? ==> var b := r.value;
                          && 0 <= b < n
                          && refs == old(refs)[id := Inc32(old(refs)[id])]
                          && held == old(held) + {id}
                          && buf == old(buf)[b := Buf(id, true, refs[id], true, view[id])]
                          && (if exists j :: 0 <= j < n && old(buf)[j].id == id then FirstFor(old(buf), order, id, b)
                              else LastUnused(old(buf), order, b))
      ensures order == old(order) && next == old(next) && prev == old(prev)
    {
      hide Agree, Ring.IsRing, FirstFor, LastUnused;
      FullCache(id);
      var b; ghost var i;
      b, i := Find(id);
      if b < n {
        var rc := Inc32(buf[b].refcnt);
        var data := if buf[b].valid then buf[b].data else disk[id];
        FirstIsValid(buf, order, A(), i);
        Hit(buf, order, A(), i, rc);
        buf := buf[b := Buf(id, true, rc, true, data)];
        refs := refs[id := rc];
        held := held + {id};
        return Some(b);
      }
      b := Claim(id);
      r := if b == n then None else Some(b);
    }

    /** bget finds no buffer for a block exactly if all are referenced and the block's is not among them. */
    lemma FullCache(id: Id)
      requires Valid() && id in disk
      ensures Busy(refs) <= n
      ensures refs[id] == 0 && Busy(refs) == n <==> forall i :: 0 <= i < n ==> buf[i].refcnt != 0 && buf[i].id != id
    {
      BusyBuffers(buf, order, A());
      forall i | 0 <= i < n
        ensures buf[i].refcnt != 0 && refs[id] == 0 ==> buf[i].id != id
      {
        assert BufOk(buf[i], A());
      }
      if refs[id] != 0 {
        ReferencedIsCached(id);
      }
    }

    /** The miss path of bget and bread: recycle a buffer and fill it from the disk. */
    method Claim(id: Id) returns (b: int)
      requires Valid() && id in disk && forall j :: 0 <= j < n ==> buf[j].id != id
      requires forall k :: k in held ==> refs[k] != 0
      modifies this`buf, this`refs, this`held
      ensures Valid() && 0 <= b <= n
      ensures b == n <==> forall j :: 0 <= j < n ==> old(buf)[j].refcnt != 0
      ensures b == n ==> unchanged(this)
      ensures b < n ==> && old(refs)[id] == 0 && view[id] == disk[id]
                        && refs == old(refs)[id := 1] && held == old(held) + {id}
                        && buf == old(buf)[b := Buf(id, true, 1, true, disk[id])]
                        && LastUnused(old(buf), order, b)
    {
      hide Agree, Ring.IsRing;
      b := FindUnused();
      if b < n {
        Recycle(buf, order, A(), b, id);
        buf := buf[b := Buf(id, true, 1, true, disk[id])];
        refs := refs[id := 1];
        held := held + {id};
      }
    }

    /** The client's stores into b->data. */
    method SetData(b: int, data: Block)
      requires Valid() && 0 <= b < n && buf[b].locked && buf[b].refcnt != 0
      modifies this`buf, this`view
      ensures Valid() && view == old(view)[buf[b].id := data]
      ensures buf == old(buf)[b := old(buf[b]).(data := data)]
    {
      hide Agree, Ring.IsRing;
      Locked(buf, order, A(), b);
      var b' := buf[b].(data := data);
      Change(buf, order, A(), b, b', CacheState(disk, view[b'.id := data], refs, held));
      view := view[b'.id := data];
      buf := buf[b := b'];
    }

    /** bwrite: the buffer's contents reach the disk; nothing else changes. */
    method Bwrite(b: int)
      requires Valid() && 0 <= b < n && buf[b].locked
      modifies this`disk
      ensures Valid() && disk == old(disk)[buf[b].id := buf[b].data]
    {
      hide Agree, Ring.IsRing;
      Locked(buf, order, A(), b);
      Change(buf, order, A(), b, buf[b], CacheState(disk[buf[b].id := buf[b].data], view, refs, held));
      assert buf[b := buf[b]] == buf;
      disk := disk[buf[b].id := buf[b].data];
    }

    /** brelse: dropping the last reference to a buffer the disk does not yet
        agree with would lose the change, so callers must have written it. */
    method Brelse(b: int)
      requires Valid() && 0 <= b < n && buf[b].locked && buf[b].id in disk
      requires buf[b].refcnt == 1 ==> buf[b].data == disk[buf[b].id]
      modifies this
      ensures Valid() && disk == old(disk) && view == old(view)
      ensures refs == old(refs)[old(buf[b].id) := Dec32(old(refs[buf[b].id]))]
      ensures held == old(held) - {old(buf[b].id)}
      ensures buf == old(buf)[b := old(buf[b]).(refcnt := Dec32(old(buf[b].refcnt)), locked := false)]
      ensures if buf[b].refcnt == 0 then ToFront(old(order), order, b) else order == old(order)
    {
      hide Agree, Ring.IsRing;
      Locked(buf, order, A(), b);
      var rc := Dec32(buf[b].refcnt);
      var b' := buf[b].(refcnt := rc, locked := false);
      Change(buf, order, A(), b, b', CacheState(disk, view, refs[b'.id := rc], held - {b'.id}));
      buf := buf[b := b'];
      refs := refs[b'.id := rc];
      held := held - {b'.id};
      if rc == 0 {
        MoveToFront(b);
      }
    }

    /** The link surgery at the end of brelse: the buffer moves to the front of the ring. */
    method MoveToFront(b: int)
      requires Valid() && 0 <= b < n && buf[b].valid
      modifies this`next, this`prev, this`order
      ensures Valid() && ToFront(old(order), order, b)
    {
      hide Agree, Ring.IsRing;
      ghost var j := ValidIsFirst(buf, order, A(), b);
      FrontKeepsAgree(buf, order, A(), j);
      Ring.Remove(n, order, next, prev, j);
      ghost var rest := Ring.Without(order, j);
      NotInRest(order, j);
      next, prev := next[prev[b] := next[b]], prev[next[b] := prev[b]];
      Ring.Push(n, rest, next, prev, b);
      next, prev := next[b := next[n]][n := b], prev[b := n][next[n] := b];
      order := [b] + rest;
      assert order == [b] + old(order)[..j] + old(order)[j + 1..];
    }

    lemma NotInRest(order: seq<int>, j: nat)
      requires j < |order| && Ring.IsRing(n, order, next, prev)
      ensures order[j] !in Ring.Without(order, j) && order[j] != n
    {
    }

    /** bpin */
    method Bpin(b: int)
      requires Valid() && 0 <= b < n && buf[b].valid && buf[b].id in disk
      requires buf[b].refcnt == UINT32 - 1 ==> buf[b].data == disk[buf[b].id]
      modifies this`buf, this`refs
      ensures Valid()
      ensures refs == old(refs)[old(buf[b].id) := Inc32(old(refs[buf[b].id]))]
      ensures buf == old(buf)[b := old(buf[b]).(refcnt := Inc32(old(buf[b].refcnt)))]
    {
      hide Agree, Ring.IsRing;
      Locked(buf, order, A(), b);
      SetRefcnt(b, Inc32(buf[b].refcnt));
    }

    /** bunpin: the count is a uint, so unpinning an unreferenced buffer wraps. */
    method Bunpin(b: int)
      requires Valid() && 0 <= b < n && buf[b].valid && buf[b].id in disk
      requires buf[b].refcnt == 1 ==> buf[b].data == disk[buf[b].id]
      modifies this`buf, this`refs
      ensures Valid()
      ensures refs == old(refs)[old(buf[b].id) := Dec32(old(refs[buf[b].id]))]
      ensures buf == old(buf)[b := old(buf[b]).(refcnt := Dec32(old(buf[b].refcnt)))]
    {
      hide Agree, Ring.IsRing;
      Locked(buf, order, A(), b);
      SetRefcnt(b, Dec32(buf[b].refcnt));
    }

    method SetRefcnt(b: int, rc: int)
      requires Valid() && 0 <= b < n && buf[b].valid && buf[b].id in disk && 0 <= rc < UINT32
      requires rc == 0 ==> buf[b].data == disk[buf[b].id]
      modifies this`buf, this`refs
      ensures Valid()
      ensures old(buf[b].refcnt) == old(refs[buf[b].id])
      ensures refs == old(refs)[old(buf[b].id) := rc]
      ensures buf == old(buf)[b := old(buf[b]).(refcnt := rc)]
    {
      hide Agree, Ring.IsRing;
      Locked(buf, order, A(), b);
      var b' := buf[b].(refcnt := rc);
      Change(buf, order, A(), b, b', CacheState(disk, view, refs[b'.id := rc], held));
      buf := buf[b := b'];
      refs := refs[b'.id := rc];
    }

    lemma Domains()
      requires Valid()
      ensures |buf| == n && view.Keys == disk.Keys && refs.Keys == disk.Keys && Busy(refs) <= n
    {
      BusyBuffers(buf, order, A());
    }

    /** A referenced block is in the cache, so bread finds it. */
    lemma ReferencedIsCached(id: Id)
      requires Valid() && id in disk && refs[id] != 0
      ensures exists i :: 0 <= i < n && buf[i].id == id
    {
    }
  }
}
