/** The virtio disk driver (kernel/virtio_disk.c): request submission, completion by the
  device in any order, the interrupt handler, and the end of a request.

  The methods of `Disk` are what happens while the driver holds vdisk_lock, between two
  sleeps, and the steps of the device; the state between any two of them is `Valid`.
 */
module Virtio {
  import opened Common
  import opened VirtioRing

  const BSIZE := 1024
  const NEXT := 1             // VRING_DESC_F_NEXT
  const WRITE := 2            // VRING_DESC_F_WRITE
  const IN := 0               // VIRTIO_BLK_T_IN
  const OUT := 1              // VIRTIO_BLK_T_OUT

  /** What a descriptor points at: the header of a request with its type and sector, the data
      of a buffer, or the status byte of a request. */
  datatype Addr = Null | Header(kind: int, sector: int) | Data(b: int) | Status(h: int)

  datatype Desc = Desc(addr: Addr, len: int, flags: int, next: int)

  datatype Info = Info(b: int, status: int)

  /** The three descriptors of a request, as the device reads them. */
  ghost predicate Described(desc: seq<Desc>, h: int, r: Req) {
    && |desc| == NUM && 0 <= h < NUM && 0 <= r.i1 < NUM && 0 <= r.i2 < NUM
    && desc[h] == Desc(Header(if r.write then OUT else IN, r.sector), 16, NEXT, r.i1)
    && desc[r.i1] == Desc(Data(r.b), BSIZE, if r.write then NEXT else WRITE + NEXT, r.i2)
    && desc[r.i2] == Desc(Status(h), 1, WRITE, 0)
  }

  /** The request is described, recorded, and its buffer is marked busy until seen. */
  ghost predicate ReqOk(desc: seq<Desc>, info: seq<Info>, busy: map<int, bool>, h: int, r: Req) {
    && Described(desc, h, r) && |info| == NUM && info[h] == Info(r.b, 0)
    && r.b in busy && (busy[r.b] <==> r.phase != Seen)
  }

  ghost predicate ReqsOk(desc: seq<Desc>, info: seq<Info>, busy: map<int, bool>, reqs: map<int, Req>) {
    && (forall h :: h in reqs ==> ReqOk(desc, info, busy, h, reqs[h]))
    && (forall g, h :: g in reqs && h in reqs && reqs[g].b == reqs[h].b ==> g == h)
  }

  // ---------------------------------------------------------------- the device

  /** What the device works on: its sectors of 512 bytes, the data of the buffers, and the
      status bytes. */
  datatype Media = Media(sectors: map<int, seq<int>>, data: map<int, seq<int>>, info: seq<Info>)

  /** The next n sectors from s on. */
  function Load(sectors: map<int, seq<int>>, s: int, n: nat): seq<int>
    decreases n
  {
    if n == 0 then [] else (if s in sectors then sectors[s] else []) + Load(sectors, s + 1, n - 1)
  }

  /** The sectors with these bytes from s on. */
  function Save(sectors: map<int, seq<int>>, s: int, bytes: seq<int>): map<int, seq<int>>
    decreases |bytes|
  {
    if |bytes| < 512 then sectors else Save(sectors[s := bytes[..512]], s + 1, bytes[512..])
  }

  /** The device follows the chain from h (sections 2.6.5 and 5.2.6 of Virtual I/O Device version
      1.1). Bit 0 of the flags links to the next descriptor. Bit 1 says that the device may write
      what the descriptor points at; otherwise it may only read it. The first descriptor is the
      header: type 1 stores data, type 0 fetches it. The last one takes the status. */
  function Serve(desc: seq<Desc>, h: int, m: Media): Media {
    if !(0 <= h < |desc|) then m
    else
      var d0 := desc[h];
      if !(d0.addr.Header? && d0.len == 16 && d0.flags / 2 % 2 == 0) then m
      else if !(d0.flags % 2 == 1 && 0 <= d0.next < |desc|) then m
      else
        var d1 := desc[d0.next];
        if !(d1.flags % 2 == 1 && 0 <= d1.next < |desc|) then m
        else Report(desc[d1.next], Transfer(d0.addr.kind, d0.addr.sector, d1, m))
  }

  function Transfer(kind: int, sector: int, d: Desc, m: Media): Media {
    if !(d.addr.Data? && d.addr.b in m.data && 0 <= d.len <= |m.data[d.addr.b]|) then m
    else
      var b, n := d.addr.b, d.len;
      if kind == 1 && d.flags / 2 % 2 == 0 then
        m.(sectors := Save(m.sectors, sector, m.data[b][..n]))
      else if kind == 0 && d.flags / 2 % 2 == 1 then
        m.(data := m.data[b := Load(m.sectors, sector, n / 512) + m.data[b][n..]])
      else m
  }

  function Report(d: Desc, m: Media): Media {
    if d.addr.Status? && d.len >= 1 && d.flags / 2 % 2 == 1 && 0 <= d.addr.h < |m.info| then
      m.(info := m.info[d.addr.h := m.info[d.addr.h].(status := 0)])
    else m
  }

  /** Sectors and buffers have their sizes, and the requests are within the disk. */
  ghost predicate MediaOk(sectors: map<int, seq<int>>, data: map<int, seq<int>>, reqs: map<int, Req>) {
    && (forall s :: s in sectors ==> |sectors[s]| == 512)
    && (forall b :: b in data ==> |data[b]| == BSIZE)
    && (forall h :: h in reqs ==>
          reqs[h].b in data && reqs[h].sector in sectors && reqs[h].sector + 1 in sectors)
  }

  /** What a request is for: two sectors go to the buffer, or the buffer to two sectors. */
  ghost predicate Moved(sectors: map<int, seq<int>>, data: map<int, seq<int>>, sectors': map<int, seq<int>>,
                        data': map<int, seq<int>>, b: int, s: int, write: bool)
    requires s in sectors && s + 1 in sectors && b in data && |data[b]| == BSIZE
  {
    if write then data' == data && sectors' == sectors[s := data[b][..512]][s + 1 := data[b][512..]]
    else sectors' == sectors && data' == data[b := sectors[s] + sectors[s + 1]]
  }

  /** The chain that describes a request makes the device do what the request is for. */
  lemma ServesRequest(desc: seq<Desc>, h: int, r: Req, m: Media)
    requires Described(desc, h, r) && |m.info| == NUM
    requires r.sector in m.sectors && r.sector + 1 in m.sectors && r.b in m.data && |m.data[r.b]| == BSIZE
    ensures var m' := Serve(desc, h, m);
            && Moved(m.sectors, m.data, m'.sectors, m'.data, r.b, r.sector, r.write)
            && m'.info == m.info[h := m.info[h].(status := 0)]
  {
    hide Save, Load;
    var bytes := m.data[r.b];
    assert bytes[..BSIZE] == bytes && bytes[BSIZE..] == [];
    if r.write {
      TwoSaved(m.sectors, r.sector, bytes);
    } else {
      TwoLoaded(m.sectors, r.sector);
      var two := m.sectors[r.sector] + m.sectors[r.sector + 1];
      assert two + [] == two;
    }
  }

  lemma TwoSaved(sectors: map<int, seq<int>>, s: int, bytes: seq<int>)
    requires |bytes| == BSIZE
    ensures Save(sectors, s, bytes) == sectors[s := bytes[..512]][s + 1 := bytes[512..]]
  {
    var tail := bytes[512..];
    var first := sectors[s := bytes[..512]];
    assert tail[..512] == tail && tail[512..] == [];
    assert Save(first, s + 1, tail) == Save(first[s + 1 := tail], s + 2, []);
  }

  lemma TwoLoaded(sectors: map<int, seq<int>>, s: int)
    requires s in sectors && s + 1 in sectors
    ensures Load(sectors, s, 2) == sectors[s] + sectors[s + 1]
  {
    assert Load(sectors, s + 1, 1) == sectors[s + 1] + Load(sectors, s + 2, 0);
    assert sectors[s + 1] + [] == sectors[s + 1];
  }

  lemma MediaAt(sectors: map<int, seq<int>>, data: map<int, seq<int>>, reqs: map<int, Req>, h: int)
    requires MediaOk(sectors, data, reqs) && h in reqs
    ensures reqs[h].b in data && |data[reqs[h].b]| == BSIZE
    ensures reqs[h].sector in sectors && reqs[h].sector + 1 in sectors
  {
  }

  /** Where the requests stand does not matter, nor one request less. */
  lemma MediaMoves(sectors: map<int, seq<int>>, data: map<int, seq<int>>, reqs: map<int, Req>, h: int, phase: Phase)
    requires MediaOk(sectors, data, reqs) && h in reqs
    ensures MediaOk(sectors, data, reqs[h := reqs[h].(phase := phase)]) && MediaOk(sectors, data, reqs - {h})
  {
  }

  lemma MovedOk(sectors: map<int, seq<int>>, data: map<int, seq<int>>, reqs: map<int, Req>, h: int,
                sectors': map<int, seq<int>>, data': map<int, seq<int>>)
    requires MediaOk(sectors, data, reqs) && h in reqs
    requires Moved(sectors, data, sectors', data', reqs[h].b, reqs[h].sector, reqs[h].write)
    ensures MediaOk(sectors', data', reqs)
  {
  }

  ghost predicate FreeOk(free: seq<bool>, owner: map<int, int>) {
    |free| == NUM && forall i :: 0 <= i < NUM ==> (free[i] <==> i !in owner)
  }

  ghost function FreeSet(free: seq<bool>): set<int>
    requires |free| == NUM
  {
    set i | 0 <= i < NUM && free[i]
  }

  lemma FreeCount(free: seq<bool>, owner: map<int, int>, reqs: map<int, Req>)
    requires FreeOk(free, owner) && Chains(owner, reqs)
    ensures |FreeSet(free)| == NUM - 3 * |reqs|
  {
    CountChains(owner, reqs);
    OwnedBelow(owner, reqs);
    FreeRest(free, owner, {0, 1, 2, 3, 4, 5, 6, 7});
  }

  lemma OwnedBelow(owner: map<int, int>, reqs: map<int, Req>)
    requires Chains(owner, reqs)
    ensures forall i :: i in owner ==> 0 <= i < NUM
  {
    forall i | i in owner
      ensures 0 <= i < NUM
    {
      assert OwnerOk(owner, reqs, i);
    }
  }

  lemma FreeRest(free: seq<bool>, owner: map<int, int>, all: set<int>)
    requires FreeOk(free, owner) && forall i :: i in all <==> 0 <= i < NUM
    requires forall i :: i in owner ==> 0 <= i < NUM
    ensures |FreeSet(free)| == |all| - |owner.Keys|
  {
    assert FreeSet(free) + owner.Keys == all;
    assert FreeSet(free) !! owner.Keys;
  }

  ghost predicate ThreeFree(free: seq<bool>) {
    exists i, j, k :: 0 <= i < j < k < |free| && free[i] && free[j] && free[k]
  }

  /** Three descriptors are free exactly if fewer than NUM/3 requests are in flight. */
  lemma RoomForOne(free: seq<bool>, owner: map<int, int>, reqs: map<int, Req>)
    requires FreeOk(free, owner) && Chains(owner, reqs)
    ensures ThreeFree(free) <==> |reqs| < NUM / 3
  {
    hide Chains, FreeOk;
    FreeLength(free, owner);
    FreeCount(free, owner, reqs);
    var f := FreeSet(free);
    if i, j, k :| 0 <= i < j < k < |free| && free[i] && free[j] && free[k] {
      assert f == {i, j, k} + (f - {i, j, k});
    } else if |f| >= 3 {
      var a := Pick(f);
      var b := Pick(f - {a});
      var c := Pick(f - {a, b});
      Ordered(free, a, b, c);
      assert false;
    }
  }

  lemma Ordered(free: seq<bool>, a: int, b: int, c: int)
    requires |free| == NUM && a in FreeSet(free) && b in FreeSet(free) && c in FreeSet(free) && a != b && a != c
             && b != c
    ensures ThreeFree(free)
  {
    var lo, hi := if a < b then a else b, if a < b then b else a;
    if c < lo {
      assert free[c] && free[lo] && free[hi];
    } else if c < hi {
      assert free[lo] && free[c] && free[hi];
    } else {
      assert free[lo] && free[hi] && free[c];
    }
  }

  /** Descriptors outside the chains may change. */
  lemma DescFrame(desc: seq<Desc>, desc': seq<Desc>, info: seq<Info>, busy: map<int, bool>, reqs: map<int, Req>,
                  owner: map<int, int>)
    requires |desc| == NUM && |desc'| == NUM && Chains(owner, reqs) && ReqsOk(desc, info, busy, reqs)
    requires forall i :: 0 <= i < NUM && i in owner ==> desc'[i] == desc[i]
    ensures ReqsOk(desc', info, busy, reqs)
  {
  }

  /** A new request beside the old ones. */
  lemma NewRequest(desc: seq<Desc>, info: seq<Info>, busy: map<int, bool>, reqs: map<int, Req>, owner: map<int, int>,
                   h: int, r: Req,
                   desc': seq<Desc>)
    requires |desc| == NUM && |info| == NUM && Chains(owner, reqs) && ReqsOk(desc, info, busy, reqs)
    requires 0 <= h < NUM && h !in owner && r.phase != Seen && (forall g :: g in reqs ==> reqs[g].b != r.b)
    requires |desc'| == NUM && (forall i :: 0 <= i < NUM && i in owner ==> desc'[i] == desc[i])
                                            && Described(desc', h, r)
    ensures ReqsOk(desc', info[h := Info(r.b, 0)], busy[r.b := true], reqs[h := r])
  {
  }

  /** A request moves on; its buffer is marked accordingly. */
  lemma Moves(desc: seq<Desc>, info: seq<Info>, busy: map<int, bool>, reqs: map<int, Req>, h: int, phase: Phase)
    requires ReqsOk(desc, info, busy, reqs) && h in reqs
    ensures ReqsOk(desc, info, busy[reqs[h].b := phase != Seen], reqs[h := reqs[h].(phase := phase)])
  {
  }

  lemma DescribedIn(desc: seq<Desc>, h: int, r: Req)
    requires Described(desc, h, r)
    ensures 0 <= h < NUM && 0 <= r.i1 < NUM && 0 <= r.i2 < NUM
  {
  }

  lemma FreeLength(free: seq<bool>, owner: map<int, int>)
    requires FreeOk(free, owner)
    ensures |free| == NUM
  {
  }

  lemma OwnedNotFree(free: seq<bool>, owner: map<int, int>)
    requires FreeOk(free, owner)
    ensures |free| == NUM && forall i :: 0 <= i < NUM && i in owner ==> !free[i]
  {
  }

  lemma FreeTaken(free: seq<bool>, owner: map<int, int>, i0: int, i1: int, i2: int)
    requires FreeOk(free, owner) && 0 <= i0 < NUM && 0 <= i1 < NUM && 0 <= i2 < NUM && |free| == NUM && free[i0]
             && free[i1] && free[i2]
    ensures i0 !in owner && i1 !in owner && i2 !in owner
    ensures FreeOk(free[i0 := false][i1 := false][i2 := false], owner[i0 := i0][i1 := i0][i2 := i0])
  {
  }

  lemma FreeGiven(free: seq<bool>, owner: map<int, int>, i0: int, i1: int, i2: int)
    requires FreeOk(free, owner) && 0 <= i0 < NUM && 0 <= i1 < NUM && 0 <= i2 < NUM && |free| == NUM
    ensures FreeOk(free[i0 := true][i1 := true][i2 := true], owner - {i0, i1, i2})
  {
  }

  lemma ChainFacts(desc: seq<Desc>, info: seq<Info>, busy: map<int, bool>, reqs: map<int, Req>, owner: map<int, int>,
                   free: seq<bool>, h: int)
    requires Chains(owner, reqs) && ReqsOk(desc, info, busy, reqs) && FreeOk(free, owner) && h in reqs
    ensures var r := reqs[h];
            && |free| == NUM && Described(desc, h, r) && !free[h] && !free[r.i1] && !free[r.i2] && h != r.i1
               && h != r.i2 && r.i1 != r.i2
            && r.b in busy && (busy[r.b] <==> r.phase != Seen)
  {
  }

  /** A described request joins the others. */
  lemma Offered(desc: seq<Desc>, info: seq<Info>, busy: map<int, bool>, reqs: map<int, Req>, owner: map<int, int>,
                queue: seq<int>, done: seq<int>, i0: int, q: Req)
    requires |desc| == NUM && |info| == NUM && Chains(owner, reqs) && ReqsOk(desc, info, busy, reqs)
             && Described(desc, i0, q)
    requires i0 !in owner && q.i1 !in owner && q.i2 !in owner && i0 != q.i1 && i0 != q.i2 && q.i1 != q.i2
    requires q.phase == Queued && forall g :: g in reqs ==> reqs[g].b != q.b
    requires Lists(queue, reqs, Queued) && Lists(done, reqs, Done)
    ensures |queue| <= NUM / 3 && i0 !in reqs && 0 <= i0 < NUM
    ensures Chains(owner[i0 := i0][q.i1 := i0][q.i2 := i0], reqs[i0 := q])
    ensures ReqsOk(desc, info[i0 := Info(q.b, 0)], busy[q.b := true], reqs[i0 := q])
    ensures Lists(queue + [i0], reqs[i0 := q], Queued) && Lists(done, reqs[i0 := q], Done)
  {
    hide Chains, Lists, ReqsOk;
    AddChain(owner, reqs, i0, q);
    NewRequest(desc, info, busy, reqs, owner, i0, q, desc);
    Enlist(queue, reqs, Queued, i0, q);
    Unlisted(done, reqs, Done, i0, q);
    ShortList(queue, owner, reqs, Queued);
  }

  /** The first completed request has been seen. */
  lemma SeenStep(desc: seq<Desc>, info: seq<Info>, busy: map<int, bool>, reqs: map<int, Req>, owner: map<int, int>,
                 queue: seq<int>, done: seq<int>, h: int)
    requires Chains(owner, reqs) && ReqsOk(desc, info, busy, reqs)
    requires Lists(queue, reqs, Queued) && Lists(done, reqs, Done) && done != [] && h == done[0] && h in reqs
             && reqs[h].phase == Done
    ensures var reqs' := reqs[h := reqs[h].(phase := Seen)];
            && Chains(owner, reqs') && ReqsOk(desc, info, busy[reqs[h].b := false], reqs')
            && Lists(queue, reqs', Queued) && Lists(done[1..], reqs', Done)
  {
    hide Chains, Lists, ReqsOk;
    var r := reqs[h].(phase := Seen);
    SamePhase(owner, reqs, h, Seen);
    Moves(desc, info, busy, reqs, h, Seen);
    Delist(done, reqs, Done, r);
    Unlisted(queue, reqs, Queued, h, r);
  }

  /** b is the buffer of one of these requests. */
  ghost predicate IsFor(reqs: map<int, Req>, q: seq<int>, b: int) {
    exists k :: 0 <= k < |q| && q[k] in reqs && reqs[q[k]].b == b
  }

  lemma ForMore(reqs: map<int, Req>, q: seq<int>, h: int)
    requires h in reqs
    ensures forall b :: IsFor(reqs, q + [h], b) <==> IsFor(reqs, q, b) || b == reqs[h].b
  {
    forall b
      ensures IsFor(reqs, q + [h], b) <==> IsFor(reqs, q, b) || b == reqs[h].b
    {
      assert (q + [h])[|q|] == h;
      if k :| 0 <= k < |q| && q[k] in reqs && reqs[q[k]].b == b {
        assert (q + [h])[k] == q[k];
      }
    }
  }

  class Disk {
    var free: seq<bool>
    var desc: seq<Desc>
    var avail: seq<int>
    var availIdx: int        // avail[1]
    var usedElems: seq<int>
    var usedId: int          // used->id, written by the device
    var usedIdx: int
    var info: seq<Info>
    var busy: map<int, bool> // b->disk of every buffer
    var deviceIdx: int       // how far the device has looked in avail
    var sectors: map<int, seq<int>>  // the medium
    var data: map<int, seq<int>>     // b->data of every buffer

    ghost var owner: map<int, int>
    ghost var reqs: map<int, Req>
    ghost var queue: seq<int>   // submitted, not yet taken by the device
    ghost var done: seq<int>    // completed, not yet seen by the driver
    ghost var fetched: nat
    ghost var seen: nat

    ghost predicate Valid()
      reads this
    {
      && |desc| == NUM && |info| == NUM && FreeOk(free, owner) && Chains(owner, reqs)
      && ReqsOk(desc, info, busy, reqs) && Lists(queue, reqs, Queued) && Lists(done, reqs, Done)
      && RingOk(avail, availIdx, fetched, queue) && deviceIdx == Wrap16(fetched)
      && RingOk(usedElems, usedId, seen, done) && usedIdx == Slot(seen)
      && MediaOk(sectors, data, reqs)
    }

    /** virtio_disk_init: every descriptor is free. */
    constructor (busy: map<int, bool>, sectors: map<int, seq<int>>, data: map<int, seq<int>>)
      requires (forall s :: s in sectors ==> |sectors[s]| == 512) && forall b :: b in data ==> |data[b]| == BSIZE
      ensures Valid() && reqs == map[] && this.busy == busy && this.sectors == sectors && this.data == data
    {
      free := seq(NUM, i => true);
      desc := seq(NUM, i => Desc(Null, 0, 0, 0));
      avail, usedElems := seq(NUM, i => 0), seq(NUM, i => 0);
      availIdx, usedId, usedIdx, deviceIdx := 0, 0, 0, 0;
      info := seq(NUM, i => Info(0, 0));
      this.busy, this.sectors, this.data := busy, sectors, data;
      owner, reqs, queue, done, fetched, seen := map[], map[], [], [], 0, 0;
    }

    // -------------------------------------------------------------- whole transfers

    /** virtio_disk_rw from beginning to end, with the device at work while the driver sleeps:
        the block has been transferred and nothing else has changed. */
    method Rw(b: int, blockno: int, write: bool)
      requires Valid() && reqs == map[] && b in data && OnDisk(blockno)
      modifies this
      ensures Valid() && reqs == map[] && b in busy && !busy[b]
      ensures |old(data)[b]| == BSIZE
      ensures Moved(old(sectors), old(data), sectors, data, b, blockno * 2 % UINT32, write)
    {
      hide Chains, ReqsOk, RingOk, FreeOk, MediaOk, Moved;
      Idle();
      var ok; ghost var h;
      ok, h := Submit(b, blockno, write);
      OneQueued(h);
      var g := Fetch();
      Complete(g);
      Intr();
      Finish(g);
    }

    lemma Idle()
      requires Valid() && reqs == map[]
      ensures queue == [] && done == [] && |reqs| == 0 && forall b :: b in data ==> |data[b]| == BSIZE
    {
      hide Chains, ReqsOk, RingOk, FreeOk, Lists;
      if queue != [] {
        Listed(queue, reqs, Queued);
        assert false;
      }
      if done != [] {
        Listed(done, reqs, Done);
        assert false;
      }
    }

    lemma OneQueued(h: int)
      requires Valid() && queue == [h]
      ensures availIdx != deviceIdx
    {
      hide Chains, ReqsOk, FreeOk, MediaOk, Lists;
    }

    /** A block that has been written is read back, into any buffer. */
    method WriteThenRead(b: int, c: int, blockno: int)
      requires Valid() && reqs == map[] && b in data && c in data && OnDisk(blockno)
      modifies this
      ensures Valid() && reqs == map[] && data == old(data)[c := old(data)[b]]
      ensures sectors.Keys == old(sectors).Keys
      ensures forall s :: s in sectors && s != blockno * 2 % UINT32 && s != blockno * 2 % UINT32 + 1 ==>
                            sectors[s] == old(sectors)[s]
    {
      hide Disk.Valid;
      Rw(b, blockno, true);
      ghost var bytes := old(data)[b];
      assert bytes[..512] + bytes[512..] == bytes;
      Rw(c, blockno, false);
    }

    // -------------------------------------------------------------- descriptors

    /** alloc_desc: the first free descriptor, or -1. */
    method AllocDesc() returns (i: int)
      requires |free| == NUM
      modifies this`free
      ensures i == -1 ==> free == old(free) && forall j :: 0 <= j < NUM ==> !free[j]
      ensures i != -1 ==> 0 <= i < NUM && old(free)[i] && free == old(free)[i := false] && forall j :: 0 <= j < i ==>
              !old(free)[j]
    {
      i := FirstFree();
      if i >= 0 {
        free := free[i := false];
      }
    }

    method FirstFree() returns (i: int)
      requires |free| == NUM
      ensures i == -1 ==> forall j :: 0 <= j < NUM ==> !free[j]
      ensures i != -1 ==> 0 <= i < NUM && free[i] && forall j :: 0 <= j < i ==> !free[j]
    {
      for k := 0 to NUM
        invariant forall j :: 0 <= j < k ==> !free[j]
      {
        if free[k] {
          return k;
        }
      }
      i := -1;
    }

    /** free_desc: its two panics are the preconditions. */
    method FreeDesc(i: int)
      requires |free| == NUM && |desc| == NUM && 0 <= i < NUM && !free[i]
      modifies this`free, this`desc
      ensures free == old(free)[i := true] && desc == old(desc)[i := old(desc)[i].(addr := Null)]
    {
      desc := desc[i := desc[i].(addr := Null)];
      free := free[i := true];
    }

    /** alloc3_desc: three descriptors, or none and what was taken is given back. */
    method Alloc3Desc() returns (r: Option<(int, int, int)>)
      requires |free| == NUM && |desc| == NUM
      modifies this`free, this`desc
      ensures r.None? ==> && free == old(free) && |desc| == NUM
                          && (forall i :: 0 <= i < NUM && !free[i] ==> desc[i] == old(desc)[i])
                          && !ThreeFree(free)
      ensures r.Some? ==> var (i0, i1, i2) := r.value;
                          && 0 <= i0 < i1 < i2 < NUM && old(free)[i0] && old(free)[i1] && old(free)[i2]
                          && free == old(free)[i0 := false][i1 := false][i2 := false] && desc == old(desc)
    {
      var i0 := AllocDesc();
      if i0 < 0 {
        return None;
      }
      var i1 := AllocDesc();
      if i1 < 0 {
        FreeDesc(i0);
        return None;
      }
      var i2 := AllocDesc();
      if i2 < 0 {
        FreeDesc(i0);
        FreeDesc(i1);
        return None;
      }
      r := Some((i0, i1, i2));
    }

    // -------------------------------------------------------------- requests

    /** The block is within the disk. */
    predicate OnDisk(blockno: int)
      reads this
    {
      blockno * 2 % UINT32 in sectors && blockno * 2 % UINT32 + 1 in sectors
    }

    /** The first part of virtio_disk_rw: the request of buffer b is described and offered to
        the device; false exactly if NUM/3 requests are in flight, and then the caller sleeps. */
    method Submit(b: int, blockno: int, write: bool) returns (ok: bool, ghost h: int)
      requires Valid() && b in data && OnDisk(blockno) && forall g :: g in reqs ==> reqs[g].b != b
      modifies this
      ensures Valid()
      ensures ok <==> |old(reqs)| < NUM / 3
      ensures sectors == old(sectors) && data == old(data)
      ensures !ok ==> reqs == old(reqs) && queue == old(queue) && done == old(done) && busy == old(busy)
      ensures ok ==> && h !in old(reqs) && h in reqs && reqs[h].b == b && reqs[h].sector == blockno * 2 % UINT32
                     && reqs[h].write == write
                     && reqs[h].phase == Queued && reqs == old(reqs)[h := reqs[h]] && busy == old(busy)[b := true]
                     && queue == old(queue) + [h] && done == old(done)
    {
      hide Chains, Lists, RingOk, ReqsOk, FreeOk, Described;
      FreeLength(free, owner);
      RoomForOne(free, owner, reqs);
      var r := Alloc3Desc();
      if r.None? {
        h, ok := 0, false;
        OwnedNotFree(free, owner);
        DescFrame(old(desc), desc, info, busy, reqs, owner);
        return;
      }
      ok := true;
      var (i0, i1, i2) := r.value;
      h := i0;
      FreeTaken(old(free), owner, i0, i1, i2);
      var q := Req(b, blockno * 2 % UINT32, write, i1, i2, Queued);
      Describe(i0, i1, i2, q);
      DescFrame(old(desc), desc, info, busy, reqs, owner);
      Offer(i0, q);
    }

    /** The request is recorded and put into the available ring. */
    method Offer(i0: int, q: Req)
      requires |desc| == NUM && |info| == NUM && Chains(owner, reqs) && ReqsOk(desc, info, busy, reqs)
               && Described(desc, i0, q)
      requires FreeOk(free, owner[i0 := i0][q.i1 := i0][q.i2 := i0])
      requires i0 !in owner && q.i1 !in owner && q.i2 !in owner && i0 != q.i1 && i0 != q.i2 && q.i1 != q.i2
      requires q.phase == Queued && forall g :: g in reqs ==> reqs[g].b != q.b
      requires Lists(queue, reqs, Queued) && Lists(done, reqs, Done)
      requires RingOk(avail, availIdx, fetched, queue) && deviceIdx == Wrap16(fetched)
      requires RingOk(usedElems, usedId, seen, done) && usedIdx == Slot(seen)
      requires MediaOk(sectors, data, reqs[i0 := q])
      modifies this`info, this`busy, this`owner, this`reqs, this`avail, this`availIdx, this`queue
      ensures Valid() && i0 !in old(reqs) && reqs == old(reqs)[i0 := q] && busy == old(busy)[q.b := true]
      ensures queue == old(queue) + [i0] && done == old(done)
    {
      hide Chains, Lists, RingOk, ReqsOk, FreeOk, Wrap16, Described, MediaOk;
      Offered(desc, info, busy, reqs, owner, queue, done, i0, q);
      Record(i0, q);
      Publish(i0);
    }

    /** info[] and b->disk. */
    method Record(i0: int, q: Req)
      requires |info| == NUM && 0 <= i0 < NUM
      modifies this`info, this`busy, this`owner, this`reqs
      ensures info == old(info)[i0 := Info(q.b, 0)] && busy == old(busy)[q.b := true]
      ensures owner == old(owner)[i0 := i0][q.i1 := i0][q.i2 := i0] && reqs == old(reqs)[i0 := q]
    {
      busy := busy[q.b := true];
      info := info[i0 := Info(q.b, 0)];
      owner := owner[i0 := i0][q.i1 := i0][q.i2 := i0];
      reqs := reqs[i0 := q];
    }

    /** The next entry of the available ring. */
    method Publish(i0: int)
      requires RingOk(avail, availIdx, fetched, queue) && |queue| < NUM
      modifies this`avail, this`availIdx, this`queue
      ensures queue == old(queue) + [i0] && RingOk(avail, availIdx, fetched, queue)
    {
      hide RingOk;
      RingPush(avail, availIdx, fetched, queue, i0);
      avail := avail[Slot(availIdx) := i0];
      availIdx := Inc16(availIdx);
      queue := queue + [i0];
    }

    /** The three descriptors are filled in. */
    method Describe(i0: int, i1: int, i2: int, r: Req)
      requires |desc| == NUM && 0 <= i0 < NUM && 0 <= i1 < NUM && 0 <= i2 < NUM && i0 != i1 && i0 != i2 && i1 != i2
               && r.i1 == i1 && r.i2 == i2
      modifies this`desc
      ensures Described(desc, i0, r) && |desc| == NUM
      ensures forall i :: 0 <= i < NUM && i != i0 && i != i1 && i != i2 ==> desc[i] == old(desc)[i]
    {
      desc := desc[i0 := Desc(Header(if r.write then OUT else IN, r.sector), 16, NEXT, i1)];
      desc := desc[i1 := Desc(Data(r.b), BSIZE, if r.write then NEXT else WRITE + NEXT, i2)];
      desc := desc[i2 := Desc(Status(i0), 1, WRITE, 0)];
    }

    // -------------------------------------------------------------- the device

    /** The device takes the next available request. */
    method Fetch() returns (h: int)
      requires Valid() && availIdx != deviceIdx
      modifies this
      ensures Valid() && old(queue) != [] && h == old(queue)[0] && queue == old(queue)[1..] && done == old(done)
              && busy == old(busy) && sectors == old(sectors) && data == old(data)
      ensures reqs == old(reqs)[h := old(reqs)[h].(phase := Taken)]
    {
      hide Chains, Lists, RingOk, ReqsOk, Wrap16, Inc16, Slot, MediaOk, FreeOk;
      RingEmpty(avail, availIdx, fetched, queue);
      RingPop(avail, availIdx, fetched, queue);
      WrapSteps(fetched);
      Listed(queue, reqs, Queued);
      h := avail[Slot(deviceIdx)];
      ghost var r := reqs[h].(phase := Taken);
      SamePhase(owner, reqs, h, Taken);
      MediaMoves(sectors, data, reqs, h, Taken);
      Moves(desc, info, busy, reqs, h, Taken);
      Busy(h);
      Delist(queue, reqs, Queued, r);
      Unlisted(done, reqs, Done, h, r);
      reqs := reqs[h := r];
      queue := queue[1..];
      fetched := fetched + 1;
      deviceIdx := Inc16(deviceIdx);
    }

    lemma Busy(h: int)
      requires ReqsOk(desc, info, busy, reqs) && h in reqs && reqs[h].phase != Seen
      ensures reqs[h].b in busy && busy[reqs[h].b] && busy[reqs[h].b := true] == busy
    {
    }

    /** What the device finds by following the chain from h. */
    method Perform(h: int)
      requires ReqsOk(desc, info, busy, reqs) && MediaOk(sectors, data, reqs) && h in reqs
      modifies this`sectors, this`data, this`info
      ensures MediaOk(sectors, data, reqs) && info == old(info)
      ensures var b, s := reqs[h].b, reqs[h].sector;
              && s in old(sectors) && s + 1 in old(sectors) && b in old(data) && |old(data)[b]| == BSIZE
              && Moved(old(sectors), old(data), sectors, data, b, s, reqs[h].write)
    {
      hide ReqsOk, Described, Serve, Moved, MediaOk;
      Recorded(h);
      MediaAt(sectors, data, reqs, h);
      ServesRequest(desc, h, reqs[h], Media(sectors, data, info));
      var m := Serve(desc, h, Media(sectors, data, info));
      MovedOk(sectors, data, reqs, h, m.sectors, m.data);
      sectors, data, info := m.sectors, m.data, m.info;
    }

    /** The device carries out any request it has taken, as its descriptors say, with status 0,
        and reports it: the buffer holds the two sectors, or the two sectors the buffer, and no
        other buffer or sector changes. */
    method Complete(h: int)
      requires Valid() && h in reqs && reqs[h].phase == Taken
      modifies this
      ensures Valid() && queue == old(queue) && done == old(done) + [h] && busy == old(busy)
      ensures reqs == old(reqs)[h := old(reqs)[h].(phase := Done)]
      ensures var b, s := old(reqs)[h].b, old(reqs)[h].sector;
              && s in old(sectors) && s + 1 in old(sectors) && b in old(data) && |old(data)[b]| == BSIZE
              && Moved(old(sectors), old(data), sectors, data, b, s, old(reqs)[h].write)
    {
      hide Chains, Lists, RingOk, ReqsOk, Wrap16, Moved, MediaOk, FreeOk;
      Perform(h);
      PutUsed(h);
    }

    /** A request the device has carried out goes into the used ring. */
    method PutUsed(h: int)
      requires Valid() && h in reqs && reqs[h].phase == Taken
      modifies this`reqs, this`done, this`usedElems, this`usedId
      ensures Valid() && done == old(done) + [h] && reqs == old(reqs)[h := old(reqs)[h].(phase := Done)]
    {
      hide Chains, Lists, RingOk, ReqsOk, Wrap16, Inc16, Slot, MediaOk, FreeOk;
      ghost var r := reqs[h].(phase := Done);
      MediaMoves(sectors, data, reqs, h, Done);
      SamePhase(owner, reqs, h, Done);
      Moves(desc, info, busy, reqs, h, Done);
      Busy(h);
      Enlist(done, reqs, Done, h, r);
      Unlisted(queue, reqs, Queued, h, r);
      ShortList(done, owner, reqs, Done);
      RingPush(usedElems, usedId, seen, done, h);
      reqs := reqs[h := r];
      done := done + [h];
      usedElems := usedElems[Slot(usedId) := h];
      usedId := Inc16(usedId);
    }

    // -------------------------------------------------------------- completion

    /** One turn of virtio_disk_intr's loop: there is one exactly if a completed request has not been seen. */
    method IntrOne() returns (more: bool)
      requires Valid()
      modifies this
      ensures Valid() && (more <==> old(done) != []) && queue == old(queue)
      ensures sectors == old(sectors) && data == old(data)
      ensures !more ==> reqs == old(reqs) && busy == old(busy) && done == old(done)
      ensures more ==> var h := old(done)[0];
                       && h in old(reqs) && done == old(done)[1..]
                          && reqs == old(reqs)[h := old(reqs)[h].(phase := Seen)]
                       && busy == old(busy)[old(reqs)[h].b := false]
    {
      hide Chains, Lists, ReqsOk, RingOk, Wrap16, Inc16, Slot, MediaOk, FreeOk, Described;
      ShortList(done, owner, reqs, Done);
      ModuloIsExact(seen, seen + |done|);
      RingIndex(usedElems, usedId, seen, done);
      WrapSteps(seen);
      more := Slot(usedIdx) != Slot(usedId);
      if more {
        SeeNext();
      }
    }

    /** The body of the loop: b->disk of the next completed request is cleared. */
    method SeeNext()
      requires Valid() && done != []
      modifies this`busy, this`reqs, this`done, this`seen, this`usedIdx
      ensures Valid() && done == old(done)[1..]
      ensures var h := old(done)[0];
              && h in old(reqs) && reqs == old(reqs)[h := old(reqs)[h].(phase := Seen)]
              && busy == old(busy)[old(reqs)[h].b := false]
    {
      hide Chains, Lists, ReqsOk, RingOk, Wrap16, Inc16, Slot, MediaOk, FreeOk, Described;
      WrapSteps(seen);
      RingPop(usedElems, usedId, seen, done);
      Listed(done, reqs, Done);
      var id := usedElems[usedIdx];
      Recorded(id);
      assert info[id].status == 0;  // panic("virtio_disk_intr status")
      SeenStep(desc, info, busy, reqs, owner, queue, done, id);
      MediaMoves(sectors, data, reqs, id, Seen);
      busy := busy[info[id].b := false];
      reqs := reqs[id := reqs[id].(phase := Seen)];
      done := done[1..];
      seen := seen + 1;
      usedIdx := Slot(usedIdx + 1);
    }

    lemma Recorded(h: int)
      requires ReqsOk(desc, info, busy, reqs) && h in reqs
      ensures 0 <= h < NUM && |info| == NUM && info[h] == Info(reqs[h].b, 0) && Described(desc, h, reqs[h])
    {
    }

    /** virtio_disk_intr: every completed request is seen, and exactly their buffers are released. */
    method Intr()
      requires Valid()
      modifies this
      ensures Valid() && done == [] && queue == old(queue) && reqs.Keys == old(reqs).Keys
      ensures sectors == old(sectors) && data == old(data)
      ensures forall h :: h in reqs ==> reqs[h] == if h in old(done) then old(reqs)[h].(phase := Seen) else old(reqs)[h]
      ensures busy.Keys == old(busy).Keys && forall b :: b in busy ==>
                                                           busy[b] == (old(busy)[b] && !IsFor(old(reqs), old(done), b))
    {
      hide Chains, ReqsOk, Lists, RingOk, FreeOk, MediaOk;
      DoneOnce();
      var more := true;
      ghost var k := 0;
      while more
        invariant Valid() && queue == old(queue) && reqs.Keys == old(reqs).Keys && (!more ==> done == [])
        invariant 0 <= k <= |old(done)| && done == old(done)[k..] && sectors == old(sectors) && data == old(data)
        invariant forall h :: h in reqs ==>
                                reqs[h] == if h in old(done)[..k] then old(reqs)[h].(phase := Seen) else old(reqs)[h]
        invariant busy.Keys == old(busy).Keys
        invariant forall b :: b in busy ==> busy[b] == (old(busy)[b] && !IsFor(old(reqs), old(done)[..k], b))
        decreases |done|, more
      {
        BuffersKnown();
        more := IntrOne();
        if more {
          ForMore(old(reqs), old(done)[..k], old(done)[k]);
          assert old(done)[..k + 1] == old(done)[..k] + [old(done)[k]];
          assert old(done)[k] !in old(done)[..k];
          k := k + 1;
        }
      }
      assert old(done)[..k] == old(done);
    }

    lemma BuffersKnown()
      requires ReqsOk(desc, info, busy, reqs)
      ensures forall h :: h in reqs ==> reqs[h].b in busy
    {
      assert forall h :: h in reqs ==> ReqOk(desc, info, busy, h, reqs[h]);
    }

    lemma DoneOnce()
      requires Lists(done, reqs, Done)
      ensures forall i, j :: 0 <= i < j < |done| ==> done[i] != done[j]
    {
    }

    /** free_chain on the chain of a request. */
    method FreeChain(i0: int, ghost r: Req)
      requires |free| == NUM && Described(desc, i0, r) && !free[i0] && !free[r.i1] && !free[r.i2] && i0 != r.i1
               && i0 != r.i2 && r.i1 != r.i2
      modifies this`free, this`desc
      ensures free == old(free)[i0 := true][r.i1 := true][r.i2 := true] && |desc| == NUM
      ensures forall i :: 0 <= i < NUM && i != i0 && i != r.i1 && i != r.i2 ==> desc[i] == old(desc)[i]
    {
      var i := i0;
      ghost var n := 0;
      while true
        invariant 0 <= n < 3 && i == (if n == 0 then i0 else if n == 1 then r.i1 else r.i2) && |free| == NUM
                  && |desc| == NUM
        invariant n == 0 ==> free == old(free)
        invariant n == 1 ==> free == old(free)[i0 := true]
        invariant n == 2 ==> free == old(free)[i0 := true][r.i1 := true]
        invariant forall j :: 0 <= j < NUM ==> desc[j].flags == old(desc)[j].flags && desc[j].next == old(desc)[j].next
        invariant forall j :: 0 <= j < NUM && j != i0 && j != r.i1 && j != r.i2 ==> desc[j] == old(desc)[j]
        decreases 3 - n
      {
        FreeDesc(i);
        if desc[i].flags % 2 == 1 {
          i := desc[i].next;
          n := n + 1;
        } else {
          break;
        }
      }
    }

    /** The end of virtio_disk_rw, once b->disk is 0: the chain is free again. */
    method Finish(h: int)
      requires Valid() && h in reqs && reqs[h].b in busy && !busy[reqs[h].b]
      modifies this
      ensures Valid() && reqs == old(reqs) - {h} && queue == old(queue) && done == old(done) && busy == old(busy)
      ensures sectors == old(sectors) && data == old(data)
    {
      hide Lists, RingOk, Chains, ReqsOk, FreeOk, Described, MediaOk;
      ChainFacts(desc, info, busy, reqs, owner, free, h);
      MediaMoves(sectors, data, reqs, h, Seen);
      DescribedIn(desc, h, reqs[h]);
      ghost var desc0, info0 := desc, info;
      info := info[h := info[h].(b := 0)];
      FreeChain(h, reqs[h]);
      Retired(desc0, info0, busy, reqs, owner, old(free), queue, done, h, desc, info);
      owner, reqs := owner - {h, reqs[h].i1, reqs[h].i2}, reqs - {h};
    }
  }

  /** One request is over. */
  lemma Retired(desc: seq<Desc>, info: seq<Info>, busy: map<int, bool>, reqs: map<int, Req>, owner: map<int, int>,
                free: seq<bool>,
                queue: seq<int>, done: seq<int>, h: int, desc': seq<Desc>, info': seq<Info>)
    requires Chains(owner, reqs) && ReqsOk(desc, info, busy, reqs) && FreeOk(free, owner) && h in reqs
             && reqs[h].phase == Seen
    requires Lists(queue, reqs, Queued) && Lists(done, reqs, Done)
    requires 0 <= h < NUM && 0 <= reqs[h].i1 < NUM && 0 <= reqs[h].i2 < NUM
    requires |desc| == NUM && |desc'| == NUM && |info| == NUM && |info'| == NUM && |free| == NUM
    requires forall i :: 0 <= i < NUM && i != h && i != reqs[h].i1 && i != reqs[h].i2 ==> desc'[i] == desc[i]
    requires forall i :: 0 <= i < NUM && i != h ==> info'[i] == info[i]
    ensures Chains(owner - {h, reqs[h].i1, reqs[h].i2}, reqs - {h}) && ReqsOk(desc', info', busy, reqs - {h})
    ensures FreeOk(free[h := true][reqs[h].i1 := true][reqs[h].i2 := true], owner - {h, reqs[h].i1, reqs[h].i2})
    ensures Lists(queue, reqs - {h}, Queued) && Lists(done, reqs - {h}, Done)
  {
    hide Lists, Chains, ReqsOk, FreeOk;
    FreeGiven(free, owner, h, reqs[h].i1, reqs[h].i2);
    DropChain(owner, reqs, h);
    Dropped(queue, reqs, Queued, h);
    Dropped(done, reqs, Done, h);
    Forgotten(desc, info, busy, reqs, owner, h, desc', info');
  }

  /** The other requests are still described and recorded. */
  lemma Forgotten(desc: seq<Desc>, info: seq<Info>, busy: map<int, bool>, reqs: map<int, Req>, owner: map<int, int>,
                  h: int,
                  desc': seq<Desc>, info': seq<Info>)
    requires Chains(owner, reqs) && ReqsOk(desc, info, busy, reqs) && h in reqs && |desc| == NUM && |desc'| == NUM
             && |info| == NUM && |info'| == NUM
    requires forall i :: 0 <= i < NUM && i != h && i != reqs[h].i1 && i != reqs[h].i2 ==> desc'[i] == desc[i]
    requires forall i :: 0 <= i < NUM && i != h ==> info'[i] == info[i]
    ensures ReqsOk(desc', info', busy, reqs - {h})
  {
  }
}
