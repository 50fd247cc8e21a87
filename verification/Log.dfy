/** The write-ahead log (kernel/log.c) as a protocol.

  The states of the machine lie between the disk writes of the file system.
  Operations begin, log modified blocks and end in any interleaving; the last
  one to end commits the group. A crash may happen in any state, including
  during recovery. The machine refines a disk whose groups of operations take
  effect atomically.
 */
module Log {
  import opened Common
  import opened Bio

  type Disk = map<Id, Block>

  /** The log of one device. The log area of the superblock is `size` blocks from `start`
      on: the header, then slots. The in-memory header has room for `logsize` entries, an
      operation may log `maxop` blocks, and the cache has `nbuf` buffers. */
  datatype Cfg = Cfg(dev: int, start: int, size: int, logsize: nat, maxop: nat, nbuf: nat) {
    function Header(): Id { Id(dev, start) }
    function Slot(i: int): Id { Id(dev, start + 1 + i) }
    function Home(b: int): Id { Id(dev, b) }
    predicate IsHome(id: Id) { id.dev != dev || id.blockno < start
                              || (start < id.blockno && start + size <= id.blockno) }

    /** How many entries log_write lets in: what the header holds and the log area has slots for. */
    function Slots(): nat { if size < 1 then 0 else if size - 1 < logsize then size - 1 else logsize }

    /** The header can take more entries than the log area has slots, and the cache can hold
        a group that is too large. */
    predicate Tight() { size - 1 < logsize && size < nbuf }

    /** Exactly then the groups that get written fit into the log area, although log_write
        looks at the number of entries before it takes the lock. */
    predicate Fits() { !Tight() || size < 2 || maxop == 0 || 2 * maxop > logsize }
  }

  // ---------------------------------------------------------------- the header block

  /** The header block holds n in word 0 and the n home block numbers after it. */
  predicate HeaderOk(b: Block, logsize: nat) {
    logsize < |b| && 0 <= b[0] <= logsize
  }

  function Entries(b: Block): seq<int>
    requires |b| > 0 && 0 <= b[0] < |b|
  {
    b[1..b[0] + 1]
  }

  /** What write_head stores: the count and that many entries; stale words stay. */
  function WithEntries(b: Block, lh: seq<int>): (r: Block)
    requires |lh| < |b|
    ensures |r| == |b| && r[0] == |lh| && Entries(r) == lh
    ensures forall i :: |lh| < i < |b| ==> r[i] == b[i]
  {
    [|lh|] + lh + b[1 + |lh|..]
  }

  // ---------------------------------------------------------------- meaning of a disk

  ghost function IndexOf(s: seq<int>, x: int): (i: int)
    ensures -1 <= i < |s|
    ensures i == -1 <==> x !in s
    ensures i >= 0 ==> s[i] == x
  {
    if x in s then var i :| 0 <= i < |s| && s[i] == x; i else -1
  }

  /** The entries fit into the in-memory header and are distinct blocks of the disk outside
      the log area. */
  ghost predicate NamesOk(c: Cfg, d: Disk, lh: seq<int>) {
    && Distinct(lh) && |lh| <= c.logsize
    && forall i :: 0 <= i < |lh| ==> c.Home(lh[i]) in d && c.IsHome(c.Home(lh[i]))
  }

  /** And there is a slot for each of them. */
  ghost predicate EntriesOk(c: Cfg, d: Disk, lh: seq<int>) {
    NamesOk(c, d, lh) && |lh| <= c.Slots()
  }

  ghost predicate DiskOk(c: Cfg, d: Disk) {
    && c.Header() in d && HeaderOk(d[c.Header()], c.logsize)
    && (forall i :: 0 <= i < c.Slots() ==> c.Slot(i) in d)
    && EntriesOk(c, d, Entries(d[c.Header()]))
  }

  /** The contents a home block has once the entries of the log are installed. */
  ghost function Replayed(c: Cfg, d: Disk, lh: seq<int>, id: Id): Block
    requires id in d && forall i :: 0 <= i < |lh| ==> c.Slot(i) in d
  {
    var i := if id.dev == c.dev then IndexOf(lh, id.blockno) else -1;
    if i >= 0 then d[c.Slot(i)] else d[id]
  }

  /** The committed contents of the home blocks: what recovery will make of d. */
  ghost function Committed(c: Cfg, d: Disk): Disk
    requires DiskOk(c, d)
  {
    map id | id in d && c.IsHome(id) :: Replayed(c, d, Entries(d[c.Header()]), id)
  }

  ghost function Homes(c: Cfg, d: Disk): Disk {
    map id | id in d && c.IsHome(id) :: d[id]
  }

  // ---------------------------------------------------------------- the machine

  datatype Phase =
    | Running                  // no commit in progress
    | Logging(tail: nat)       // write_log has written `tail` slots
    | Installing(tail: nat)    // the header is written; install_trans has copied `tail` blocks
    | Down                     // power is off
    | Recovering(tail: nat)    // read_head is done; install_trans has copied `tail` blocks
    | Panicked

  /** `view` and `pin` are the buffer cache: the latest contents of each block and
      the reference count of its buffer while nobody is using it. `open` has the blocks
      each operation has logged; `passed` the operations that are inside log_write, past
      its guard and not yet at its insertion, with the block they log. */
  datatype State = State(disk: Disk, view: Disk, pin: map<Id, int>, lh: seq<int>,
                         open: map<int, set<int>>, passed: map<int, int>, phase: Phase)

  datatype Event =
    | BeginOp(op: int)
    | LogTest(op: int, b: int)
    | LogWrite(op: int, b: int, data: Block)
    | LogPanic(op: int, b: int)
    | NoBuffers
    | EndOp(op: int)
    | WriteSlot | WriteHead | InstallBlock | ClearHead
    | Evict(id: Id)
    | Crash | Boot | RecoverBlock | RecoverClear

  ghost predicate Up(s: State) { !s.phase.Down? && !s.phase.Panicked? }

  ghost predicate SlotReady(c: Cfg, s: State, t: nat) {
    && t < |s.lh| && c.Home(s.lh[t]) in s.disk && c.Home(s.lh[t]) in s.view && c.Home(s.lh[t]) in s.pin
    && c.Slot(t) in s.view
  }

  ghost predicate HeaderReady(c: Cfg, s: State) {
    c.Header() in s.view && |s.lh| < |s.view[c.Header()]|
  }

  /** bwrite: disk and cache agree on the block afterwards. */
  function Put(s: State, id: Id, data: Block): State {
    s.(disk := s.disk[id := data], view := s.view[id := data])
  }

  /** An operation logs at most maxop distinct home blocks. */
  ghost predicate MayLog(c: Cfg, s: State, op: int, b: int) {
    && Up(s) && op in s.open && |s.open[op] + {b}| <= c.maxop
    && c.Home(b) in s.view && c.Home(b) in s.pin && c.IsHome(c.Home(b))
  }

  ghost predicate Step(c: Cfg, s: State, e: Event, s': State) {
    match e
    case BeginOp(op) =>
      // otherwise begin_op sleeps
      && s.phase.Running? && op !in s.open && |s.lh| + (|s.open| + 1) * c.maxop <= c.logsize
      && s' == s.(open := s.open[op := {}])
    case LogTest(op, b) =>
      // the caller is inside an operation, has modified its locked buffer of b, and calls
      // log_write, which reads lh.n without holding the lock
      && MayLog(c, s, op, b) && op !in s.passed && |s.lh| < c.logsize && |s.lh| < c.size - 1
      && s' == s.(passed := s.passed[op := b])
    case LogWrite(op, b, data) =>
      // the part of log_write under the lock
      && MayLog(c, s, op, b) && op in s.passed && s.passed[op] == b
      && s' == s.(view := s.view[c.Home(b) := data],
                  lh := if b in s.lh then s.lh else s.lh + [b],
                  pin := if b in s.lh then s.pin else s.pin[c.Home(b) := Inc32(s.pin[c.Home(b)])],
                  open := s.open[op := s.open[op] + {b}], passed := s.passed - {op})
    case LogPanic(op, b) =>
      && MayLog(c, s, op, b) && op !in s.passed && (|s.lh| >= c.logsize || |s.lh| >= c.size - 1)
      && s' == s.(phase := Panicked)
    case EndOp(op) =>
      && Up(s) && op in s.open && op !in s.passed
      && (if !s.phase.Running? then s' == s.(phase := Panicked)
          else s' == s.(open := s.open - {op},
                        phase := if s.open - {op} == map[] && s.lh != [] then Logging(0) else Running))
    case WriteSlot =>
      // bread of the slot finds a buffer that the group does not pin
      && s.phase.Logging? && |s.lh| < c.nbuf && SlotReady(c, s, s.phase.tail)
      && s' == Put(s, c.Slot(s.phase.tail), s.view[c.Home(s.lh[s.phase.tail])]).(phase := Logging(s.phase.tail + 1))
    case NoBuffers =>
      s.phase.Logging? && |s.lh| >= c.nbuf && s' == s.(phase := Panicked)
    case WriteHead =>
      && s.phase.Logging? && s.phase.tail == |s.lh| && HeaderReady(c, s)
      && s' == Put(s, c.Header(), WithEntries(s.view[c.Header()], s.lh)).(phase := Installing(0))
    case InstallBlock =>
      && s.phase.Installing? && SlotReady(c, s, s.phase.tail)
      && var h := c.Home(s.lh[s.phase.tail]);
         s' == Put(s, h, s.view[c.Slot(s.phase.tail)])
               .(pin := s.pin[h := Dec32(s.pin[h])], phase := Installing(s.phase.tail + 1))
    case ClearHead =>
      && s.phase.Installing? && s.phase.tail == |s.lh| && HeaderReady(c, s)
      && s' == Put(s, c.Header(), WithEntries(s.view[c.Header()], [])).(lh := [], phase := Running)
    case Evict(id) =>
      && Up(s) && id in s.view && id in s.disk && id in s.pin && s.pin[id] == 0
      && s' == s.(view := s.view[id := s.disk[id]])
    case Crash =>
      s' == State(s.disk, map[], map[], [], map[], map[], Down)
    case Boot =>
      && s.phase.Down? && DiskOk(c, s.disk)
      && s' == State(s.disk, s.disk, map id | id in s.disk :: 0, Entries(s.disk[c.Header()]), map[], map[],
                     Recovering(0))
    case RecoverBlock =>
      // bunpin on a buffer that recovery never pinned
      && s.phase.Recovering? && SlotReady(c, s, s.phase.tail)
      && var h := c.Home(s.lh[s.phase.tail]);
         s' == Put(s, h, s.view[c.Slot(s.phase.tail)])
               .(pin := s.pin[h := Dec32(s.pin[h])], phase := Recovering(s.phase.tail + 1))
    case RecoverClear =>
      && s.phase.Recovering? && s.phase.tail == |s.lh| && HeaderReady(c, s)
      && s' == Put(s, c.Header(), WithEntries(s.view[c.Header()], [])).(lh := [], phase := Running)
  }

  // ---------------------------------------------------------------- the atomic disk

  /** The specification: `durable` survives a crash; `pending` is what running
      operations read and write. A group reaches `durable` in one step, and only
      when every operation of the group has ended. */
  datatype Spec = Spec(durable: Disk, pending: Disk, open: set<int>)

  ghost function SpecStep(c: Cfg, a: Spec, e: Event): Spec {
    match e
    case BeginOp(op) => a.(open := a.open + {op})
    case LogWrite(op, b, data) => a.(pending := a.pending[c.Home(b) := data])
    case EndOp(op) => a.(open := a.open - {op})
    case WriteHead => a.(durable := a.pending)
    case Crash => Spec(a.durable, a.durable, {})
    case _ => a
  }

  ghost function SpecRun(c: Cfg, a: Spec, es: seq<Event>): Spec {
    if es == [] then a else SpecStep(c, SpecRun(c, a, es[..|es| - 1]), es[|es| - 1])
  }

  ghost function Abs(c: Cfg, s: State): Spec
    requires DiskOk(c, s.disk)
  {
    Spec(Committed(c, s.disk),
         if s.phase.Running? || s.phase.Logging? || s.phase.Panicked? then Homes(c, s.view) else Committed(c, s.disk),
         s.open.Keys)
  }

  // ---------------------------------------------------------------- invariant

  predicate InLog(c: Cfg, lh: seq<int>, id: Id) {
    id.dev == c.dev && id.blockno in lh
  }

  /** Each open operation has logged only blocks of the group, within its budget. */
  ghost predicate OpsOk(c: Cfg, open: map<int, set<int>>, lh: seq<int>) {
    forall op :: op in open ==> |open[op]| <= c.maxop && forall b :: b in open[op] ==> b in lh
  }

  /** Log space the open operations may still use. */
  ghost function Unused(open: map<int, set<int>>, maxop: nat): int
    decreases |open|
  {
    if |open| == 0 then 0
    else var op := Pick(open.Keys); maxop - |open[op]| + Unused(open - {op}, maxop)
  }

  ghost predicate Reserved(c: Cfg, open: map<int, set<int>>, lh: seq<int>) {
    |lh| + Unused(open, c.maxop) <= c.logsize
  }

  /** Room in the log area: where it can be too small for the header, each operation past
      log_write's guard has a slot to itself. */
  ghost predicate RoomOk(c: Cfg, open: map<int, set<int>>, passed: map<int, int>, lh: seq<int>) {
    && passed.Keys <= open.Keys && (2 * c.maxop > c.logsize ==> |open| <= 1)
    && (c.Tight() ==> |lh| + |passed| <= if c.size < 1 then 0 else c.size - 1)
  }

  /** Buffers of the group's blocks, from entry t on, are pinned once; all others are unreferenced. */
  ghost predicate Balanced(c: Cfg, pin: map<Id, int>, lh: seq<int>, t: nat) {
    && (forall i :: 0 <= i < |lh| && c.Home(lh[i]) in pin ==> pin[c.Home(lh[i])] == if t <= i then 1 else 0)
    && (forall id :: id in pin && !InLog(c, lh, id) ==> pin[id] == 0)
  }

  /** Recovery has unpinned, without having pinned them, the buffers of the first t entries. */
  ghost predicate Leaked(c: Cfg, pin: map<Id, int>, lh: seq<int>, t: nat) {
    && (forall i :: 0 <= i < |lh| && c.Home(lh[i]) in pin ==> pin[c.Home(lh[i])] == if t <= i then 0 else UINT32 - 1)
    && (forall id :: id in pin && !InLog(c, lh, id) ==> pin[id] == 0)
  }

  ghost predicate CacheOk(c: Cfg, disk: Disk, view: Disk, pin: map<Id, int>, lh: seq<int>) {
    && view.Keys == disk.Keys && pin.Keys == disk.Keys
    && NamesOk(c, disk, lh)
    && forall id :: id in disk && !InLog(c, lh, id) ==> view[id] == disk[id]
  }

  ghost predicate Copied(c: Cfg, disk: Disk, view: Disk, lh: seq<int>, t: nat)
    requires EntriesOk(c, disk, lh) && EntriesOk(c, view, lh) && t <= |lh| && forall i :: 0 <= i < c.Slots() ==>
             c.Slot(i) in disk
  {
    forall i :: 0 <= i < t ==> disk[c.Slot(i)] == view[c.Home(lh[i])]
  }

  ghost predicate Installed(c: Cfg, disk: Disk, view: Disk, lh: seq<int>, t: nat)
    requires EntriesOk(c, disk, lh) && EntriesOk(c, view, lh) && t <= |lh| && forall i :: 0 <= i < c.Slots() ==>
             c.Slot(i) in disk
  {
    forall i :: 0 <= i < t ==> disk[c.Home(lh[i])] == view[c.Home(lh[i])]
  }

  ghost predicate HomesReplaced(c: Cfg, disk: Disk, lh: seq<int>, t: nat)
    requires EntriesOk(c, disk, lh) && t <= |lh| && forall i :: 0 <= i < c.Slots() ==> c.Slot(i) in disk
  {
    forall i :: 0 <= i < t ==> disk[c.Home(lh[i])] == disk[c.Slot(i)]
  }

  ghost predicate Inv(c: Cfg, s: State) {
    && DiskOk(c, s.disk)
    && match s.phase
       case Running =>
         && CacheOk(c, s.disk, s.view, s.pin, s.lh) && Entries(s.disk[c.Header()]) == [] && Balanced(c, s.pin, s.lh, 0)
         && OpsOk(c, s.open, s.lh) && Reserved(c, s.open, s.lh) && (s.open == map[] ==> s.lh == [])
         && RoomOk(c, s.open, s.passed, s.lh)
       case Logging(t) =>
         && CacheOk(c, s.disk, s.view, s.pin, s.lh) && Entries(s.disk[c.Header()]) == [] && Balanced(c, s.pin, s.lh, 0)
         && s.open == map[] && s.passed == map[] && t <= |s.lh|
         && (if |s.lh| <= c.Slots() then Copied(c, s.disk, s.view, s.lh, t) else t == 0 && c.nbuf <= |s.lh|)
       case Installing(t) =>
         && CacheOk(c, s.disk, s.view, s.pin, s.lh) && Entries(s.disk[c.Header()]) == s.lh
            && Balanced(c, s.pin, s.lh, t)
         && s.open == map[] && s.passed == map[] && t <= |s.lh| && Copied(c, s.disk, s.view, s.lh, |s.lh|)
            && Installed(c, s.disk, s.view, s.lh, t)
       case Recovering(t) =>
         && s.view == s.disk && s.pin.Keys == s.disk.Keys && Entries(s.disk[c.Header()]) == s.lh
         && s.open == map[] && s.passed == map[] && t <= |s.lh|
         && HomesReplaced(c, s.disk, s.lh, t)
         && Leaked(c, s.pin, s.lh, t)
       case Down => s.open == map[] && s.passed == map[]
       case Panicked => true
  }

  // ---------------------------------------------------------------- reading committed contents

  lemma CommittedIdle(c: Cfg, d: Disk)
    requires DiskOk(c, d) && Entries(d[c.Header()]) == []
    ensures Committed(c, d) == Homes(c, d)
  {
  }

  /** Once every slot holds its block's new contents, committing the header makes
      the view of the home blocks the committed contents. */
  lemma CommittedLogged(c: Cfg, s: State)
    requires DiskOk(c, s.disk) && CacheOk(c, s.disk, s.view, s.pin, s.lh) && |s.lh| <= c.Slots()
             && Copied(c, s.disk, s.view, s.lh, |s.lh|)
    requires Entries(s.disk[c.Header()]) == s.lh
    ensures Committed(c, s.disk) == Homes(c, s.view)
  {
    forall id | id in s.disk && c.IsHome(id)
      ensures Replayed(c, s.disk, s.lh, id) == s.view[id]
    {
      if InLog(c, s.lh, id) {
        var i := IndexOf(s.lh, id.blockno);
        assert c.Home(s.lh[i]) == id;
      }
    }
  }

  /** Installing one more entry does not change the committed contents. */
  lemma InstallKeepsCommitted(c: Cfg, d: Disk, t: nat)
    requires DiskOk(c, d) && t < |Entries(d[c.Header()])|
    ensures var lh := Entries(d[c.Header()]);
            && DiskOk(c, d[c.Home(lh[t]) := d[c.Slot(t)]])
            && Committed(c, d[c.Home(lh[t]) := d[c.Slot(t)]]) == Committed(c, d)
  {
  }

  /** With every entry installed, clearing the header does not change the committed contents. */
  lemma ClearKeepsCommitted(c: Cfg, d: Disk, b: Block)
    requires DiskOk(c, d) && |b| > c.logsize && b[0] == 0
    requires var lh := Entries(d[c.Header()]);
             forall i :: 0 <= i < |lh| ==> d[c.Home(lh[i])] == d[c.Slot(i)]
    ensures DiskOk(c, d[c.Header() := b])
    ensures Committed(c, d[c.Header() := b]) == Committed(c, d) == Homes(c, d)
  {
  }

  // ---------------------------------------------------------------- log space

  lemma {:induction false} UnusedRemove(open: map<int, set<int>>, maxop: nat, op: int)
    requires op in open
    ensures Unused(open, maxop) == maxop - |open[op]| + Unused(open - {op}, maxop)
    decreases |open|
  {
    var p := Pick(open.Keys);
    if p != op {
      UnusedRemove(open - {p}, maxop, op);
      UnusedRemove(open - {op}, maxop, p);
      assert open - {p} - {op} == open - {op} - {p};
    }
  }

  lemma {:induction false} UnusedBound(open: map<int, set<int>>, maxop: nat)
    ensures Unused(open, maxop) <= |open| * maxop
    decreases |open|
  {
    if |open| != 0 {
      var p := Pick(open.Keys);
      UnusedBound(open - {p}, maxop);
      assert |open - {p}| == |open| - 1;
      assert (|open| - 1) * maxop + maxop == |open| * maxop;
    }
  }

  /** Adding or replacing one operation's set of logged blocks. */
  lemma UnusedUpdate(open: map<int, set<int>>, maxop: nat, op: int, w: set<int>)
    ensures Unused(open[op := w], maxop) == maxop - |w| + Unused(open - {op}, maxop)
  {
    UnusedRemove(open[op := w], maxop, op);
    assert open[op := w] - {op} == open - {op};
  }

  // ---------------------------------------------------------------- steps of operations

  lemma BeginReserves(open: map<int, set<int>>, maxop: nat, op: int)
    requires op !in open
    ensures Unused(open[op := {}], maxop) <= (|open| + 1) * maxop
  {
    hide Unused;
    UnusedUpdate(open, maxop, op, {});
    assert open - {op} == open;
    UnusedBound(open, maxop);
    assert |open| * maxop + maxop == (|open| + 1) * maxop;
  }

  lemma BeginOpStep(c: Cfg, s: State, op: int, s': State)
    requires Inv(c, s) && Step(c, s, BeginOp(op), s')
    ensures Inv(c, s') && Abs(c, s') == SpecStep(c, Abs(c, s), BeginOp(op))
  {
    hide Balanced, Committed, Homes, CacheOk, DiskOk, RoomOk, OpsOk, Reserved, Copied, Installed, HomesReplaced, Leaked;
    BeginRoom(c, s.open, s.passed, s.lh, op);
    assert s'.open.Keys == s.open.Keys + {op};
  }

  /** If two budgets do not fit, the first operation keeps out all others. */
  lemma BeginRoom(c: Cfg, open: map<int, set<int>>, passed: map<int, int>, lh: seq<int>, op: int)
    requires RoomOk(c, open, passed, lh) && OpsOk(c, open, lh)
    requires op !in open && |lh| + (|open| + 1) * c.maxop <= c.logsize
    ensures RoomOk(c, open[op := {}], passed, lh) && OpsOk(c, open[op := {}], lh) && Reserved(c, open[op := {}], lh)
  {
    hide Unused;
    BeginReserves(open, c.maxop, op);
    assert |open| == 1 ==> (|open| + 1) * c.maxop == 2 * c.maxop;
  }

  /** An operation passes the guard. Where the log area is too small this keeps the room
      only if nobody else is between the guard and the insertion. */
  lemma LogTestStep(c: Cfg, s: State, op: int, b: int, s': State)
    requires Inv(c, s) && Step(c, s, LogTest(op, b), s') && (c.Fits() || s.passed == map[])
    ensures Inv(c, s') && Abs(c, s') == SpecStep(c, Abs(c, s), LogTest(op, b))
  {
    hide Committed, DiskOk, CacheOk, Balanced, Reserved, Homes, OpsOk;
    assert s.phase.Running?;
    if s.passed != map[] && c.Tight() {
      AloneInside(c, s, op, b);
    }
    assert s.passed == map[] ==> s'.passed == map[op := b];
  }

  /** If there can be only one operation at a time, the guard is as good as one under the lock. */
  lemma AloneInside(c: Cfg, s: State, op: int, b: int)
    requires RoomOk(c, s.open, s.passed, s.lh) && MayLog(c, s, op, b) && op !in s.passed && |s.lh| < c.size - 1
    requires c.Tight() && c.Fits()
    ensures s.passed == map[]
  {
    assert |s.open| <= 1;
    if s.passed.Keys != {} {
      var q := Pick(s.passed.Keys);
      assert {q, op} <= s.open.Keys && |{q, op}| == 2;
      SubsetCard({q, op}, s.open.Keys);
      assert false;
    }
  }

  lemma LogWriteStep(c: Cfg, s: State, op: int, b: int, data: Block, s': State)
    requires Inv(c, s) && Step(c, s, LogWrite(op, b, data), s')
    ensures Inv(c, s') && Abs(c, s') == SpecStep(c, Abs(c, s), LogWrite(op, b, data))
  {
    hide Committed, DiskOk, CacheOk, Balanced, Reserved, RoomOk;
    assert s.phase.Running?;
    LogWriteReserves(c, s, op, b, data, s');
    LogWriteRoom(c, s, op, b, s');
    LogWriteCache(c, s, b, data, s');
    assert Homes(c, s'.view) == Homes(c, s.view)[c.Home(b) := data];
    assert s'.open.Keys == s.open.Keys;
  }

  lemma LogWriteCache(c: Cfg, s: State, b: int, data: Block, s': State)
    requires CacheOk(c, s.disk, s.view, s.pin, s.lh) && Balanced(c, s.pin, s.lh, 0) && |s'.lh| <= c.logsize
    requires var h := c.Home(b);
             && h in s.view && h in s.pin && c.IsHome(h) && s'.disk == s.disk && s'.view == s.view[h := data]
             && s'.lh == (if b in s.lh then s.lh else s.lh + [b])
             && s'.pin == (if b in s.lh then s.pin else s.pin[h := Inc32(s.pin[h])])
    ensures CacheOk(c, s'.disk, s'.view, s'.pin, s'.lh) && Balanced(c, s'.pin, s'.lh, 0)
  {
    hide Balanced;
    LogWriteBalanced(c, s.disk, s.pin, s.lh, b);
  }

  lemma LogWriteBalanced(c: Cfg, disk: Disk, pin: map<Id, int>, lh: seq<int>, b: int)
    requires NamesOk(c, disk, lh) && pin.Keys == disk.Keys && Balanced(c, pin, lh, 0) && c.Home(b) in pin
    ensures b !in lh ==> Balanced(c, pin[c.Home(b) := Inc32(pin[c.Home(b)])], lh + [b], 0)
  {
  }

  /** The insertion stays inside lh.block, whatever the guard has seen: the reservation made by
      begin_op covers it. */
  lemma LogWriteReserves(c: Cfg, s: State, op: int, b: int, data: Block, s': State)
    requires OpsOk(c, s.open, s.lh) && Reserved(c, s.open, s.lh)
    requires op in s.open && |s.open[op] + {b}| <= c.maxop
    requires s'.lh == if b in s.lh then s.lh else s.lh + [b]
    requires s'.open == s.open[op := s.open[op] + {b}]
    ensures Reserved(c, s'.open, s'.lh) && OpsOk(c, s'.open, s'.lh) && |s'.lh| <= c.logsize
  {
    hide Unused;
    UnusedRemove(s.open, c.maxop, op);
    UnusedUpdate(s.open, c.maxop, op, s.open[op] + {b});
    if b in s.open[op] {
      assert s.open[op] + {b} == s.open[op];
    }
    UnusedNonNegative(c, s'.open, s'.lh);
  }

  lemma {:induction false} UnusedNonNegative(c: Cfg, open: map<int, set<int>>, lh: seq<int>)
    requires OpsOk(c, open, lh)
    ensures Unused(open, c.maxop) >= 0
    decreases |open|
  {
    if |open| != 0 {
      var p := Pick(open.Keys);
      UnusedNonNegative(c, open - {p}, lh);
    }
  }

  lemma LogWriteRoom(c: Cfg, s: State, op: int, b: int, s': State)
    requires RoomOk(c, s.open, s.passed, s.lh) && op in s.open && op in s.passed
    requires s'.lh == (if b in s.lh then s.lh else s.lh + [b]) && s'.passed == s.passed - {op}
    requires s'.open == s.open[op := s.open[op] + {b}]
    ensures RoomOk(c, s'.open, s'.passed, s'.lh)
  {
    assert s'.open.Keys == s.open.Keys && s'.passed.Keys == s.passed.Keys - {op};
  }

  /** Ending an operation never finds a commit in progress, so end_op does not panic. */
  lemma EndOpStep(c: Cfg, s: State, op: int, s': State)
    requires Inv(c, s) && Step(c, s, EndOp(op), s')
    ensures !s'.phase.Panicked? && Inv(c, s') && Abs(c, s') == SpecStep(c, Abs(c, s), EndOp(op))
  {
    hide Balanced, Committed, Homes, CacheOk, DiskOk, RoomOk, OpsOk, Reserved, Installed, HomesReplaced, Leaked;
    assert s.phase.Running?;
    EndRoom(c, s.open, s.passed, s.lh, op);
    assert s'.open.Keys == s.open.Keys - {op};
    if s'.phase.Logging? && |s.lh| <= c.Slots() {
      NothingCopied(c, s);
    }
  }

  lemma NothingCopied(c: Cfg, s: State)
    requires DiskOk(c, s.disk) && CacheOk(c, s.disk, s.view, s.pin, s.lh) && |s.lh| <= c.Slots()
    ensures EntriesOk(c, s.disk, s.lh) && EntriesOk(c, s.view, s.lh)
    ensures forall i :: 0 <= i < c.Slots() ==> c.Slot(i) in s.disk
    ensures Copied(c, s.disk, s.view, s.lh, 0)
  {
  }

  /** A group that has ended fits into the log area, or nobody will write it. */
  lemma EndRoom(c: Cfg, open: map<int, set<int>>, passed: map<int, int>, lh: seq<int>, op: int)
    requires RoomOk(c, open, passed, lh) && Reserved(c, open, lh) && OpsOk(c, open, lh)
    requires op in open && op !in passed
    ensures RoomOk(c, open - {op}, passed, lh) && Reserved(c, open - {op}, lh) && OpsOk(c, open - {op}, lh)
    ensures open - {op} == map[] ==> passed == map[]
    ensures |lh| <= c.Slots() || c.nbuf <= |lh|
  {
    hide Unused;
    UnusedNonNegative(c, open, lh);
    UnusedRemove(open, c.maxop, op);
    assert (open - {op}).Keys == open.Keys - {op};
  }

  // ---------------------------------------------------------------- block writes

  /** bwrite of any block keeps the cache coherent. */
  lemma PutCacheOk(c: Cfg, disk: Disk, view: Disk, pin: map<Id, int>, lh: seq<int>, id: Id, data: Block)
    requires CacheOk(c, disk, view, pin, lh) && id in disk
    ensures CacheOk(c, disk[id := data], view[id := data], pin, lh)
  {
    assert disk[id := data].Keys == disk.Keys && view[id := data].Keys == view.Keys;
  }

  /** Writing a slot while the header is empty leaves the committed contents alone. */
  lemma PutSlot(c: Cfg, d: Disk, t: nat, data: Block)
    requires DiskOk(c, d) && t < c.Slots() && Entries(d[c.Header()]) == []
    ensures var d' := d[c.Slot(t) := data];
            DiskOk(c, d') && d'[c.Header()] == d[c.Header()] && Committed(c, d') == Committed(c, d)
  {
  }

  lemma PutHeader(c: Cfg, d: Disk, b: Block)
    requires DiskOk(c, d) && HeaderOk(b, c.logsize) && EntriesOk(c, d, Entries(b))
    ensures DiskOk(c, d[c.Header() := b])
  {
  }

  /** Log blocks are not home blocks. */
  lemma PutOutside(c: Cfg, view: Disk, id: Id, data: Block)
    requires !c.IsHome(id)
    ensures Homes(c, view[id := data]) == Homes(c, view)
  {
  }

  lemma SlotNotHome(c: Cfg, i: int)
    requires -1 <= i < c.Slots()
    ensures !c.IsHome(c.Slot(i))
  {
  }

  /** The home blocks are the blocks outside the log area of the superblock: on the disk mkfs
      makes, with 30 log blocks from block 2 on, block 32 is one, and all slots lie below it. */
  lemma HomesOutsideArea(c: Cfg, b: int)
    requires c.size >= 1
    ensures c.IsHome(c.Home(b)) <==> !(c.start <= b < c.start + c.size)
    ensures forall i :: 0 <= i < c.Slots() ==> c.start < c.Slot(i).blockno < c.start + c.size
    ensures c == Cfg(0, 2, 30, 30, 10, 30) ==> c.IsHome(c.Home(32)) && c.Slots() == 29
  {
  }

  /** No entry names the header or a slot. */
  lemma SlotsApart(c: Cfg, d: Disk, lh: seq<int>)
    requires EntriesOk(c, d, lh)
    ensures |lh| <= c.Slots() <= c.logsize && !InLog(c, lh, c.Header())
    ensures forall i :: 0 <= i < c.Slots() ==> !InLog(c, lh, c.Slot(i))
    ensures forall i, j :: 0 <= i < c.Slots() && 0 <= j < |lh| ==> c.Slot(i) != c.Home(lh[j])
  {
    forall i, j | 0 <= i < c.Slots() && 0 <= j < |lh|
      ensures c.Slot(i) != c.Home(lh[j])
    {
      SlotNotHome(c, i);
    }
  }

  // ---------------------------------------------------------------- steps of commit

  lemma WriteSlotStep(c: Cfg, s: State, s': State)
    requires Inv(c, s) && Step(c, s, WriteSlot, s')
    ensures Inv(c, s') && Abs(c, s') == SpecStep(c, Abs(c, s), WriteSlot)
  {
    hide DiskOk, CacheOk, Balanced, Committed, Homes, EntriesOk, Copied;
    var t, data := s.phase.tail, s.view[c.Home(s.lh[s.phase.tail])];
    WriteSlotCopied(c, s, s');
    PutSlot(c, s.disk, t, data);
    PutCacheOk(c, s.disk, s.view, s.pin, s.lh, c.Slot(t), data);
    PutOutside(c, s.view, c.Slot(t), data);
  }

  lemma WriteSlotCopied(c: Cfg, s: State, s': State)
    requires Inv(c, s) && Step(c, s, WriteSlot, s')
    ensures s.phase.tail < c.Slots() && c.Slot(s.phase.tail) in s.disk && !c.IsHome(c.Slot(s.phase.tail))
    ensures EntriesOk(c, s'.disk, s'.lh) && EntriesOk(c, s'.view, s'.lh)
    ensures forall i :: 0 <= i < c.Slots() ==> c.Slot(i) in s'.disk
    ensures Copied(c, s'.disk, s'.view, s'.lh, s.phase.tail + 1)
  {
  }

  /** The commit point: one block write makes the whole group durable. */
  lemma WriteHeadStep(c: Cfg, s: State, s': State)
    requires Inv(c, s) && Step(c, s, WriteHead, s')
    ensures Inv(c, s') && Abs(c, s') == SpecStep(c, Abs(c, s), WriteHead)
  {
    hide DiskOk, CacheOk, Balanced, Committed, Homes, EntriesOk, Copied, WithEntries, Entries;
    var b := WithEntries(s.view[c.Header()], s.lh);
    WriteHeadReady(c, s);
    SlotNotHome(c, -1);
    PutHeader(c, s.disk, b);
    PutCacheOk(c, s.disk, s.view, s.pin, s.lh, c.Header(), b);
    WriteHeadCopied(c, s.disk, s.view, s.pin, s.lh, b);
    assert s'.disk[c.Header()] == b && s'.lh == s.lh;
    CommittedLogged(c, s');
    PutOutside(c, s.view, c.Header(), b);
    assert Abs(c, s').durable == Homes(c, s.view) && Abs(c, s').open == {};
  }

  lemma WriteHeadReady(c: Cfg, s: State)
    requires Inv(c, s) && s.phase == Logging(|s.lh|) && HeaderReady(c, s)
    ensures c.Header() in s.disk && s.view[c.Header()] == s.disk[c.Header()]
    ensures |s.lh| <= c.logsize < |s.view[c.Header()]| && EntriesOk(c, s.disk, s.lh)
  {
  }

  lemma WriteHeadCopied(c: Cfg, disk: Disk, view: Disk, pin: map<Id, int>, lh: seq<int>, b: Block)
    requires DiskOk(c, disk) && CacheOk(c, disk, view, pin, lh) && |lh| <= c.Slots() && Copied(c, disk, view, lh, |lh|)
    ensures var d, v := disk[c.Header() := b], view[c.Header() := b];
            && EntriesOk(c, d, lh) && EntriesOk(c, v, lh) && (forall i :: 0 <= i < c.Slots() ==> c.Slot(i) in d)
            && Copied(c, d, v, lh, |lh|)
  {
  }

  lemma InstallBlockStep(c: Cfg, s: State, s': State)
    requires Inv(c, s) && Step(c, s, InstallBlock, s')
    ensures Inv(c, s') && Abs(c, s') == SpecStep(c, Abs(c, s), InstallBlock)
  {
    hide DiskOk, CacheOk, Balanced, Committed, Homes, EntriesOk, Copied, Installed;
    var t := s.phase.tail;
    InstallData(c, s);
    InstallCopied(c, s.disk, s.view, s.pin, s.lh, t);
    InstallKeepsCommitted(c, s.disk, t);
    PutCacheOk(c, s.disk, s.view, s.pin, s.lh, c.Home(s.lh[t]), s.disk[c.Slot(t)]);
    UnpinBalanced(c, s'.disk, s'.view, s.pin, s.lh, t);
  }

  lemma InstallData(c: Cfg, s: State)
    requires Inv(c, s) && s.phase.Installing? && s.phase.tail < |s.lh|
    ensures var t := s.phase.tail;
            && t < |s.lh| <= c.Slots() && c.Slot(t) in s.disk && c.Home(s.lh[t]) in s.disk && c.Home(s.lh[t]) in s.pin
            && c.Slot(t) in s.view && c.Home(s.lh[t]) in s.view
            && s.view[c.Slot(t)] == s.disk[c.Slot(t)] == s.view[c.Home(s.lh[t])]
            && s.view[c.Home(s.lh[t]) := s.disk[c.Slot(t)]] == s.view
            && s.disk[c.Home(s.lh[t]) := s.disk[c.Slot(t)]][c.Header()] == s.disk[c.Header()]
  {
    hide Balanced, HeaderOk, Entries, Cfg.IsHome, Cfg.Slots;
    SlotsApart(c, s.disk, s.lh);
  }

  lemma InstallCopied(c: Cfg, disk: Disk, view: Disk, pin: map<Id, int>, lh: seq<int>, t: nat)
    requires DiskOk(c, disk) && CacheOk(c, disk, view, pin, lh) && t < |lh| <= c.Slots()
    requires Copied(c, disk, view, lh, |lh|) && Installed(c, disk, view, lh, t)
    ensures var d := disk[c.Home(lh[t]) := disk[c.Slot(t)]];
            && EntriesOk(c, d, lh) && EntriesOk(c, view, lh) && (forall i :: 0 <= i < c.Slots() ==> c.Slot(i) in d)
            && Copied(c, d, view, lh, |lh|) && Installed(c, d, view, lh, t + 1)
  {
    hide HeaderOk, Entries, Cfg.IsHome, Cfg.Slots;
    SlotsApart(c, disk, lh);
  }

  lemma UnpinBalanced(c: Cfg, disk: Disk, view: Disk, pin: map<Id, int>, lh: seq<int>, t: nat)
    requires CacheOk(c, disk, view, pin, lh) && Balanced(c, pin, lh, t) && t < |lh|
    ensures c.Home(lh[t]) in pin
    ensures var pin' := pin[c.Home(lh[t]) := Dec32(pin[c.Home(lh[t])])];
            Balanced(c, pin', lh, t + 1) && CacheOk(c, disk, view, pin', lh)
  {
  }

  /** commit() returns: the log is empty again and the home blocks are in place. */
  lemma ClearHeadStep(c: Cfg, s: State, s': State)
    requires Inv(c, s) && Step(c, s, ClearHead, s')
    ensures Inv(c, s') && Abs(c, s') == SpecStep(c, Abs(c, s), ClearHead)
    ensures Homes(c, s'.disk) == Homes(c, s'.view) == Committed(c, s.disk)
  {
    hide DiskOk, Committed, Homes, Copied, Installed;
    var b := WithEntries(s.view[c.Header()], []);
    ClearReady(c, s);
    ClearKeepsCommitted(c, s.disk, b);
    CommittedLogged(c, s);
    SlotNotHome(c, -1);
    PutOutside(c, s.view, c.Header(), b);
    PutOutside(c, s.disk, c.Header(), b);
    ClearCache(c, s, s', b);
  }

  lemma ClearReady(c: Cfg, s: State)
    requires Inv(c, s) && s.phase.Installing? && s.phase.tail == |s.lh|
    ensures c.Header() in s.view && c.logsize < |s.view[c.Header()]| && |s.lh| <= c.Slots()
    ensures forall i :: 0 <= i < |s.lh| ==> s.disk[c.Home(s.lh[i])] == s.disk[c.Slot(i)]
    ensures s.view == s.disk
  {
    hide Balanced;
    assert !InLog(c, s.lh, c.Header());
    forall id | id in s.disk
      ensures s.view[id] == s.disk[id]
    {
      if InLog(c, s.lh, id) {
        assert c.Home(s.lh[IndexOf(s.lh, id.blockno)]) == id;
      }
    }
  }

  lemma ClearCache(c: Cfg, s: State, s': State, b: Block)
    requires CacheOk(c, s.disk, s.view, s.pin, s.lh) && s.view == s.disk && Balanced(c, s.pin, s.lh, |s.lh|)
    requires c.Header() in s.disk && s'.disk == s.disk[c.Header() := b] && s'.view == s.view[c.Header() := b]
    requires s'.pin == s.pin && s'.lh == [] && s'.open == map[]
    ensures CacheOk(c, s'.disk, s'.view, s'.pin, s'.lh) && Balanced(c, s'.pin, s'.lh, 0)
    ensures OpsOk(c, s'.open, s'.lh) && Reserved(c, s'.open, s'.lh)
  {
  }

  // ---------------------------------------------------------------- eviction, crash and recovery

  /** Pinned buffers are never recycled, so eviction loses nothing. */
  lemma EvictStep(c: Cfg, s: State, id: Id, s': State)
    requires Inv(c, s) && Step(c, s, Evict(id), s')
    ensures s' == s
    ensures Inv(c, s') && Abs(c, s') == SpecStep(c, Abs(c, s), Evict(id))
  {
  }

  lemma CrashStep(c: Cfg, s: State, s': State)
    requires DiskOk(c, s.disk) && Step(c, s, Crash, s')
    ensures Inv(c, s') && Abs(c, s') == SpecStep(c, Abs(c, s), Crash)
  {
  }

  lemma BootStep(c: Cfg, s: State, s': State)
    requires Inv(c, s) && Step(c, s, Boot, s')
    ensures Inv(c, s') && Abs(c, s') == SpecStep(c, Abs(c, s), Boot)
  {
  }

  lemma RecoverBlockStep(c: Cfg, s: State, s': State)
    requires Inv(c, s) && Step(c, s, RecoverBlock, s')
    ensures Inv(c, s') && Abs(c, s') == SpecStep(c, Abs(c, s), RecoverBlock)
  {
    hide DiskOk, Committed, Homes, EntriesOk, Leaked, HomesReplaced;
    var t := s.phase.tail;
    RecoverCopied(c, s.disk, s.lh, t);
    RecoverLeaks(c, s.disk, s.pin, s.lh, t);
    InstallKeepsCommitted(c, s.disk, t);
  }

  lemma RecoverCopied(c: Cfg, disk: Disk, lh: seq<int>, t: nat)
    requires DiskOk(c, disk) && Entries(disk[c.Header()]) == lh && t < |lh|
    requires HomesReplaced(c, disk, lh, t)
    ensures EntriesOk(c, disk, lh) && c.Home(lh[t]) in disk && c.Slot(t) in disk
    ensures var d := disk[c.Home(lh[t]) := disk[c.Slot(t)]];
            && d.Keys == disk.Keys && c.Header() in d && d[c.Header()] == disk[c.Header()]
            && EntriesOk(c, d, lh) && (forall i :: 0 <= i < c.Slots() ==> c.Slot(i) in d)
            && HomesReplaced(c, d, lh, t + 1)
  {
  }

  lemma RecoverLeaks(c: Cfg, disk: Disk, pin: map<Id, int>, lh: seq<int>, t: nat)
    requires EntriesOk(c, disk, lh) && pin.Keys == disk.Keys && Leaked(c, pin, lh, t) && t < |lh|
    ensures c.Home(lh[t]) in pin && pin[c.Home(lh[t])] == 0
    ensures Leaked(c, pin[c.Home(lh[t]) := UINT32 - 1], lh, t + 1)
    ensures pin[c.Home(lh[t]) := UINT32 - 1].Keys == disk.Keys
  {
  }

  /** A completed recovery leaves every home block with its committed contents. The
      reference counts are balanced again exactly when there was nothing to replay. */
  lemma RecoverClearStep(c: Cfg, s: State, s': State)
    requires Inv(c, s) && Step(c, s, RecoverClear, s')
    ensures DiskOk(c, s'.disk) && Homes(c, s'.disk) == Committed(c, s'.disk) == Committed(c, s.disk)
    ensures Inv(c, s') <==> s.lh == []
    ensures Abs(c, s') == SpecStep(c, Abs(c, s), RecoverClear)
  {
    hide DiskOk, Committed, Homes, EntriesOk, Leaked, HomesReplaced, WithEntries, Entries;
    var b := WithEntries(s.view[c.Header()], []);
    RecoverReady(c, s);
    ClearKeepsCommitted(c, s.disk, b);
    SlotNotHome(c, -1);
    PutOutside(c, s.disk, c.Header(), b);
    RecoverCache(c, s, s', b);
  }

  lemma RecoverReady(c: Cfg, s: State)
    requires Inv(c, s) && s.phase.Recovering? && s.phase.tail == |s.lh|
    ensures c.Header() in s.disk && c.logsize < |s.disk[c.Header()]| && EntriesOk(c, s.disk, s.lh)
    ensures forall i :: 0 <= i < |s.lh| ==> s.disk[c.Home(s.lh[i])] == s.disk[c.Slot(i)]
  {
  }

  lemma RecoverCache(c: Cfg, s: State, s': State, b: Block)
    requires EntriesOk(c, s.disk, s.lh) && s.view == s.disk && s.pin.Keys == s.disk.Keys
             && Leaked(c, s.pin, s.lh, |s.lh|)
    requires c.Header() in s.disk && s'.disk == s.disk[c.Header() := b] && s'.view == s'.disk
    requires s'.pin == s.pin && s'.lh == [] && s'.open == map[]
    ensures CacheOk(c, s'.disk, s'.view, s'.pin, s'.lh) && OpsOk(c, s'.open, s'.lh) && Reserved(c, s'.open, s'.lh)
    ensures Balanced(c, s'.pin, s'.lh, 0) <==> s.lh == []
  {
    if s.lh != [] {
      assert c.Home(s.lh[0]) in s.pin && s.pin[c.Home(s.lh[0])] == UINT32 - 1;
      assert !InLog(c, s'.lh, c.Home(s.lh[0]));
    }
  }

  // ---------------------------------------------------------------- whole runs

  /** Every step keeps the invariant and is one step of the atomic disk; only the
      end of a recovery that replayed something leaves the invariant. Where the log
      area is too small this needs log_write's guard to be undisturbed. */
  lemma StepRefines(c: Cfg, s: State, e: Event, s': State)
    requires Inv(c, s) && Step(c, s, e, s') && (c.Fits() || !e.LogTest? || s.passed == map[])
    ensures DiskOk(c, s'.disk) && Abs(c, s') == SpecStep(c, Abs(c, s), e)
    ensures Inv(c, s') <==> !(e.RecoverClear? && s.lh != [])
    ensures e.WriteHead? ==> s.open == map[]
    ensures s'.phase.Panicked? && !s.phase.Panicked? ==> e.LogPanic? || e.NoBuffers?
  {
    hide DiskOk, CacheOk, Balanced, Committed, Homes, EntriesOk, Leaked, HomesReplaced, Copied, Installed, Reserved,
         OpsOk, RoomOk;
    match e
    case BeginOp(op) => BeginOpStep(c, s, op, s');
    case LogTest(op, b) => LogTestStep(c, s, op, b, s');
    case LogWrite(op, b, data) => LogWriteStep(c, s, op, b, data, s');
    case LogPanic(op, b) =>
    case NoBuffers =>
    case EndOp(op) => EndOpStep(c, s, op, s');
    case WriteSlot => WriteSlotStep(c, s, s');
    case WriteHead => WriteHeadStep(c, s, s');
    case InstallBlock => InstallBlockStep(c, s, s');
    case ClearHead => ClearHeadStep(c, s, s');
    case Evict(id) => EvictStep(c, s, id, s');
    case Crash => CrashStep(c, s, s');
    case Boot => BootStep(c, s, s');
    case RecoverBlock => RecoverBlockStep(c, s, s');
    case RecoverClear => RecoverClearStep(c, s, s');
  }

  ghost predicate IsRun(c: Cfg, ss: seq<State>, es: seq<Event>) {
    && |ss| == |es| + 1
    && forall i :: 0 <= i < |es| ==> Step(c, ss[i], es[i], ss[i + 1])
  }

  /** No operation runs after a recovery that replayed something, until the next boot. */
  ghost predicate CleanRestarts(ss: seq<State>, es: seq<Event>)
    requires |ss| == |es| + 1
  {
    forall i :: 0 <= i < |es| - 1 && es[i].RecoverClear? ==> ss[i].lh == [] || es[i + 1].Crash?
  }

  /** Either the log area is large enough, or no operation passes log_write's guard while
      another one is between the guard and its insertion. */
  ghost predicate Undisturbed(c: Cfg, ss: seq<State>, es: seq<Event>)
    requires |ss| == |es| + 1
  {
    c.Fits() || forall i :: 0 <= i < |es| && es[i].LogTest? ==> ss[i].passed == map[]
  }

  /** The state is within the protocol, or a recovery that replayed something has just ended. */
  ghost predicate Sound(c: Cfg, ss: seq<State>, es: seq<Event>, i: nat)
    requires i < |ss| == |es| + 1
  {
    DiskOk(c, ss[i].disk) && (Inv(c, ss[i]) || (i > 0 && es[i - 1].RecoverClear? && ss[i - 1].lh != []))
  }

  lemma InvDiskOk(c: Cfg, s: State)
    requires Inv(c, s)
    ensures DiskOk(c, s.disk)
  {
  }

  /** Whole runs: whatever the interleaving of operations, commits, evictions,
      crashes and recoveries, the committed contents of the disk and the contents
      operations see are those of the atomic disk after the same events. No commit
      contains part of an operation, and end_op never panics. */
  lemma {:induction false} RunRefines(c: Cfg, ss: seq<State>, es: seq<Event>, n: nat)
    requires IsRun(c, ss, es) && CleanRestarts(ss, es) && Undisturbed(c, ss, es) && Inv(c, ss[0]) && n <= |es|
    ensures Sound(c, ss, es, n) && Abs(c, ss[n]) == SpecRun(c, Abs(c, ss[0]), es[..n])
    ensures n > 0 && es[n - 1].WriteHead? ==> ss[n - 1].open == map[]
    ensures n > 0 && ss[n].phase.Panicked? && !ss[n - 1].phase.Panicked? ==> es[n - 1].LogPanic? || es[n - 1].NoBuffers?
  {
    hide Inv, DiskOk, Abs;
    if n == 0 {
      InvDiskOk(c, ss[0]);
      assert es[..0] == [];
    } else {
      RunRefines(c, ss, es, n - 1);
      var s, e, s' := ss[n - 1], es[n - 1], ss[n];
      assert Step(c, s, e, s');
      assert es[..n][..n - 1] == es[..n - 1];
      if Inv(c, s) {
        StepRefines(c, s, e, s');
      } else {
        CrashStep(c, s, s');
      }
    }
  }

  /** Events that can follow a crash before recovery has completed. */
  predicate OnlyRecovery(es: seq<Event>) {
    forall i :: 0 <= i < |es| ==> es[i].Crash? || es[i].Boot? || es[i].RecoverBlock? || es[i].Evict?
  }

  lemma {:induction false} RecoveryKeepsDurable(c: Cfg, a: Spec, es: seq<Event>)
    requires OnlyRecovery(es)
    ensures SpecRun(c, a, es).durable == a.durable
  {
    if es != [] {
      RecoveryKeepsDurable(c, a, es[..|es| - 1]);
    }
  }

  lemma {:induction false} SpecRunConcat(c: Cfg, a: Spec, es: seq<Event>, fs: seq<Event>)
    ensures SpecRun(c, a, es + fs) == SpecRun(c, SpecRun(c, a, es), fs)
  {
    if fs == [] {
      assert es + fs == es;
    } else {
      var all := es + fs;
      assert all[..|all| - 1] == es + fs[..|fs| - 1];
      SpecRunConcat(c, a, es, fs[..|fs| - 1]);
    }
  }

  /** Crash atomicity: after a crash in any state and any number of further crashes
      during recovery, a completed recovery leaves the home blocks with the
      contents from before the group in progress if its header was not yet
      written, and with the contents the group's completed operations gave them
      if it was. */
  lemma CrashAtomicity(c: Cfg, ss: seq<State>, es: seq<Event>, k: nat)
    requires IsRun(c, ss, es) && CleanRestarts(ss, es) && Undisturbed(c, ss, es) && Inv(c, ss[0])
    requires k < |es| - 1 && es[k].Crash? && OnlyRecovery(es[k + 1..|es| - 1]) && es[|es| - 1].RecoverClear?
    ensures DiskOk(c, ss[k].disk) && Homes(c, ss[|es|].disk) == Committed(c, ss[k].disk)
    ensures Inv(c, ss[k]) && (ss[k].phase.Running? || ss[k].phase.Logging?) ==>
              Homes(c, ss[|es|].disk) == Homes(c, ss[k].disk)
    ensures Inv(c, ss[k]) && ss[k].phase.Installing? ==>
              ss[k].open == map[] && Homes(c, ss[|es|].disk) == Homes(c, ss[k].view)
  {
    RecoveryEndsDurable(c, ss, es, k);
    CommittedByPhase(c, ss[k]);
  }

  lemma CommittedByPhase(c: Cfg, s: State)
    requires DiskOk(c, s.disk)
    ensures Inv(c, s) && (s.phase.Running? || s.phase.Logging?) ==> Committed(c, s.disk) == Homes(c, s.disk)
    ensures Inv(c, s) && s.phase.Installing? ==> s.open == map[] && Committed(c, s.disk) == Homes(c, s.view)
  {
    hide Homes, Committed, Balanced, Reserved;
    if Inv(c, s) && (s.phase.Running? || s.phase.Logging?) {
      CommittedIdle(c, s.disk);
    }
    if Inv(c, s) && s.phase.Installing? {
      CommittedLogged(c, s);
    }
  }

  lemma RecoveryEndsDurable(c: Cfg, ss: seq<State>, es: seq<Event>, k: nat)
    requires IsRun(c, ss, es) && CleanRestarts(ss, es) && Undisturbed(c, ss, es) && Inv(c, ss[0])
    requires k < |es| - 1 && es[k].Crash? && OnlyRecovery(es[k + 1..|es| - 1]) && es[|es| - 1].RecoverClear?
    ensures DiskOk(c, ss[k].disk) && Homes(c, ss[|es|].disk) == Committed(c, ss[k].disk)
  {
    hide Inv, DiskOk, Homes, Committed, Step;
    var m := |es| - 1;
    RunRefines(c, ss, es, k);
    RunRefines(c, ss, es, k + 1);
    RunRefines(c, ss, es, m);
    assert es[..k + 1][..k] == es[..k];
    assert es[..m] == es[..k + 1] + es[k + 1..m];
    InvDiskOk(c, ss[0]);
    var a := Abs(c, ss[0]);
    SpecRunConcat(c, a, es[..k + 1], es[k + 1..m]);
    RecoveryKeepsDurable(c, SpecRun(c, a, es[..k + 1]), es[k + 1..m]);
    assert !es[m - 1].RecoverClear? by {
      if m - 1 > k {
        assert es[k + 1..m][m - 1 - (k + 1)] == es[m - 1];
      }
    }
    RecoverClearStep(c, ss[m], ss[m + 1]);
  }

  /** A group whose commit returned is in place on the disk, and a crash right then loses nothing. */
  lemma CommitIsDurable(c: Cfg, ss: seq<State>, es: seq<Event>)
    requires IsRun(c, ss, es) && CleanRestarts(ss, es) && Undisturbed(c, ss, es) && Inv(c, ss[0]) && |es| > 0
             && es[|es| - 1].ClearHead?
    ensures DiskOk(c, ss[0].disk) && DiskOk(c, ss[|es|].disk)
    ensures var a := SpecRun(c, Abs(c, ss[0]), es);
            Homes(c, ss[|es|].disk) == a.durable == a.pending && Committed(c, ss[|es|].disk) == a.durable
  {
    hide DiskOk, Homes, Committed, Step;
    var m := |es| - 1;
    RunRefines(c, ss, es, m);
    RunRefines(c, ss, es, m + 1);
    assert es[..|es|] == es;
    InvDiskOk(c, ss[0]);
    assert Step(c, ss[m], es[m], ss[m + 1]);
    assert Inv(c, ss[m]) by {
      ClearNeedsInstalling(c, ss[m], ss[m + 1]);
      if m > 0 {
        assert Step(c, ss[m - 1], es[m - 1], ss[m]);
        ClearNeedsRunning(c, ss[m - 1], es[m - 1], ss[m]);
      }
    }
    ClearHeadStep(c, ss[m], ss[m + 1]);
    CommittedByPhase(c, ss[m + 1]);
  }

  lemma ClearNeedsInstalling(c: Cfg, s: State, s': State)
    requires Step(c, s, ClearHead, s')
    ensures s.phase.Installing?
  {
  }

  lemma ClearNeedsRunning(c: Cfg, s: State, e: Event, s': State)
    requires Step(c, s, e, s') && s'.phase.Installing?
    ensures !e.RecoverClear?
  {
  }
}
