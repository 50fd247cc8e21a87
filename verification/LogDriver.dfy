/** The code of the write-ahead log (kernel/log.c) over the buffer cache.

  Every method records the protocol steps it takes: after each block write the
  state of log, cache and disk is appended to `ss`. What a crash at any of these
  points leaves behind is therefore covered by the theorems on runs.
 */
module LogDriver {
  import opened Common
  import opened Bio
  import opened Log

  /** n times the same event. */
  function Times(e: Event, n: nat): (es: seq<Event>)
    ensures |es| == n && forall i :: 0 <= i < n ==> es[i] == e
  {
    seq(n, i => e)
  }

  /** What a step of write_log needs: distinct blocks, the home block pinned once, the slot not referenced. */
  lemma LoggingFacts(c: Cfg, s: State)
    requires Inv(c, s) && s.phase.Logging? && s.phase.tail < |s.lh| <= c.Slots()
    ensures var src, dst := c.Home(s.lh[s.phase.tail]), c.Slot(s.phase.tail);
            && src != dst && src in s.disk && dst in s.disk && src in s.view && src in s.pin && dst in s.pin
            && s.pin[src] == 1 && s.pin[dst] == 0
  {
  }

  lemma WriteSlotIs(c: Cfg, s: State, s': State)
    requires Inv(c, s) && s.phase.Logging? && s.phase.tail < |s.lh| <= c.Slots() && |s.lh| < c.nbuf
    requires c.Home(s.lh[s.phase.tail]) in s.view
    requires var dst, data := c.Slot(s.phase.tail), s.view[c.Home(s.lh[s.phase.tail])];
             s' == s.(disk := s.disk[dst := data], view := s.view[dst := data], phase := Logging(s.phase.tail + 1))
    ensures Step(c, s, WriteSlot, s')
  {
  }

  ghost predicate HeadPhase(s: State, e: Event) {
    if e.WriteHead? then s.phase == Logging(|s.lh|)
    else if e.ClearHead? then s.phase == Installing(|s.lh|)
    else s.phase == Recovering(|s.lh|)
  }

  lemma HeadFacts(c: Cfg, s: State, e: Event)
    requires Inv(c, s) && HeadPhase(s, e)
    ensures c.Header() in s.disk && c.Header() in s.view && c.Header() in s.pin
    ensures s.view[c.Header()] == s.disk[c.Header()] && s.pin[c.Header()] == 0
    ensures c.logsize < |s.view[c.Header()]| && |s.lh| <= c.logsize
  {
  }

  lemma WriteHeadIs(c: Cfg, s: State, e: Event, s': State)
    requires Inv(c, s) && (e.WriteHead? || e.ClearHead? || e.RecoverClear?) && HeadPhase(s, e)
    requires c.Header() in s.view && |s.lh| < |s.view[c.Header()]|
    requires var b := WithEntries(s.view[c.Header()], if e.WriteHead? then s.lh else []);
             s' == State(s.disk[c.Header() := b], s.view[c.Header() := b], s.pin, if e.WriteHead? then s.lh else [],
                         s.open, s.passed, if e.WriteHead? then Installing(0) else Running)
    ensures Step(c, s, e, s')
  {
    hide CacheOk, Balanced, Leaked, Reserved, OpsOk, Copied, Installed, HomesReplaced, EntriesOk;
    HeadFacts(c, s, e);
  }

  lemma InstallFacts(c: Cfg, s: State)
    requires Inv(c, s) && (s.phase.Installing? || s.phase.Recovering?) && s.phase.tail < |s.lh|
    ensures var src, dst := c.Slot(s.phase.tail), c.Home(s.lh[s.phase.tail]);
            && src != dst && src in s.disk && dst in s.disk && src in s.view && src in s.pin && dst in s.pin
            && s.view[src] == s.disk[src] && s.pin[src] == 0
            && s.pin[dst] == if s.phase.Installing? then 1 else 0
  {
  }

  lemma InstallIs(c: Cfg, s: State, e: Event, s': State)
    requires Inv(c, s) && (s.phase.Installing? || s.phase.Recovering?) && s.phase.tail < |s.lh|
    requires e == if s.phase.Installing? then InstallBlock else RecoverBlock
    requires c.Slot(s.phase.tail) in s.view && c.Home(s.lh[s.phase.tail]) in s.pin
    requires var t, dst, data := s.phase.tail, c.Home(s.lh[s.phase.tail]), s.view[c.Slot(s.phase.tail)];
             s' == State(s.disk[dst := data], s.view[dst := data], s.pin[dst := Dec32(s.pin[dst])], s.lh, s.open,
                         s.passed, if s.phase.Installing? then Installing(t + 1) else Recovering(t + 1))
    ensures Step(c, s, e, s')
  {
    InstallFacts(c, s);
  }

  lemma InstallKeeps(c: Cfg, s: State, e: Event, s': State)
    requires Inv(c, s) && Step(c, s, e, s') && (e.InstallBlock? || e.RecoverBlock?)
    ensures Inv(c, s') && SameCommitted(c, s.disk, s'.disk)
  {
    hide Inv, Step;
    InvDiskOk(c, s);
    StepRefines(c, s, e, s');
  }

  /** The home blocks of entries lo to hi are hi - lo blocks. */
  lemma {:induction false} HomeCount(c: Cfg, lh: seq<int>, lo: nat, hi: nat, ids: set<Id>)
    requires Distinct(lh) && lo <= hi <= |lh|
    requires forall x :: x in ids <==> exists i :: lo <= i < hi && c.Home(lh[i]) == x
    ensures |ids| == hi - lo
  {
    if lo == hi {
      assert ids == {};
    } else {
      var last := c.Home(lh[hi - 1]);
      assert ids == (ids - {last}) + {last};
      HomeCount(c, lh, lo, hi - 1, ids - {last});
    }
  }

  /** The entries whose buffers are referenced, in each phase of the protocol. */
  ghost function PinnedFrom(p: Phase): nat {
    if p.Installing? then p.tail else 0
  }

  ghost function PinnedTo(p: Phase, n: nat): nat {
    if p.Recovering? then p.tail else n
  }

  /** How many buffers the protocol keeps referenced: those of the group before
      it is installed, those of the replayed entries in recovery. */
  lemma PinCount(c: Cfg, s: State)
    requires Inv(c, s) && !s.phase.Down? && !s.phase.Panicked?
    ensures Busy(s.pin) == PinnedTo(s.phase, |s.lh|) - PinnedFrom(s.phase)
  {
    var ids := set id | id in s.pin && s.pin[id] != 0;
    var lo, hi := PinnedFrom(s.phase), PinnedTo(s.phase, |s.lh|);
    forall x
      ensures x in ids <==> exists i :: lo <= i < hi && c.Home(s.lh[i]) == x
    {
      if x in ids {
        assert InLog(c, s.lh, x);
      }
    }
    HomeCount(c, s.lh, lo, hi, ids);
  }

  lemma LastDisk(c: Cfg, ss: seq<State>, es: seq<Event>)
    requires IsRun(c, ss, es) && Inv(c, ss[|es|])
    ensures |ss| == |es| + 1 && DiskOk(c, ss[|es|].disk)
  {
  }

  ghost predicate SameCommitted(c: Cfg, d: Disk, d': Disk) {
    DiskOk(c, d) && DiskOk(c, d') && Committed(c, d') == Committed(c, d)
  }

  lemma BootIs(c: Cfg, s: State, s': State)
    requires DiskOk(c, s.disk) && s.phase.Down?
    requires s' == State(s.disk, s.disk, map id | id in s.disk :: 0, Entries(s.disk[c.Header()]), map[], map[],
                         Recovering(0))
    ensures Step(c, s, Boot, s')
  {
  }

  lemma UpdateFacts(c: Cfg, s: State, bn: int)
    requires Inv(c, s) && s.phase.Running? && c.Home(bn) in s.disk
    ensures c.Home(bn) in s.view && c.Home(bn) in s.pin
    ensures s.pin[c.Home(bn)] == if bn in s.lh then 1 else 0
  {
  }

  lemma OpenCounts(open: map<int, set<int>>, op: int)
    requires op in open
    ensures |open| >= 1 && |open - {op}| == |open| - 1 && (open - {op} == map[] <==> |open| == 1)
  {
  }

  lemma OpenUpdate(open: map<int, set<int>>, op: int, w: set<int>)
    requires op in open
    ensures |open[op := w]| == |open|
  {
  }

  /** A call of log_write that nobody interrupts: the guard and then the insertion. */
  lemma LogWriteIs(c: Cfg, s: State, op: int, bn: int, data: Block, s': State)
    requires s.phase.Running? && op in s.open && s.passed == map[] && |s.open[op] + {bn}| <= c.maxop
    requires |s.lh| < c.logsize && |s.lh| < c.size - 1
    requires c.Home(bn) in s.view && c.Home(bn) in s.pin && c.IsHome(c.Home(bn)) && 0 <= s.pin[c.Home(bn)] < UINT32 - 1
    requires s' == State(s.disk, s.view[c.Home(bn) := data],
                         if bn in s.lh then s.pin else s.pin[c.Home(bn) := s.pin[c.Home(bn)] + 1],
                         if bn in s.lh then s.lh else s.lh + [bn],
                         s.open[op := s.open[op] + {bn}], map[], Running)
    ensures Step(c, s, Event.LogTest(op, bn), s.(passed := map[op := bn]))
    ensures Step(c, s.(passed := map[op := bn]), Event.LogWrite(op, bn, data), s')
  {
    assert s.passed[op := bn] == map[op := bn] && map[op := bn] - {op} == map[];
  }

  lemma LogWriteKeeps(c: Cfg, s: State, op: int, bn: int, data: Block, s': State)
    requires Inv(c, s) && s.passed == map[] && Step(c, s, Event.LogTest(op, bn), s.(passed := map[op := bn]))
    requires Step(c, s.(passed := map[op := bn]), Event.LogWrite(op, bn, data), s')
    ensures Inv(c, s')
  {
    hide Inv, Step;
    StepRefines(c, s, Event.LogTest(op, bn), s.(passed := map[op := bn]));
    StepRefines(c, s.(passed := map[op := bn]), Event.LogWrite(op, bn, data), s');
  }

  ghost function Ended(s: State, op: int): State {
    s.(open := s.open - {op}, phase := if |s.open| == 1 && |s.lh| > 0 then Logging(0) else Running)
  }

  lemma EndOpIs(c: Cfg, s: State, op: int)
    requires Inv(c, s) && s.phase.Running? && op in s.open && s.passed == map[]
    ensures Step(c, s, Event.EndOp(op), Ended(s, op)) && Inv(c, Ended(s, op))
  {
    hide Inv;
    OpenCounts(s.open, op);
    StepRefines(c, s, Event.EndOp(op), Ended(s, op));
  }

  /** Two bread calls in a row: both buffers, or None where one of them panics. */
  method OpenPair(bc: BufferCache, first: Id, second: Id) returns (r: Option<(int, int)>)
    requires bc.Valid() && bc.held == {} && first != second && first in bc.disk && second in bc.disk
    requires 0 <= bc.refs[first] < UINT32 - 1 && 0 <= bc.refs[second] < UINT32 - 1
    modifies bc
    ensures bc.Valid() && bc.disk == old(bc.disk) && bc.view == old(bc.view)
    ensures r.None? <==> var busy := Busy(old(bc.refs));
                         || (old(bc.refs)[first] == 0 && busy == bc.n)
                         || (old(bc.refs)[second] == 0 && busy + (if old(bc.refs)[first] == 0 then 1 else 0) >= bc.n)
    ensures r.Some? ==> var (x, y) := r.value;
                        && 0 <= x < bc.n && 0 <= y < bc.n && x != y && |bc.buf| == bc.n
                        && bc.buf[x] == Buf(first, true, old(bc.refs[first]) + 1, true, bc.view[first])
                        && bc.buf[y] == Buf(second, true, old(bc.refs[second]) + 1, true, bc.view[second])
                        && bc.refs == old(bc.refs)[first := old(bc.refs[first]) + 1][second := old(bc.refs[second]) + 1]
                        && bc.held == {first, second}
  {
    hide BufferCache.Valid, Busy;
    bc.Domains();
    BusyUpdate(bc.refs, first, bc.refs[first] + 1);
    var x := bc.Bread(first);
    if x.None? {
      return None;
    }
    bc.Domains();
    var y := bc.Bread(second);
    if y.None? {
      return None;
    }
    r := Some((x.value, y.value));
  }

  /** Two brelse calls in a row, on buffers the disk agrees with where needed. */
  method ClosePair(bc: BufferCache, x: int, y: int)
    requires bc.Valid() && 0 <= x < bc.n && 0 <= y < bc.n && x != y && |bc.buf| == bc.n
    requires bc.buf[x].locked && bc.buf[y].locked && bc.buf[x].id != bc.buf[y].id
    requires bc.buf[x].id in bc.disk && bc.buf[y].id in bc.disk && bc.held == {bc.buf[x].id, bc.buf[y].id}
    requires bc.buf[x].refcnt == 1 ==> bc.buf[x].data == bc.disk[bc.buf[x].id]
    requires bc.buf[y].refcnt == 1 ==> bc.buf[y].data == bc.disk[bc.buf[y].id]
    modifies bc
    ensures bc.Valid() && bc.disk == old(bc.disk) && bc.view == old(bc.view) && bc.held == {}
    ensures bc.refs == old(bc.refs)[old(bc.buf[x].id) := Dec32(old(bc.refs[bc.buf[x].id]))]
                       [old(bc.buf[y].id) := Dec32(old(bc.refs[bc.buf[y].id]))]
  {
    hide BufferCache.Valid;
    bc.Domains();
    bc.Brelse(x);
    bc.Brelse(y);
  }

  /** Body of write_log's loop: copy the cached home block `src` to log block `dst`
      and write that. False where bread panics. */
  method LogOne(bc: BufferCache, src: Id, dst: Id) returns (ok: bool)
    requires bc.Valid() && bc.held == {} && src != dst && src in bc.disk && dst in bc.disk
    requires 0 < bc.refs[src] < UINT32 - 1 && bc.refs[dst] == 0
    modifies bc
    ensures ok <==> Busy(old(bc.refs)) < bc.n
    ensures !ok ==> bc.disk == old(bc.disk)
    ensures ok ==> && bc.Valid() && bc.held == {}
                   && bc.disk == old(bc.disk)[dst := old(bc.view)[src]]
                   && bc.view == old(bc.view)[dst := old(bc.view)[src]]
                   && bc.refs == old(bc.refs)
  {
    hide BufferCache.Valid, Busy;
    bc.Domains();
    var r := OpenPair(bc, dst, src);     // log block, cache block
    if r.None? {
      return false;
    }
    var (to, from) := r.value;
    bc.SetData(to, bc.buf[from].data);
    bc.Bwrite(to);                       // write the log
    ClosePair(bc, from, to);
    assert bc.refs == old(bc.refs);
    return true;
  }

  /** Body of install_trans' loop: copy log block `src` over home block `dst`, write
      it and unpin it. False where bread panics. */
  method InstallOne(bc: BufferCache, src: Id, dst: Id) returns (ok: bool)
    requires bc.Valid() && bc.held == {} && src != dst && src in bc.disk && dst in bc.disk
    requires bc.refs[src] == 0 && bc.view[src] == bc.disk[src] && 0 <= bc.refs[dst] < UINT32 - 1
    modifies bc
    ensures ok <==> Busy(old(bc.refs)) + (if old(bc.refs[dst]) == 0 then 1 else 0) < bc.n
    ensures !ok ==> bc.disk == old(bc.disk)
    ensures ok ==> && bc.Valid() && bc.held == {}
                   && bc.disk == old(bc.disk)[dst := old(bc.view)[src]]
                   && bc.view == old(bc.view)[dst := old(bc.view)[src]]
                   && bc.refs == old(bc.refs)[dst := Dec32(old(bc.refs)[dst])]
  {
    hide BufferCache.Valid, Busy;
    bc.Domains();
    var r := OpenPair(bc, src, dst);     // read log block, read dst
    if r.None? {
      return false;
    }
    var (lbuf, dbuf) := r.value;
    bc.SetData(dbuf, bc.buf[lbuf].data);
    bc.Bwrite(dbuf);                     // write dst to disk
    bc.Bunpin(dbuf);
    ClosePair(bc, lbuf, dbuf);
    assert bc.refs == old(bc.refs)[dst := Dec32(old(bc.refs)[dst])];
    return true;
  }

  class FsLog {
    const c: Cfg
    const bc: BufferCache
    var n: int                       // lh.n
    var block: seq<int>              // lh.block
    var outstanding: int
    var committing: bool
    ghost var open: map<int, set<int>>
    ghost var phase: Phase
    ghost var ss: seq<State>         // the run so far
    ghost var es: seq<Event>

    ghost function M(): State
      requires 0 <= n <= |block|
      reads this, bc
    {
      State(bc.disk, bc.view, bc.refs, block[..n], open, map[], phase)
    }

    ghost predicate Valid()
      reads this, bc
    {
      && bc.Valid() && bc.held == {}
      && bc.n == c.nbuf && |block| == c.logsize && 0 <= n <= c.Slots()
      && outstanding == |open| && (committing ==> open == map[])
      && IsRun(c, ss, es) && ss[|es|] == M() && Inv(c, M())
    }

    /** The kernel has panicked; the disk is as in the last recorded state. */
    ghost predicate Stopped()
      reads this, bc
    {
      IsRun(c, ss, es) && ss[|es|].disk == bc.disk && Inv(c, ss[|es|])
    }

    lemma InvDisk()
      requires Valid()
      ensures DiskOk(c, bc.disk)
    {
    }

    /** A reboot: memory is fresh, and the run so far ended with the power off. */
    constructor (c: Cfg, bc: BufferCache, ghost ss: seq<State>, ghost es: seq<Event>)
      requires bc.n == c.nbuf
      requires IsRun(c, ss, es) && ss[|es|] == State(bc.disk, map[], map[], [], map[], map[], Down) && Inv(c, ss[|es|])
      ensures this.c == c && this.bc == bc && this.ss == ss && this.es == es
      ensures n == 0 && |block| == c.logsize && outstanding == 0 && !committing
      ensures open == map[] && phase == Down
    {
      this.c, this.bc := c, bc;
      n, block := 0, seq(c.logsize, i => 0);
      outstanding, committing := 0, false;
      this.ss, this.es := ss, es;
      open, phase := map[], Down;
    }

    /** Record that s follows the last recorded state by event e. */
    ghost method Note(e: Event, s: State)
      requires IsRun(c, ss, es) && Step(c, ss[|es|], e, s)
      modifies this`ss, this`es
      ensures IsRun(c, ss, es) && ss[|es|] == s
      ensures es == old(es) + [e] && ss == old(ss) + [s]
    {
      hide Step;
      ss, es := ss + [s], es + [e];
      forall i | 0 <= i < |es|
        ensures Step(c, ss[i], es[i], ss[i + 1])
      {
        if i < |es| - 1 {
          assert Step(c, old(ss)[i], old(es)[i], old(ss)[i + 1]);
        }
      }
    }

    /** Record that the current state follows the last recorded one by event e. */
    ghost method Record(e: Event)
      requires 0 <= n <= |block| && IsRun(c, ss, es) && Step(c, ss[|es|], e, M())
      modifies this`ss, this`es
      ensures IsRun(c, ss, es) && ss[|es|] == M()
      ensures es == old(es) + [e] && ss == old(ss) + [M()]
    {
      hide Step;
      Note(e, M());
    }

    /** Record the two steps of a call of log_write that starts in the last recorded state. */
    ghost method RecordWrite(s: State, op: int, bn: int, data: Block)
      requires 0 <= n <= |block| && IsRun(c, ss, es) && ss[|es|] == s && Inv(c, s)
      requires s.phase.Running? && op in s.open && s.passed == map[] && |s.open[op] + {bn}| <= c.maxop
      requires |s.lh| < c.logsize && |s.lh| < c.size - 1
      requires c.Home(bn) in s.view && c.Home(bn) in s.pin && c.IsHome(c.Home(bn))
               && 0 <= s.pin[c.Home(bn)] < UINT32 - 1
      requires M() == State(s.disk, s.view[c.Home(bn) := data],
                            if bn in s.lh then s.pin else s.pin[c.Home(bn) := s.pin[c.Home(bn)] + 1],
                            if bn in s.lh then s.lh else s.lh + [bn],
                            s.open[op := s.open[op] + {bn}], map[], Running)
      modifies this`ss, this`es
      ensures IsRun(c, ss, es) && ss[|es|] == M() && Inv(c, M())
      ensures es == old(es) + [Event.LogTest(op, bn), Event.LogWrite(op, bn, data)] && old(ss) <= ss
    {
      hide Step, Inv, IsRun;
      LogWriteIs(c, s, op, bn, data, M());
      LogWriteKeeps(c, s, op, bn, data, M());
      Note(Event.LogTest(op, bn), s.(passed := map[op := bn]));
      Record(Event.LogWrite(op, bn, data));
    }

    method LogStep(tail: int) returns (ok: bool)
      requires Valid() && 0 <= tail < n && phase == Logging(tail)
      modifies this`phase, this`ss, this`es, bc
      ensures ok ==> && Valid() && phase == Logging(tail + 1)
                     && es == old(es) + [WriteSlot] && ss == old(ss) + [M()]
      ensures ok <==> n < bc.n
      ensures !ok ==> Stopped() && ss == old(ss)
    {
      hide Inv, Step, IsRun, BufferCache.Valid, Busy;
      ghost var s := M();
      LoggingFacts(c, s);
      PinCount(c, s);
      ok := LogOne(bc, c.Home(block[tail]), c.Slot(tail));
      if ok {
        phase := Logging(tail + 1);
        WriteSlotIs(c, s, M());
        StepRefines(c, s, WriteSlot, M());
        Record(WriteSlot);
      }
    }

    /** write_log: the modified blocks of the group go from the cache to the log. */
    method WriteLog() returns (ok: bool)
      requires Valid() && 0 <= n && phase == Logging(0)
      modifies this`phase, this`ss, this`es, bc
      ensures ok ==> Valid() && phase == Logging(n) && es == old(es) + Times(WriteSlot, n)
      ensures ok <==> n == 0 || n < bc.n
      ensures !ok ==> Stopped()
      ensures old(ss) <= ss
    {
      hide FsLog.Valid, FsLog.Stopped;
      var tail := 0;
      while tail < n
        invariant 0 <= tail <= n && Valid() && phase == Logging(tail)
        invariant es == old(es) + Times(WriteSlot, tail) && old(ss) <= ss
        invariant tail > 0 ==> n < bc.n
      {
        ok := LogStep(tail);
        if !ok {
          return;
        }
        tail := tail + 1;
      }
      ok := true;
    }

    /** write_head: rewrite the header block with the in-memory header. */
    method WriteHead() returns (ok: bool)
      requires bc.Valid() && bc.held == {} && c.Header() in bc.disk && 0 <= n <= |block| && n < |bc.view[c.Header()]|
      requires bc.refs[c.Header()] == 0 && bc.view[c.Header()] == bc.disk[c.Header()]
      modifies bc
      ensures ok <==> Busy(old(bc.refs)) < bc.n
      ensures !ok ==> bc.disk == old(bc.disk)
      ensures ok ==> && bc.Valid() && bc.held == {} && bc.refs == old(bc.refs)
                     && var b := WithEntries(old(bc.view[c.Header()]), block[..n]);
                        bc.disk == old(bc.disk)[c.Header() := b] && bc.view == old(bc.view)[c.Header() := b]
    {
      hide BufferCache.Valid, Busy, FirstFor, LastUnused, ToFront;
      bc.Domains();
      var r := bc.Bread(c.Header());
      if r.None? {
        return false;
      }
      var hb := bc.buf[r.value].data;
      ghost var was := hb;
      hb := hb[0 := n];
      var i := 0;
      while i < n
        invariant 0 <= i <= n && |hb| == |was|
        invariant forall k :: 0 <= k < |hb| ==> hb[k] == if k == 0 then n else if k <= i then block[k - 1] else was[k]
      {
        hb := hb[1 + i := block[i]];
        i := i + 1;
      }
      assert hb == WithEntries(was, block[..n]);
      bc.SetData(r.value, hb);
      bc.Bwrite(r.value);
      bc.Brelse(r.value);
      assert bc.refs == old(bc.refs) && bc.held == {};
      return true;
    }

    /** write_head as a protocol step: e is the commit point, the end of a commit or the end of recovery. */
    method CommitHead(ghost e: Event, ghost s: State, ghost next: Phase) returns (ok: bool)
      requires 0 <= n <= |block| == c.logsize && bc.Valid() && bc.held == {} && Inv(c, s)
      requires IsRun(c, ss, es) && ss[|es|] == s && s == M().(lh := s.lh)
      requires (e.WriteHead? && next == Installing(0)) || ((e.ClearHead? || e.RecoverClear?) && next == Running)
      requires HeadPhase(s, e) && block[..n] == if e.WriteHead? then s.lh else []
      modifies this`phase, this`ss, this`es, bc
      ensures old(ss) <= ss
      ensures ok <==> (if e.ClearHead? then 0 else |s.lh|) < bc.n
      ensures !ok ==> Stopped()
      ensures ok ==> && bc.Valid() && bc.held == {} && phase == next && es == old(es) + [e]
                     && IsRun(c, ss, es) && ss[|es|] == M() && Step(c, s, e, M())
    {
      hide Inv, Step, BufferCache.Valid, Busy;
      HeadFacts(c, s, e);
      PinCount(c, s);
      ok := WriteHead();
      if ok {
        phase := next;
        WriteHeadIs(c, s, e, M());
        Record(e);
      }
    }

    method InstallStep(tail: int, ghost e: Event) returns (ok: bool)
      requires Valid() && 0 <= tail < n
      requires if e.InstallBlock? then phase == Installing(tail) else e.RecoverBlock? && phase == Recovering(tail)
      modifies this`phase, this`ss, this`es, bc
      ensures ok ==> && Valid() && phase == (if e.InstallBlock? then Installing(tail + 1) else Recovering(tail + 1))
                     && es == old(es) + [e] && ss == old(ss) + [M()] && SameCommitted(c, old(bc.disk), bc.disk)
      ensures ok <==> (if e.InstallBlock? then n - tail else tail + 1) < bc.n
      ensures !ok ==> Stopped() && ss == old(ss)
    {
      hide Inv, Step, IsRun, BufferCache.Valid, Busy, SameCommitted;
      ghost var s := M();
      InstallFacts(c, s);
      PinCount(c, s);
      ok := InstallOne(bc, c.Slot(tail), c.Home(block[tail]));
      if ok {
        phase := if phase.Installing? then Installing(tail + 1) else Recovering(tail + 1);
        InstallIs(c, s, e, M());
        InstallKeeps(c, s, e, M());
        Record(e);
      }
    }

    /** install_trans, in commit or in recovery: the logged blocks go home. */
    method InstallTrans() returns (ok: bool)
      requires Valid() && 0 <= n && (phase == Installing(0) || phase == Recovering(0))
      modifies this`phase, this`ss, this`es, bc
      ensures old(ss) <= ss
      ensures ok ==> && Valid()
                     && phase == (if old(phase).Installing? then Installing(n) else Recovering(n))
                     && es == old(es) + Times(if old(phase).Installing? then InstallBlock else RecoverBlock, n)
                     && SameCommitted(c, old(bc.disk), bc.disk)
      ensures ok <==> n == 0 || n < bc.n
      ensures !ok ==> Stopped()
    {
      hide FsLog.Valid, FsLog.Stopped;
      ghost var e := if phase.Installing? then InstallBlock else RecoverBlock;
      InvDisk();
      var tail := 0;
      while tail < n
        invariant 0 <= tail <= n && Valid()
        invariant phase == if old(phase).Installing? then Installing(tail) else Recovering(tail)
        invariant es == old(es) + Times(e, tail) && old(ss) <= ss && SameCommitted(c, old(bc.disk), bc.disk)
        invariant tail > 0 ==> (if e.InstallBlock? then n else tail) < bc.n
      {
        ok := InstallStep(tail, e);
        if !ok {
          return;
        }
        tail := tail + 1;
      }
      ok := true;
    }

    /** The events of a commit of n blocks, in the order of their block writes. */
    static ghost function CommitEvents(n: nat): seq<Event> {
      Times(WriteSlot, n) + [Event.WriteHead] + Times(InstallBlock, n) + [ClearHead]
    }

    /** The first half of commit, up to the write that commits the group. */
    method CommitPoint() returns (ok: bool)
      requires Valid() && 0 < n && phase == Logging(0)
      modifies this`phase, this`ss, this`es, bc
      ensures old(ss) <= ss
      ensures ok <==> n < bc.n
      ensures !ok ==> Stopped()
      ensures ok ==> Valid() && phase == Installing(0) && es == old(es) + Times(WriteSlot, n) + [Event.WriteHead]
    {
      hide Inv, Step, IsRun, BufferCache.Valid, Times, Abs, SpecStep, DiskOk, WithEntries;
      ok := WriteLog();
      if !ok {
        return;
      }
      ghost var s := M();
      ok := CommitHead(Event.WriteHead, s, Installing(0));
      if ok {
        StepRefines(c, s, Event.WriteHead, M());
      }
    }

    /** commit: log the group, write the header, install the group, erase the header.
        It panics exactly if the group pins every buffer. */
    method Commit() returns (ok: bool)
      requires Valid() && 0 <= n <= |block| && phase == (if n > 0 then Logging(0) else Running)
      modifies this`phase, this`ss, this`es, this`n, bc
      ensures old(ss) <= ss
      ensures ok <==> old(n) == 0 || old(n) < bc.n
      ensures !ok ==> Stopped()
      ensures ok ==> Valid() && phase == Running && n == 0
      ensures ok ==> es == old(es) + if old(n) > 0 then CommitEvents(old(n)) else []
    {
      hide Inv, Step, IsRun, BufferCache.Valid, Times, Abs, SpecStep, DiskOk, WithEntries;
      if n == 0 {
        return true;
      }
      ok := CommitPoint();
      if !ok {
        return;
      }
      ok := InstallTrans();
      if !ok {
        return;
      }
      ok := EraseHead(ClearHead);
    }

    /** lh.n = 0; write_head(): the end of a commit or of a recovery. */
    method EraseHead(ghost e: Event) returns (ok: bool)
      requires Valid() && 0 <= n <= |block| && (e.ClearHead? || e.RecoverClear?) && HeadPhase(M(), e)
      modifies this`phase, this`ss, this`es, this`n, bc
      ensures old(ss) <= ss
      ensures ok <==> (if e.ClearHead? then 0 else old(n)) < bc.n
      ensures !ok ==> Stopped()
      ensures ok ==> && n == 0 && phase == Running && es == old(es) + [e] && bc.Valid() && bc.held == {}
                     && IsRun(c, ss, es) && ss[|es|] == M() && Step(c, old(M()), e, M())
                     && (e.ClearHead? || old(n) == 0 ==> Valid())
    {
      hide Inv, Step, BufferCache.Valid;
      ghost var s := M();
      n := 0;
      ok := CommitHead(e, s, Running);
      if ok {
        StepRefines(c, s, e, M());
      }
    }

    /** read_head: the header on disk becomes the in-memory header. */
    method ReadHead() returns (ok: bool)
      requires bc.Valid() && bc.held == {} && bc.view == bc.disk && c.Header() in bc.disk && |block| == c.logsize
      requires HeaderOk(bc.disk[c.Header()], c.logsize) && bc.refs[c.Header()] == 0
      modifies this`n, this`block, bc
      ensures bc.disk == old(bc.disk) && |block| == c.logsize
      ensures ok <==> Busy(old(bc.refs)) < bc.n
      ensures ok ==> && bc.Valid() && bc.held == {} && bc.view == bc.disk && bc.refs == old(bc.refs)
                     && 0 <= n <= c.logsize && block[..n] == Entries(bc.disk[c.Header()])
    {
      hide BufferCache.Valid, Busy, FirstFor, LastUnused, ToFront;
      bc.Domains();
      var r := bc.Bread(c.Header());
      if r.None? {
        return false;
      }
      var lh := bc.buf[r.value].data;
      n := lh[0];
      var i := 0;
      while i < n
        invariant 0 <= i <= n <= c.logsize == |block| && n == lh[0]
        invariant block[..i] == lh[1..1 + i]
        modifies this`block
      {
        assert lh[1..2 + i] == lh[1..1 + i] + [lh[i + 1]];
        block := block[i := lh[i + 1]];
        assert block[..i + 1] == block[..i] + [lh[i + 1]];
        i := i + 1;
      }
      assert block[..n] == Entries(lh);
      bc.Brelse(r.value);
      assert bc.refs == old(bc.refs) && bc.held == {};
      return true;
    }

    /** The first part of recovery: read_head on a fresh cache. */
    method Boot() returns (ok: bool)
      requires |block| == c.logsize && outstanding == 0 && open == map[] && !committing
      requires bc.n == c.nbuf
      requires IsRun(c, ss, es) && ss[|es|] == State(bc.disk, map[], map[], [], map[], map[], Down) && Inv(c, ss[|es|])
      requires bc.Valid() && bc.held == {} && bc.view == bc.disk && bc.refs == map id | id in bc.disk :: 0
      modifies this`n, this`block, this`phase, this`ss, this`es, bc
      ensures old(ss) <= ss && bc.disk == old(bc.disk)
      ensures ok <==> bc.n > 0
      ensures !ok ==> Stopped()
      ensures ok ==> && Valid() && phase == Recovering(0) && es == old(es) + [Event.Boot]
                     && DiskOk(c, bc.disk) && 0 <= n <= |block| && block[..n] == Entries(bc.disk[c.Header()])
    {
      hide Step, BufferCache.Valid;
      ghost var s0 := ss[|es|];
      assert DiskOk(c, s0.disk) && Busy(bc.refs) == 0;
      ok := ReadHead();
      if ok {
        phase := Recovering(0);
        BootIs(c, s0, M());
        StepRefines(c, s0, Event.Boot, M());
        Record(Event.Boot);
      }
    }

    /** recover_from_log after a reboot: the home blocks get their committed contents
        and the log is emptied. A second crash at any block write leaves a recorded
        state of the protocol behind, and so does the panic for want of buffers:
        each replayed block's buffer stays referenced, so there is one exactly if
        the log names as many blocks as there are buffers. */
    method RecoverFromLog() returns (ok: bool)
      requires |block| == c.logsize && outstanding == 0 && open == map[] && !committing
      requires bc.n == c.nbuf
      requires IsRun(c, ss, es) && ss[|es|] == State(bc.disk, map[], map[], [], map[], map[], Down) && Inv(c, ss[|es|])
      requires bc.Valid() && bc.held == {} && bc.view == bc.disk && bc.refs == map id | id in bc.disk :: 0
      modifies this, bc
      ensures old(ss) <= ss && DiskOk(c, old(bc.disk))
      ensures ok <==> |Entries(old(bc.disk)[c.Header()])| < bc.n
      ensures !ok ==> Stopped()
      ensures ok ==> && Homes(c, bc.disk) == Committed(c, old(bc.disk))
                     && n == 0 && phase == Running && bc.Valid()
                     && (Entries(old(bc.disk)[c.Header()]) == [] ==> Valid())
                     && es == old(es) + [Event.Boot] + Times(RecoverBlock, |Entries(old(bc.disk)[c.Header()])|)
                        + [RecoverClear]
    {
      hide Inv, Step, IsRun, BufferCache.Valid, Committed, Homes, DiskOk;
      LastDisk(c, ss, es);
      ok := Boot();
      if !ok {
        return;
      }
      ghost var s0 := M();
      ok := InstallTrans();
      if !ok {
        return;
      }
      ghost var s1 := M();
      ok := EraseHead(RecoverClear);
      if ok {
        InvDiskOk(c, s1);
        RecoverClearStep(c, s1, M());
      }
    }

    /** One pass of begin_op's loop: the operation is admitted, or it sleeps. */
    method TryBeginOp(ghost op: int) returns (admitted: bool)
      requires Valid() && phase == Running && op !in open
      modifies this`outstanding, this`open, this`ss, this`es
      ensures Valid() && phase == Running
      ensures admitted <==> !committing && n + (old(outstanding) + 1) * c.maxop <= c.logsize
      ensures admitted ==> open == old(open)[op := {}] && es == old(es) + [BeginOp(op)]
      ensures !admitted ==> unchanged(this)
    {
      hide Inv, IsRun, BufferCache.Valid;
      if committing {
        admitted := false;
      } else if n + (outstanding + 1) * c.maxop > c.logsize {
        admitted := false;
      } else {
        ghost var s := M();
        outstanding := outstanding + 1;
        open := open[op := {}];
        assert Step(c, s, BeginOp(op), M());
        StepRefines(c, s, BeginOp(op), M());
        Record(BeginOp(op));
        admitted := true;
      }
    }

    /** The tests at the start of log_write, made without the lock; where one fails the kernel panics. */
    method LogGuard() returns (ok: bool)
      ensures ok <==> n < c.logsize && n < c.size - 1 && outstanding >= 1
    {
      if n >= c.logsize || n >= c.size - 1 {
        return false;
      }
      ok := outstanding >= 1;
    }

    /** The rest of log_write, under the lock: record the block in the header unless it is
        absorbed, and pin its buffer the first time. What the guard saw plays no part. */
    method LogInsert(b: int)
      requires bc.Valid() && 0 <= b < |bc.buf| == bc.n && bc.buf[b].valid && bc.buf[b].id in bc.disk
      requires 0 <= n < |block| == c.logsize && bc.buf[b].refcnt < UINT32 - 1
      modifies this`n, this`block, bc`buf, bc`refs
      ensures bc.Valid() && |block| == c.logsize && 0 <= n <= c.logsize
      ensures var bn, id, lh := old(bc.buf[b].id.blockno), old(bc.buf[b].id), old(block[..n]);
              if bn in lh then
                block[..n] == lh && unchanged(bc)
              else
                && block[..n] == lh + [bn] && bc.refs == old(bc.refs)[id := Inc32(old(bc.refs[bc.buf[b].id]))]
                && bc.buf == old(bc.buf)[b := old(bc.buf[b]).(refcnt := Inc32(old(bc.buf[b].refcnt)))]
    {
      hide BufferCache.Valid;
      var bn := bc.buf[b].id.blockno;
      var i := 0;
      while i < n
        invariant 0 <= i <= n && bn !in block[..i]
      {
        if block[i] == bn {
          break;
        }
        i := i + 1;
      }
      block := block[i := bn];
      if i == n {
        bc.Bpin(b);
        n := n + 1;
      }
    }

    /** log_write when nobody comes between its two parts. False where the kernel panics. */
    method LogWrite(b: int) returns (ok: bool)
      requires bc.Valid() && 0 <= b < |bc.buf| == bc.n && bc.buf[b].valid && bc.buf[b].id in bc.disk
      requires 0 <= n <= |block| && |block| == c.logsize && bc.buf[b].refcnt < UINT32 - 1
      modifies this`n, this`block, bc`buf, bc`refs
      ensures bc.Valid() && |block| == c.logsize && 0 <= n <= c.logsize
      ensures ok <==> old(n) < c.logsize && old(n) < c.size - 1 && outstanding >= 1
      ensures !ok ==> unchanged(this) && unchanged(bc)
      ensures ok ==>
                var bn, id, lh := old(bc.buf[b].id.blockno), old(bc.buf[b].id), old(block[..n]);
                if bn in lh then
                  block[..n] == lh && unchanged(bc)
                else
                  && block[..n] == lh + [bn] && bc.refs == old(bc.refs)[id := Inc32(old(bc.refs[bc.buf[b].id]))]
                  && bc.buf == old(bc.buf)[b := old(bc.buf[b]).(refcnt := Inc32(old(bc.buf[b].refcnt)))]
    {
      hide BufferCache.Valid;
      ok := LogGuard();
      if ok {
        LogInsert(b);
      }
    }

    /** bread, modify, log_write, brelse, as an operation does to change a block. */
    method Modify(bn: int, data: Block) returns (ok: bool)
      requires bc.Valid() && bc.held == {} && c.Home(bn) in bc.disk && c.Home(bn) in bc.refs
      requires 0 <= n <= |block| && |block| == c.logsize && outstanding >= 1
      requires bc.refs[c.Home(bn)] == if bn in block[..n] then 1 else 0
      modifies this`n, this`block, bc
      ensures bc.disk == old(bc.disk)
      ensures ok ==> && bc.Valid() && bc.held == {} && bc.view == old(bc.view)[c.Home(bn) := data]
                     && |block| == c.logsize && 0 <= n <= c.logsize && old(n) < c.logsize && old(n) < c.size - 1
                     && (if bn in old(block[..n]) then block[..n] == old(block[..n]) && bc.refs == old(bc.refs)
                         else block[..n] == old(block[..n]) + [bn] && bc.refs == old(bc.refs)[c.Home(bn) := 1])
      ensures ok <==> && (old(bc.refs)[c.Home(bn)] == 0 ==> Busy(old(bc.refs)) < bc.n)
                      && old(n) < c.logsize && old(n) < c.size - 1
    {
      hide BufferCache.Valid, Busy, FirstFor, LastUnused, ToFront;
      bc.Domains();
      var r := bc.Bread(c.Home(bn));
      if r.None? {
        return false;
      }
      bc.SetData(r.value, data);
      bc.Domains();
      ok := LogWrite(r.value);
      if ok {
        bc.Brelse(r.value);
        assert bc.refs == if bn in old(block[..n]) then old(bc.refs) else old(bc.refs)[c.Home(bn) := 1];
      }
    }

    /** An operation changes one block. */
    method Update(ghost op: int, bn: int, data: Block) returns (ok: bool)
      requires Valid() && phase == Running && op in open && |open[op] + {bn}| <= c.maxop
      requires c.Home(bn) in bc.disk && c.IsHome(c.Home(bn))
      modifies this`n, this`block, this`open, this`ss, this`es, bc
      ensures old(ss) <= ss
      ensures ok ==> && Valid() && phase == Running
                     && es == old(es) + [Event.LogTest(op, bn), Event.LogWrite(op, bn, data)]
                     && bc.view == old(bc.view)[c.Home(bn) := data] && bc.disk == old(bc.disk)
      ensures ok <==> (bn in old(block[..n]) || old(n) < bc.n) && old(n) < c.logsize && old(n) < c.size - 1
      ensures !ok ==> Stopped()
    {
      hide Inv, Step, IsRun, BufferCache.Valid, Busy;
      ghost var s := M();
      UpdateFacts(c, s, bn);
      PinCount(c, s);
      OpenCounts(open, op);
      ok := Modify(bn, data);
      if ok {
        open := open[op := open[op] + {bn}];
        OpenUpdate(s.open, op, s.open[op] + {bn});
        RecordWrite(s, op, bn, data);
      }
    }

    /** The locked part of end_op; true if this was the last operation. */
    method Leave(ghost op: int) returns (doCommit: bool)
      requires Valid() && phase == Running && op in open
      modifies this`outstanding, this`committing, this`open, this`phase, this`ss, this`es
      ensures Valid() && open == old(open) - {op} && committing == doCommit
      ensures es == old(es) + [Event.EndOp(op)] && old(ss) <= ss
      ensures doCommit <==> |old(open)| == 1
      ensures phase == if doCommit && n > 0 then Logging(0) else Running
    {
      hide Inv, Step, IsRun, BufferCache.Valid;
      ghost var s := M();
      OpenCounts(open, op);
      outstanding := outstanding - 1;
      assert !committing;  // panic("log[dev].committing")
      doCommit := false;
      if outstanding == 0 {
        doCommit := true;
        committing := true;
      }
      EndOpIs(c, s, op);
      open := open - {op};
      phase := if doCommit && n > 0 then Logging(0) else Running;
      Record(Event.EndOp(op));
    }

    /** end_op: the last operation to end commits the group. It never finds a commit in progress. */
    method EndOp(ghost op: int) returns (ok: bool)
      requires Valid() && phase == Running && op in open
      modifies this, bc
      ensures old(ss) <= ss
      ensures ok ==> && Valid() && phase == Running && open == old(open) - {op} && !committing
                     && es == old(es) + [Event.EndOp(op)]
                              + if |old(open)| == 1 && old(n) > 0 then CommitEvents(old(n)) else []
      ensures ok <==> |old(open)| > 1 || old(n) == 0 || old(n) < bc.n
      ensures !ok ==> Stopped()
    {
      hide Inv, Step, IsRun, BufferCache.Valid, CommitEvents;
      var doCommit := Leave(op);
      ok := true;
      if doCommit {
        // commit without holding the lock
        ok := Commit();
        committing := false;
      }
    }
  }
}
