/** Running on after a recovery (kernel/log.c).

  install_trans unpins every block it copies, but only commit() has pinned them.
  During recovery the reference count of a replayed block's buffer therefore
  wraps below zero, and the next log_write of that block pins it to exactly zero:
  the modified buffer can be recycled before the commit reads it. This module
  shows that a boot is safe to run on exactly when it found nothing to replay.
 */
module LogRestart {
  import opened Common
  import opened Bio
  import opened Log

  ghost predicate NoCrash(es: seq<Event>) {
    forall i :: 0 <= i < |es| ==> !es[i].Crash?
  }

  /** Without a further crash, whatever happens from s on, the committed contents
      of the disk are those the atomic disk has after the same events. */
  ghost predicate Faithful(c: Cfg, s: State)
    requires DiskOk(c, s.disk)
  {
    forall ss: seq<State>, es: seq<Event> {:trigger IsRun(c, ss, es)} ::
      IsRun(c, ss, es) && ss[0] == s && NoCrash(es) ==>
        DiskOk(c, ss[|es|].disk) && Committed(c, ss[|es|].disk) == SpecRun(c, Abs(c, s), es).durable
  }

  /** Recovery is about to clear the header, it has left a buffer free, and the log has room
      for an operation. */
  ghost predicate AboutToRestart(c: Cfg, s: State) {
    && Inv(c, s) && s.phase == Recovering(|s.lh|) && |s.lh| < c.nbuf
    && 0 < c.maxop <= c.logsize && 2 <= c.size
  }

  // ---------------------------------------------------------------- nothing to replay

  lemma {:induction false} NeverReplays(c: Cfg, ss: seq<State>, es: seq<Event>, i: nat)
    requires IsRun(c, ss, es) && NoCrash(es) && i <= |es|
    requires ss[0].phase == Recovering(0) && ss[0].lh == [] && ss[0].open == map[]
    ensures !ss[i].phase.Down? && (ss[i].phase.Recovering? ==> ss[i].lh == [] && ss[i].open == map[])
  {
    if i > 0 {
      NeverReplays(c, ss, es, i - 1);
      assert Step(c, ss[i - 1], es[i - 1], ss[i]);
    }
  }

  lemma EmptyIsFaithful(c: Cfg, s: State)
    requires AboutToRestart(c, s) && s.lh == [] && c.Fits()
    ensures DiskOk(c, s.disk) && Faithful(c, s)
  {
    hide DiskOk, Committed;
    InvDiskOk(c, s);
    forall ss: seq<State>, es: seq<Event> | IsRun(c, ss, es) && ss[0] == s && NoCrash(es)
      ensures DiskOk(c, ss[|es|].disk) && Committed(c, ss[|es|].disk) == SpecRun(c, Abs(c, s), es).durable
    {
      forall i | 0 <= i < |es| && es[i].RecoverClear?
        ensures ss[i].lh == []
      {
        NeverReplays(c, ss, es, i);
        assert Step(c, ss[i], es[i], ss[i + 1]);
      }
      RunRefines(c, ss, es, |es|);
      assert es[..|es|] == es;
    }
  }

  // ---------------------------------------------------------------- something to replay

  /** The states of an operation that rewrites a replayed block and commits. */
  ghost function Restarted(c: Cfg, s: State): State
    requires c.Header() in s.view && |s.view[c.Header()]| > 0
  {
    Put(s, c.Header(), WithEntries(s.view[c.Header()], [])).(lh := [], phase := Running)
  }

  ghost predicate LeakedRunning(c: Cfg, s: State, b: int) {
    && s.phase.Running? && s.open == map[] && s.passed == map[] && s.lh == [] && s.view == s.disk
    && c.Home(b) in s.disk && c.IsHome(c.Home(b)) && c.Home(b) in s.pin && s.pin[c.Home(b)] == UINT32 - 1
    && c.Header() in s.disk && c.logsize < |s.disk[c.Header()]| && c.Slot(0) in s.disk
    && 0 < c.maxop <= c.logsize && 2 <= c.size && 2 <= c.nbuf
  }

  lemma RestartLeaks(c: Cfg, s: State)
    requires AboutToRestart(c, s) && s.lh != []
    ensures c.Header() in s.view && |s.view[c.Header()]| > 0
    ensures Step(c, s, RecoverClear, Restarted(c, s)) && LeakedRunning(c, Restarted(c, s), s.lh[0])
    ensures c.Home(s.lh[0]) in s.disk && Restarted(c, s).disk[c.Home(s.lh[0])] == s.disk[c.Home(s.lh[0])]
  {
    assert c.Home(s.lh[0]) in s.pin;
  }

  /** An operation logs new contents for the block; its buffer is now unreferenced and is recycled. */
  ghost function Lost(c: Cfg, s: State, b: int): State
    requires c.Home(b) in s.pin
  {
    s.(lh := [b], pin := s.pin[c.Home(b) := 0], phase := Logging(0))
  }

  ghost function LosingEvents(c: Cfg, b: int, data: Block): seq<Event> {
    [BeginOp(0), LogTest(0, b), LogWrite(0, b, data), Evict(c.Home(b)), EndOp(0)]
  }

  /** The operation is open and past log_write's guard. */
  ghost function AtInsertion(s: State, b: int): State {
    s.(open := map[0 := {}], passed := map[0 := b])
  }

  lemma LoseBegin(c: Cfg, s: State, b: int) returns (s1: State)
    requires LeakedRunning(c, s, b)
    ensures Step(c, s, BeginOp(0), s1) && Step(c, s1, LogTest(0, b), AtInsertion(s, b))
  {
    s1 := s.(open := map[0 := {}]);
    assert s.open[0 := {}] == map[0 := {}] && s.passed[0 := b] == map[0 := b];
    assert s1.open[0] + {b} == {b};
  }

  lemma LoseWrite(c: Cfg, s: State, b: int, data: Block) returns (s3: State, s4: State)
    requires LeakedRunning(c, s, b)
    ensures Step(c, AtInsertion(s, b), LogWrite(0, b, data), s3)
    ensures Step(c, s3, Evict(c.Home(b)), s4) && Step(c, s4, EndOp(0), Lost(c, s, b))
  {
    var h, s2 := c.Home(b), AtInsertion(s, b);
    s3 := s2.(view := s.view[h := data], lh := [b], pin := s.pin[h := 0], open := map[0 := {b}], passed := map[]);
    s4 := s3.(view := s.view);
    assert s2.open[0] + {b} == {b} && s2.open[0 := {b}] == map[0 := {b}] && s2.passed - {0} == map[] && [] + [b] == [b];
    assert s3.view[h := s3.disk[h]] == s.view;
    assert s4.open - {0} == map[];
  }

  lemma LoseUpdate(c: Cfg, s: State, b: int, data: Block) returns (ss: seq<State>)
    requires LeakedRunning(c, s, b)
    ensures IsRun(c, ss, LosingEvents(c, b, data)) && |ss| == 6 && ss[0] == s && ss[5] == Lost(c, s, b)
  {
    hide Step, Lost;
    var h, s2 := c.Home(b), AtInsertion(s, b);
    var s1 := LoseBegin(c, s, b);
    var s3, s4 := LoseWrite(c, s, b, data);
    Run1(c, s, BeginOp(0), s1);
    Run4(c, s1, LogTest(0, b), s2, LogWrite(0, b, data), s3, Evict(h), s4, EndOp(0), Lost(c, s, b));
    JoinRuns(c, [s, s1], [BeginOp(0)], [s1, s2, s3, s4, Lost(c, s, b)],
             [LogTest(0, b), LogWrite(0, b, data), Evict(h), EndOp(0)]);
    ss := [s, s1] + [s1, s2, s3, s4, Lost(c, s, b)][1..];
    assert LosingEvents(c, b, data) == [BeginOp(0)] + [LogTest(0, b), LogWrite(0, b, data), Evict(h), EndOp(0)];
  }

  lemma Run4(c: Cfg, s0: State, e0: Event, s1: State, e1: Event, s2: State, e2: Event, s3: State, e3: Event, s4: State)
    requires Step(c, s0, e0, s1) && Step(c, s1, e1, s2) && Step(c, s2, e2, s3) && Step(c, s3, e3, s4)
    ensures IsRun(c, [s0, s1, s2, s3, s4], [e0, e1, e2, e3])
  {
    hide Step;
    var ss, es := [s0, s1, s2, s3, s4], [e0, e1, e2, e3];
    assert Step(c, ss[0], es[0], ss[1]) && Step(c, ss[1], es[1], ss[2]);
    assert Step(c, ss[2], es[2], ss[3]) && Step(c, ss[3], es[3], ss[4]);
  }

  ghost function CommitEvents(): seq<Event> {
    [WriteSlot, WriteHead, InstallBlock, ClearHead]
  }

  /** The commit that follows installs the old contents. */
  lemma CommitStale(c: Cfg, s: State, b: int) returns (ss: seq<State>)
    requires LeakedRunning(c, s, b)
    ensures IsRun(c, ss, CommitEvents()) && |ss| == 5 && ss[0] == Lost(c, s, b)
    ensures c.Home(b) in ss[4].disk && ss[4].disk[c.Home(b)] == s.disk[c.Home(b)]
    ensures c.Header() in ss[4].disk && |ss[4].disk[c.Header()]| > 0 && ss[4].disk[c.Header()][0] == 0
  {
    var h, s5 := c.Home(b), Lost(c, s, b);
    var s6 := Put(s5, c.Slot(0), s5.view[h]).(phase := Logging(1));
    var s7 := Put(s6, c.Header(), WithEntries(s6.view[c.Header()], [b])).(phase := Installing(0));
    var s8 := Put(s7, h, s7.view[c.Slot(0)]).(pin := s7.pin[h := Dec32(s7.pin[h])], phase := Installing(1));
    var s9 := Put(s8, c.Header(), WithEntries(s8.view[c.Header()], [])).(lh := [], phase := Running);
    assert Step(c, s5, WriteSlot, s6);
    assert Step(c, s6, WriteHead, s7);
    assert Step(c, s7, InstallBlock, s8);
    assert Step(c, s8, ClearHead, s9);
    Run4(c, s5, WriteSlot, s6, WriteHead, s7, InstallBlock, s8, ClearHead, s9);
    ss := [s5, s6, s7, s8, s9];
  }

  lemma JoinRuns(c: Cfg, ss: seq<State>, es: seq<Event>, tt: seq<State>, fs: seq<Event>)
    requires IsRun(c, ss, es) && IsRun(c, tt, fs) && |tt| > 0 && |ss| == |es| + 1 && tt[0] == ss[|es|]
    ensures IsRun(c, ss + tt[1..], es + fs)
    ensures |ss| == |es| + 1 && |tt| == |fs| + 1 && (ss + tt[1..])[0] == ss[0] && (ss + tt[1..])[|es + fs|] == tt[|fs|]
  {
    hide Step;
    var uu, gs := ss + tt[1..], es + fs;
    forall i | 0 <= i < |gs|
      ensures Step(c, uu[i], gs[i], uu[i + 1])
    {
      if i < |es| {
        assert Step(c, ss[i], es[i], ss[i + 1]);
      } else {
        assert Step(c, tt[i - |es|], fs[i - |es|], tt[i - |es| + 1]);
      }
    }
  }

  lemma LosingSpec(c: Cfg, a: Spec, b: int, data: Block)
    ensures SpecRun(c, a, [RecoverClear] + LosingEvents(c, b, data) + CommitEvents()).durable
            == a.pending[c.Home(b) := data]
  {
    SpecRunConcat(c, a, [RecoverClear] + LosingEvents(c, b, data), CommitEvents());
    SpecRunConcat(c, a, [RecoverClear], LosingEvents(c, b, data));
    var a1 := SpecRun(c, a, [RecoverClear]);
    var four := [LogTest(0, b), LogWrite(0, b, data), Evict(c.Home(b)), EndOp(0)];
    assert LosingEvents(c, b, data) == [BeginOp(0)] + four;
    SpecRunConcat(c, a1, [BeginOp(0)], four);
    Unroll4(c, SpecRun(c, a1, [BeginOp(0)]), LogTest(0, b), LogWrite(0, b, data), Evict(c.Home(b)), EndOp(0));
    var a2 := SpecRun(c, a1, LosingEvents(c, b, data));
    Unroll4(c, a2, WriteSlot, WriteHead, InstallBlock, ClearHead);
  }

  lemma Unroll4(c: Cfg, a: Spec, e0: Event, e1: Event, e2: Event, e3: Event)
    ensures SpecRun(c, a, [e0, e1, e2, e3]) == SpecStep(c, SpecStep(c, SpecStep(c, SpecStep(c, a, e0), e1), e2), e3)
  {
    assert [e0, e1, e2, e3][..3] == [e0, e1, e2];
    assert [e0, e1, e2][..2] == [e0, e1];
    assert [e0, e1][..1] == [e0];
    assert [e0][..0] == [];
    assert SpecRun(c, a, [e0]) == SpecStep(c, a, e0);
    assert SpecRun(c, a, [e0, e1]) == SpecStep(c, SpecStep(c, a, e0), e1);
  }

  /** From any such state: a run without crashes in which an operation's write is
      acknowledged and committed, yet the disk keeps the old contents. */
  lemma ReplayLosesUpdate(c: Cfg, s: State, data: Block) returns (ss: seq<State>, es: seq<Event>)
    requires AboutToRestart(c, s) && s.lh != [] && c.Home(s.lh[0]) in s.disk
    ensures var h := c.Home(s.lh[0]);
            && IsRun(c, ss, es) && |ss| == |es| + 1 && ss[0] == s && NoCrash(es)
            && h in ss[|es|].disk && ss[|es|].disk[h] == s.disk[h]
            && c.Header() in ss[|es|].disk && |ss[|es|].disk[c.Header()]| > 0 && ss[|es|].disk[c.Header()][0] == 0
            && c.IsHome(h) && DiskOk(c, s.disk) && h in SpecRun(c, Abs(c, s), es).durable
            && SpecRun(c, Abs(c, s), es).durable[h] == data
  {
    hide Step, DiskOk, Committed, LeakedRunning, IsRun;
    RestartLeaks(c, s);
    InvDiskOk(c, s);
    var b, s1 := s.lh[0], Restarted(c, s);
    var tt := LoseUpdate(c, s1, b, data);
    var uu := CommitStale(c, s1, b);
    var es1 := LosingEvents(c, b, data);
    Run1(c, s, RecoverClear, s1);
    JoinRuns(c, [s, s1], [RecoverClear], tt, es1);
    var vv := [s, s1] + tt[1..];
    JoinRuns(c, vv, [RecoverClear] + es1, uu, CommitEvents());
    ss, es := vv + uu[1..], [RecoverClear] + es1 + CommitEvents();
    LosingSpec(c, Abs(c, s), b, data);
  }

  lemma Run1(c: Cfg, s: State, e: Event, s': State)
    requires Step(c, s, e, s')
    ensures IsRun(c, [s, s'], [e])
  {
  }

  lemma ReplayIsNotFaithful(c: Cfg, s: State, data: Block)
    requires AboutToRestart(c, s) && s.lh != []
    requires c.Home(s.lh[0]) in s.disk && data != s.disk[c.Home(s.lh[0])]
    ensures DiskOk(c, s.disk) && !Faithful(c, s)
  {
    hide Step, DiskOk, Committed, IsRun;
    var ss, es := ReplayLosesUpdate(c, s, data);
    if DiskOk(c, ss[|es|].disk) {
      IdleHome(c, ss[|es|].disk, c.Home(s.lh[0]));
    }
    assert IsRun(c, ss, es);
  }

  lemma IdleHome(c: Cfg, d: Disk, h: Id)
    requires DiskOk(c, d) && d[c.Header()][0] == 0 && h in d && c.IsHome(h)
    ensures h in Committed(c, d) && Committed(c, d)[h] == d[h]
  {
  }

  /** A boot that has finished recovery may run on safely if and only if its log was empty. */
  lemma SafeToRunOn(c: Cfg, s: State)
    requires AboutToRestart(c, s) && c.Fits()
    ensures DiskOk(c, s.disk) && (Faithful(c, s) <==> s.lh == [])
  {
    hide Faithful, DiskOk;
    if s.lh == [] {
      EmptyIsFaithful(c, s);
    } else {
      RestartLeaks(c, s);
      ReplayIsNotFaithful(c, s, s.disk[c.Home(s.lh[0])] + [0]);
    }
  }
}
