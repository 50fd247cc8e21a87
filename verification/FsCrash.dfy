/** The file system on top of the log: what a crash leaves of the transactions of kernel/file.c.

  The file system layer makes one change of its disk after the other, each inside an
  operation. The operations themselves may overlap, so that several changes are in one
  group, and the log may write, install and evict at any moment.
 */
module FsCrash {
  import opened Common
  import opened FsRefs
  import File
  import Log
  import Bio

  /** The home blocks of a device that holds the file system's disk. */
  ghost function OnDevice(c: Log.Cfg, sb: Sb, disk: Disk): Log.Disk
    requires DiskOk(sb, disk)
  {
    map b | 0 <= b < sb.size && c.IsHome(c.Home(b)) :: c.Home(b) := disk[b]
  }

  /** The log area lies between the superblock and the inodes. */
  predicate AreaBelow(c: Log.Cfg, sb: Sb) {
    1 <= c.size && 1 < c.start && c.start + c.size <= sb.inodestart
  }

  // ---------------------------------------------------------------- transactions in a run

  /** The data last given to log_write for block b. */
  function Last(es: seq<Log.Event>, b: int): Option<Bio.Block> {
    if es == [] then None
    else if es[|es| - 1].LogWrite? && es[|es| - 1].b == b then Some(es[|es| - 1].data)
    else Last(es[..|es| - 1], b)
  }

  /** Where the header was last written with a group, or -1. */
  function LastHead(es: seq<Log.Event>): (p: int)
    ensures -1 <= p < |es| && (p >= 0 ==> es[p].WriteHead?)
    ensures forall q :: p < q < |es| ==> !es[q].WriteHead?
  {
    if es == [] then -1
    else if es[|es| - 1].WriteHead? then |es| - 1
    else LastHead(es[..|es| - 1])
  }

  /** A stretch of a run in which only operation `op` changes the disk. */
  datatype Stretch = Stretch(op: int, es: seq<Log.Event>) {
    predicate OneWriter() { forall p :: 0 <= p < |es| && es[p].LogWrite? ==> es[p].op == op }
    predicate EndsLast() { forall p, q :: 0 <= p < q < |es| && es[p] == Log.EndOp(op) ==> !es[q].LogWrite? }
    predicate Open() { forall p :: 0 <= p < |es| ==> es[p] != Log.EndOp(op) }
  }

  /** The stretch makes the transaction: it logs these blocks, each last with its new contents,
      before the operation ends. */
  ghost predicate Makes(sb: Sb, t: Stretch, disk: Disk, disk': Disk, logged: set<int>) {
    && File.Transaction(sb, disk, disk', logged) && t.OneWriter() && t.EndsLast()
    && (forall b :: Last(t.es, b).Some? <==> b in logged)
    && (forall b :: b in logged ==> b in disk' && Last(t.es, b) == Some(disk'[b]))
  }

  function Flat(ts: seq<Stretch>): seq<Log.Event> {
    if ts == [] then [] else Flat(ts[..|ts| - 1]) + ts[|ts| - 1].es
  }

  ghost predicate MakesAll(sb: Sb, ts: seq<Stretch>, ds: seq<Disk>, logs: seq<set<int>>) {
    && |ds| == |ts| + 1 && |logs| == |ts| && File.InOrder(sb, ds[0])
    && forall i :: 0 <= i < |ts| ==> Makes(sb, ts[i], ds[i], ds[i + 1], logs[i])
  }

  // ---------------------------------------------------------------- on the atomic disk

  /** No crash; a block is logged only inside an operation, a group written only outside all. */
  ghost predicate Orderly(c: Log.Cfg, a: Log.Spec, es: seq<Log.Event>) {
    forall p :: 0 <= p < |es| ==>
      && !es[p].Crash?
      && (es[p].WriteHead? ==> Log.SpecRun(c, a, es[..p]).open == {})
      && (es[p].LogWrite? ==> es[p].op in Log.SpecRun(c, a, es[..p]).open)
  }

  lemma OrderlyParts(c: Log.Cfg, a: Log.Spec, es: seq<Log.Event>, fs: seq<Log.Event>)
    requires Orderly(c, a, es + fs)
    ensures Orderly(c, a, es) && Orderly(c, Log.SpecRun(c, a, es), fs)
  {
    forall p | 0 <= p < |es|
      ensures (es + fs)[p] == es[p] && (es + fs)[..p] == es[..p]
    {
    }
    forall p | 0 <= p < |fs|
      ensures (es + fs)[|es| + p] == fs[p]
      ensures Log.SpecRun(c, a, (es + fs)[..|es| + p]) == Log.SpecRun(c, Log.SpecRun(c, a, es), fs[..p])
    {
      assert (es + fs)[..|es| + p] == es + fs[..p];
      Log.SpecRunConcat(c, a, es, fs[..p]);
    }
  }

  predicate NoCrash(es: seq<Log.Event>) { forall p :: 0 <= p < |es| ==> !es[p].Crash? }

  lemma {:induction false} Unwritten(c: Log.Cfg, a: Log.Spec, es: seq<Log.Event>)
    requires NoCrash(es) && forall p :: 0 <= p < |es| ==> !es[p].LogWrite?
    ensures Log.SpecRun(c, a, es).pending == a.pending
  {
    if es != [] {
      Unwritten(c, a, es[..|es| - 1]);
    }
  }

  lemma {:induction false} StaysOpen(c: Log.Cfg, a: Log.Spec, es: seq<Log.Event>, op: int)
    requires op in a.open && NoCrash(es) && forall p :: 0 <= p < |es| ==> es[p] != Log.EndOp(op)
    ensures op in Log.SpecRun(c, a, es).open
  {
    if es != [] {
      StaysOpen(c, a, es[..|es| - 1], op);
    }
  }

  /** What is durable is what was pending when the header was last written. */
  lemma {:induction false} DurableIs(c: Log.Cfg, a: Log.Spec, es: seq<Log.Event>)
    requires NoCrash(es)
    ensures var p := LastHead(es);
            Log.SpecRun(c, a, es).durable == if p < 0 then a.durable else Log.SpecRun(c, a, es[..p]).pending
  {
    if es != [] {
      var init := es[..|es| - 1];
      DurableIs(c, a, init);
      if LastHead(init) >= 0 {
        assert init[..LastHead(init)] == es[..LastHead(init)];
      }
    }
  }

  /** What is pending is what was logged last, and otherwise what was there. */
  lemma {:induction false} PendingIs(c: Log.Cfg, a: Log.Spec, es: seq<Log.Event>, b: int)
    requires NoCrash(es)
    ensures var m := Log.SpecRun(c, a, es).pending;
            match Last(es, b)
            case Some(x) => c.Home(b) in m && m[c.Home(b)] == x
            case None => (c.Home(b) in m <==> c.Home(b) in a.pending)
                         && (c.Home(b) in m ==> m[c.Home(b)] == a.pending[c.Home(b)])
  {
    if es != [] {
      PendingIs(c, a, es[..|es| - 1], b);
    }
  }

  lemma {:induction false} OtherDevices(c: Log.Cfg, a: Log.Spec, es: seq<Log.Event>, id: Bio.Id)
    requires NoCrash(es) && id.dev != c.dev
    ensures id in Log.SpecRun(c, a, es).pending <==> id in a.pending
    ensures id in a.pending ==> Log.SpecRun(c, a, es).pending[id] == a.pending[id]
  {
    if es != [] {
      OtherDevices(c, a, es[..|es| - 1], id);
    }
  }

  // ---------------------------------------------------------------- one transaction

  /** A group that is written during the stretch has none of its blocks or all of them: the
      header is not written while the operation is open. */
  lemma NoneOrAll(c: Log.Cfg, a: Log.Spec, t: Stretch, p: nat)
    requires Orderly(c, a, t.es) && t.OneWriter() && p < |t.es| && t.es[p].WriteHead?
    requires t.EndsLast() || t.Open()
    ensures var m := Log.SpecRun(c, a, t.es[..p]).pending;
            m == a.pending || (!t.Open() && m == Log.SpecRun(c, a, t.es).pending)
  {
    if q :| 0 <= q < p && t.es[q].LogWrite? {
      EndedBefore(c, a, t, q, p);
      assert t.es == t.es[..p] + t.es[p..];
      Log.SpecRunConcat(c, a, t.es[..p], t.es[p..]);
      Unwritten(c, Log.SpecRun(c, a, t.es[..p]), t.es[p..]);
    } else {
      Unwritten(c, a, t.es[..p]);
    }
  }

  lemma EndedBefore(c: Log.Cfg, a: Log.Spec, t: Stretch, q: nat, p: nat)
    requires Orderly(c, a, t.es) && t.OneWriter() && q < p < |t.es| && t.es[q].LogWrite? && t.es[p].WriteHead?
    ensures exists r :: q < r < p && t.es[r] == Log.EndOp(t.op)
  {
    if forall r :: q < r < p ==> t.es[r] != Log.EndOp(t.op) {
      var mid := t.es[q..p];
      assert t.es[..p] == t.es[..q] + mid;
      forall x | 0 <= x < |mid|
        ensures mid[x] != Log.EndOp(t.op) && !mid[x].Crash?
      {
        assert mid[x] == t.es[q + x];
      }
      Log.SpecRunConcat(c, a, t.es[..q], mid);
      StaysOpen(c, Log.SpecRun(c, a, t.es[..q]), mid, t.op);
      assert false;
    }
  }

  lemma Carried(c: Log.Cfg, sb: Sb, a: Log.Spec, t: Stretch, disk: Disk, disk': Disk, logged: set<int>)
    requires AreaBelow(c, sb) && DiskOk(sb, disk) && DiskOk(sb, disk') && NoCrash(t.es)
    requires Makes(sb, t, disk, disk', logged) && a.pending == OnDevice(c, sb, disk)
    ensures Log.SpecRun(c, a, t.es).pending == OnDevice(c, sb, disk')
  {
    hide File.InOrder;
    var m, m' := Log.SpecRun(c, a, t.es).pending, OnDevice(c, sb, disk');
    forall id: Bio.Id
      ensures id in m <==> id in m'
      ensures id in m ==> m[id] == m'[id]
    {
      if id.dev == c.dev {
        assert id == c.Home(id.blockno);
        PendingIs(c, a, t.es, id.blockno);
      } else {
        OtherDevices(c, a, t.es, id);
      }
    }
  }

  // ---------------------------------------------------------------- all transactions

  ghost predicate InOrderAt(c: Log.Cfg, sb: Sb, home: Log.Disk, disk: Disk) {
    File.InOrder(sb, disk) && DiskOk(sb, disk) && home == OnDevice(c, sb, disk)
  }

  lemma InOrderDisk(sb: Sb, disk: Disk)
    requires File.InOrder(sb, disk)
    ensures DiskOk(sb, disk)
  {
  }

  lemma HeadOfParts(es: seq<Log.Event>, fs: seq<Log.Event>)
    ensures LastHead(es + fs) == if LastHead(fs) >= 0 then |es| + LastHead(fs) else LastHead(es)
  {
    var p := LastHead(es + fs);
    if LastHead(fs) >= 0 {
      assert (es + fs)[|es| + LastHead(fs)] == fs[LastHead(fs)];
      assert p >= |es| && fs[p - |es|] == (es + fs)[p];
    } else {
      assert LastHead(es) >= 0 ==> (es + fs)[LastHead(es)] == es[LastHead(es)];
    }
  }

  /** Transactions that were complete when the header was last written are among the first j. */
  ghost predicate Survive(ts: seq<Stretch>, es: seq<Log.Event>, j: int) {
    forall m :: 0 <= m <= |ts| && |Flat(ts[..m])| <= LastHead(es) ==> m <= j
  }

  lemma {:induction false} AllCarried(c: Log.Cfg, sb: Sb, a: Log.Spec, ts: seq<Stretch>, ds: seq<Disk>,
                                      logs: seq<set<int>>) returns (j: nat)
    requires AreaBelow(c, sb) && MakesAll(sb, ts, ds, logs) && Orderly(c, a, Flat(ts))
    requires a.durable == a.pending && InOrderAt(c, sb, a.pending, ds[0])
    ensures j <= |ts| && Survive(ts, Flat(ts), j)
    ensures InOrderAt(c, sb, Log.SpecRun(c, a, Flat(ts)).pending, ds[|ts|])
    ensures InOrderAt(c, sb, Log.SpecRun(c, a, Flat(ts)).durable, ds[j])
    decreases |ts|
  {
    hide File.InOrder;
    if ts == [] {
      j := 0;
    } else {
      var n := |ts| - 1;
      var es, t := Flat(ts[..n]), ts[n];
      OrderlyParts(c, a, es, t.es);
      var i := AllCarried(c, sb, a, ts[..n], ds[..|ts|], logs[..n]);
      var a1 := Log.SpecRun(c, a, es);
      Log.SpecRunConcat(c, a, es, t.es);
      InOrderDisk(sb, ds[n + 1]);
      Carried(c, sb, a1, t, ds[n], ds[n + 1], logs[n]);
      DurableIs(c, a1, t.es);
      HeadOfParts(es, t.es);
      var p := LastHead(t.es);
      if p < 0 {
        j := i;
      } else {
        NoneOrAll(c, a1, t, p);
        j := if Log.SpecRun(c, a1, t.es[..p]).pending == a1.pending then n else n + 1;
      }
      SurviveMore(ts, i, j);
    }
  }

  lemma {:induction false} SurviveMore(ts: seq<Stretch>, i: int, j: int)
    requires |ts| > 0 && Survive(ts[..|ts| - 1], Flat(ts[..|ts| - 1]), i)
    requires if LastHead(ts[|ts| - 1].es) < 0 then j == i else |ts| - 1 <= j
    ensures Survive(ts, Flat(ts), j)
  {
    var n := |ts| - 1;
    var es, last := Flat(ts[..n]), ts[n].es;
    assert Flat(ts) == es + last;
    hide Flat, LastHead;
    HeadOfParts(es, last);
    assert ts[..|ts|] == ts;
    forall m | 0 <= m <= |ts| && |Flat(ts[..m])| <= LastHead(Flat(ts))
      ensures m <= j
    {
      if m <= n {
        assert ts[..n][..m] == ts[..m];
      }
    }
  }

  lemma WholeOnly(c: Log.Cfg, sb: Sb, a: Log.Spec, ts: seq<Stretch>, ds: seq<Disk>, logs: seq<set<int>>, rest: Stretch)
    returns (j: nat)
    requires AreaBelow(c, sb) && MakesAll(sb, ts, ds, logs) && Orderly(c, a, Flat(ts) + rest.es)
    requires rest.OneWriter() && rest.Open()
    requires a.durable == a.pending && InOrderAt(c, sb, a.pending, ds[0])
    ensures j <= |ts| && Survive(ts, Flat(ts) + rest.es, j)
    ensures InOrderAt(c, sb, Log.SpecRun(c, a, Flat(ts) + rest.es).durable, ds[j])
  {
    hide File.InOrder;
    var es := Flat(ts);
    OrderlyParts(c, a, es, rest.es);
    j := AllCarried(c, sb, a, ts, ds, logs);
    var a1 := Log.SpecRun(c, a, es);
    Log.SpecRunConcat(c, a, es, rest.es);
    DurableIs(c, a1, rest.es);
    HeadOfParts(es, rest.es);
    var p := LastHead(rest.es);
    if p >= 0 {
      NoneOrAll(c, a1, rest, p);
      j := |ts|;
    }
  }

  // ---------------------------------------------------------------- runs of the log

  lemma RunOrderly(c: Log.Cfg, ss: seq<Log.State>, es: seq<Log.Event>, k: nat)
    requires Log.IsRun(c, ss, es) && Log.CleanRestarts(ss, es) && Log.Undisturbed(c, ss, es) && Log.Inv(c, ss[0])
    requires k <= |es| && NoCrash(es[..k])
    ensures Log.DiskOk(c, ss[0].disk) && Orderly(c, Log.Abs(c, ss[0]), es[..k])
  {
    hide Log.Inv, Log.DiskOk, Log.Committed, Log.Homes;
    Log.InvDiskOk(c, ss[0]);
    var a := Log.Abs(c, ss[0]);
    forall p | 0 <= p < k
      ensures !es[..k][p].Crash?
      ensures es[..k][p].WriteHead? ==> Log.SpecRun(c, a, es[..k][..p]).open == {}
      ensures es[..k][p].LogWrite? ==> es[..k][p].op in Log.SpecRun(c, a, es[..k][..p]).open
    {
      assert es[..k][p] == es[p] && es[..k][..p] == es[..p];
      Log.RunRefines(c, ss, es, p);
      Log.RunRefines(c, ss, es, p + 1);
      assert Log.Step(c, ss[p], es[p], ss[p + 1]);
    }
  }

  /** Crash safety of the file system. Until a crash at event k the file system makes the
      transactions ts and leaves `rest` unfinished; the disks between them are ds. Whatever the
      log was doing, a completed recovery leaves the home blocks of one of these disks: a file
      system in order, before or after whole transactions, and after all those that were complete
      when a group was last committed. */
  lemma CrashLeavesOrder(c: Log.Cfg, sb: Sb, ss: seq<Log.State>, es: seq<Log.Event>, k: nat,
                         ts: seq<Stretch>, ds: seq<Disk>, logs: seq<set<int>>, rest: Stretch) returns (j: nat)
    requires Log.IsRun(c, ss, es) && Log.CleanRestarts(ss, es) && Log.Undisturbed(c, ss, es) && Log.Inv(c, ss[0])
    requires k < |es| - 1 && es[k].Crash? && Log.OnlyRecovery(es[k + 1..|es| - 1]) && es[|es| - 1].RecoverClear?
    requires es[..k] == Flat(ts) + rest.es && NoCrash(es[..k])
    requires AreaBelow(c, sb) && MakesAll(sb, ts, ds, logs) && rest.OneWriter() && rest.Open()
    requires ss[0].phase.Running? && ss[0].open == map[] && InOrderAt(c, sb, Log.Homes(c, ss[0].disk), ds[0])
    ensures j <= |ts| && Survive(ts, es[..k], j)
    ensures InOrderAt(c, sb, Log.Homes(c, ss[|es|].disk), ds[j])
  {
    hide Log.Inv, Log.DiskOk, Log.Committed, Log.Homes, Log.Step, File.InOrder, MakesAll, InOrderAt, Survive;
    RunOrderly(c, ss, es, k);
    var a := Log.Abs(c, ss[0]);
    StartsSettled(c, ss[0]);
    j := WholeOnly(c, sb, a, ts, ds, logs, rest);
    Log.RecoveryEndsDurable(c, ss, es, k);
    Log.RunRefines(c, ss, es, k);
  }

  lemma StartsSettled(c: Log.Cfg, s: Log.State)
    requires Log.Inv(c, s) && s.phase.Running? && s.open == map[]
    ensures Log.DiskOk(c, s.disk) && Log.Abs(c, s).durable == Log.Abs(c, s).pending == Log.Homes(c, s.disk)
  {
    Log.CommittedByPhase(c, s);
    assert s.view == s.disk;
  }
}
