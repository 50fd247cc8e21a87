/** log_write's unlocked guard (kernel/log.c).

  log_write compares the number of entries with the size of the log before it takes
  the lock. Two operations can both pass that test for the last slot and then insert
  one after the other, so that the group has one entry more than the log area has
  slots; write_log then overwrites the block after the log area. This module gives
  that run and shows when there is one: `Cfg.Fits` is exact.
 */
module LogOverflow {
  import opened Common
  import opened Bio
  import opened Log
  import opened LogRestart

  /** In every run the disk and what operations see are those of the atomic disk. */
  ghost predicate Safe(c: Cfg) {
    forall ss: seq<State>, es: seq<Event> {:trigger IsRun(c, ss, es)} ::
      IsRun(c, ss, es) && CleanRestarts(ss, es) && Inv(c, ss[0]) ==>
        DiskOk(c, ss[|es|].disk) && Abs(c, ss[|es|]) == SpecRun(c, Abs(c, ss[0]), es)
  }

  lemma FitsIsSafe(c: Cfg)
    requires c.Fits()
    ensures Safe(c)
  {
    hide Inv, DiskOk, Abs;
    forall ss: seq<State>, es: seq<Event> | IsRun(c, ss, es) && CleanRestarts(ss, es) && Inv(c, ss[0])
      ensures DiskOk(c, ss[0].disk) && DiskOk(c, ss[|es|].disk) && Abs(c, ss[|es|]) == SpecRun(c, Abs(c, ss[0]), es)
    {
      InvDiskOk(c, ss[0]);
      RunRefines(c, ss, es, |es|);
      assert es[..|es|] == es;
    }
  }

  // ---------------------------------------------------------------- the states of the run

  /** The first of `size` blocks that get logged; the block before it follows the log area. */
  ghost function First(c: Cfg): int { c.start + c.size + 1 }

  ghost function Victim(c: Cfg): Id { c.Home(c.start + c.size) }

  ghost function Ids(c: Cfg): set<Id> {
    set b | c.start <= b <= c.start + 2 * c.size :: Id(c.dev, b)
  }

  ghost predicate Logged(c: Cfg, id: Id, k: int) { First(c) <= id.blockno < First(c) + k }

  /** The disk at the start: an empty log, and all other blocks empty too. */
  ghost function Disk0(c: Cfg): Disk {
    map id | id in Ids(c) :: if id == c.Header() then seq(c.logsize + 1, i => 0) else []
  }

  ghost function View(c: Cfg, k: nat): Disk {
    map id | id in Ids(c) :: if Logged(c, id, k) then [1] else Disk0(c)[id]
  }

  ghost function Pins(c: Cfg, k: nat): map<Id, int> {
    map id | id in Ids(c) :: if Logged(c, id, k) then 1 else 0
  }

  ghost function Group(c: Cfg, k: nat): (lh: seq<int>)
    ensures |lh| == k && forall i :: 0 <= i < k ==> lh[i] == First(c) + i
  {
    seq(k, i => First(c) + i)
  }

  /** k blocks have been logged. */
  ghost function At(c: Cfg, k: nat, open: map<int, set<int>>, passed: map<int, int>): State {
    State(Disk0(c), View(c, k), Pins(c, k), Group(c, k), open, passed, Running)
  }

  lemma InIds(c: Cfg, b: int)
    ensures Id(c.dev, b) in Ids(c) <==> c.start <= b <= c.start + 2 * c.size
  {
  }

  lemma StartOk(c: Cfg)
    requires c.size >= 2
    ensures Inv(c, At(c, 0, map[], map[]))
  {
    InIds(c, c.start);
    forall i | 0 <= i < c.Slots()
      ensures c.Slot(i) in Disk0(c)
    {
      InIds(c, c.start + 1 + i);
    }
    assert View(c, 0) == Disk0(c);
  }

  // ---------------------------------------------------------------- single steps

  ghost predicate Room(c: Cfg) { c.size >= 2 && c.Tight() && 0 < c.maxop && 2 * c.maxop <= c.logsize }

  lemma TestStep(c: Cfg, k: nat, open: map<int, set<int>>, passed: map<int, int>, op: int, b: int)
    requires Room(c) && k < c.size - 1 && op in open && op !in passed && |open[op]| < c.maxop
    requires First(c) <= b < First(c) + c.size
    ensures Step(c, At(c, k, open, passed), LogTest(op, b), At(c, k, open, passed[op := b]))
  {
    hide Ids;
    InIds(c, b);
  }

  lemma InsertStep(c: Cfg, k: nat, open: map<int, set<int>>, passed: map<int, int>, op: int)
    requires Room(c) && k < c.size && op in open && op in passed && passed[op] == First(c) + k && |open[op]| < c.maxop
    ensures Step(c, At(c, k, open, passed), LogWrite(op, First(c) + k, [1]),
                 At(c, k + 1, open[op := open[op] + {First(c) + k}], passed - {op}))
  {
    hide Ids;
    var b := First(c) + k;
    InIds(c, b);
    assert b !in Group(c, k) && Group(c, k + 1) == Group(c, k) + [b];
    assert View(c, k + 1) == View(c, k)[c.Home(b) := [1]] by {
      AsIds(c, k);
    }
    assert Pins(c, k + 1) == Pins(c, k)[c.Home(b) := 1] by {
      AsIds(c, k);
    }
  }

  /** Only one block becomes logged. */
  lemma AsIds(c: Cfg, k: nat)
    ensures forall id :: id in Ids(c) ==> (Logged(c, id, k + 1) <==> Logged(c, id, k) || id == c.Home(First(c) + k))
  {
  }

  // ---------------------------------------------------------------- pieces of the run

  /** Nothing is committed, nothing crashes, and nobody logs the block after the log area. */
  ghost predicate Tame(c: Cfg, e: Event) {
    !e.Crash? && !e.WriteHead? && !e.RecoverClear? && (e.LogWrite? ==> c.Home(e.b) != Victim(c))
  }

  ghost predicate Quiet(c: Cfg, es: seq<Event>) {
    forall i :: 0 <= i < |es| ==> Tame(c, es[i])
  }

  ghost predicate Leads(c: Cfg, s: State, ss: seq<State>, es: seq<Event>, s': State) {
    IsRun(c, ss, es) && Quiet(c, es) && ss[0] == s && ss[|es|] == s'
  }

  ghost predicate Reaches(c: Cfg, s: State, s': State) {
    exists ss, es :: Leads(c, s, ss, es, s')
  }

  lemma Stay(c: Cfg, s: State)
    ensures Reaches(c, s, s)
  {
    assert Leads(c, s, [s], [], s);
  }

  lemma Then(c: Cfg, s: State, s1: State, s2: State)
    requires Reaches(c, s, s1) && Reaches(c, s1, s2)
    ensures Reaches(c, s, s2)
  {
    hide Step, Tame;
    var ss, es :| Leads(c, s, ss, es, s1);
    var tt, fs :| Leads(c, s1, tt, fs, s2);
    JoinRuns(c, ss, es, tt, fs);
    assert Leads(c, s, ss + tt[1..], es + fs, s2);
  }

  lemma AndThen(c: Cfg, s: State, s1: State, e: Event, s2: State)
    requires Reaches(c, s, s1) && Step(c, s1, e, s2) && Tame(c, e)
    ensures Reaches(c, s, s2)
  {
    hide Step, Tame;
    Run1(c, s1, e, s2);
    assert Leads(c, s1, [s1, s2], [e], s2);
    Then(c, s, s1, s2);
  }

  /** The log space used by the open operations: operation 0 alone, or 0 and 1. */
  ghost function Solo(a: set<int>): map<int, set<int>> { map[0 := a] }

  ghost function Pair(a: set<int>, b: set<int>): map<int, set<int>> { map[0 := a, 1 := b] }

  lemma Pairs(a: set<int>, b: set<int>)
    ensures 0 in Solo(a) && 1 !in Solo(a) && |Solo(a)| == 1 && Solo(a)[1 := b] == Pair(a, b)
    ensures 0 in Pair(a, b) && 1 in Pair(a, b) && Pair(a, b)[0] == a && Pair(a, b)[1] == b
    ensures Pair(a, b) - {1} == Solo(a) && Solo(a) != map[] && Solo(a) - {0} == map[]
  {
  }

  lemma PairUpdate(a: set<int>, b: set<int>, x: set<int>)
    ensures Pair(a, b)[0 := x] == Pair(x, b) && Pair(a, b)[1 := x] == Pair(a, x)
  {
  }

  /** One operation logs the next block, undisturbed. */
  lemma WriteOne(c: Cfg, k: nat, open: map<int, set<int>>, op: int)
    requires Room(c) && k < c.size - 1 && op in open && |open[op]| < c.maxop
    ensures Reaches(c, At(c, k, open, map[]), At(c, k + 1, open[op := open[op] + {First(c) + k}], map[]))
  {
    hide Step, Reaches, At;
    var b := First(c) + k;
    var none: map<int, int> := map[];
    assert none[op := b] == map[op := b] && map[op := b] - {op} == none;
    TestStep(c, k, open, none, op, b);
    InsertStep(c, k, open, map[op := b], op);
    Stay(c, At(c, k, open, map[]));
    AndThen(c, At(c, k, open, map[]), At(c, k, open, map[]), LogTest(op, b), At(c, k, open, map[op := b]));
    AndThen(c, At(c, k, open, map[]), At(c, k, open, map[op := b]), LogWrite(op, b, [1]),
            At(c, k + 1, open[op := open[op] + {b}], map[]));
  }

  ghost function Blocks(c: Cfg, k: nat, n: nat): (s: set<int>)
    ensures |s| <= n
  {
    if n == 0 then {} else Blocks(c, k, n - 1) + {First(c) + k + n - 1}
  }

  /** Operation op logs n blocks. */
  lemma {:induction false} Writes(c: Cfg, k: nat, open: map<int, set<int>>, op: int, n: nat)
    requires Room(c) && op in open && open[op] == {} && n <= c.maxop && k + n <= c.size - 2
    ensures Reaches(c, At(c, k, open, map[]), At(c, k + n, open[op := Blocks(c, k, n)], map[]))
    decreases n
  {
    hide Step, Reaches, At;
    if n == 0 {
      assert open[op := {}] == open;
      Stay(c, At(c, k, open, map[]));
    } else {
      var mid := open[op := Blocks(c, k, n - 1)];
      Writes(c, k, open, op, n - 1);
      WriteOne(c, k + n - 1, mid, op);
      assert mid[op := Blocks(c, k, n)] == open[op := Blocks(c, k, n)];
      Then(c, At(c, k, open, map[]), At(c, k + n - 1, mid, map[]), At(c, k + n, open[op := Blocks(c, k, n)], map[]));
    }
  }

  lemma BeginStep(c: Cfg, k: nat, open: map<int, set<int>>, op: int)
    requires op !in open && k + (|open| + 1) * c.maxop <= c.logsize
    ensures Step(c, At(c, k, open, map[]), BeginOp(op), At(c, k, open[op := {}], map[]))
  {
  }

  /** An operation that is not the last one ends. */
  lemma EndStep(c: Cfg, k: nat, open: map<int, set<int>>, op: int)
    requires op in open && open - {op} != map[]
    ensures Step(c, At(c, k, open, map[]), EndOp(op), At(c, k, open - {op}, map[]))
  {
  }

  lemma BeginPair(c: Cfg, k: nat)
    requires k + 2 * c.maxop <= c.logsize
    ensures Step(c, At(c, k, Solo({}), map[]), BeginOp(1), At(c, k, Pair({}, {}), map[]))
  {
    hide At, Step;
    Pairs({}, {});
    BeginStep(c, k, Solo({}), 1);
  }

  /** While operation 0 stays open, another one logs a block. */
  lemma ShortOp(c: Cfg, k: nat)
    requires Room(c) && k + 1 <= c.size - 2 && k + 2 * c.maxop <= c.logsize
    ensures Reaches(c, At(c, k, Solo({}), map[]), At(c, k + 1, Solo({}), map[]))
  {
    hide Step, Reaches, At, Pair, Solo, Blocks;
    var s, b := At(c, k, Solo({}), map[]), Blocks(c, k, 1);
    Stay(c, s);
    BeginPair(c, k);
    AndThen(c, s, s, BeginOp(1), At(c, k, Pair({}, {}), map[]));
    Pairs({}, {});
    PairUpdate({}, {}, b);
    Writes(c, k, Pair({}, {}), 1, 1);
    Then(c, s, At(c, k, Pair({}, {}), map[]), At(c, k + 1, Pair({}, b), map[]));
    Pairs({}, b);
    EndStep(c, k + 1, Pair({}, b), 1);
    AndThen(c, s, At(c, k + 1, Pair({}, b), map[]), EndOp(1), At(c, k + 1, Solo({}), map[]));
  }

  lemma {:induction false} ShortOps(c: Cfg, x: nat)
    requires Room(c) && x <= c.size - 2 && x + 2 * c.maxop <= c.logsize
    ensures Reaches(c, At(c, 0, Solo({}), map[]), At(c, x, Solo({}), map[]))
    decreases x
  {
    hide Step, Reaches, At;
    if x == 0 {
      Stay(c, At(c, 0, Solo({}), map[]));
    } else {
      ShortOps(c, x - 1);
      ShortOp(c, x - 1);
      Then(c, At(c, 0, Solo({}), map[]), At(c, x - 1, Solo({}), map[]), At(c, x, Solo({}), map[]));
    }
  }

  /** Two operations are open and have budget left, and one slot is free. */
  lemma ToLastSlot(c: Cfg) returns (a: set<int>, b: set<int>)
    requires Room(c)
    ensures |a| < c.maxop && |b| < c.maxop
    ensures Reaches(c, At(c, 0, map[], map[]), At(c, c.size - 2, Pair(a, b), map[]))
  {
    hide Step, Reaches, At, Pair, Solo, Blocks;
    var all := c.size - 2;
    // how many blocks the short operations log, and then operation 0
    var x := if all < 2 * (c.maxop - 1) then 0 else all - 2 * (c.maxop - 1);
    var n := if all - x < c.maxop - 1 then all - x else c.maxop - 1;
    a, b := Blocks(c, x, n), Blocks(c, x + n, all - x - n);
    var s := At(c, 0, map[], map[]);
    Stay(c, s);
    BeginSolo(c);
    AndThen(c, s, s, BeginOp(0), At(c, 0, Solo({}), map[]));
    ShortOps(c, x);
    Then(c, s, At(c, 0, Solo({}), map[]), At(c, x, Solo({}), map[]));
    BeginPair(c, x);
    AndThen(c, s, At(c, x, Solo({}), map[]), BeginOp(1), At(c, x, Pair({}, {}), map[]));
    Pairs({}, {});
    PairUpdate({}, {}, a);
    Writes(c, x, Pair({}, {}), 0, n);
    Then(c, s, At(c, x, Pair({}, {}), map[]), At(c, x + n, Pair(a, {}), map[]));
    Pairs(a, {});
    PairUpdate(a, {}, b);
    Writes(c, x + n, Pair(a, {}), 1, all - x - n);
    Then(c, s, At(c, x + n, Pair(a, {}), map[]), At(c, all, Pair(a, b), map[]));
  }

  lemma BeginSolo(c: Cfg)
    requires c.maxop <= c.logsize
    ensures Step(c, At(c, 0, map[], map[]), BeginOp(0), At(c, 0, Solo({}), map[]))
  {
    hide At, Step;
    var none: map<int, set<int>> := map[];
    assert none[0 := {}] == Solo({});
    BeginStep(c, 0, none, 0);
  }

  ghost function Inside(x: int, y: int): map<int, int> { map[0 := x, 1 := y] }

  /** Both pass the guard. */
  lemma BothPass(c: Cfg, open: map<int, set<int>>, x: int, y: int)
    requires Room(c) && 0 in open && 1 in open && |open[0]| < c.maxop && |open[1]| < c.maxop
    requires First(c) <= x < First(c) + c.size && First(c) <= y < First(c) + c.size
    ensures Reaches(c, At(c, c.size - 2, open, map[]), At(c, c.size - 2, open, Inside(x, y)))
  {
    hide Step, Reaches, At;
    var k, none: map<int, int> := c.size - 2, map[];
    var s := At(c, k, open, none);
    assert none[0 := x] == map[0 := x] && map[0 := x][1 := y] == Inside(x, y);
    Stay(c, s);
    TestStep(c, k, open, none, 0, x);
    AndThen(c, s, s, LogTest(0, x), At(c, k, open, map[0 := x]));
    TestStep(c, k, open, map[0 := x], 1, y);
    AndThen(c, s, At(c, k, open, map[0 := x]), LogTest(1, y), At(c, k, open, Inside(x, y)));
  }

  /** And both insert. */
  lemma BothInsert(c: Cfg, open: map<int, set<int>>, open1: map<int, set<int>>, open2: map<int, set<int>>)
    requires Room(c) && 0 in open && 1 in open && |open[0]| < c.maxop && |open[1]| < c.maxop
    requires open1 == open[0 := open[0] + {First(c) + c.size - 2}]
    requires open2 == open1[1 := open1[1] + {First(c) + c.size - 1}]
    ensures Reaches(c, At(c, c.size - 2, open, Inside(First(c) + c.size - 2, First(c) + c.size - 1)),
                    At(c, c.size, open2, map[]))
  {
    hide Step, Reaches, At;
    var k, x, y := c.size - 2, First(c) + c.size - 2, First(c) + c.size - 1;
    var s := At(c, k, open, Inside(x, y));
    assert Inside(x, y) - {0} == map[1 := y] && map[1 := y] - {1} == map[];
    Stay(c, s);
    InsertStep(c, k, open, Inside(x, y), 0);
    AndThen(c, s, s, LogWrite(0, x, [1]), At(c, k + 1, open1, map[1 := y]));
    InsertStep(c, k + 1, open1, map[1 := y], 1);
    AndThen(c, s, At(c, k + 1, open1, map[1 := y]), LogWrite(1, y, [1]), At(c, k + 2, open2, map[]));
  }

  lemma OverTheEdge(c: Cfg, a: set<int>, b: set<int>)
    requires Room(c) && |a| < c.maxop && |b| < c.maxop
    ensures var x := First(c) + c.size - 2;
            Reaches(c, At(c, c.size - 2, Pair(a, b), map[]), At(c, c.size, Pair(a + {x}, b + {x + 1}), map[]))
  {
    hide Step, Reaches, At, Pair, Inside;
    var x := First(c) + c.size - 2;
    Pairs(a, b);
    PairUpdate(a, b, a + {x});
    Pairs(a + {x}, b);
    PairUpdate(a + {x}, b, b + {x + 1});
    BothPass(c, Pair(a, b), x, x + 1);
    BothInsert(c, Pair(a, b), Pair(a + {x}, b), Pair(a + {x}, b + {x + 1}));
    Then(c, At(c, c.size - 2, Pair(a, b), map[]), At(c, c.size - 2, Pair(a, b), Inside(x, x + 1)),
         At(c, c.size, Pair(a + {x}, b + {x + 1}), map[]));
  }

  // ---------------------------------------------------------------- the commit

  ghost predicate Slotted(c: Cfg, id: Id, t: int) { c.start < id.blockno <= c.start + t }

  /** The first t slots hold the logged contents. */
  ghost function Overlay(c: Cfg, d: Disk, t: nat): Disk {
    map id | id in d :: if Slotted(c, id, t) then [1] else d[id]
  }

  ghost function DiskAt(c: Cfg, t: nat): Disk { Overlay(c, Disk0(c), t) }

  ghost function ViewAt(c: Cfg, t: nat): Disk
    requires c.size >= 0
  {
    Overlay(c, View(c, c.size), t)
  }

  /** write_log has written t slots. */
  ghost function Writing(c: Cfg, t: nat): State
    requires c.size >= 0
  {
    State(DiskAt(c, t), ViewAt(c, t), Pins(c, c.size), Group(c, c.size), map[], map[], Logging(t))
  }

  lemma LastEnds(c: Cfg, a: set<int>, b: set<int>)
    requires Room(c)
    ensures Reaches(c, At(c, c.size, Pair(a, b), map[]), Writing(c, 0))
  {
    hide Step, Reaches, At, Pair, Writing, Solo;
    var s := At(c, c.size, Pair(a, b), map[]);
    Stay(c, s);
    Pairs(a, b);
    EndStep(c, c.size, Pair(a, b), 1);
    AndThen(c, s, s, EndOp(1), At(c, c.size, Solo(a), map[]));
    LastStep(c, a);
    AndThen(c, s, At(c, c.size, Solo(a), map[]), EndOp(0), Writing(c, 0));
  }

  lemma LastStep(c: Cfg, a: set<int>)
    requires Room(c)
    ensures Step(c, At(c, c.size, Solo(a), map[]), EndOp(0), Writing(c, 0))
  {
    Pairs(a, {});
    hide Ids;
    assert DiskAt(c, 0) == Disk0(c) && ViewAt(c, 0) == View(c, c.size);
  }

  lemma SlotStep(c: Cfg, t: nat)
    requires Room(c) && t < c.size
    ensures Step(c, Writing(c, t), WriteSlot, Writing(c, t + 1))
  {
    hide Ids, DiskAt, ViewAt, Pins;
    SlotWritten(c, t);
  }

  lemma SlotWritten(c: Cfg, t: nat)
    requires c.size >= 2 && t < c.size
    ensures DiskAt(c, t + 1) == DiskAt(c, t)[c.Slot(t) := [1]] && ViewAt(c, t + 1) == ViewAt(c, t)[c.Slot(t) := [1]]
    ensures var h := c.Home(First(c) + t);
            && h in DiskAt(c, t) && h in ViewAt(c, t) && h in Pins(c, c.size) && c.Slot(t) in ViewAt(c, t)
            && ViewAt(c, t)[h] == [1]
  {
    hide Ids;
    InIds(c, c.start + 1 + t);
    InIds(c, First(c) + t);
    OneDevice(c);
    OverlayStep(c, Disk0(c), t);
    OverlayStep(c, View(c, c.size), t);
  }

  lemma OneDevice(c: Cfg)
    ensures forall id :: id in Ids(c) ==> id.dev == c.dev
  {
  }

  lemma OverlayStep(c: Cfg, d: Disk, t: nat)
    requires c.Slot(t) in d && forall id :: id in d ==> id.dev == c.dev
    ensures Overlay(c, d, t + 1) == Overlay(c, d, t)[c.Slot(t) := [1]]
  {
  }

  lemma {:induction false} AllSlots(c: Cfg, t: nat)
    requires Room(c) && t <= c.size
    ensures Reaches(c, Writing(c, 0), Writing(c, t))
    decreases t
  {
    hide Step, Reaches, Writing;
    if t == 0 {
      Stay(c, Writing(c, 0));
    } else {
      AllSlots(c, t - 1);
      SlotStep(c, t - 1);
      AndThen(c, Writing(c, 0), Writing(c, t - 1), WriteSlot, Writing(c, t));
    }
  }

  lemma ReachesEnd(c: Cfg)
    requires !c.Fits()
    ensures Reaches(c, At(c, 0, map[], map[]), Writing(c, c.size))
  {
    hide Step, Reaches, At, Pair, Writing;
    var s := At(c, 0, map[], map[]);
    var a, b := ToLastSlot(c);
    var x := First(c) + c.size - 2;
    OverTheEdge(c, a, b);
    Then(c, s, At(c, c.size - 2, Pair(a, b), map[]), At(c, c.size, Pair(a + {x}, b + {x + 1}), map[]));
    LastEnds(c, a + {x}, b + {x + 1});
    Then(c, s, At(c, c.size, Pair(a + {x}, b + {x + 1}), map[]), Writing(c, 0));
    AllSlots(c, c.size);
    Then(c, s, Writing(c, 0), Writing(c, c.size));
  }

  /** The run: from a disk in order, without a crash or a panic, to one on which the block
      after the log area has been overwritten, although no operation ever logged it. */
  lemma OverwritesHome(c: Cfg) returns (ss: seq<State>, es: seq<Event>)
    requires !c.Fits()
    ensures |ss| == |es| + 1 && IsRun(c, ss, es) && Quiet(c, es) && Inv(c, ss[0])
    ensures var h := Victim(c);
            && c.IsHome(h) && h in ss[0].disk && h in ss[|es|].disk && ss[0].disk[h] == [] && ss[|es|].disk[h] == [1]
            && DiskOk(c, ss[0].disk) && Entries(ss[0].disk[c.Header()]) == []
            && DiskOk(c, ss[|es|].disk) && Entries(ss[|es|].disk[c.Header()]) == []
  {
    hide Step, IsRun, Inv, DiskOk;
    ReachesEnd(c);
    StartOk(c);
    EndDisk(c);
    StartDisk(c);
    ss, es :| Leads(c, At(c, 0, map[], map[]), ss, es, Writing(c, c.size));
    RunLength(c, ss, es);
  }

  lemma RunLength(c: Cfg, ss: seq<State>, es: seq<Event>)
    requires IsRun(c, ss, es)
    ensures |ss| == |es| + 1
  {
  }

  lemma StartDisk(c: Cfg)
    requires c.size >= 2
    ensures DiskOk(c, Disk0(c)) && Entries(Disk0(c)[c.Header()]) == []
  {
    StartOk(c);
  }

  lemma EndDisk(c: Cfg)
    requires c.size >= 2
    ensures DiskOk(c, DiskAt(c, c.size)) && Entries(DiskAt(c, c.size)[c.Header()]) == []
    ensures Victim(c) in Disk0(c) && Victim(c) in DiskAt(c, c.size)
    ensures Disk0(c)[Victim(c)] == [] && DiskAt(c, c.size)[Victim(c)] == [1]
  {
    hide Ids;
    InIds(c, c.start);
    InIds(c, c.start + c.size);
    forall i | 0 <= i < c.Slots()
      ensures c.Slot(i) in DiskAt(c, c.size)
    {
      InIds(c, c.start + 1 + i);
    }
  }

  lemma {:induction false} QuietSpec(c: Cfg, a: Spec, es: seq<Event>)
    requires Quiet(c, es)
    ensures SpecRun(c, a, es).durable == a.durable
  {
    if es != [] {
      QuietSpec(c, a, es[..|es| - 1]);
    }
  }

  lemma OverflowIsUnsafe(c: Cfg)
    requires !c.Fits()
    ensures !Safe(c)
  {
    hide Inv, DiskOk, IsRun, Committed;
    var ss, es := OverwritesHome(c);
    InvDiskOk(c, ss[0]);
    QuietSpec(c, Abs(c, ss[0]), es);
    CommittedHome(c, ss[0].disk, Victim(c));
    CommittedHome(c, ss[|es|].disk, Victim(c));
    assert IsRun(c, ss, es);
  }

  lemma CommittedHome(c: Cfg, d: Disk, h: Id)
    requires DiskOk(c, d) && Entries(d[c.Header()]) == [] && h in d && c.IsHome(h)
    ensures h in Committed(c, d) && Committed(c, d)[h] == d[h]
  {
  }

  /** The theorems on whole runs hold for every interleaving exactly for these sizes. The disk
      of mkfs is one of them, because NBUF is no larger than its log area; with one more
      buffer, or with a log area of 20 blocks, it would not be. */
  lemma SafeExactly(c: Cfg)
    ensures Safe(c) <==> c.Fits()
    ensures Cfg(0, 2, 30, 30, 10, 30).Fits() && !Cfg(0, 2, 30, 30, 10, 31).Fits() && !Cfg(0, 2, 20, 30, 10, 30).Fits()
  {
    hide Safe;
    if c.Fits() {
      FitsIsSafe(c);
    } else {
      OverflowIsUnsafe(c);
    }
  }
}
