/** A run in which init sleeps on although it has an exited child (kernel/proc.c).

  Four processes: init, a child of init, a child of that one and a child of that. The last
  one exits. While its parent exits too, init is woken, looks around and goes back to sleep;
  only then is the exited process given to init, and the one that gives it wakes its own
  parent.
 */
module WaitMiss {
  import opened Sched
  import opened WaitExit

  predicate Never(p: int, sigma: int) { false }

  const INIT := 0

  // ---------------------------------------------------------------- pieces of runs

  ghost predicate Leads(s: State, k: Kin, ss: seq<State>, ks: seq<Kin>, ms: seq<Move>, s': State, k': Kin) {
    && |ss| == |ms| + 1 && |ks| == |ms| + 1 && ss[0] == s && ks[0] == k && ss[|ms|] == s' && ks[|ms|] == k'
    && forall i :: 0 <= i < |ms| ==> KinMove(Never, INIT, ss[i], ks[i], ms[i], ss[i + 1], ks[i + 1])
  }

  ghost predicate Reaches(s: State, k: Kin, s': State, k': Kin) {
    exists ss, ks, ms :: Leads(s, k, ss, ks, ms, s', k')
  }

  lemma Stay(s: State, k: Kin)
    ensures Reaches(s, k, s, k)
  {
    assert Leads(s, k, [s], [k], [], s, k);
  }

  lemma Then(s: State, k: Kin, s1: State, k1: Kin, s2: State, k2: Kin)
    requires Reaches(s, k, s1, k1) && Reaches(s1, k1, s2, k2)
    ensures Reaches(s, k, s2, k2)
  {
    hide KinMove;
    var ss, ks, ms :| Leads(s, k, ss, ks, ms, s1, k1);
    var tt, ls, ns :| Leads(s1, k1, tt, ls, ns, s2, k2);
    var uu, js, os := ss + tt[1..], ks + ls[1..], ms + ns;
    forall i | 0 <= i < |os|
      ensures KinMove(Never, INIT, uu[i], js[i], os[i], uu[i + 1], js[i + 1])
    {
      if i < |ms| {
        assert KinMove(Never, INIT, ss[i], ks[i], ms[i], ss[i + 1], ks[i + 1]);
      } else {
        var x := i - |ms|;
        assert KinMove(Never, INIT, tt[x], ls[x], ns[x], tt[x + 1], ls[x + 1]);
      }
    }
    assert Leads(s, k, uu, js, os, s2, k2);
  }

  lemma AndThen(s: State, k: Kin, s1: State, k1: Kin, m: Move, s2: State, k2: Kin)
    requires Reaches(s, k, s1, k1) && KinMove(Never, INIT, s1, k1, m, s2, k2)
    ensures Reaches(s, k, s2, k2)
  {
    hide KinMove;
    assert Leads(s1, k1, [s1, s2], [k1, k2], [m], s2, k2);
    Then(s, k, s1, k1, s2, k2);
  }

  /** A step of the thread of process p on CPU c. */
  lemma Does(s: State, k: Kin, s1: State, k1: Kin, c: int, p: int, e: Event, s2: State, k2: Kin)
    requires Reaches(s, k, s1, k1) && 0 <= c < |s1.cpus| && IsProc(s1, p) && s1.cpus[c].spc == Run(p)
    requires || SwtchStep(s1, c, p, e, s2) || OwnStep(s1, c, p, e, s2) || LeaveStep(s1, c, p, e, s2)
             || ExitStep(s1, c, p, e, s2) || WaitStep(s1, c, p, e, s2) || ReapStep(s1, c, p, e, s2)
    requires KinStep(INIT, s1, k1, p, e, k2)
    ensures Reaches(s, k, s2, k2)
  {
    hide Reaches, SwtchStep, OwnStep, LeaveStep, ExitStep, WaitStep, ReapStep, KinStep;
    AndThen(s, k, s1, k1, Act(Action(c, e)), s2, k2);
  }

  /** A step of the scheduler of CPU c. */
  lemma Schedules(s: State, k: Kin, s1: State, k1: Kin, c: int, e: Event, s2: State)
    requires Reaches(s, k, s1, k1) && 0 <= c < |s1.cpus| && !s1.cpus[c].spc.Run? && SchedStep(s1, c, e, s2)
    ensures Reaches(s, k, s2, k1)
  {
    hide Reaches, SchedStep;
    AndThen(s, k, s1, k1, Act(Action(c, e)), s2, k1);
  }

  // ---------------------------------------------------------------- what processes do

  predicate Sized(s: State) { |s.procs| == 4 && |s.cpus| == 3 }

  /** Process p runs on CPU c, with this program counter and no lock. */
  predicate RunsOn(s: State, c: int, p: int, pc: PC) {
    && Sized(s) && 0 <= c < 3 && 0 <= p < 4
    && s.procs[p] == Proc(RUNNING, NoChan, pc, -1, c) && s.cpus[c] == Cpu(p, Run(p))
  }

  ghost function With(s: State, p: int, pr: Proc): State
    requires IsProc(s, p)
  {
    s.(procs := s.procs[p := pr])
  }

  /** CPU c picks up process p. */
  lemma Starts(s: State, k: Kin, c: int, p: int)
    requires Sized(s) && 0 <= c < 3 && 0 <= p < 4
    requires s.procs[p] == Proc(RUNNABLE, NoChan, Fresh, -1, -1) && s.cpus[c] == Cpu(-1, Look)
    ensures Reaches(s, k, With(s, p, Proc(RUNNING, NoChan, Idle, -1, c)).(cpus := s.cpus[c := Cpu(p, Run(p))]), k)
  {
    hide Reaches, SwtchStep, LeaveStep, ExitStep, WaitStep, ReapStep;
    var s1 := SetCpu(Acquire(s, p, c), c, s.cpus[c].(spc := Hold(p)));
    var s2 := SetCpu(Put(s1, p, s1.procs[p].(state := RUNNING, on := c)), c, Cpu(p, Run(p)));
    var s3 := Go(Release(s2, p), p, Idle);
    Stay(s, k);
    Schedules(s, k, s, k, c, SchedLock(p), s1);
    Schedules(s, k, s1, k, c, SchedRun, s2);
    Does(s, k, s2, k, c, p, RetUnlock, s3, k);
    assert s3 == With(s, p, Proc(RUNNING, NoChan, Idle, -1, c)).(cpus := s.cpus[c := Cpu(p, Run(p))]);
  }

  /** Process p begins to exit while init is running: init is woken for nothing, and p->parent is copied. */
  lemma Leaves(s: State, k: Kin, c: int, p: int)
    requires RunsOn(s, c, p, Idle) && p != INIT && s.procs[INIT].lock == -1 && !s.procs[INIT].state.SLEEPING?
    requires p in k.parent
    ensures Reaches(s, k, With(s, p, Proc(RUNNING, NoChan, ExitCopied, -1, c)), k.(copy := k.copy[p := k.parent[p]]))
  {
    hide Reaches, LeaveStep;
    var s1 := With(With(s, INIT, s.procs[INIT].(lock := c)), p, s.procs[p].(pc := ExitInit(INIT)));
    var s2 := With(s, p, s.procs[p].(pc := ExitWoken));
    var s3 := With(s, p, s.procs[p].(pc := ExitCopy, lock := c));
    var s4 := With(s, p, s.procs[p].(pc := ExitCopied));
    var k' := k.(copy := k.copy[p := k.parent[p]]);
    WakesInit(s, c, p);
    Copies(s, c, p);
    Stay(s, k);
    Does(s, k, s, k, c, p, InitLock(INIT), s1, k);
    Does(s, k, s1, k, c, p, InitUnlock, s2, k);
    Does(s, k, s2, k, c, p, CopyLock, s3, k');
    Does(s, k, s3, k', c, p, CopyUnlock, s4, k');
  }

  lemma WakesInit(s: State, c: int, p: int)
    requires RunsOn(s, c, p, Idle) && p != INIT && s.procs[INIT].lock == -1 && !s.procs[INIT].state.SLEEPING?
    ensures var s1 := With(With(s, INIT, s.procs[INIT].(lock := c)), p, s.procs[p].(pc := ExitInit(INIT)));
            && LeaveStep(s, c, p, InitLock(INIT), s1)
            && LeaveStep(s1, c, p, InitUnlock, With(s, p, s.procs[p].(pc := ExitWoken)))
  {
    var s1 := With(With(s, INIT, s.procs[INIT].(lock := c)), p, s.procs[p].(pc := ExitInit(INIT)));
    assert Go(Release(s1, INIT), p, ExitWoken) == With(s, p, s.procs[p].(pc := ExitWoken));
  }

  lemma Copies(s: State, c: int, p: int)
    requires RunsOn(s, c, p, Idle)
    ensures var s2 := With(s, p, s.procs[p].(pc := ExitWoken));
            var s3 := With(s, p, s.procs[p].(pc := ExitCopy, lock := c));
            && LeaveStep(s2, c, p, CopyLock, s3)
            && LeaveStep(s3, c, p, CopyUnlock, With(s, p, s.procs[p].(pc := ExitCopied)))
  {
  }

  /** It locks its parent and itself. */
  lemma Locks(s: State, k: Kin, c: int, p: int, i: int)
    requires RunsOn(s, c, p, ExitCopied) && 0 <= i < 4 && i != p && s.procs[i].lock == -1 && p in k.copy
             && k.copy[p] == i
    ensures Reaches(s, k, With(With(s, i, s.procs[i].(lock := c)), p, Proc(RUNNING, NoChan, ExitBoth(i), c, c)), k)
  {
    hide Reaches, SwtchStep, OwnStep, LeaveStep, WaitStep, ReapStep;
    var s1 := With(With(s, i, s.procs[i].(lock := c)), p, s.procs[p].(pc := ExitParent(i)));
    var s2 := With(With(s, i, s.procs[i].(lock := c)), p, Proc(RUNNING, NoChan, ExitBoth(i), c, c));
    Stay(s, k);
    Does(s, k, s, k, c, p, ExitLock(i), s1, k);
    Does(s, k, s1, k, c, p, ExitLockSelf, s2, k);
  }

  /** It gives its child to init. */
  lemma GivesAway(s: State, k: Kin, c: int, p: int, i: int, j: int)
    requires Sized(s) && 0 <= c < 3 && 0 <= p < 4 && s.cpus[c] == Cpu(p, Run(p)) && p != INIT
    requires s.procs[p] == Proc(RUNNING, NoChan, ExitBoth(i), c, c)
    requires 0 <= j < 4 && j != p && j != i && s.procs[j].lock == -1 && j in k.parent && k.parent[j] == p
    ensures Reaches(s, k, s, k.(parent := k.parent[j := INIT]))
  {
    hide Reaches, SwtchStep, OwnStep, LeaveStep, WaitStep, ReapStep;
    var s1 := With(With(s, j, s.procs[j].(lock := c)), p, s.procs[p].(pc := ExitChild(i, j)));
    var k' := k.(parent := k.parent[j := INIT]);
    Stay(s, k);
    Does(s, k, s, k, c, p, ReparentLock(j), s1, k');
    assert Go(Release(s1, j), p, ExitBoth(i)) == s;
    Does(s, k, s1, k', c, p, ReparentUnlock, s, k');
  }

  /** It becomes a zombie, wakes a parent that is not in wait, and goes off its CPU. */
  lemma Dies(s: State, k: Kin, c: int, p: int, i: int)
    requires Sized(s) && 0 <= c < 3 && 0 <= p < 4 && s.cpus[c] == Cpu(p, Run(p)) && 0 <= i < 4 && i != p
    requires s.procs[p] == Proc(RUNNING, NoChan, ExitBoth(i), c, c) && s.procs[i].lock == c
             && !s.procs[i].state.SLEEPING?
    requires forall j :: j in k.parent ==> k.parent[j] != p
    ensures Reaches(s, k, Gone(s, c, p, i), k.(told := k.told[p := i]))
  {
    hide Reaches, ExitStep, SwtchStep;
    var k' := k.(told := k.told[p := i]);
    var s1 := With(s, p, Proc(ZOMBIE, NoChan, ExitZombie(i), c, c));
    var s2 := With(With(s, i, s.procs[i].(lock := -1)), p, Proc(ZOMBIE, NoChan, ExitSched, c, c));
    Exits(s, c, p, i);
    Stay(s, k);
    Does(s, k, s, k, c, p, BecomeZombie, s1, k');
    Does(s, k, s1, k', c, p, ExitUnlock, s2, k');
    SwitchesOff(s, k, s2, k', c, p, Proc(ZOMBIE, NoChan, Dead, -1, -1));
    assert With(s2, p, Proc(ZOMBIE, NoChan, Dead, -1, -1)).procs == Gone(s, c, p, i).procs;
  }

  ghost function Gone(s: State, c: int, p: int, i: int): State
    requires Sized(s) && 0 <= c < 3 && 0 <= p < 4 && 0 <= i < 4
  {
    With(With(s, i, s.procs[i].(lock := -1)), p,
         Proc(ZOMBIE, NoChan, Dead, -1, -1)).(cpus := s.cpus[c := Cpu(-1, Look)])
  }

  lemma Exits(s: State, c: int, p: int, i: int)
    requires Sized(s) && 0 <= c < 3 && 0 <= p < 4 && 0 <= i < 4 && i != p
    requires s.procs[p] == Proc(RUNNING, NoChan, ExitBoth(i), c, c) && s.procs[i].lock == c
             && !s.procs[i].state.SLEEPING?
    ensures var s1 := With(s, p, Proc(ZOMBIE, NoChan, ExitZombie(i), c, c));
            && ExitStep(s, c, p, BecomeZombie, s1)
            && ExitStep(s1, c, p, ExitUnlock,
                        With(With(s, i, s.procs[i].(lock := -1)), p, Proc(ZOMBIE, NoChan, ExitSched, c, c)))
  {
    var s1 := With(s, p, Proc(ZOMBIE, NoChan, ExitZombie(i), c, c));
    assert Go(Release(s1, i), p, ExitSched)
           == With(With(s, i, s.procs[i].(lock := -1)), p, Proc(ZOMBIE, NoChan, ExitSched, c, c));
  }

  /** sched: the process switches to the scheduler, which lets go of its lock. */
  lemma SwitchesOff(s: State, k: Kin, s1: State, k1: Kin, c: int, p: int, pr: Proc)
    requires Reaches(s, k, s1, k1) && Sized(s1) && 0 <= c < 3 && 0 <= p < 4 && s1.cpus[c] == Cpu(p, Run(p))
    requires s1.procs[p].pc.ExitSched? || s1.procs[p].pc.WaitSched?
    requires pr == s1.procs[p].(pc := After(s1.procs[p].pc), on := -1, lock := -1)
    ensures Reaches(s, k, With(s1, p, pr).(cpus := s1.cpus[c := Cpu(-1, Look)]), k1)
  {
    hide Reaches;
    var s2 := With(s1, p, pr.(lock := s1.procs[p].lock)).(cpus := s1.cpus[c := Cpu(p, Back(p))]);
    var s3 := s2.(cpus := s1.cpus[c := Cpu(-1, Clear(p))]);
    Switched(s1, c, p, s2, s3, pr);
    hide SwtchStep, SchedStep;
    Does(s, k, s1, k1, c, p, Swtch, s2, k1);
    Schedules(s, k, s2, k1, c, SchedClear, s3);
    Schedules(s, k, s3, k1, c, SchedUnlock, With(s1, p, pr).(cpus := s1.cpus[c := Cpu(-1, Look)]));
  }

  lemma Switched(s1: State, c: int, p: int, s2: State, s3: State, pr: Proc)
    requires Sized(s1) && 0 <= c < 3 && 0 <= p < 4 && s1.cpus[c] == Cpu(p, Run(p))
    requires s1.procs[p].pc.ExitSched? || s1.procs[p].pc.WaitSched?
    requires pr == s1.procs[p].(pc := After(s1.procs[p].pc), on := -1, lock := -1)
    requires s2 == With(s1, p, pr.(lock := s1.procs[p].lock)).(cpus := s1.cpus[c := Cpu(p, Back(p))])
    requires s3 == s2.(cpus := s1.cpus[c := Cpu(-1, Clear(p))])
    ensures SwtchStep(s1, c, p, Swtch, s2) && SchedStep(s2, c, SchedClear, s3)
    ensures SchedStep(s3, c, SchedUnlock, With(s1, p, pr).(cpus := s1.cpus[c := Cpu(-1, Look)]))
  {
  }

  // ---------------------------------------------------------------- init looks around

  /** The whole of wait's scan, for init with one living child. */
  lemma Scans(s: State, k: Kin, c: int)
    requires RunsOn(s, c, INIT, Idle) && 1 in k.parent && k.parent[1] == INIT && INIT !in k.parent
    requires 2 in k.parent && k.parent[2] != INIT && 3 in k.parent && k.parent[3] != INIT
    requires s.procs[1].lock == -1 && !s.procs[1].state.ZOMBIE?
    ensures Reaches(s, k, With(s, INIT, Proc(RUNNING, NoChan, WaitScan, c, c)), Saw(k, {0, 1, 2, 3}))
  {
    hide Reaches, WaitStep, ReapStep;
    var s1 := With(s, INIT, Proc(RUNNING, NoChan, WaitScan, c, c));
    Stay(s, k);
    Probes(s, c);
    Does(s, k, s, k, c, INIT, WaitLock, s1, Saw(k, {}));
    Passes(s, k, s1, k, c, {}, 0);
    assert {} + {0} == {0} && {0} + {1} == {0, 1} && {0, 1} + {2} == {0, 1, 2} && {0, 1, 2} + {3} == {0, 1, 2, 3};
    ProbesOne(s, k, s1, c);
    Passes(s, k, s1, k, c, {0, 1}, 2);
    Passes(s, k, s1, k, c, {0, 1, 2}, 3);
  }

  lemma Probes(s: State, c: int)
    requires RunsOn(s, c, INIT, Idle)
    ensures WaitStep(s, c, INIT, WaitLock, With(s, INIT, Proc(RUNNING, NoChan, WaitScan, c, c)))
  {
  }

  lemma ProbesOne(s: State, k: Kin, s1: State, c: int)
    requires Reaches(s, k, s1, Saw(k, {0})) && Sized(s1) && 0 <= c < 3 && s1.cpus[c].spc == Run(INIT)
    requires s1.procs[INIT].pc.WaitScan? && 1 in k.parent && k.parent[1] == INIT
    requires s1.procs[1].lock == -1 && !s1.procs[1].state.ZOMBIE?
    ensures Reaches(s, k, s1, Saw(k, {0, 1}))
  {
    hide Reaches, SwtchStep, OwnStep, LeaveStep, ExitStep, WaitStep;
    var s2 := With(With(s1, 1, s1.procs[1].(lock := c)), INIT, s1.procs[INIT].(pc := WaitHeld(1)));
    Does(s, k, s1, Saw(k, {0}), c, INIT, WaitProbe(1), s2, Saw(k, {0}));
    assert Go(Release(s2, 1), INIT, WaitScan) == s1;
    Again(k, {0}, {0, 1});
    assert {0} + {1} == {0, 1};
    Does(s, k, s2, Saw(k, {0}), c, INIT, WaitSkip, s1, Saw(k, {0, 1}));
  }

  ghost function Saw(k: Kin, js: set<int>): Kin { k.(seen := k.seen[INIT := js]) }

  lemma Again(k: Kin, a: set<int>, b: set<int>)
    ensures Seen(Saw(k, a), INIT) == a && Saw(k, a).(seen := Saw(k, a).seen[INIT := b]) == Saw(k, b)
  {
  }

  lemma Passes(s: State, k: Kin, s1: State, k1: Kin, c: int, js: set<int>, j: int)
    requires Reaches(s, k, s1, Saw(k1, js)) && Sized(s1) && 0 <= c < 3 && s1.cpus[c].spc == Run(INIT)
    requires s1.procs[INIT].pc.WaitScan? && !(j in k1.parent && k1.parent[j] == INIT)
    ensures Reaches(s, k, s1, Saw(k1, js + {j}))
  {
    hide Reaches;
    Again(k1, js, js + {j});
    AndThen(s, k, s1, Saw(k1, js), Pass(c, j), s1, Saw(k1, js + {j}));
  }

  /** And then it sleeps. */
  lemma FallsAsleep(s: State, k: Kin, c: int)
    requires Sized(s) && 0 <= c < 3 && s.cpus[c] == Cpu(INIT, Run(INIT))
    requires s.procs[INIT] == Proc(RUNNING, NoChan, WaitScan, c, c) && Seen(k, INIT) == {0, 1, 2, 3}
    ensures Reaches(s, k, With(s, INIT, Proc(SLEEPING, Self, WaitRet, -1, -1)).(cpus := s.cpus[c := Cpu(-1, Look)]), k)
  {
    hide Reaches, SwtchStep, OwnStep, LeaveStep, ExitStep, ReapStep;
    var s1 := With(s, INIT, Proc(SLEEPING, Self, WaitSched, c, c));
    Stay(s, k);
    Does(s, k, s, k, c, INIT, WaitSleep, s1, k);
    SwitchesOff(s, k, s1, k, c, INIT, Proc(SLEEPING, Self, WaitRet, -1, -1));
    assert With(s1, INIT, Proc(SLEEPING, Self, WaitRet, -1, -1)) ==
           With(s, INIT, Proc(SLEEPING, Self, WaitRet, -1, -1));
  }

  // ---------------------------------------------------------------- the run

  ghost function World(p0: Proc, p1: Proc, p2: Proc, p3: Proc, c0: Cpu, c1: Cpu, c2: Cpu): State {
    State([p0, p1, p2, p3], [c0, c1, c2], -1, 0, false, false)
  }

  lemma Worlds(p0: Proc, p1: Proc, p2: Proc, p3: Proc, c0: Cpu, c1: Cpu, c2: Cpu, x: Proc)
    ensures var w := World(p0, p1, p2, p3, c0, c1, c2);
            && Sized(w) && w.procs[0] == p0 && w.procs[1] == p1 && w.procs[2] == p2 && w.procs[3] == p3
            && w.cpus[0] == c0 && w.cpus[1] == c1 && w.cpus[2] == c2
            && With(w, 0, x) == World(x, p1, p2, p3, c0, c1, c2) && With(w, 1, x) == World(p0, x, p2, p3, c0, c1, c2)
            && With(w, 2, x) == World(p0, p1, x, p3, c0, c1, c2) && With(w, 3, x) == World(p0, p1, p2, x, c0, c1, c2)
  {
  }

  lemma Cpus(p0: Proc, p1: Proc, p2: Proc, p3: Proc, c0: Cpu, c1: Cpu, c2: Cpu, x: Cpu)
    ensures var w := World(p0, p1, p2, p3, c0, c1, c2);
            && w.(cpus := w.cpus[0 := x]) == World(p0, p1, p2, p3, x, c1, c2)
            && w.(cpus := w.cpus[1 := x]) == World(p0, p1, p2, p3, c0, x, c2)
            && w.(cpus := w.cpus[2 := x]) == World(p0, p1, p2, p3, c0, c1, x)
  {
  }

  const BORN := Proc(RUNNABLE, NoChan, Fresh, -1, -1)
  const GONE := Proc(ZOMBIE, NoChan, Dead, -1, -1)
  const ASLEEP := Proc(SLEEPING, Self, WaitRet, -1, -1)
  const FREE := Cpu(-1, Look)

  function On(pc: PC, c: int): Proc { Proc(RUNNING, NoChan, pc, -1, c) }

  function Busy(p: int): Cpu { Cpu(p, Run(p)) }

  ghost function Family(): Kin { Kin(map[1 := 0, 2 := 1, 3 := 2], map[], map[], map[]) }

  lemma AllStart()
    ensures Reaches(World(BORN, BORN, BORN, BORN, FREE, FREE, FREE), Family(),
                    World(On(Idle, 0), BORN, On(Idle, 1), On(Idle, 2), Busy(0), Busy(2), Busy(3)), Family())
  {
    hide Reaches, World, Sized;
    var k, a, b, d := Family(), On(Idle, 0), On(Idle, 1), On(Idle, 2);
    var w0 := World(BORN, BORN, BORN, BORN, FREE, FREE, FREE);
    var w1 := World(a, BORN, BORN, BORN, Busy(0), FREE, FREE);
    var w2 := World(a, BORN, b, BORN, Busy(0), Busy(2), FREE);
    var w3 := World(a, BORN, b, d, Busy(0), Busy(2), Busy(3));
    Worlds(BORN, BORN, BORN, BORN, FREE, FREE, FREE, a);
    Cpus(a, BORN, BORN, BORN, FREE, FREE, FREE, Busy(0));
    Starts(w0, k, 0, 0);
    Worlds(a, BORN, BORN, BORN, Busy(0), FREE, FREE, b);
    Cpus(a, BORN, b, BORN, Busy(0), FREE, FREE, Busy(2));
    Starts(w1, k, 1, 2);
    Then(w0, k, w1, k, w2, k);
    Worlds(a, BORN, b, BORN, Busy(0), Busy(2), FREE, d);
    Cpus(a, BORN, b, d, Busy(0), Busy(2), FREE, Busy(3));
    Starts(w2, k, 2, 3);
    Then(w0, k, w2, k, w3, k);
  }

  ghost function ChildGone(): Kin { Family().(copy := map[3 := 2], told := map[3 := 2]) }

  /** The youngest process exits, under the eyes of its parent. */
  lemma ChildDies()
    ensures Reaches(World(On(Idle, 0), BORN, On(Idle, 1), On(Idle, 2), Busy(0), Busy(2), Busy(3)), Family(),
                    World(On(Idle, 0), BORN, On(Idle, 1), GONE, Busy(0), Busy(2), FREE), ChildGone())
  {
    hide Reaches, World, Sized;
    var k, a, b := Family(), On(Idle, 0), On(Idle, 1);
    var k1 := k.(copy := map[3 := 2]);
    assert k.copy[3 := 2] == map[3 := 2] && k.told[3 := 2] == map[3 := 2];
    var both, held := Proc(RUNNING, NoChan, ExitBoth(2), 2, 2), b.(lock := 2);
    var w0 := World(a, BORN, b, On(Idle, 2), Busy(0), Busy(2), Busy(3));
    var w1 := World(a, BORN, b, On(ExitCopied, 2), Busy(0), Busy(2), Busy(3));
    var w2 := World(a, BORN, held, both, Busy(0), Busy(2), Busy(3));
    var w3 := World(a, BORN, b, GONE, Busy(0), Busy(2), FREE);
    Worlds(a, BORN, b, On(Idle, 2), Busy(0), Busy(2), Busy(3), On(ExitCopied, 2));
    Leaves(w0, k, 2, 3);
    Worlds(a, BORN, b, On(ExitCopied, 2), Busy(0), Busy(2), Busy(3), held);
    Worlds(a, BORN, held, On(ExitCopied, 2), Busy(0), Busy(2), Busy(3), both);
    Locks(w1, k1, 2, 3, 2);
    Then(w0, k, w1, k1, w2, k1);
    Worlds(a, BORN, held, both, Busy(0), Busy(2), Busy(3), b);
    Worlds(a, BORN, b, both, Busy(0), Busy(2), Busy(3), GONE);
    Cpus(a, BORN, b, GONE, Busy(0), Busy(2), Busy(3), FREE);
    Dies(w2, k1, 2, 3, 2);
    Then(w0, k, w2, k1, w3, ChildGone());
  }

  ghost function Leaving(): Kin { ChildGone().(copy := map[3 := 2, 2 := 1]) }

  /** Its parent begins to exit, and wakes init. */
  lemma ParentLeaves()
    ensures Reaches(World(On(Idle, 0), BORN, On(Idle, 1), GONE, Busy(0), Busy(2), FREE), ChildGone(),
                    World(On(Idle, 0), BORN, On(ExitCopied, 1), GONE, Busy(0), Busy(2), FREE), Leaving())
  {
    hide Reaches, World, Sized;
    assert ChildGone().copy[2 := 1] == map[3 := 2, 2 := 1];
    Worlds(On(Idle, 0), BORN, On(Idle, 1), GONE, Busy(0), Busy(2), FREE, On(ExitCopied, 1));
    Leaves(World(On(Idle, 0), BORN, On(Idle, 1), GONE, Busy(0), Busy(2), FREE), ChildGone(), 1, 2);
  }

  /** init finds nothing and sleeps. */
  lemma InitLooks()
    ensures Reaches(World(On(Idle, 0), BORN, On(ExitCopied, 1), GONE, Busy(0), Busy(2), FREE), Leaving(),
                    World(ASLEEP, BORN, On(ExitCopied, 1), GONE, FREE, Busy(2), FREE), Saw(Leaving(), {0, 1, 2, 3}))
  {
    hide Reaches, World, Sized;
    var k, b, scan := Leaving(), On(ExitCopied, 1), Proc(RUNNING, NoChan, WaitScan, 0, 0);
    var w0 := World(On(Idle, 0), BORN, b, GONE, Busy(0), Busy(2), FREE);
    var w1 := World(scan, BORN, b, GONE, Busy(0), Busy(2), FREE);
    var w2 := World(ASLEEP, BORN, b, GONE, FREE, Busy(2), FREE);
    Worlds(On(Idle, 0), BORN, b, GONE, Busy(0), Busy(2), FREE, scan);
    Scans(w0, k, 0);
    Worlds(scan, BORN, b, GONE, Busy(0), Busy(2), FREE, ASLEEP);
    Cpus(ASLEEP, BORN, b, GONE, Busy(0), Busy(2), FREE, FREE);
    Again(k, {0, 1, 2, 3}, {});
    FallsAsleep(w1, Saw(k, {0, 1, 2, 3}), 0);
    Then(w0, k, w1, Saw(k, {0, 1, 2, 3}), w2, Saw(k, {0, 1, 2, 3}));
  }

  ghost function Orphaned(): Kin {
    Saw(Leaving(), {0, 1, 2, 3}).(parent := map[1 := 0, 2 := 1, 3 := 0], told := map[3 := 2, 2 := 1])
  }

  /** The parent gives its exited child to init and wakes its own parent. */
  lemma ParentDies()
    ensures Reaches(World(ASLEEP, BORN, On(ExitCopied, 1), GONE, FREE, Busy(2), FREE), Saw(Leaving(), {0, 1, 2, 3}),
                    World(ASLEEP, BORN, GONE, GONE, FREE, FREE, FREE), Orphaned())
  {
    hide Reaches, World, Sized;
    var k, b := Saw(Leaving(), {0, 1, 2, 3}), On(ExitCopied, 1);
    var k1 := k.(parent := map[1 := 0, 2 := 1, 3 := 0]);
    assert k.parent[3 := 0] == k1.parent && k1.told[2 := 1] == Orphaned().told;
    var both, held := Proc(RUNNING, NoChan, ExitBoth(1), 1, 1), BORN.(lock := 1);
    var w0 := World(ASLEEP, BORN, b, GONE, FREE, Busy(2), FREE);
    var w1 := World(ASLEEP, held, both, GONE, FREE, Busy(2), FREE);
    var w2 := World(ASLEEP, BORN, GONE, GONE, FREE, FREE, FREE);
    Worlds(ASLEEP, BORN, b, GONE, FREE, Busy(2), FREE, held);
    Worlds(ASLEEP, held, b, GONE, FREE, Busy(2), FREE, both);
    Locks(w0, k, 1, 2, 1);
    Worlds(ASLEEP, held, both, GONE, FREE, Busy(2), FREE, BORN);
    GivesAway(w1, k, 1, 2, 1, 3);
    Then(w0, k, w1, k, w1, k1);
    Worlds(ASLEEP, BORN, both, GONE, FREE, Busy(2), FREE, GONE);
    Cpus(ASLEEP, BORN, GONE, GONE, FREE, Busy(2), FREE, FREE);
    Dies(w1, k1, 1, 2, 1);
    Then(w0, k, w1, k1, w2, Orphaned());
  }

  /** init misses an exit: every CPU is back in its scheduler, and init sleeps in wait with its
      lock free although one of its children is a zombie. */
  lemma InitMissesExit() returns (ss: seq<State>, ks: seq<Kin>, ms: seq<Move>)
    ensures IsFamilyRun(Never, INIT, ss, ks, ms)
    ensures var s, k := ss[|ms|], ks[|ms|];
            && |s.procs| == 4 && s.procs[INIT].state.SLEEPING? && s.procs[INIT].chan == Self && s.procs[INIT].lock == -1
            && s.procs[3].state.ZOMBIE? && 3 in k.parent && k.parent[3] == INIT
            && forall c :: 0 <= c < |s.cpus| ==> s.cpus[c].spc.Look?
  {
    hide Reaches, KinMove;
    var w0, w1 := World(BORN, BORN, BORN, BORN, FREE, FREE, FREE),
                  World(On(Idle, 0), BORN, On(Idle, 1), On(Idle, 2), Busy(0), Busy(2), Busy(3));
    var w2, w3 := World(On(Idle, 0), BORN, On(Idle, 1), GONE, Busy(0), Busy(2), FREE),
                  World(On(Idle, 0), BORN, On(ExitCopied, 1), GONE, Busy(0), Busy(2), FREE);
    var w4, w5 := World(ASLEEP, BORN, On(ExitCopied, 1), GONE, FREE, Busy(2), FREE),
                  World(ASLEEP, BORN, GONE, GONE, FREE, FREE, FREE);
    AllStart();
    ChildDies();
    Then(w0, Family(), w1, Family(), w2, ChildGone());
    ParentLeaves();
    Then(w0, Family(), w2, ChildGone(), w3, Leaving());
    InitLooks();
    Then(w0, Family(), w3, Leaving(), w4, Saw(Leaving(), {0, 1, 2, 3}));
    ParentDies();
    Then(w0, Family(), w4, Saw(Leaving(), {0, 1, 2, 3}), w5, Orphaned());
    ss, ks, ms := Unpack(w0, Family(), w5, Orphaned());
  }

  lemma Unpack(s: State, k: Kin, s': State, k': Kin) returns (ss: seq<State>, ks: seq<Kin>, ms: seq<Move>)
    requires Reaches(s, k, s', k')
    ensures Leads(s, k, ss, ks, ms, s', k')
  {
    ss, ks, ms :| Leads(s, k, ss, ks, ms, s', k');
  }
}
