/** wait and exit (kernel/proc.c) on top of the scheduler machine: who is whose parent,
  whom an exiting process wakes, and what a process in wait has looked at.
 */
module WaitExit {
  import opened Sched

  /** `parent` is p->parent; `copy` is exit's copy of it, original_parent; `told` is the
      parent whose lock an exiting process held, and which it woke, when it became ZOMBIE;
      `seen` are the processes that the current pass of wait's loop has passed over. */
  datatype Kin = Kin(parent: map<int, int>, copy: map<int, int>, told: map<int, int>, seen: map<int, set<int>>)

  ghost function Seen(k: Kin, p: int): set<int> {
    if p in k.seen then k.seen[p] else {}
  }

  /** A step of the machine, or wait passes over a process that is not a child. */
  datatype Move = Act(a: Action) | Pass(c: int, j: int)

  predicate RunsAt(s: State, c: int) {
    0 <= c < |s.cpus| && s.cpus[c].spc.Run? && IsProc(s, s.cpus[c].spc.p)
  }

  /** What a step of process p means for its relatives. */
  ghost predicate KinStep(init: int, s: State, k: Kin, p: int, e: Event, k': Kin)
    requires IsProc(s, p)
  {
    var pc := s.procs[p].pc;
    match e
    case ForkUnlock =>
      pc.ForkHeld? && k' == k.(parent := k.parent[pc.i := p], copy := k.copy - {pc.i}, told := k.told - {pc.i})
    case InitLock(i) => i == init && k' == k
    case CopyLock => p in k.parent && k' == k.(copy := k.copy[p := k.parent[p]])
    case ExitLock(i) => p in k.copy && k.copy[p] == i && k' == k
    case ReparentLock(j) => p != init && j in k.parent && k.parent[j] == p && k' == k.(parent := k.parent[j := init])
    case BecomeZombie =>
      pc.ExitBoth? && (forall j :: j in k.parent ==> k.parent[j] != p) && k' == k.(told := k.told[p := pc.i])
    case WaitLock => k' == k.(seen := k.seen[p := {}])
    case WaitTidy => k' == k.(seen := k.seen[p := {}])
    case WaitProbe(i) => i in k.parent && k.parent[i] == p && k' == k
    case WaitSkip => pc.WaitHeld? && k' == k.(seen := k.seen[p := Seen(k, p) + {pc.i}])
    case WaitReap => pc.WaitHeld? && k' == k.(parent := k.parent - {pc.i}, told := k.told - {pc.i})
    case WaitSleep => (forall j :: IsProc(s, j) ==> j in Seen(k, p)) && k' == k
    case _ => k' == k
  }

  ghost predicate KinMove(ready: (int, int) -> bool, init: int, s: State, k: Kin, m: Move, s': State, k': Kin) {
    match m
    case Act(a) =>
      && Step(ready, s, a.c, a.e, s')
      && if RunsAt(s, a.c) then KinStep(init, s, k, s.cpus[a.c].spc.p, a.e, k') else k' == k
    case Pass(c, j) =>
      && RunsAt(s, c) && s.procs[s.cpus[c].spc.p].pc.WaitScan? && s' == s
      && var p := s.cpus[c].spc.p;
         && !(j in k.parent && k.parent[j] == p)
         && k' == k.(seen := k.seen[p := Seen(k, p) + {j}])
  }

  ghost predicate IsFamilyRun(ready: (int, int) -> bool, init: int, ss: seq<State>, ks: seq<Kin>, ms: seq<Move>) {
    && |ss| == |ms| + 1 && |ks| == |ms| + 1 && Init(ss[0]) && ks[0].copy == map[]
    && forall i :: 0 <= i < |ms| ==> KinMove(ready, init, ss[i], ks[i], ms[i], ss[i + 1], ks[i + 1])
  }

  // ---------------------------------------------------------------- invariant

  /** j is an exited child of p that woke p. */
  ghost predicate Due(s: State, k: Kin, p: int, j: int)
    requires IsProc(s, j)
  {
    s.procs[j].state.ZOMBIE? && j in k.parent && k.parent[j] == p && j in k.told && k.told[j] == p
  }

  predicate InWait(pc: PC) {
    pc.WaitScan? || pc.WaitHeld? || pc.WaitSched? || pc.WaitRet?
  }

  /** p is in wait, and its decision to sleep covers j. */
  ghost predicate Watches(s: State, k: Kin, p: int, j: int)
    requires IsProc(s, p)
  {
    var pr := s.procs[p];
    || ((pr.pc.WaitScan? || pr.pc.WaitHeld?) && j in Seen(k, p))
    || pr.pc.WaitSched?
    || (pr.pc.WaitRet? && pr.state.SLEEPING?)
  }

  ghost predicate FamilyOk(s: State, k: Kin) {
    forall p, j :: IsProc(s, p) && IsProc(s, j) && Watches(s, k, p, j) ==> !Due(s, k, p, j)
  }

  /** exit has decided whom it will wake. */
  predicate Aims(pc: PC) { pc.ExitParent? || pc.ExitBoth? || pc.ExitChild? }

  /** A process loses its parent only to init: exit locks and wakes the parent, unless
      that has given the process away in the meantime. */
  ghost predicate HeirOk(init: int, s: State, k: Kin) {
    && (forall j :: j in k.copy && j in k.parent ==> k.parent[j] == k.copy[j] || k.parent[j] == init)
    && (forall j :: IsProc(s, j) && Aims(s.procs[j].pc) && j in k.parent ==>
                      k.parent[j] == s.procs[j].pc.i || k.parent[j] == init)
    && (forall j :: IsProc(s, j) && s.procs[j].state.ZOMBIE? && j in k.parent ==>
                      j in k.told && (k.parent[j] == init || k.told[j] == k.parent[j]))
  }

  /** Nobody decides whom to wake or has exited by this step. */
  predicate MildAt(pr: Proc, pr': Proc) {
    (Aims(pr'.pc) ==> Aims(pr.pc) && pr'.pc.i == pr.pc.i) && (pr'.state.ZOMBIE? ==> pr.state.ZOMBIE?)
  }

  ghost predicate Mild(s: State, s': State) {
    |s'.procs| == |s.procs| && forall q :: IsProc(s, q) ==> MildAt(s.procs[q], s'.procs[q])
  }

  /** And nothing happens to anybody in wait. */
  predicate CalmAt(pr: Proc, pr': Proc) {
    && (InWait(pr'.pc) ==> pr'.pc == pr.pc && (pr'.state.SLEEPING? ==> pr.state.SLEEPING?))
    && (pr'.state.ZOMBIE? ==> pr.state.ZOMBIE?)
  }

  ghost predicate Calm(s: State, s': State) {
    |s'.procs| == |s.procs| && forall q :: IsProc(s, q) ==> CalmAt(s.procs[q], s'.procs[q])
  }

  lemma CalmKeeps(s: State, k: Kin, s': State, k': Kin)
    requires FamilyOk(s, k) && Calm(s, s') && k'.seen == k.seen
    requires forall j :: j in k'.told ==>
                           j in k.told && k'.told[j] == k.told[j]
                               && (j in k'.parent ==> j in k.parent && k'.parent[j] == k.parent[j])
    ensures FamilyOk(s', k')
  {
    forall p, j | IsProc(s', p) && IsProc(s', j) && Watches(s', k', p, j)
      ensures !Due(s', k', p, j)
    {
      assert CalmAt(s.procs[p], s'.procs[p]) && CalmAt(s.procs[j], s'.procs[j]);
      assert Watches(s, k, p, j) && !Due(s, k, p, j);
    }
  }

  // ---------------------------------------------------------------- every step keeps it

  lemma OwnCalmAt(ready: (int, int) -> bool, s: State, c: int, p: int, e: Event, s': State, q: int)
    requires 0 <= c < |s.cpus| && IsProc(s, p) && IsProc(s, q)
             && (OwnStep(s, c, p, e, s') || CondStep(ready, s, c, p, e, s'))
    ensures |s'.procs| == |s.procs| && CalmAt(s.procs[q], s'.procs[q]) && MildAt(s.procs[q], s'.procs[q])
  {
  }

  lemma SleepCalmAt(ready: (int, int) -> bool, s: State, c: int, p: int, e: Event, s': State, q: int)
    requires 0 <= c < |s.cpus| && IsProc(s, p) && IsProc(s, q) && (SleepStep(ready, s, c, p, e, s'))
    ensures |s'.procs| == |s.procs| && CalmAt(s.procs[q], s'.procs[q]) && MildAt(s.procs[q], s'.procs[q])
  {
  }

  lemma WakeCalmAt(s: State, c: int, p: int, e: Event, s': State, q: int)
    requires 0 <= c < |s.cpus| && IsProc(s, p) && IsProc(s, q) && WakeStep(s, c, p, e, s')
    ensures |s'.procs| == |s.procs| && CalmAt(s.procs[q], s'.procs[q]) && MildAt(s.procs[q], s'.procs[q])
  {
  }

  lemma KillCalmAt(s: State, c: int, p: int, e: Event, s': State, q: int)
    requires 0 <= c < |s.cpus| && IsProc(s, p) && IsProc(s, q) && KillStep(s, c, p, e, s')
    ensures |s'.procs| == |s.procs| && CalmAt(s.procs[q], s'.procs[q]) && MildAt(s.procs[q], s'.procs[q])
  {
  }

  lemma ThreadCalm(ready: (int, int) -> bool, s: State, c: int, p: int, e: Event, s': State)
    requires 0 <= c < |s.cpus| && IsProc(s, p)
    requires || OwnStep(s, c, p, e, s') || CondStep(ready, s, c, p, e, s') || SleepStep(ready, s, c, p, e, s')
             || WakeStep(s, c, p, e, s') || KillStep(s, c, p, e, s')
    ensures Calm(s, s') && Mild(s, s')
  {
    hide OwnStep, CondStep, SleepStep, WakeStep, KillStep, CalmAt, MildAt;
    forall q | IsProc(s, q)
      ensures |s'.procs| == |s.procs| && CalmAt(s.procs[q], s'.procs[q]) && MildAt(s.procs[q], s'.procs[q])
    {
      if WakeStep(s, c, p, e, s') {
        WakeCalmAt(s, c, p, e, s', q);
      } else if KillStep(s, c, p, e, s') {
        KillCalmAt(s, c, p, e, s', q);
      } else if SleepStep(ready, s, c, p, e, s') {
        SleepCalmAt(ready, s, c, p, e, s', q);
      } else {
        OwnCalmAt(ready, s, c, p, e, s', q);
      }
    }
    assert |s'.procs| == |s.procs| && CalmAt(s.procs[p], s'.procs[p]);
  }

  lemma ForkCalm(s: State, c: int, p: int, e: Event, s': State)
    requires 0 <= c < |s.cpus| && IsProc(s, p) && ForkStep(s, c, p, e, s')
    ensures Calm(s, s') && Mild(s, s')
  {
  }

  lemma LeaveCalmAt(s: State, c: int, p: int, e: Event, s': State, q: int)
    requires 0 <= c < |s.cpus| && IsProc(s, p) && IsProc(s, q) && LeaveStep(s, c, p, e, s')
    ensures |s'.procs| == |s.procs| && CalmAt(s.procs[q], s'.procs[q]) && MildAt(s.procs[q], s'.procs[q])
  {
  }

  lemma LeaveCalm(s: State, c: int, p: int, e: Event, s': State)
    requires 0 <= c < |s.cpus| && IsProc(s, p) && LeaveStep(s, c, p, e, s')
    ensures Calm(s, s') && Mild(s, s')
  {
    hide LeaveStep, CalmAt, MildAt;
    forall q | IsProc(s, q)
      ensures |s'.procs| == |s.procs| && CalmAt(s.procs[q], s'.procs[q]) && MildAt(s.procs[q], s'.procs[q])
    {
      LeaveCalmAt(s, c, p, e, s', q);
    }
    assert |s'.procs| == |s.procs| && CalmAt(s.procs[p], s'.procs[p]);
  }

  lemma ExitCalm(s: State, c: int, p: int, e: Event, s': State)
    requires 0 <= c < |s.cpus| && IsProc(s, p) && ExitStep(s, c, p, e, s') && !e.BecomeZombie?
    ensures Calm(s, s') && (!e.ExitLock? ==> Mild(s, s'))
  {
  }

  lemma WaitMild(s: State, c: int, p: int, e: Event, s': State)
    requires 0 <= c < |s.cpus| && IsProc(s, p)
    requires SwtchStep(s, c, p, e, s') || WaitStep(s, c, p, e, s') || ReapStep(s, c, p, e, s')
    ensures Mild(s, s') && Plain(e) && !e.CopyLock? && !e.ForkUnlock?
  {
  }

  /** The event has nothing to do with exit. */
  predicate Plain(e: Event) { !e.ExitLock? && !e.BecomeZombie? && !e.ReparentLock? }

  lemma SchedCalm(s: State, c: int, e: Event, s': State)
    requires 0 <= c < |s.cpus| && SchedStep(s, c, e, s')
    ensures Calm(s, s') && Mild(s, s')
  {
  }

  /** Going off the CPU changes nothing: p slept, or it was not in wait. */
  lemma SwtchFamily(s: State, k: Kin, c: int, p: int, s': State)
    requires FamilyOk(s, k) && 0 <= c < |s.cpus| && IsProc(s, p) && SwtchStep(s, c, p, Swtch, s')
    ensures FamilyOk(s', k)
  {
    forall q, j | IsProc(s', q) && IsProc(s', j) && Watches(s', k, q, j)
      ensures !Due(s', k, q, j)
    {
      assert Watches(s, k, q, j) && !Due(s, k, q, j);
    }
  }

  /** The heart of it: p becomes ZOMBIE under the lock of the parent it wakes, so that
      parent is not in the middle of wait, and is not asleep there afterwards. */
  lemma ExitFamily(init: int, s: State, k: Kin, c: int, p: int, s': State, k': Kin)
    requires FamilyOk(s, k) && Runs(s, c, p) && ExitStep(s, c, p, BecomeZombie, s')
             && KinStep(init, s, k, p, BecomeZombie, k')
    ensures FamilyOk(s', k')
  {
    hide Placed, LocksOk;
    forall q, j | IsProc(s', q) && IsProc(s', j) && Watches(s', k', q, j)
      ensures !Due(s', k', q, j)
    {
      if j != p {
        assert Watches(s, k, q, j) && !Due(s, k, q, j);
      } else if q == s.procs[p].pc.i {
        Held(s, c, p, q);
        WaiterHolds(s, q);
      }
    }
  }

  /** A process in wait holds its own lock, or it has gone off its CPU sleeping on itself. */
  lemma WaiterHolds(s: State, q: int)
    requires Placed(s) && LocksOk(s) && IsProc(s, q) && InWait(s.procs[q].pc)
    ensures if s.procs[q].pc.WaitRet? then s.procs[q].state.SLEEPING? ==> s.procs[q].chan == Self
            else 0 <= s.procs[q].lock < |s.cpus| && s.cpus[s.procs[q].lock].spc == Run(q)
  {
    assert ProcOk(s, q);
    if !s.procs[q].pc.WaitRet? {
      var d := s.procs[q].on;
      assert Claims(s, d, q) <==> s.procs[q].lock == d;
    }
  }

  /** wait itself: it only goes to sleep having passed over everybody. */
  lemma WaitFamilyAt(init: int, s: State, k: Kin, c: int, p: int, e: Event, s': State, k': Kin, q: int, j: int)
    requires FamilyOk(s, k) && 0 <= c < |s.cpus| && IsProc(s, p)
    requires (WaitStep(s, c, p, e, s') || ReapStep(s, c, p, e, s')) && KinStep(init, s, k, p, e, k')
    requires IsProc(s', q) && IsProc(s', j)
    ensures Watches(s', k', q, j) ==> !Due(s', k', q, j)
  {
    assert IsProc(s, q) && IsProc(s, j);
    assert Watches(s, k, q, j) ==> !Due(s, k, q, j);
  }

  lemma WaitFamily(init: int, s: State, k: Kin, c: int, p: int, e: Event, s': State, k': Kin)
    requires FamilyOk(s, k) && 0 <= c < |s.cpus| && IsProc(s, p)
    requires (WaitStep(s, c, p, e, s') || ReapStep(s, c, p, e, s')) && KinStep(init, s, k, p, e, k')
    ensures FamilyOk(s', k')
  {
    hide WaitStep, ReapStep, KinStep, Watches, Due;
    forall q, j | IsProc(s', q) && IsProc(s', j)
      ensures Watches(s', k', q, j) ==> !Due(s', k', q, j)
    {
      WaitFamilyAt(init, s, k, c, p, e, s', k', q, j);
    }
  }

  /** A child that init is given has woken the process that gives it away, or nobody yet. */
  lemma ReparentFamily(init: int, s: State, k: Kin, p: int, j: int, s': State, k': Kin)
    requires FamilyOk(s, k) && HeirOk(init, s, k) && Calm(s, s') && Mild(s, s') && p != init
    requires j in k.parent && k.parent[j] == p && k' == k.(parent := k.parent[j := init])
    ensures FamilyOk(s', k') && HeirOk(init, s', k')
  {
    forall q, x | IsProc(s', q) && IsProc(s', x) && Watches(s', k', q, x)
      ensures !Due(s', k', q, x)
    {
      assert CalmAt(s.procs[q], s'.procs[q]) && CalmAt(s.procs[x], s'.procs[x]);
      assert Watches(s, k, q, x) && !Due(s, k, q, x);
    }
    forall x | IsProc(s', x)
      ensures MildAt(s.procs[x], s'.procs[x])
    {
    }
  }

  lemma ExitThread(init: int, s: State, k: Kin, c: int, p: int, e: Event, s': State, k': Kin)
    requires FamilyOk(s, k) && HeirOk(init, s, k) && Runs(s, c, p) && ExitStep(s, c, p, e, s')
             && KinStep(init, s, k, p, e, k')
    ensures FamilyOk(s', k') && HeirOk(init, s', k')
  {
    hide FamilyOk, HeirOk, Placed, LocksOk, Calm, Mild;
    if e.BecomeZombie? {
      ExitFamily(init, s, k, c, p, s', k');
      ExitHeirs(init, s, k, c, p, e, s', k');
    } else {
      ExitCalm(s, c, p, e, s');
      if e.ReparentLock? {
        ReparentFamily(init, s, k, p, e.j, s', k');
      } else {
        CalmKeeps(s, k, s', k');
        if e.ExitLock? {
          ExitHeirs(init, s, k, c, p, e, s', k');
        } else {
          MildHeirs(init, s, k, p, e, s', k');
        }
      }
    }
  }

  lemma ThreadFamily(ready: (int, int) -> bool, init: int, s: State, k: Kin, c: int, p: int, e: Event, s': State,
                     k': Kin)
    requires FamilyOk(s, k) && HeirOk(init, s, k) && Runs(s, c, p) && ThreadStep(ready, s, c, p, e, s')
             && KinStep(init, s, k, p, e, k')
    ensures FamilyOk(s', k') && HeirOk(init, s', k')
  {
    hide FamilyOk, HeirOk, Placed, LocksOk, Calm, Mild,
         OwnStep, CondStep, SleepStep, WakeStep, KillStep, ForkStep, LeaveStep, ExitStep, WaitStep, ReapStep, SwtchStep;
    if SwtchStep(s, c, p, e, s') || WaitStep(s, c, p, e, s') || ReapStep(s, c, p, e, s') {
      WaitMild(s, c, p, e, s');
      MildHeirs(init, s, k, p, e, s', k');
      if SwtchStep(s, c, p, e, s') {
        SwtchOnly(s, c, p, e, s');
        SwtchFamily(s, k, c, p, s');
      } else {
        WaitFamily(init, s, k, c, p, e, s', k');
      }
    } else if ExitStep(s, c, p, e, s') {
      ExitThread(init, s, k, c, p, e, s', k');
    } else {
      if ForkStep(s, c, p, e, s') || LeaveStep(s, c, p, e, s') {
        if ForkStep(s, c, p, e, s') {
          ForkCalm(s, c, p, e, s');
        } else {
          LeaveCalm(s, c, p, e, s');
        }
        KinEvents(s, c, p, e, s');
      } else {
        ThreadCalm(ready, s, c, p, e, s');
        OtherEvents(ready, s, c, p, e, s');
      }
      CalmKeeps(s, k, s', k');
      MildHeirs(init, s, k, p, e, s', k');
    }
  }

  lemma MildHeirs(init: int, s: State, k: Kin, p: int, e: Event, s': State, k': Kin)
    requires HeirOk(init, s, k) && Mild(s, s') && IsProc(s, p) && KinStep(init, s, k, p, e, k') && Plain(e)
    requires e.ForkUnlock? && s.procs[p].pc.ForkHeld? ==>
             IsProc(s', s.procs[p].pc.i) && s'.procs[s.procs[p].pc.i].pc.Fresh?
                 && s'.procs[s.procs[p].pc.i].state.RUNNABLE?
    ensures HeirOk(init, s', k')
  {
    forall j | IsProc(s', j) && j in k'.parent && (!e.ForkUnlock? || j != s.procs[p].pc.i)
      ensures Aims(s'.procs[j].pc) ==> k'.parent[j] == s'.procs[j].pc.i || k'.parent[j] == init
      ensures s'.procs[j].state.ZOMBIE? ==> j in k'.told && (k'.parent[j] == init || k'.told[j] == k'.parent[j])
    {
      assert MildAt(s.procs[j], s'.procs[j]);
    }
  }

  lemma ExitHeirs(init: int, s: State, k: Kin, c: int, p: int, e: Event, s': State, k': Kin)
    requires HeirOk(init, s, k) && 0 <= c < |s.cpus| && IsProc(s, p) && ExitStep(s, c, p, e, s')
             && KinStep(init, s, k, p, e, k')
    requires e.ExitLock? || e.BecomeZombie?
    ensures HeirOk(init, s', k')
  {
  }

  lemma SwtchOnly(s: State, c: int, p: int, e: Event, s': State)
    requires 0 <= c < |s.cpus| && IsProc(s, p) && SwtchStep(s, c, p, e, s')
    ensures e.Swtch?
  {
  }

  lemma KinEvents(s: State, c: int, p: int, e: Event, s': State)
    requires 0 <= c < |s.cpus| && IsProc(s, p) && (ForkStep(s, c, p, e, s') || LeaveStep(s, c, p, e, s'))
    ensures e.ForkLock? || e.ForkUnlock? || e.InitLock? || e.InitUnlock? || e.CopyLock? || e.CopyUnlock?
    ensures e.ForkUnlock? && s.procs[p].pc.ForkHeld? ==>
              var i := s.procs[p].pc.i; IsProc(s', i) && s'.procs[i].pc.Fresh? && s'.procs[i].state.RUNNABLE?
  {
  }

  lemma OtherEvents(ready: (int, int) -> bool, s: State, c: int, p: int, e: Event, s': State)
    requires 0 <= c < |s.cpus| && IsProc(s, p)
    requires || OwnStep(s, c, p, e, s') || CondStep(ready, s, c, p, e, s') || SleepStep(ready, s, c, p, e, s')
             || WakeStep(s, c, p, e, s') || KillStep(s, c, p, e, s')
    ensures Plain(e) && !e.ForkUnlock? && !e.CopyLock? && !e.InitLock?
    ensures !e.WaitLock? && !e.WaitTidy? && !e.WaitProbe? && !e.WaitSkip? && !e.WaitReap? && !e.WaitSleep?
  {
  }

  lemma MoveFamily(ready: (int, int) -> bool, init: int, s: State, k: Kin, m: Move, s': State, k': Kin)
    requires Inv(ready, s) && FamilyOk(s, k) && HeirOk(init, s, k) && KinMove(ready, init, s, k, m, s', k')
    ensures FamilyOk(s', k') && HeirOk(init, s', k')
  {
    hide Placed, LocksOk, LkOk, WakeOk, FamilyOk, ThreadStep, SchedStep, Calm, KinStep;
    match m
    case Act(a) =>
      if s.cpus[a.c].spc.Run? {
        ThreadFamily(ready, init, s, k, a.c, s.cpus[a.c].spc.p, a.e, s', k');
      } else {
        SchedCalm(s, a.c, a.e, s');
        CalmKeeps(s, k, s', k');
        SchedHeirs(init, s, k, s');
      }
    case Pass(c, j) =>
      PassFamily(s, k, s.cpus[c].spc.p, j, k');
  }

  lemma SchedHeirs(init: int, s: State, k: Kin, s': State)
    requires HeirOk(init, s, k) && Mild(s, s')
    ensures HeirOk(init, s', k)
  {
    forall j | IsProc(s', j)
      ensures MildAt(s.procs[j], s'.procs[j])
    {
    }
  }

  lemma PassFamily(s: State, k: Kin, p: int, j: int, k': Kin)
    requires FamilyOk(s, k) && IsProc(s, p) && !(j in k.parent && k.parent[j] == p)
    requires k' == k.(seen := k.seen[p := Seen(k, p) + {j}])
    ensures FamilyOk(s, k')
  {
    forall q, x | IsProc(s, q) && IsProc(s, x) && Watches(s, k', q, x)
      ensures !Due(s, k', q, x)
    {
      assert Watches(s, k, q, x) ==> !Due(s, k, q, x);
    }
  }

  lemma {:induction false} FamilyRun(ready: (int, int) -> bool, init: int, ss: seq<State>, ks: seq<Kin>, ms: seq<Move>,
                                     n: nat)
    requires IsFamilyRun(ready, init, ss, ks, ms) && n <= |ms|
    ensures Inv(ready, ss[n]) && FamilyOk(ss[n], ks[n]) && HeirOk(init, ss[n], ks[n])
  {
    hide Inv, Step, KinStep;
    if n == 0 {
      InitInv(ready, ss[0]);
    } else {
      FamilyRun(ready, init, ss, ks, ms, n - 1);
      assert KinMove(ready, init, ss[n - 1], ks[n - 1], ms[n - 1], ss[n], ks[n]);
      MoveFamily(ready, init, ss[n - 1], ks[n - 1], ms[n - 1], ss[n], ks[n]);
      if ms[n - 1].Act? {
        StepKeeps(ready, ss[n - 1], ms[n - 1].a.c, ms[n - 1].a.e, ss[n]);
      }
    }
  }

  /** No exit is missed: in every reachable state, a process that sleeps in wait and whose
      lock is free has no exited child; init has none but those that woke somebody else,
      from whom it has them by reparent. */
  lemma NoMissedExit(ready: (int, int) -> bool, init: int, ss: seq<State>, ks: seq<Kin>, ms: seq<Move>, n: nat, p: int,
                     j: int)
    requires IsFamilyRun(ready, init, ss, ks, ms) && n <= |ms| && IsProc(ss[n], p) && IsProc(ss[n], j)
    requires ss[n].procs[p].state.SLEEPING? && ss[n].procs[p].chan == Self && ss[n].procs[p].lock == -1
    requires ss[n].procs[j].state.ZOMBIE? && j in ks[n].parent && ks[n].parent[j] == p
    ensures p == init && j in ks[n].told && ks[n].told[j] != init
  {
    hide Step, LkOk, WakeOk;
    FamilyRun(ready, init, ss, ks, ms, n);
    assert ProcOk(ss[n], p);
    assert Watches(ss[n], ks[n], p, j);
  }
}
