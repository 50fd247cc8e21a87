/** Sleep-locks (kernel/sleeplock.c) as an instance of the sleep/wakeup machine.

  The condition variable is the lock word: 0 when unlocked, otherwise one more
  than the index of the process whose pid the lock records. A process waits in
  acquiresleep until it is 0.
 */
module SleepLock {
  import opened Sched

  predicate Unlocked(p: int, sigma: int) { sigma == 0 }

  /** `inside` are the processes between acquiresleep and releasesleep, `saw` those whose
      while-test in acquiresleep has found the lock unlocked and that have not stored to
      the lock word, or let go of lk->lk, since. */
  datatype Users = Users(inside: set<int>, saw: set<int>)

  /** A step of the machine, or the while-test of acquiresleep, which reads the lock word. */
  datatype Move = Act(a: Action) | Test(c: int)

  /** The code of acquiresleep and releasesleep. The store of acquiresleep follows the test
      and reads nothing; releasesleep is called by a process inside the lock. */
  ghost predicate SleepLockStep(s: State, g: Users, m: Move, s': State, g': Users) {
    match m
    case Test(c) =>
      && 0 <= c < |s.cpus| && s.cpus[c].spc.Run? && IsProc(s, s.cpus[c].spc.p) && s.procs[s.cpus[c].spc.p].pc.Crit?
      && s' == s && g' == if s.sigma == 0 then g.(saw := g.saw + {s.cpus[c].spc.p}) else g
    case Act(a) =>
      && Step(Unlocked, s, a.c, a.e, s')
      && if a.e.Change? then
           var p := s.cpus[a.c].spc.p;
           || (p in g.saw && a.e.v == p + 1 && g' == Users(g.inside + {p}, g.saw - {p}))
           || (p in g.inside && a.e.v == 0 && g' == g.(inside := g.inside - {p}))
         else if a.e.LkRelease? || a.e.SleepDrop? then
           g' == g.(saw := g.saw - {s.cpus[a.c].spc.p})
         else g' == g
  }

  ghost predicate IsSleepLockRun(ss: seq<State>, us: seq<Users>, ms: seq<Move>) {
    && |ss| == |ms| + 1 && |us| == |ms| + 1 && Init(ss[0]) && ss[0].sigma == 0 && us[0] == Users({}, {})
    && forall i :: 0 <= i < |ms| ==> SleepLockStep(ss[i], us[i], ms[i], ss[i + 1], us[i + 1])
  }

  /** The lock word names the process inside; what a test has seen still holds, because the
      process that made it still holds lk->lk. */
  ghost predicate WordOk(s: State, g: Users) {
    && s.sigma >= 0 && g.inside == (if s.sigma == 0 then {} else {s.sigma - 1})
    && forall p :: p in g.saw ==> s.sigma == 0 && 0 <= s.lk < |s.cpus| && s.cpus[s.lk].spc == Run(p)
  }

  /** Whoever touches the variable or lets go of lk holds lk. */
  lemma LkGuards(s: State, c: int, e: Event, s': State)
    requires Placed(s) && LkOk(s) && Step(Unlocked, s, c, e, s')
    ensures s'.sigma == if e.Change? then e.v else s.sigma
    ensures e.Change? || e.LkRelease? || e.SleepDrop? ==> s.lk == c && s.cpus[c].spc.Run? && s.cpus[c].spc.p >= 0
    ensures s.lk != -1 && !e.LkRelease? && !e.SleepDrop? ==>
            s'.lk == s.lk && |s'.cpus| == |s.cpus| && s'.cpus[s.lk].spc == s.cpus[s.lk].spc
  {
    hide Placed, ThreadStep;
    assert ClaimsLk(s, c) <==> s.lk == c;
    if s.cpus[c].spc.Run? {
      ThreadGuards(s, c, s.cpus[c].spc.p, e, s');
    }
  }

  lemma WakeGuards(s: State, c: int, p: int, e: Event, s': State)
    requires 0 <= c < |s.cpus| && IsProc(s, p)
    requires OwnStep(s, c, p, e, s') || WakeStep(s, c, p, e, s') || KillStep(s, c, p, e, s')
    ensures s'.sigma == s.sigma && s'.lk == s.lk && s'.cpus == s.cpus
    ensures !e.Change? && !e.LkRelease? && !e.SleepDrop? && !e.Swtch?
  {
  }

  lemma ExitGuards(s: State, c: int, p: int, e: Event, s': State)
    requires 0 <= c < |s.cpus| && IsProc(s, p)
    requires ForkStep(s, c, p, e, s') || LeaveStep(s, c, p, e, s') || ExitStep(s, c, p, e, s')
    ensures s'.sigma == s.sigma && s'.lk == s.lk && s'.cpus == s.cpus
    ensures !e.Change? && !e.LkRelease? && !e.SleepDrop? && !e.Swtch?
  {
  }

  lemma WaitGuards(s: State, c: int, p: int, e: Event, s': State)
    requires 0 <= c < |s.cpus| && IsProc(s, p)
    requires WaitStep(s, c, p, e, s') || ReapStep(s, c, p, e, s')
    ensures s'.sigma == s.sigma && s'.lk == s.lk && s'.cpus == s.cpus
    ensures !e.Change? && !e.LkRelease? && !e.SleepDrop? && !e.Swtch?
  {
  }

  lemma CondGuards(s: State, c: int, p: int, e: Event, s': State)
    requires 0 <= c < |s.cpus| && IsProc(s, p)
             && (CondStep(Unlocked, s, c, p, e, s') || SleepStep(Unlocked, s, c, p, e, s'))
    ensures s'.sigma == (if e.Change? then e.v else s.sigma) && s'.cpus == s.cpus && !e.Swtch?
    ensures e.Change? || e.LkRelease? || e.SleepDrop? ==> HoldsLk(s.procs[p].pc)
    ensures !e.LkRelease? && !e.SleepDrop? && s.lk != -1 ==> s'.lk == s.lk
  {
  }

  lemma ThreadGuards(s: State, c: int, p: int, e: Event, s': State)
    requires 0 <= c < |s.cpus| && IsProc(s, p) && ThreadStep(Unlocked, s, c, p, e, s')
    ensures s'.sigma == if e.Change? then e.v else s.sigma
    ensures e.Change? || e.LkRelease? || e.SleepDrop? ==> HoldsLk(s.procs[p].pc)
    ensures !e.LkRelease? && !e.SleepDrop? && s.lk != -1 ==> s'.lk == s.lk
    ensures if e.Swtch? then !HoldsLk(s.procs[p].pc) && s'.cpus == s.cpus[c := s.cpus[c].(spc := Back(p))]
            else s'.cpus == s.cpus
  {
    hide OwnStep, CondStep, SleepStep, WakeStep, KillStep, ForkStep, LeaveStep, ExitStep, WaitStep, ReapStep;
    if CondStep(Unlocked, s, c, p, e, s') || SleepStep(Unlocked, s, c, p, e, s') {
      CondGuards(s, c, p, e, s');
    } else if OwnStep(s, c, p, e, s') || WakeStep(s, c, p, e, s') || KillStep(s, c, p, e, s') {
      WakeGuards(s, c, p, e, s');
    } else if ForkStep(s, c, p, e, s') || LeaveStep(s, c, p, e, s') || ExitStep(s, c, p, e, s') {
      ExitGuards(s, c, p, e, s');
    } else if !SwtchStep(s, c, p, e, s') {
      WaitGuards(s, c, p, e, s');
    }
  }

  /** Every step keeps this, by the exclusivity of lk->lk. */
  lemma WordKeeps(s: State, g: Users, m: Move, s': State, g': Users)
    requires Placed(s) && LkOk(s) && WordOk(s, g) && SleepLockStep(s, g, m, s', g')
    ensures WordOk(s', g')
  {
    hide Placed, Step;
    match m
    case Test(c) =>
      assert ClaimsLk(s, c) <==> s.lk == c;
    case Act(a) =>
      LkGuards(s, a.c, a.e, s');
  }

  lemma {:induction false} LockWord(ss: seq<State>, us: seq<Users>, ms: seq<Move>, n: nat)
    requires IsSleepLockRun(ss, us, ms) && n <= |ms|
    ensures Inv(Unlocked, ss[n]) && WordOk(ss[n], us[n])
  {
    hide Placed, LocksOk, LkOk, WakeOk, Step;
    if n == 0 {
      InitInv(Unlocked, ss[0]);
    } else {
      LockWord(ss, us, ms, n - 1);
      assert SleepLockStep(ss[n - 1], us[n - 1], ms[n - 1], ss[n], us[n]);
      WordKeeps(ss[n - 1], us[n - 1], ms[n - 1], ss[n], us[n]);
      if ms[n - 1].Act? {
        StepKeeps(Unlocked, ss[n - 1], ms[n - 1].a.c, ms[n - 1].a.e, ss[n]);
      }
    }
  }

  /** Mutual exclusion, and nobody sleeps on an unlocked sleep-lock: in every reachable
      state at most one process is inside, the lock word names it, and while lk->lk is
      free every process sleeping on the lock waits for a lock that is taken. */
  lemma MutualExclusion(ss: seq<State>, us: seq<Users>, ms: seq<Move>, n: nat)
    requires IsSleepLockRun(ss, us, ms) && n <= |ms|
    ensures |us[n].inside| <= 1 && forall p :: p in us[n].inside <==> ss[n].sigma == p + 1 && p >= 0
    ensures forall p :: 0 <= p < |ss[n].procs| && ss[n].lk == -1 && ss[n].procs[p].state.SLEEPING?
                        && ss[n].procs[p].chan == Cond ==>
                          ss[n].sigma != 0
  {
    hide Inv, Step;
    LockWord(ss, us, ms, n);
    forall p | 0 <= p < |ss[n].procs|
      ensures ss[n].lk == -1 && ss[n].procs[p].state.SLEEPING? && ss[n].procs[p].chan == Cond ==> ss[n].sigma != 0
    {
      Settled(Unlocked, ss[n], p);
    }
  }
}
