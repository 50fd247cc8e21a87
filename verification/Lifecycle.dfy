/** The life of a process (kernel/proc.c): which step of which CPU may change p->state, and
  that only a CPU that holds p->lock does.
 */
module Lifecycle {
  import opened Sched

  /** The thread on CPU c is at this place. */
  predicate At(s: State, c: int, pc: PC)
    requires 0 <= c < |s.cpus|
  {
    s.cpus[c].spc.Run? && IsProc(s, s.cpus[c].spc.p) && s.procs[s.cpus[c].spc.p].pc == pc
  }

  /** Event e on CPU c may turn the state of process p into b. A sleeper is woken by wakeup on
      its channel, by kill, or, in wait, by init's wakeup or a child's exit. */
  predicate MayTurn(s: State, c: int, e: Event, p: int, b: PState)
    requires 0 <= c < |s.cpus| && IsProc(s, p)
  {
    var pr := s.procs[p];
    match pr.state
    case UNUSED => b.RUNNABLE? && e == ForkUnlock && At(s, c, ForkHeld(p))
    case RUNNABLE => b.RUNNING? && e == SchedRun && s.cpus[c].spc == Hold(p)
    case RUNNING => && s.cpus[c].spc == Run(p)
                    && (|| (b.RUNNABLE? && e == YieldLock) || (b.ZOMBIE? && e == BecomeZombie)
                        || (b.SLEEPING? && (e == SleepSet || e == WaitSleep)))
    case SLEEPING => && b.RUNNABLE?
                     && (|| (e == WakeLock && pr.chan == Cond && At(s, c, Wake(p)))
                         || e == KillLock(p)
                         || (e == InitLock(p) && pr.chan == Self)
                         || (e == BecomeZombie && pr.chan == Self && At(s, c, ExitBoth(p))))
    case ZOMBIE => b.UNUSED? && e == WaitReap && At(s, c, WaitHeld(p))
  }

  /** The state of p stays, or it turns as it may, under p->lock. */
  ghost predicate Turns(s: State, c: int, e: Event, s': State, p: int)
    requires 0 <= c < |s.cpus| && IsProc(s, p)
  {
    && IsProc(s', p)
    && (s'.procs[p].state == s.procs[p].state
        || (MayTurn(s, c, e, p, s'.procs[p].state) && (s.procs[p].lock == c || s'.procs[p].lock == c)))
  }

  lemma SchedTurns(s: State, c: int, e: Event, s': State, p: int)
    requires Placed(s) && LocksOk(s) && 0 <= c < |s.cpus| && IsProc(s, p) && SchedStep(s, c, e, s')
    ensures Turns(s, c, e, s', p)
  {
    hide Placed;
    assert Claims(s, c, p) <==> s.procs[p].lock == c;
  }

  /** A thread on a CPU has the state its place asks for, and the locks. */
  lemma ThreadFacts(s: State, c: int, q: int, p: int)
    requires Runs(s, c, q) && IsProc(s, p)
    ensures s.procs[q].on == c && OnState(s.procs[q]) && (HoldsProc(s.procs[q].pc, q, p) <==> s.procs[p].lock == c)
    ensures s.procs[q].pc == ForkHeld(p) ==> s.procs[p].state.UNUSED?
  {
    Held(s, c, q, p);
    assert CpuOk(s, c) && ProcOk(s, q);
  }

  lemma QuietTurns(ready: (int, int) -> bool, s: State, c: int, q: int, e: Event, s': State, p: int)
    requires Runs(s, c, q) && IsProc(s, p)
    requires SwtchStep(s, c, q, e, s') || CondStep(ready, s, c, q, e, s') || WakeStep(s, c, q, e, s')
    ensures Turns(s, c, e, s', p)
  {
    hide Placed, LocksOk;
    ThreadFacts(s, c, q, p);
  }

  lemma OwnTurns(ready: (int, int) -> bool, s: State, c: int, q: int, e: Event, s': State, p: int)
    requires Runs(s, c, q) && IsProc(s, p)
    requires OwnStep(s, c, q, e, s') || SleepStep(ready, s, c, q, e, s') || WaitStep(s, c, q, e, s')
    ensures Turns(s, c, e, s', p)
  {
    hide Placed, LocksOk;
    ThreadFacts(s, c, q, p);
    ThreadFacts(s, c, q, q);
  }

  lemma OtherTurns(s: State, c: int, q: int, e: Event, s': State, p: int)
    requires Runs(s, c, q) && IsProc(s, p)
    requires KillStep(s, c, q, e, s') || ForkStep(s, c, q, e, s') || LeaveStep(s, c, q, e, s')
    ensures Turns(s, c, e, s', p)
  {
    hide Placed, LocksOk;
    ThreadFacts(s, c, q, p);
  }

  lemma ExitTurns(s: State, c: int, q: int, e: Event, s': State, p: int)
    requires Runs(s, c, q) && IsProc(s, p)
    requires ExitStep(s, c, q, e, s') || ReapStep(s, c, q, e, s')
    ensures Turns(s, c, e, s', p)
  {
    hide Placed, LocksOk;
    ThreadFacts(s, c, q, p);
    ThreadFacts(s, c, q, q);
  }

  lemma StepTurns(ready: (int, int) -> bool, s: State, c: int, e: Event, s': State, p: int)
    requires Placed(s) && LocksOk(s) && Step(ready, s, c, e, s') && IsProc(s, p)
    ensures Turns(s, c, e, s', p)
  {
    hide Placed, LocksOk, SchedStep, SwtchStep, OwnStep, CondStep, SleepStep, WakeStep, KillStep, ForkStep, LeaveStep,
         ExitStep, WaitStep, ReapStep, Turns;
    if !s.cpus[c].spc.Run? {
      SchedTurns(s, c, e, s', p);
    } else {
      var q := s.cpus[c].spc.p;
      if SwtchStep(s, c, q, e, s') || CondStep(ready, s, c, q, e, s') || WakeStep(s, c, q, e, s') {
        QuietTurns(ready, s, c, q, e, s', p);
      } else if OwnStep(s, c, q, e, s') || SleepStep(ready, s, c, q, e, s') || WaitStep(s, c, q, e, s') {
        OwnTurns(ready, s, c, q, e, s', p);
      } else if ExitStep(s, c, q, e, s') || ReapStep(s, c, q, e, s') {
        ExitTurns(s, c, q, e, s', p);
      } else {
        OtherTurns(s, c, q, e, s', p);
      }
    }
  }

  /** In every run the state of a process changes only along the edges of its life, by the
      functions that may do so, and by a CPU that holds its lock. */
  lemma Life(ready: (int, int) -> bool, ss: seq<State>, acts: seq<Action>, n: nat, p: int)
    requires IsRun(ready, ss, acts) && n < |acts| && 0 <= p < |ss[n].procs|
    ensures 0 <= acts[n].c < |ss[n].cpus| && Turns(ss[n], acts[n].c, acts[n].e, ss[n + 1], p)
  {
    hide LkOk, WakeOk, Placed, LocksOk, ThreadStep, SchedStep, Turns;
    Reachable(ready, ss, acts, n);
    assert Step(ready, ss[n], acts[n].c, acts[n].e, ss[n + 1]);
    StepTurns(ready, ss[n], acts[n].c, acts[n].e, ss[n + 1], p);
  }
}
