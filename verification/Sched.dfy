/** Processes, the scheduler and sleep/wakeup (kernel/proc.c) as a concurrent machine.

  Any number of CPUs run either their scheduler or the kernel thread of one
  process. Each step is one lock operation or one context switch of one CPU,
  together with the writes to fields that the lock protects. A process lock is
  taken in one thread and released in another: `swtch` hands it over.

  Besides the process locks there is one condition lock `lk`, protecting a
  variable `sigma` that some processes wait for on a channel, each for its own
  condition: `ready(p, sigma)` is the one of process p. Threads may do anything
  with sigma that follows the rule of sleep and wakeup: before they release lk,
  they wake the channel if they made somebody's condition true.
 */
module Sched {

  datatype PState = UNUSED | SLEEPING | RUNNABLE | RUNNING | ZOMBIE

  datatype Chan = NoChan | Cond | Self

  /** Where the kernel thread of a process is. */
  datatype PC =
    | Unborn                 // not allocated
    | Fresh                  // will start in forkret
    | Idle                   // outside the functions below, no locks
    | YieldSched | YieldRet
    | Crit                   // holds lk
    | SleepBoth              // sleep: holds lk and its own lock
    | SleepOwn               // sleep: has released lk
    | SleepSched | SleepRet | Relock
    | Wake(i: int)           // wakeup: about to lock process i, holds lk
    | WakeHeld(i: int)
    | KillHeld(i: int)
    | ForkHeld(i: int)
    | ExitInit(i: int)       // exit: holds the lock of init
    | ExitWoken
    | ExitCopy               // exit: holds its own lock, to read p->parent
    | ExitCopied
    | ExitParent(i: int)     // exit: holds the parent's lock
    | ExitBoth(i: int)       // exit: holds the parent's lock and its own
    | ExitChild(i: int, j: int)  // reparent: and that of a child
    | ExitZombie(i: int)     // exit: ZOMBIE, holds the parent's lock and its own
    | ExitSched | Dead
    | WaitScan               // wait: holds its own lock
    | WaitHeld(i: int)       // wait: and that of a child
    | WaitDone | WaitSched | WaitRet

  /** `lock` is the CPU holding p->lock, or -1; `on` records the CPU executing on this kernel stack, or -1. */
  datatype Proc = Proc(state: PState, chan: Chan, pc: PC, lock: int, on: int)

  /** Where the scheduler of a CPU is; in Run it is switched out in favour of process p. */
  datatype SchedPC = Look | Hold(p: int) | Run(p: int) | Back(p: int) | Clear(p: int)

  /** `proc` is c->proc, or -1. */
  datatype Cpu = Cpu(proc: int, spc: SchedPC)

  datatype State = State(procs: seq<Proc>, cpus: seq<Cpu>, lk: int, sigma: int, changed: bool, woken: bool)

  // ---------------------------------------------------------------- who holds which lock

  predicate HoldsProc(pc: PC, self: int, i: int) {
    match pc
    case WakeHeld(j) => i == j
    case KillHeld(j) => i == j
    case ForkHeld(j) => i == j
    case ExitInit(j) => i == j
    case ExitParent(j) => i == j
    case ExitBoth(j) => i == j || i == self
    case ExitChild(j, k) => i == j || i == k || i == self
    case ExitZombie(j) => i == j || i == self
    case ExitWoken => false
    case ExitCopied => false
    case WaitHeld(j) => i == j || i == self
    case Unborn => false
    case Idle => false
    case Crit => false
    case Relock => false
    case Wake(_) => false
    case _ => i == self
  }

  predicate HoldsLk(pc: PC) {
    pc.Crit? || pc.SleepBoth? || pc.Wake? || pc.WakeHeld?
  }

  /** The thread running on CPU c holds the lock of process i. */
  predicate Claims(s: State, c: int, i: int)
    requires 0 <= c < |s.cpus|
  {
    match s.cpus[c].spc
    case Look => false
    case Run(p) => 0 <= p < |s.procs| && HoldsProc(s.procs[p].pc, p, i)
    case Hold(p) => i == p
    case Back(p) => i == p
    case Clear(p) => i == p
  }

  predicate ClaimsLk(s: State, c: int)
    requires 0 <= c < |s.cpus|
  {
    s.cpus[c].spc.Run? && 0 <= s.cpus[c].spc.p < |s.procs| && HoldsLk(s.procs[s.cpus[c].spc.p].pc)
  }

  // ---------------------------------------------------------------- state updates

  predicate IsProc(s: State, i: int) { 0 <= i < |s.procs| }

  function Put(s: State, i: int, p: Proc): State
    requires IsProc(s, i)
  {
    s.(procs := s.procs[i := p])
  }

  function Go(s: State, i: int, pc: PC): State
    requires IsProc(s, i)
  {
    Put(s, i, s.procs[i].(pc := pc))
  }

  function Acquire(s: State, i: int, c: int): State
    requires IsProc(s, i)
  {
    Put(s, i, s.procs[i].(lock := c))
  }

  function Release(s: State, i: int): State
    requires IsProc(s, i)
  {
    Put(s, i, s.procs[i].(lock := -1))
  }

  function Become(s: State, i: int, st: PState): State
    requires IsProc(s, i)
  {
    Put(s, i, s.procs[i].(state := st))
  }

  function Chanel(s: State, i: int, ch: Chan): State
    requires IsProc(s, i)
  {
    Put(s, i, s.procs[i].(chan := ch))
  }

  function SetCpu(s: State, c: int, cpu: Cpu): State
    requires 0 <= c < |s.cpus|
  {
    s.(cpus := s.cpus[c := cpu])
  }

  /** SLEEPING on the channel becomes RUNNABLE. */
  function Rouse(s: State, i: int, ch: Chan): State
    requires IsProc(s, i)
  {
    if s.procs[i].state.SLEEPING? && s.procs[i].chan == ch then Become(s, i, RUNNABLE) else s
  }

  // ---------------------------------------------------------------- steps

  datatype Event =
    | SchedLock(i: int) | SchedRun | SchedSkip | SchedClear | SchedUnlock
    | Swtch | YieldLock | RetUnlock
    | LkAcquire | LkRelease | Change(v: int)
    | SleepLock | SleepDrop | SleepSet | SleepTidy
    | WakeStart | WakeLock | WakeUnlock | WakeEnd
    | KillLock(i: int) | KillUnlock
    | ForkLock(i: int) | ForkUnlock
    | InitLock(i: int) | InitUnlock | CopyLock | CopyUnlock
    | ExitLock(i: int) | ExitLockSelf | ReparentLock(j: int) | ReparentUnlock | BecomeZombie | ExitUnlock
    | WaitLock | WaitProbe(i: int) | WaitReap | WaitSkip | WaitLeave | WaitSleep | WaitTidy

  /** After sched() the thread resumes here. */
  function After(pc: PC): PC {
    match pc
    case YieldSched => YieldRet
    case SleepSched => SleepRet
    case WaitSched => WaitRet
    case _ => Dead
  }

  predicate SchedStep(s: State, c: int, e: Event, s': State)
    requires 0 <= c < |s.cpus|
  {
    var cpu := s.cpus[c];
    match e
    case SchedLock(i) =>
      && cpu.spc.Look? && IsProc(s, i) && s.procs[i].lock == -1
      && s' == SetCpu(Acquire(s, i, c), c, cpu.(spc := Hold(i)))
    case SchedRun =>
      // p->state = RUNNING; c->proc = p; swtch(&c->scheduler, &p->context)
      && cpu.spc.Hold? && IsProc(s, cpu.spc.p) && s.procs[cpu.spc.p].state.RUNNABLE?
      && var p := cpu.spc.p;
         s' == SetCpu(Put(s, p, s.procs[p].(state := RUNNING, on := c)), c, Cpu(p, Run(p)))
    case SchedSkip =>
      && cpu.spc.Hold? && IsProc(s, cpu.spc.p) && !s.procs[cpu.spc.p].state.RUNNABLE?
      && s' == SetCpu(Release(s, cpu.spc.p), c, cpu.(spc := Look))
    case SchedClear =>
      cpu.spc.Back? && s' == SetCpu(s, c, Cpu(-1, Clear(cpu.spc.p)))
    case SchedUnlock =>
      && cpu.spc.Clear? && IsProc(s, cpu.spc.p)
      && s' == SetCpu(Release(s, cpu.spc.p), c, cpu.(spc := Look))
    case _ => false
  }

  /** The end of sched(): the thread's registers are saved and the scheduler resumes. */
  predicate SwtchStep(s: State, c: int, p: int, e: Event, s': State)
    requires 0 <= c < |s.cpus| && IsProc(s, p)
  {
    var me := s.procs[p];
    match e
    case Swtch =>
      && (me.pc.YieldSched? || me.pc.SleepSched? || me.pc.ExitSched? || me.pc.WaitSched?)
      && s' == SetCpu(Put(s, p, me.(pc := After(me.pc), on := -1)), c, s.cpus[c].(spc := Back(p)))
    case _ => false
  }

  /** yield, and returning from it or from wait; forkret. */
  predicate OwnStep(s: State, c: int, p: int, e: Event, s': State)
    requires 0 <= c < |s.cpus| && IsProc(s, p)
  {
    var me := s.procs[p];
    match e
    case YieldLock =>
      me.pc.Idle? && me.lock == -1 && s' == Go(Become(Acquire(s, p, c), p, RUNNABLE), p, YieldSched)
    case RetUnlock =>
      && (me.pc.YieldRet? || me.pc.Fresh? || me.pc.WaitDone?)
      && s' == Go(Release(s, p), p, Idle)
    case _ => false
  }

  /** Taking lk, changing what it protects, releasing it. */
  predicate CondStep(ready: (int, int) -> bool, s: State, c: int, p: int, e: Event, s': State)
    requires 0 <= c < |s.cpus| && IsProc(s, p)
  {
    var me := s.procs[p];
    match e
    case LkAcquire =>
      && (me.pc.Idle? || me.pc.Relock?) && s.lk == -1
      && s' == Go(s, p, Crit).(lk := c, changed := false, woken := false)
    case Change(v) =>
      me.pc.Crit? && s' == s.(sigma := v, changed := s.changed || exists q :: 0 <= q < |s.procs| && ready(q, v))
    case LkRelease =>
      // the rule: a thread that made a condition true has woken the channel
      me.pc.Crit? && (s.changed ==> s.woken) && s' == Go(s, p, Idle).(lk := -1)
    case _ => false
  }

  /** sleep(chan, lk) */
  predicate SleepStep(ready: (int, int) -> bool, s: State, c: int, p: int, e: Event, s': State)
    requires 0 <= c < |s.cpus| && IsProc(s, p)
  {
    var me := s.procs[p];
    match e
    case SleepLock =>
      // while(!condition) sleep(chan, lk): acquire(&p->lock)
      me.pc.Crit? && !ready(p, s.sigma) && (s.changed ==> s.woken) && me.lock == -1
          && s' == Go(Acquire(s, p, c), p, SleepBoth)
    case SleepDrop =>
      me.pc.SleepBoth? && s' == Go(s, p, SleepOwn).(lk := -1)
    case SleepSet =>
      me.pc.SleepOwn? && s' == Go(Become(Chanel(s, p, Cond), p, SLEEPING), p, SleepSched)
    case SleepTidy =>
      me.pc.SleepRet? && s' == Go(Release(Chanel(s, p, NoChan), p), p, Relock)
    case _ => false
  }

  /** wakeup(chan) */
  predicate WakeStep(s: State, c: int, p: int, e: Event, s': State)
    requires 0 <= c < |s.cpus| && IsProc(s, p)
  {
    var me := s.procs[p];
    match e
    case WakeStart =>
      me.pc.Crit? && s' == Go(s, p, Wake(0))
    case WakeLock =>
      && me.pc.Wake? && IsProc(s, me.pc.i) && s.procs[me.pc.i].lock == -1
      && s' == Go(Rouse(Acquire(s, me.pc.i, c), me.pc.i, Cond), p, WakeHeld(me.pc.i))
    case WakeUnlock =>
      me.pc.WakeHeld? && IsProc(s, me.pc.i) && s' == Go(Release(s, me.pc.i), p, Wake(me.pc.i + 1))
    case WakeEnd =>
      me.pc.Wake? && me.pc.i == |s.procs| && s' == Go(s, p, Crit).(woken := true)
    case _ => false
  }

  /** kill */
  predicate KillStep(s: State, c: int, p: int, e: Event, s': State)
    requires 0 <= c < |s.cpus| && IsProc(s, p)
  {
    var me := s.procs[p];
    match e
    case KillLock(i) =>
      // the scan passes over i, or i is the one to kill
      && me.pc.Idle? && IsProc(s, i) && s.procs[i].lock == -1
      && var r := Acquire(s, i, c);
         || s' == Go(r, p, KillHeld(i))
         || (s.procs[i].state.SLEEPING? && s' == Go(Become(r, i, RUNNABLE), p, KillHeld(i)))
    case KillUnlock =>
      me.pc.KillHeld? && IsProc(s, me.pc.i) && s' == Go(Release(s, me.pc.i), p, Idle)
    case _ => false
  }

  /** The part of fork that takes a free slot and makes it runnable. */
  predicate ForkStep(s: State, c: int, p: int, e: Event, s': State)
    requires 0 <= c < |s.cpus| && IsProc(s, p)
  {
    var me := s.procs[p];
    match e
    case ForkLock(i) =>
      // allocproc skips processes that are not UNUSED
      && me.pc.Idle? && IsProc(s, i) && i != p && s.procs[i].lock == -1 && s.procs[i].state.UNUSED?
      && s' == Go(Acquire(s, i, c), p, ForkHeld(i))
    case ForkUnlock =>
      && me.pc.ForkHeld? && IsProc(s, me.pc.i) && me.pc.i != p
      && s' == Go(Go(Become(Release(s, me.pc.i), me.pc.i, RUNNABLE), me.pc.i, Fresh), p, Idle)
    case _ => false
  }

  /** The beginning of exit: wake up init, copy p->parent. */
  predicate LeaveStep(s: State, c: int, p: int, e: Event, s': State)
    requires 0 <= c < |s.cpus| && IsProc(s, p)
  {
    var me := s.procs[p];
    match e
    case InitLock(i) =>
      // wakeup1(initproc)
      && me.pc.Idle? && IsProc(s, i) && i != p && s.procs[i].lock == -1
      && s' == Go(Rouse(Acquire(s, i, c), i, Self), p, ExitInit(i))
    case InitUnlock =>
      me.pc.ExitInit? && IsProc(s, me.pc.i) && me.pc.i != p && s' == Go(Release(s, me.pc.i), p, ExitWoken)
    case CopyLock =>
      me.pc.ExitWoken? && me.lock == -1 && s' == Go(Acquire(s, p, c), p, ExitCopy)
    case CopyUnlock =>
      me.pc.ExitCopy? && s' == Go(Release(s, p), p, ExitCopied)
    case _ => false
  }

  /** exit, from locking the parent on, with reparent */
  predicate ExitStep(s: State, c: int, p: int, e: Event, s': State)
    requires 0 <= c < |s.cpus| && IsProc(s, p)
  {
    var me := s.procs[p];
    match e
    case ExitLock(i) =>
      me.pc.ExitCopied? && IsProc(s, i) && i != p && s.procs[i].lock == -1
          && s' == Go(Acquire(s, i, c), p, ExitParent(i))
    case ExitLockSelf =>
      me.pc.ExitParent? && me.pc.i != p && me.lock == -1 && s' == Go(Acquire(s, p, c), p, ExitBoth(me.pc.i))
    case ReparentLock(j) =>
      && me.pc.ExitBoth? && IsProc(s, j) && s.procs[j].lock == -1 && j != p && j != me.pc.i
      && s' == Go(Acquire(s, j, c), p, ExitChild(me.pc.i, j))
    case ReparentUnlock =>
      && me.pc.ExitChild? && IsProc(s, me.pc.j) && me.pc.j != p && me.pc.j != me.pc.i
      && s' == Go(Release(s, me.pc.j), p, ExitBoth(me.pc.i))
    case BecomeZombie =>
      // wakeup1(original_parent); p->state = ZOMBIE
      && me.pc.ExitBoth? && IsProc(s, me.pc.i) && me.pc.i != p
      && s' == Go(Become(Rouse(s, me.pc.i, Self), p, ZOMBIE), p, ExitZombie(me.pc.i))
    case ExitUnlock =>
      && me.pc.ExitZombie? && IsProc(s, me.pc.i) && me.pc.i != p
      && s' == Go(Release(s, me.pc.i), p, ExitSched)
    case _ => false
  }

  /** wait */
  predicate WaitStep(s: State, c: int, p: int, e: Event, s': State)
    requires 0 <= c < |s.cpus| && IsProc(s, p)
  {
    var me := s.procs[p];
    match e
    case WaitLock =>
      me.pc.Idle? && me.lock == -1 && s' == Go(Acquire(s, p, c), p, WaitScan)
    case WaitLeave =>
      me.pc.WaitScan? && s' == Go(Release(s, p), p, Idle)
    case WaitSleep =>
      me.pc.WaitScan? && s' == Go(Become(Chanel(s, p, Self), p, SLEEPING), p, WaitSched)
    case WaitTidy =>
      me.pc.WaitRet? && s' == Go(Chanel(s, p, NoChan), p, WaitScan)
    case _ => false
  }

  /** wait, with a child locked */
  predicate ReapStep(s: State, c: int, p: int, e: Event, s': State)
    requires 0 <= c < |s.cpus| && IsProc(s, p)
  {
    var me := s.procs[p];
    match e
    case WaitProbe(i) =>
      me.pc.WaitScan? && IsProc(s, i) && i != p && s.procs[i].lock == -1 && s' == Go(Acquire(s, i, c), p, WaitHeld(i))
    case WaitReap =>
      // freeproc(np)
      && me.pc.WaitHeld? && IsProc(s, me.pc.i) && me.pc.i != p && s.procs[me.pc.i].state.ZOMBIE?
      && s' == Go(Put(s, me.pc.i, s.procs[me.pc.i].(state := UNUSED, chan := NoChan, pc := Unborn, lock := -1)), p,
                  WaitDone)
    case WaitSkip =>
      && me.pc.WaitHeld? && IsProc(s, me.pc.i) && me.pc.i != p && !s.procs[me.pc.i].state.ZOMBIE?
      && s' == Go(Release(s, me.pc.i), p, WaitScan)
    case _ => false
  }

  predicate ThreadStep(ready: (int, int) -> bool, s: State, c: int, p: int, e: Event, s': State)
    requires 0 <= c < |s.cpus| && IsProc(s, p)
  {
    || SwtchStep(s, c, p, e, s')
    || OwnStep(s, c, p, e, s')
    || CondStep(ready, s, c, p, e, s')
    || SleepStep(ready, s, c, p, e, s')
    || WakeStep(s, c, p, e, s')
    || KillStep(s, c, p, e, s')
    || ForkStep(s, c, p, e, s')
    || LeaveStep(s, c, p, e, s')
    || ExitStep(s, c, p, e, s')
    || WaitStep(s, c, p, e, s')
    || ReapStep(s, c, p, e, s')
  }

  predicate Step(ready: (int, int) -> bool, s: State, c: int, e: Event, s': State) {
    && 0 <= c < |s.cpus|
    && if s.cpus[c].spc.Run? then IsProc(s, s.cpus[c].spc.p) && ThreadStep(ready, s, c, s.cpus[c].spc.p, e, s')
       else SchedStep(s, c, e, s')
  }

  // ---------------------------------------------------------------- invariant

  function ChanFor(pc: PC): Chan {
    match pc
    case SleepSched => Cond
    case SleepRet => Cond
    case WaitSched => Self
    case WaitRet => Self
    case _ => NoChan
  }

  /** What p->state is while a CPU executes on p's stack. */
  predicate OnState(pr: Proc) {
    match pr.pc
    case Unborn => false
    case Dead => false
    case YieldSched => pr.state.RUNNABLE?
    case SleepSched => pr.state.SLEEPING?
    case WaitSched => pr.state.SLEEPING?
    case ExitZombie(_) => pr.state.ZOMBIE?
    case ExitSched => pr.state.ZOMBIE?
    case _ => pr.state.RUNNING?
  }

  /** Where p's thread is while no CPU executes on its stack. */
  predicate OffState(pr: Proc) {
    match pr.state
    case UNUSED => pr.pc.Unborn?
    case SLEEPING => pr.pc.SleepRet? || pr.pc.WaitRet?
    case RUNNABLE => pr.pc.YieldRet? || pr.pc.SleepRet? || pr.pc.WaitRet? || pr.pc.Fresh?
    case RUNNING => false
    case ZOMBIE => pr.pc.Dead?
  }

  ghost predicate ProcOk(s: State, p: int)
    requires IsProc(s, p)
  {
    var pr := s.procs[p];
    && -1 <= pr.lock < |s.cpus| && pr.chan == ChanFor(pr.pc)
    && (if pr.on == -1 then OffState(pr) else 0 <= pr.on < |s.cpus| && s.cpus[pr.on].spc == Run(p) && OnState(pr))
    && (pr.pc.ForkHeld? ==> IsProc(s, pr.pc.i) && s.procs[pr.pc.i].state.UNUSED?)
  }

  ghost predicate CpuOk(s: State, c: int)
    requires 0 <= c < |s.cpus|
  {
    match s.cpus[c].spc
    case Look => s.cpus[c].proc == -1
    case Hold(p) => IsProc(s, p) && s.cpus[c].proc == -1
    case Run(p) => IsProc(s, p) && s.cpus[c].proc == p && s.procs[p].on == c
    case Back(p) => IsProc(s, p) && s.cpus[c].proc == p
    case Clear(p) => IsProc(s, p) && s.cpus[c].proc == -1
  }

  ghost predicate LocksOk(s: State) {
    forall c, i :: 0 <= c < |s.cpus| && IsProc(s, i) ==> (Claims(s, c, i) <==> s.procs[i].lock == c)
  }

  ghost predicate LkOk(s: State) {
    && -1 <= s.lk < |s.cpus|
    && forall c :: 0 <= c < |s.cpus| ==> (ClaimsLk(s, c) <==> s.lk == c)
  }

  ghost predicate Placed(s: State) {
    && (forall p :: IsProc(s, p) ==> ProcOk(s, p))
    && (forall c :: 0 <= c < |s.cpus| ==> CpuOk(s, c))
  }

  /** On the way to sleep on the channel, having seen the condition false and let go of lk. */
  predicate Committed(pr: Proc) {
    pr.pc.SleepOwn? || pr.pc.SleepSched? || (pr.pc.SleepRet? && pr.state.SLEEPING?)
  }

  ghost predicate WakeOk(ready: (int, int) -> bool, s: State) {
    && (forall p :: IsProc(s, p) && Committed(s.procs[p]) && ready(p, s.sigma) ==> s.lk != -1 && s.changed && !s.woken)
    && (forall p :: IsProc(s, p) && s.lk != -1 && s.woken ==> !Committed(s.procs[p]))
    && (forall q :: IsProc(s, q) && s.procs[q].pc.SleepBoth? ==> !ready(q, s.sigma) && (s.changed ==> s.woken))
    && (forall p, q :: IsProc(s, p) && IsProc(s, q) ==> Swept(s.procs[q].pc, p, s.procs[p]))
  }

  /** wakeup at process i has woken everyone before it. */
  predicate Swept(pc: PC, p: int, pr: Proc) {
    && (pc.Wake? && p < pc.i ==> !Committed(pr))
    && (pc.WakeHeld? && p <= pc.i ==> !Committed(pr))
  }

  ghost predicate Inv(ready: (int, int) -> bool, s: State) {
    Placed(s) && LocksOk(s) && LkOk(s) && WakeOk(ready, s)
  }

  /** At boot every CPU is in its scheduler and no lock is held. */
  predicate Init(s: State) {
    && s.lk == -1
    && (forall c :: 0 <= c < |s.cpus| ==> s.cpus[c] == Cpu(-1, Look))
    && (forall p :: 0 <= p < |s.procs| ==>
          s.procs[p] == Proc(UNUSED, NoChan, Unborn, -1, -1) || s.procs[p] == Proc(RUNNABLE, NoChan, Fresh, -1, -1))
  }

  lemma InitInv(ready: (int, int) -> bool, s: State)
    requires Init(s)
    ensures Inv(ready, s)
  {
  }

  // ---------------------------------------------------------------- locks

  /** What a step of thread p on CPU c does to the process locks and program counters. */
  ghost predicate Moved(s: State, c: int, p: int, s': State)
    requires IsProc(s, p) && |s'.procs| == |s.procs|
  {
    && s'.cpus == s.cpus
    && (forall q :: IsProc(s, q) && q != p && s.procs[q].on != -1 ==> s'.procs[q].pc == s.procs[q].pc)
    && LkMoved(s.procs[p].pc, s'.procs[p].pc, c, s.lk, s'.lk)
    && forall i :: IsProc(s, i) ==> LockMoved(s.procs[p].pc, s'.procs[p].pc, c, p, i, s.procs[i].lock, s'.procs[i].lock)
  }

  predicate LkMoved(pc: PC, pc': PC, c: int, lk: int, lk': int) {
    if HoldsLk(pc') then lk' == c && (HoldsLk(pc) || lk == -1)
    else if HoldsLk(pc) then lk' == -1
    else lk' == lk
  }

  predicate LockMoved(pc: PC, pc': PC, c: int, p: int, i: int, lock: int, lock': int) {
    if HoldsProc(pc', p, i) then lock' == c && (HoldsProc(pc, p, i) || lock == -1)
    else if HoldsProc(pc, p, i) then lock' == -1
    else lock' == lock
  }

  ghost predicate Runs(s: State, c: int, p: int) {
    Placed(s) && LocksOk(s) && 0 <= c < |s.cpus| && IsProc(s, p) && s.cpus[c].spc == Run(p)
  }

  /** A running thread's locks are the ones its CPU is recorded in. */
  lemma Held(s: State, c: int, p: int, i: int)
    requires Runs(s, c, p) && IsProc(s, i)
    ensures HoldsProc(s.procs[p].pc, p, i) <==> s.procs[i].lock == c
  {
    assert Claims(s, c, i) <==> s.procs[i].lock == c;
  }

  lemma HeldLk(s: State, c: int, p: int)
    requires Runs(s, c, p) && LkOk(s)
    ensures HoldsLk(s.procs[p].pc) <==> s.lk == c
  {
    assert ClaimsLk(s, c) <==> s.lk == c;
  }

  /** A process on a CPU that is not RUNNING holds its own lock. */
  lemma NotRunningHolds(s: State, i: int)
    requires Placed(s) && LocksOk(s) && IsProc(s, i) && !s.procs[i].state.RUNNING? && s.procs[i].on != -1
    ensures s.procs[i].lock == s.procs[i].on && s.cpus[s.procs[i].on].spc == Run(i)
  {
    assert ProcOk(s, i);
    var d := s.procs[i].on;
    assert Claims(s, d, i) <==> s.procs[i].lock == d;
  }

  /** A process that is not RUNNING and whose lock it does not hold itself is on no CPU:
      wait never frees a stack in use, and fork never reuses one. */
  lemma OnNoCpu(s: State, i: int)
    requires Placed(s) && LocksOk(s) && IsProc(s, i) && !s.procs[i].state.RUNNING?
    requires -1 <= s.procs[i].lock < |s.cpus| && (s.procs[i].lock == -1 || s.cpus[s.procs[i].lock].spc != Run(i))
    ensures s.procs[i].on == -1
  {
    hide Placed, LocksOk;
    if s.procs[i].on != -1 {
      NotRunningHolds(s, i);
    }
  }

  lemma ForkSlotUnused(s: State, c: int, p: int)
    requires Runs(s, c, p) && s.procs[p].pc.ForkHeld?
    ensures IsProc(s, s.procs[p].pc.i) && s.procs[s.procs[p].pc.i].state.UNUSED?
  {
  }

  lemma MovedKeepsLocks(s: State, c: int, p: int, s': State)
    requires Placed(s) && LocksOk(s) && 0 <= c < |s.cpus| && IsProc(s, p) && s.cpus[c].spc == Run(p)
    requires |s'.procs| == |s.procs| && Moved(s, c, p, s')
    ensures LocksOk(s')
  {
    forall d, i | 0 <= d < |s'.cpus| && IsProc(s', i)
      ensures Claims(s', d, i) <==> s'.procs[i].lock == d
    {
      assert Claims(s, d, i) <==> s.procs[i].lock == d;
      assert Claims(s, c, i) <==> s.procs[i].lock == c;
      assert CpuOk(s, c) && CpuOk(s, d);
      assert LockMoved(s.procs[p].pc, s'.procs[p].pc, c, p, i, s.procs[i].lock, s'.procs[i].lock);
    }
  }

  lemma OwnMoves(s: State, c: int, p: int, e: Event, s': State)
    requires Runs(s, c, p) && LkOk(s) && OwnStep(s, c, p, e, s')
    ensures |s'.procs| == |s.procs| && Moved(s, c, p, s')
  {
    hide Placed, LocksOk, LkOk;
    HeldLk(s, c, p);
    forall i | IsProc(s, i)
      ensures LockMoved(s.procs[p].pc, s'.procs[p].pc, c, p, i, s.procs[i].lock, s'.procs[i].lock)
    {
      Held(s, c, p, i);
    }
  }

  lemma CondMoves(ready: (int, int) -> bool, s: State, c: int, p: int, e: Event, s': State)
    requires Runs(s, c, p) && LkOk(s) && CondStep(ready, s, c, p, e, s')
    ensures |s'.procs| == |s.procs| && Moved(s, c, p, s')
  {
    hide Placed, LocksOk, LkOk;
    HeldLk(s, c, p);
    forall i | IsProc(s, i)
      ensures LockMoved(s.procs[p].pc, s'.procs[p].pc, c, p, i, s.procs[i].lock, s'.procs[i].lock)
    {
      Held(s, c, p, i);
    }
  }

  lemma SleepMoves(ready: (int, int) -> bool, s: State, c: int, p: int, e: Event, s': State)
    requires Runs(s, c, p) && LkOk(s) && SleepStep(ready, s, c, p, e, s')
    ensures |s'.procs| == |s.procs| && Moved(s, c, p, s')
  {
    hide Placed, LocksOk, LkOk;
    HeldLk(s, c, p);
    forall i | IsProc(s, i)
      ensures LockMoved(s.procs[p].pc, s'.procs[p].pc, c, p, i, s.procs[i].lock, s'.procs[i].lock)
    {
      Held(s, c, p, i);
    }
  }

  lemma WakeMoves(s: State, c: int, p: int, e: Event, s': State)
    requires Runs(s, c, p) && LkOk(s) && WakeStep(s, c, p, e, s')
    ensures |s'.procs| == |s.procs| && Moved(s, c, p, s')
  {
    hide Placed, LocksOk, LkOk;
    HeldLk(s, c, p);
    forall i | IsProc(s, i)
      ensures LockMoved(s.procs[p].pc, s'.procs[p].pc, c, p, i, s.procs[i].lock, s'.procs[i].lock)
    {
      Held(s, c, p, i);
    }
  }

  lemma KillMoves(s: State, c: int, p: int, e: Event, s': State)
    requires Runs(s, c, p) && LkOk(s) && KillStep(s, c, p, e, s')
    ensures |s'.procs| == |s.procs| && Moved(s, c, p, s')
  {
    hide Placed, LocksOk, LkOk;
    HeldLk(s, c, p);
    forall i | IsProc(s, i)
      ensures LockMoved(s.procs[p].pc, s'.procs[p].pc, c, p, i, s.procs[i].lock, s'.procs[i].lock)
    {
      Held(s, c, p, i);
    }
  }

  lemma ForkMoves(s: State, c: int, p: int, e: Event, s': State)
    requires Runs(s, c, p) && LkOk(s) && ForkStep(s, c, p, e, s')
    ensures |s'.procs| == |s.procs| && Moved(s, c, p, s')
  {
    hide Placed, LocksOk, LkOk;
    HeldLk(s, c, p);
    if e.ForkUnlock? {
      ForkSlotUnused(s, c, p);
      Held(s, c, p, s.procs[p].pc.i);
      OnNoCpu(s, s.procs[p].pc.i);
    }
    forall i | IsProc(s, i)
      ensures LockMoved(s.procs[p].pc, s'.procs[p].pc, c, p, i, s.procs[i].lock, s'.procs[i].lock)
    {
      Held(s, c, p, i);
    }
  }

  lemma LeaveMoves(s: State, c: int, p: int, e: Event, s': State)
    requires Runs(s, c, p) && LkOk(s) && LeaveStep(s, c, p, e, s')
    ensures |s'.procs| == |s.procs| && Moved(s, c, p, s')
  {
    hide Placed, LocksOk, LkOk;
    HeldLk(s, c, p);
    forall i | IsProc(s, i)
      ensures LockMoved(s.procs[p].pc, s'.procs[p].pc, c, p, i, s.procs[i].lock, s'.procs[i].lock)
    {
      Held(s, c, p, i);
    }
  }

  lemma ReparentMoves(s: State, c: int, p: int, e: Event, s': State)
    requires Runs(s, c, p) && LkOk(s) && ExitStep(s, c, p, e, s') && (e.ReparentLock? || e.ReparentUnlock?)
    ensures |s'.procs| == |s.procs| && Moved(s, c, p, s')
  {
    hide Placed, LocksOk, LkOk;
    HeldLk(s, c, p);
    forall i | IsProc(s, i)
      ensures LockMoved(s.procs[p].pc, s'.procs[p].pc, c, p, i, s.procs[i].lock, s'.procs[i].lock)
    {
      Held(s, c, p, i);
    }
  }

  lemma LockingMoves(s: State, c: int, p: int, e: Event, s': State)
    requires Runs(s, c, p) && LkOk(s) && ExitStep(s, c, p, e, s') && (e.ExitLock? || e.ExitLockSelf?)
    ensures |s'.procs| == |s.procs| && Moved(s, c, p, s')
  {
    hide Placed, LocksOk, LkOk;
    HeldLk(s, c, p);
    forall i | IsProc(s, i)
      ensures LockMoved(s.procs[p].pc, s'.procs[p].pc, c, p, i, s.procs[i].lock, s'.procs[i].lock)
    {
      Held(s, c, p, i);
    }
  }

  lemma ZombieMoves(s: State, c: int, p: int, e: Event, s': State)
    requires Runs(s, c, p) && LkOk(s) && ExitStep(s, c, p, e, s') && (e.BecomeZombie? || e.ExitUnlock?)
    ensures |s'.procs| == |s.procs| && Moved(s, c, p, s')
  {
    hide Placed, LocksOk, LkOk;
    HeldLk(s, c, p);
    forall i | IsProc(s, i)
      ensures LockMoved(s.procs[p].pc, s'.procs[p].pc, c, p, i, s.procs[i].lock, s'.procs[i].lock)
    {
      Held(s, c, p, i);
    }
  }

  lemma ExitMoves(s: State, c: int, p: int, e: Event, s': State)
    requires Runs(s, c, p) && LkOk(s) && ExitStep(s, c, p, e, s')
    ensures |s'.procs| == |s.procs| && Moved(s, c, p, s')
  {
    hide Runs, LkOk, Moved;
    if e.ReparentLock? || e.ReparentUnlock? {
      ReparentMoves(s, c, p, e, s');
    } else if e.ExitLock? || e.ExitLockSelf? {
      LockingMoves(s, c, p, e, s');
    } else {
      ZombieMoves(s, c, p, e, s');
    }
  }

  lemma WaitMoves(s: State, c: int, p: int, e: Event, s': State)
    requires Runs(s, c, p) && LkOk(s) && WaitStep(s, c, p, e, s')
    ensures |s'.procs| == |s.procs| && Moved(s, c, p, s')
  {
    hide Placed, LocksOk, LkOk;
    HeldLk(s, c, p);
    forall i | IsProc(s, i)
      ensures LockMoved(s.procs[p].pc, s'.procs[p].pc, c, p, i, s.procs[i].lock, s'.procs[i].lock)
    {
      Held(s, c, p, i);
    }
  }

  lemma ReapMoves(s: State, c: int, p: int, e: Event, s': State)
    requires Runs(s, c, p) && LkOk(s) && ReapStep(s, c, p, e, s')
    ensures |s'.procs| == |s.procs| && Moved(s, c, p, s')
  {
    hide Placed, LocksOk, LkOk;
    HeldLk(s, c, p);
    if e.WaitReap? {
      Held(s, c, p, s.procs[p].pc.i);
      OnNoCpu(s, s.procs[p].pc.i);
    }
    forall i | IsProc(s, i)
      ensures LockMoved(s.procs[p].pc, s'.procs[p].pc, c, p, i, s.procs[i].lock, s'.procs[i].lock)
    {
      Held(s, c, p, i);
    }
  }

  // ---------------------------------------------------------------- where everybody is

  /** A step that leaves the CPUs alone keeps everybody placed if it keeps every process placed. */
  lemma ThreadPlaced(s: State, s': State)
    requires Placed(s) && s'.cpus == s.cpus && |s'.procs| == |s.procs|
    requires forall q :: IsProc(s, q) ==> s'.procs[q].on == s.procs[q].on && ProcOk(s', q)
    ensures Placed(s')
  {
    forall c | 0 <= c < |s'.cpus|
      ensures CpuOk(s', c)
    {
      assert CpuOk(s, c);
    }
  }

  /** Another process that this thread may touch, because its lock is free or held here, is off its stack
      unless it is RUNNING; and nobody else is filling its slot. */
  lemma Bystander(s: State, c: int, p: int, q: int)
    requires Runs(s, c, p) && IsProc(s, q)
    ensures q != p && (s.procs[q].lock == -1 || HoldsProc(s.procs[p].pc, p, q)) && !s.procs[q].state.RUNNING? ==>
              s.procs[q].on == -1
    ensures q != p && s.procs[q].on != -1 && s.procs[q].pc.ForkHeld? && s.procs[p].pc.ForkHeld? ==>
              s.procs[q].pc.i != s.procs[p].pc.i
  {
    hide Placed, LocksOk;
    Held(s, c, p, q);
    Ranges(s, q);
    if q != p && (s.procs[q].lock == -1 || HoldsProc(s.procs[p].pc, p, q)) && !s.procs[q].state.RUNNING? {
      OnNoCpu(s, q);
    }
    if q != p && s.procs[q].on != -1 && s.procs[q].pc.ForkHeld? && s.procs[p].pc.ForkHeld? {
      var d, i := s.procs[q].on, s.procs[q].pc.i;
      ForkSlotUnused(s, c, p);
      Ranges(s, p);
      Held(s, c, p, s.procs[p].pc.i);
      assert Runs(s, d, q);
      ForkSlotUnused(s, d, q);
      Held(s, d, q, i);
    }
  }

  lemma Both(s: State, c: int, p: int, q: int)
    requires Runs(s, c, p) && IsProc(s, q)
    ensures s.procs[p].on == c && ProcOk(s, p) && ProcOk(s, q)
  {
    assert CpuOk(s, c);
  }

  lemma Ranges(s: State, q: int)
    requires Placed(s) && IsProc(s, q)
    ensures -1 <= s.procs[q].lock < |s.cpus| && -1 <= s.procs[q].on < |s.cpus|
    ensures s.procs[q].on != -1 ==> s.cpus[s.procs[q].on].spc == Run(q)
  {
  }

  lemma OwnPlacedAt(s: State, c: int, p: int, e: Event, s': State, q: int)
    requires Runs(s, c, p) && OwnStep(s, c, p, e, s') && IsProc(s, q)
    ensures |s'.procs| == |s.procs| && s'.cpus == s.cpus && s'.procs[q].on == s.procs[q].on && ProcOk(s', q)
  {
    hide Placed, LocksOk;
    Both(s, c, p, q);
    Bystander(s, c, p, q);
  }

  lemma CondPlacedAt(ready: (int, int) -> bool, s: State, c: int, p: int, e: Event, s': State, q: int)
    requires Runs(s, c, p) && CondStep(ready, s, c, p, e, s') && IsProc(s, q)
    ensures |s'.procs| == |s.procs| && s'.cpus == s.cpus && s'.procs[q].on == s.procs[q].on && ProcOk(s', q)
  {
    hide Placed, LocksOk;
    Both(s, c, p, q);
    Bystander(s, c, p, q);
  }

  lemma SleepPlacedAt(ready: (int, int) -> bool, s: State, c: int, p: int, e: Event, s': State, q: int)
    requires Runs(s, c, p) && SleepStep(ready, s, c, p, e, s') && IsProc(s, q)
    ensures |s'.procs| == |s.procs| && s'.cpus == s.cpus && s'.procs[q].on == s.procs[q].on && ProcOk(s', q)
  {
    hide Placed, LocksOk;
    Both(s, c, p, q);
    Bystander(s, c, p, q);
  }

  lemma WakePlacedAt(s: State, c: int, p: int, e: Event, s': State, q: int)
    requires Runs(s, c, p) && WakeStep(s, c, p, e, s') && IsProc(s, q)
    ensures |s'.procs| == |s.procs| && s'.cpus == s.cpus && s'.procs[q].on == s.procs[q].on && ProcOk(s', q)
  {
    hide Runs, ProcOk;
    match e
    case WakeStart => WakeStartPlaced(s, c, p, e, s', q);
    case WakeLock => WakeLockPlaced(s, c, p, e, s', q);
    case WakeUnlock => WakeUnlockPlaced(s, c, p, e, s', q);
    case WakeEnd => WakeEndPlaced(s, c, p, e, s', q);
    case _ =>
  }

  lemma WakeStartPlaced(s: State, c: int, p: int, e: Event, s': State, q: int)
    requires Runs(s, c, p) && WakeStep(s, c, p, e, s') && IsProc(s, q) && e.WakeStart?
    ensures |s'.procs| == |s.procs| && s'.cpus == s.cpus && s'.procs[q].on == s.procs[q].on && ProcOk(s', q)
  {
    hide Placed, LocksOk;
    Both(s, c, p, q);
    Bystander(s, c, p, q);
  }

  lemma WakeLockPlaced(s: State, c: int, p: int, e: Event, s': State, q: int)
    requires Runs(s, c, p) && WakeStep(s, c, p, e, s') && IsProc(s, q) && e.WakeLock?
    ensures |s'.procs| == |s.procs| && s'.cpus == s.cpus && s'.procs[q].on == s.procs[q].on && ProcOk(s', q)
  {
    hide Placed, LocksOk;
    Both(s, c, p, q);
    Bystander(s, c, p, q);
  }

  lemma WakeUnlockPlaced(s: State, c: int, p: int, e: Event, s': State, q: int)
    requires Runs(s, c, p) && WakeStep(s, c, p, e, s') && IsProc(s, q) && e.WakeUnlock?
    ensures |s'.procs| == |s.procs| && s'.cpus == s.cpus && s'.procs[q].on == s.procs[q].on && ProcOk(s', q)
  {
    hide Placed, LocksOk;
    Both(s, c, p, q);
    Bystander(s, c, p, q);
  }

  lemma WakeEndPlaced(s: State, c: int, p: int, e: Event, s': State, q: int)
    requires Runs(s, c, p) && WakeStep(s, c, p, e, s') && IsProc(s, q) && e.WakeEnd?
    ensures |s'.procs| == |s.procs| && s'.cpus == s.cpus && s'.procs[q].on == s.procs[q].on && ProcOk(s', q)
  {
    hide Placed, LocksOk;
    Both(s, c, p, q);
    Bystander(s, c, p, q);
  }

  lemma KillPlacedAt(s: State, c: int, p: int, e: Event, s': State, q: int)
    requires Runs(s, c, p) && KillStep(s, c, p, e, s') && IsProc(s, q)
    ensures |s'.procs| == |s.procs| && s'.cpus == s.cpus && s'.procs[q].on == s.procs[q].on && ProcOk(s', q)
  {
    hide Runs, ProcOk;
    match e
    case KillLock(_) => KillLockPlaced(s, c, p, e, s', q);
    case KillUnlock => KillUnlockPlaced(s, c, p, e, s', q);
    case _ =>
  }

  lemma KillLockPlaced(s: State, c: int, p: int, e: Event, s': State, q: int)
    requires Runs(s, c, p) && KillStep(s, c, p, e, s') && IsProc(s, q) && e.KillLock?
    ensures |s'.procs| == |s.procs| && s'.cpus == s.cpus && s'.procs[q].on == s.procs[q].on && ProcOk(s', q)
  {
    hide Placed, LocksOk;
    Both(s, c, p, q);
    Bystander(s, c, p, q);
  }

  lemma KillUnlockPlaced(s: State, c: int, p: int, e: Event, s': State, q: int)
    requires Runs(s, c, p) && KillStep(s, c, p, e, s') && IsProc(s, q) && e.KillUnlock?
    ensures |s'.procs| == |s.procs| && s'.cpus == s.cpus && s'.procs[q].on == s.procs[q].on && ProcOk(s', q)
  {
    hide Placed, LocksOk;
    Both(s, c, p, q);
    Bystander(s, c, p, q);
  }

  lemma ForkPlacedAt(s: State, c: int, p: int, e: Event, s': State, q: int)
    requires Runs(s, c, p) && ForkStep(s, c, p, e, s') && IsProc(s, q)
    ensures |s'.procs| == |s.procs| && s'.cpus == s.cpus && s'.procs[q].on == s.procs[q].on && ProcOk(s', q)
  {
    hide Placed, LocksOk;
    Both(s, c, p, q);
    Bystander(s, c, p, q);
  }

  lemma LeavePlacedAt(s: State, c: int, p: int, e: Event, s': State, q: int)
    requires Runs(s, c, p) && LeaveStep(s, c, p, e, s') && IsProc(s, q)
    ensures |s'.procs| == |s.procs| && s'.cpus == s.cpus && s'.procs[q].on == s.procs[q].on && ProcOk(s', q)
  {
    hide Runs, ProcOk;
    match e
    case InitLock(_) => InitLockPlaced(s, c, p, e, s', q);
    case InitUnlock => InitUnlockPlaced(s, c, p, e, s', q);
    case CopyLock => CopyLockPlaced(s, c, p, e, s', q);
    case CopyUnlock => CopyUnlockPlaced(s, c, p, e, s', q);
    case _ =>
  }

  lemma InitLockPlaced(s: State, c: int, p: int, e: Event, s': State, q: int)
    requires Runs(s, c, p) && LeaveStep(s, c, p, e, s') && IsProc(s, q) && e.InitLock?
    ensures |s'.procs| == |s.procs| && s'.cpus == s.cpus && s'.procs[q].on == s.procs[q].on && ProcOk(s', q)
  {
    hide Placed, LocksOk;
    Both(s, c, p, q);
    Bystander(s, c, p, q);
  }

  lemma InitUnlockPlaced(s: State, c: int, p: int, e: Event, s': State, q: int)
    requires Runs(s, c, p) && LeaveStep(s, c, p, e, s') && IsProc(s, q) && e.InitUnlock?
    ensures |s'.procs| == |s.procs| && s'.cpus == s.cpus && s'.procs[q].on == s.procs[q].on && ProcOk(s', q)
  {
    hide Placed, LocksOk;
    Both(s, c, p, q);
    Bystander(s, c, p, q);
  }

  lemma CopyLockPlaced(s: State, c: int, p: int, e: Event, s': State, q: int)
    requires Runs(s, c, p) && LeaveStep(s, c, p, e, s') && IsProc(s, q) && e.CopyLock?
    ensures |s'.procs| == |s.procs| && s'.cpus == s.cpus && s'.procs[q].on == s.procs[q].on && ProcOk(s', q)
  {
    hide Placed, LocksOk;
    Both(s, c, p, q);
    Bystander(s, c, p, q);
  }

  lemma CopyUnlockPlaced(s: State, c: int, p: int, e: Event, s': State, q: int)
    requires Runs(s, c, p) && LeaveStep(s, c, p, e, s') && IsProc(s, q) && e.CopyUnlock?
    ensures |s'.procs| == |s.procs| && s'.cpus == s.cpus && s'.procs[q].on == s.procs[q].on && ProcOk(s', q)
  {
    hide Placed, LocksOk;
    Both(s, c, p, q);
    Bystander(s, c, p, q);
  }

  lemma ExitPlacedAt(s: State, c: int, p: int, e: Event, s': State, q: int)
    requires Runs(s, c, p) && ExitStep(s, c, p, e, s') && IsProc(s, q)
    ensures |s'.procs| == |s.procs| && s'.cpus == s.cpus && s'.procs[q].on == s.procs[q].on && ProcOk(s', q)
  {
    hide Runs, ProcOk;
    match e
    case ExitLock(_) => ExitLockPlaced(s, c, p, e, s', q);
    case ExitLockSelf => ExitLockSelfPlaced(s, c, p, e, s', q);
    case ReparentLock(_) => ReparentLockPlaced(s, c, p, e, s', q);
    case ReparentUnlock => ReparentUnlockPlaced(s, c, p, e, s', q);
    case BecomeZombie => BecomeZombiePlaced(s, c, p, e, s', q);
    case ExitUnlock => ExitUnlockPlaced(s, c, p, e, s', q);
    case _ =>
  }

  lemma ExitLockPlaced(s: State, c: int, p: int, e: Event, s': State, q: int)
    requires Runs(s, c, p) && ExitStep(s, c, p, e, s') && IsProc(s, q) && e.ExitLock?
    ensures |s'.procs| == |s.procs| && s'.cpus == s.cpus && s'.procs[q].on == s.procs[q].on && ProcOk(s', q)
  {
    hide Placed, LocksOk;
    Both(s, c, p, q);
    Bystander(s, c, p, q);
  }

  lemma ExitLockSelfPlaced(s: State, c: int, p: int, e: Event, s': State, q: int)
    requires Runs(s, c, p) && ExitStep(s, c, p, e, s') && IsProc(s, q) && e.ExitLockSelf?
    ensures |s'.procs| == |s.procs| && s'.cpus == s.cpus && s'.procs[q].on == s.procs[q].on && ProcOk(s', q)
  {
    hide Placed, LocksOk;
    Both(s, c, p, q);
    Bystander(s, c, p, q);
  }

  lemma ReparentLockPlaced(s: State, c: int, p: int, e: Event, s': State, q: int)
    requires Runs(s, c, p) && ExitStep(s, c, p, e, s') && IsProc(s, q) && e.ReparentLock?
    ensures |s'.procs| == |s.procs| && s'.cpus == s.cpus && s'.procs[q].on == s.procs[q].on && ProcOk(s', q)
  {
    hide Placed, LocksOk;
    Both(s, c, p, q);
    Bystander(s, c, p, q);
  }

  lemma ReparentUnlockPlaced(s: State, c: int, p: int, e: Event, s': State, q: int)
    requires Runs(s, c, p) && ExitStep(s, c, p, e, s') && IsProc(s, q) && e.ReparentUnlock?
    ensures |s'.procs| == |s.procs| && s'.cpus == s.cpus && s'.procs[q].on == s.procs[q].on && ProcOk(s', q)
  {
    hide Placed, LocksOk;
    Both(s, c, p, q);
    Bystander(s, c, p, q);
  }

  lemma BecomeZombiePlaced(s: State, c: int, p: int, e: Event, s': State, q: int)
    requires Runs(s, c, p) && ExitStep(s, c, p, e, s') && IsProc(s, q) && e.BecomeZombie?
    ensures |s'.procs| == |s.procs| && s'.cpus == s.cpus && s'.procs[q].on == s.procs[q].on && ProcOk(s', q)
  {
    hide Placed, LocksOk;
    Both(s, c, p, q);
    Bystander(s, c, p, q);
  }

  lemma ExitUnlockPlaced(s: State, c: int, p: int, e: Event, s': State, q: int)
    requires Runs(s, c, p) && ExitStep(s, c, p, e, s') && IsProc(s, q) && e.ExitUnlock?
    ensures |s'.procs| == |s.procs| && s'.cpus == s.cpus && s'.procs[q].on == s.procs[q].on && ProcOk(s', q)
  {
    hide Placed, LocksOk;
    Both(s, c, p, q);
    Bystander(s, c, p, q);
  }

  lemma WaitPlacedAt(s: State, c: int, p: int, e: Event, s': State, q: int)
    requires Runs(s, c, p) && WaitStep(s, c, p, e, s') && IsProc(s, q)
    ensures |s'.procs| == |s.procs| && s'.cpus == s.cpus && s'.procs[q].on == s.procs[q].on && ProcOk(s', q)
  {
    hide Placed, LocksOk;
    Both(s, c, p, q);
    Bystander(s, c, p, q);
  }

  lemma ReapPlacedAt(s: State, c: int, p: int, e: Event, s': State, q: int)
    requires Runs(s, c, p) && ReapStep(s, c, p, e, s') && IsProc(s, q)
    ensures |s'.procs| == |s.procs| && s'.cpus == s.cpus && s'.procs[q].on == s.procs[q].on && ProcOk(s', q)
  {
    hide Placed, LocksOk;
    Both(s, c, p, q);
    Bystander(s, c, p, q);
  }

  lemma MovedKeepsLk(s: State, c: int, p: int, s': State)
    requires Runs(s, c, p) && LkOk(s) && |s'.procs| == |s.procs| && Moved(s, c, p, s')
    ensures LkOk(s')
  {
    hide LocksOk;
    forall d | 0 <= d < |s'.cpus|
      ensures ClaimsLk(s', d) <==> s'.lk == d
    {
      assert ClaimsLk(s, d) <==> s.lk == d;
      assert ClaimsLk(s, c) <==> s.lk == c;
      assert CpuOk(s, c) && CpuOk(s, d);
    }
  }

  // ---------------------------------------------------------------- sleep and wakeup

  /** Only the holder of lk is in a part of the code that holds it. */
  lemma LkHolder(s: State, q: int)
    requires Placed(s) && LkOk(s) && IsProc(s, q) && HoldsLk(s.procs[q].pc)
    ensures s.procs[q].on != -1 && s.lk == s.procs[q].on && 0 <= s.lk < |s.cpus| && s.cpus[s.lk].spc == Run(q)
  {
    assert ProcOk(s, q);
    assert ClaimsLk(s, s.procs[q].on) <==> s.lk == s.procs[q].on;
  }

  /** Thread p holds lk or nobody does, so no other process is in code that holds it. */
  lemma OnlyHolder(s: State, c: int, p: int, q: int)
    requires Runs(s, c, p) && LkOk(s) && IsProc(s, q) && q != p && (s.lk == -1 || s.lk == c)
    ensures !HoldsLk(s.procs[q].pc)
  {
    hide Placed, LocksOk, LkOk;
    if HoldsLk(s.procs[q].pc) {
      LkHolder(s, q);
    }
  }

  /** A step that touches neither the condition nor anybody's way to sleep. */
  ghost predicate Quiet(s: State, s': State) {
    && |s'.procs| == |s.procs| && s'.lk == s.lk && s'.sigma == s.sigma && s'.changed == s.changed && s'.woken == s.woken
    && forall q :: IsProc(s, q) ==> QuietAt(s.procs[q], s'.procs[q])
  }

  predicate QuietAt(pr: Proc, pr': Proc) {
    && (Committed(pr') ==> Committed(pr))
    && (HoldsLk(pr'.pc) ==> pr'.pc == pr.pc)
  }

  lemma QuietKeepsWake(ready: (int, int) -> bool, s: State, s': State)
    requires WakeOk(ready, s) && Quiet(s, s')
    ensures WakeOk(ready, s')
  {
    forall p, q | IsProc(s', p) && IsProc(s', q)
      ensures Swept(s'.procs[q].pc, p, s'.procs[p])
    {
      assert Swept(s.procs[q].pc, p, s.procs[p]);
      assert QuietAt(s.procs[p], s'.procs[p]) && QuietAt(s.procs[q], s'.procs[q]);
    }
  }

  lemma OwnQuiet(s: State, c: int, p: int, e: Event, s': State)
    requires Runs(s, c, p) && OwnStep(s, c, p, e, s')
    ensures Quiet(s, s')
  {
    hide Placed, LocksOk;
  }

  lemma KillQuiet(s: State, c: int, p: int, e: Event, s': State)
    requires Runs(s, c, p) && KillStep(s, c, p, e, s')
    ensures Quiet(s, s')
  {
    hide Placed, LocksOk;
  }

  lemma ForkQuiet(s: State, c: int, p: int, e: Event, s': State)
    requires Runs(s, c, p) && ForkStep(s, c, p, e, s')
    ensures Quiet(s, s')
  {
    hide Placed, LocksOk;
  }

  lemma LeaveQuiet(s: State, c: int, p: int, e: Event, s': State)
    requires Runs(s, c, p) && LeaveStep(s, c, p, e, s')
    ensures Quiet(s, s')
  {
    hide Placed, LocksOk;
  }

  lemma ReparentQuiet(s: State, c: int, p: int, e: Event, s': State)
    requires Runs(s, c, p) && ExitStep(s, c, p, e, s') && (e.ReparentLock? || e.ReparentUnlock?)
    ensures Quiet(s, s')
  {
    hide Placed, LocksOk;
  }

  lemma ParentQuiet(s: State, c: int, p: int, e: Event, s': State)
    requires Runs(s, c, p) && ExitStep(s, c, p, e, s') && !e.ReparentLock? && !e.ReparentUnlock?
    ensures Quiet(s, s')
  {
    hide Placed, LocksOk;
  }

  lemma ExitQuiet(s: State, c: int, p: int, e: Event, s': State)
    requires Runs(s, c, p) && ExitStep(s, c, p, e, s')
    ensures Quiet(s, s')
  {
    hide Runs, ExitStep, Quiet;
    if e.ReparentLock? || e.ReparentUnlock? {
      ReparentQuiet(s, c, p, e, s');
    } else {
      ParentQuiet(s, c, p, e, s');
    }
  }

  lemma WaitQuiet(s: State, c: int, p: int, e: Event, s': State)
    requires Runs(s, c, p) && WaitStep(s, c, p, e, s')
    ensures Quiet(s, s')
  {
    hide Placed, LocksOk;
  }

  lemma ReapQuiet(s: State, c: int, p: int, e: Event, s': State)
    requires Runs(s, c, p) && ReapStep(s, c, p, e, s')
    ensures Quiet(s, s')
  {
    hide Placed, LocksOk;
  }

  lemma CondWake(ready: (int, int) -> bool, s: State, c: int, p: int, e: Event, s': State)
    requires Runs(s, c, p) && LkOk(s) && WakeOk(ready, s) && CondStep(ready, s, c, p, e, s')
    ensures WakeOk(ready, s')
  {
    hide Placed, LocksOk, LkOk;
    HeldLk(s, c, p);
    forall q | IsProc(s, q) && q != p
      ensures !HoldsLk(s.procs[q].pc)
    {
      OnlyHolder(s, c, p, q);
    }
    forall x, q | IsProc(s', x) && IsProc(s', q)
      ensures Swept(s'.procs[q].pc, x, s'.procs[x])
    {
      assert Swept(s.procs[q].pc, x, s.procs[x]);
    }
  }

  lemma SleepWake(ready: (int, int) -> bool, s: State, c: int, p: int, e: Event, s': State)
    requires Runs(s, c, p) && LkOk(s) && WakeOk(ready, s) && SleepStep(ready, s, c, p, e, s')
    ensures WakeOk(ready, s')
  {
    hide Placed, LocksOk, LkOk;
    HeldLk(s, c, p);
    if HoldsLk(s.procs[p].pc) {
      forall q | IsProc(s, q) && q != p
        ensures !HoldsLk(s.procs[q].pc)
      {
        OnlyHolder(s, c, p, q);
      }
    }
    forall x, q | IsProc(s', x) && IsProc(s', q)
      ensures Swept(s'.procs[q].pc, x, s'.procs[x])
    {
      assert Swept(s.procs[q].pc, x, s.procs[x]);
    }
  }

  lemma WakeSweeps(ready: (int, int) -> bool, s: State, c: int, p: int, e: Event, s': State, x: int, q: int)
    requires Runs(s, c, p) && LkOk(s) && WakeOk(ready, s) && WakeStep(s, c, p, e, s') && IsProc(s', x) && IsProc(s', q)
    ensures Swept(s'.procs[q].pc, x, s'.procs[x])
  {
    hide Placed, LocksOk, LkOk;
    HeldLk(s, c, p);
    if q != p {
      OnlyHolder(s, c, p, q);
    }
    if e.WakeLock? {
      FreeNotSettling(s, s.procs[p].pc.i);
    }
    assert Swept(s.procs[q].pc, x, s.procs[x]);
  }

  lemma WakeWake(ready: (int, int) -> bool, s: State, c: int, p: int, e: Event, s': State)
    requires Runs(s, c, p) && LkOk(s) && WakeOk(ready, s) && WakeStep(s, c, p, e, s')
    ensures WakeOk(ready, s')
  {
    hide Placed, LocksOk, LkOk;
    HeldLk(s, c, p);
    forall q | IsProc(s, q) && q != p
      ensures !HoldsLk(s.procs[q].pc)
    {
      OnlyHolder(s, c, p, q);
    }
    forall x, q | IsProc(s', x) && IsProc(s', q)
      ensures Swept(s'.procs[q].pc, x, s'.procs[x])
    {
      WakeSweeps(ready, s, c, p, e, s', x, q);
    }
    if e.WakeEnd? {
      forall x | IsProc(s, x)
        ensures !Committed(s.procs[x])
      {
        assert Swept(s.procs[p].pc, x, s.procs[x]);
      }
    }
  }

  /** A process with a free lock is not in the middle of going to sleep. */
  lemma FreeNotSettling(s: State, i: int)
    requires Placed(s) && LocksOk(s) && IsProc(s, i) && s.procs[i].lock == -1
    ensures !s.procs[i].pc.SleepOwn? && !s.procs[i].pc.SleepSched?
            && (s.procs[i].pc.SleepRet? ==> s.procs[i].chan == Cond)
  {
    assert ProcOk(s, i);
    var d := s.procs[i].on;
    assert d != -1 ==> (Claims(s, d, i) <==> s.procs[i].lock == d);
  }

  // ---------------------------------------------------------------- every step

  lemma ThreadKeeps(ready: (int, int) -> bool, s: State, c: int, p: int, e: Event, s': State)
    requires Inv(ready, s) && Runs(s, c, p) && ThreadStep(ready, s, c, p, e, s') && !e.Swtch?
    ensures Inv(ready, s')
  {
    hide Placed, LocksOk, LkOk, WakeOk, SwtchStep, OwnStep, CondStep, SleepStep, WakeStep, KillStep, ForkStep,
         LeaveStep, ExitStep, WaitStep, ReapStep, Moved, Quiet;
    NotSwtch(s, c, p, e, s');
    ThreadMovesAll(ready, s, c, p, e, s');
    MovedCpus(s, c, p, s');
    MovedKeepsLocks(s, c, p, s');
    MovedKeepsLk(s, c, p, s');
    ThreadPlacedAll(ready, s, c, p, e, s');
    if CondStep(ready, s, c, p, e, s') {
      CondWake(ready, s, c, p, e, s');
    } else if SleepStep(ready, s, c, p, e, s') {
      SleepWake(ready, s, c, p, e, s');
    } else if WakeStep(s, c, p, e, s') {
      WakeWake(ready, s, c, p, e, s');
    } else {
      ThreadQuiet(s, c, p, e, s');
      QuietKeepsWake(ready, s, s');
    }
  }

  lemma MovedCpus(s: State, c: int, p: int, s': State)
    requires IsProc(s, p) && |s'.procs| == |s.procs| && Moved(s, c, p, s')
    ensures s'.cpus == s.cpus
  {
  }

  lemma NotSwtch(s: State, c: int, p: int, e: Event, s': State)
    requires 0 <= c < |s.cpus| && IsProc(s, p) && !e.Swtch?
    ensures !SwtchStep(s, c, p, e, s')
  {
  }

  lemma ThreadQuiet(s: State, c: int, p: int, e: Event, s': State)
    requires Runs(s, c, p)
    requires || OwnStep(s, c, p, e, s') || KillStep(s, c, p, e, s') || ForkStep(s, c, p, e, s')
             || LeaveStep(s, c, p, e, s')
             || ExitStep(s, c, p, e, s')
             || WaitStep(s, c, p, e, s') || ReapStep(s, c, p, e, s')
    ensures Quiet(s, s')
  {
    hide Placed, LocksOk, OwnStep, KillStep, ForkStep, LeaveStep, ExitStep, WaitStep, ReapStep, Quiet;
    if OwnStep(s, c, p, e, s') { OwnQuiet(s, c, p, e, s'); }
    else if KillStep(s, c, p, e, s') { KillQuiet(s, c, p, e, s'); }
    else if ForkStep(s, c, p, e, s') { ForkQuiet(s, c, p, e, s'); }
    else if LeaveStep(s, c, p, e, s') { LeaveQuiet(s, c, p, e, s'); }
    else if ExitStep(s, c, p, e, s') { ExitQuiet(s, c, p, e, s'); }
    else if WaitStep(s, c, p, e, s') { WaitQuiet(s, c, p, e, s'); }
    else { ReapQuiet(s, c, p, e, s'); }
  }

  lemma ThreadMovesAll(ready: (int, int) -> bool, s: State, c: int, p: int, e: Event, s': State)
    requires Runs(s, c, p) && LkOk(s) && ThreadStep(ready, s, c, p, e, s') && !SwtchStep(s, c, p, e, s')
    ensures |s'.procs| == |s.procs| && Moved(s, c, p, s')
  {
    hide Placed, LocksOk, LkOk, SwtchStep, OwnStep, CondStep, SleepStep, WakeStep, KillStep, ForkStep, LeaveStep,
         ExitStep, WaitStep, ReapStep, Moved;
    if OwnStep(s, c, p, e, s') { OwnMoves(s, c, p, e, s'); }
    else if CondStep(ready, s, c, p, e, s') { CondMoves(ready, s, c, p, e, s'); }
    else if SleepStep(ready, s, c, p, e, s') { SleepMoves(ready, s, c, p, e, s'); }
    else if WakeStep(s, c, p, e, s') { WakeMoves(s, c, p, e, s'); }
    else if KillStep(s, c, p, e, s') { KillMoves(s, c, p, e, s'); }
    else if ForkStep(s, c, p, e, s') { ForkMoves(s, c, p, e, s'); }
    else if LeaveStep(s, c, p, e, s') { LeaveMoves(s, c, p, e, s'); }
    else if ExitStep(s, c, p, e, s') { ExitMoves(s, c, p, e, s'); }
    else if WaitStep(s, c, p, e, s') { WaitMoves(s, c, p, e, s'); }
    else { ReapMoves(s, c, p, e, s'); }
  }

  lemma ThreadPlacedAll(ready: (int, int) -> bool, s: State, c: int, p: int, e: Event, s': State)
    requires Runs(s, c, p) && ThreadStep(ready, s, c, p, e, s') && !SwtchStep(s, c, p, e, s')
    requires |s'.procs| == |s.procs| && s'.cpus == s.cpus
    ensures Placed(s')
  {
    hide Placed, LocksOk, SwtchStep, OwnStep, CondStep, SleepStep, WakeStep, KillStep, ForkStep, LeaveStep, ExitStep,
         WaitStep, ReapStep, ProcOk;
    forall q | IsProc(s, q)
      ensures s'.procs[q].on == s.procs[q].on && ProcOk(s', q)
    {
      if OwnStep(s, c, p, e, s') { OwnPlacedAt(s, c, p, e, s', q); }
      else if CondStep(ready, s, c, p, e, s') { CondPlacedAt(ready, s, c, p, e, s', q); }
      else if SleepStep(ready, s, c, p, e, s') { SleepPlacedAt(ready, s, c, p, e, s', q); }
      else if WakeStep(s, c, p, e, s') { WakePlacedAt(s, c, p, e, s', q); }
      else if KillStep(s, c, p, e, s') { KillPlacedAt(s, c, p, e, s', q); }
      else if ForkStep(s, c, p, e, s') { ForkPlacedAt(s, c, p, e, s', q); }
      else if LeaveStep(s, c, p, e, s') { LeavePlacedAt(s, c, p, e, s', q); }
      else if ExitStep(s, c, p, e, s') { ExitPlacedAt(s, c, p, e, s', q); }
      else if WaitStep(s, c, p, e, s') { WaitPlacedAt(s, c, p, e, s', q); }
      else { ReapPlacedAt(s, c, p, e, s', q); }
    }
    ThreadPlaced(s, s');
  }

  /** sched() finds what it checks for: p->lock held by this CPU and no other lock, and the state changed. */
  lemma SchedChecks(ready: (int, int) -> bool, s: State, c: int, s': State)
    requires Inv(ready, s) && Step(ready, s, c, Swtch, s')
    ensures var p := s.cpus[c].spc.p;
            && s.cpus[c].spc.Run? && IsProc(s, p) && s.procs[p].lock == c && !s.procs[p].state.RUNNING? && s.lk != c
            && forall i :: IsProc(s, i) && s.procs[i].lock == c ==> i == p
  {
    hide LocksOk, LkOk, WakeOk;
    var p := s.cpus[c].spc.p;
    Both(s, c, p, p);
    HeldLk(s, c, p);
    forall i | IsProc(s, i)
      ensures s.procs[i].lock == c <==> i == p
    {
      Held(s, c, p, i);
    }
  }

  lemma SwtchKeeps(ready: (int, int) -> bool, s: State, c: int, p: int, s': State)
    requires Inv(ready, s) && Runs(s, c, p) && SwtchStep(s, c, p, Swtch, s')
    ensures Inv(ready, s')
  {
    SwtchPlaced(s, c, p, s');
    SwtchLocks(s, c, p, s');
    SwtchLk(s, c, p, s');
    hide Placed, LocksOk, LkOk;
    assert Quiet(s, s');
    QuietKeepsWake(ready, s, s');
  }

  lemma SwtchPlaced(s: State, c: int, p: int, s': State)
    requires Runs(s, c, p) && SwtchStep(s, c, p, Swtch, s')
    ensures Placed(s')
  {
    Both(s, c, p, p);
    forall q | IsProc(s', q)
      ensures ProcOk(s', q)
    {
      assert ProcOk(s, q);
    }
    forall d | 0 <= d < |s'.cpus|
      ensures CpuOk(s', d)
    {
      assert CpuOk(s, d);
    }
  }

  lemma SwtchLocks(s: State, c: int, p: int, s': State)
    requires Runs(s, c, p) && SwtchStep(s, c, p, Swtch, s')
    ensures LocksOk(s')
  {
    forall d, i | 0 <= d < |s'.cpus| && IsProc(s', i)
      ensures Claims(s', d, i) <==> s'.procs[i].lock == d
    {
      assert Claims(s, d, i) <==> s.procs[i].lock == d;
      assert CpuOk(s, c) && CpuOk(s, d);
    }
  }

  lemma SwtchLk(s: State, c: int, p: int, s': State)
    requires Runs(s, c, p) && LkOk(s) && SwtchStep(s, c, p, Swtch, s')
    ensures LkOk(s')
  {
    forall d | 0 <= d < |s'.cpus|
      ensures ClaimsLk(s', d) <==> s'.lk == d
    {
      assert ClaimsLk(s, d) <==> s.lk == d;
      assert CpuOk(s, c) && CpuOk(s, d);
    }
  }

  lemma SchedPlaced(s: State, c: int, e: Event, s': State)
    requires Placed(s) && LocksOk(s) && 0 <= c < |s.cpus| && !s.cpus[c].spc.Run? && SchedStep(s, c, e, s')
    ensures Placed(s')
  {
    assert CpuOk(s, c);
    if e.SchedRun? {
      var p := s.cpus[c].spc.p;
      assert ProcOk(s, p);
      assert Claims(s, c, p) <==> s.procs[p].lock == c;
      OnNoCpu(s, p);
    }
    forall q | IsProc(s', q)
      ensures ProcOk(s', q)
    {
      assert ProcOk(s, q);
    }
    forall d | 0 <= d < |s'.cpus|
      ensures CpuOk(s', d)
    {
      assert CpuOk(s, d);
    }
  }

  lemma SchedLocks(s: State, c: int, e: Event, s': State)
    requires Placed(s) && LocksOk(s) && 0 <= c < |s.cpus| && !s.cpus[c].spc.Run? && SchedStep(s, c, e, s')
    ensures LocksOk(s')
  {
    assert CpuOk(s, c);
    if e.SchedRun? {
      var p := s.cpus[c].spc.p;
      assert ProcOk(s, p);
      assert Claims(s, c, p) <==> s.procs[p].lock == c;
      OnNoCpu(s, p);
    }
    forall d, i | 0 <= d < |s'.cpus| && IsProc(s', i)
      ensures Claims(s', d, i) <==> s'.procs[i].lock == d
    {
      assert Claims(s, d, i) <==> s.procs[i].lock == d;
      assert Claims(s, c, i) <==> s.procs[i].lock == c;
      assert CpuOk(s, d);
    }
  }

  lemma SchedLk(s: State, c: int, e: Event, s': State)
    requires Placed(s) && LocksOk(s) && LkOk(s) && 0 <= c < |s.cpus| && !s.cpus[c].spc.Run? && SchedStep(s, c, e, s')
    ensures LkOk(s')
  {
    assert CpuOk(s, c);
    if e.SchedRun? {
      var p := s.cpus[c].spc.p;
      assert ProcOk(s, p);
      assert Claims(s, c, p) <==> s.procs[p].lock == c;
      OnNoCpu(s, p);
    }
    forall d | 0 <= d < |s'.cpus|
      ensures ClaimsLk(s', d) <==> s'.lk == d
    {
      assert ClaimsLk(s, d) <==> s.lk == d;
      assert CpuOk(s, d);
    }
  }

  lemma SchedKeeps(ready: (int, int) -> bool, s: State, c: int, e: Event, s': State)
    requires Inv(ready, s) && 0 <= c < |s.cpus| && !s.cpus[c].spc.Run? && SchedStep(s, c, e, s')
    ensures Inv(ready, s')
  {
    hide Placed, LocksOk, LkOk, WakeOk;
    SchedPlaced(s, c, e, s');
    SchedLocks(s, c, e, s');
    SchedLk(s, c, e, s');
    assert Quiet(s, s');
    QuietKeepsWake(ready, s, s');
  }

  /** Every step of every CPU keeps the invariant. */
  lemma StepKeeps(ready: (int, int) -> bool, s: State, c: int, e: Event, s': State)
    requires Inv(ready, s) && Step(ready, s, c, e, s')
    ensures Inv(ready, s')
  {
    hide Placed, LocksOk, LkOk, WakeOk, ThreadStep, SchedStep, SwtchStep;
    if s.cpus[c].spc.Run? {
      var p := s.cpus[c].spc.p;
      if e.Swtch? {
        OnlySwtch(ready, s, c, p, s');
        SwtchKeeps(ready, s, c, p, s');
      } else {
        ThreadKeeps(ready, s, c, p, e, s');
      }
    } else {
      SchedKeeps(ready, s, c, e, s');
    }
  }

  lemma OnlySwtch(ready: (int, int) -> bool, s: State, c: int, p: int, s': State)
    requires 0 <= c < |s.cpus| && IsProc(s, p) && ThreadStep(ready, s, c, p, Swtch, s')
    ensures SwtchStep(s, c, p, Swtch, s')
  {
  }

  // ---------------------------------------------------------------- whole runs

  /** A step of some CPU. */
  datatype Action = Action(c: int, e: Event)

  ghost predicate IsRun(ready: (int, int) -> bool, ss: seq<State>, acts: seq<Action>) {
    && |ss| == |acts| + 1 && Init(ss[0])
    && forall i :: 0 <= i < |acts| ==> Step(ready, ss[i], acts[i].c, acts[i].e, ss[i + 1])
  }

  lemma {:induction false} Reachable(ready: (int, int) -> bool, ss: seq<State>, acts: seq<Action>, n: nat)
    requires IsRun(ready, ss, acts) && n <= |acts|
    ensures Inv(ready, ss[n])
  {
    hide Inv, Step;
    if n == 0 {
      InitInv(ready, ss[0]);
    } else {
      Reachable(ready, ss, acts, n - 1);
      StepKeeps(ready, ss[n - 1], acts[n - 1].c, acts[n - 1].e, ss[n]);
    }
  }

  /** While the condition lock is free, nobody sleeps on the channel although their condition holds. */
  lemma Settled(ready: (int, int) -> bool, s: State, p: int)
    requires Inv(ready, s) && IsProc(s, p)
    ensures s.lk == -1 && s.procs[p].state.SLEEPING? && s.procs[p].chan == Cond ==> !ready(p, s.sigma)
  {
    hide LocksOk, LkOk;
    assert ProcOk(s, p);
  }

  /** No lost wakeup: in every reachable state in which the condition lock is free, no
      process sleeps on the channel although its condition holds. */
  lemma NoLostWakeup(ready: (int, int) -> bool, ss: seq<State>, acts: seq<Action>, n: nat, p: int)
    requires IsRun(ready, ss, acts) && n <= |acts| && 0 <= p < |ss[n].procs|
    ensures ss[n].lk == -1 && ss[n].procs[p].state.SLEEPING? && ss[n].procs[p].chan == Cond ==> !ready(p, ss[n].sigma)
  {
    hide Step, Inv;
    Reachable(ready, ss, acts, n);
    Settled(ready, ss[n], p);
  }

  /** Lock hand-off: at most one CPU executes on a process's stack; while p->lock is
      free, p is RUNNING exactly if some CPU has c->proc == p, and then only one. */
  lemma HandOff(ready: (int, int) -> bool, ss: seq<State>, acts: seq<Action>, n: nat, p: int)
    requires IsRun(ready, ss, acts) && n <= |acts| && 0 <= p < |ss[n].procs|
    ensures var s := ss[n];
            && (forall c, d ::
                  0 <= c < |s.cpus| && 0 <= d < |s.cpus| && s.cpus[c].spc == Run(p) && s.cpus[d].spc == Run(p) ==>
                    c == d)
            && (s.procs[p].lock == -1 ==>
                  && (s.procs[p].state.RUNNING? <==> exists c :: 0 <= c < |s.cpus| && s.cpus[c].proc == p)
                  && (forall c, d ::
                        0 <= c < |s.cpus| && 0 <= d < |s.cpus| && s.cpus[c].proc == p && s.cpus[d].proc == p ==>
                          c == d))
  {
    hide Step, LkOk, WakeOk;
    Reachable(ready, ss, acts, n);
    var s := ss[n];
    assert ProcOk(s, p);
    forall c | 0 <= c < |s.cpus|
      ensures s.cpus[c].spc == Run(p) ==> c == s.procs[p].on
      ensures s.procs[p].lock == -1 && s.cpus[c].proc == p ==> s.cpus[c].spc == Run(p) && s.procs[p].state.RUNNING?
    {
      assert CpuOk(s, c);
      assert Claims(s, c, p) <==> s.procs[p].lock == c;
    }
    if s.procs[p].state.RUNNING? {
      assert CpuOk(s, s.procs[p].on);
      assert s.cpus[s.procs[p].on].proc == p;
    }
  }

  /** wait frees a child only when no CPU executes on its stack or still has it as c->proc. */
  lemma ReapIsSafe(ready: (int, int) -> bool, ss: seq<State>, acts: seq<Action>, n: nat)
    requires IsRun(ready, ss, acts) && n < |acts| && acts[n].e.WaitReap?
    ensures var s, c := ss[n], acts[n].c;
            && 0 <= c < |s.cpus| && s.cpus[c].spc.Run? && IsProc(s, s.cpus[c].spc.p)
               && s.procs[s.cpus[c].spc.p].pc.WaitHeld?
            && var i := s.procs[s.cpus[c].spc.p].pc.i;
               && IsProc(s, i) && s.procs[i].on == -1 && s.procs[i].pc.Dead?
               && forall d :: 0 <= d < |s.cpus| ==> s.cpus[d].proc != i && s.cpus[d].spc != Run(i)
  {
    hide LkOk, WakeOk;
    Reachable(ready, ss, acts, n);
    var s, c := ss[n], acts[n].c;
    assert Step(ready, s, c, acts[n].e, ss[n + 1]);
    var p := s.cpus[c].spc.p;
    var i := s.procs[p].pc.i;
    Held(s, c, p, i);
    OnNoCpu(s, i);
    assert ProcOk(s, i);
    forall d | 0 <= d < |s.cpus|
      ensures s.cpus[d].proc != i && s.cpus[d].spc != Run(i)
    {
      assert CpuOk(s, d);
      assert Claims(s, d, i) <==> s.procs[i].lock == d;
    }
  }
}
