/**
 The process table protocol of kernel/proc.c as a state machine over
 interleaved steps. A step is a critical section, or the part of one between
 two lock operations where another CPU could see the difference; a step that
 needs a lock is enabled only while the lock is free. swtch is a transfer of
 control on one CPU that carries p->lock along.
 */
module ProcTable {

  datatype RunState = UNUSED | USED | SLEEPING | RUNNABLE | RUNNING | ZOMBIE

  /** Sleep channels: none, a struct proc (wait), anything else. */
  datatype Chan = NoChan | ProcChan(p: int) | OtherChan(n: int)

  /**
   Where a process is in the kernel.
     Ret           in yield or forkret, resumed by the scheduler with p->lock held
     Asleep        in sleep on some other channel, likewise
     ForkCopy(np)  in fork, holding np->lock
     ForkLink(np)  in fork, np->lock released, np->parent not yet set
     ForkRun(np)   in fork, np->parent set
     ExitReparent, ExitWakeInit, ExitWakeParent
                   in exit with wait_lock, in the loops of reparent and wakeup
     ExitZombie    in exit with wait_lock and p->lock, state set
     ExitDone      in exit with p->lock only
     Dead          switched away for good
     WaitScan(i)   in wait with wait_lock, about to look at slot i
     WaitLocked    in sleep called from wait, with wait_lock and p->lock
     WaitDozing    in sleep called from wait, with p->lock only
     WaitAsleep    switched away in sleep called from wait
     WaitAgain     woken up, about to acquire wait_lock again
   At ForkLink, ForkRun and WaitAgain no spinlock is held, so that a timer
   interrupt may make the process yield; while it holds p->lock there, it is in
   that yield.
   */
  datatype Pc =
    | User
    | Ret
    | Asleep
    | ForkCopy(np: int)
    | ForkLink(np: int)
    | ForkRun(np: int)
    | ExitReparent(i: int)
    | ExitWakeInit(i: int, j: int)
    | ExitWakeParent(j: int)
    | ExitZombie
    | ExitDone
    | Dead
    | WaitScan(i: int, kids: bool)
    | WaitLocked
    | WaitDozing
    | WaitAsleep
    | WaitAgain
  {
    predicate HoldsWaitLock() {
      ExitReparent? || ExitWakeInit? || ExitWakeParent? || ExitZombie? || WaitScan? || WaitLocked?
    }

    predicate HoldsOwnLock() {
      Ret? || Asleep? || WaitAsleep? || ExitZombie? || ExitDone? || WaitLocked? || WaitDozing?
    }

    predicate Preemptible() {
      ForkLink? || ForkRun? || WaitAgain?
    }

    predicate Forking() {
      ForkCopy? || ForkLink? || ForkRun?
    }
  }

  /**
   struct proc. `lock` is the CPU that holds p->lock and `parent` a slot, -1 for
   none. `on` is history: the CPU whose c->proc is this process, -1 for none.
   */
  datatype Proc = Proc(state: RunState, chan: Chan, parent: int, pid: int, killed: bool, lock: int, pc: Pc, on: int)

  /** A CPU in the scheduler loop, running a process, or just switched away from one. */
  datatype Mode = Idle | Run | Back

  datatype Cpu = Cpu(proc: int, mode: Mode)

  /** `waitLock` is the process that holds wait_lock, -1 for none; `reaped` the pids that wait has returned. */
  datatype Sys = Sys(procs: seq<Proc>, cpus: seq<Cpu>, waitLock: int, nextPid: int, init: int, reaped: seq<int>)

  predicate IsProc(s: Sys, p: int) {
    0 <= p < |s.procs|
  }

  predicate IsCpu(s: Sys, c: int) {
    0 <= c < |s.cpus|
  }

  /** Process `p` executes on CPU `c`. */
  predicate Executes(s: Sys, c: int, p: int) {
    IsCpu(s, c) && IsProc(s, p) && s.cpus[c] == Cpu(p, Run)
  }

  predicate Alive(r: RunState) {
    r.SLEEPING? || r.RUNNABLE? || r.RUNNING?
  }

  /** Asleep in wait, or past the point of releasing wait_lock on the way there. */
  predicate Waits(q: Proc) {
    q.pc.WaitDozing? || (q.pc.WaitAsleep? && q.state.SLEEPING?)
  }

  // ----- Steps -----

  function Set(s: Sys, p: int, q: Proc): Sys
    requires IsProc(s, p)
  {
    s.(procs := s.procs[p := q])
  }

  function SetCpu(s: Sys, c: int, q: Cpu): Sys
    requires IsCpu(s, c)
  {
    s.(cpus := s.cpus[c := q])
  }

  /** scheduler finds p RUNNABLE and switches to it, leaving p->lock to p. */
  predicate SchedRun(s: Sys, s': Sys, c: int, p: int) {
    && IsCpu(s, c) && IsProc(s, p) && s.cpus[c].mode.Idle?
    && s.procs[p].lock == -1 && s.procs[p].state.RUNNABLE?
    && s' == SetCpu(Set(s, p, s.procs[p].(state := RUNNING, lock := c, on := c)), c, Cpu(p, Run))
  }

  /** scheduler after swtch returns: c->proc = 0, release p->lock. */
  predicate SchedRelease(s: Sys, s': Sys, c: int) {
    && IsCpu(s, c) && s.cpus[c].mode.Back? && IsProc(s, s.cpus[c].proc)
    && var p := s.cpus[c].proc;
    && s' == SetCpu(Set(s, p, s.procs[p].(lock := -1, on := -1)), c, Cpu(-1, Idle))
  }

  /** The end of yield, forkret, or sleep on another channel: release p->lock. */
  predicate Resume(s: Sys, s': Sys, c: int, p: int) {
    && Executes(s, c, p) &&
        (s.procs[p].pc.Ret? || s.procs[p].pc.Asleep? || (s.procs[p].pc.Preemptible() && s.procs[p].lock == c))
    && var q := s.procs[p];
    && var pc := if q.pc.Preemptible() then q.pc else User;
    && s' == Set(s, p, q.(chan := if q.pc.Asleep? then NoChan else q.chan, lock := -1, pc := pc))
  }

  predicate ResumeWait(s: Sys, s': Sys, c: int, p: int) {
    && Executes(s, c, p) && s.procs[p].pc.WaitAsleep?
    && s' == Set(s, p, s.procs[p].(chan := NoChan, lock := -1, pc := WaitAgain))
  }

  /** A timer interrupt, in user space or in the kernel where no spinlock is held. */
  predicate Yield(s: Sys, s': Sys, c: int, p: int) {
    && Executes(s, c, p) && (s.procs[p].pc.User? || s.procs[p].pc.Preemptible()) && s.procs[p].lock == -1
    && var q := s.procs[p];
    && var pc := if q.pc.User? then Ret else q.pc;
    && s' == SetCpu(Set(s, p, q.(state := RUNNABLE, lock := c, pc := pc)), c, Cpu(p, Back))
  }

  predicate SleepOther(s: Sys, s': Sys, c: int, p: int, n: int) {
    && Executes(s, c, p) && s.procs[p].pc.User? && s.procs[p].lock == -1
    && var q := s.procs[p].(state := SLEEPING, chan := OtherChan(n), lock := c, pc := Asleep);
    && s' == SetCpu(Set(s, p, q), c, Cpu(p, Back))
  }

  /** wakeup on some other channel reaches process q. */
  predicate WakeOther(s: Sys, s': Sys, q: int) {
    && IsProc(s, q) && s.procs[q].lock == -1 && s.procs[q].state.SLEEPING? && s.procs[q].chan.OtherChan?
    && s' == Set(s, q, s.procs[q].(state := RUNNABLE))
  }

  /** kill(pid) finds its pid in slot q; a slot that is not in use has pid 0. */
  predicate Kill(s: Sys, s': Sys, q: int, pid: int) {
    && IsProc(s, q) && s.procs[q].lock == -1 && s.procs[q].pid == pid
    && var state := if s.procs[q].state.SLEEPING? then RUNNABLE else s.procs[q].state;
    && s' == Set(s, q, s.procs[q].(killed := true, state := state))
  }

  /** allocproc finds slot np unused and keeps its lock. It leaves p->killed alone. */
  predicate ForkAlloc(s: Sys, s': Sys, c: int, p: int, np: int) {
    && Executes(s, c, p) && s.procs[p].pc.User? && IsProc(s, np) && np != p
    && s.procs[np].lock == -1 && s.procs[np].state.UNUSED?
    && var child := Proc(USED, NoChan, -1, s.nextPid, s.procs[np].killed, c, Ret, -1);
    && s' == Set(Set(s, np, child), p, s.procs[p].(pc := ForkCopy(np)))
             .(nextPid := s.nextPid + 1)
  }

  /** An allocation fails: freeproc(np), release np->lock. */
  predicate ForkFail(s: Sys, s': Sys, c: int, p: int) {
    && Executes(s, c, p) && s.procs[p].pc.ForkCopy? && IsProc(s, s.procs[p].pc.np)
    && s' == Set(Set(s, s.procs[p].pc.np, Proc(UNUSED, NoChan, -1, 0, false, -1, Ret, -1)), p, s.procs[p].(pc := User))
  }

  predicate ForkCopied(s: Sys, s': Sys, c: int, p: int) {
    && Executes(s, c, p) && s.procs[p].pc.ForkCopy? && IsProc(s, s.procs[p].pc.np)
    && var np := s.procs[p].pc.np;
    && s' == Set(Set(s, np, s.procs[np].(lock := -1)), p, s.procs[p].(pc := ForkLink(np)))
  }

  /** np->parent = p under wait_lock. */
  predicate ForkSetParent(s: Sys, s': Sys, c: int, p: int) {
    && Executes(s, c, p) && s.procs[p].pc.ForkLink? && s.procs[p].lock == -1 && IsProc(s, s.procs[p].pc.np) &&
        s.waitLock == -1
    && var np := s.procs[p].pc.np;
    && s' == Set(Set(s, np, s.procs[np].(parent := p)), p, s.procs[p].(pc := ForkRun(np)))
  }

  predicate ForkMakeRunnable(s: Sys, s': Sys, c: int, p: int) {
    && Executes(s, c, p) && s.procs[p].pc.ForkRun? && s.procs[p].lock == -1 && IsProc(s, s.procs[p].pc.np)
    && var np := s.procs[p].pc.np;
    && s.procs[np].lock == -1
    && s' == Set(Set(s, np, s.procs[np].(state := RUNNABLE)), p, s.procs[p].(pc := User))
  }

  predicate ExitBegin(s: Sys, s': Sys, c: int, p: int) {
    && Executes(s, c, p) && s.procs[p].pc.User? && p != s.init && s.waitLock == -1
    && s' == Set(s, p, s.procs[p].(pc := ExitReparent(0))).(waitLock := p)
  }

  /** One turn of reparent's loop; an abandoned child goes to init, who is then woken up. */
  predicate Reparent(s: Sys, s': Sys, c: int, p: int) {
    && Executes(s, c, p) && s.procs[p].pc.ExitReparent? && IsProc(s, s.procs[p].pc.i)
    && var i := s.procs[p].pc.i;
    && var t := Set(s, i, s.procs[i].(parent := s.init));
    && s' == if s.procs[i].parent == p then Set(t, p, t.procs[p].(pc := ExitWakeInit(i, 0)))
             else Set(s, p, s.procs[p].(pc := ExitReparent(i + 1)))
  }

  /** What wakeup does to one process whose lock it holds. */
  function Woken(q: Proc, chan: Chan): Proc {
    if q.state.SLEEPING? && q.chan == chan then q.(state := RUNNABLE) else q
  }

  /** One turn of wakeup(initproc)'s loop inside reparent. */
  predicate WakeInit(s: Sys, s': Sys, c: int, p: int) {
    && Executes(s, c, p) && s.procs[p].pc.ExitWakeInit? && IsProc(s, s.procs[p].pc.j)
    && var i, j := s.procs[p].pc.i, s.procs[p].pc.j;
    && var pc := if j + 1 == |s.procs| then ExitReparent(i + 1) else ExitWakeInit(i, j + 1);
    && if j == p then s' == Set(s, p, s.procs[p].(pc := pc))
       else s.procs[j].lock == -1 && s' == Set(Set(s, j, Woken(s.procs[j], ProcChan(s.init))), p, s.procs[p].(pc := pc))
  }

  predicate ReparentDone(s: Sys, s': Sys, c: int, p: int) {
    && Executes(s, c, p) && s.procs[p].pc.ExitReparent? && s.procs[p].pc.i == |s.procs|
    && s' == Set(s, p, s.procs[p].(pc := ExitWakeParent(0)))
  }

  /** One turn of wakeup(p->parent)'s loop. */
  predicate WakeParent(s: Sys, s': Sys, c: int, p: int) {
    && Executes(s, c, p) && s.procs[p].pc.ExitWakeParent? && IsProc(s, s.procs[p].pc.j)
    && var j := s.procs[p].pc.j;
    && if j == p then s' == Set(s, p, s.procs[p].(pc := ExitWakeParent(j + 1)))
       else
         && s.procs[j].lock == -1
         && var q := Woken(s.procs[j], ProcChan(s.procs[p].parent));
         && s' == Set(Set(s, j, q), p, s.procs[p].(pc := ExitWakeParent(j + 1)))
  }

  /** acquire p->lock, state = ZOMBIE. */
  predicate BecomeZombie(s: Sys, s': Sys, c: int, p: int) {
    && Executes(s, c, p) && s.procs[p].pc.ExitWakeParent? && s.procs[p].pc.j == |s.procs| && s.procs[p].lock == -1
    && s' == Set(s, p, s.procs[p].(state := ZOMBIE, lock := c, pc := ExitZombie))
  }

  predicate ExitUnlock(s: Sys, s': Sys, c: int, p: int) {
    && Executes(s, c, p) && s.procs[p].pc.ExitZombie?
    && s' == Set(s, p, s.procs[p].(pc := ExitDone)).(waitLock := -1)
  }

  predicate ExitSwitch(s: Sys, s': Sys, c: int, p: int) {
    && Executes(s, c, p) && s.procs[p].pc.ExitDone?
    && s' == SetCpu(Set(s, p, s.procs[p].(pc := Dead)), c, Cpu(p, Back))
  }

  /** wait acquires wait_lock, first or after sleeping. */
  predicate WaitBegin(s: Sys, s': Sys, c: int, p: int) {
    && Executes(s, c, p) && (s.procs[p].pc.User? || s.procs[p].pc.WaitAgain?) && s.procs[p].lock == -1 &&
        s.waitLock == -1
    && s' == Set(s, p, s.procs[p].(pc := WaitScan(0, false))).(waitLock := p)
  }

  /** A slot that is not p's child, or a child that has not exited. */
  predicate WaitSkip(s: Sys, s': Sys, c: int, p: int) {
    && Executes(s, c, p) && s.procs[p].pc.WaitScan? && IsProc(s, s.procs[p].pc.i)
    && var i := s.procs[p].pc.i;
    && (s.procs[i].parent == p ==> s.procs[i].lock == -1 && !s.procs[i].state.ZOMBIE?)
    && s' == Set(s, p, s.procs[p].(pc := WaitScan(i + 1, s.procs[p].pc.kids || s.procs[i].parent == p)))
  }

  /** A zombie child: freeproc it and return its pid. */
  predicate WaitReap(s: Sys, s': Sys, c: int, p: int) {
    && Executes(s, c, p) && s.procs[p].pc.WaitScan? && IsProc(s, s.procs[p].pc.i) && s.procs[p].pc.i != p
    && var i := s.procs[p].pc.i;
    && s.procs[i].parent == p && s.procs[i].lock == -1 && s.procs[i].state.ZOMBIE?
    && s' == Set(Set(s, i, Proc(UNUSED, NoChan, -1, 0, false, -1, Ret, -1)), p, s.procs[p].(pc := User))
             .(waitLock := -1, reaped := s.reaped + [s.procs[i].pid])
  }

  /** A zombie child whose status cannot be copied out, or nothing to wait for: wait returns -1. */
  predicate WaitReturn(s: Sys, s': Sys, c: int, p: int) {
    && Executes(s, c, p) && s.procs[p].pc.WaitScan?
    && var i := s.procs[p].pc.i;
    && (if IsProc(s, i) then s.procs[i].parent == p && s.procs[i].lock == -1 && s.procs[i].state.ZOMBIE?
        else i == |s.procs| && s.procs[p].lock == -1 && (!s.procs[p].pc.kids || s.procs[p].killed))
    && s' == Set(s, p, s.procs[p].(pc := User)).(waitLock := -1)
  }

  /** sleep(p, &wait_lock): acquire p->lock. */
  predicate WaitLock(s: Sys, s': Sys, c: int, p: int) {
    && Executes(s, c, p) && s.procs[p].pc.WaitScan? && s.procs[p].pc.i == |s.procs| && s.procs[p].lock == -1
    && s.procs[p].pc.kids
    && s' == Set(s, p, s.procs[p].(lock := c, pc := WaitLocked))
  }

  /** release wait_lock. */
  predicate WaitUnlock(s: Sys, s': Sys, c: int, p: int) {
    && Executes(s, c, p) && s.procs[p].pc.WaitLocked?
    && s' == Set(s, p, s.procs[p].(pc := WaitDozing)).(waitLock := -1)
  }

  /** chan = p, state = SLEEPING, sched. */
  predicate WaitSleep(s: Sys, s': Sys, c: int, p: int) {
    && Executes(s, c, p) && s.procs[p].pc.WaitDozing?
    && s' == SetCpu(Set(s, p, s.procs[p].(state := SLEEPING, chan := ProcChan(p), pc := WaitAsleep)), c, Cpu(p, Back))
  }

  // ----- The invariant -----

  /** c->proc and `on` agree. */
  ghost predicate CpusOk(s: Sys) {
    && (forall c {:trigger IsCpu(s, c)} :: IsCpu(s, c) ==>
          if s.cpus[c].mode.Idle? then s.cpus[c].proc == -1
          else IsProc(s, s.cpus[c].proc) && s.procs[s.cpus[c].proc].on == c)
    && (forall p {:trigger IsProc(s, p)} :: IsProc(s, p) ==>
          s.procs[p].on == -1 || (IsCpu(s, s.procs[p].on) && s.cpus[s.procs[p].on].proc == p))
  }

  /** A process that has been switched away from and can be found by its state. */
  predicate Parked(q: Proc, p: int) {
    || (q.state.RUNNABLE? && (q.pc.Ret? || q.pc.Asleep? || q.pc.WaitAsleep? || q.pc.Preemptible()))
    || (q.state.SLEEPING? && ((q.pc.Asleep? && q.chan.OtherChan?) || (q.pc.WaitAsleep? && q.chan == ProcChan(p))))
    || (q.state.ZOMBIE? && q.pc.Dead?)
  }

  /** The state, the position in the kernel and the holder of the lock fit together. */
  predicate ProcOk(s: Sys, p: int)
    requires IsProc(s, p)
  {
    var q := s.procs[p];
    if q.on == -1 then
      || (q.state.UNUSED? && q.lock == -1 && q.pc.Ret? && q.parent == -1)
      || (q.state.USED? && q.pc.Ret? && q.chan.NoChan? && q.lock >= -1)
      || (q.lock == -1 && Parked(q, p))
    else
      && IsCpu(s, q.on)
      && if s.cpus[q.on].mode.Back? then q.lock == q.on && Parked(q, p)
         else
           && !q.pc.Dead?
           && (q.lock == (if q.pc.HoldsOwnLock() then q.on else -1) || (q.pc.Preemptible() && q.lock == q.on))
           && (if q.pc.ExitZombie? || q.pc.ExitDone? then q.state.ZOMBIE? else q.state.RUNNING?)
  }

  ghost predicate ProcsOk(s: Sys) {
    forall p {:trigger IsProc(s, p)} :: IsProc(s, p) ==> ProcOk(s, p)
  }

  /** A forking process and the slot it is filling. */
  ghost predicate ForkOk(s: Sys) {
    && (forall p {:trigger IsProc(s, p)} :: IsProc(s, p) && s.procs[p].pc.Forking() ==>
          var np := s.procs[p].pc.np;
          && IsProc(s, np) && s.procs[np].state.USED? && s.procs[np].on == -1
          && s.procs[np].lock == (if s.procs[p].pc.ForkCopy? then s.procs[p].on else -1)
          && s.procs[np].parent == (if s.procs[p].pc.ForkRun? then p else -1))
    && (forall p {:trigger IsProc(s, p)} :: IsProc(s, p) && s.procs[p].state.USED? && s.procs[p].parent != -1 ==>
          0 <= s.procs[p].parent < |s.procs| && s.procs[s.procs[p].parent].pc == ForkRun(p))
    && (forall p, q :: ForksApart(s, p, q))
  }

  /** Two forking processes fill different slots. */
  predicate ForksApart(s: Sys, p: int, q: int) {
    IsProc(s, p) && IsProc(s, q) && p != q && s.procs[p].pc.Forking() && s.procs[q].pc.Forking() ==>
      s.procs[p].pc.np != s.procs[q].pc.np
  }

  /** wait_lock is held by the process whose position says so. */
  ghost predicate WaitLockOk(s: Sys) {
    && (s.waitLock == -1 || IsProc(s, s.waitLock))
    && forall p {:trigger IsProc(s, p)} :: IsProc(s, p) ==> (s.procs[p].pc.HoldsWaitLock() <==> s.waitLock == p)
  }

  /** Everyone but init has a living parent; init lives. */
  ghost predicate ParentsOk(s: Sys) {
    && IsProc(s, s.init) && Alive(s.procs[s.init].state) && s.procs[s.init].parent == -1
    && (forall p {:trigger IsProc(s, p)} :: IsProc(s, p) ==>
          && (s.procs[p].parent == -1 ||
              (0 <= s.procs[p].parent < |s.procs| && s.procs[p].parent != p && Alive(s.procs[s.procs[p].parent].state)))
          && (p != s.init && (Alive(s.procs[p].state) || s.procs[p].state.ZOMBIE?) ==> s.procs[p].parent != -1))
  }

  /** How far exit has got in giving its children away. */
  ghost predicate ExitOk(s: Sys) {
    forall p {:trigger IsProc(s, p)} :: IsProc(s, p) ==>
      var pc := s.procs[p].pc;
      && (pc.ExitReparent? ==> p != s.init && 0 <= pc.i <= |s.procs| && Childless(s, p, pc.i))
      && (pc.ExitWakeInit? ==>
          p != s.init && 0 <= pc.i < |s.procs| && 0 <= pc.j < |s.procs| && Childless(s, p, pc.i + 1))
      && (pc.ExitWakeParent? ==> p != s.init && 0 <= pc.j <= |s.procs| && Childless(s, p, |s.procs|))
  }

  ghost predicate Childless(s: Sys, p: int, n: int)
    requires 0 <= n <= |s.procs|
  {
    forall k {:trigger IsProc(s, k)} :: IsProc(s, k) && k < n ==> s.procs[k].parent != p
  }

  /** The one moment when a waiting init may have a zombie child: reparent has yet to wake it up. */
  predicate WakingInit(s: Sys) {
    IsProc(s, s.waitLock) && s.procs[s.waitLock].pc.ExitWakeInit? && s.procs[s.waitLock].pc.j <= s.init
  }

  predicate ZombieChild(s: Sys, q: int, p: int) {
    IsProc(s, q) && s.procs[q].parent == p && s.procs[q].state.ZOMBIE?
  }

  /** Nobody waits while a child is a zombie. */
  ghost predicate WaitersOk(s: Sys) {
    && (forall p, q {:trigger ZombieChild(s, q, p)} ::
          IsProc(s, p) && ZombieChild(s, q, p) && (Waits(s.procs[p]) || s.procs[p].pc.WaitLocked?) ==>
          p == s.init && WakingInit(s))
    && (forall p, q {:trigger ZombieChild(s, q, p)} ::
          IsProc(s, p) && s.procs[p].pc.WaitScan? && ZombieChild(s, q, p) ==> s.procs[p].pc.i <= q)
    && (forall p {:trigger IsProc(s, p)} ::
        IsProc(s, p) && s.procs[p].pc.WaitScan? ==> 0 <= s.procs[p].pc.i <= |s.procs|)
    && (forall p {:trigger IsProc(s, p)} :: IsProc(s, p) && s.procs[p].pc.ExitWakeParent? ==>
          0 <= s.procs[p].parent < |s.procs| && Waits(s.procs[s.procs[p].parent]) ==>
              s.procs[p].pc.j <= s.procs[p].parent)
  }

  /** Two processes have different pids. */
  predicate PidsApart(s: Sys, p: int, q: int) {
    IsProc(s, p) && IsProc(s, q) && p != q && !s.procs[p].state.UNUSED? && !s.procs[q].state.UNUSED? ==>
      s.procs[p].pid != s.procs[q].pid
  }

  /** Pids are used once. */
  ghost predicate PidsOk(s: Sys) {
    && (forall p {:trigger IsProc(s, p)} :: IsProc(s, p) && !s.procs[p].state.UNUSED? ==>
          0 < s.procs[p].pid < s.nextPid && s.procs[p].pid !in s.reaped)
    && (forall p {:trigger IsProc(s, p)} :: IsProc(s, p) && s.procs[p].state.UNUSED? ==> s.procs[p].pid == 0)
    && (forall p, q :: PidsApart(s, p, q))
    && (forall k :: 0 <= k < |s.reaped| ==> 0 < s.reaped[k] < s.nextPid)
    && (forall k, m :: 0 <= k < m < |s.reaped| ==> s.reaped[k] != s.reaped[m])
  }

  ghost predicate Inv(s: Sys) {
    && CpusOk(s) && ProcsOk(s) && ForkOk(s) && WaitLockOk(s) && ParentsOk(s) && ExitOk(s) && WaitersOk(s) && PidsOk(s)
  }

  // ----- What a step leaves alone -----

  predicate SameSize(s: Sys, s': Sys) {
    |s'.procs| == |s.procs| && |s'.cpus| == |s.cpus| && s'.init == s.init
  }

  /** The same slots and CPUs exist before and after. */
  lemma SameSlots(s: Sys, s': Sys)
    requires SameSize(s, s')
    ensures forall p {:trigger IsProc(s', p)} :: IsProc(s', p) <==> IsProc(s, p)
    ensures forall c {:trigger IsCpu(s', c)} :: IsCpu(s', c) <==> IsCpu(s, c)
  {
  }

  ghost predicate SameCpus(s: Sys, s': Sys) {
    && SameSize(s, s')
    && (forall c {:trigger IsCpu(s', c)} :: IsCpu(s', c) ==>
          IsCpu(s, c) && s'.cpus[c].proc == s.cpus[c].proc && (s'.cpus[c].mode.Idle? <==> s.cpus[c].mode.Idle?))
    && (forall p {:trigger IsProc(s', p)} :: IsProc(s', p) ==> IsProc(s, p) && s'.procs[p].on == s.procs[p].on)
  }

  lemma KeepCpus(s: Sys, s': Sys)
    requires CpusOk(s) && SameCpus(s, s')
    ensures CpusOk(s')
  {
  }

  /** Each process is as it was on a CPU as it was, or fits together anew. */
  ghost predicate SameOrOk(s: Sys, s': Sys) {
    && SameSize(s, s')
    && (forall p {:trigger IsProc(s', p)} :: IsProc(s', p) ==>
          || ProcOk(s', p)
          || (IsProc(s, p) && s'.procs[p] == s.procs[p] &&
              (IsCpu(s, s.procs[p].on) ==> s'.cpus[s.procs[p].on] == s.cpus[s.procs[p].on])))
  }

  lemma KeepProcs(s: Sys, s': Sys)
    requires ProcsOk(s) && SameOrOk(s, s')
    ensures ProcsOk(s')
  {
    SameSlots(s, s');
    forall p | IsProc(s', p)
      ensures ProcOk(s', p)
    {
      assert ProcOk(s, p);
    }
  }

  ghost predicate SameForks(s: Sys, s': Sys) {
    && SameSize(s, s')
    && forall p {:trigger IsProc(s', p)} :: IsProc(s', p) ==>
         && IsProc(s, p)
         && var q, q' := s.procs[p], s'.procs[p];
         && (q'.pc.Forking() || q.pc.Forking() ==> q'.pc == q.pc && (q.pc.ForkCopy? ==> q'.on == q.on))
         && (q'.state.USED? <==> q.state.USED?)
         && (q.state.USED? ==> q'.lock == q.lock && q'.parent == q.parent && q'.on == q.on)
  }

  lemma KeepForks(s: Sys, s': Sys)
    requires ForkOk(s) && SameForks(s, s')
    ensures ForkOk(s')
  {
    forall p | IsProc(s', p) && s'.procs[p].state.USED? && s'.procs[p].parent != -1
      ensures 0 <= s'.procs[p].parent < |s'.procs| && s'.procs[s'.procs[p].parent].pc == ForkRun(p)
    {
      assert IsProc(s', s'.procs[p].parent) <==> IsProc(s, s.procs[p].parent);
    }
    forall p, q
      ensures ForksApart(s', p, q)
    {
      assert ForksApart(s, p, q);
    }
  }

  ghost predicate SameWaitLock(s: Sys, s': Sys) {
    && SameSize(s, s') && s'.waitLock == s.waitLock
    && forall p {:trigger IsProc(s', p)} ::
        IsProc(s', p) ==> IsProc(s, p) && (s'.procs[p].pc.HoldsWaitLock() <==> s.procs[p].pc.HoldsWaitLock())
  }

  lemma KeepWaitLock(s: Sys, s': Sys)
    requires WaitLockOk(s) && SameWaitLock(s, s')
    ensures WaitLockOk(s')
  {
  }

  ghost predicate SameFamily(s: Sys, s': Sys) {
    && SameSize(s, s')
    && forall p {:trigger IsProc(s', p)} :: IsProc(s', p) ==>
         && IsProc(s, p)
         && var q, q' := s.procs[p], s'.procs[p];
         q'.parent == q.parent && (Alive(q'.state) <==> Alive(q.state)) && (q'.state.ZOMBIE? <==> q.state.ZOMBIE?)
  }

  lemma KeepParents(s: Sys, s': Sys)
    requires ParentsOk(s) && SameFamily(s, s')
    ensures ParentsOk(s')
  {
    assert IsProc(s, s.init) && IsProc(s', s'.init);
    forall p | IsProc(s', p)
      ensures s'.procs[p].parent == s.procs[p].parent
      ensures 0 <= s.procs[p].parent < |s.procs| ==>
        (Alive(s'.procs[s.procs[p].parent].state) <==> Alive(s.procs[s.procs[p].parent].state))
    {
      assert IsProc(s', s'.procs[p].parent) <==> IsProc(s, s.procs[p].parent);
    }
  }

  ghost predicate SameExits(s: Sys, s': Sys) {
    && SameSize(s, s')
    && forall p {:trigger IsProc(s', p)} :: IsProc(s', p) ==>
         && IsProc(s, p)
         && var q, q' := s.procs[p], s'.procs[p];
         && q'.parent == q.parent
         && (q'.pc.ExitReparent? || q'.pc.ExitWakeInit? || q'.pc.ExitWakeParent? ==> q'.pc == q.pc)
  }

  lemma KeepExits(s: Sys, s': Sys)
    requires ExitOk(s) && SameExits(s, s')
    ensures ExitOk(s')
  {
    forall p | IsProc(s', p)
      ensures forall n :: 0 <= n <= |s.procs| && Childless(s, p, n) ==> Childless(s', p, n)
    {
    }
  }

  /** No process has started to wait and no child has become a zombie. */
  ghost predicate FewerWaiters(s: Sys, s': Sys) {
    && SameSize(s, s') && (WakingInit(s) ==> WakingInit(s'))
    && forall p {:trigger IsProc(s', p)} :: IsProc(s', p) ==>
         && IsProc(s, p)
         && var q, q' := s.procs[p], s'.procs[p];
         && q'.parent == q.parent && (q'.state.ZOMBIE? ==> q.state.ZOMBIE?)
         && (Waits(q') ==> Waits(q))
         && (q'.pc.WaitLocked? || q'.pc.WaitScan? || q'.pc.ExitWakeParent? ==> q'.pc == q.pc)
  }

  lemma KeepWaiters(s: Sys, s': Sys)
    requires WaitersOk(s) && FewerWaiters(s, s')
    ensures WaitersOk(s')
  {
    forall p | IsProc(s', p) && s'.procs[p].pc.ExitWakeParent?
      ensures 0 <= s'.procs[p].parent < |s'.procs| && Waits(s'.procs[s'.procs[p].parent]) ==>
        s'.procs[p].pc.j <= s'.procs[p].parent
    {
      assert IsProc(s', s'.procs[p].parent) <==> IsProc(s, s.procs[p].parent);
    }
    forall p, q | IsProc(s', p) && ZombieChild(s', q, p) && (Waits(s'.procs[p]) || s'.procs[p].pc.WaitLocked?)
      ensures p == s'.init && WakingInit(s')
    {
      assert ZombieChild(s, q, p);
    }
    forall p, q | IsProc(s', p) && s'.procs[p].pc.WaitScan? && ZombieChild(s', q, p)
      ensures s'.procs[p].pc.i <= q
    {
      assert ZombieChild(s, q, p);
    }
  }

  predicate SamePid(q: Proc, q': Proc) {
    q'.pid == q.pid && (q'.state.UNUSED? <==> q.state.UNUSED?)
  }

  ghost predicate SamePids(s: Sys, s': Sys) {
    && SameSize(s, s') && s'.nextPid == s.nextPid && s'.reaped == s.reaped
    && forall p {:trigger IsProc(s', p)} :: IsProc(s', p) ==>
         IsProc(s, p) && SamePid(s.procs[p], s'.procs[p])
  }

  lemma KeepPids(s: Sys, s': Sys)
    requires PidsOk(s) && SamePids(s, s')
    ensures PidsOk(s')
  {
    forall p, q
      ensures PidsApart(s', p, q)
    {
      assert PidsApart(s, p, q);
    }
  }

  /** The new value of a process that is not forking, not changing its family, and not starting to wait or exit. */
  predicate Mild(q: Proc, q': Proc) {
    q' == q.(killed := true) || (
    && !q.state.USED? && !q'.state.USED? && (q.pc.Forking() || q'.pc.Forking() ==> q'.pc == q.pc && !q.pc.ForkCopy?)
    && q'.parent == q.parent && q'.pid == q.pid && (q'.state.UNUSED? <==> q.state.UNUSED?)
    && (Alive(q'.state) <==> Alive(q.state)) && (q'.state.ZOMBIE? <==> q.state.ZOMBIE?)
    && (q'.pc.HoldsWaitLock() || q.pc.HoldsWaitLock() ==> q'.pc == q.pc)
    && (Waits(q') ==> Waits(q)))
  }

  /** All else is as it was. */
  ghost predicate OnlyProc(s: Sys, s': Sys, p: int)
    requires IsProc(s, p)
  {
    && SameSize(s, s') && s'.waitLock == s.waitLock && s'.nextPid == s.nextPid && s'.reaped == s.reaped
    && s'.procs == s.procs[p := s'.procs[p]]
  }

  /** A step that changes only how one process, or its CPU, goes about its business. */
  lemma MildStep(s: Sys, s': Sys, p: int)
    requires Inv(s) && IsProc(s, p) && OnlyProc(s, s', p) && Mild(s.procs[p], s'.procs[p])
    requires CpusOk(s') && SameOrOk(s, s')
    ensures Inv(s')
  {
    KeepProcs(s, s');
    MildFrames(s, s', p);
    KeepForks(s, s');
    KeepWaitLock(s, s');
    KeepParents(s, s');
    KeepExits(s, s');
    KeepWaiters(s, s');
    KeepPids(s, s');
  }

  lemma MildFrames(s: Sys, s': Sys, p: int)
    requires IsProc(s, p) && OnlyProc(s, s', p) && Mild(s.procs[p], s'.procs[p])
    ensures SameForks(s, s') && SameWaitLock(s, s') && SameFamily(s, s') && SameExits(s, s') && FewerWaiters(s, s') &&
      SamePids(s, s')
  {
  }

  /** Only the CPU of a changed process changes, so the others still fit. */
  lemma CpuOfOne(s: Sys, s': Sys, p: int, c: int)
    requires CpusOk(s) && IsProc(s, p) && IsCpu(s, c) && SameSize(s, s')
    requires s'.procs == s.procs[p := s'.procs[p]] && s'.cpus == s.cpus[c := s'.cpus[c]]
    requires s.cpus[c].proc == p || s.cpus[c].mode.Idle?
    requires ProcOk(s', p)
    ensures SameOrOk(s, s')
  {
    forall i | IsProc(s, i) && i != p
      ensures s'.procs[i] == s.procs[i] && (IsCpu(s, s.procs[i].on) ==> s'.cpus[s.procs[i].on] == s.cpus[s.procs[i].on])
    {
      assert IsCpu(s, s.procs[i].on) ==> s.cpus[s.procs[i].on].proc == i;
    }
  }

  // ----- Every step keeps the invariant -----

  lemma SchedRunInv(s: Sys, s': Sys, c: int, p: int)
    requires Inv(s) && SchedRun(s, s', c, p)
    ensures Inv(s')
  {
    assert ProcOk(s, p);
    SchedRunCpus(s, s', c, p);
    CpuOfOne(s, s', p, c);
    MildStep(s, s', p);
  }

  lemma SchedRunCpus(s: Sys, s': Sys, c: int, p: int)
    requires CpusOk(s) && SchedRun(s, s', c, p) && s.procs[p].on == -1
    ensures CpusOk(s')
  {
    SameSlots(s, s');
  }

  lemma SchedReleaseInv(s: Sys, s': Sys, c: int)
    requires Inv(s) && SchedRelease(s, s', c)
    ensures Inv(s')
  {
    var p := s.cpus[c].proc;
    assert ProcOk(s, p);
    SchedReleaseCpus(s, s', c);
    CpuOfOne(s, s', p, c);
    MildStep(s, s', p);
  }

  lemma SchedReleaseCpus(s: Sys, s': Sys, c: int)
    requires CpusOk(s) && SchedRelease(s, s', c)
    ensures CpusOk(s')
  {
    SameSlots(s, s');
    var p := s.cpus[c].proc;
    forall i | IsProc(s, i) && i != p
      ensures s'.procs[i].on == -1 || (IsCpu(s, s'.procs[i].on) && s'.cpus[s'.procs[i].on].proc == i)
    {
      assert s.procs[i].on == -1 || s.cpus[s.procs[i].on].proc == i;
    }
  }

  lemma ResumeInv(s: Sys, s': Sys, c: int, p: int)
    requires Inv(s) && Resume(s, s', c, p)
    ensures Inv(s')
  {
    assert ProcOk(s, p);
    KeepCpus(s, s');
    CpuOfOne(s, s', p, c);
    MildStep(s, s', p);
  }

  lemma ResumeWaitInv(s: Sys, s': Sys, c: int, p: int)
    requires Inv(s) && ResumeWait(s, s', c, p)
    ensures Inv(s')
  {
    assert ProcOk(s, p);
    KeepCpus(s, s');
    CpuOfOne(s, s', p, c);
    MildStep(s, s', p);
  }

  lemma YieldInv(s: Sys, s': Sys, c: int, p: int)
    requires Inv(s) && Yield(s, s', c, p)
    ensures Inv(s')
  {
    assert ProcOk(s, p);
    KeepCpus(s, s');
    CpuOfOne(s, s', p, c);
    MildStep(s, s', p);
  }

  lemma SleepOtherInv(s: Sys, s': Sys, c: int, p: int, n: int)
    requires Inv(s) && SleepOther(s, s', c, p, n)
    ensures Inv(s')
  {
    assert ProcOk(s, p);
    KeepCpus(s, s');
    CpuOfOne(s, s', p, c);
    MildStep(s, s', p);
  }

  /** A sleeper that is not locked becomes runnable: wakeup and kill. */
  lemma RousedInv(s: Sys, s': Sys, q: int)
    requires Inv(s) && IsProc(s, q) && s.procs[q].lock == -1 && s.procs[q].state.SLEEPING?
    requires s' == Set(s, q, s.procs[q].(state := RUNNABLE))
    ensures Inv(s')
  {
    assert ProcOk(s, q);
    KeepCpus(s, s');
    MildStep(s, s', q);
  }

  lemma KillInv(s: Sys, s': Sys, q: int, pid: int)
    requires Inv(s) && Kill(s, s', q, pid)
    ensures Inv(s')
  {
    var t := Set(s, q, s.procs[q].(killed := true));
    KilledInv(s, t, q);
    if s.procs[q].state.SLEEPING? {
      RousedInv(t, s', q);
    }
  }

  lemma KilledInv(s: Sys, s': Sys, q: int)
    requires Inv(s) && IsProc(s, q) && s' == Set(s, q, s.procs[q].(killed := true))
    ensures Inv(s')
  {
    KeepCpus(s, s');
    KilledProcs(s, s', q);
    MildStep(s, s', q);
  }

  lemma KilledProcs(s: Sys, s': Sys, q: int)
    requires ProcsOk(s) && IsProc(s, q) && s' == Set(s, q, s.procs[q].(killed := true))
    ensures SameOrOk(s, s')
  {
    assert ProcOk(s, q);
  }

  // ----- fork -----

  /** What fork's steps leave alone: its own slot only moves on, the new slot is nobody's child's parent. */
  lemma ForkFrames(s: Sys, s': Sys, p: int, np: int)
    requires IsProc(s, p) && IsProc(s, np) && p != np && SameSize(s, s') && s'.cpus == s.cpus &&
      s'.waitLock == s.waitLock
    requires s'.procs == s.procs[np := s'.procs[np]][p := s'.procs[p]]
    requires var q, q' := s.procs[p], s'.procs[p];
      && q' == q.(pc := q'.pc) && (q.pc.User? || q.pc.Forking()) && (q'.pc.User? || q'.pc.Forking())
      && Executes(s, q.on, p) && q.lock == -1
    requires var r, r' := s.procs[np], s'.procs[np];
      && r.on == r'.on == -1 && r.pc.Ret? && r'.pc.Ret? && !r.state.ZOMBIE?
      && ((r'.state.UNUSED? && r'.lock == r'.parent == -1) || (r'.state.USED? && r'.lock >= -1 && r'.chan.NoChan?) ||
          (r'.state.RUNNABLE? && r'.lock == -1))
    requires ProcOk(s, p)
    ensures SameCpus(s, s') && SameWaitLock(s, s')
    ensures s'.procs[np].parent == s.procs[np].parent ==> SameExits(s, s') && FewerWaiters(s, s')
    ensures s'.procs[np].parent == s.procs[np].parent && !Alive(s.procs[np].state) && !Alive(s'.procs[np].state) ==>
      SameFamily(s, s')
    ensures SameOrOk(s, s')
    ensures SamePid(s.procs[np], s'.procs[np]) && s'.nextPid == s.nextPid && s'.reaped == s.reaped ==> SamePids(s, s')
  {
  }

  lemma ForkAllocInv(s: Sys, s': Sys, c: int, p: int, np: int)
    requires Inv(s) && ForkAlloc(s, s', c, p, np)
    ensures Inv(s')
  {
    assert ProcOk(s, p) && ProcOk(s, np);
    ForkFrames(s, s', p, np);
    KeepCpus(s, s');
    KeepProcs(s, s');
    KeepWaitLock(s, s');
    KeepParents(s, s');
    KeepExits(s, s');
    KeepWaiters(s, s');
    ForkAllocForks(s, s', c, p, np);
    ForkAllocPids(s, s', c, p, np);
  }

  lemma ForkAllocForks(s: Sys, s': Sys, c: int, p: int, np: int)
    requires ForkOk(s) && ForkAlloc(s, s', c, p, np) && s.procs[p].on == c && s.procs[np].on == -1 &&
      s.procs[np].pc.Ret?
    ensures ForkOk(s')
  {
    SameSlots(s, s');
    forall x, y
      ensures ForksApart(s', x, y)
    {
      assert ForksApart(s, x, y);
    }
  }

  lemma ForkAllocPids(s: Sys, s': Sys, c: int, p: int, np: int)
    requires PidsOk(s) && ForkAlloc(s, s', c, p, np) && 0 < s.nextPid
    ensures PidsOk(s')
  {
    SameSlots(s, s');
    forall x, y
      ensures PidsApart(s', x, y)
    {
      assert PidsApart(s, x, y);
    }
    assert forall k :: 0 <= k < |s.reaped| ==> s.reaped[k] != s.nextPid;
  }

  /** The forking process p and the slot np it is filling. */
  lemma ForkingSlot(s: Sys, p: int)
    requires Inv(s) && IsProc(s, p) && s.procs[p].pc.Forking()
    ensures var np := s.procs[p].pc.np;
      && IsProc(s, np) && np != p && np != s.init
      && s.procs[np].state.USED? && s.procs[np].pc.Ret? && s.procs[np].on == -1 && s.procs[np].chan.NoChan?
      && Alive(s.procs[p].state)
  {
    assert ProcOk(s, p) && ProcOk(s, s.procs[p].pc.np);
  }

  lemma ForkFailInv(s: Sys, s': Sys, c: int, p: int)
    requires Inv(s) && ForkFail(s, s', c, p)
    ensures Inv(s')
  {
    var np := s.procs[p].pc.np;
    ForkingSlot(s, p);
    assert ProcOk(s, p);
    ForkFrames(s, s', p, np);
    KeepCpus(s, s');
    KeepProcs(s, s');
    KeepWaitLock(s, s');
    KeepParents(s, s');
    KeepExits(s, s');
    KeepWaiters(s, s');
    ForkFailRest(s, s', c, p);
  }

  lemma ForkFailRest(s: Sys, s': Sys, c: int, p: int)
    requires ForkOk(s) && PidsOk(s) && ForkFail(s, s', c, p) && s.procs[p].pc.np != p &&
      s.procs[s.procs[p].pc.np].pc.Ret?
    ensures ForkOk(s') && PidsOk(s')
  {
    SameSlots(s, s');
    assert forall x {:trigger IsProc(s', x)} :: ForksApart(s, p, x);
    forall x, y
      ensures ForksApart(s', x, y)
    {
      assert ForksApart(s, x, y);
    }
    forall x, y
      ensures PidsApart(s', x, y)
    {
      assert PidsApart(s, x, y);
    }
  }

  lemma ForkCopiedInv(s: Sys, s': Sys, c: int, p: int)
    requires Inv(s) && ForkCopied(s, s', c, p)
    ensures Inv(s')
  {
    var np := s.procs[p].pc.np;
    ForkingSlot(s, p);
    assert ProcOk(s, p);
    ForkFrames(s, s', p, np);
    KeepCpus(s, s');
    KeepProcs(s, s');
    KeepWaitLock(s, s');
    KeepParents(s, s');
    KeepExits(s, s');
    KeepWaiters(s, s');
    KeepPids(s, s');
    ForkCopiedForks(s, s', c, p);
  }

  lemma ForkCopiedForks(s: Sys, s': Sys, c: int, p: int)
    requires ForkOk(s) && ForkCopied(s, s', c, p) && s.procs[p].pc.np != p
    ensures ForkOk(s')
  {
    SameSlots(s, s');
    assert forall x {:trigger IsProc(s', x)} :: ForksApart(s, p, x);
    forall x, y
      ensures ForksApart(s', x, y)
    {
      assert ForksApart(s, x, y);
    }
  }

  lemma ForkSetParentInv(s: Sys, s': Sys, c: int, p: int)
    requires Inv(s) && ForkSetParent(s, s', c, p)
    ensures Inv(s')
  {
    var np := s.procs[p].pc.np;
    ForkingSlot(s, p);
    assert ProcOk(s, p);
    ForkFrames(s, s', p, np);
    KeepCpus(s, s');
    KeepProcs(s, s');
    KeepWaitLock(s, s');
    KeepPids(s, s');
    ForkSetParentFamily(s, s', c, p);
    ForkSetParentWaiters(s, s', c, p);
  }

  lemma ForkSetParentFamily(s: Sys, s': Sys, c: int, p: int)
    requires ForkOk(s) && ParentsOk(s) && ForkSetParent(s, s', c, p)
    requires var np := s.procs[p].pc.np; np != p && np != s.init && s.procs[np].state.USED? && s.procs[p].state.RUNNING?
    ensures ForkOk(s') && ParentsOk(s')
  {
    SameSlots(s, s');
    assert forall x {:trigger IsProc(s', x)} :: ForksApart(s, p, x);
    forall x, y
      ensures ForksApart(s', x, y)
    {
      assert ForksApart(s, x, y);
    }
  }

  /** With wait_lock free nobody is in the middle of exit or of a scan. */
  lemma ForkSetParentWaiters(s: Sys, s': Sys, c: int, p: int)
    requires ForkSetParent(s, s', c, p) && WaitLockOk(s) && WaitersOk(s) && ExitOk(s)
    requires var np := s.procs[p].pc.np; np != p && s.procs[np].state.USED? && s.procs[np].pc.Ret?
    ensures ExitOk(s') && WaitersOk(s')
  {
    SameSlots(s, s');
    forall x, y | IsProc(s', x) && ZombieChild(s', y, x)
      ensures ZombieChild(s, y, x)
    {
    }
  }

  lemma ForkMakeRunnableInv(s: Sys, s': Sys, c: int, p: int)
    requires Inv(s) && ForkMakeRunnable(s, s', c, p)
    ensures Inv(s')
  {
    var np := s.procs[p].pc.np;
    ForkingSlot(s, p);
    assert ProcOk(s, p);
    ForkFrames(s, s', p, np);
    KeepCpus(s, s');
    KeepProcs(s, s');
    KeepWaitLock(s, s');
    KeepExits(s, s');
    KeepWaiters(s, s');
    KeepPids(s, s');
    ForkMakeRunnableFamily(s, s', c, p);
  }

  lemma ForkMakeRunnableFamily(s: Sys, s': Sys, c: int, p: int)
    requires ForkOk(s) && ParentsOk(s) && ForkMakeRunnable(s, s', c, p)
    requires var np := s.procs[p].pc.np; np != p && np != s.init && s.procs[np].state.USED?
    ensures ForkOk(s') && ParentsOk(s')
  {
    SameSlots(s, s');
    assert forall x {:trigger IsProc(s', x)} :: ForksApart(s, p, x);
    forall x, y
      ensures ForksApart(s', x, y)
    {
      assert ForksApart(s, x, y);
    }
  }

  // ----- exit and wait -----

  /** The new value of a process that moves on in exit or wait. */
  predicate MovesOn(q: Proc, q': Proc) {
    && !q.state.USED? && !q'.state.USED? && !q.pc.Forking() && !q'.pc.Forking()
    && q'.on == q.on && q'.parent == q.parent && SamePid(q, q')
    && (Alive(q'.state) <==> Alive(q.state)) && (q'.state.ZOMBIE? <==> q.state.ZOMBIE?)
  }

  /** All else but wait_lock is as it was; wait_lock goes with the process. */
  ghost predicate OnlyLocker(s: Sys, s': Sys, p: int)
    requires IsProc(s, p)
  {
    && SameSize(s, s') && s'.nextPid == s.nextPid && s'.reaped == s.reaped && s'.cpus == s.cpus
    && s'.procs == s.procs[p := s'.procs[p]]
    && (s.waitLock == -1 || s.waitLock == p)
    && s'.waitLock == if s'.procs[p].pc.HoldsWaitLock() then p else -1
  }

  lemma LockerFrames(s: Sys, s': Sys, p: int)
    requires IsProc(s, p) && OnlyLocker(s, s', p) && MovesOn(s.procs[p], s'.procs[p]) && ProcOk(s', p)
    ensures SameCpus(s, s') && SameOrOk(s, s') && SameForks(s, s') && SameFamily(s, s') && SamePids(s, s')
  {
  }

  lemma LockerWaitLock(s: Sys, s': Sys, p: int)
    requires IsProc(s, p) && OnlyLocker(s, s', p) && WaitLockOk(s)
    ensures WaitLockOk(s')
  {
    SameSlots(s, s');
  }

  /** A step of exit or wait by one process keeps all that does not concern exiting and waiting. */
  lemma LockerStep(s: Sys, s': Sys, p: int)
    requires Inv(s) && IsProc(s, p) && OnlyLocker(s, s', p) && MovesOn(s.procs[p], s'.procs[p]) && ProcOk(s', p)
    requires ExitOk(s') && WaitersOk(s')
    ensures Inv(s')
  {
    LockerFrames(s, s', p);
    KeepCpus(s, s');
    KeepProcs(s, s');
    KeepForks(s, s');
    LockerWaitLock(s, s', p);
    KeepParents(s, s');
    KeepPids(s, s');
  }

  /** With the same families, only the process that moves can be further into exit. */
  lemma ExitMoves(s: Sys, s': Sys, p: int)
    requires ExitOk(s) && IsProc(s, p) && SameSize(s, s') && s'.procs == s.procs[p := s'.procs[p]]
    requires s'.procs[p].parent == s.procs[p].parent
    requires var pc := s'.procs[p].pc;
      && (pc.ExitReparent? ==> p != s.init && 0 <= pc.i <= |s.procs| && Childless(s, p, pc.i))
      && (pc.ExitWakeInit? ==>
          p != s.init && 0 <= pc.i < |s.procs| && 0 <= pc.j < |s.procs| && Childless(s, p, pc.i + 1))
      && (pc.ExitWakeParent? ==> p != s.init && 0 <= pc.j <= |s.procs| && Childless(s, p, |s.procs|))
    ensures ExitOk(s')
  {
    SameSlots(s, s');
    assert forall x, n :: 0 <= n <= |s.procs| && Childless(s, x, n) ==> Childless(s', x, n);
  }

  /** No new zombie, and the process that moves does not start to wait. */
  lemma WaiterMoves(s: Sys, s': Sys, p: int)
    requires WaitersOk(s) && IsProc(s, p) && SameSize(s, s') && s'.procs == s.procs[p := s'.procs[p]]
    requires s'.procs[p].parent == s.procs[p].parent && (s'.procs[p].state.ZOMBIE? ==> s.procs[p].state.ZOMBIE?)
    requires WakingInit(s) ==> WakingInit(s')
    requires Waits(s'.procs[p]) || s'.procs[p].pc.WaitLocked? ==> forall q :: !ZombieChild(s, q, p)
    requires WaitLockOk(s) && (Waits(s'.procs[p]) ==> Waits(s.procs[p]) || s.waitLock == p)
    requires s'.procs[p].pc.WaitScan? ==> 0 <= s'.procs[p].pc.i <= |s.procs| && forall q ::
      ZombieChild(s, q, p) ==> s'.procs[p].pc.i <= q
    requires s'.procs[p].pc.ExitWakeParent? ==> s'.procs[p].parent != p
    requires s'.procs[p].pc.ExitWakeParent? && IsProc(s, s'.procs[p].parent) && Waits(s.procs[s'.procs[p].parent]) ==>
      s'.procs[p].pc.j <= s'.procs[p].parent
    ensures WaitersOk(s')
  {
    SameSlots(s, s');
    assert forall x, q :: ZombieChild(s', q, x) ==> ZombieChild(s, q, x);
  }

  lemma ExitBeginInv(s: Sys, s': Sys, c: int, p: int)
    requires Inv(s) && ExitBegin(s, s', c, p)
    ensures Inv(s')
  {
    assert ProcOk(s, p);
    ExitMoves(s, s', p);
    WaiterMoves(s, s', p);
    LockerStep(s, s', p);
  }

  lemma ChildlessNext(s: Sys, p: int, i: int)
    requires IsProc(s, i) && Childless(s, p, i) && s.procs[i].parent != p
    ensures Childless(s, p, i + 1)
  {
  }

  /** reparent passes over a slot that is not a child. */
  lemma ReparentSkipInv(s: Sys, s': Sys, c: int, p: int)
    requires Inv(s) && Reparent(s, s', c, p) && s.procs[s.procs[p].pc.i].parent != p
    ensures Inv(s')
  {
    assert ProcOk(s, p);
    ChildlessNext(s, p, s.procs[p].pc.i);
    ExitMoves(s, s', p);
    WaiterMoves(s, s', p);
    LockerStep(s, s', p);
  }

  lemma ReparentDoneInv(s: Sys, s': Sys, c: int, p: int)
    requires Inv(s) && ReparentDone(s, s', c, p)
    ensures Inv(s')
  {
    assert ProcOk(s, p);
    ExitMoves(s, s', p);
    WaiterMoves(s, s', p);
    LockerStep(s, s', p);
  }

  lemma ExitUnlockInv(s: Sys, s': Sys, c: int, p: int)
    requires Inv(s) && ExitUnlock(s, s', c, p)
    ensures Inv(s')
  {
    assert ProcOk(s, p);
    ExitMoves(s, s', p);
    WaiterMoves(s, s', p);
    LockerStep(s, s', p);
  }

  lemma ExitSwitchInv(s: Sys, s': Sys, c: int, p: int)
    requires Inv(s) && ExitSwitch(s, s', c, p)
    ensures Inv(s')
  {
    assert ProcOk(s, p);
    KeepCpus(s, s');
    CpuOfOne(s, s', p, c);
    MildStep(s, s', p);
  }

  lemma WaitBeginInv(s: Sys, s': Sys, c: int, p: int)
    requires Inv(s) && WaitBegin(s, s', c, p)
    ensures Inv(s')
  {
    assert ProcOk(s, p);
    ExitMoves(s, s', p);
    WaiterMoves(s, s', p);
    LockerStep(s, s', p);
  }

  lemma WaitSkipInv(s: Sys, s': Sys, c: int, p: int)
    requires Inv(s) && WaitSkip(s, s', c, p)
    ensures Inv(s')
  {
    assert ProcOk(s, p);
    ExitMoves(s, s', p);
    WaiterMoves(s, s', p);
    LockerStep(s, s', p);
  }

  lemma WaitReturnInv(s: Sys, s': Sys, c: int, p: int)
    requires Inv(s) && WaitReturn(s, s', c, p)
    ensures Inv(s')
  {
    assert ProcOk(s, p);
    ExitMoves(s, s', p);
    WaiterMoves(s, s', p);
    LockerStep(s, s', p);
  }

  lemma WaitLockInv(s: Sys, s': Sys, c: int, p: int)
    requires Inv(s) && WaitLock(s, s', c, p)
    ensures Inv(s')
  {
    assert ProcOk(s, p);
    ExitMoves(s, s', p);
    WaiterMoves(s, s', p);
    LockerStep(s, s', p);
  }

  lemma WaitUnlockInv(s: Sys, s': Sys, c: int, p: int)
    requires Inv(s) && WaitUnlock(s, s', c, p)
    ensures Inv(s')
  {
    assert ProcOk(s, p);
    ExitMoves(s, s', p);
    WaiterMoves(s, s', p);
    LockerStep(s, s', p);
  }

  lemma WaitSleepInv(s: Sys, s': Sys, c: int, p: int)
    requires Inv(s) && WaitSleep(s, s', c, p)
    ensures Inv(s')
  {
    assert ProcOk(s, p);
    KeepCpus(s, s');
    CpuOfOne(s, s', p, c);
    MildStep(s, s', p);
  }

  /** reparent gives a child to init, and init is due to be woken up. */
  lemma ReparentChildInv(s: Sys, s': Sys, c: int, p: int)
    requires Inv(s) && Reparent(s, s', c, p) && s.procs[s.procs[p].pc.i].parent == p
    ensures Inv(s')
  {
    var i := s.procs[p].pc.i;
    assert ProcOk(s, p) && ProcOk(s, i);
    assert i != p && i != s.init && !s.procs[i].state.USED?;
    ReparentFrames(s, s', c, p);
    KeepCpus(s, s');
    KeepProcs(s, s');
    KeepForks(s, s');
    KeepWaitLock(s, s');
    KeepPids(s, s');
    ReparentFamily(s, s', c, p);
    ReparentExits(s, s', c, p);
    ReparentWaiters(s, s', c, p);
  }

  lemma ReparentFrames(s: Sys, s': Sys, c: int, p: int)
    requires Reparent(s, s', c, p)
    requires var i := s.procs[p].pc.i;
      i != p && s.procs[i].parent == p && !s.procs[i].state.USED? && ProcOk(s, i) && ProcOk(s, p)
    requires !s.procs[p].state.USED?
    ensures SameCpus(s, s') && SameOrOk(s, s') && SameForks(s, s') && SameWaitLock(s, s') && SamePids(s, s')
  {
    SameSlots(s, s');
  }

  lemma ReparentFamily(s: Sys, s': Sys, c: int, p: int)
    requires ParentsOk(s) && Reparent(s, s', c, p)
    requires var i := s.procs[p].pc.i; i != p && i != s.init && s.procs[i].parent == p
    ensures ParentsOk(s')
  {
    SameSlots(s, s');
  }

  lemma ReparentExits(s: Sys, s': Sys, c: int, p: int)
    requires ExitOk(s) && WaitLockOk(s) && Reparent(s, s', c, p)
    requires var i := s.procs[p].pc.i; i != p && s.procs[i].parent == p
    ensures ExitOk(s')
  {
    SameSlots(s, s');
    assert Childless(s, p, s.procs[p].pc.i);
    assert Childless(s', p, s.procs[p].pc.i + 1);
  }

  lemma ReparentWaiters(s: Sys, s': Sys, c: int, p: int)
    requires WaitersOk(s) && WaitLockOk(s) && IsProc(s, s.init) && Reparent(s, s', c, p)
    requires var i := s.procs[p].pc.i; i != p && s.procs[i].parent == p
    ensures WaitersOk(s')
  {
    SameSlots(s, s');
    assert WakingInit(s');
    assert forall x, q :: ZombieChild(s', q, x) && x != s.init ==> ZombieChild(s, q, x);
  }

  /** A process that wakeup has reached is not waiting on that channel any more. */
  lemma WokenIsAwake(s: Sys, j: int)
    requires IsProc(s, j) && ProcOk(s, j) && s.procs[j].lock == -1
    ensures !Waits(Woken(s.procs[j], ProcChan(j)))
  {
  }

  lemma WakeOneInv(s: Sys, s': Sys, j: int, chan: Chan)
    requires Inv(s) && IsProc(s, j) && s.procs[j].lock == -1 && s' == Set(s, j, Woken(s.procs[j], chan))
    ensures Inv(s')
  {
    if s.procs[j].state.SLEEPING? && s.procs[j].chan == chan {
      RousedInv(s, s', j);
    } else {
      assert s' == s;
    }
  }

  /** wakeup(q), run by process `p`, has dealt with process `j`. */
  lemma WakeSlot(s: Sys, c: int, p: int, j: int, q: int) returns (t: Sys)
    requires Inv(s) && Executes(s, c, p) && IsProc(s, j) && j != p && s.procs[j].lock == -1
    ensures t == Set(s, j, Woken(s.procs[j], ProcChan(q))) && Inv(t)
    ensures Executes(t, c, p) && t.procs[p] == s.procs[p] && (j == q ==> !Waits(t.procs[j]))
  {
    t := Set(s, j, Woken(s.procs[j], ProcChan(q)));
    WakeOneInv(s, t, j, ProcChan(q));
    if j == q {
      assert ProcOk(s, j);
      WokenIsAwake(s, j);
    }
  }

  lemma WakeInitInv(s: Sys, s': Sys, c: int, p: int)
    requires Inv(s) && WakeInit(s, s', c, p)
    ensures Inv(s')
  {
    if s.procs[p].pc.j == p {
      WakeInitMoves(s, s', c, p);
    } else {
      WakeInitOther(s, s', c, p, s.procs[p].pc.j);
    }
  }

  lemma WakeInitOther(s: Sys, s': Sys, c: int, p: int, j: int)
    requires Inv(s) && WakeInit(s, s', c, p) && j == s.procs[p].pc.j && j != p
    ensures Inv(s')
  {
    var t := WakeSlot(s, c, p, j, s.init);
    WakeInitMoves(t, s', c, p);
  }

  /** The index of wakeup(initproc) moves on; past init, init does not wait. */
  lemma WakeInitMoves(s: Sys, s': Sys, c: int, p: int)
    requires Inv(s) && Executes(s, c, p) && s.procs[p].pc.ExitWakeInit?
    requires s.procs[p].pc.j == s.init ==> !Waits(s.procs[s.init])
    requires var i, j := s.procs[p].pc.i, s.procs[p].pc.j;
      s' == Set(s, p, s.procs[p].(pc := if j + 1 == |s.procs| then ExitReparent(i + 1) else ExitWakeInit(i, j + 1)))
    ensures Inv(s')
  {
    assert ProcOk(s, p);
    ExitMoves(s, s', p);
    WakeInitWaiters(s, s', p);
    LockerStep(s, s', p);
  }

  lemma WakeInitWaiters(s: Sys, s': Sys, p: int)
    requires WaitersOk(s) && WaitLockOk(s) && IsProc(s, p) && IsProc(s, s.init) && s.procs[p].pc.ExitWakeInit?
    requires SameSize(s, s') && s'.waitLock == s.waitLock && s'.procs == s.procs[p := s'.procs[p]]
    requires s.procs[p].pc.j == s.init ==> !Waits(s.procs[s.init])
    requires var i, j := s.procs[p].pc.i, s.procs[p].pc.j;
      s'.procs[p] == s.procs[p].(pc := if j + 1 == |s.procs| then ExitReparent(i + 1) else ExitWakeInit(i, j + 1))
    ensures WaitersOk(s')
  {
    SameSlots(s, s');
    assert forall x, q :: ZombieChild(s', q, x) ==> ZombieChild(s, q, x);
    assert s.procs[p].pc.j < s.init ==> WakingInit(s');
  }

  lemma WakeParentInv(s: Sys, s': Sys, c: int, p: int)
    requires Inv(s) && WakeParent(s, s', c, p)
    ensures Inv(s')
  {
    if s.procs[p].pc.j == p {
      WakeParentMoves(s, s', c, p);
    } else {
      WakeParentOther(s, s', c, p, s.procs[p].pc.j);
    }
  }

  lemma WakeParentOther(s: Sys, s': Sys, c: int, p: int, j: int)
    requires Inv(s) && WakeParent(s, s', c, p) && j == s.procs[p].pc.j && j != p
    ensures Inv(s')
  {
    var t := WakeSlot(s, c, p, j, s.procs[p].parent);
    WakeParentMoves(t, s', c, p);
  }

  /** The index of wakeup(p->parent) moves on; past the parent, the parent does not wait. */
  lemma WakeParentMoves(s: Sys, s': Sys, c: int, p: int)
    requires Inv(s) && Executes(s, c, p) && s.procs[p].pc.ExitWakeParent? && s.procs[p].pc.j < |s.procs|
    requires s.procs[p].pc.j == s.procs[p].parent && s.procs[p].parent != p ==> !Waits(s.procs[s.procs[p].parent])
    requires s' == Set(s, p, s.procs[p].(pc := ExitWakeParent(s.procs[p].pc.j + 1)))
    ensures Inv(s')
  {
    assert ProcOk(s, p);
    ExitMoves(s, s', p);
    WaiterMoves(s, s', p);
    LockerStep(s, s', p);
  }

  lemma BecomeZombieInv(s: Sys, s': Sys, c: int, p: int)
    requires Inv(s) && BecomeZombie(s, s', c, p)
    ensures Inv(s')
  {
    assert ProcOk(s, p);
    ZombieFrames(s, s', c, p);
    KeepCpus(s, s');
    KeepProcs(s, s');
    KeepForks(s, s');
    KeepWaitLock(s, s');
    KeepPids(s, s');
    ExitMoves(s, s', p);
    ZombieFamily(s, s', c, p);
    ZombieWaiters(s, s', c, p);
  }

  lemma ZombieFrames(s: Sys, s': Sys, c: int, p: int)
    requires BecomeZombie(s, s', c, p) && s.procs[p].state.RUNNING? && s.procs[p].on == c
    ensures SameCpus(s, s') && SameOrOk(s, s') && SameForks(s, s') && SameWaitLock(s, s') && SamePids(s, s')
  {
    SameSlots(s, s');
  }

  lemma ZombieFamily(s: Sys, s': Sys, c: int, p: int)
    requires ParentsOk(s) && ExitOk(s) && BecomeZombie(s, s', c, p) && s.procs[p].state.RUNNING?
    ensures ParentsOk(s')
  {
    SameSlots(s, s');
    assert Childless(s, p, |s.procs|);
  }

  /** The parent was woken up and cannot have gone back to sleep without wait_lock. */
  lemma ZombieWaiters(s: Sys, s': Sys, c: int, p: int)
    requires WaitersOk(s) && WaitLockOk(s) && ParentsOk(s) && BecomeZombie(s, s', c, p)
    ensures WaitersOk(s')
  {
    SameSlots(s, s');
    assert forall x, q :: ZombieChild(s', q, x) && q != p ==> ZombieChild(s, q, x);
  }

  /** A zombie whose lock is free is on no CPU: its kernel stack is not in use. */
  lemma FreeZombieIsOff(s: Sys, i: int)
    requires Inv(s) && IsProc(s, i) && s.procs[i].lock == -1 && s.procs[i].state.ZOMBIE?
    ensures s.procs[i].on == -1 && s.procs[i].pc.Dead? && i != s.init
    ensures forall c :: IsCpu(s, c) ==> s.cpus[c].proc != i
    ensures forall q :: IsProc(s, q) ==> s.procs[q].parent != i
  {
    assert ProcOk(s, i);
  }

  lemma WaitReapInv(s: Sys, s': Sys, c: int, p: int)
    requires Inv(s) && WaitReap(s, s', c, p)
    ensures Inv(s')
  {
    var i := s.procs[p].pc.i;
    assert ProcOk(s, p);
    FreeZombieIsOff(s, i);
    ReapFrames(s, s', c, p);
    KeepCpus(s, s');
    KeepProcs(s, s');
    KeepForks(s, s');
    ReapFamily(s, s', c, p);
    ReapWaiters(s, s', c, p);
    ReapPids(s, s', c, p);
  }

  lemma ReapFrames(s: Sys, s': Sys, c: int, p: int)
    requires WaitReap(s, s', c, p) && s.procs[s.procs[p].pc.i].on == -1 && s.procs[s.procs[p].pc.i].pc.Dead?
    requires ProcOk(s, p) && s.procs[p].state.RUNNING?
    ensures SameCpus(s, s') && SameOrOk(s, s') && SameForks(s, s')
  {
    SameSlots(s, s');
  }

  lemma ReapFamily(s: Sys, s': Sys, c: int, p: int)
    requires ParentsOk(s) && WaitLockOk(s) && WaitReap(s, s', c, p) && s.procs[p].pc.i != s.init
    ensures ParentsOk(s') && WaitLockOk(s')
  {
    SameSlots(s, s');
  }

  lemma ReapWaiters(s: Sys, s': Sys, c: int, p: int)
    requires WaitersOk(s) && WaitLockOk(s) && ExitOk(s) && WaitReap(s, s', c, p)
    ensures WaitersOk(s') && ExitOk(s')
  {
    SameSlots(s, s');
    assert forall x, q :: ZombieChild(s', q, x) ==> ZombieChild(s, q, x);
  }

  lemma ReapPids(s: Sys, s': Sys, c: int, p: int)
    requires PidsOk(s) && WaitReap(s, s', c, p)
    ensures PidsOk(s')
  {
    SameSlots(s, s');
    forall x, y
      ensures PidsApart(s', x, y)
    {
      assert PidsApart(s, x, y);
    }
    assert forall x {:trigger IsProc(s', x)} :: PidsApart(s, s.procs[p].pc.i, x);
  }

  // ----- Runs -----

  /** What happened in a step: by process `p` on CPU `c` where that matters, to slot `q`. */
  datatype Event =
    | SchedRunEvent(c: int, p: int)
    | SchedReleaseEvent(c: int)
    | ResumeEvent(c: int, p: int)
    | ResumeWaitEvent(c: int, p: int)
    | YieldEvent(c: int, p: int)
    | SleepEvent(c: int, p: int, n: int)
    | WakeEvent(q: int)
    | KillEvent(q: int, pid: int)
    | ForkEvent(c: int, p: int, q: int)
    | ExitEvent(c: int, p: int)
    | WaitEvent(c: int, p: int)

  /** A step inside fork. */
  predicate ForkStep(s: Sys, s': Sys, c: int, p: int, q: int) {
    || ForkAlloc(s, s', c, p, q)
    || ForkFail(s, s', c, p)
    || ForkCopied(s, s', c, p)
    || ForkSetParent(s, s', c, p)
    || ForkMakeRunnable(s, s', c, p)
  }

  /** A step inside exit. */
  predicate ExitStep(s: Sys, s': Sys, c: int, p: int) {
    || ExitBegin(s, s', c, p)
    || Reparent(s, s', c, p)
    || WakeInit(s, s', c, p)
    || ReparentDone(s, s', c, p)
    || WakeParent(s, s', c, p)
    || BecomeZombie(s, s', c, p)
    || ExitUnlock(s, s', c, p)
    || ExitSwitch(s, s', c, p)
  }

  /** A step inside wait. */
  predicate WaitStep(s: Sys, s': Sys, c: int, p: int) {
    || WaitBegin(s, s', c, p)
    || WaitSkip(s, s', c, p)
    || WaitReap(s, s', c, p)
    || WaitReturn(s, s', c, p)
    || WaitLock(s, s', c, p)
    || WaitUnlock(s, s', c, p)
    || WaitSleep(s, s', c, p)
  }

  predicate Next(s: Sys, s': Sys, e: Event) {
    || (e.SchedRunEvent? && SchedRun(s, s', e.c, e.p))
    || (e.SchedReleaseEvent? && SchedRelease(s, s', e.c))
    || (e.ResumeEvent? && Resume(s, s', e.c, e.p))
    || (e.ResumeWaitEvent? && ResumeWait(s, s', e.c, e.p))
    || (e.YieldEvent? && Yield(s, s', e.c, e.p))
    || (e.SleepEvent? && SleepOther(s, s', e.c, e.p, e.n))
    || (e.WakeEvent? && WakeOther(s, s', e.q))
    || (e.KillEvent? && Kill(s, s', e.q, e.pid))
    || (e.ForkEvent? && ForkStep(s, s', e.c, e.p, e.q))
    || (e.ExitEvent? && ExitStep(s, s', e.c, e.p))
    || (e.WaitEvent? && WaitStep(s, s', e.c, e.p))
  }

  /** After userinit: init can run, every other slot is free, every CPU is in its scheduler. */
  ghost predicate Init(s: Sys) {
    && IsProc(s, s.init) && s.waitLock == -1 && s.nextPid == 2 && s.reaped == []
    && (forall c {:trigger IsCpu(s, c)} :: IsCpu(s, c) ==> s.cpus[c] == Cpu(-1, Idle))
    && (forall p {:trigger IsProc(s, p)} :: IsProc(s, p) ==>
          s.procs[p] == if p == s.init then Proc(RUNNABLE, NoChan, -1, 1, false, -1, Ret, -1)
                        else Proc(UNUSED, NoChan, -1, 0, false, -1, Ret, -1))
  }

  lemma InitInv(s: Sys)
    requires Init(s)
    ensures Inv(s)
  {
  }

  lemma ForkStepInv(s: Sys, s': Sys, c: int, p: int, q: int)
    requires Inv(s) && ForkStep(s, s', c, p, q)
    ensures Inv(s')
  {
    if ForkAlloc(s, s', c, p, q) {
      ForkAllocInv(s, s', c, p, q);
    } else if ForkFail(s, s', c, p) {
      ForkFailInv(s, s', c, p);
    } else if ForkCopied(s, s', c, p) {
      ForkCopiedInv(s, s', c, p);
    } else if ForkSetParent(s, s', c, p) {
      ForkSetParentInv(s, s', c, p);
    } else {
      ForkMakeRunnableInv(s, s', c, p);
    }
  }

  lemma ExitStepInv(s: Sys, s': Sys, c: int, p: int)
    requires Inv(s) && ExitStep(s, s', c, p)
    ensures Inv(s')
  {
    if ExitBegin(s, s', c, p) {
      ExitBeginInv(s, s', c, p);
    } else if Reparent(s, s', c, p) {
      if s.procs[s.procs[p].pc.i].parent == p {
        ReparentChildInv(s, s', c, p);
      } else {
        ReparentSkipInv(s, s', c, p);
      }
    } else if WakeInit(s, s', c, p) {
      WakeInitInv(s, s', c, p);
    } else if ReparentDone(s, s', c, p) {
      ReparentDoneInv(s, s', c, p);
    } else if WakeParent(s, s', c, p) {
      WakeParentInv(s, s', c, p);
    } else if BecomeZombie(s, s', c, p) {
      BecomeZombieInv(s, s', c, p);
    } else if ExitUnlock(s, s', c, p) {
      ExitUnlockInv(s, s', c, p);
    } else {
      ExitSwitchInv(s, s', c, p);
    }
  }

  lemma WaitStepInv(s: Sys, s': Sys, c: int, p: int)
    requires Inv(s) && WaitStep(s, s', c, p)
    ensures Inv(s')
  {
    if WaitBegin(s, s', c, p) {
      WaitBeginInv(s, s', c, p);
    } else if WaitSkip(s, s', c, p) {
      WaitSkipInv(s, s', c, p);
    } else if WaitReap(s, s', c, p) {
      WaitReapInv(s, s', c, p);
    } else if WaitReturn(s, s', c, p) {
      WaitReturnInv(s, s', c, p);
    } else if WaitLock(s, s', c, p) {
      WaitLockInv(s, s', c, p);
    } else if WaitUnlock(s, s', c, p) {
      WaitUnlockInv(s, s', c, p);
    } else {
      WaitSleepInv(s, s', c, p);
    }
  }

  lemma StepInv(s: Sys, s': Sys, e: Event)
    requires Inv(s) && Next(s, s', e)
    ensures Inv(s')
  {
    match e
    case SchedRunEvent(c, p) => SchedRunInv(s, s', c, p);
    case SchedReleaseEvent(c) => SchedReleaseInv(s, s', c);
    case ResumeEvent(c, p) => ResumeInv(s, s', c, p);
    case ResumeWaitEvent(c, p) => ResumeWaitInv(s, s', c, p);
    case YieldEvent(c, p) => YieldInv(s, s', c, p);
    case SleepEvent(c, p, n) => SleepOtherInv(s, s', c, p, n);
    case WakeEvent(q) => RousedInv(s, s', q);
    case KillEvent(q, pid) => KillInv(s, s', q, pid);
    case ForkEvent(c, p, q) => ForkStepInv(s, s', c, p, q);
    case ExitEvent(c, p) => ExitStepInv(s, s', c, p);
    case WaitEvent(c, p) => WaitStepInv(s, s', c, p);
  }

  ghost predicate Step(s: Sys, s': Sys) {
    exists e :: Next(s, s', e)
  }

  /** Every interleaving of the steps of all processes and CPUs. */
  ghost predicate IsRun(run: seq<Sys>) {
    |run| > 0 && forall i :: 0 <= i < |run| ==> StepAt(run, i)
  }

  ghost predicate StepAt(run: seq<Sys>, i: int)
    requires 0 <= i < |run|
  {
    if i == 0 then Init(run[0]) else Step(run[i - 1], run[i])
  }

  lemma {:induction false} RunInv(run: seq<Sys>, i: nat)
    requires IsRun(run) && i < |run|
    ensures Inv(run[i])
  {
    assert StepAt(run, i);
    if i == 0 {
      InitInv(run[0]);
    } else {
      RunInv(run, i - 1);
      var e :| Next(run[i - 1], run[i], e);
      StepInv(run[i - 1], run[i], e);
    }
  }

  // ----- What every run guarantees -----

  /** A process whose lock is free is RUNNING exactly when some CPU has it, and never two CPUs have it. */
  ghost predicate Exclusive(s: Sys) {
    && (forall p {:trigger IsProc(s, p)} :: IsProc(s, p) && s.procs[p].lock == -1 ==>
          (s.procs[p].state.RUNNING? <==> exists c :: IsCpu(s, c) && s.cpus[c].proc == p))
    && (forall c, d :: IsCpu(s, c) && IsCpu(s, d) && s.cpus[c].proc == s.cpus[d].proc != -1 ==> c == d)
  }

  lemma SchedulerExclusive(run: seq<Sys>, i: nat)
    requires IsRun(run) && i < |run|
    ensures Exclusive(run[i])
  {
    RunInv(run, i);
    var s := run[i];
    forall p | IsProc(s, p) && s.procs[p].lock == -1
      ensures s.procs[p].state.RUNNING? <==> exists c :: IsCpu(s, c) && s.cpus[c].proc == p
    {
      assert ProcOk(s, p);
      if s.procs[p].on != -1 {
        assert s.cpus[s.procs[p].on].proc == p;
      }
    }
  }

  /**
   Whenever wait_lock is free: nobody asleep in wait has a zombie child, and
   every process but init has a living parent.
   */
  ghost predicate Reapable(s: Sys) {
    && (forall p, q {:trigger ZombieChild(s, q, p)} :: IsProc(s, p) && ZombieChild(s, q, p) ==>
          !(s.procs[p].state.SLEEPING? && s.procs[p].chan == ProcChan(p)))
    && (forall p {:trigger IsProc(s, p)} ::
        IsProc(s, p) && p != s.init && (Alive(s.procs[p].state) || s.procs[p].state.ZOMBIE?) ==>
          IsProc(s, s.procs[p].parent) && Alive(s.procs[s.procs[p].parent].state))
  }

  lemma ExitWaitProtocol(run: seq<Sys>, i: nat)
    requires IsRun(run) && i < |run|
    ensures run[i].waitLock == -1 ==> Reapable(run[i])
    ensures forall k, m :: 0 <= k < m < |run[i].reaped| ==> run[i].reaped[k] != run[i].reaped[m]
  {
    RunInv(run, i);
    var s := run[i];
    if s.waitLock == -1 {
      forall p, q | IsProc(s, p) && ZombieChild(s, q, p)
        ensures !(s.procs[p].state.SLEEPING? && s.procs[p].chan == ProcChan(p))
      {
        assert ProcOk(s, p);
      }
    }
  }

  /** wait never frees a process whose kernel stack some CPU is still using. */
  lemma ReapIsSafe(run: seq<Sys>, i: nat, c: int, p: int)
    requires IsRun(run) && 0 < i < |run| && WaitReap(run[i - 1], run[i], c, p)
    ensures var s, q := run[i - 1], run[i - 1].procs[p].pc.i;
      && (forall d :: IsCpu(s, d) ==> s.cpus[d].proc != q)
      && (forall r :: IsProc(s, r) ==> s.procs[r].parent != q)
      && s.procs[q].pid !in s.reaped && s.procs[q].pid in run[i].reaped
  {
    RunInv(run, i - 1);
    var s, q := run[i - 1], run[i - 1].procs[p].pc.i;
    FreeZombieIsOff(s, q);
    assert run[i].reaped[|s.reaped|] == s.procs[q].pid;
  }

  // ----- Processes that are born killed -----

  /** No slot that is not in use is marked as killed. */
  ghost predicate Unmarked(s: Sys) {
    forall p {:trigger IsProc(s, p)} :: IsProc(s, p) && s.procs[p].state.UNUSED? ==> !s.procs[p].killed
  }

  /** A step in which no kill(0) finds a slot. */
  ghost predicate StepWithoutZero(s: Sys, s': Sys) {
    exists e :: Next(s, s', e) && !(e.KillEvent? && e.pid == 0)
  }

  ghost predicate NoKillZeroAt(run: seq<Sys>, i: int)
    requires 0 <= i < |run|
  {
    i > 0 ==> StepWithoutZero(run[i - 1], run[i])
  }

  /** Nobody calls kill(0), or it finds no slot. */
  ghost predicate NoKillZero(run: seq<Sys>) {
    forall i {:trigger NoKillZeroAt(run, i)} :: 0 <= i < |run| ==> NoKillZeroAt(run, i)
  }

  /** In step `i` of the run allocproc takes slot `np` for a new process. */
  ghost predicate Born(run: seq<Sys>, i: int, np: int) {
    0 < i < |run| && Allocates(run[i - 1], run[i], np)
  }

  ghost predicate Allocates(s: Sys, s': Sys, np: int) {
    exists c, p :: ForkAlloc(s, s', c, p, np)
  }

  /** Slots that are not in use keep their mark or become unmarked. */
  ghost predicate NoNewMarks(s: Sys, s': Sys) {
    && |s'.procs| == |s.procs| && |s'.cpus| == |s.cpus|
    && forall p {:trigger IsProc(s', p)} :: IsProc(s', p) && s'.procs[p].state.UNUSED? && s'.procs[p].killed ==>
         s.procs[p].state.UNUSED? && s.procs[p].killed
  }

  lemma SchedMarks(s: Sys, s': Sys, c: int, p: int)
    requires SchedRun(s, s', c, p) || SchedRelease(s, s', c) || Resume(s, s', c, p) || ResumeWait(s, s', c, p)
      || Yield(s, s', c, p)
    ensures NoNewMarks(s, s')
  {
  }

  lemma SleepMarks(s: Sys, s': Sys, c: int, p: int, n: int)
    requires SleepOther(s, s', c, p, n) || WakeOther(s, s', p)
    ensures NoNewMarks(s, s')
  {
  }

  lemma ForkMarks(s: Sys, s': Sys, c: int, p: int, q: int)
    requires ForkStep(s, s', c, p, q)
    ensures NoNewMarks(s, s')
  {
  }

  lemma ExitMarks(s: Sys, s': Sys, c: int, p: int)
    requires ExitStep(s, s', c, p)
    ensures NoNewMarks(s, s')
  {
  }

  lemma WaitMarks(s: Sys, s': Sys, c: int, p: int)
    requires WaitStep(s, s', c, p)
    ensures NoNewMarks(s, s')
  {
  }

  /** Only kill(0) marks a slot that is not in use. */
  lemma StepMarks(s: Sys, s': Sys, e: Event)
    requires Inv(s) && Next(s, s', e)
    ensures |s'.procs| == |s.procs| && |s'.cpus| == |s.cpus|
    ensures !(e.KillEvent? && e.pid == 0) ==> NoNewMarks(s, s')
  {
    match e
    case SchedRunEvent(c, p) => SchedMarks(s, s', c, p);
    case SchedReleaseEvent(c) => SchedMarks(s, s', c, 0);
    case ResumeEvent(c, p) => SchedMarks(s, s', c, p);
    case ResumeWaitEvent(c, p) => SchedMarks(s, s', c, p);
    case YieldEvent(c, p) => SchedMarks(s, s', c, p);
    case SleepEvent(c, p, n) => SleepMarks(s, s', c, p, n);
    case WakeEvent(q) => SleepMarks(s, s', 0, q, 0);
    case KillEvent(_, _) =>
    case ForkEvent(c, p, q) => ForkMarks(s, s', c, p, q);
    case ExitEvent(c, p) => ExitMarks(s, s', c, p);
    case WaitEvent(c, p) => WaitMarks(s, s', c, p);
  }

  lemma {:induction false} SizesStay(run: seq<Sys>, i: nat)
    requires IsRun(run) && i < |run|
    ensures |run[i].procs| == |run[0].procs| && |run[i].cpus| == |run[0].cpus|
  {
    if i > 0 {
      SizesStay(run, i - 1);
      RunInv(run, i - 1);
      assert StepAt(run, i);
      var e :| Next(run[i - 1], run[i], e);
      StepMarks(run[i - 1], run[i], e);
    }
  }

  lemma UnmarkedStep(s: Sys, s': Sys)
    requires Unmarked(s) && NoNewMarks(s, s')
    ensures Unmarked(s')
  {
    forall p | IsProc(s', p) && s'.procs[p].state.UNUSED?
      ensures !s'.procs[p].killed
    {
      assert IsProc(s, p);
    }
  }

  /** Without kill(0) no free slot is ever marked. */
  lemma {:induction false} StaysUnmarked(run: seq<Sys>, i: nat)
    requires IsRun(run) && NoKillZero(run) && i < |run|
    ensures Unmarked(run[i])
  {
    assert StepAt(run, 0);
    if i > 0 {
      StaysUnmarked(run, i - 1);
      RunInv(run, i - 1);
      assert NoKillZeroAt(run, i);
      var e :| Next(run[i - 1], run[i], e) && !(e.KillEvent? && e.pid == 0);
      StepMarks(run[i - 1], run[i], e);
      UnmarkedStep(run[i - 1], run[i]);
    }
  }

  /** Without kill(0) every process is born unkilled, in every run. */
  lemma BornUnkilled(run: seq<Sys>, i: int, np: int)
    requires IsRun(run) && NoKillZero(run) && Born(run, i, np)
    ensures IsProc(run[i], np) && run[i].procs[np].state.USED? && !run[i].procs[np].killed
  {
    StaysUnmarked(run, i - 1);
    assert IsProc(run[i - 1], np);
  }

  /** A run on a machine with that many slots and CPUs, where kill(0) may be called or not. */
  ghost predicate RunOn(run: seq<Sys>, slots: nat, cpus: nat, zero: bool) {
    IsRun(run) && |run[0].procs| == slots && |run[0].cpus| == cpus && (zero || NoKillZero(run))
  }

  /** On such a machine no process is ever born killed. */
  ghost predicate AllBornUnkilled(slots: nat, cpus: nat, zero: bool) {
    forall run: seq<Sys>, i: int, np: int {:trigger Born(run, i, np)} ::
      RunOn(run, slots, cpus, zero) && Born(run, i, np) ==> IsProc(run[i], np) && !run[i].procs[np].killed
  }

  /** The state after userinit, with init in slot 0. */
  function Booted(slots: nat, cpus: nat): Sys {
    var free := Proc(UNUSED, NoChan, -1, 0, false, -1, Ret, -1);
    Sys(seq(slots, p => if p == 0 then Proc(RUNNABLE, NoChan, -1, 1, false, -1, Ret, -1) else free),
        seq(cpus, _ => Cpu(-1, Idle)), -1, 2, 0, [])
  }

  lemma ExtendRun(run: seq<Sys>, s': Sys, e: Event)
    requires IsRun(run) && Next(run[|run| - 1], s', e)
    ensures IsRun(run + [s'])
  {
    var run' := run + [s'];
    forall i | 0 <= i < |run'|
      ensures StepAt(run', i)
    {
      if i < |run| {
        assert StepAt(run, i);
      }
    }
  }

  /** init runs, marks slot 1 with kill(0), and forks into it. */
  lemma KilledBeforeBirth(slots: nat, cpus: nat) returns (run: seq<Sys>)
    requires 2 <= slots && 1 <= cpus
    ensures RunOn(run, slots, cpus, true)
    ensures Born(run, 4, 1) && IsProc(run[4], 1) && run[4].procs[1].killed
  {
    var s0 := Booted(slots, cpus);
    var s1 := SetCpu(Set(s0, 0, s0.procs[0].(state := RUNNING, lock := 0, on := 0)), 0, Cpu(0, Run));
    var s2 := Set(s1, 0, s1.procs[0].(lock := -1, pc := User));
    var s3 := Set(s2, 1, s2.procs[1].(killed := true));
    var s4 := Set(Set(s3, 1, Proc(USED, NoChan, -1, 2, true, 0, Ret, -1)), 0, s3.procs[0].(pc := ForkCopy(1)))
              .(nextPid := 3);
    run := [s0];
    assert Init(s0);
    assert IsRun(run);
    ExtendRun(run, s1, SchedRunEvent(0, 0));
    ExtendRun([s0] + [s1], s2, ResumeEvent(0, 0));
    ExtendRun([s0] + [s1] + [s2], s3, KillEvent(1, 0));
    assert ForkAlloc(s3, s4, 0, 0, 1);
    ExtendRun([s0] + [s1] + [s2] + [s3], s4, ForkEvent(0, 0, 1));
    run := [s0] + [s1] + [s2] + [s3] + [s4];
    assert run[3] == s3 && run[4] == s4;
  }

  /** Every process is born unkilled exactly if nobody calls kill(0), no slot can be marked, or nobody runs. */
  lemma BornUnkilledExactly(slots: nat, cpus: nat, zero: bool)
    ensures AllBornUnkilled(slots, cpus, zero) <==> !zero || slots < 2 || cpus < 1
  {
    if zero && slots >= 2 && cpus >= 1 {
      var run := KilledBeforeBirth(slots, cpus);
      assert Born(run, 4, 1);
    } else {
      forall run: seq<Sys>, i: int, np: int | RunOn(run, slots, cpus, zero) && Born(run, i, np)
        ensures IsProc(run[i], np) && !run[i].procs[np].killed
      {
        SizesStay(run, i - 1);
        if !zero {
          BornUnkilled(run, i, np);
        }
      }
    }
  }

  // ----- What wait and kill tell their callers -----

  ghost predicate HasChildBelow(s: Sys, p: int, n: int) {
    exists q {:trigger IsProc(s, q)} :: IsProc(s, q) && q < n && s.procs[q].parent == p
  }

  /** havekids of wait: whether one of the slots looked at is a child. A process has a channel only while it sleeps. */
  ghost predicate ScanOk(s: Sys, p: int)
    requires IsProc(s, p)
  {
    && (s.procs[p].pc.WaitScan? ==> (s.procs[p].pc.kids <==> HasChildBelow(s, p, s.procs[p].pc.i)))
    && (s.procs[p].chan.NoChan? || s.procs[p].pc.Asleep? || s.procs[p].pc.WaitAsleep?)
  }

  ghost predicate Scans(s: Sys) {
    forall p {:trigger ScanOk(s, p)} :: IsProc(s, p) ==> ScanOk(s, p)
  }

  /** The families are as they were, and nobody has got further in a scan. */
  ghost predicate SameScans(s: Sys, s': Sys) {
    && |s'.procs| == |s.procs|
    && (forall q {:trigger IsProc(s', q)} :: IsProc(s', q) ==>
          && s'.procs[q].parent == s.procs[q].parent
          && (s'.procs[q].pc.WaitScan? ==> s'.procs[q].pc == s.procs[q].pc)
          && ChanKept(s.procs[q], s'.procs[q]))
  }

  predicate ChanKept(q: Proc, q': Proc) {
    || q'.chan.NoChan? || q'.pc.Asleep? || q'.pc.WaitAsleep?
    || (q'.chan == q.chan && q'.pc == q.pc)
    || (q'.chan == q.chan && !q.pc.Asleep? && !q.pc.WaitAsleep?)
  }

  lemma KeepScans(s: Sys, s': Sys)
    requires Scans(s) && SameScans(s, s')
    ensures Scans(s')
  {
    forall p | IsProc(s', p)
      ensures ScanOk(s', p)
    {
      assert IsProc(s, p) && ScanOk(s, p);
      if s'.procs[p].pc.WaitScan? {
        SameChildren(s, s', p, s.procs[p].pc.i);
      }
    }
  }

  lemma SameChildren(s: Sys, s': Sys, p: int, n: int)
    requires SameScans(s, s')
    ensures HasChildBelow(s', p, n) <==> HasChildBelow(s, p, n)
  {
    assert forall q {:trigger IsProc(s', q)} :: IsProc(s', q) <==> IsProc(s, q);
    if HasChildBelow(s, p, n) {
      var q :| IsProc(s, q) && q < n && s.procs[q].parent == p;
      assert IsProc(s', q);
    }
    if HasChildBelow(s', p, n) {
      var q :| IsProc(s', q) && q < n && s'.procs[q].parent == p;
      assert IsProc(s, q);
    }
  }

  lemma SchedScans(s: Sys, s': Sys, c: int, p: int)
    requires SchedRun(s, s', c, p) || SchedRelease(s, s', c) || Resume(s, s', c, p) || ResumeWait(s, s', c, p)
      || Yield(s, s', c, p)
    ensures SameScans(s, s')
  {
  }

  lemma SleepScans(s: Sys, s': Sys, c: int, p: int, n: int)
    requires SleepOther(s, s', c, p, n) || WakeOther(s, s', p) || Kill(s, s', p, n)
    ensures SameScans(s, s')
  {
  }

  /** While somebody else holds wait_lock, or nobody does, no process is in a scan. */
  lemma NoScan(s: Sys, p: int)
    requires Inv(s) && (s.waitLock == -1 || (IsProc(s, p) && s.waitLock == p && !s.procs[p].pc.WaitScan?))
    ensures NobodyScans(s)
  {
  }

  /** No process is in a scan afterwards, and channels are in order. */
  ghost predicate NoScanAfter(s: Sys, s': Sys) {
    && |s'.procs| == |s.procs|
    && forall q {:trigger IsProc(s', q)} :: IsProc(s', q) ==>
         !s'.procs[q].pc.WaitScan? && ChanKept(s.procs[q], s'.procs[q])
  }

  lemma NoScansLeft(s: Sys, s': Sys)
    requires Scans(s) && NoScanAfter(s, s')
    ensures Scans(s')
  {
    forall p | IsProc(s', p)
      ensures ScanOk(s', p)
    {
      assert IsProc(s, p) && ScanOk(s, p);
    }
  }

  ghost predicate NobodyScans(s: Sys) {
    forall q {:trigger IsProc(s, q)} :: IsProc(s, q) ==> !s.procs[q].pc.WaitScan?
  }

  lemma SetParentScans(s: Sys, s': Sys, c: int, p: int)
    requires ForkSetParent(s, s', c, p) && NobodyScans(s)
    ensures NoScanAfter(s, s')
  {
    forall q | IsProc(s', q)
      ensures !s'.procs[q].pc.WaitScan? && ChanKept(s.procs[q], s'.procs[q])
    {
      assert IsProc(s, q);
    }
  }

  lemma ForkFrame(s: Sys, s': Sys, c: int, p: int, q: int)
    requires ForkStep(s, s', c, p, q) && !ForkSetParent(s, s', c, p)
    requires IsProc(s, q) && s.procs[q].state.UNUSED? ==> s.procs[q].parent == -1
    requires IsProc(s, p) && s.procs[p].pc.ForkCopy? && IsProc(s, s.procs[p].pc.np) ==>
               s.procs[s.procs[p].pc.np].parent == -1
    ensures SameScans(s, s')
  {
  }

  lemma ForkScans(s: Sys, s': Sys, c: int, p: int, q: int)
    requires Inv(s) && Scans(s) && ForkStep(s, s', c, p, q)
    ensures Scans(s')
  {
    if ForkSetParent(s, s', c, p) {
      NoScan(s, p);
      SetParentScans(s, s', c, p);
      NoScansLeft(s, s');
    } else {
      if IsProc(s, q) {
        assert ProcOk(s, q);
      }
      ForkFrame(s, s', c, p, q);
      KeepScans(s, s');
    }
  }

  lemma ReparentScans(s: Sys, s': Sys, c: int, p: int)
    requires Reparent(s, s', c, p) && NobodyScans(s)
    ensures NoScanAfter(s, s')
  {
    forall q | IsProc(s', q)
      ensures !s'.procs[q].pc.WaitScan? && ChanKept(s.procs[q], s'.procs[q])
    {
      assert IsProc(s, q);
    }
  }

  lemma WakeFrame(s: Sys, s': Sys, c: int, p: int)
    requires WakeInit(s, s', c, p) || WakeParent(s, s', c, p)
    ensures SameScans(s, s')
  {
  }

  lemma ExitFrame(s: Sys, s': Sys, c: int, p: int)
    requires ExitBegin(s, s', c, p) || ReparentDone(s, s', c, p) || BecomeZombie(s, s', c, p)
      || ExitUnlock(s, s', c, p) || ExitSwitch(s, s', c, p)
    ensures SameScans(s, s')
  {
  }

  lemma ExitScans(s: Sys, s': Sys, c: int, p: int)
    requires Inv(s) && Scans(s) && ExitStep(s, s', c, p)
    ensures Scans(s')
  {
    if Reparent(s, s', c, p) {
      NoScan(s, p);
      ReparentScans(s, s', c, p);
      NoScansLeft(s, s');
    } else {
      if WakeInit(s, s', c, p) || WakeParent(s, s', c, p) {
        WakeFrame(s, s', c, p);
      } else {
        ExitFrame(s, s', c, p);
      }
      KeepScans(s, s');
    }
  }

  lemma WaitScans(s: Sys, s': Sys, c: int, p: int)
    requires Inv(s) && Scans(s) && WaitStep(s, s', c, p)
    ensures Scans(s')
  {
    if WaitBegin(s, s', c, p) {
      BeginScans(s, s', c, p);
    } else if WaitSkip(s, s', c, p) {
      SkipScans(s, s', c, p);
    } else if WaitReap(s, s', c, p) {
      ReapScans(s, s', c, p);
    } else {
      assert SameScans(s, s');
      KeepScans(s, s');
    }
  }

  lemma BeginScans(s: Sys, s': Sys, c: int, p: int)
    requires Inv(s) && Scans(s) && WaitBegin(s, s', c, p)
    ensures Scans(s')
  {
    NoScan(s, p);
    forall q | IsProc(s', q)
      ensures ScanOk(s', q)
    {
      assert IsProc(s, q) && ScanOk(s, q);
    }
  }

  lemma SkipScans(s: Sys, s': Sys, c: int, p: int)
    requires Inv(s) && Scans(s) && WaitSkip(s, s', c, p)
    ensures Scans(s')
  {
    forall q | IsProc(s', q)
      ensures ScanOk(s', q)
    {
      assert IsProc(s, q) && ScanOk(s, q);
      if q == p {
        SkipScan(s, s', c, p, s.procs[p].pc.i);
      } else {
        assert !s.procs[q].pc.WaitScan?;
      }
    }
  }

  lemma SkipScan(s: Sys, s': Sys, c: int, p: int, i: int)
    requires WaitSkip(s, s', c, p) && ScanOk(s, p) && i == s.procs[p].pc.i
    ensures s'.procs[p].pc.kids <==> HasChildBelow(s', p, i + 1)
  {
    assert forall q {:trigger IsProc(s', q)} :: IsProc(s', q) ==> s'.procs[q].parent == s.procs[q].parent;
    if s.procs[i].parent == p {
      assert IsProc(s', i);
    } else if s.procs[p].pc.kids {
      var q :| IsProc(s, q) && q < i && s.procs[q].parent == p;
      assert IsProc(s', q);
    } else {
      assert forall q {:trigger IsProc(s', q)} :: IsProc(s', q) && q < i ==> IsProc(s, q) && s.procs[q].parent != p;
    }
  }

  lemma ReapScans(s: Sys, s': Sys, c: int, p: int)
    requires Inv(s) && Scans(s) && WaitReap(s, s', c, p)
    ensures Scans(s')
  {
    forall q | IsProc(s', q)
      ensures !s'.procs[q].pc.WaitScan? && ChanKept(s.procs[q], s'.procs[q])
    {
      assert IsProc(s, q);
    }
    NoScansLeft(s, s');
  }

  lemma ScanStep(s: Sys, s': Sys, e: Event)
    requires Inv(s) && Scans(s) && Next(s, s', e)
    ensures Scans(s')
  {
    match e
    case ForkEvent(c, p, q) => ForkScans(s, s', c, p, q);
    case ExitEvent(c, p) => ExitScans(s, s', c, p);
    case WaitEvent(c, p) => WaitScans(s, s', c, p);
    case SchedRunEvent(c, p) => SchedScans(s, s', c, p); KeepScans(s, s');
    case SchedReleaseEvent(c) => SchedScans(s, s', c, 0); KeepScans(s, s');
    case ResumeEvent(c, p) => SchedScans(s, s', c, p); KeepScans(s, s');
    case ResumeWaitEvent(c, p) => SchedScans(s, s', c, p); KeepScans(s, s');
    case YieldEvent(c, p) => SchedScans(s, s', c, p); KeepScans(s, s');
    case SleepEvent(c, p, n) => SleepScans(s, s', c, p, n); KeepScans(s, s');
    case WakeEvent(q) => SleepScans(s, s', 0, q, 0); KeepScans(s, s');
    case KillEvent(q, pid) => SleepScans(s, s', 0, q, pid); KeepScans(s, s');
  }

  lemma {:induction false} RunScans(run: seq<Sys>, i: nat)
    requires IsRun(run) && i < |run|
    ensures Scans(run[i])
  {
    assert StepAt(run, i);
    if i == 0 {
      forall p | IsProc(run[0], p)
        ensures ScanOk(run[0], p)
      {
      }
    } else {
      RunScans(run, i - 1);
      RunInv(run, i - 1);
      var e :| Next(run[i - 1], run[i], e);
      ScanStep(run[i - 1], run[i], e);
    }
  }

  ghost predicate HasChild(s: Sys, p: int) {
    HasChildBelow(s, p, |s.procs|)
  }

  /** wait has looked at all slots, and the process is not killed. */
  predicate AtEndOfScan(s: Sys, p: int) {
    IsProc(s, p) && s.procs[p].pc.WaitScan? && s.procs[p].pc.i == |s.procs| && !s.procs[p].killed
  }

  /** In every run, wait that is not killed gives up after its scan only without a child, and sleeps only with one. */
  lemma WaitIsRight(run: seq<Sys>, i: nat, c: int, p: int)
    requires IsRun(run) && 0 < i < |run|
    ensures WaitReturn(run[i - 1], run[i], c, p) && AtEndOfScan(run[i - 1], p) ==> !HasChild(run[i - 1], p)
    ensures WaitLock(run[i - 1], run[i], c, p) ==> HasChild(run[i - 1], p)
  {
    RunScans(run, i - 1);
    if IsProc(run[i - 1], p) {
      assert ScanOk(run[i - 1], p);
    }
  }

  /** In every run, a process that is not asleep sleeps on no channel. */
  lemma ChanIsForSleep(run: seq<Sys>, i: nat, p: int)
    requires IsRun(run) && i < |run| && IsProc(run[i], p) && !run[i].procs[p].chan.NoChan?
    ensures run[i].procs[p].pc.Asleep? || run[i].procs[p].pc.WaitAsleep?
  {
    RunScans(run, i);
    assert ScanOk(run[i], p);
  }

  /** kill leaves its victim marked and awake, and touches nobody else. */
  lemma KillWakes(s: Sys, s': Sys, q: int, pid: int)
    requires Inv(s) && Kill(s, s', q, pid)
    ensures s'.procs[q].killed && !s'.procs[q].state.SLEEPING? && s'.procs[q].pid == pid
    ensures s.procs[q].state.SLEEPING? ==> s'.procs[q].state.RUNNABLE?
    ensures forall p :: IsProc(s, p) && p != q ==> s'.procs[p] == s.procs[p]
  {
  }

  /** Slots that are in use keep their mark. */
  ghost predicate KeepsMarks(s: Sys, s': Sys) {
    && |s'.procs| == |s.procs|
    && forall p {:trigger IsProc(s', p)} :: IsProc(s', p) && s.procs[p].killed && !s'.procs[p].state.UNUSED? ==>
         s'.procs[p].killed
  }

  lemma MarksOfSched(s: Sys, s': Sys, c: int, p: int, n: int)
    requires SchedRun(s, s', c, p) || SchedRelease(s, s', c) || Resume(s, s', c, p) || ResumeWait(s, s', c, p)
      || Yield(s, s', c, p) || SleepOther(s, s', c, p, n) || WakeOther(s, s', p) || Kill(s, s', p, n)
    ensures KeepsMarks(s, s')
  {
  }

  lemma MarksOfFork(s: Sys, s': Sys, c: int, p: int, q: int)
    requires ForkStep(s, s', c, p, q)
    ensures KeepsMarks(s, s')
  {
  }

  lemma MarksOfExit(s: Sys, s': Sys, c: int, p: int)
    requires ExitStep(s, s', c, p) || WaitStep(s, s', c, p)
    ensures KeepsMarks(s, s')
  {
  }

  /** Once killed, a process stays killed until its slot is freed. */
  lemma KilledStays(s: Sys, s': Sys, e: Event)
    requires Next(s, s', e)
    ensures KeepsMarks(s, s')
  {
    match e
    case SchedRunEvent(c, p) => MarksOfSched(s, s', c, p, 0);
    case SchedReleaseEvent(c) => MarksOfSched(s, s', c, 0, 0);
    case ResumeEvent(c, p) => MarksOfSched(s, s', c, p, 0);
    case ResumeWaitEvent(c, p) => MarksOfSched(s, s', c, p, 0);
    case YieldEvent(c, p) => MarksOfSched(s, s', c, p, 0);
    case SleepEvent(c, p, n) => MarksOfSched(s, s', c, p, n);
    case WakeEvent(q) => MarksOfSched(s, s', 0, q, 0);
    case KillEvent(q, pid) => MarksOfSched(s, s', 0, q, pid);
    case ForkEvent(c, p, q) => MarksOfFork(s, s', c, p, q);
    case ExitEvent(c, p) => MarksOfExit(s, s', c, p);
    case WaitEvent(c, p) => MarksOfExit(s, s', c, p);
  }

  // ----- Slots are not lost -----

  /** Process `p` is in fork and `i` is its child's slot. */
  predicate ForksInto(s: Sys, p: int, i: int) {
    IsProc(s, p) && s.procs[p].pc.Forking() && s.procs[p].pc.np == i
  }

  /** A slot that is only USED belongs to a fork under way. */
  ghost predicate NoLeak(s: Sys) {
    forall i {:trigger IsProc(s, i)} :: IsProc(s, i) && s.procs[i].state.USED? ==> exists p :: ForksInto(s, p, i)
  }

  /** Nobody starts or ends a fork. */
  ghost predicate KeepsForks(s: Sys, s': Sys) {
    && |s'.procs| == |s.procs|
    && (forall i {:trigger IsProc(s', i)} :: IsProc(s', i) && s'.procs[i].state.USED? ==> s.procs[i].state.USED?)
    && (forall p, i {:trigger ForksInto(s', p, i)} :: ForksInto(s, p, i) ==> ForksInto(s', p, i))
  }

  lemma KeepNoLeak(s: Sys, s': Sys)
    requires NoLeak(s) && KeepsForks(s, s')
    ensures NoLeak(s')
  {
    forall i | IsProc(s', i) && s'.procs[i].state.USED?
      ensures exists p :: ForksInto(s', p, i)
    {
      assert IsProc(s, i);
      var p :| ForksInto(s, p, i);
      assert ForksInto(s', p, i);
    }
  }

  lemma SchedForks(s: Sys, s': Sys, c: int, p: int, n: int)
    requires SchedRun(s, s', c, p) || SchedRelease(s, s', c) || Resume(s, s', c, p) || ResumeWait(s, s', c, p)
      || Yield(s, s', c, p) || SleepOther(s, s', c, p, n) || WakeOther(s, s', p) || Kill(s, s', p, n)
    ensures KeepsForks(s, s')
  {
  }

  lemma ExitForks(s: Sys, s': Sys, c: int, p: int)
    requires ExitStep(s, s', c, p)
    ensures KeepsForks(s, s')
  {
    if Reparent(s, s', c, p) {
      ReparentForks(s, s', c, p);
    } else if WakeInit(s, s', c, p) || WakeParent(s, s', c, p) {
      WakeForks(s, s', c, p);
    }
  }

  lemma ReparentForks(s: Sys, s': Sys, c: int, p: int)
    requires Reparent(s, s', c, p)
    ensures KeepsForks(s, s')
  {
  }

  lemma WakeForks(s: Sys, s': Sys, c: int, p: int)
    requires WakeInit(s, s', c, p) || WakeParent(s, s', c, p)
    ensures KeepsForks(s, s')
  {
  }

  lemma WaitForks(s: Sys, s': Sys, c: int, p: int)
    requires Inv(s) && WaitStep(s, s', c, p)
    ensures KeepsForks(s, s')
  {
    if WaitReap(s, s', c, p) {
      ZombieForksNot(s, s.procs[p].pc.i);
      ReapForks(s, s', c, p);
    } else {
      ScanForks(s, s', c, p);
    }
  }

  lemma ZombieForksNot(s: Sys, i: int)
    requires Inv(s) && IsProc(s, i) && s.procs[i].state.ZOMBIE?
    ensures !s.procs[i].pc.Forking()
  {
  }

  lemma ReapForks(s: Sys, s': Sys, c: int, p: int)
    requires WaitReap(s, s', c, p) && !s.procs[s.procs[p].pc.i].pc.Forking()
    ensures KeepsForks(s, s')
  {
  }

  lemma ScanForks(s: Sys, s': Sys, c: int, p: int)
    requires WaitStep(s, s', c, p) && !WaitReap(s, s', c, p)
    ensures KeepsForks(s, s')
  {
  }

  lemma NewSlotIsRet(s: Sys, x: int)
    requires Inv(s) && IsProc(s, x) && (s.procs[x].state.UNUSED? || s.procs[x].state.USED?)
    ensures s.procs[x].pc.Ret?
  {
  }

  lemma ForkSlotUsed(s: Sys, p: int)
    requires Inv(s) && IsProc(s, p) && s.procs[p].pc.Forking()
    ensures IsProc(s, s.procs[p].pc.np) && s.procs[s.procs[p].pc.np].state.USED?
  {
  }

  /** A fork touches its own process and the child's slot. */
  lemma ForkTouches(s: Sys, s': Sys, c: int, p: int, q: int) returns (np: int)
    requires ForkStep(s, s', c, p, q) && IsProc(s, p) && s.procs[p].state.RUNNING?
    requires s.procs[p].pc.Forking() ==> IsProc(s, s.procs[p].pc.np) && s.procs[s.procs[p].pc.np].state.USED?
    ensures IsProc(s, np) && (s.procs[np].state.UNUSED? || s.procs[np].state.USED?) && |s'.procs| == |s.procs|
    ensures forall x {:trigger s'.procs[x]} :: IsProc(s, x) && x != p && x != np ==> s'.procs[x] == s.procs[x]
    ensures np != p && s'.procs[p].state == s.procs[p].state
    ensures s.procs[p].pc.Forking() ==> s.procs[p].pc.np == np
    ensures s'.procs[np].state.USED? ==> ForksInto(s', p, np)
  {
    np := if s.procs[p].pc.Forking() then s.procs[p].pc.np else q;
  }

  lemma ForkForks(s: Sys, s': Sys, c: int, p: int, q: int)
    requires Inv(s) && NoLeak(s) && ForkStep(s, s', c, p, q)
    ensures NoLeak(s')
  {
    assert IsProc(s, p);
    if s.procs[p].pc.Forking() {
      ForkSlotUsed(s, p);
    }
    var np := ForkTouches(s, s', c, p, q);
    NewSlotIsRet(s, np);
    forall i | IsProc(s', i) && s'.procs[i].state.USED?
      ensures exists x :: ForksInto(s', x, i)
    {
      if i == np {
        assert ForksInto(s', p, i);
      } else {
        assert IsProc(s, i);
        var x :| ForksInto(s, x, i);
        assert x != np && x != p;
        assert ForksInto(s', x, i);
      }
    }
  }

  lemma NoLeakStep(s: Sys, s': Sys, e: Event)
    requires Inv(s) && NoLeak(s) && Next(s, s', e)
    ensures NoLeak(s')
  {
    match e
    case SchedRunEvent(c, p) => SchedForks(s, s', c, p, 0); KeepNoLeak(s, s');
    case SchedReleaseEvent(c) => SchedForks(s, s', c, 0, 0); KeepNoLeak(s, s');
    case ResumeEvent(c, p) => SchedForks(s, s', c, p, 0); KeepNoLeak(s, s');
    case ResumeWaitEvent(c, p) => SchedForks(s, s', c, p, 0); KeepNoLeak(s, s');
    case YieldEvent(c, p) => SchedForks(s, s', c, p, 0); KeepNoLeak(s, s');
    case SleepEvent(c, p, n) => SchedForks(s, s', c, p, n); KeepNoLeak(s, s');
    case WakeEvent(q) => SchedForks(s, s', 0, q, 0); KeepNoLeak(s, s');
    case KillEvent(q, pid) => SchedForks(s, s', 0, q, pid); KeepNoLeak(s, s');
    case ForkEvent(c, p, q) => ForkForks(s, s', c, p, q);
    case ExitEvent(c, p) => ExitForks(s, s', c, p); KeepNoLeak(s, s');
    case WaitEvent(c, p) => WaitForks(s, s', c, p); KeepNoLeak(s, s');
  }

  /** In every run, a slot that allocproc took and that is not yet runnable belongs to a fork under way. */
  lemma {:induction false} RunNoLeak(run: seq<Sys>, i: nat)
    requires IsRun(run) && i < |run|
    ensures NoLeak(run[i])
  {
    assert StepAt(run, i);
    if i > 0 {
      RunNoLeak(run, i - 1);
      RunInv(run, i - 1);
      var e :| Next(run[i - 1], run[i], e);
      NoLeakStep(run[i - 1], run[i], e);
    }
  }
}
