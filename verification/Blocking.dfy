/** Blocked processes: which steps touch them, and the waiter slots through which a pipe or the keyboard
    wakes them. */
module Blocking {
  import opened Processes
  import opened ProcessInvariant

  /** The control block of process q is the same. */
  predicate Leaves(s: Sys, s': Sys, q: int) {
    0 <= q < |s.table| && q < |s'.table| && s'.table[q] == s.table[q]
  }

  lemma SwitchLeaves(s: Sys, q: int)
    requires Ok(s) && 0 < q < MAX_PROCS && q != s.current && s.table[q].state == Blocked
    ensures Leaves(s, Switch(s), q)
  {
  }

  lemma YieldLeaves(s: Sys, q: int)
    requires Ok(s) && 0 < q < MAX_PROCS && q != s.current && s.table[q].state == Blocked
    ensures Leaves(s, Yield(s), q)
  {
  }

  lemma BlockLeaves(s: Sys, pcb: Pcb, q: int)
    requires Inv(s) && Ok(s) && s.enabled && pcb.prio <= PRIO_IDLE
    requires 0 < q < MAX_PROCS && q != s.current && s.table[q].state == Blocked
    ensures Leaves(s, Block(s, pcb), q)
  {
  }

  lemma ExitLeaves(s: Sys, code: int, q: int)
    requires Inv(s) && Ok(s) && s.enabled && MayCall(s) && s.table[s.current].pc == User
    requires 0 < q < MAX_PROCS && s.table[q].state == Blocked && !s.table[q].waiting
    ensures Leaves(s, Exit(s, code), q)
  {
    BuriedLeaves(s, code, q);
    assert Exit(s, code) == Yield(Buried(s, code)) && Ok(Buried(s, code)) by {
      ExitUnfolds(s, code);
      BuriedKeeps(s, code);
    }
    YieldLeaves(Buried(s, code), q);
  }

  lemma BuriedLeaves(s: Sys, code: int, q: int)
    requires Ok(s) && 0 < q < MAX_PROCS && q != s.current && !s.table[q].waiting
    ensures Leaves(s, Buried(s, code), q) && Buried(s, code).current == s.current
  {
  }

  lemma WaitLeaves(s: Sys, target: int, q: int)
    requires Inv(s) && Ok(s) && s.enabled && 0 < q < MAX_PROCS && s.table[q].state == Blocked
    ensures Leaves(s, WaitTurn(s, target), q)
  {
    var z := FirstZombie(s.table, s.current, target, 0);
    if z < |s.table| {
      CollectedKeeps(s, z);
      SwitchLeaves(Collected(s, z), q);
    } else {
      BlockLeaves(s, Waiting(s.table[s.current], target), q);
    }
  }

  lemma ForkLeaves(s: Sys, memory: bool, q: int)
    requires Inv(s) && Ok(s) && s.enabled && 0 < q < MAX_PROCS && s.table[q].state == Blocked
    ensures Leaves(s, Fork(s, memory), q)
  {
    assert PcbOk(s.table[s.current]);
    CreateKeeps(s, s.table[s.current].prio, memory, s.current);
    var (s1, pid) := Create(s, s.table[s.current].prio, memory);
    var s2 := if pid == 0 then s1 else Launch(s1, pid, s.current);
    BaseIsOk(s2);
    SwitchLeaves(s2, q);
  }

  lemma ExecLeaves(s: Sys, p: int, q: int)
    requires Inv(s) && Ok(s) && s.enabled && 0 < p < MAX_PROCS
    requires 0 < q < MAX_PROCS && q != p && s.table[q].state == Blocked
    ensures Leaves(s, Exec(s, p), q)
  {
    if s.table[p].state == Unused || s.table[p].state == Running {
      SwitchLeaves(s, q);
    } else {
      ExecutedBase(s, p);
      SwitchLeaves(Restarted(s, p), q);
    }
  }

  lemma ResumeLeaves(s: Sys, q: int)
    requires Inv(s) && Ok(s) && s.enabled && s.table[s.current].pc != User
    requires 0 < q < MAX_PROCS && s.table[q].state == Blocked
    ensures Leaves(s, ResumeStep(s), q)
  {
    ResumedInv(s);
    var me := s.table[s.current];
    var s1 := s.(table := s.table[s.current := me.(waiting := false, pc := User)]);
    assert PcbOk(me);
    BaseIsOk(s1);
    match me.pc
    case User =>
    case InWait(target) => WaitLeaves(s1, target, q);
    case InSleep => SwitchLeaves(s1, q);
    case InIo =>
  }

  /** The step is not itself about process q. */
  predicate HandsOff(step: Step, q: int) {
    !((step.DoExec? || step.DoIoWake?) && step.pid == q)
  }

  /** No step but a tick, an exec or a wake-up through a slot of its own touches a process that is blocked
      in a timed sleep or in a wait for a pipe or key. In particular an exiting child never wakes a parent
      that is blocked for another reason than waiting. */
  lemma StepLeavesSleeper(s: Sys, step: Step, q: int)
    requires Inv(s) && Ok(s) && Enabled(s, step) && HandsOff(step, q) && !step.DoTick?
    requires 0 < q < MAX_PROCS && s.table[q].state == Blocked && !s.table[q].pc.InWait?
    ensures Leaves(s, Next(s, step), q)
  {
    assert PcbOk(s.table[q]);
    match step
    case DoSpawn(prio, memory) => CreateKeeps(s, prio, memory, 0);
    case DoStart => StartKeeps(s);
    case DoIoWake(p, interrupt) => IoWakeLeaves(s, p, interrupt, q);
    case DoExit(code) => ExitLeaves(s, code, q);
    case DoWait(target) => WaitLeaves(s, target, q);
    case DoSleep(n) => SleepLeaves(s, n, q);
    case DoBlockIo(lost) => BlockIoLeaves(s, lost, q);
    case DoFork(memory) => ForkLeaves(s, memory, q);
    case DoExec(p) => ExecLeaves(s, p, q);
    case DoExecve => ExecveLeaves(s, q);
    case DoCall => SwitchLeaves(s, q);
    case DoResume => ResumeLeaves(s, q);
    case _ =>
  }

  lemma IoWakeLeaves(s: Sys, p: int, interrupt: bool, q: int)
    requires Inv(s) && Ok(s) && 0 < p < MAX_PROCS && 0 < q < MAX_PROCS && p != q && s.table[q].state == Blocked
    ensures Leaves(s, IoWake(s, p, interrupt), q)
  {
    var s1 := s.(waiters := s.waiters - multiset{p});
    WakeKeeps(s1, p);
    BaseIsOk(Wake(s1, p));
    SwitchLeaves(Wake(s1, p), q);
  }

  lemma SleepLeaves(s: Sys, n: int, q: int)
    requires Inv(s) && Ok(s) && s.enabled && 0 < q < MAX_PROCS && s.table[q].state == Blocked
    ensures Leaves(s, Sleep(s, n), q)
  {
    if n == 0 {
      SwitchLeaves(s, q);
    } else {
      BlockLeaves(s, SleepingUntil(s.table[s.current], WakeTick(s.ticks, n)), q);
    }
  }

  lemma BlockIoLeaves(s: Sys, lost: int, q: int)
    requires Inv(s) && Ok(s) && s.enabled && 0 < q < MAX_PROCS && s.table[q].state == Blocked
    ensures Leaves(s, BlockIo(s, lost), q)
  {
    var s1 := s.(waiters := s.waiters - multiset{lost} + multiset{s.current});
    BlockLeaves(s1, InWaiterSlot(s.table[s.current]), q);
  }

  lemma ExecveLeaves(s: Sys, q: int)
    requires Inv(s) && Ok(s) && s.enabled && 0 < q < MAX_PROCS && s.table[q].state == Blocked
    ensures Leaves(s, Execve(s), q)
  {
  }

  /** A tick wakes a blocked process exactly when its wake-up tick has come; waiting processes and pipe
      sleepers have none. */
  lemma TickWakesExactlyDue(s: Sys, q: int)
    requires Inv(s) && Ok(s) && 0 < q < MAX_PROCS && s.table[q].state == Blocked
    ensures var s' := Tick(s);
      && s'.ticks == (s.ticks + 1) % TICK_RANGE && |s'.table| == MAX_PROCS
      && if s.table[q].wakeup != 0 && s.table[q].wakeup <= s'.ticks then Runnable(s'.table[q])
         else s'.table[q] == s.table[q]
    ensures s.table[q].pc != InSleep ==> Tick(s).table[q] == s.table[q]
  {
    var s1 := s.(ticks := (s.ticks + 1) % TICK_RANGE, tickFlag := true);
    WakeDueKeeps(s1, 0);
    WakeDueKeepsShape(s1, 0);
    var s2 := WakeDue(s1, 0);
    BaseIsOk(s2);
    assert PcbOk(s.table[q]);
    if s2.table[q].state == Blocked {
      SwitchLeaves(s2, q);
    } else {
      SwitchKeepsRunnable(s2, q);
    }
  }

  lemma SwitchKeepsRunnable(s: Sys, q: int)
    requires Ok(s) && 0 < q < MAX_PROCS && Runnable(s.table[q])
    ensures |Switch(s).table| == MAX_PROCS && Runnable(Switch(s).table[q]) && Switch(s).ticks == s.ticks
  {
  }

  // ---------------------------------------------------------------------------------------------
  // Waiter slots

  /** A slot names a process that is blocked in a wait for a pipe or key, and no two slots the same. */
  ghost predicate SlotsOk(s: Sys) {
    forall p | p in s.waiters ::
      0 < p < |s.table| && s.waiters[p] == 1 && s.table[p].state == Blocked && s.table[p].pc == InIo
  }

  /** Exec of a process that is in a waiter slot: the code leaves its PID there. */
  predicate LeavesStaleSlot(s: Sys, step: Step) {
    step.DoExec? && step.pid in s.waiters
  }

  lemma BlockedInSlot(s: Sys, lost: int)
    requires Inv(s) && Ok(s) && Enabled(s, DoBlockIo(lost))
    ensures var s', q := Next(s, DoBlockIo(lost)), s.current;
      && 0 < q < |s'.table| && s'.table[q].state == Blocked && s'.table[q].pc == InIo
      && s'.waiters == s.waiters - multiset{lost} + multiset{q} && |s'.table| == MAX_PROCS
  {
    assert PcbOk(s.table[s.current]);
    BlockBlocks(s.(waiters := s.waiters - multiset{lost} + multiset{s.current}), InWaiterSlot(s.table[s.current]));
  }

  /** A process that blocks stays as it has blocked. */
  lemma BlockBlocks(s: Sys, pcb: Pcb)
    requires Inv(s) && Ok(s) && s.enabled && MayCall(s)
    requires PcbOk(pcb) && pcb.state == Blocked && !pcb.pc.InWait?
    ensures var s' := Block(s, pcb);
      && |s'.table| == MAX_PROCS && s'.table[s.current] == pcb.(slice := s'.table[s.current].slice) && Quiet(s, s')
  {
    BlockedBase(s, pcb);
    var s1 := Dequeue(s.(table := s.table[s.current := pcb]), s.current);
    BaseIsOk(s1);
    BlockedStaysBlocked(s1);
  }

  lemma BlockedStaysBlocked(s: Sys)
    requires Ok(s) && s.current != 0 && s.table[s.current].state == Blocked
    ensures |Yield(s).table| == MAX_PROCS && Yield(s).ticks == s.ticks && Yield(s).waiters == s.waiters
    ensures Yield(s).table[s.current] == s.table[s.current].(slice := Yield(s).table[s.current].slice)
  {
  }

  /** A step leaves alone every process in a slot but the one it wakes or restarts. */
  lemma SlotKept(s: Sys, step: Step, p: int)
    requires Inv(s) && Ok(s) && Enabled(s, step) && SlotsOk(s) && p in s.waiters && HandsOff(step, p)
    ensures var s' := Next(s, step);
      0 < p < |s'.table| && s'.table[p] == s.table[p]
  {
    assert PcbOk(s.table[p]);
    if step.DoTick? {
      TickWakesExactlyDue(s, p);
    } else {
      StepLeavesSleeper(s, step, p);
    }
  }

  /** Same waiter slots, same time, same code in process 1. */
  predicate Quiet(s: Sys, s': Sys) {
    s'.waiters == s.waiters && s'.ticks == s.ticks && s'.restarted == s.restarted
  }

  function SlotsAfter(s: Sys, step: Step): multiset<int> {
    match step
    case DoIoWake(p, _) => s.waiters - multiset{p}
    case DoBlockIo(lost) => s.waiters - multiset{lost} + multiset{s.current}
    case _ => s.waiters
  }

  /** The slots and the time after a step. */
  lemma StepSlots(s: Sys, step: Step)
    requires Inv(s) && Ok(s) && Enabled(s, step)
    ensures Next(s, step).waiters == SlotsAfter(s, step)
    ensures Next(s, step).ticks == if step.DoTick? then (s.ticks + 1) % TICK_RANGE else s.ticks
    ensures Next(s, step).restarted ==> s.restarted || (step.DoExec? && step.pid == IDLE)
  {
    match step
    case DoSpawn(prio, memory) => CreateKeeps(s, prio, memory, 0);
    case DoTick => TickSlots(s);
    case DoIoWake(p, interrupt) => IoWakeSlots(s, p, interrupt);
    case DoExit(code) => ExitSlots(s, code);
    case DoWait(target) => WaitSlots(s, target);
    case DoSleep(n) => SleepSlots(s, n);
    case DoBlockIo(lost) => BlockIoSlots(s, lost);
    case DoFork(memory) => ForkSlots(s, memory);
    case DoExec(p) => ExecSlots(s, p);
    case DoExecve => ExecveSlots(s);
    case DoCall => SwitchSlots(s);
    case DoResume => ResumeSlots(s);
    case _ =>
  }

  lemma SwitchSlots(s: Sys)
    requires TableOk(s) && PriosOk(s.table)
    ensures Quiet(s, Switch(s))
  {
  }

  lemma YieldSlots(s: Sys)
    requires TableOk(s) && PriosOk(s.table)
    ensures Quiet(s, Yield(s))
  {
  }

  lemma BlockSlots(s: Sys, pcb: Pcb)
    requires Ok(s) && pcb.prio <= PRIO_IDLE
    ensures Quiet(s, Block(s, pcb))
  {
    SwapRemoveSubset(s.queue, s.current);
  }

  lemma TickSlots(s: Sys)
    requires Ok(s)
    ensures Quiet(s.(ticks := (s.ticks + 1) % TICK_RANGE), Tick(s))
  {
    var s1 := s.(ticks := (s.ticks + 1) % TICK_RANGE, tickFlag := true);
    WakeDueKeepsShape(s1, 0);
    SwitchSlots(WakeDue(s1, 0));
  }

  lemma IoWakeSlots(s: Sys, p: int, interrupt: bool)
    requires Inv(s) && Ok(s) && 0 < p < MAX_PROCS
    ensures Quiet(s.(waiters := s.waiters - multiset{p}), IoWake(s, p, interrupt))
  {
    var s1 := s.(waiters := s.waiters - multiset{p});
    WakeKeeps(s1, p);
    BaseIsOk(Wake(s1, p));
    SwitchSlots(Wake(s1, p));
  }

  lemma SleepSlots(s: Sys, n: int)
    requires Ok(s)
    ensures Quiet(s, Sleep(s, n))
  {
    if n == 0 {
      SwitchSlots(s);
    } else {
      BlockSlots(s, SleepingUntil(s.table[s.current], WakeTick(s.ticks, n)));
    }
  }

  lemma ExecSlots(s: Sys, p: int)
    requires Inv(s) && Ok(s) && s.enabled && 0 < p < MAX_PROCS
    ensures Quiet(s.(restarted := Exec(s, p).restarted), Exec(s, p))
    ensures Exec(s, p).restarted ==> s.restarted || p == IDLE
  {
    if s.table[p].state == Unused || s.table[p].state == Running {
      SwitchSlots(s);
    } else {
      ExecutedBase(s, p);
      SwitchSlots(Restarted(s, p));
    }
  }

  lemma ExecveSlots(s: Sys)
    requires Ok(s)
    ensures Quiet(s, Execve(s))
  {
    SwitchSlots(s.(table := s.table[s.current := s.table[s.current].(slice := s.table[s.current].sliceLen)]));
  }

  lemma ExitSlots(s: Sys, code: int)
    requires Inv(s) && Ok(s) && s.enabled && MayCall(s) && s.table[s.current].pc == User
    ensures Quiet(s, Exit(s, code))
  {
    ExitUnfolds(s, code);
    BuriedSlots(s, code);
    YieldSlots(Buried(s, code));
  }

  lemma BuriedSlots(s: Sys, code: int)
    requires TableOk(s)
    ensures Quiet(s, Buried(s, code))
  {
  }

  lemma BlockIoSlots(s: Sys, lost: int)
    requires Ok(s)
    ensures Quiet(s.(waiters := s.waiters - multiset{lost} + multiset{s.current}), BlockIo(s, lost))
  {
    BlockSlots(s.(waiters := s.waiters - multiset{lost} + multiset{s.current}), InWaiterSlot(s.table[s.current]));
  }

  lemma WaitSlots(s: Sys, target: int)
    requires Inv(s) && Ok(s)
    ensures Quiet(s, WaitTurn(s, target))
  {
    var z := FirstZombie(s.table, s.current, target, 0);
    if z < |s.table| {
      CollectedKeeps(s, z);
      SwitchSlots(Collected(s, z));
    } else {
      BlockSlots(s, Waiting(s.table[s.current], target));
    }
  }

  lemma ForkSlots(s: Sys, memory: bool)
    requires Inv(s) && Ok(s) && s.enabled
    ensures Quiet(s, Fork(s, memory))
  {
    assert PcbOk(s.table[s.current]);
    CreateKeeps(s, s.table[s.current].prio, memory, s.current);
    var (s1, pid) := Create(s, s.table[s.current].prio, memory);
    var s2 := if pid == 0 then s1 else Launch(s1, pid, s.current);
    BaseIsOk(s2);
    SwitchSlots(s2);
  }

  lemma ResumeSlots(s: Sys)
    requires Inv(s) && Ok(s) && s.enabled && s.table[s.current].pc != User
    ensures Quiet(s, ResumeStep(s))
  {
    ResumedInv(s);
    var me := s.table[s.current];
    var s1 := s.(table := s.table[s.current := me.(waiting := false, pc := User)]);
    assert PcbOk(me);
    BaseIsOk(s1);
    match me.pc
    case User =>
    case InWait(target) => WaitSlots(s1, target);
    case InSleep => SwitchSlots(s1);
    case InIo =>
  }

  lemma StepKeepsSlots(s: Sys, step: Step)
    requires Inv(s) && Ok(s) && Enabled(s, step) && SlotsOk(s) && !LeavesStaleSlot(s, step)
    ensures SlotsOk(Next(s, step))
  {
    StepSlots(s, step);
    var s' := Next(s, step);
    forall p | p in s'.waiters
      ensures 0 < p < |s'.table| && s'.waiters[p] == 1 && s'.table[p].state == Blocked && s'.table[p].pc == InIo
    {
      if p in s.waiters {
        SlotKept(s, step, p);
        assert step.DoBlockIo? ==> p != s.current;
      } else {
        BlockedInSlot(s, step.lost);
      }
    }
  }

  /** The promise about the slots survives a step if and only if the step is not an exec of a process in a
      slot. */
  lemma SlotsKeptIff(s: Sys, step: Step)
    requires Inv(s) && Ok(s) && Enabled(s, step) && SlotsOk(s)
    ensures SlotsOk(Next(s, step)) <==> !LeavesStaleSlot(s, step)
  {
    if LeavesStaleSlot(s, step) {
      var p := step.pid;
      StepSlots(s, step);
      ExecutedBase(s, p);
      SwitchKeepsRunnable(Restarted(s, p), p);
    } else {
      StepKeepsSlots(s, step);
    }
  }

  /** No exec of a process in a waiter slot among the first n steps. */
  ghost predicate NoStaleSlot(states: seq<Sys>, steps: seq<Step>, n: nat) {
    |states| == |steps| + 1 && forall k | 0 <= k < n && k < |steps| :: !LeavesStaleSlot(states[k], steps[k])
  }

  /** In every run without such an exec a slot names a process blocked on a pipe or key, so a wake-up
      through a slot never reaches a process that runs, sleeps or waits for a child. */
  lemma {:induction false} SlotsNameIoWaiters(states: seq<Sys>, steps: seq<Step>, i: nat)
    requires SafeRun(states, steps) && i < |states| && NoStaleSlot(states, steps, i)
    ensures SlotsOk(states[i])
  {
    if i == 0 {
    } else {
      SlotsNameIoWaiters(states, steps, i - 1);
      EveryRunIsSafe(states, steps, i - 1);
      assert Linked(states, steps, i - 1);
      StepKeepsSlots(states[i - 1], steps[i - 1]);
    }
  }
}
