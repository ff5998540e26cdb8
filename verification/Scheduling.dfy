/** Who gets the CPU and when: hand-over and slices. */
module Scheduling {
  import opened ReadyQueue
  import opened Processes
  import opened ProcessInvariant

  // ---------------------------------------------------------------------------------------------
  // Hand-over

  /** `p` is READY and comes before every other READY process in (priority, queue position) order. */
  ghost predicate Foremost(table: seq<Pcb>, queue: seq<int>, skip: int, p: int) {
    && Candidate(table, p, skip)
    && exists b :: 0 <= b < |queue| && queue[b] == p
         && forall j | 0 <= j < |queue| && Candidate(table, queue[j], skip) ::
              table[p].prio < table[queue[j]].prio || (table[p].prio == table[queue[j]].prio && b <= j)
  }

  /** The skipped process has no say in who is foremost. */
  lemma ForemostIgnoresSkipped(table: seq<Pcb>, queue: seq<int>, skip: int, pcb: Pcb, p: int)
    requires 0 <= skip < |table| && Foremost(table[skip := pcb], queue, skip, p)
    ensures Foremost(table, queue, skip, p)
  {
  }

  /** When a slice is at its end, the process chosen is the foremost one, and gets a full slice. */
  lemma SwitchPicksForemost(s: Sys)
    requires Ok(s) && s.current != 0 && s.enabled && s.tickFlag && 0 <= s.table[s.current].slice <= 1 && OtherReady(s)
    ensures Switch(s).current != s.current
    ensures Foremost(s.table, s.queue, s.current, Switch(s).current)
    ensures Switch(s).table[Switch(s).current].slice == s.table[Switch(s).current].sliceLen
  {
  }

  lemma YieldHandsOver(s: Sys)
    requires Base(s) && Ok(s) && s.enabled && OtherReady(s)
    ensures Yield(s).current != s.current
    ensures Foremost(s.table, s.queue, s.current, Yield(s).current)
  {
  }

  /** A process that blocks loses the CPU at once, to the foremost READY process. */
  lemma BlockHandsOver(s: Sys, pcb: Pcb)
    requires Inv(s) && Ok(s) && s.enabled && MayCall(s) && OtherReady(s)
    requires PcbOk(pcb) && pcb.state == Blocked
    requires pcb.pc.InWait? ==> forall c | 0 <= c < MAX_PROCS :: !Collectable(s.table, s.current, pcb.pc.target, c)
    ensures Block(s, pcb).current != s.current
    ensures Foremost(s.table, SwapRemove(s.queue, s.current), s.current, Block(s, pcb).current)
  {
    var s1 := Dequeue(s.(table := s.table[s.current := pcb]), s.current);
    BlockedBase(s, pcb);
    BaseIsOk(s1);
    LeaveKeepsReady(s, pcb);
    YieldHandsOver(s1);
    ForemostIgnoresSkipped(s.table, s1.queue, s.current, pcb, Yield(s1).current);
  }

  /** A process that exits loses the CPU for good, to the foremost READY process, among them the
      parent it may just have woken. */
  lemma ExitHandsOver(s: Sys, code: int)
    requires Inv(s) && Ok(s) && s.enabled && MayCall(s) && s.table[s.current].pc == User
    requires OtherReady(WakeParent(s, s.current))
    ensures Exit(s, code).current != s.current
    ensures var woken := WakeParent(s, s.current);
      Foremost(woken.table, SwapRemove(woken.queue, s.current), s.current, Exit(s, code).current)
  {
    var s1, p := Buried(s, code), s.current;
    assert Base(s1) && Ok(s1) && OtherReady(s1) by { BuriedKeeps(s, code); }
    assert Exit(s, code) == Yield(s1) by { ExitUnfolds(s, code); }
    BuriedParts(s, code);
    YieldHandsOver(s1);
    ForemostIgnoresSkipped(WakeParent(s, p).table, s1.queue, p, s1.table[p], Yield(s1).current);
  }

  lemma BuriedParts(s: Sys, code: int)
    requires TableOk(s)
    ensures var s1, woken := Buried(s, code), WakeParent(s, s.current);
      && s.current < |s1.table| && s1.table == woken.table[s.current := s1.table[s.current]]
      && s1.queue == SwapRemove(woken.queue, s.current) && s1.current == s.current && s1.enabled == s.enabled
  {
  }

  /** So a process gets the CPU exactly when it is the foremost one. */
  lemma ForemostIsUnique(table: seq<Pcb>, queue: seq<int>, skip: int, p: int, q: int)
    requires Foremost(table, queue, skip, p) && Foremost(table, queue, skip, q)
    ensures p == q
  {
  }

  // ---------------------------------------------------------------------------------------------
  // Slices

  /** A process that keeps the CPU over a switch with the tick flag set has used up one tick of its
      slice and has some left. */
  lemma SwitchUsesSlice(s: Sys)
    requires Base(s) && Ok(s) && s.enabled && OtherReady(s) && s.table[s.current].state == Running
    ensures var s' := Switch(s);
      s'.current == s.current ==>
        if s.tickFlag then s'.table[s.current].slice == s.table[s.current].slice - 1 >= 1
        else s'.table[s.current].slice == s.table[s.current].slice
  {
  }

  /** A better priority never means a shorter slice. Normal priority has 10 ticks; every two levels above it give
      one more, and every five below it one less, so that the idle process has 7. */
  lemma SlicesFollowPriority(p: int, q: int)
    requires 0 <= p <= q <= PRIO_IDLE
    ensures 18 >= TimeSlice(p) >= TimeSlice(q) >= 7
    ensures TimeSlice(0) == 18 && TimeSlice(PRIO_NORMAL) == 10 && TimeSlice(PRIO_IDLE) == 7
    ensures p <= PRIO_NORMAL ==> 2 * (TimeSlice(p) - 10) <= PRIO_NORMAL - p < 2 * (TimeSlice(p) - 10) + 2
    ensures PRIO_NORMAL <= p ==> 5 * (10 - TimeSlice(p)) <= p - PRIO_NORMAL < 5 * (10 - TimeSlice(p)) + 5
  {
  }

  /** Keeping the CPU over a step never gives slice back, and a tick takes one away. */
  predicate UsesSlice(before: Pcb, after: Pcb, tick: bool) {
    && after.slice <= before.slice - (if tick then 1 else 0)
    && (tick || before.slice >= 1 ==> after.slice >= 1)
  }

  /** If the current process keeps the CPU, it has used its slice so. */
  predicate Holds(s: Sys, s': Sys, tick: bool) {
    s'.current == s.current ==>
      && 0 <= s.current < |s.table| && s.current < |s'.table|
      && UsesSlice(s.table[s.current], s'.table[s.current], tick)
  }

  lemma HoldOverWait(s: Sys, target: int)
    requires Inv(s) && Ok(s) && s.enabled && MayCall(s) && s.table[s.current].pc == User && OtherReady(s)
    ensures Holds(s, WaitTurn(s, target), false)
  {
    var self := s.current;
    var z := FirstZombie(s.table, self, target, 0);
    if z < |s.table| {
      CollectedKeeps(s, z);
      CollectedReady(s, z);
      SwitchUsesSlice(Collected(s, z));
    } else {
      assert PcbOk(s.table[self]);
      BlockHandsOver(s, Waiting(s.table[self], target));
    }
  }

  lemma ReadyStays(s: Sys, s': Sys)
    requires OtherReady(s) && s.queue <= s'.queue && s'.current == s.current && |s'.table| == |s.table|
    requires forall p | 0 <= p < |s.table| && s.table[p].state == Ready :: s'.table[p].state == Ready
    ensures OtherReady(s')
  {
    var j :| 0 <= j < |s.queue| && Candidate(s.table, s.queue[j], s.current);
    assert Candidate(s'.table, s'.queue[j], s'.current);
  }

  lemma CollectedReady(s: Sys, z: int)
    requires TableOk(s) && 0 <= z < MAX_PROCS && s.table[z].state == Zombie && OtherReady(s)
    ensures OtherReady(Collected(s, z))
  {
    var j :| 0 <= j < |s.queue| && Candidate(s.table, s.queue[j], s.current);
    assert Candidate(Collected(s, z).table, Collected(s, z).queue[j], s.current);
  }

  lemma {:induction false} WakeDueKeepsReady(s: Sys, from: int)
    requires TableOk(s) && s.table[0].state == Unused && 0 <= from <= MAX_PROCS && OtherReady(s)
    ensures OtherReady(WakeDue(s, from))
    decreases MAX_PROCS - from
  {
    if from == MAX_PROCS {
    } else {
      if Due(s.table[from], s.ticks) {
        WakeKeepsReady(s, from);
        WakeDueKeepsReady(Wake(s, from), from + 1);
      } else {
        WakeDueKeepsReady(s, from + 1);
      }
    }
  }

  lemma HoldOverTick(s: Sys)
    requires Inv(s) && Ok(s) && s.enabled && OtherReady(s)
    ensures Holds(s, Tick(s), true)
  {
    RungKeeps(s);
    RungReady(s);
    SwitchUsesSlice(Rung(s));
  }

  lemma RungReady(s: Sys)
    requires Ok(s) && OtherReady(s)
    ensures OtherReady(Rung(s))
  {
    var s1 := s.(ticks := (s.ticks + 1) % TICK_RANGE, tickFlag := true);
    SameReady(s, s1);
    WakeDueKeepsReady(s1, 0);
  }

  /** A switch from a state that has only grown. */
  lemma UsesAfter(s: Sys, s': Sys)
    requires Inv(s) && s.enabled && OtherReady(s) && Base(s')
    requires s'.enabled && s'.current == s.current && s'.tickFlag == s.tickFlag && s.queue <= s'.queue
    requires forall p | 0 <= p < MAX_PROCS && s.table[p].state != Unused :: s'.table[p] == s.table[p]
    ensures TableOk(s') && PriosOk(s'.table) && Holds(s, Switch(s'), false)
  {
    BaseIsOk(s');
    ReadyStays(s, s');
    SwitchUsesSlice(s');
  }

  lemma HoldOverFork(s: Sys, memory: bool)
    requires Inv(s) && Ok(s) && s.enabled && OtherReady(s)
    ensures Holds(s, Fork(s, memory), false)
  {
    assert PcbOk(s.table[s.current]);
    LaunchedLike(s, s.table[s.current].prio, memory);
    var (s1, pid) := Create(s, s.table[s.current].prio, memory);
    UsesAfter(s, if pid == 0 then s1 else Launch(s1, pid, s.current));
  }

  lemma LaunchedLike(s: Sys, prio: nat, memory: bool)
    requires Inv(s) && Ok(s) && s.enabled
    ensures var (s1, pid) := Create(s, prio, memory);
      var s' := if pid == 0 then s1 else Launch(s1, pid, s.current);
      && Base(s') && s'.enabled && s'.current == s.current && s'.tickFlag == s.tickFlag && s.queue <= s'.queue
      && forall p | 0 <= p < MAX_PROCS && s.table[p].state != Unused :: s'.table[p] == s.table[p]
  {
    CreateKeeps(s, prio, memory, s.current);
  }

  lemma HoldOverExec(s: Sys, p: int)
    requires Inv(s) && Ok(s) && s.enabled && OtherReady(s) && 0 < p < MAX_PROCS
    ensures Holds(s, Exec(s, p), false)
  {
    if s.table[p].state == Unused || s.table[p].state == Running {
      SwitchUsesSlice(s);
    } else {
      ExecutedBase(s, p);
      var r := Restarted(s, p);
      assert Candidate(r.table, r.queue[|r.queue| - 1], r.current);
      SwitchUsesSlice(r);
    }
  }

  lemma HoldOverResume(s: Sys)
    requires Inv(s) && Ok(s) && s.enabled && OtherReady(s) && s.table[s.current].pc != User
    ensures Holds(s, ResumeStep(s), false)
  {
    ResumedInv(s);
    var me := s.table[s.current];
    var s1 := s.(table := s.table[s.current := me.(waiting := false, pc := User)]);
    assert PcbOk(me);
    BaseIsOk(s1);
    SameReady(s, s1);
    match me.pc
    case User =>
    case InWait(target) => HoldOverWait(s1, target);
    case InSleep => SwitchUsesSlice(s1);
    case InIo =>
  }

  lemma HoldOverIoWake(s: Sys, p: int, interrupt: bool)
    requires Inv(s) && Ok(s) && s.enabled && 0 < p < MAX_PROCS && OtherReady(s)
    ensures |IoWake(s, p, interrupt).table| == |s.table|
    ensures Holds(s, IoWake(s, p, interrupt), false)
  {
    var s1 := s.(waiters := s.waiters - multiset{p});
    SameReady(s, s1);
    WokenUses(s1, p);
  }

  lemma WokenUses(s: Sys, p: int)
    requires Inv(s) && Ok(s) && s.enabled && 0 < p < MAX_PROCS && OtherReady(s)
    ensures Base(Wake(s, p)) && Ok(Wake(s, p)) && |Switch(Wake(s, p)).table| == |s.table|
    ensures Wake(s, p).current == s.current && Wake(s, p).table[s.current] == s.table[s.current]
    ensures Holds(s, Switch(Wake(s, p)), false)
  {
    WakeKeeps(s, p);
    BaseIsOk(Wake(s, p));
    WakeKeepsReady(s, p);
    SwitchUsesSlice(Wake(s, p));
  }

  lemma HoldOverStep(s: Sys, step: Step)
    requires Inv(s) && Ok(s) && Enabled(s, step) && s.enabled && OtherReady(s) && !step.DoExecve?
    ensures Holds(s, Next(s, step), step.DoTick?)
  {
    match step
    case DoSpawn(prio, memory) => HoldOverSpawn(s, prio, memory);
    case DoTick => HoldOverTick(s);
    case DoIoWake(p, interrupt) => HoldOverIoWake(s, p, interrupt);
    case DoExit(code) => HoldOverExit(s, code);
    case DoWait(target) => HoldOverWait(s, target);
    case DoSleep(n) => HoldOverSleep(s, n);
    case DoBlockIo(lost) => HoldOverBlockIo(s, lost);
    case DoFork(memory) => HoldOverFork(s, memory);
    case DoExec(p) => HoldOverExec(s, p);
    case DoCall => SwitchUsesSlice(s);
    case DoResume => HoldOverResume(s);
    case _ =>
  }

  lemma HoldOverSpawn(s: Sys, prio: nat, memory: bool)
    requires Inv(s) && Ok(s) && s.enabled
    ensures Holds(s, Spawn(s, prio, memory), false)
  {
    CreateKeeps(s, prio, memory, 0);
  }

  lemma HoldOverExit(s: Sys, code: int)
    requires Inv(s) && Ok(s) && s.enabled && MayCall(s) && s.table[s.current].pc == User && OtherReady(s)
    ensures Exit(s, code).current != s.current
  {
    ParentWakesReady(s);
    ExitHandsOver(s, code);
  }

  lemma HoldOverBlockIo(s: Sys, lost: int)
    requires Inv(s) && Ok(s) && s.enabled && MayCall(s) && s.table[s.current].pc == User && OtherReady(s)
    ensures BlockIo(s, lost).current != s.current
  {
    assert PcbOk(s.table[s.current]);
    var s1 := s.(waiters := s.waiters - multiset{lost} + multiset{s.current});
    SameReady(s, s1);
    BlockHandsOver(s1, InWaiterSlot(s.table[s.current]));
  }

  lemma HoldOverSleep(s: Sys, n: int)
    requires Inv(s) && Ok(s) && s.enabled && MayCall(s) && s.table[s.current].pc == User && OtherReady(s)
    ensures Holds(s, Sleep(s, n), false)
  {
    if n == 0 {
      SwitchUsesSlice(s);
    } else {
      assert PcbOk(s.table[s.current]);
      BlockHandsOver(s, SleepingUntil(s.table[s.current], WakeTick(s.ticks, n)));
    }
  }

  function TickCount(steps: seq<Step>): nat {
    if steps == [] then 0
    else TickCount(steps[..|steps| - 1]) + if steps[|steps| - 1].DoTick? then 1 else 0
  }

  lemma HoldOverRunStep(states: seq<Sys>, steps: seq<Step>, k: nat, c: int)
    requires SafeRun(states, steps) && k < |steps| && 0 < c < MAX_PROCS
    requires states[k].current == c && states[k + 1].current == c && OtherReady(states[k]) && !steps[k].DoExecve?
    ensures |states[k].table| == |states[k + 1].table| == MAX_PROCS
    ensures UsesSlice(states[k].table[c], states[k + 1].table[c], steps[k].DoTick?)
  {
    EveryRunIsSafe(states, steps, k);
    EveryRunIsSafe(states, steps, k + 1);
    assert Linked(states, steps, k);
    HoldOverStep(states[k], steps[k]);
  }

  lemma {:induction false} HoldOverRun(states: seq<Sys>, steps: seq<Step>, i: nat, j: nat, c: int)
    requires SafeRun(states, steps) && i <= j < |states| && 0 < c < MAX_PROCS
    requires forall k | i <= k <= j :: states[k].current == c && OtherReady(states[k])
    requires forall k | i <= k < j :: !steps[k].DoExecve?
    ensures |states[i].table| == |states[j].table| == MAX_PROCS
    ensures states[j].table[c].slice + TickCount(steps[i..j]) <= states[i].table[c].slice
    ensures TickCount(steps[i..j]) > 0 || states[i].table[c].slice >= 1 ==> states[j].table[c].slice >= 1
  {
    if i < j {
      HoldOverRun(states, steps, i, j - 1, c);
      HoldOverRunStep(states, steps, j - 1, c);
      assert steps[i..j][..j - i - 1] == steps[i..j - 1];
    } else {
      EveryRunIsSafe(states, steps, i);
    }
  }

  /** In every run, a process that another READY process is waiting behind, and that is not re-armed
      by `execve`, is switched out by the time it has consumed as many ticks as its slice is long. */
  lemma CpuHoldIsBounded(states: seq<Sys>, steps: seq<Step>, i: nat, j: nat, c: int)
    requires SafeRun(states, steps) && i <= j < |states| && 0 < c < MAX_PROCS
    requires forall k | i <= k < j :: !steps[k].DoExecve?
    requires forall k | i <= k <= j :: states[k].current == c ==> OtherReady(states[k])
    requires |states[i].table| == MAX_PROCS
    requires TickCount(steps[i..j]) > 0 && TickCount(steps[i..j]) >= states[i].table[c].sliceLen
    ensures exists k :: i <= k <= j && states[k].current != c
  {
    EveryRunIsSafe(states, steps, i);
    assert PcbOk(states[i].table[c]);
    if forall k | i <= k <= j :: states[k].current == c {
      HoldOverRun(states, steps, i, j, c);
    }
  }

  // ---------------------------------------------------------------------------------------------
  // How long a process keeps the CPU

  /** The step ends in a switch: all do but kernel code creating a process, and a wake-up or the end of a pipe or key
      wait in the middle of a call. */
  predicate EndsInSwitch(s: Sys, step: Step)
    requires Ok(s) && Enabled(s, step)
  {
    && !step.DoSpawn? && (step.DoIoWake? ==> step.interrupt)
    && (step.DoResume? ==> s.table[s.current].pc != InIo)
  }

  /** From s to s' the current process has kept the CPU. A switch takes the tick that has come or was pending off its
      slice, and leaves none pending. */
  predicate Keeps(s: Sys, s': Sys, switched: bool, tick: bool) {
    && s'.current == s.current && 0 <= s.current < |s.table| && s.current < |s'.table|
    && s'.tickFlag == (s.tickFlag && !switched)
    && s'.table[s.current].sliceLen == s.table[s.current].sliceLen
    && s'.table[s.current].slice == s.table[s.current].slice - if switched && (tick || s.tickFlag) then 1 else 0
  }

  /** A switch after nothing that concerns the current process. */
  lemma SwitchKeepsOn(s: Sys, s1: Sys, tick: bool)
    requires Ok(s) && Ok(s1) && s1.enabled && s1.current == s.current && s.current != 0
    requires s1.tickFlag == (tick || s.tickFlag) && (s1.tickFlag ==> s.table[s.current].slice > 1)
    requires s1.table[s.current].slice == s.table[s.current].slice
    requires s1.table[s.current].sliceLen == s.table[s.current].sliceLen
    ensures Keeps(s, Switch(s1), true, tick)
  {
  }

  /** A tick, pending or new, does not end the slice. */
  predicate SliceLasts(s: Sys, tick: bool) {
    0 <= s.current < |s.table| && (tick || s.tickFlag ==> s.table[s.current].slice > 1)
  }

  lemma KeepOverTick(s: Sys)
    requires Inv(s) && Ok(s) && s.enabled && SliceLasts(s, true)
    ensures Keeps(s, Tick(s), true, true)
  {
    RungKeeps(s);
    SwitchKeepsOn(s, Rung(s), true);
  }

  lemma KeepOverSpawn(s: Sys, prio: nat, memory: bool, ppid: int)
    requires Inv(s) && Ok(s) && s.enabled && (ppid == 0 || ppid == s.current)
    ensures var (s1, pid) := Create(s, prio, memory);
      var s2 := if pid == 0 then s1 else Launch(s1, pid, ppid);
      Keeps(s, s2, false, false) && Ok(s2) && s2.enabled
  {
    CreateKeeps(s, prio, memory, ppid);
    var (s1, pid) := Create(s, prio, memory);
    BaseIsOk(if pid == 0 then s1 else Born(s, pid, prio, ppid));
  }

  lemma KeepOverFork(s: Sys, memory: bool)
    requires Inv(s) && Ok(s) && s.enabled && SliceLasts(s, false)
    ensures Keeps(s, Fork(s, memory), true, false)
  {
    assert PcbOk(s.table[s.current]);
    KeepOverSpawn(s, s.table[s.current].prio, memory, s.current);
    var (s1, pid) := Create(s, s.table[s.current].prio, memory);
    SwitchKeepsOn(s, if pid == 0 then s1 else Launch(s1, pid, s.current), false);
  }

  lemma KeepOverIoWake(s: Sys, p: int, interrupt: bool)
    requires Inv(s) && Ok(s) && s.enabled && 0 < p < MAX_PROCS && (interrupt ==> SliceLasts(s, false))
    ensures Keeps(s, IoWake(s, p, interrupt), interrupt, false)
  {
    var s1 := s.(waiters := s.waiters - multiset{p});
    WakeKeeps(s1, p);
    BaseIsOk(Wake(s1, p));
    if interrupt {
      SwitchKeepsOn(s, Wake(s1, p), false);
    }
  }

  lemma KeepOverWait(s: Sys, target: int)
    requires Inv(s) && Ok(s) && s.enabled && SliceLasts(s, false) && !NoChild(s, target)
    ensures Keeps(s, WaitTurn(s, target), true, false)
  {
    var z := FirstZombie(s.table, s.current, target, 0);
    CollectedKeeps(s, z);
    SwitchKeepsOn(s, Collected(s, z), false);
  }

  lemma KeepOverExec(s: Sys, p: int)
    requires Inv(s) && Ok(s) && s.enabled && SliceLasts(s, false) && 0 < p < MAX_PROCS
    ensures Keeps(s, Exec(s, p), true, false)
  {
    if s.table[p].state == Unused || s.table[p].state == Running {
      SwitchKeepsOn(s, s, false);
    } else {
      ExecutedBase(s, p);
      SwitchKeepsOn(s, Restarted(s, p), false);
    }
  }

  lemma KeepOverResume(s: Sys)
    requires Inv(s) && Ok(s) && s.enabled && s.table[s.current].pc != User
    requires s.table[s.current].pc != InIo ==> SliceLasts(s, false)
    requires s.table[s.current].pc.InWait? ==> !NoChild(s, s.table[s.current].pc.target)
    ensures Keeps(s, ResumeStep(s), s.table[s.current].pc != InIo, false)
  {
    ResumedInv(s);
    var me := s.table[s.current];
    var s1 := s.(table := s.table[s.current := me.(waiting := false, pc := User)]);
    BaseIsOk(s1);
    match me.pc
    case User =>
    case InWait(target) => SameChildren(s, s1, target); KeepOverWait(s1, target);
    case InSleep => SwitchKeepsOn(s, s.(table := s.table[s.current := me.(pc := User)]), false);
    case InIo =>
  }

  /** A step that neither blocks, ends nor re-arms the current process, and does not bring its slice to an end,
      leaves it on the CPU. */
  lemma KeepOverStep(s: Sys, step: Step)
    requires Inv(s) && Ok(s) && Enabled(s, step) && s.enabled && !Blocks(s, step) && !step.DoExecve?
    requires EndsInSwitch(s, step) ==> SliceLasts(s, step.DoTick?)
    ensures Keeps(s, Next(s, step), EndsInSwitch(s, step), step.DoTick?)
  {
    match step
    case DoSpawn(prio, memory) => KeepOverSpawn(s, prio, memory, 0);
    case DoTick => KeepOverTick(s);
    case DoIoWake(p, interrupt) => KeepOverIoWake(s, p, interrupt);
    case DoWait(target) => KeepOverWait(s, target);
    case DoSleep(n) => SwitchKeepsOn(s, s, false);
    case DoFork(memory) => KeepOverFork(s, memory);
    case DoExec(p) => KeepOverExec(s, p);
    case DoCall => SwitchKeepsOn(s, s, false);
    case DoResume => KeepOverResume(s);
    case _ =>
  }

  /** `execve` gives the caller a full slice, and changes nothing else. */
  lemma ExecveRearms(s: Sys)
    requires Ok(s) && !s.tickFlag
    ensures var c, s' := s.current, Execve(s);
      && s' == s.(table := s'.table) && s'.table == s.table[c := s'.table[c]]
      && s'.table[c] == s.table[c].(slice := s'.table[c].slice) && s'.table[c].slice == s'.table[c].sliceLen
  {
  }

  /** Step k neither blocks, ends nor re-arms the current process. */
  predicate GoesOn(states: seq<Sys>, steps: seq<Step>, k: int)
    requires 0 <= k < |steps| < |states|
  {
    Ok(states[k]) && Enabled(states[k], steps[k]) && !Blocks(states[k], steps[k]) && !steps[k].DoExecve?
  }

  lemma KeepOverRunStep(states: seq<Sys>, steps: seq<Step>, k: nat)
    requires SafeRun(states, steps) && k < |steps| && GoesOn(states, steps, k)
    requires states[k].enabled && !states[k].tickFlag
    requires steps[k].DoTick? ==>
      0 <= states[k].current < |states[k].table| && states[k].table[states[k].current].slice > 1
    ensures Keeps(states[k], states[k + 1], EndsInSwitch(states[k], steps[k]), steps[k].DoTick?)
    ensures states[k + 1].enabled
  {
    EveryRunIsSafe(states, steps, k);
    EveryRunIsSafe(states, steps, k + 1);
    assert Linked(states, steps, k);
    KeepOverStep(states[k], steps[k]);
  }

  /** The other half of `CpuHoldIsBounded`: in every run, a process that has the CPU with no tick pending, and that
      does not block, exit or re-arm its slice, keeps the CPU as long as fewer ticks pass than its slice has left,
      whatever calls it makes. Only ticks shorten the slice, each by one. */
  lemma {:induction false} CpuHoldLasts(states: seq<Sys>, steps: seq<Step>, i: nat, j: nat, c: int)
    requires SafeRun(states, steps) && i <= j < |states| && 0 < c < MAX_PROCS
    requires states[i].current == c && !states[i].tickFlag && |states[i].table| == MAX_PROCS
    requires forall k | i <= k < j :: GoesOn(states, steps, k)
    requires TickCount(steps[i..j]) < states[i].table[c].slice || i == j
    ensures |states[j].table| == MAX_PROCS && states[j].current == c && !states[j].tickFlag
    ensures states[j].table[c].slice == states[i].table[c].slice - TickCount(steps[i..j])
    ensures states[j].table[c].sliceLen == states[i].table[c].sliceLen
    decreases j
  {
    EveryRunIsSafe(states, steps, j);
    if i < j {
      assert steps[i..j][..j - i - 1] == steps[i..j - 1];
      CpuHoldLasts(states, steps, i, j - 1, c);
      EveryRunIsSafe(states, steps, j - 1);
      KeepOverRunStep(states, steps, j - 1);
    }
  }

  /** So a slice lasts exactly as many ticks as it has left: at the last of them the process loses the CPU if
      another one is READY, and gets a new slice otherwise. */
  lemma SliceIsExact(states: seq<Sys>, steps: seq<Step>, i: nat, j: nat, c: int)
    requires SafeRun(states, steps) && i <= j < |steps| && 0 < c < MAX_PROCS
    requires states[i].current == c && !states[i].tickFlag && |states[i].table| == MAX_PROCS
    requires forall k | i <= k < j :: GoesOn(states, steps, k)
    requires steps[j].DoTick? && TickCount(steps[i..j]) + 1 == states[i].table[c].slice
    ensures Ok(states[j]) && states[j].current == c
    ensures states[j + 1].current != c <==> OtherReady(Rung(states[j]))
    ensures states[j + 1].current == c ==>
      |states[j + 1].table| == MAX_PROCS && states[j + 1].table[c].slice == states[i].table[c].sliceLen
  {
    CpuHoldLasts(states, steps, i, j, c);
    EveryRunIsSafe(states, steps, j);
    assert Linked(states, steps, j);
    LastTick(states[j]);
  }

  lemma LastTick(s: Sys)
    requires Inv(s) && Ok(s) && s.enabled && s.table[s.current].slice == 1
    ensures Tick(s).current != s.current <==> OtherReady(Rung(s))
    ensures var s' := Tick(s);
      s'.current == s.current ==> |s'.table| == MAX_PROCS && s'.table[s.current].slice == s.table[s.current].sliceLen
  {
    RungKeeps(s);
    var r := Rung(s);
    if OtherReady(r) {
      SwitchPicksForemost(r);
    } else {
      var s2 := r.(tickFlag := false, table := r.table[s.current := r.table[s.current].(slice := 0)]);
      SameReady(r, s2);
      ScanFindsOther(s2);
    }
  }
}
