/** Timed sleep over whole runs: a sleeper is left alone until its tick comes, and is woken by exactly
    that tick. */
module Sleeping {
  import opened ReadyQueue
  import opened Processes
  import opened ProcessInvariant
  import opened Scheduling
  import opened Blocking
  import opened BootRuns

  // ---------------------------------------------------------------------------------------------
  // The wake-up tick in 32-bit arithmetic

  /** The m-th tick after tick t finds a sleep of n ticks, begun at tick t, to be over. */
  predicate DueAfter(t: int, n: int, m: int) {
    var wakeup := WakeTick(t, n);
    wakeup != 0 && wakeup <= (t + m) % TICK_RANGE
  }

  /** The wake-up tick does not wrap, or wraps together with the counter. */
  predicate Exact(t: int, n: int) {
    t + n < TICK_RANGE || (t == TICK_RANGE - 1 && n > 1)
  }

  /** The sleep is over at the n-th tick and not before if and only if it is exact. Any other sleep is over
      at the first tick, or never when the wake-up tick wraps to 0. */
  lemma SleepExactIff(t: int, n: int)
    requires 0 <= t < TICK_RANGE && 0 < n < TICK_RANGE
    ensures (forall m | 0 < m <= n :: DueAfter(t, n, m) <==> m == n) <==> Exact(t, n)
    ensures !Exact(t, n) ==>
      if WakeTick(t, n) == 0 then forall m :: !DueAfter(t, n, m) else DueAfter(t, n, 1) && n > 1
  {
    if !Exact(t, n) {
      assert WakeTick(t, n) == t + n - TICK_RANGE;
      assert DueAfter(t, n, 1) || !DueAfter(t, n, n);
    } else {
      forall m | 0 < m <= n
        ensures DueAfter(t, n, m) <==> m == n
      {
        assert (t + m) % TICK_RANGE == if t + m < TICK_RANGE then t + m else t + m - TICK_RANGE;
      }
    }
  }

  // ---------------------------------------------------------------------------------------------
  // Whole sleeps

  /** Asleep in `proc_sleep` with this wake-up tick, and in no waiter slot. */
  predicate Asleep(s: Sys, q: int, wakeup: int) {
    && 0 < q < |s.table| && s.table[q].state == Blocked && s.table[q].pc == InSleep && s.table[q].wakeup == wakeup
    && q !in s.waiters
  }

  lemma SleepBegins(s: Sys, n: int)
    requires Inv(s) && Ok(s) && Enabled(s, DoSleep(n)) && n > 0
    ensures var s', q := Next(s, DoSleep(n)), s.current;
      && 0 < q < |s'.table| && s'.table[q].state == Blocked && s'.table[q].pc == InSleep
      && s'.table[q].wakeup == WakeTick(s.ticks, n) && s'.ticks == s.ticks && s'.waiters == s.waiters
  {
    assert PcbOk(s.table[s.current]);
    BlockBlocks(s, SleepingUntil(s.table[s.current], WakeTick(s.ticks, n)));
  }

  /** One step of a sleep: only a tick that finds it over, or an exec of the sleeper, ends it. */
  lemma SleeperStep(s: Sys, step: Step, q: int, wakeup: int)
    requires Inv(s) && Ok(s) && Enabled(s, step) && Asleep(s, q, wakeup) && !(step.DoExec? && step.pid == q)
    requires step.DoTick? ==> wakeup == 0 || wakeup > (s.ticks + 1) % TICK_RANGE
    ensures Asleep(Next(s, step), q, wakeup)
  {
    StepSlots(s, step);
    if step.DoTick? {
      TickWakesExactlyDue(s, q);
    } else {
      StepLeavesSleeper(s, step, q);
    }
  }

  lemma SleepBeginsInRun(states: seq<Sys>, steps: seq<Step>, i: nat, n: int)
    requires SafeRun(states, steps) && i < |steps|
    requires steps[i] == DoSleep(n) && n > 0 && NoStaleSlot(states, steps, i)
    ensures Asleep(states[i + 1], states[i].current, WakeTick(states[i].ticks, n))
    ensures states[i + 1].ticks == states[i].ticks
  {
    assert Linked(states, steps, i);
    EveryRunIsSafe(states, steps, i);
    SlotsNameIoWaiters(states, steps, i);
    SleepBegins(states[i], n);
  }

  lemma TicksInRun(states: seq<Sys>, steps: seq<Step>, k: nat)
    requires SafeRun(states, steps) && k < |steps|
    ensures states[k + 1].ticks == if steps[k].DoTick? then (states[k].ticks + 1) % TICK_RANGE else states[k].ticks
  {
    assert Linked(states, steps, k);
    EveryRunIsSafe(states, steps, k);
    StepSlots(states[k], steps[k]);
  }

  lemma SleeperRunStep(states: seq<Sys>, steps: seq<Step>, k: nat, q: int, wakeup: int)
    requires SafeRun(states, steps) && k < |steps|
    requires Asleep(states[k], q, wakeup) && !(steps[k].DoExec? && steps[k].pid == q)
    requires steps[k].DoTick? ==> wakeup == 0 || wakeup > (states[k].ticks + 1) % TICK_RANGE
    ensures Asleep(states[k + 1], q, wakeup)
  {
    assert Linked(states, steps, k);
    EveryRunIsSafe(states, steps, k);
    SleeperStep(states[k], steps[k], q, wakeup);
  }

  lemma SleeperWoken(states: seq<Sys>, steps: seq<Step>, k: nat, q: int, wakeup: int)
    requires SafeRun(states, steps) && k < |steps| && steps[k].DoTick?
    requires Asleep(states[k], q, wakeup) && 0 != wakeup <= (states[k].ticks + 1) % TICK_RANGE
    ensures 0 < q < |states[k + 1].table| == MAX_PROCS && Runnable(states[k + 1].table[q])
  {
    assert Linked(states, steps, k);
    EveryRunIsSafe(states, steps, k);
    TickWakesExactlyDue(states[k], q);
  }

  lemma TickCountSplits(steps: seq<Step>, i: nat, j: nat)
    requires i < j <= |steps|
    ensures TickCount(steps[i..j]) == TickCount(steps[i..j - 1]) + if steps[j - 1].DoTick? then 1 else 0
    ensures TickCount(steps[i..i]) == 0
  {
    assert steps[i..j][..j - i - 1] == steps[i..j - 1];
    assert steps[i..j][j - i - 1] == steps[j - 1];
  }

  lemma {:induction false} TicksInRange(states: seq<Sys>, steps: seq<Step>, i: nat)
    requires SafeRun(states, steps) && i < |states|
    ensures 0 <= states[i].ticks < TICK_RANGE
  {
    if i == 0 {
    } else {
      TicksInRange(states, steps, i - 1);
      TicksInRun(states, steps, i - 1);
    }
  }

  /** Process q is not restarted by exec between steps i and j. */
  predicate NotRestarted(steps: seq<Step>, i: int, j: int, q: int) {
    forall k | 0 <= i < k < j <= |steps| :: !(steps[k].DoExec? && steps[k].pid == q)
  }

  lemma OneTickLater(t: int, m: int)
    ensures ((t + m) % TICK_RANGE + 1) % TICK_RANGE == (t + m + 1) % TICK_RANGE
  {
  }

  /** In every run: a process that sleeps for n ticks, with a sleep that is exact, stays asleep as long as
      fewer than n ticks have passed, unless it is restarted by exec or an earlier exec has left a PID in a
      waiter slot. */
  lemma {:induction false} SleepLasts(states: seq<Sys>, steps: seq<Step>, i: nat, j: nat, n: int)
    requires SafeRun(states, steps) && i < j < |states|
    requires steps[i] == DoSleep(n) && 0 < n < TICK_RANGE && Exact(states[i].ticks, n)
    requires NoStaleSlot(states, steps, i) && NotRestarted(steps, i, j, states[i].current)
    requires TickCount(steps[i..j]) < n
    ensures Asleep(states[j], states[i].current, WakeTick(states[i].ticks, n))
    ensures states[j].ticks == (states[i].ticks + TickCount(steps[i..j])) % TICK_RANGE
  {
    TicksInRange(states, steps, i);
    TickCountSplits(steps, i, j);
    if j == i + 1 {
      SleepBeginsInRun(states, steps, i, n);
    } else {
      SleepLasts(states, steps, i, j - 1, n);
      var t, m := states[i].ticks, TickCount(steps[i..j - 1]);
      OneTickLater(t, m);
      SleepExactIff(t, n);
      assert steps[j - 1].DoTick? ==> !DueAfter(t, n, m + 1);
      SleeperRunStep(states, steps, j - 1, states[i].current, WakeTick(t, n));
      TicksInRun(states, steps, j - 1);
    }
  }

  /** And the n-th tick makes it runnable, in the ready queue exactly once. */
  lemma SleepEnds(states: seq<Sys>, steps: seq<Step>, i: nat, j: nat, n: int)
    requires SafeRun(states, steps) && i < j < |steps|
    requires steps[i] == DoSleep(n) && 0 < n < TICK_RANGE && Exact(states[i].ticks, n)
    requires NoStaleSlot(states, steps, i) && NotRestarted(steps, i, j, states[i].current)
    requires TickCount(steps[i..j]) == n - 1 && steps[j].DoTick?
    ensures var q := states[i].current;
      0 < q < |states[j + 1].table| && Runnable(states[j + 1].table[q]) && multiset(states[j + 1].queue)[q] == 1
  {
    var q, t := states[i].current, states[i].ticks;
    SleepLasts(states, steps, i, j, n);
    TicksInRange(states, steps, i);
    OneTickLater(t, n - 1);
    SleepExactIff(t, n);
    assert DueAfter(t, n, n);
    SleeperWoken(states, steps, j, q, WakeTick(t, n));
    ReachableStateSound(states, steps, j + 1, q);
  }

  // ---------------------------------------------------------------------------------------------
  // A stale slot

  /** Process 2 waits for a pipe and process 4 has the CPU. */
  predicate SecondInSlot(s: Sys) {
    && Ok(s) && s.enabled && !s.restarted && !s.tickFlag && s.current == 4 && s.queue == [1, 4, 3]
    && s.waiters == multiset{2} && s.ticks == 0
    && s.table[1].state == Ready && s.table[3].state == Ready && s.table[2].state == Blocked && s.table[4].pc == User
    && s.table[2].prio == s.table[3].prio == s.table[4].prio < s.table[1].prio
  }

  lemma SecondBlocks(s: Sys)
    requires Started(s, 4) && Inv(s) && Ok(s)
    ensures SecondInSlot(BlockIo(s, 0))
  {
    StartedParts(s, 4);
    ThreeStarted(s);
    FirstLeavesQueue();
    var s0 := s.(waiters := s.waiters - multiset{0} + multiset{2});
    var s1 := Dequeue(s0.(table := s.table[2 := InWaiterSlot(s.table[2])]), 2);
    assert s1.queue == [1, 4, 3];
    YieldToSecond(s1, 4);
  }

  /** Process 2 has been restarted, and its PID is still in the slot. */
  predicate SecondRestarted(s: Sys) {
    && Ok(s) && s.enabled && s.current == 4 && s.queue == [1, 4, 3, 2] && s.waiters == multiset{2} && s.ticks == 0
    && !s.restarted && s.table[1].state == Ready && s.table[3].state == Ready && s.table[2].state == Ready
    && s.table[4].pc == User && s.table[2].pc == User
    && s.table[2].prio == s.table[3].prio == s.table[4].prio < s.table[1].prio
  }

  lemma SecondIsRestarted(s: Sys)
    requires SecondInSlot(s) && Inv(s)
    ensures SecondRestarted(Exec(s, 2))
  {
    ExecutedBase(s, 2);
    assert IndexOf([3], 2) == 1;
    assert [4, 3][1..] == [3] && [1, 4, 3][1..] == [4, 3];
    assert IndexOf([4, 3], 2) == 2;
    assert IndexOf([1, 4, 3], 2) == 3;
    assert Restarted(s, 2).queue == [1, 4, 3, 2];
  }

  /** Process 4 goes to sleep, and process 2 gets the CPU. */
  lemma FourthSleeps(s: Sys, n: int)
    requires SecondRestarted(s) && n > 0
    ensures var s' := Sleep(s, n);
      && s'.current == 2 && s'.enabled && |s'.table| == MAX_PROCS && s'.table[2].pc == User && s'.waiters == multiset{2}
      && s'.ticks == 0 && !s'.restarted
  {
    assert [1, 4, 3, 2][1..] == [4, 3, 2];
    assert IndexOf([1, 4, 3, 2], 4) == 1;
    var s1 := Dequeue(s.(table := s.table[4 := SleepingUntil(s.table[4], WakeTick(s.ticks, n))]), 4);
    assert s1.queue == [1, 2, 3];
    YieldToSecond(s1, 2);
  }

  /** A process that goes to sleep while its PID is in a slot can be woken at once. */
  lemma SleeperInSlotIsWoken(s: Sys, n: int)
    requires Inv(s) && Ok(s) && Enabled(s, DoSleep(n)) && n > 0 && s.current in s.waiters
    ensures var s' := Next(s, DoSleep(n));
      && Ok(s') && Enabled(s', DoIoWake(s.current, false))
      && s'.table[s.current].state == Blocked && s'.table[s.current].pc == InSleep
      && IoWake(s', s.current, false).table[s.current].state == Ready
  {
    SleepBegins(s, n);
    BlockKeepsOk(s, SleepingUntil(s.table[s.current], WakeTick(s.ticks, n)));
    WakesBlocked(Next(s, DoSleep(n)), s.current);
  }

  lemma BlockKeepsOk(s: Sys, pcb: Pcb)
    requires Ok(s) && s.current != 0 && pcb.prio <= PRIO_IDLE
    ensures Ok(Block(s, pcb))
  {
    SwapRemoveSubset(s.queue, s.current);
  }

  lemma WakesBlocked(s: Sys, q: int)
    requires Ok(s) && 0 < q < MAX_PROCS && s.table[q].state == Blocked
    ensures IoWake(s, q, false).table[q].state == Ready
  {
  }

  /** A run in which exec leaves a PID in a slot, and that process is later woken through the slot from a
      sleep of 50 ticks without a single tick. */
  lemma StaleSlotCutsSleepShort() returns (states: seq<Sys>, steps: seq<Step>)
    ensures SafeRun(states, steps)
    ensures var i := |steps| - 2;
      && 0 <= i && steps[i] == DoSleep(50) && steps[i + 1] == DoIoWake(2, false) && states[i].current == 2
      && Exact(states[i].ticks, 50) && |states[i + 2].table| == MAX_PROCS && states[i + 2].table[2].state == Ready
  {
    states, steps := RunToSleepInSlot();
    var s := states[|steps|];
    SafeRunExtends(states, steps, DoIoWake(2, false));
    states, steps := states + [IoWake(s, 2, false)], steps + [DoIoWake(2, false)];
  }

  lemma RunToSleepInSlot() returns (states: seq<Sys>, steps: seq<Step>)
    ensures SafeRun(states, steps)
    ensures var i := |steps| - 1;
      0 <= i && steps[i] == DoSleep(50) && states[i].current == 2 && Exact(states[i].ticks, 50)
    ensures var s := states[|steps|];
      Ok(s) && Enabled(s, DoIoWake(2, false)) && s.table[2].state == Blocked
      && IoWake(s, 2, false).table[2].state == Ready
  {
    states, steps := RunToStaleSlot();
    var s := states[|steps|];
    EveryRunIsSafe(states, steps, |steps|);
    SleeperInSlotIsWoken(s, 50);
    states, steps := SafeRunStep(states, steps, DoSleep(50));
  }

  lemma RunToStaleSlot() returns (states: seq<Sys>, steps: seq<Step>)
    ensures SafeRun(states, steps)
    ensures var s := states[|steps|];
      && s.current == 2 && s.enabled && |s.table| == MAX_PROCS && s.table[2].pc == User
      && s.waiters == multiset{2} && s.ticks == 0 && !s.restarted
  {
    states, steps := RunToRestart();
    var s := states[|steps|];
    FourthSleeps(s, 50);
    states, steps := SafeRunStep(states, steps, DoSleep(50));
  }

  lemma RunToRestart() returns (states: seq<Sys>, steps: seq<Step>)
    ensures SafeRun(states, steps) && SecondRestarted(states[|steps|])
  {
    states, steps := RunToSlot();
    var s := states[|steps|];
    EveryRunIsSafe(states, steps, |steps|);
    SecondIsRestarted(s);
    states, steps := SafeRunStep(states, steps, DoExec(2));
  }

  lemma RunToSlot() returns (states: seq<Sys>, steps: seq<Step>)
    ensures SafeRun(states, steps) && SecondInSlot(states[|steps|])
  {
    states, steps := RunToStart(4);
    FirstBlock(states[|steps|]);
    states, steps := SafeRunStep(states, steps, DoBlockIo(0));
  }

  lemma RunToStart(n: nat) returns (states: seq<Sys>, steps: seq<Step>)
    requires 2 <= n < 16
    ensures SafeRun(states, steps) && Started(states[|steps|], n) && Inv(states[|steps|]) && Ok(states[|steps|])
  {
    states, steps := BootStarted(n);
    EveryRunIsSafe(states, steps, |steps|);
  }

  lemma FirstBlock(s: Sys)
    requires Started(s, 4) && Inv(s) && Ok(s)
    ensures !s.restarted && Enabled(s, DoBlockIo(0)) && SecondInSlot(Next(s, DoBlockIo(0)))
  {
    StartedCalls(s, 4);
    SecondBlocks(s);
  }
}
