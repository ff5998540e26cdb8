/** Process 1 runs the idle loop, and as long as it does, no call leaves the CPU with a process that has
    blocked or ended. Exec accepts process 1 like any other, and then one can. */
module IdleLoop {
  import opened ReadyQueue
  import opened Processes
  import opened ProcessInvariant
  import opened Blocking
  import opened BootRuns

  /** No exec of process 1. */
  predicate IdleLeftAlone(steps: seq<Step>) {
    forall k | 0 <= k < |steps| :: !(steps[k].DoExec? && steps[k].pid == IDLE)
  }

  /** So every run from boot without exec of process 1 is safe. */
  lemma IdleRunIsSafe(states: seq<Sys>, steps: seq<Step>)
    requires IsRun(states, steps) && states[0] == Boot() && IdleLeftAlone(steps)
    ensures SafeRun(states, steps)
  {
    forall i | 0 <= i < |steps|
      ensures Unstranded(states, steps, i)
    {
      IdleLoops(states, steps, i);
      assert Linked(states, steps, i);
      IdleNeverStrands(states[i], steps[i]);
    }
  }

  lemma {:induction false} IdleLoops(states: seq<Sys>, steps: seq<Step>, i: nat)
    requires IsRun(states, steps) && states[0] == Boot() && IdleLeftAlone(steps) && i < |states|
    ensures Inv(states[i]) && !states[i].restarted
  {
    if i == 0 {
      BootInv(states[0]);
    } else {
      IdleLoops(states, steps, i - 1);
      IdleStep(states, steps, i);
    }
  }

  lemma IdleStep(states: seq<Sys>, steps: seq<Step>, i: nat)
    requires IsRun(states, steps) && IdleLeftAlone(steps) && 0 < i < |states|
    requires Inv(states[i - 1]) && !states[i - 1].restarted
    ensures Inv(states[i]) && !states[i].restarted
  {
    assert Linked(states, steps, i - 1);
    IdleNeverStrands(states[i - 1], steps[i - 1]);
    StepKeepsInvIff(states[i - 1], steps[i - 1]);
    StepSlots(states[i - 1], steps[i - 1]);
  }

  // ---------------------------------------------------------------------------------------------
  // A run that strands the CPU

  /** Process 2 has restarted process 1 and has the CPU. */
  predicate FirstRestarted(s: Sys) {
    && Ok(s) && s.enabled && s.restarted && !s.tickFlag && s.current == 2 && s.queue == [2, 1]
    && s.table[2].pc == User && s.table[1].state == Ready && s.table[1].pc == User
  }

  lemma RestartFirst(s: Sys)
    requires Ok(s) && s.enabled && !s.tickFlag && s.current == 2 && s.queue == [1, 2]
    requires s.table[2].pc == User && s.table[1].state == Ready
    ensures FirstRestarted(Exec(s, 1))
  {
    assert IndexOf([1, 2], 1) == 0;
    assert SwapRemove(s.queue, 1) == [2];
  }

  /** Process 1, which makes calls now, is the only one left. */
  predicate FirstAlone(s: Sys) {
    && Ok(s) && s.enabled && s.restarted && s.current == 1 && s.queue == [1]
    && s.table[1].state == Running && s.table[1].pc == User
  }

  lemma SecondSleeps(s: Sys, n: int)
    requires FirstRestarted(s) && 0 < n < TICK_RANGE
    ensures FirstAlone(Sleep(s, n))
  {
    assert IndexOf([2, 1], 2) == 0;
    assert SwapRemove(s.queue, 2) == [1];
    var s1 := Dequeue(s.(table := s.table[2 := SleepingUntil(s.table[2], WakeTick(s.ticks, n))]), 2);
    assert Candidate(Forced(s1).table, s1.queue[0], 2);
  }

  lemma FirstStrands(s: Sys, n: int)
    requires FirstAlone(s) && 0 < n < TICK_RANGE
    ensures Strands(s, DoSleep(n)) && !Inv(Sleep(s, n))
    ensures var s' := Sleep(s, n);
      s'.current == 1 && |s'.table| == MAX_PROCS && s'.table[1].state == Blocked
  {
    assert IndexOf([1], 1) == 0;
    assert SwapRemove(s.queue, 1) == [];
    YieldStrands(Dequeue(s.(table := s.table[1 := SleepingUntil(s.table[1], WakeTick(s.ticks, n))]), 1));
  }

  lemma RunToRestart() returns (states: seq<Sys>, steps: seq<Step>)
    ensures IsRun(states, steps) && states[0] == Boot() && FirstRestarted(states[|steps|])
    ensures |steps| >= 1 && steps[|steps| - 1] == DoExec(1)
  {
    states, steps := BootStarted(2);
    EveryRunIsSafe(states, steps, |steps|);
    var s := states[|steps|];
    StartedParts(s, 2);
    assert s.queue == [1, 2];
    RestartFirst(s);
    RunExtends(states, steps, DoExec(1));
    states, steps := states + [Exec(s, 1)], steps + [DoExec(1)];
  }

  lemma RunToAlone(n: int) returns (states: seq<Sys>, steps: seq<Step>)
    requires 0 < n < TICK_RANGE
    ensures IsRun(states, steps) && states[0] == Boot() && FirstAlone(states[|steps|])
    ensures |steps| >= 2 && steps[|steps| - 2] == DoExec(1) && steps[|steps| - 1] == DoSleep(n)
  {
    states, steps := RunToRestart();
    var s := states[|steps|];
    SecondSleeps(s, n);
    RunExtends(states, steps, DoSleep(n));
    states, steps := states + [Sleep(s, n)], steps + [DoSleep(n)];
  }

  /** A run from boot after which a BLOCKED process has the CPU: process 2 restarts process 1, and both go to
      sleep. */
  lemma SleepingIdleStrands(n: int) returns (states: seq<Sys>, steps: seq<Step>)
    requires 0 < n < TICK_RANGE
    ensures IsRun(states, steps) && states[0] == Boot()
    ensures |steps| >= 3 && steps[|steps| - 3..] == [DoExec(1), DoSleep(n), DoSleep(n)]
    ensures var s := states[|steps|];
      s.current == 1 && |s.table| == MAX_PROCS && s.table[1].state == Blocked && !Inv(s)
  {
    states, steps := RunToAlone(n);
    var s := states[|steps|];
    FirstStrands(s, n);
    RunExtends(states, steps, DoSleep(n));
    states, steps := states + [Sleep(s, n)], steps + [DoSleep(n)];
  }
}
