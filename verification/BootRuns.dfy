/** Runs that start at boot: how to lengthen them, and one that every other example begins with. */
module BootRuns {
  import opened ReadyQueue
  import opened Processes
  import opened ProcessInvariant

  lemma RunExtends(states: seq<Sys>, steps: seq<Step>, step: Step)
    requires IsRun(states, steps) && Ok(states[|steps|]) && Enabled(states[|steps|], step)
    ensures IsRun(states + [Next(states[|steps|], step)], steps + [step])
  {
    var states', steps' := states + [Next(states[|steps|], step)], steps + [step];
    forall i | 0 <= i < |steps'|
      ensures Linked(states', steps', i)
    {
      assert i < |steps| ==> Linked(states, steps, i);
    }
  }

  lemma SafeRunExtends(states: seq<Sys>, steps: seq<Step>, step: Step)
    requires SafeRun(states, steps) && Ok(states[|steps|]) && Enabled(states[|steps|], step)
    requires Blocks(states[|steps|], step) ==> !states[|steps|].restarted
    ensures SafeRun(states + [Next(states[|steps|], step)], steps + [step])
  {
    RunExtends(states, steps, step);
    EveryRunIsSafe(states, steps, |steps|);
    if Blocks(states[|steps|], step) {
      IdleNeverStrands(states[|steps|], step);
    }
    var states', steps' := states + [Next(states[|steps|], step)], steps + [step];
    forall i | 0 <= i < |steps'|
      ensures Unstranded(states', steps', i)
    {
      assert i < |steps| ==> Unstranded(states, steps, i);
    }
  }

  lemma SafeRunStep(states: seq<Sys>, steps: seq<Step>, step: Step) returns (states': seq<Sys>, steps': seq<Step>)
    requires SafeRun(states, steps) && Ok(states[|steps|]) && Enabled(states[|steps|], step)
    requires Blocks(states[|steps|], step) ==> !states[|steps|].restarted
    ensures SafeRun(states', steps') && |steps'| == |steps| + 1 && steps'[|steps|] == step
    ensures states'[|steps|] == states[|steps|] && states'[|steps'|] == Next(states[|steps|], step)
  {
    SafeRunExtends(states, steps, step);
    states', steps' := states + [Next(states[|steps|], step)], steps + [step];
  }

  /** Kernel code has created processes 1 .. |prios| of these priorities and not yet started the
      scheduler. */
  ghost predicate Loaded(s: Sys, prios: seq<nat>) {
    && |s.table| == MAX_PROCS && |prios| < 16
    && s.queue == seq(|prios|, i => i + 1) && (forall p :: p in s.pids <==> 0 <= p <= |prios|) && s.hint == |prios| + 1
    && (forall p | 0 < p <= |prios| :: s.table[p] == Newborn(prios[p - 1], 0, p - 1, 0))
    && s == Boot().(table := s.table, queue := s.queue, pids := s.pids, hint := s.hint, nextUid := |prios|)
    && s.table[0] == EMPTY && (forall p | |prios| < p < MAX_PROCS :: s.table[p] == EMPTY)
  }

  lemma LoadOne(s: Sys, prios: seq<nat>, prio: nat)
    requires Loaded(s, prios) && |prios| < 15
    ensures TableOk(s)
    ensures Loaded(Spawn(s, prio, true), prios + [prio])
  {
    var n := |prios| + 1;
    assert n !in s.pids;
    assert PidSearch(s.pids, s.hint) == n;
    var s' := Spawn(s, prio, true);
    assert s'.table[n] == Newborn(prio, 0, n - 1, 0);
    assert s'.queue == seq(n, i => i + 1);
  }

  lemma {:induction false} LoadAll(prios: seq<nat>) returns (states: seq<Sys>, steps: seq<Step>)
    requires |prios| < 16
    ensures SafeRun(states, steps) && Loaded(states[|steps|], prios)
    ensures forall k | 0 <= k < |steps| :: !steps[k].DoExec?
  {
    if prios == [] {
      states, steps := [Boot()], [];
      assert Boot().queue == seq(0, i => i + 1);
    } else {
      var n := |prios| - 1;
      states, steps := LoadAll(prios[..n]);
      var s := states[|steps|];
      EveryRunIsSafe(states, steps, |steps|);
      LoadOne(s, prios[..n], prios[n]);
      SafeRunExtends(states, steps, DoSpawn(prios[n], true));
      states, steps := states + [Spawn(s, prios[n], true)], steps + [DoSpawn(prios[n], true)];
      assert prios[..n] + [prios[n]] == prios;
    }
  }

  /** The idle process and n - 1 processes of normal priority. */
  function Prios(n: nat): seq<nat> {
    seq(n, i => if i == 0 then PRIO_IDLE else PRIO_NORMAL)
  }

  /** They have just been created, and the first of normal priority is on the CPU. */
  ghost predicate Started(s: Sys, n: nat) {
    && 2 <= n < 16 && |s.table| == MAX_PROCS && s.table[2].state == Running && s.current == 2 && s.enabled
    && Loaded(s.(table := s.table[2 := s.table[2].(state := Ready)], current := 0, enabled := false), Prios(n))
  }

  lemma BootStarted(n: nat) returns (states: seq<Sys>, steps: seq<Step>)
    requires 2 <= n < 16
    ensures SafeRun(states, steps) && Started(states[|steps|], n)
    ensures forall k | 0 <= k < |steps| :: !steps[k].DoExec?
  {
    states, steps := LoadAll(Prios(n));
    var s := states[|steps|];
    EveryRunIsSafe(states, steps, |steps|);
    assert s.queue[0] == 1 && s.queue[1] == 2;
    assert Candidate(s.table, s.queue[1], 0);
    assert Choice(s, 0) == 1;
    SafeRunExtends(states, steps, DoStart);
    states, steps := states + [Start(s)], steps + [DoStart];
    assert Start(s).table[2 := Start(s).table[2].(state := Ready)] == s.table;
  }

  lemma StartedParts(s: Sys, n: nat)
    requires Started(s, n)
    ensures s.queue == seq(n, i => i + 1) && s.current == 2 && s.enabled && !s.restarted && |s.table| == MAX_PROCS
    ensures s.table[0] == EMPTY && s.table[IDLE] == Newborn(PRIO_IDLE, 0, 0, 0)
    ensures s.table[2] == Newborn(PRIO_NORMAL, 0, 1, 0).(state := Running)
    ensures forall p | 2 < p < MAX_PROCS :: s.table[p] == if p <= n then Newborn(PRIO_NORMAL, 0, p - 1, 0) else EMPTY
    ensures s.ticks == 0 && !s.tickFlag && s.waiters == multiset{} && s.exits == map[] && s.reaps == []
    ensures s.nextUid == n
  {
    var t := s.table[2 := s.table[2].(state := Ready)];
    assert s.table[2] == t[2].(state := Running);
    forall p | 0 <= p < MAX_PROCS && p != 2 ensures s.table[p] == t[p] {}
  }

  /** The first process of normal priority is in its own code. */
  lemma StartedCalls(s: Sys, n: nat)
    requires Started(s, n)
    ensures s.enabled && s.current == 2 && !s.restarted && |s.table| == MAX_PROCS && s.table[2].pc == User
  {
    StartedParts(s, n);
  }

  lemma ThreeStarted(s: Sys)
    requires Started(s, 4)
    ensures s.queue == [1, 2, 3, 4] && |s.table| == MAX_PROCS
    ensures forall p | p in {3, 4} :: s.table[p] == Newborn(PRIO_NORMAL, 0, p - 1, 0)
  {
    StartedParts(s, 4);
  }

  /** The first of the three exits, and the CPU goes to the last one, which the swap has moved forward. */
  lemma FirstExits(s: Sys, code: int)
    requires Started(s, 4) && Inv(s) && Ok(s)
    ensures FirstGone(Exit(s, code), code)
  {
    StartedParts(s, 4);
    ThreeStarted(s);
    ExitUnfolds(s, code);
    var s1 := Buried(s, code);
    FirstLeavesQueue();
    assert s1.queue == [1, 4, 3];
    YieldToSecond(s1, 4);
  }

  /** Process 2, the only dead one, has left this code. */
  predicate FirstGone(s: Sys, code: int) {
    && s.current == 4 && s.enabled && |s.table| == MAX_PROCS && s.table[4].pc == User
    && s.table[2].state == Zombie && s.table[2].uid == 1 && s.exits == map[1 := code] && s.reaps == []
    && (forall p | 0 <= p < MAX_PROCS && p != 2 :: s.table[p].state != Zombie)
  }

  lemma RunFirstExits(code: int) returns (states: seq<Sys>, steps: seq<Step>)
    ensures SafeRun(states, steps) && FirstGone(states[|steps|], code)
  {
    states, steps := BootStarted(4);
    EveryRunIsSafe(states, steps, |steps|);
    var s := states[|steps|];
    FirstExits(s, code);
    StartedCalls(s, 4);
    SafeRunExtends(states, steps, DoExit(code));
    states, steps := states + [Exit(s, code)], steps + [DoExit(code)];
  }

  lemma FirstLeavesQueue()
    ensures SwapRemove([1, 2, 3, 4], 2) == [1, 4, 3]
  {
    assert [1, 2, 3, 4][1..] == [2, 3, 4];
    assert IndexOf([1, 2, 3, 4], 2) == 1;
  }

  /** Behind the idle process, x comes first among processes of the same priority. */
  lemma YieldToSecond(s: Sys, x: int)
    requires Ok(s) && s.enabled && s.current !in s.queue && s.current != 0 && s.table[s.current].state != Running
    requires |s.queue| >= 2 && s.queue[0] == IDLE && s.queue[1] == x && 0 < x < MAX_PROCS
    requires s.table[x].state == Ready && s.table[x].prio < s.table[IDLE].prio
    requires forall j | 1 < j < |s.queue| :: 0 < s.queue[j] < MAX_PROCS && s.table[x].prio <= s.table[s.queue[j]].prio
    ensures Yield(s) == s.(current := x, tickFlag := false,
                           table := s.table[s.current := s.table[s.current].(slice := 0)]
                                           [x := s.table[x].(state := Running, slice := s.table[x].sliceLen)])
  {
    var c := s.current;
    var s1 := s.(tickFlag := true, table := s.table[c := s.table[c].(slice := 0)]);
    assert x in s.queue && x != c;
    assert Candidate(s1.table, s1.queue[1], c);
    assert Choice(s1, c) == 1;
    var s2 := s1.(tickFlag := false, table := s1.table[c := s1.table[c].(slice := 0)]);
    assert s2.table == s1.table;
    assert s2.table[c := s2.table[c].(state := s2.table[c].state)] == s2.table;
  }
}
