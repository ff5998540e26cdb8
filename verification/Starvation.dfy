/** The limits of fairness: the scheduler always scans from the front, so two processes can share the CPU
    between them for ever. */
module Starvation {
  import opened Processes
  import opened ProcessInvariant
  import opened Scheduling
  import opened BootRuns

  /** n timer ticks and nothing else. */
  ghost function Ticks(s: Sys, n: nat): (t: Sys)
    requires Inv(s) && Ok(s)
    ensures Inv(t) && Ok(t) && t.enabled == s.enabled
    decreases n
  {
    if n == 0 then s else var t := Ticks(s, n - 1); TickInv(t); Tick(t)
  }

  lemma TickInv(s: Sys)
    requires Inv(s) && Ok(s)
    ensures Inv(Tick(s)) && Ok(Tick(s)) && Tick(s).enabled == s.enabled
  {
    TickKeeps(s);
    BaseIsOk(Tick(s));
    TickKeepsEnabled(s);
  }

  lemma TickKeepsEnabled(s: Sys)
    requires Ok(s)
    ensures Tick(s).enabled == s.enabled
  {
    WakeDueKeepsShape(s.(ticks := (s.ticks + 1) % TICK_RANGE, tickFlag := true), 0);
  }

  // ---------------------------------------------------------------------------------------------
  // Who is ahead of whom

  /** Queue entry j comes before entry i in (priority, position) order. */
  predicate Ahead(s: Sys, j: int, i: int) {
    && 0 <= i < |s.queue| && 0 <= j < |s.queue|
    && 0 <= s.queue[i] < |s.table| && 0 <= s.queue[j] < |s.table|
    && (s.table[s.queue[j]].prio < s.table[s.queue[i]].prio
        || (s.table[s.queue[j]].prio == s.table[s.queue[i]].prio && j < i))
  }

  ghost predicate TwoAhead(s: Sys, p: int) {
    exists i, j, k :: Ahead(s, j, i) && Ahead(s, k, i) && j != k && s.queue[i] == p
  }

  /** Somebody who is not on the CPU is ahead of p. */
  ghost predicate OtherAhead(s: Sys, p: int) {
    exists i, j :: Ahead(s, j, i) && s.queue[i] == p && s.queue[j] != s.current
  }

  /** Nobody of better priority than p is in a timed sleep. */
  predicate NoBetterSleeper(s: Sys, p: int) {
    && 0 <= p < |s.table|
    && forall q | 0 < q < |s.table| && s.table[q].state == Blocked && s.table[q].wakeup != 0 ::
         s.table[p].prio <= s.table[q].prio
  }

  // ---------------------------------------------------------------------------------------------
  // What a tick does to the order

  /** The queue has only got longer, and nobody's priority has changed. */
  ghost predicate Grown(s: Sys, s': Sys) {
    && s.queue <= s'.queue && |s'.table| == |s.table|
    && forall p | 0 <= p < |s.table| :: s'.table[p].prio == s.table[p].prio
  }

  /** What has joined the queue was in a timed sleep. */
  ghost predicate OnlySleepersJoin(s: Sys, s': Sys) {
    forall j | |s.queue| <= j < |s'.queue| ::
      0 < s'.queue[j] < |s.table| && s.table[s'.queue[j]].state == Blocked && s.table[s'.queue[j]].wakeup != 0
  }

  lemma WakeGrows(s: Sys, p: int, s': Sys)
    requires 0 < p < |s.table| && s.table[p].state == Blocked && s.table[p].wakeup != 0
    requires Grown(Wake(s, p), s') && OnlySleepersJoin(Wake(s, p), s')
    ensures Grown(s, s') && OnlySleepersJoin(s, s')
  {
  }

  lemma {:induction false} WakeDueGrows(s: Sys, from: int)
    requires TableOk(s) && s.table[0].state == Unused && 0 <= from <= MAX_PROCS
    ensures Grown(s, WakeDue(s, from)) && OnlySleepersJoin(s, WakeDue(s, from))
    decreases MAX_PROCS - from
  {
    if from == MAX_PROCS {
    } else {
      if Due(s.table[from], s.ticks) {
        WakeDueGrows(Wake(s, from), from + 1);
        WakeGrows(s, from, WakeDue(s, from));
      } else {
        WakeDueGrows(s, from + 1);
      }
    }
  }

  lemma SwitchKeepsOrder(s: Sys)
    requires Ok(s)
    ensures Switch(s).queue == s.queue && Grown(s, Switch(s))
  {
  }

  lemma RungIs(s: Sys)
    requires Inv(s) && Ok(s)
    ensures var r := Rung(s);
      && Base(r) && Ok(r) && Tick(s) == Switch(r) && Grown(s, r) && OnlySleepersJoin(s, r)
      && r.current == s.current && r.enabled == s.enabled && r.tickFlag && |r.table| == MAX_PROCS
  {
    RungKeeps(s);
    WakeDueGrows(s.(ticks := (s.ticks + 1) % TICK_RANGE, tickFlag := true), 0);
  }

  lemma TwoStayAhead(s: Sys, s': Sys, p: int)
    requires Grown(s, s') && TwoAhead(s, p)
    ensures TwoAhead(s', p)
  {
    var i, j, k :| Ahead(s, j, i) && Ahead(s, k, i) && j != k && s.queue[i] == p;
    assert Ahead(s', j, i) && Ahead(s', k, i);
  }

  /** A switch does not choose a process that two others are ahead of. */
  lemma SwitchPasses(s: Sys, p: int)
    requires Base(s) && Ok(s) && s.enabled && TwoAhead(s, p) && p != s.current
    ensures Switch(s).current != p
  {
    var i, j, k :| Ahead(s, j, i) && Ahead(s, k, i) && j != k && s.queue[i] == p;
    var r := if s.queue[j] != s.current then j else k;
    assert s.queue[r] in s.queue && s.queue[r] != s.current;
    assert Candidate(s.table, s.queue[r], s.current);
    if s.tickFlag && s.table[s.current].slice <= 1 {
      assert PcbOk(s.table[s.current]);
      SwitchPicksForemost(s);
    }
  }

  lemma TickPasses(s: Sys, p: int, s': Sys)
    requires Inv(s) && Ok(s) && s.enabled && TwoAhead(s, p) && p != s.current && s' == Tick(s)
    ensures s'.current != p && TwoAhead(s', p)
  {
    RungIs(s);
    TwoStayAhead(s, Rung(s), p);
    SwitchPasses(Rung(s), p);
    SwitchKeepsOrder(Rung(s));
    TwoStayAhead(Rung(s), Tick(s), p);
  }

  lemma StillPassed(s: Sys, p: int, k: nat)
    requires Inv(s) && Ok(s) && s.enabled && TwoAhead(Ticks(s, k), p) && p != Ticks(s, k).current
    ensures TwoAhead(Ticks(s, k + 1), p) && p != Ticks(s, k + 1).current
  {
    TickPasses(Ticks(s, k), p, Ticks(s, k + 1));
  }

  /** Starvation: a process that is not on the CPU and has two others ahead of it never gets the CPU,
      however many ticks pass. */
  lemma ThirdStarves(s: Sys, p: int, n: nat)
    requires Inv(s) && Ok(s) && s.enabled && TwoAhead(s, p) && p != s.current
    ensures Ticks(s, n).current != p
  {
    for k := 0 to n
      invariant TwoAhead(Ticks(s, k), p) && p != Ticks(s, k).current
    {
      StillPassed(s, p, k);
    }
  }

  lemma SameOrder(s: Sys, s': Sys, p: int)
    requires Grown(s, s') && s'.queue == s.queue
    ensures TwoAhead(s', p) ==> TwoAhead(s, p)
    ensures OtherAhead(s', p) && s'.current == s.current ==> OtherAhead(s, p)
  {
    if TwoAhead(s', p) {
      var i, j, k :| Ahead(s', j, i) && Ahead(s', k, i) && j != k && s'.queue[i] == p;
      assert Ahead(s, j, i) && Ahead(s, k, i);
    }
    if OtherAhead(s', p) && s'.current == s.current {
      var i, j :| Ahead(s', j, i) && s'.queue[i] == p && s'.queue[j] != s'.current;
      assert Ahead(s, j, i);
    }
  }

  // ---------------------------------------------------------------------------------------------
  // Whole runs

  /** p does not have the CPU, unless fewer than two processes are ahead of it. */
  ghost predicate Passed(s: Sys, p: int) {
    TwoAhead(s, p) ==> s.current != p
  }

  lemma SwitchPassed(s: Sys, p: int)
    requires Base(s) && Ok(s) && p != s.current
    ensures Passed(Switch(s), p)
  {
    SwitchKeepsOrder(s);
    SameOrder(s, Switch(s), p);
    if s.enabled && TwoAhead(s, p) {
      SwitchPasses(s, p);
    }
  }

  lemma YieldPassed(s: Sys, p: int)
    requires Base(s) && Ok(s) && s.enabled && p != s.current
    ensures Passed(Yield(s), p)
  {
    SameButKeeps(s, s.current, s.table[s.current].(slice := 0));
    SwitchPassed(Forced(s), p);
  }

  lemma BlockPassed(s: Sys, pcb: Pcb, p: int)
    requires Inv(s) && Ok(s) && s.enabled && MayCall(s) && p != s.current && PcbOk(pcb) && pcb.state == Blocked
    requires pcb.pc.InWait? ==> forall c | 0 <= c < MAX_PROCS :: !Collectable(s.table, s.current, pcb.pc.target, c)
    ensures Passed(Block(s, pcb), p)
  {
    BlockedBase(s, pcb);
    var s1 := Dequeue(s.(table := s.table[s.current := pcb]), s.current);
    BaseIsOk(s1);
    YieldPassed(s1, p);
  }

  lemma WaitPassed(s: Sys, target: int, p: int)
    requires Inv(s) && Ok(s) && s.enabled && MayCall(s) && s.table[s.current].pc == User && p != s.current
    ensures Passed(WaitTurn(s, target), p)
  {
    var z := FirstZombie(s.table, s.current, target, 0);
    if z < |s.table| {
      CollectedKeeps(s, z);
      SwitchPassed(Collected(s, z), p);
    } else {
      assert PcbOk(s.table[s.current]);
      BlockPassed(s, Waiting(s.table[s.current], target), p);
    }
  }

  lemma SleepPassed(s: Sys, n: int, p: int)
    requires Inv(s) && Ok(s) && s.enabled && MayCall(s) && s.table[s.current].pc == User && p != s.current
    ensures Passed(Sleep(s, n), p)
  {
    if n == 0 {
      SwitchPassed(s, p);
    } else {
      assert PcbOk(s.table[s.current]);
      BlockPassed(s, SleepingUntil(s.table[s.current], WakeTick(s.ticks, n)), p);
    }
  }

  lemma BlockIoPassed(s: Sys, lost: int, p: int)
    requires Inv(s) && Ok(s) && s.enabled && MayCall(s) && s.table[s.current].pc == User && p != s.current
    ensures Passed(BlockIo(s, lost), p)
  {
    assert PcbOk(s.table[s.current]);
    BlockPassed(s.(waiters := s.waiters - multiset{lost} + multiset{s.current}), InWaiterSlot(s.table[s.current]), p);
  }

  lemma ExitPassed(s: Sys, code: int, p: int)
    requires Inv(s) && Ok(s) && s.enabled && MayCall(s) && s.table[s.current].pc == User && p != s.current
    ensures Passed(Exit(s, code), p)
  {
    ExitUnfolds(s, code);
    BuriedKeeps(s, code);
    BuriedIsSame(s, code);
    YieldPassed(Buried(s, code), p);
  }

  lemma BuriedIsSame(s: Sys, code: int)
    requires Ok(s)
    ensures Buried(s, code).current == s.current && Buried(s, code).enabled == s.enabled
  {
  }

  lemma ForkPassed(s: Sys, memory: bool, p: int)
    requires Inv(s) && Ok(s) && s.enabled && p != s.current
    ensures Passed(Fork(s, memory), p)
  {
    assert PcbOk(s.table[s.current]);
    CreateKeeps(s, s.table[s.current].prio, memory, s.current);
    var (s1, pid) := Create(s, s.table[s.current].prio, memory);
    var s2 := if pid == 0 then s1 else Launch(s1, pid, s.current);
    BaseIsOk(s2);
    SwitchPassed(s2, p);
  }

  lemma ExecPassed(s: Sys, q: int, p: int)
    requires Inv(s) && Ok(s) && s.enabled && 0 < q < MAX_PROCS && p != s.current
    ensures Passed(Exec(s, q), p)
  {
    if s.table[q].state == Unused || s.table[q].state == Running {
      SwitchPassed(s, p);
    } else {
      ExecutedBase(s, q);
      SwitchPassed(Restarted(s, q), p);
    }
  }

  lemma ExecvePassed(s: Sys, p: int)
    requires Inv(s) && Ok(s) && s.enabled && p != s.current
    ensures Passed(Execve(s), p)
  {
    var pcb := s.table[s.current].(slice := s.table[s.current].sliceLen);
    SameButKeeps(s, s.current, pcb);
    SwitchPassed(s.(table := s.table[s.current := pcb]), p);
  }

  lemma ResumePassed(s: Sys, p: int)
    requires Inv(s) && Ok(s) && s.enabled && s.table[s.current].pc != User && p != s.current
    ensures Passed(ResumeStep(s), p)
  {
    ResumedInv(s);
    var me := s.table[s.current];
    var s1 := s.(table := s.table[s.current := me.(waiting := false, pc := User)]);
    assert PcbOk(me);
    BaseIsOk(s1);
    match me.pc
    case User =>
    case InWait(target) => WaitPassed(s1, target, p);
    case InSleep => SwitchPassed(s1, p);
    case InIo =>
  }

  lemma IoWakePassed(s: Sys, q: int, interrupt: bool, p: int)
    requires Inv(s) && Ok(s) && 0 < q < MAX_PROCS && p != s.current
    ensures Passed(IoWake(s, q, interrupt), p)
  {
    var s1 := s.(waiters := s.waiters - multiset{q});
    WakeKeeps(s1, q);
    BaseIsOk(Wake(s1, q));
    SwitchPassed(Wake(s1, q), p);
  }

  lemma SpawnPassed(s: Sys, prio: nat, memory: bool, p: int)
    requires Inv(s) && Ok(s) && p != s.current
    ensures Passed(Spawn(s, prio, memory), p)
  {
    CreateKeeps(s, prio, memory, 0);
  }

  lemma StartPassed(s: Sys, p: int)
    requires Inv(s) && Ok(s) && !s.enabled && p != s.current
    ensures Passed(Start(s), p)
  {
    var b, s' := Choice(s, 0), Start(s);
    if b >= 0 && TwoAhead(s', p) {
      SameOrder(s, s', p);
      var i, j, k :| Ahead(s, j, i) && Ahead(s, k, i) && j != k && s.queue[i] == p;
      assert s.queue[j] in s.queue;
      assert Candidate(s.table, s.queue[j], 0);
    }
  }

  lemma TickPassed(s: Sys, p: int)
    requires Inv(s) && Ok(s) && p != s.current
    ensures Passed(Tick(s), p)
  {
    RungIs(s);
    SwitchPassed(Rung(s), p);
  }

  /** No step gives the CPU to a process that two others are ahead of. */
  lemma StepPassed(s: Sys, step: Step, p: int)
    requires Inv(s) && Ok(s) && Enabled(s, step) && p != s.current
    ensures Passed(Next(s, step), p)
  {
    match step
    case DoSpawn(prio, memory) => SpawnPassed(s, prio, memory, p);
    case DoStart => StartPassed(s, p);
    case DoTick => TickPassed(s, p);
    case DoIoWake(q, interrupt) => IoWakePassed(s, q, interrupt, p);
    case DoExit(code) => ExitPassed(s, code, p);
    case DoWait(target) => WaitPassed(s, target, p);
    case DoSleep(n) => SleepPassed(s, n, p);
    case DoBlockIo(lost) => BlockIoPassed(s, lost, p);
    case DoFork(memory) => ForkPassed(s, memory, p);
    case DoExec(q) => ExecPassed(s, q, p);
    case DoExecve => ExecvePassed(s, p);
    case DoCall => SwitchPassed(s, p);
    case DoResume => ResumePassed(s, p);
  }

  /** Starvation in any run, whatever the processes do: as long as two others stay ahead of it, a process that
      is not on the CPU does not get it. */
  lemma {:induction false} ThirdStarvesInRun(states: seq<Sys>, steps: seq<Step>, i: nat, j: nat, p: int)
    requires SafeRun(states, steps) && i <= j < |states| && p != states[i].current
    requires forall k | i < k <= j :: TwoAhead(states[k], p)
    ensures states[j].current != p
    decreases j
  {
    if i == j {
    } else {
      ThirdStarvesInRun(states, steps, i, j - 1, p);
      PassedInRun(states, steps, j, p);
    }
  }

  lemma PassedInRun(states: seq<Sys>, steps: seq<Step>, j: nat, p: int)
    requires SafeRun(states, steps) && 0 < j < |states| && p != states[j - 1].current
    ensures Passed(states[j], p)
  {
    EveryRunIsSafe(states, steps, j - 1);
    assert Linked(states, steps, j - 1);
    StepPassed(states[j - 1], steps[j - 1], p);
  }

  // ---------------------------------------------------------------------------------------------
  // The converse

  /** Those who join from a timed sleep queue up behind p. */
  lemma NobodyOvertakes(s: Sys, s': Sys, p: int)
    requires Base(s) && Grown(s, s') && OnlySleepersJoin(s, s') && NoBetterSleeper(s, p) && p in s.queue
    ensures forall i, j :: Ahead(s', j, i) && s'.queue[i] == p ==> Ahead(s, j, i)
  {
    forall i, j | Ahead(s', j, i) && s'.queue[i] == p
      ensures Ahead(s, j, i)
    {
      assert i < |s.queue|;
      assert s'.queue[i] == s.queue[i];
      if j < |s.queue| {
        assert s'.queue[j] == s.queue[j];
      }
    }
  }

  lemma RungAddsNobody(s: Sys, p: int)
    requires Inv(s) && Ok(s) && NoBetterSleeper(s, p) && p in s.queue
    ensures p in Rung(s).queue
    ensures TwoAhead(Rung(s), p) ==> TwoAhead(s, p)
    ensures OtherAhead(Rung(s), p) ==> OtherAhead(s, p)
  {
    var r := Rung(s);
    RungIs(s);
    NobodyOvertakes(s, r, p);
    if TwoAhead(r, p) {
      var i, j, k :| Ahead(r, j, i) && Ahead(r, k, i) && j != k && r.queue[i] == p;
      assert Ahead(s, j, i) && Ahead(s, k, i) && s.queue[i] == p;
    }
    if OtherAhead(r, p) {
      var i, j :| Ahead(r, j, i) && r.queue[i] == p && r.queue[j] != r.current;
      assert Ahead(s, j, i) && s.queue[i] == p && s.queue[j] != s.current;
    }
  }

  lemma ForemostIsAhead(s: Sys, q: int, i: int)
    requires Ok(s) && Foremost(s.table, s.queue, s.current, q)
    requires 0 <= i < |s.queue| && Candidate(s.table, s.queue[i], s.current) && s.queue[i] != q
    ensures exists j :: Ahead(s, j, i) && s.queue[j] == q
  {
    var b :| 0 <= b < |s.queue| && s.queue[b] == q
      && forall j | 0 <= j < |s.queue| && Candidate(s.table, s.queue[j], s.current) ::
           s.table[q].prio < s.table[s.queue[j]].prio || (s.table[q].prio == s.table[s.queue[j]].prio && b <= j);
    assert Ahead(s, b, i);
  }

  /** The process that a switch picks instead of p is ahead of p. */
  lemma PickedIsAhead(s: Sys, p: int)
    requires Base(s) && Ok(s) && s.enabled && s.tickFlag && p in s.queue && p != s.current
    requires Switch(s).current != s.current && Switch(s).current != p
    ensures exists i, j :: Ahead(s, j, i) && s.queue[i] == p && s.queue[j] == Switch(s).current
  {
    var i :| 0 <= i < |s.queue| && s.queue[i] == p;
    assert Candidate(s.table, s.queue[i], s.current);
    assert PcbOk(s.table[s.current]);
    SwitchPicksForemost(s);
    ForemostIsAhead(s, Switch(s).current, i);
  }

  /** If another process is picked, it was ahead of p and not on the CPU, and no other is ahead now. */
  lemma PickedLeavesNobody(s: Sys, p: int)
    requires Base(s) && Ok(s) && s.enabled && s.tickFlag && p in s.queue && p != s.current && !TwoAhead(s, p)
    requires Switch(s).current != s.current && Switch(s).current != p
    ensures OtherAhead(s, p) && !OtherAhead(Switch(s), p)
  {
    PickedIsAhead(s, p);
    var i, j :| Ahead(s, j, i) && s.queue[i] == p && s.queue[j] == Switch(s).current;
    SwitchKeepsOrder(s);
    forall a, b | Ahead(Switch(s), b, a) && Switch(s).queue[a] == p
      ensures Switch(s).queue[b] == Switch(s).current
    {
      assert Ahead(s, b, a);
      assert a == i;
      assert b == j;
    }
  }

  lemma RungNoBetterSleeper(s: Sys, p: int)
    requires Ok(s) && NoBetterSleeper(s, p)
    ensures NoBetterSleeper(Rung(s), p)
  {
    WakeDueKeepsShape(s.(ticks := (s.ticks + 1) % TICK_RANGE, tickFlag := true), 0);
  }

  lemma SwitchNoBetterSleeper(s: Sys, p: int)
    requires Ok(s) && NoBetterSleeper(s, p)
    ensures NoBetterSleeper(Switch(s), p)
  {
  }

  ghost function Stage(s: Sys, p: int): nat {
    if OtherAhead(s, p) then 1 else 0
  }

  /** p waits for the CPU with at most one process ahead of it, and nobody to overtake it. */
  ghost predicate Waits(s: Sys, p: int) {
    && 0 <= s.current < |s.table| && p in s.queue && p != s.current
    && NoBetterSleeper(s, p) && !TwoAhead(s, p)
  }

  lemma TickKeepsFew(s: Sys, p: int)
    requires Inv(s) && Ok(s) && s.enabled && Waits(s, p)
    ensures Tick(s).current != p ==> Waits(Tick(s), p)
  {
    TickInv(s);
    RungIs(s);
    RungAddsNobody(s, p);
    SwitchKeepsOrder(Rung(s));
    SameOrder(Rung(s), Tick(s), p);
    RungNoBetterSleeper(s, p);
    SwitchNoBetterSleeper(Rung(s), p);
  }

  /** A tick that does not give p the CPU brings it nearer. */
  lemma TickBringsNearer(s: Sys, p: int)
    requires Inv(s) && Ok(s) && s.enabled && Waits(s, p) && Tick(s).current != p
    ensures Waits(Tick(s), p)
    ensures Stage(Tick(s), p) < Stage(s, p)
      || (Stage(Tick(s), p) <= Stage(s, p) && 0 <= Tick(s).table[Tick(s).current].slice < s.table[s.current].slice)
  {
    var r := Rung(s);
    TickKeepsFew(s, p);
    RungIs(s);
    RungAddsNobody(s, p);
    if Tick(s).current == s.current {
      SwitchKeepsOrder(r);
      SameOrder(r, Tick(s), p);
      var i :| 0 <= i < |s.queue| && s.queue[i] == p;
      assert Candidate(s.table, s.queue[i], s.current);
      HoldOverTick(s);
    } else {
      PickedLeavesNobody(r, p);
    }
  }

  lemma OneTick(s: Sys, p: int, k: nat)
    requires Inv(s) && Ok(s) && s.enabled && Waits(Ticks(s, k), p)
    ensures var t, t' := Ticks(s, k), Ticks(s, k + 1);
      || t'.current == p
      || (&& Waits(t', p)
          && (|| Stage(t', p) < Stage(t, p)
              || (Stage(t', p) <= Stage(t, p) && 0 <= t'.table[t'.current].slice < t.table[t.current].slice)))
  {
    if Ticks(s, k + 1).current != p {
      TickBringsNearer(Ticks(s, k), p);
    }
  }

  lemma {:induction false} GetsCpu(s: Sys, p: int, k: nat) returns (n: nat)
    requires Inv(s) && Ok(s) && s.enabled && Waits(Ticks(s, k), p)
    ensures Ticks(s, n).current == p
    decreases Stage(Ticks(s, k), p), Ticks(s, k).table[Ticks(s, k).current].slice
  {
    OneTick(s, p, k);
    if Ticks(s, k + 1).current == p {
      n := k + 1;
    } else {
      n := GetsCpu(s, p, k + 1);
    }
  }

  /** With nobody of better priority in a timed sleep, a runnable process that is not on the CPU gets it by
      the passing of time if and only if fewer than two processes are ahead of it. */
  lemma GetsCpuIffFewAhead(s: Sys, p: int)
    requires Inv(s) && Ok(s) && s.enabled && p in s.queue && p != s.current && NoBetterSleeper(s, p)
    ensures (exists n: nat :: Ticks(s, n).current == p) <==> !TwoAhead(s, p)
  {
    if TwoAhead(s, p) {
      forall n: nat ensures Ticks(s, n).current != p { ThirdStarves(s, p, n); }
    } else {
      var n := GetsCpu(s, p, 0);
    }
  }

  /** A run from boot that ends in such a state: after the idle process, three processes of normal priority
      are created, and the third never runs. */
  lemma StarvedAfterBoot() returns (states: seq<Sys>, steps: seq<Step>)
    ensures SafeRun(states, steps)
    ensures var s := states[|steps|];
      Inv(s) && Ok(s) && 4 in s.queue && s.table[4].prio == PRIO_NORMAL && forall n: nat :: Ticks(s, n).current != 4
  {
    states, steps := BootStarted(4);
    var s := states[|steps|];
    EveryRunIsSafe(states, steps, |steps|);
    StartedParts(s, 4);
    ThreeStarted(s);
    assert Ahead(s, 1, 3) && Ahead(s, 2, 3);
    forall n: nat ensures Ticks(s, n).current != 4 { ThirdStarves(s, 4, n); }
  }
}
