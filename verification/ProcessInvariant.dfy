/** What holds of the process table, the PID bitmap and the ready queue in every reachable state. */
module ProcessInvariant {
  import opened ReadyQueue
  import opened Processes

  // ---------------------------------------------------------------------------------------------
  // Steps

  datatype Step =
    | DoSpawn(prio: nat, memory: bool)
    | DoStart
    | DoTick
    | DoIoWake(pid: int, interrupt: bool)
    | DoExit(code: int)
    | DoWait(target: int)
    | DoSleep(n: int)
    | DoBlockIo(lost: int)
    | DoFork(memory: bool)
    | DoExec(pid: int)
    | DoExecve
    | DoCall
    | DoResume

  predicate IsCall(step: Step) {
    || step.DoExit? || step.DoWait? || step.DoSleep? || step.DoBlockIo? || step.DoFork?
    || step.DoExec? || step.DoExecve? || step.DoCall?
  }

  /** The current process can make system calls: it is not in the idle loop. */
  predicate MayCall(s: Sys) {
    s.current != IDLE || s.restarted
  }

  /** When a step can happen. System calls come from a process running its own code; boot starts the
      scheduler once, after creating the idle process. */
  predicate Enabled(s: Sys, step: Step)
    requires TableOk(s)
  {
    && (step.DoStart? ==> !s.enabled && IDLE in s.pids)
    && (step.DoIoWake? ==> 0 < step.pid < MAX_PROCS && step.pid in s.waiters)
    && (IsCall(step) ==> s.enabled && MayCall(s) && s.table[s.current].pc == User)
    && (step.DoExec? ==> 0 < step.pid < MAX_PROCS)
    && (step.DoSleep? ==> 0 <= step.n < TICK_RANGE)
    && (step.DoResume? ==> s.enabled && s.table[s.current].pc != User)
  }

  function Next(s: Sys, step: Step): Sys
    requires TableOk(s) && PriosOk(s.table) && 1 <= s.hint <= MAX_PROCS && s.table[0].state == Unused
    requires Enabled(s, step)
  {
    match step
    case DoSpawn(prio, memory) => Spawn(s, prio, memory)
    case DoStart => Start(s)
    case DoTick => Tick(s)
    case DoIoWake(p, interrupt) => IoWake(s, p, interrupt)
    case DoExit(code) => Exit(s, code)
    case DoWait(target) => WaitTurn(s, target)
    case DoSleep(n) => Sleep(s, n)
    case DoBlockIo(lost) => BlockIo(s, lost)
    case DoFork(memory) => Fork(s, memory)
    case DoExec(p) => Exec(s, p)
    case DoExecve => Execve(s)
    case DoCall => Switch(s)
    case DoResume => ResumeStep(s)
  }

  // ---------------------------------------------------------------------------------------------
  // The invariant

  /** What `Next` needs of a state; it follows from the invariant. */
  predicate Ok(s: Sys) {
    TableOk(s) && PriosOk(s.table) && 1 <= s.hint <= MAX_PROCS && s.table[0].state == Unused
  }

  /** What one control block promises by itself. */
  predicate PcbOk(p: Pcb) {
    && 0 <= p.prio <= PRIO_IDLE && 0 <= p.slice <= p.sliceLen
    && p.state != Embryo
    && (p.waiting <==> p.pc.InWait?)
    && (p.pc.InWait? ==> p.waitFor == p.pc.target)
    && (p.wakeup != 0 ==> p.state == Blocked && p.pc == InSleep)
    && (p.state == Blocked ==> p.pc != User)
    && (p.state == Unused || p.state == Zombie ==> p.pc == User)
    && (p.state != Unused ==> p.sliceLen == TimeSlice(p.prio))
  }

  /** Process p sleeps in `proc_wait` although its child c is there to be collected. */
  predicate Missed(table: seq<Pcb>, p: int, c: int)
    requires 0 <= p < |table| && 0 <= c < |table|
  {
    table[p].state == Blocked && table[p].pc.InWait? && Collectable(table, p, table[p].pc.target, c)
  }

  ghost predicate QueueOk(table: seq<Pcb>, queue: seq<int>) {
    && Distinct(queue)
    && forall p :: p in queue <==> 0 < p < |table| && Runnable(table[p])
  }

  ghost predicate PidsOk(table: seq<Pcb>, pids: set<int>, hint: int) {
    && 1 <= hint < MAX_PROCS && 0 in pids
    && (forall p | p in pids :: 0 <= p < MAX_PROCS)
    && (forall p | 0 < p < |table| :: p in pids <==> table[p].state != Unused)
    && (forall p | 0 < p < hint :: p in pids)
  }

  ghost predicate TableInv(table: seq<Pcb>) {
    && |table| == MAX_PROCS && table[0].state == Unused
    && (forall p | 0 <= p < |table| :: PcbOk(table[p]))
    && (forall p, c | 0 <= p < |table| && 0 <= c < |table| :: !Missed(table, p, c))
  }

  /** The idle loop is there once the scheduler runs, and never blocks. */
  ghost predicate IdleWaits(s: Sys)
    requires |s.table| == MAX_PROCS
  {
    && (s.enabled ==> IDLE in s.pids)
    && (IDLE in s.pids ==> Runnable(s.table[IDLE]) && s.table[IDLE].pc == User)
  }

  /** Holds even while the current process has just been blocked and has not yet yielded. */
  ghost predicate Base(s: Sys) {
    && TableInv(s.table)
    && QueueOk(s.table, s.queue)
    && PidsOk(s.table, s.pids, s.hint)
    && 0 <= s.current < MAX_PROCS && (s.enabled <==> s.current != 0)
    && (s.restarted ==> s.enabled) && (!s.restarted ==> IdleWaits(s))
    && (forall p | 0 <= p < |s.table| && s.table[p].state == Running :: p == s.current)
  }

  /** The state between two steps: once the scheduler runs, exactly the current process is RUNNING. */
  ghost predicate Inv(s: Sys) {
    Base(s) && (s.enabled ==> s.table[s.current].state == Running)
  }

  // ---------------------------------------------------------------------------------------------
  // Queue and switch

  /** The "queue full" branch of `sched_add` is never taken. */
  lemma QueueNeverFull(s: Sys)
    requires Base(s)
    ensures |s.queue| < MAX_PROCS
  {
    DistinctIsSmall(s.queue, 1, MAX_PROCS);
  }

  /** One process turning runnable and joining the queue. */
  lemma JoinKeepsQueue(table: seq<Pcb>, queue: seq<int>, p: int, pcb: Pcb)
    requires QueueOk(table, queue) && 0 < p < |table| && !Runnable(table[p]) && Runnable(pcb)
    ensures QueueOk(table[p := pcb], queue + [p])
  {
  }

  lemma LeaveKeepsQueue(table: seq<Pcb>, queue: seq<int>, p: int, pcb: Pcb)
    requires QueueOk(table, queue) && 0 < p < |table| && !Runnable(pcb)
    ensures QueueOk(table[p := pcb], SwapRemove(queue, p))
  {
    SwapRemoveRemoves(queue, p);
  }

  lemma StayKeepsQueue(table: seq<Pcb>, queue: seq<int>, p: int, pcb: Pcb)
    requires QueueOk(table, queue) && 0 <= p < |table| && Runnable(pcb) == Runnable(table[p])
    ensures QueueOk(table[p := pcb], queue)
  {
  }

  lemma WakeKeeps(s: Sys, p: int)
    requires Base(s) && 0 < p < MAX_PROCS
    ensures Base(Wake(s, p))
    ensures Wake(s, p) == s.(table := Wake(s, p).table, queue := Wake(s, p).queue)
    ensures forall q | 0 <= q < MAX_PROCS && q != p :: Wake(s, p).table[q] == s.table[q]
    ensures s.table[p].state != Blocked ==> Wake(s, p) == s
    ensures s.table[p].state == Blocked ==> Wake(s, p).table[p] == s.table[p].(wakeup := 0, state := Ready)
  {
    if s.table[p].state == Blocked {
      QueueNeverFull(s);
      AwakeKeeps(s, p);
      assert Wake(s, p) == s.(table := s.table[p := s.table[p].(wakeup := 0, state := Ready)], queue := s.queue + [p]);
    }
  }

  lemma AwakeKeeps(s: Sys, p: int)
    requires Base(s) && 0 < p < MAX_PROCS && s.table[p].state == Blocked
    ensures Base(s.(table := s.table[p := s.table[p].(wakeup := 0, state := Ready)], queue := s.queue + [p]))
  {
    var pcb := s.table[p].(wakeup := 0, state := Ready);
    JoinKeepsQueue(s.table, s.queue, p, pcb);
    var table := s.table[p := pcb];
    assert forall a, c | 0 <= a < |table| && 0 <= c < |table| :: Missed(table, a, c) ==> Missed(s.table, a, c);
  }

  /** Some process other than the current one is READY. */
  ghost predicate OtherReady(s: Sys) {
    exists j :: 0 <= j < |s.queue| && Candidate(s.table, s.queue[j], s.current)
  }

  /** That is always so while process 1 is in the idle loop and does not have the CPU. */
  lemma IdleIsReady(s: Sys)
    requires Base(s) && s.enabled && s.current != IDLE && !s.restarted
    ensures OtherReady(s)
  {
  }

  /** It is so exactly when the scan finds somebody. */
  lemma ScanFindsOther(s: Sys)
    requires PriosOk(s.table)
    ensures Choice(s, s.current) >= 0 <==> OtherReady(s)
  {
  }

  lemma WakeKeepsReady(s: Sys, p: int)
    requires TableOk(s) && 0 < p < MAX_PROCS && OtherReady(s)
    ensures OtherReady(Wake(s, p))
  {
    var j :| 0 <= j < |s.queue| && Candidate(s.table, s.queue[j], s.current);
    assert Wake(s, p).queue[j] == s.queue[j];
  }

  lemma ParentWakesReady(s: Sys)
    requires TableOk(s) && OtherReady(s)
    ensures OtherReady(WakeParent(s, s.current))
  {
    if ParentToWake(s, s.current) != 0 {
      WakeKeepsReady(s, ParentToWake(s, s.current));
    }
  }

  /** Taking the current process off the queue leaves the others ready. */
  lemma LeaveKeepsReady(s: Sys, pcb: Pcb)
    requires TableOk(s) && Distinct(s.queue)
    ensures OtherReady(Dequeue(s.(table := s.table[s.current := pcb]), s.current)) <==> OtherReady(s)
  {
    var s1 := Dequeue(s.(table := s.table[s.current := pcb]), s.current);
    SwapRemoveRemoves(s.queue, s.current);
    if OtherReady(s) {
      var j :| 0 <= j < |s.queue| && Candidate(s.table, s.queue[j], s.current);
      assert s.queue[j] in s1.queue;
      var k :| 0 <= k < |s1.queue| && s1.queue[k] == s.queue[j];
      assert Candidate(s1.table, s1.queue[k], s1.current);
    }
    if OtherReady(s1) {
      var k :| 0 <= k < |s1.queue| && Candidate(s1.table, s1.queue[k], s1.current);
      assert s1.queue[k] in s.queue;
      var j :| 0 <= j < |s.queue| && s.queue[j] == s1.queue[k];
      assert Candidate(s.table, s.queue[j], s.current);
    }
  }

  lemma BaseIsOk(s: Sys)
    requires Base(s)
    ensures TableOk(s) && PriosOk(s.table) && 1 <= s.hint <= MAX_PROCS && s.table[0].state == Unused
  {
  }

  /** Changes to slices alone, or a change between READY and RUNNING, keep the table's promises. */
  predicate SameBut(a: Pcb, b: Pcb) {
    && b == a.(slice := b.slice, state := b.state) && 0 <= b.slice <= a.sliceLen
    && (a.state == b.state || (Runnable(a) && Runnable(b)))
  }

  lemma SameButKeeps(s: Sys, p: int, pcb: Pcb)
    requires Base(s) && 0 < p < MAX_PROCS && SameBut(s.table[p], pcb)
    requires pcb.state == Running ==> p == s.current
    ensures Base(s.(table := s.table[p := pcb]))
  {
    StayKeepsQueue(s.table, s.queue, p, pcb);
    var table := s.table[p := pcb];
    assert forall a, c | 0 <= a < |table| && 0 <= c < |table| :: Missed(table, a, c) ==> Missed(s.table, a, c);
  }

  /** A switch leads back to a state where exactly the current process runs, provided the current
      process is running or its slice has been forced to the end. */
  lemma SwitchKeeps(s: Sys)
    requires Base(s)
    requires s.enabled ==>
      (s.table[s.current].state == Running || (s.tickFlag && s.table[s.current].slice == 0 && OtherReady(s)))
    ensures TableOk(s) && PriosOk(s.table)
    ensures Inv(Switch(s))
  {
    BaseIsOk(s);
    if s.enabled && s.tickFlag {
      var c := s.current;
      var left := if s.table[c].slice > 0 then s.table[c].slice - 1 else 0;
      var s2 := s.(tickFlag := false, table := s.table[c := s.table[c].(slice := left)]);
      SameButKeeps(s, c, s.table[c].(slice := left));
      if left == 0 {
        SameReady(s, s2);
        SwitchAwayKeeps(s2);
      }
    }
  }

  /** What the block of the current process holds has no say in whether others are ready. */
  lemma SameReady(s: Sys, s': Sys)
    requires 0 <= s.current < |s.table| && s'.current == s.current && s'.queue == s.queue
    requires |s'.table| == |s.table| && s'.table == s.table[s.current := s'.table[s.current]]
    ensures OtherReady(s') <==> OtherReady(s)
  {
    if OtherReady(s) {
      var j :| 0 <= j < |s.queue| && Candidate(s.table, s.queue[j], s.current);
      assert Candidate(s'.table, s'.queue[j], s'.current);
    }
    if OtherReady(s') {
      var j :| 0 <= j < |s'.queue| && Candidate(s'.table, s'.queue[j], s'.current);
      assert Candidate(s.table, s.queue[j], s.current);
    }
  }

  lemma SwitchAwayKeeps(s: Sys)
    requires Base(s) && s.enabled
    requires s.table[s.current].state == Running || OtherReady(s)
    ensures PriosOk(s.table)
    ensures var b := Choice(s, s.current);
      if b < 0 then
        Inv(s.(table := s.table[s.current := s.table[s.current].(slice := s.table[s.current].sliceLen)]))
      else
        var state := if s.table[s.current].state == Running then Ready else s.table[s.current].state;
        0 <= s.queue[b] < |s.table|
        && Inv(Activate(s.(table := s.table[s.current := s.table[s.current].(state := state)]), s.queue[b]))
  {
    var c := s.current;
    var b := Choice(s, c);
    if b < 0 {
      ScanFindsOther(s);
      SameButKeeps(s, c, s.table[c].(slice := s.table[c].sliceLen));
    } else {
      var state := if s.table[c].state == Running then Ready else s.table[c].state;
      var s1 := s.(table := s.table[c := s.table[c].(state := state)]);
      SameButKeeps(s, c, s.table[c].(state := state));
      var n := s.queue[b];
      assert n in s.queue;
      SameButKeeps(s1.(current := n), n, s1.table[n].(state := Running, slice := s1.table[n].sliceLen));
    }
  }

  /** The state in which `sched_yield` switches. */
  function Forced(s: Sys): Sys
    requires 0 <= s.current < |s.table|
  {
    s.(tickFlag := true, table := s.table[s.current := s.table[s.current].(slice := 0)])
  }

  lemma YieldKeeps(s: Sys)
    requires Base(s) && s.enabled && OtherReady(s)
    ensures TableOk(s) && PriosOk(s.table)
    ensures Inv(Yield(s))
  {
    BaseIsOk(s);
    SameButKeeps(s, s.current, s.table[s.current].(slice := 0));
    SameReady(s, Forced(s));
    SwitchKeeps(Forced(s));
  }

  /** With nobody else ready, a process that is not RUNNING any more goes on all the same. */
  lemma YieldStrands(s: Sys)
    requires Ok(s) && s.enabled && s.current != 0 && s.table[s.current].state != Running && !OtherReady(s)
    ensures !Inv(Yield(s))
    ensures var s' := Yield(s);
      s'.current == s.current && |s'.table| == MAX_PROCS && s'.table[s.current].state == s.table[s.current].state
  {
    SameReady(s, Forced(s));
    var s2 := Forced(s).(tickFlag := false);
    SameReady(s, s2);
    ScanFindsOther(s2);
    assert s2.table[s.current := s2.table[s.current].(slice := 0)] == s2.table;
  }

  // ---------------------------------------------------------------------------------------------
  // Blocking, exit and wait

  /** The current process leaves the queue, blocked or dead. */
  lemma LeaveKeepsBase(s: Sys, pcb: Pcb)
    requires Base(s) && s.enabled && MayCall(s) && s.table[s.current].state != Unused
    requires PcbOk(pcb) && !Runnable(pcb) && pcb.state != Unused
    requires var table := s.table[s.current := pcb];
      forall p, c | 0 <= p < |table| && 0 <= c < |table| && (p == s.current || c == s.current) :: !Missed(table, p, c)
    ensures Base(Dequeue(s.(table := s.table[s.current := pcb]), s.current))
  {
    LeaveKeepsQueue(s.table, s.queue, s.current, pcb);
    var table := s.table[s.current := pcb];
    forall p, c | 0 <= p < |table| && 0 <= c < |table|
      ensures !Missed(table, p, c)
    {
      assert !Missed(s.table, p, c);
    }
  }

  lemma BlockedBase(s: Sys, pcb: Pcb)
    requires Inv(s) && s.enabled && MayCall(s)
    requires PcbOk(pcb) && pcb.state == Blocked
    requires pcb.pc.InWait? ==> forall c | 0 <= c < MAX_PROCS :: !Collectable(s.table, s.current, pcb.pc.target, c)
    ensures Base(Dequeue(s.(table := s.table[s.current := pcb]), s.current))
  {
    var table := s.table[s.current := pcb];
    forall p, c | 0 <= p < |table| && 0 <= c < |table| && (p == s.current || c == s.current)
      ensures !Missed(table, p, c)
    {
      assert pcb.pc.InWait? ==> !Collectable(s.table, s.current, pcb.pc.target, c);
    }
    LeaveKeepsBase(s, pcb);
  }

  /** Blocking leads to a state where the current process runs if and only if another one is ready. */
  lemma BlockKeeps(s: Sys, pcb: Pcb)
    requires Inv(s) && s.enabled && MayCall(s)
    requires PcbOk(pcb) && pcb.state == Blocked
    requires pcb.pc.InWait? ==> forall c | 0 <= c < MAX_PROCS :: !Collectable(s.table, s.current, pcb.pc.target, c)
    ensures TableOk(s) && PriosOk(s.table)
    ensures Inv(Block(s, pcb)) <==> OtherReady(s)
  {
    var s1 := Dequeue(s.(table := s.table[s.current := pcb]), s.current);
    BaseIsOk(s);
    BlockedBase(s, pcb);
    BaseIsOk(s1);
    LeaveKeepsReady(s, pcb);
    if OtherReady(s) {
      YieldKeeps(s1);
    } else {
      YieldStrands(s1);
    }
  }

  /** The state in which an exiting process yields for the last time. */
  function Buried(s: Sys, code: int): Sys
    requires TableOk(s)
  {
    var p, woken := s.current, WakeParent(s, s.current);
    var dead := s.table[p].(exitCode := code, state := Zombie);
    Dequeue(woken.(table := woken.table[p := dead], exits := s.exits[s.table[p].uid := code]), p)
  }

  /** Marking the process dead and waking its parent can be swapped. */
  lemma DeathAndWakeSwap(s: Sys, code: int)
    requires Ok(s) && s.current != 0 && PcbOk(s.table[s.current]) && s.table[s.current].pc == User
    requires forall p | 0 <= p < MAX_PROCS :: PcbOk(s.table[p])
    ensures var p := s.current;
      var dead := s.table[p].(exitCode := code, state := Zombie);
      var s1 := s.(table := s.table[p := dead], exits := s.exits[s.table[p].uid := code]);
      Dequeue(WakeParent(s1, p), p) == Buried(s, code)
  {
    var p, parent := s.current, ParentToWake(s, s.current);
    if parent != 0 {
      assert PcbOk(s.table[parent]);
      var dead := s.table[p].(exitCode := code, state := Zombie);
      var awake := s.table[parent].(wakeup := 0, state := Ready);
      assert s.table[p := dead][parent := awake] == s.table[parent := awake][p := dead];
    }
  }

  lemma ExitUnfolds(s: Sys, code: int)
    requires Inv(s) && s.enabled && s.table[s.current].pc == User
    ensures TableOk(s) && PriosOk(s.table)
    ensures TableOk(Buried(s, code)) && PriosOk(Buried(s, code).table)
    ensures Exit(s, code) == Yield(Buried(s, code))
  {
    BaseIsOk(s);
    assert PcbOk(s.table[s.current]);
    DeathAndWakeSwap(s, code);
    BuriedIsOk(s, code);
  }

  lemma BuriedIsOk(s: Sys, code: int)
    requires Ok(s)
    ensures TableOk(Buried(s, code)) && PriosOk(Buried(s, code).table)
  {
    SwapRemoveSubset(WakeParent(s, s.current).queue, s.current);
  }

  /** The parent is woken before its child can be missed. */
  lemma BuriedKeeps(s: Sys, code: int)
    requires Inv(s) && s.enabled && MayCall(s) && s.table[s.current].pc == User
    ensures TableOk(s)
    ensures Base(Buried(s, code)) && Ok(Buried(s, code))
    ensures OtherReady(Buried(s, code)) <==> OtherReady(WakeParent(s, s.current))
  {
    BaseIsOk(s);
    var p, parent := s.current, ParentToWake(s, s.current);
    var dead := s.table[p].(exitCode := code, state := Zombie);
    var woken := WakeParent(s, p);
    assert PcbOk(s.table[p]);
    if parent != 0 {
      assert PcbOk(s.table[parent]);
      WakeKeeps(s, parent);
    }
    var table := woken.table[p := dead];
    forall a, c | 0 <= a < |table| && 0 <= c < |table| && (a == p || c == p)
      ensures !Missed(table, a, c)
    {
      assert PcbOk(s.table[a]);
    }
    BuriedBase(s, woken, dead, code);
  }

  lemma BuriedBase(s: Sys, woken: Sys, dead: Pcb, code: int)
    requires Base(woken) && woken.enabled && MayCall(woken) && woken.table[woken.current].state != Unused
    requires PcbOk(dead) && dead.state == Zombie && woken.current == s.current < |s.table|
    requires var table := woken.table[woken.current := dead];
      forall p, c | 0 <= p < |table| && 0 <= c < |table| && (p == s.current || c == s.current) :: !Missed(table, p, c)
    ensures var exits := s.exits[s.table[s.current].uid := code];
      var s1 := Dequeue(woken.(table := woken.table[s.current := dead], exits := exits), s.current);
      Base(s1) && Ok(s1) && (OtherReady(s1) <==> OtherReady(woken))
  {
    var w := woken.(exits := s.exits[s.table[s.current].uid := code]);
    LeaveKeepsBase(w, dead);
    BaseIsOk(w);
    LeaveKeepsReady(w, dead);
    BaseIsOk(Dequeue(w.(table := w.table[w.current := dead]), w.current));
  }

  /** An exit leads to a state where the current process runs if and only if another one is ready, the parent
      just woken included. */
  lemma ExitKeeps(s: Sys, code: int)
    requires Inv(s) && s.enabled && MayCall(s) && s.table[s.current].pc == User
    ensures TableOk(s) && PriosOk(s.table)
    ensures Inv(Exit(s, code)) <==> OtherReady(WakeParent(s, s.current))
  {
    ExitUnfolds(s, code);
    BuriedKeeps(s, code);
    if OtherReady(Buried(s, code)) {
      YieldKeeps(Buried(s, code));
    } else {
      BuriedIsDead(s, code);
      YieldStrands(Buried(s, code));
    }
  }

  lemma BuriedIsDead(s: Sys, code: int)
    requires TableOk(s) && s.current != 0
    ensures var s1 := Buried(s, code);
      s1.current == s.current && s1.enabled == s.enabled && s1.table[s.current].state == Zombie
  {
  }

  /** No child is there to be collected. */
  predicate NoChild(s: Sys, target: int)
    requires 0 <= s.current < |s.table|
  {
    FirstZombie(s.table, s.current, target, 0) == |s.table|
  }

  lemma WaitKeeps(s: Sys, target: int)
    requires Inv(s) && s.enabled && MayCall(s) && s.table[s.current].pc == User
    ensures TableOk(s) && PriosOk(s.table)
    ensures Inv(WaitTurn(s, target)) <==> !NoChild(s, target) || OtherReady(s)
  {
    BaseIsOk(s);
    var self := s.current;
    var z := FirstZombie(s.table, self, target, 0);
    if z < |s.table| {
      CollectedKeeps(s, z);
      SwitchKeeps(Collected(s, z));
    } else {
      BlockKeeps(s, Waiting(s.table[self], target));
    }
  }

  lemma EmptiedTable(table: seq<Pcb>, z: int)
    requires TableInv(table) && 0 <= z < MAX_PROCS
    ensures TableInv(table[z := EMPTY])
  {
    var table' := table[z := EMPTY];
    assert forall a, c | 0 <= a < |table| && 0 <= c < |table| :: Missed(table', a, c) ==> Missed(table, a, c);
  }

  lemma CollectedKeeps(s: Sys, z: int)
    requires Base(s) && 0 <= z < MAX_PROCS && s.table[z].state == Zombie
    ensures TableOk(s)
    ensures Base(Collected(s, z)) && Ok(Collected(s, z))
    ensures Collected(s, z).table == s.table[z := EMPTY] && z !in Collected(s, z).pids
  {
    StayKeepsQueue(s.table, s.queue, z, EMPTY);
    EmptiedTable(s.table, z);
    BaseIsOk(s);
  }

  // ---------------------------------------------------------------------------------------------
  // PIDs and creation

  /** The hint is a pure speed-up: the search yields the lowest clear PID, and fails only when
      every PID is taken. */
  lemma SearchIsLowest(s: Sys)
    requires Base(s)
    ensures var r := PidSearch(s.pids, s.hint);
      if r == PID_INVALID then forall p | 0 < p < MAX_PROCS :: p in s.pids
      else 0 < r < MAX_PROCS && r !in s.pids && forall p | 0 < p < r :: p in s.pids
  {
  }

  /** A PID whose bit is clear has a free slot, so `proc_create` never finds the slot in use. */
  lemma CreatedSlotIsFree(s: Sys)
    requires Base(s) && PidSearch(s.pids, s.hint) != PID_INVALID
    ensures 0 < PidSearch(s.pids, s.hint) < MAX_PROCS && s.table[PidSearch(s.pids, s.hint)].state == Unused
  {
  }

  function Newborn(prio: nat, ppid: int, uid: nat, puid: nat): Pcb {
    NewPcb(prio, uid).(ppid := ppid, puid := puid, state := Ready)
  }

  /** The state after process `pid` has been created and launched. */
  function Born(s: Sys, pid: int, prio: nat, ppid: int): Sys
    requires 0 <= pid < |s.table| && 0 <= ppid < |s.table|
  {
    PidTaken(s, pid).(table := s.table[pid := Newborn(prio, ppid, s.nextUid, s.table[ppid].uid)],
                      queue := s.queue + [pid], nextUid := s.nextUid + 1)
  }

  lemma BirthKeeps(s: Sys, pid: int, prio: nat, ppid: int)
    requires Base(s) && 0 < pid < MAX_PROCS && pid !in s.pids && forall p | 0 < p < pid :: p in s.pids
    requires 0 <= ppid < MAX_PROCS
    ensures Base(Born(s, pid, prio, ppid))
  {
    var pcb := Newborn(prio, ppid, s.nextUid, s.table[ppid].uid);
    JoinKeepsQueue(s.table, s.queue, pid, pcb);
    var table := s.table[pid := pcb];
    assert forall a, c | 0 <= a < |table| && 0 <= c < |table| :: Missed(table, a, c) ==> Missed(s.table, a, c);
  }

  lemma LaunchIs(s: Sys, pid: int, prio: nat, ppid: int)
    requires TableOk(s) && 0 < pid < MAX_PROCS && s.table[pid].state == Unused && |s.queue| < MAX_PROCS
    requires 0 <= ppid < MAX_PROCS && ppid != pid
    ensures var s1 := PidTaken(s, pid).(table := s.table[pid := NewPcb(prio, s.nextUid)], nextUid := s.nextUid + 1);
      Launch(s1, pid, ppid) == Born(s, pid, prio, ppid)
  {
    var pcb := Newborn(prio, ppid, s.nextUid, s.table[ppid].uid);
    assert s.table[pid := NewPcb(prio, s.nextUid)][pid := pcb] == s.table[pid := pcb];
  }

  /** A new process enters the table and the queue, or nothing changes but the hint. */
  lemma CreateKeeps(s: Sys, prio: nat, memory: bool, ppid: int)
    requires Base(s) && 0 <= ppid < MAX_PROCS && (ppid == 0 || s.table[ppid].state != Unused)
    ensures TableOk(s)
    ensures var (s1, pid) := Create(s, prio, memory);
      if pid == 0 then Base(s1) && s1 == s.(hint := s1.hint)
      else
        && 0 < pid < MAX_PROCS && pid < |s1.table| && ppid < |s1.table| && s.table[pid].state == Unused
        && Launch(s1, pid, ppid) == Born(s, pid, prio, ppid) && Base(Born(s, pid, prio, ppid))
  {
    BaseIsOk(s);
    CreateIs(s, prio, memory);
    var pid := PidSearch(s.pids, s.hint);
    if pid != PID_INVALID && memory {
      QueueNeverFull(s);
      BirthKeeps(s, pid, prio, ppid);
      LaunchIs(s, pid, prio, ppid);
    } else if pid != PID_INVALID {
      GivenBackKeeps(s, pid);
    }
  }

  lemma CreateIs(s: Sys, prio: nat, memory: bool)
    requires Base(s)
    ensures TableOk(s)
    ensures var pid := PidSearch(s.pids, s.hint);
      && (pid != PID_INVALID ==>
            && 0 < pid < MAX_PROCS && s.table[pid].state == Unused && pid !in s.pids
            && forall p | 0 < p < pid :: p in s.pids)
      && Create(s, prio, memory) ==
         if pid == PID_INVALID then (s, 0)
         else if !memory then (PidFree(PidTaken(s, pid), pid), 0)
         else (PidTaken(s, pid).(table := s.table[pid := NewPcb(prio, s.nextUid)], nextUid := s.nextUid + 1), pid)
  {
    BaseIsOk(s);
    SearchIsLowest(s);
  }

  lemma GivenBackKeeps(s: Sys, pid: int)
    requires Base(s) && 0 < pid < MAX_PROCS && pid !in s.pids && forall p | 0 < p < pid :: p in s.pids
    ensures var s1 := PidFree(PidTaken(s, pid), pid);
      Base(s1) && s1 == s.(hint := s1.hint)
  {
    assert s.pids + {pid} - {pid} == s.pids;
  }

  lemma ForkKeeps(s: Sys, memory: bool)
    requires Inv(s) && s.enabled
    ensures TableOk(s) && PriosOk(s.table) && 1 <= s.hint <= MAX_PROCS
    ensures Inv(Fork(s, memory))
  {
    BaseIsOk(s);
    assert PcbOk(s.table[s.current]);
    CreateKeeps(s, s.table[s.current].prio, memory, s.current);
    var (s1, pid) := Create(s, s.table[s.current].prio, memory);
    SwitchKeeps(if pid == 0 then s1 else Launch(s1, pid, s.current));
  }

  /** A child of this parent, as it is when it has not run yet. */
  predicate IsChild(c: Pcb, parent: Pcb, ppid: int, uid: nat) {
    && c.prio == parent.prio && c.slice == c.sliceLen == parent.sliceLen && Runnable(c) && c.pc == User
    && c.ppid == ppid && c.puid == parent.uid && c.uid == uid
    && c.exitCode == 0 && c.wakeup == 0 && !c.waiting
  }

  /** A switch changes slices and hands over the CPU, and nothing else. */
  lemma SwitchSameBut(s: Sys)
    requires Base(s) && Ok(s)
    ensures var s' := Switch(s);
      && s' == s.(table := s'.table, current := s'.current, tickFlag := s'.tickFlag) && |s'.table| == |s.table|
      && forall q | 0 <= q < |s.table| :: SameBut(s.table[q], s'.table[q])
  {
    forall q | 0 <= q < |s.table|
      ensures PcbOk(s.table[q])
    {
    }
  }

  /** With memory and a PID to be had, fork makes a child with the lowest free PID: of the same priority, with a
      full slice, at the end of the queue. Everybody else changes at most in what the switch at the end does.
      Otherwise there is no child. */
  lemma ForkMakesChild(s: Sys, memory: bool) returns (pid: int)
    requires Inv(s) && Ok(s) && s.enabled
    ensures var s' := Fork(s, memory);
      && |s'.table| == MAX_PROCS
      && (forall q | 0 <= q < MAX_PROCS && q != pid :: SameBut(s.table[q], s'.table[q]))
      && if memory && exists p :: 0 < p < MAX_PROCS && p !in s.pids then
           && 0 < pid < MAX_PROCS && pid !in s.pids && (forall p | 0 < p < pid :: p in s.pids)
           && s'.pids == s.pids + {pid} && s'.queue == s.queue + [pid] && s'.nextUid == s.nextUid + 1
           && IsChild(s'.table[pid], s.table[s.current], s.current, s.nextUid)
         else
           pid == 0 && s'.pids == s.pids && s'.queue == s.queue && s'.nextUid == s.nextUid
  {
    assert PcbOk(s.table[s.current]);
    var prio := s.table[s.current].prio;
    CreateIs(s, prio, memory);
    SearchIsLowest(s);
    pid := Create(s, prio, memory).1;
    if pid != 0 {
      BornIsForked(s, memory, pid);
    } else {
      CreateKeeps(s, prio, memory, s.current);
      BaseIsOk(Create(s, prio, memory).0);
      SwitchSameBut(Create(s, prio, memory).0);
    }
  }

  lemma BornIsForked(s: Sys, memory: bool, pid: int)
    requires Inv(s) && Ok(s) && s.enabled && Create(s, s.table[s.current].prio, memory).1 == pid != 0
    ensures var s' := Fork(s, memory);
      && |s'.table| == MAX_PROCS && 0 < pid < MAX_PROCS
      && (forall q | 0 <= q < MAX_PROCS && q != pid :: SameBut(s.table[q], s'.table[q]))
      && s'.pids == s.pids + {pid} && s'.queue == s.queue + [pid] && s'.nextUid == s.nextUid + 1
      && IsChild(s'.table[pid], s.table[s.current], s.current, s.nextUid)
  {
    assert PcbOk(s.table[s.current]);
    var prio := s.table[s.current].prio;
    CreateIs(s, prio, memory);
    CreateKeeps(s, prio, memory, s.current);
    var s2 := Born(s, pid, prio, s.current);
    BaseIsOk(s2);
    SwitchSameBut(s2);
    SwitchKeepsFull(s2, pid);
  }

  lemma SwitchKeepsFull(s: Sys, p: int)
    requires Ok(s) && 0 <= p < MAX_PROCS && p != s.current && s.table[p].slice == s.table[p].sliceLen
    ensures Switch(s).table[p].slice == s.table[p].slice
  {
  }

  // ---------------------------------------------------------------------------------------------
  // Exec, resume, ticks and boot

  lemma RejoinKeepsQueue(table: seq<Pcb>, queue: seq<int>, p: int, pcb: Pcb)
    requires QueueOk(table, queue) && 0 < p < |table| && Runnable(pcb)
    ensures QueueOk(table[p := pcb], SwapRemove(queue, p) + [p])
    ensures |SwapRemove(queue, p)| <= |queue|
  {
    SwapRemoveRemoves(queue, p);
  }

  /** The state in which `proc_exec` has re-queued its target. */
  function Restarted(s: Sys, p: int): Sys
    requires TableOk(s) && 0 < p < MAX_PROCS
  {
    Enqueue(Dequeue(s, p).(table := s.table[p := StartOver(s.table[p])], restarted := s.restarted || p == IDLE), p)
  }

  lemma ExecutedBase(s: Sys, p: int)
    requires Base(s) && 0 < p < MAX_PROCS && s.table[p].state != Unused && s.table[p].state != Running
    requires s.enabled
    ensures TableOk(s) && PriosOk(s.table)
    ensures Base(Restarted(s, p)) && Ok(Restarted(s, p))
    ensures Exec(s, p) == Switch(Restarted(s, p))
    ensures Restarted(s, p)
            == s.(table := s.table[p := StartOver(s.table[p])], queue := SwapRemove(s.queue, p) + [p],
                  restarted := s.restarted || p == IDLE)
  {
    BaseIsOk(s);
    var pcb := StartOver(s.table[p]);
    assert PcbOk(s.table[p]);
    RejoinKeepsQueue(s.table, s.queue, p, pcb);
    QueueNeverFull(s);
    var table := s.table[p := pcb];
    assert forall a, c | 0 <= a < |table| && 0 <= c < |table| :: Missed(table, a, c) ==> Missed(s.table, a, c);
  }

  lemma ExecKeeps(s: Sys, p: int)
    requires Inv(s) && s.enabled && 0 < p < MAX_PROCS
    ensures TableOk(s) && PriosOk(s.table)
    ensures Inv(Exec(s, p))
  {
    BaseIsOk(s);
    if s.table[p].state == Unused || s.table[p].state == Running {
      SwitchKeeps(s);
    } else {
      ExecutedBase(s, p);
      SwitchKeeps(Restarted(s, p));
    }
  }

  /** Exec makes its target start over: out of any wait or sleep, with a full slice, at the end of the queue. Its
      identity, priority and parent stay, and everybody else changes at most in what the switch at the end does. An
      unused slot and a RUNNING process are left alone. */
  lemma ExecRestarts(s: Sys, p: int)
    requires Inv(s) && Ok(s) && s.enabled && 0 < p < MAX_PROCS
    ensures var s' := Exec(s, p);
      && |s'.table| == MAX_PROCS && s'.pids == s.pids && s'.nextUid == s.nextUid
      && (forall q | 0 <= q < MAX_PROCS && q != p :: SameBut(s.table[q], s'.table[q]))
      && var b, a := s.table[p], s'.table[p];
         if b.state == Unused || b.state == Running then SameBut(b, a) && s'.queue == s.queue
         else
           && Runnable(a) && a.pc == User && !a.waiting && a.wakeup == 0 && a.slice == a.sliceLen
           && a == b.(state := a.state, pc := User, waiting := false, wakeup := 0, slice := a.slice)
           && s'.queue == SwapRemove(s.queue, p) + [p]
  {
    if s.table[p].state == Unused || s.table[p].state == Running {
      SwitchSameBut(s);
    } else {
      ExecutedBase(s, p);
      SwitchSameBut(Restarted(s, p));
      SwitchKeepsFull(Restarted(s, p), p);
    }
  }

  /** Back from a yield, a process is in its own code again. */
  lemma ResumedInv(s: Sys)
    requires Inv(s) && s.enabled
    ensures Inv(s.(table := s.table[s.current := s.table[s.current].(waiting := false, pc := User)]))
  {
    var pcb := s.table[s.current].(waiting := false, pc := User);
    var table := s.table[s.current := pcb];
    StayKeepsQueue(s.table, s.queue, s.current, pcb);
    assert forall a, c | 0 <= a < |table| && 0 <= c < |table| :: Missed(table, a, c) ==> Missed(s.table, a, c);
  }

  lemma ResumeKeeps(s: Sys)
    requires Inv(s) && s.enabled && s.table[s.current].pc != User
    ensures TableOk(s) && PriosOk(s.table)
    ensures Inv(ResumeStep(s))
            <==> !(s.table[s.current].pc.InWait? && NoChild(s, s.table[s.current].pc.target)) || OtherReady(s)
  {
    BaseIsOk(s);
    var me := s.table[s.current];
    var pcb := me.(waiting := false, pc := User);
    var s1 := s.(table := s.table[s.current := pcb]);
    ResumedInv(s);
    assert PcbOk(me);
    match me.pc
    case User =>
    case InWait(target) =>
      SameReady(s, s1);
      SameChildren(s, s1, target);
      WaitKeeps(s1, target);
    case InSleep => SwitchKeeps(s1);
    case InIo =>
  }

  /** Whether a child is there does not hang on the block of the waiting process. */
  lemma SameChildren(s: Sys, s': Sys, target: int)
    requires Base(s) && s'.current == s.current && s.table[s.current].state != Zombie
    requires s' == s.(table := s'.table) && |s'.table| == MAX_PROCS
    requires s'.table == s.table[s.current := s'.table[s.current]] && s'.table[s.current].state != Zombie
    ensures NoChild(s', target) <==> NoChild(s, target)
  {
    forall c | 0 <= c < MAX_PROCS
      ensures Collectable(s'.table, s.current, target, c) <==> Collectable(s.table, s.current, target, c)
    {
    }
  }

  lemma {:induction false} WakeDueKeeps(s: Sys, from: int)
    requires Base(s) && 0 <= from <= MAX_PROCS
    ensures TableOk(s)
    ensures Base(WakeDue(s, from))
    decreases MAX_PROCS - from
  {
    BaseIsOk(s);
    if from == MAX_PROCS {
    } else {
      if Due(s.table[from], s.ticks) {
        WakeKeeps(s, from);
        WakeDueKeeps(Wake(s, from), from + 1);
      } else {
        WakeDueKeeps(s, from + 1);
      }
    }
  }

  /** The processes whose wake-up tick has come, in the order of their PIDs. */
  function DueFrom(table: seq<Pcb>, now: int, from: int): seq<int>
    requires 0 <= from <= |table|
    decreases |table| - from
  {
    if from == |table| then []
    else (if Due(table[from], now) then [from] else []) + DueFrom(table, now, from + 1)
  }

  lemma {:induction false} SameDue(a: seq<Pcb>, b: seq<Pcb>, now: int, from: int)
    requires 0 <= from <= |a| == |b| && forall q | from <= q < |a| :: a[q] == b[q]
    ensures DueFrom(a, now, from) == DueFrom(b, now, from)
    decreases |a| - from
  {
    if from == |a| {
    } else {
      SameDue(a, b, now, from + 1);
    }
  }

  /** They join the ready queue in that order. */
  lemma {:induction false} WakeDueQueues(s: Sys, from: int)
    requires Base(s) && 0 <= from <= MAX_PROCS
    ensures TableOk(s)
    ensures WakeDue(s, from).queue == s.queue + DueFrom(s.table, s.ticks, from)
    decreases MAX_PROCS - from
  {
    BaseIsOk(s);
    if from == MAX_PROCS {
      assert s.queue + [] == s.queue;
    } else if Due(s.table[from], s.ticks) {
      WakeQueues(s, from);
      WakeDueQueues(Wake(s, from), from + 1);
      JoinBehind(s.queue, from, DueFrom(s.table, s.ticks, from + 1));
    } else {
      WakeDueQueues(s, from + 1);
      assert [] + DueFrom(s.table, s.ticks, from + 1) == DueFrom(s.table, s.ticks, from + 1);
    }
  }

  lemma JoinBehind(queue: seq<int>, p: int, more: seq<int>)
    ensures queue + [p] + more == queue + ([p] + more)
  {
  }

  lemma WakeQueues(s: Sys, from: int)
    requires Base(s) && 0 <= from < MAX_PROCS && Due(s.table[from], s.ticks)
    ensures var s' := Wake(s, from);
      && Base(s') && s'.ticks == s.ticks && s'.queue == s.queue + [from]
      && DueFrom(s'.table, s.ticks, from + 1) == DueFrom(s.table, s.ticks, from + 1)
  {
    QueueNeverFull(s);
    WakeKeeps(s, from);
    SameDue(s.table, Wake(s, from).table, s.ticks, from + 1);
  }

  /** A tick appends the sleepers that are due to the queue, in the order of their PIDs. */
  lemma TickQueues(s: Sys)
    requires Inv(s) && Ok(s)
    ensures Tick(s).queue == s.queue + DueFrom(s.table, (s.ticks + 1) % TICK_RANGE, 0)
  {
    RungKeeps(s);
    WakeDueQueues(s.(ticks := (s.ticks + 1) % TICK_RANGE, tickFlag := true), 0);
  }

  /** The state in which the timer interrupt makes its choice. */
  function Rung(s: Sys): Sys
    requires TableOk(s) && s.table[0].state == Unused
  {
    WakeDue(s.(ticks := (s.ticks + 1) % TICK_RANGE, tickFlag := true), 0)
  }

  lemma RungKeeps(s: Sys)
    requires Inv(s) && Ok(s)
    ensures var r := Rung(s);
      && Base(r) && Ok(r) && Tick(s) == Switch(r)
      && r.current == s.current && r.enabled == s.enabled && r.tickFlag
      && (s.enabled ==> r.table[s.current] == s.table[s.current])
  {
    var s1 := s.(ticks := (s.ticks + 1) % TICK_RANGE, tickFlag := true);
    WakeDueKeeps(s1, 0);
    WakeDueKeepsShape(s1, 0);
    BaseIsOk(WakeDue(s1, 0));
  }

  lemma TickKeeps(s: Sys)
    requires Inv(s)
    ensures TableOk(s) && PriosOk(s.table)
    ensures Inv(Tick(s))
  {
    BaseIsOk(s);
    RungKeeps(s);
    SwitchKeeps(Rung(s));
  }

  lemma StartKeeps(s: Sys)
    requires Inv(s) && !s.enabled && IDLE in s.pids
    ensures TableOk(s) && PriosOk(s.table)
    ensures Inv(Start(s)) && Start(s).enabled
  {
    BaseIsOk(s);
    assert IDLE in s.queue && Candidate(s.table, IDLE, 0);
    var j :| 0 <= j < |s.queue| && s.queue[j] == IDLE;
    var p := s.queue[Choice(s, 0)];
    assert p in s.queue;
    SameButKeeps(s.(current := p, enabled := true), p, s.table[p].(state := Running));
  }

  lemma AsleepKeeps(s: Sys, wakeup: int)
    requires Inv(s) && s.enabled && MayCall(s) && s.table[s.current].pc == User
    ensures TableOk(s) && PriosOk(s.table)
    ensures Inv(Block(s, SleepingUntil(s.table[s.current], wakeup))) <==> OtherReady(s)
  {
    assert PcbOk(s.table[s.current]);
    BlockKeeps(s, SleepingUntil(s.table[s.current], wakeup));
  }

  lemma SleepKeeps(s: Sys, n: int)
    requires Inv(s) && s.enabled && MayCall(s) && s.table[s.current].pc == User
    ensures TableOk(s) && PriosOk(s.table)
    ensures Inv(Sleep(s, n)) <==> n == 0 || OtherReady(s)
  {
    BaseIsOk(s);
    if n == 0 {
      SwitchKeeps(s);
    } else {
      AsleepKeeps(s, WakeTick(s.ticks, n));
    }
  }

  lemma BlockIoKeeps(s: Sys, lost: int)
    requires Inv(s) && s.enabled && MayCall(s) && s.table[s.current].pc == User
    ensures TableOk(s) && PriosOk(s.table)
    ensures Inv(BlockIo(s, lost)) <==> OtherReady(s)
  {
    assert PcbOk(s.table[s.current]);
    var s1 := s.(waiters := s.waiters - multiset{lost} + multiset{s.current});
    BlockKeeps(s1, InWaiterSlot(s.table[s.current]));
    SameReady(s, s1);
  }

  lemma ExecveKeeps(s: Sys)
    requires Inv(s) && s.enabled
    ensures TableOk(s) && PriosOk(s.table)
    ensures Inv(Execve(s))
  {
    BaseIsOk(s);
    var pcb := s.table[s.current].(slice := s.table[s.current].sliceLen);
    SameButKeeps(s, s.current, pcb);
    SwitchKeeps(s.(table := s.table[s.current := pcb]));
  }

  lemma IoWakeKeeps(s: Sys, p: int, interrupt: bool)
    requires Inv(s) && 0 < p < MAX_PROCS
    ensures TableOk(s) && PriosOk(s.table)
    ensures Inv(IoWake(s, p, interrupt))
  {
    BaseIsOk(s);
    var s1 := s.(waiters := s.waiters - multiset{p});
    WakeKeeps(s1, p);
    SwitchKeeps(Wake(s1, p));
  }

  // ---------------------------------------------------------------------------------------------
  // Runs

  /** The step blocks or ends the current process. */
  predicate Blocks(s: Sys, step: Step)
    requires Ok(s) && Enabled(s, step)
  {
    match step
    case DoExit(_) => true
    case DoWait(target) => NoChild(s, target)
    case DoSleep(n) => n > 0
    case DoBlockIo(_) => true
    case DoResume => s.table[s.current].pc.InWait? && NoChild(s, s.table[s.current].pc.target)
    case _ => false
  }

  /** It does so while nobody else is READY, the parent that an exit wakes included. */
  ghost predicate Strands(s: Sys, step: Step)
    requires Ok(s) && Enabled(s, step)
  {
    Blocks(s, step) && !OtherReady(if step.DoExit? then WakeParent(s, s.current) else s)
  }

  /** The invariant, and with it "exactly the current process is RUNNING", survives a step if and only if the
      step does not strand the CPU with a process that has blocked or ended. */
  lemma StepKeepsInvIff(s: Sys, step: Step)
    requires Inv(s) && Ok(s) && Enabled(s, step)
    ensures Inv(Next(s, step)) <==> !Strands(s, step)
  {
    match step
    case DoSpawn(prio, memory) => CreateKeeps(s, prio, memory, 0);
    case DoStart => StartKeeps(s);
    case DoTick => TickKeeps(s);
    case DoIoWake(p, interrupt) => IoWakeKeeps(s, p, interrupt);
    case DoExit(code) => ExitKeeps(s, code);
    case DoWait(target) => WaitKeeps(s, target);
    case DoSleep(n) => SleepKeeps(s, n);
    case DoBlockIo(lost) => BlockIoKeeps(s, lost);
    case DoFork(memory) => ForkKeeps(s, memory);
    case DoExec(p) => ExecKeeps(s, p);
    case DoExecve => ExecveKeeps(s);
    case DoCall => SwitchKeeps(s);
    case DoResume => ResumeKeeps(s);
  }

  /** While process 1 is in the idle loop, no step strands the CPU. */
  lemma IdleNeverStrands(s: Sys, step: Step)
    requires Inv(s) && Ok(s) && Enabled(s, step) && !s.restarted
    ensures !Strands(s, step)
  {
    if Blocks(s, step) {
      IdleIsReady(s);
      if step.DoExit? {
        ParentWakesReady(s);
      }
    }
  }

  /** Step i leads from state i to state i + 1. */
  predicate Linked(states: seq<Sys>, steps: seq<Step>, i: int)
    requires 0 <= i < |steps| < |states|
  {
    Ok(states[i]) && Enabled(states[i], steps[i]) && states[i + 1] == Next(states[i], steps[i])
  }

  /** A run: states linked by enabled steps. */
  ghost predicate IsRun(states: seq<Sys>, steps: seq<Step>) {
    |states| == |steps| + 1 && forall i | 0 <= i < |steps| :: Linked(states, steps, i)
  }

  ghost predicate Unstranded(states: seq<Sys>, steps: seq<Step>, i: int)
    requires 0 <= i < |steps| < |states|
  {
    Ok(states[i]) && Enabled(states[i], steps[i]) && !Strands(states[i], steps[i])
  }

  /** A run from boot in which no step strands the CPU. */
  ghost predicate SafeRun(states: seq<Sys>, steps: seq<Step>) {
    IsRun(states, steps) && states[0] == Boot() && forall i | 0 <= i < |steps| :: Unstranded(states, steps, i)
  }

  lemma BootInv(s: Sys)
    requires s == Boot()
    ensures Inv(s)
  {
  }

  /** Safety over whole runs: the invariant holds in every state of every run in which no step strands the
      CPU. */
  lemma {:induction false} EveryRunIsSafe(states: seq<Sys>, steps: seq<Step>, i: nat)
    requires SafeRun(states, steps) && i < |states|
    ensures Inv(states[i]) && Ok(states[i])
  {
    if i == 0 {
      BootInv(states[0]);
    } else {
      EveryRunIsSafe(states, steps, i - 1);
      SafeStep(states, steps, i);
    }
    BaseIsOk(states[i]);
  }

  lemma SafeStep(states: seq<Sys>, steps: seq<Step>, i: nat)
    requires SafeRun(states, steps) && 0 < i < |states| && Inv(states[i - 1])
    ensures Inv(states[i])
  {
    assert Linked(states, steps, i - 1) && Unstranded(states, steps, i - 1);
    StepKeepsInvIff(states[i - 1], steps[i - 1]);
  }

  /** The invariant read out: queue contents, the one RUNNING process, PIDs and slots, and the two
      error branches that are never reached. */
  lemma ReachableStateSound(states: seq<Sys>, steps: seq<Step>, i: nat, p: int)
    requires SafeRun(states, steps) && i < |states|
    requires 0 < p < MAX_PROCS
    ensures var s := states[i];
      && |s.table| == MAX_PROCS
      && multiset(s.queue)[p] == (if Runnable(s.table[p]) then 1 else 0)
      && (s.enabled ==> (s.table[p].state == Running <==> p == s.current))
      && (p in s.pids <==> s.table[p].state != Unused)
      && |s.queue| < MAX_PROCS
      && s.table[p].state != Embryo
      && (s.table[p].state != Unused ==> 0 <= s.table[p].slice <= s.table[p].sliceLen == TimeSlice(s.table[p].prio))
  {
    EveryRunIsSafe(states, steps, i);
    var s := states[i];
    QueueNeverFull(s);
    assert PcbOk(s.table[p]);
    DistinctCounts(s.queue, p);
  }

  lemma {:induction false} DistinctCounts(q: seq<int>, p: int)
    requires Distinct(q)
    ensures multiset(q)[p] == if p in q then 1 else 0
  {
    if q == [] {
    } else {
      var n := |q| - 1;
      DistinctCounts(q[..n], p);
      assert q == q[..n] + [q[n]];
      assert q[n] !in q[..n];
    }
  }
}
