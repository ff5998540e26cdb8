/** The process table and scheduler of `kernel/proc` as a state machine.

    The kernel runs with interrupts off from entry to return (`kernel/arch/x86/syscall.asm:30`), so
    control moves only where a routine calls `sched_yield`, or at the end of a system call or
    interrupt. One step of the machine is what happens between two such points. */
module Processes {
  import opened ReadyQueue

  const MAX_PROCS: int := 256
  const PID_INVALID: int := 0xFFFF
  const PRIO_NORMAL: int := 16
  const PRIO_IDLE: int := 31
  const TICK_RANGE: int := 0x1_0000_0000

  /** The first process created at boot: the idle loop, which makes no system call of its own. */
  const IDLE: int := 1

  datatype State = Unused | Embryo | Ready | Running | Blocked | Zombie

  /** Where a process goes on when it next gets the CPU: in its own code, or inside a system call
      behind the `sched_yield` of `proc_wait`, `proc_sleep` or a device or pipe wait. */
  datatype Resume = User | InWait(target: int) | InSleep | InIo

  /** A process control block. `pc`, `uid` and `puid` are not in the source: `pc` stands for the saved
      kernel stack, `uid` tells apart processes that use the same PID one after the other, and `puid` is
      the `uid` of the process that forked this one. */
  datatype Pcb = Pcb(
    state: State, ppid: int, exitCode: int,
    prio: int, sliceLen: int, slice: int,
    wakeup: int, waitFor: int, waiting: bool,
    pc: Resume, uid: nat, puid: nat)

  const EMPTY := Pcb(Unused, 0, 0, 0, 0, 0, 0, 0, false, User, 0, 0)

  /** Process `collector` has collected the code of process `uid`, which `parent` had forked. */
  datatype Reap = Reap(uid: nat, code: int, parent: nat, collector: nat)

  /** `current` is 0 before the scheduler starts. `waiters` are the PIDs in the waiter slots of the pipes
      and the keyboard. `restarted` tells that exec has given process 1 other code than the idle loop.
      `exits` and `reaps` record what has happened: the code each process exited with, and every delivery
      of an exit code by `proc_wait`. */
  datatype Sys = Sys(
    table: seq<Pcb>, pids: set<int>, hint: int,
    queue: seq<int>, current: int, enabled: bool, tickFlag: bool, ticks: int, waiters: multiset<int>, restarted: bool,
    exits: map<nat, int>, reaps: seq<Reap>, nextUid: nat)

  predicate Runnable(p: Pcb) {
    p.state == Ready || p.state == Running
  }

  predicate TableOk(s: Sys) {
    |s.table| == MAX_PROCS && (forall p | p in s.queue :: 0 < p < MAX_PROCS) && 0 <= s.current < MAX_PROCS
  }

  // ---------------------------------------------------------------------------------------------
  // PIDs

  /** Lowest PID in [lo, hi) whose bit is clear, or `hi`. */
  function LowestClear(pids: set<int>, lo: int, hi: int): (r: int)
    requires lo <= hi
    ensures lo <= r <= hi
    ensures forall p | lo <= p < r :: p in pids
    ensures r < hi ==> r !in pids
    decreases hi - lo
  {
    if lo == hi || lo !in pids then lo else LowestClear(pids, lo + 1, hi)
  }

  /** The two-pass search of `pid_alloc`. */
  function PidSearch(pids: set<int>, hint: int): (r: int)
    requires 1 <= hint <= MAX_PROCS
  {
    var first := LowestClear(pids, hint, MAX_PROCS);
    if first < MAX_PROCS then first
    else
      var second := LowestClear(pids, 1, hint);
      if second < hint then second else PID_INVALID
  }

  function PidTaken(s: Sys, pid: int): Sys {
    s.(pids := s.pids + {pid}, hint := if pid + 1 < MAX_PROCS then pid + 1 else 1)
  }

  function PidFree(s: Sys, pid: int): Sys {
    if pid == 0 || pid == PID_INVALID || pid !in s.pids then s
    else s.(pids := s.pids - {pid}, hint := if pid < s.hint then pid else s.hint)
  }

  // ---------------------------------------------------------------------------------------------
  // Queue and switch

  function Enqueue(s: Sys, p: int): Sys
    requires 0 <= p < |s.table|
  {
    if s.table[p].state != Ready || |s.queue| >= MAX_PROCS then s else s.(queue := s.queue + [p])
  }

  function Dequeue(s: Sys, p: int): Sys {
    s.(queue := SwapRemove(s.queue, p))
  }

  /** `proc_wake`: only a BLOCKED process is woken. */
  function Wake(s: Sys, p: int): Sys
    requires 0 <= p < |s.table|
  {
    if s.table[p].state != Blocked then s
    else Enqueue(s.(table := s.table[p := s.table[p].(wakeup := 0, state := Ready)]), p)
  }

  predicate Candidate(table: seq<Pcb>, p: int, skip: int) {
    0 <= p < |table| && p != skip && table[p].state == Ready
  }

  /** The scheduler's scan of the first n queue entries: -1, or the index of the READY entry that comes
      first in (priority, index) order. */
  function Best(table: seq<Pcb>, queue: seq<int>, skip: int, n: nat): (r: int)
    requires n <= |queue|
    requires forall p | 0 <= p < |table| :: table[p].prio <= PRIO_IDLE
    ensures -1 <= r < n
    ensures r == -1 ==> forall j | 0 <= j < n :: !Candidate(table, queue[j], skip)
    ensures r >= 0 ==> Candidate(table, queue[r], skip)
    ensures r >= 0 ==> forall j | 0 <= j < n && Candidate(table, queue[j], skip) ::
      table[queue[r]].prio < table[queue[j]].prio || (table[queue[r]].prio == table[queue[j]].prio && r <= j)
  {
    if n == 0 then -1
    else
      var r, p := Best(table, queue, skip, n - 1), queue[n - 1];
      if Candidate(table, p, skip) && (r == -1 || table[p].prio < table[queue[r]].prio) then n - 1 else r
  }

  predicate PriosOk(table: seq<Pcb>) {
    forall p | 0 <= p < |table| :: table[p].prio <= PRIO_IDLE
  }

  function Choice(s: Sys, skip: int): int
    requires PriosOk(s.table)
  {
    Best(s.table, s.queue, skip, |s.queue|)
  }

  /** Hands the CPU to process `next`. */
  function Activate(s: Sys, next: int): Sys
    requires 0 <= next < |s.table|
  {
    s.(current := next, table := s.table[next := s.table[next].(state := Running, slice := s.table[next].sliceLen)])
  }

  /** `sched_switch_esp`, run at the end of every system call and interrupt. */
  function Switch(s: Sys): Sys
    requires TableOk(s) && PriosOk(s.table)
  {
    if !s.enabled || !s.tickFlag then s
    else
      var s1 := s.(tickFlag := false);
      if s1.current == 0 then s1
      else
        var c := s1.current;
        var left := if s1.table[c].slice > 0 then s1.table[c].slice - 1 else 0;
        var s2 := s1.(table := s1.table[c := s1.table[c].(slice := left)]);
        if left > 0 then s2
        else
          var b := Choice(s2, c);
          if b < 0 then s2.(table := s2.table[c := s2.table[c].(slice := s2.table[c].sliceLen)])
          else
            var state := if s2.table[c].state == Running then Ready else s2.table[c].state;
            Activate(s2.(table := s2.table[c := s2.table[c].(state := state)]), s2.queue[b])
  }

  /** `sched_yield`: force the slice to its end, then switch. */
  function Yield(s: Sys): Sys
    requires TableOk(s) && PriosOk(s.table)
  {
    var s1 := s.(tickFlag := true);
    Switch(if s.current == 0 then s1
           else s1.(table := s1.table[s.current := s1.table[s.current].(slice := 0)]))
  }

  /** Takes the current process off the queue in its new, non-runnable form, and yields. */
  function Block(s: Sys, p: Pcb): Sys
    requires TableOk(s) && PriosOk(s.table) && p.prio <= PRIO_IDLE
  {
    SwapRemoveSubset(s.queue, s.current);
    Yield(Dequeue(s.(table := s.table[s.current := p]), s.current))
  }

  lemma SwapRemoveSubset(q: seq<int>, p: int)
    ensures forall x | x in SwapRemove(q, p) :: x in q
  {
  }

  // ---------------------------------------------------------------------------------------------
  // Creation and destruction

  function TimeSlice(prio: int): int {
    var t := if prio < PRIO_NORMAL then 10 + (PRIO_NORMAL - prio) / 2
             else if prio > PRIO_NORMAL then 10 - (prio - PRIO_NORMAL) / 5
             else 10;
    if t < 2 then 2 else t
  }

  function NewPcb(prio: int, uid: nat): Pcb {
    var pr := if prio > PRIO_IDLE then PRIO_IDLE else prio;
    Pcb(Embryo, 0, 0, pr, TimeSlice(pr), TimeSlice(pr), 0, PID_INVALID, false, User, uid, 0)
  }

  /** `proc_create`: the new PID, or 0. `memory` tells whether a kernel stack can be allocated. */
  function Create(s: Sys, prio: int, memory: bool): (Sys, int)
    requires TableOk(s) && 1 <= s.hint <= MAX_PROCS
  {
    var pid := PidSearch(s.pids, s.hint);
    if pid == PID_INVALID then (s, 0)
    else
      var s1 := PidTaken(s, pid);
      if s1.table[pid].state != Unused || !memory then (PidFree(s1, pid), 0)
      else (s1.(table := s1.table[pid := NewPcb(prio, s1.nextUid)], nextUid := s1.nextUid + 1), pid)
  }

  /** `proc_set_ready` and `sched_add` for a new process with the given parent. */
  function Launch(s: Sys, pid: int, ppid: int): Sys
    requires 0 <= pid < |s.table| && 0 <= ppid < |s.table|
  {
    Enqueue(s.(table := s.table[pid := s.table[pid].(ppid := ppid, puid := s.table[ppid].uid, state := Ready)]), pid)
  }

  /** `proc_destroy` of a ZOMBIE: its PID and slot are free again. */
  function Destroy(s: Sys, p: int): Sys
    requires 0 <= p < |s.table|
  {
    var s1 := PidFree(s, p);
    s1.(table := s1.table[p := EMPTY])
  }

  // ---------------------------------------------------------------------------------------------
  // System calls

  predicate Matches(target: int, pid: int) {
    target == PID_INVALID || target == pid
  }

  /** Is `c` a dead child of `parent` that a wait for `target` may collect? */
  predicate Collectable(table: seq<Pcb>, parent: int, target: int, c: int)
    requires 0 <= c < |table|
  {
    table[c].ppid == parent && Matches(target, c) && table[c].state == Zombie
  }

  /** Lowest such child at or above `from`, or |table|. */
  function FirstZombie(table: seq<Pcb>, parent: int, target: int, from: int): (r: int)
    requires 0 <= from <= |table|
    ensures from <= r <= |table|
    ensures r < |table| ==> Collectable(table, parent, target, r)
    ensures forall c | from <= c < r :: !Collectable(table, parent, target, c)
    decreases |table| - from
  {
    if from == |table| || Collectable(table, parent, target, from) then from
    else FirstZombie(table, parent, target, from + 1)
  }

  /** The parent that the exit of process p wakes, or 0. */
  function ParentToWake(s: Sys, p: int): (r: int)
    requires TableOk(s) && 0 <= p < MAX_PROCS
    ensures 0 <= r < MAX_PROCS
  {
    var ppid := s.table[p].ppid;
    if ppid <= 0 || ppid >= MAX_PROCS then 0
    else
      var parent := s.table[ppid];
      if parent.state != Unused && parent.waiting && Matches(parent.waitFor, p) then ppid else 0
  }

  function WakeParent(s: Sys, p: int): (r: Sys)
    requires TableOk(s) && 0 <= p < MAX_PROCS
    ensures |r.table| == |s.table|
  {
    var parent := ParentToWake(s, p);
    if parent == 0 then s else Wake(s, parent)
  }

  function Exit(s: Sys, code: int): Sys
    requires TableOk(s) && PriosOk(s.table)
  {
    var p := s.current;
    var s1 := s.(table := s.table[p := s.table[p].(exitCode := code, state := Zombie)],
                 exits := s.exits[s.table[p].uid := code]);
    var s2 := WakeParent(s1, p);
    SwapRemoveSubset(s2.queue, p);
    Yield(Dequeue(s2, p))
  }

  /** One turn of the loop in `proc_wait`: collect a child, or go to sleep. */
  function WaitTurn(s: Sys, target: int): Sys
    requires TableOk(s) && PriosOk(s.table)
  {
    var self := s.current;
    var z := FirstZombie(s.table, self, target, 0);
    if z < |s.table| then
      Switch(Collected(s, z))
    else
      Block(s, Waiting(s.table[self], target))
  }

  /** The current process collects dead child z. */
  function Collected(s: Sys, z: int): Sys
    requires TableOk(s) && 0 <= z < |s.table|
  {
    var child := s.table[z];
    Destroy(s.(reaps := s.reaps + [Reap(child.uid, child.exitCode, child.puid, s.table[s.current].uid)]), z)
  }

  function Waiting(p: Pcb, target: int): Pcb {
    p.(waitFor := target, waiting := true, wakeup := 0, state := Blocked, pc := InWait(target))
  }

  /** The tick at which a sleep of n ticks ends, in 32-bit arithmetic. */
  function WakeTick(now: int, n: int): int {
    (now + n) % TICK_RANGE
  }

  function Sleep(s: Sys, n: int): Sys
    requires TableOk(s) && PriosOk(s.table)
  {
    if n == 0 then Switch(s)
    else Block(s, SleepingUntil(s.table[s.current], WakeTick(s.ticks, n)))
  }

  function SleepingUntil(p: Pcb, tick: int): Pcb {
    p.(wakeup := tick, state := Blocked, pc := InSleep)
  }

  /** A wait for a pipe or a key: the process goes into a waiter slot, in the place of `lost` if that
      process was in the slot. */
  function BlockIo(s: Sys, lost: int): Sys
    requires TableOk(s) && PriosOk(s.table)
  {
    Block(s.(waiters := s.waiters - multiset{lost} + multiset{s.current}), InWaiterSlot(s.table[s.current]))
  }

  function InWaiterSlot(p: Pcb): Pcb {
    p.(state := Blocked, pc := InIo)
  }

  function Fork(s: Sys, memory: bool): Sys
    requires TableOk(s) && PriosOk(s.table) && 1 <= s.hint <= MAX_PROCS
  {
    var (s1, pid) := Create(s, s.table[s.current].prio, memory);
    Switch(if pid == 0 then s1 else Launch(s1, pid, s.current))
  }

  /** `proc_exec` on another process: it starts over from its new entry point. */
  function Exec(s: Sys, p: int): Sys
    requires TableOk(s) && PriosOk(s.table) && 0 < p < MAX_PROCS
  {
    if s.table[p].state == Unused || s.table[p].state == Running then Switch(s)
    else
      var s1 := Dequeue(s, p);
      SwapRemoveSubset(s.queue, p);
      Switch(Enqueue(s1.(table := s1.table[p := StartOver(s1.table[p])], restarted := s.restarted || p == IDLE), p))
  }

  function StartOver(p: Pcb): Pcb {
    p.(slice := p.sliceLen, wakeup := 0, waiting := false, state := Ready, pc := User)
  }

  /** `sys_execve` on the calling process gives it a full slice again. */
  function Execve(s: Sys): Sys
    requires TableOk(s) && PriosOk(s.table)
  {
    Switch(s.(table := s.table[s.current := s.table[s.current].(slice := s.table[s.current].sliceLen)]))
  }

  /** What a process does first when it gets the CPU back inside a system call. */
  function ResumeStep(s: Sys): Sys
    requires TableOk(s) && PriosOk(s.table)
  {
    var me := s.table[s.current];
    match me.pc
    case User => s
    case InWait(target) => WaitTurn(s.(table := s.table[s.current := me.(waiting := false, pc := User)]), target)
    case InSleep => Switch(s.(table := s.table[s.current := me.(pc := User)]))
    case InIo => s.(table := s.table[s.current := me.(pc := User)])
  }

  // ---------------------------------------------------------------------------------------------
  // Interrupts and boot

  predicate Due(p: Pcb, now: int) {
    p.state == Blocked && p.wakeup != 0 && p.wakeup <= now
  }

  /** The loop of `sched_tick` over the table. */
  function WakeDue(s: Sys, from: int): Sys
    requires TableOk(s) && 0 <= from <= MAX_PROCS
    requires from == 0 ==> s.table[0].state == Unused
    decreases |s.table| - from
  {
    if from == MAX_PROCS then s
    else if Due(s.table[from], s.ticks) then WakeDue(Wake(s, from), from + 1)
    else WakeDue(s, from + 1)
  }

  function Tick(s: Sys): Sys
    requires TableOk(s) && PriosOk(s.table) && s.table[0].state == Unused
  {
    var s1 := s.(ticks := (s.ticks + 1) % TICK_RANGE, tickFlag := true);
    WakeDueKeepsShape(s1, 0);
    Switch(WakeDue(s1, 0))
  }

  /** The timer wakes exactly the processes whose wake-up tick has come, and touches no other. */
  lemma {:induction false} WakeDueKeepsShape(s: Sys, from: int)
    requires TableOk(s) && 0 <= from <= MAX_PROCS && PriosOk(s.table)
    requires from == 0 ==> s.table[0].state == Unused
    ensures TableOk(WakeDue(s, from)) && PriosOk(WakeDue(s, from).table)
    ensures WakeDue(s, from) == s.(table := WakeDue(s, from).table, queue := WakeDue(s, from).queue)
    ensures forall q | 0 <= q < MAX_PROCS ::
      WakeDue(s, from).table[q] ==
      if from <= q && Due(s.table[q], s.ticks) then s.table[q].(wakeup := 0, state := Ready) else s.table[q]
    decreases MAX_PROCS - from
  {
    if from == MAX_PROCS {
    } else {
      WakeDueKeepsShape(if Due(s.table[from], s.ticks) then Wake(s, from) else s, from + 1);
    }
  }

  /** A wake-up by a pipe peer in the middle of its system call, or by the keyboard interrupt. The slot
      that names the process is emptied first. */
  function IoWake(s: Sys, p: int, interrupt: bool): Sys
    requires TableOk(s) && PriosOk(s.table) && 0 < p < MAX_PROCS
  {
    var s1 := s.(waiters := s.waiters - multiset{p});
    if interrupt then Switch(Wake(s1, p)) else Wake(s1, p)
  }

  /** Kernel code creating a process without a parent, as boot does for the idle process. */
  function Spawn(s: Sys, prio: int, memory: bool): Sys
    requires TableOk(s) && 1 <= s.hint <= MAX_PROCS
  {
    var (s1, pid) := Create(s, prio, memory);
    if pid == 0 then s1 else Launch(s1, pid, 0)
  }

  function Start(s: Sys): Sys
    requires TableOk(s) && PriosOk(s.table)
  {
    var b := Choice(s, 0);
    if b < 0 then s
    else
      var p := s.queue[b];
      s.(current := p, enabled := true, table := s.table[p := s.table[p].(state := Running)])
  }

  /** After `proc_init` and `sched_init`. */
  function Boot(): Sys {
    Sys(seq(MAX_PROCS, i => EMPTY), {0}, 1, [], 0, false, false, 0, multiset{}, false, map[], [], 0)
  }
}
