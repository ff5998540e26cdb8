/** The routines of `kernel/proc/proc.c`, `sched.c`, `fork.c` and `exec.c` on their arrays, proved to
    take exactly the steps of `Processes`. */
module KernelProcs {
  import opened BitWords
  import opened ReadyQueue
  import opened Processes

  lemma {:induction false} IndexOfIs(q: seq<int>, p: int, i: int)
    requires 0 <= i < |q| && q[i] == p && p !in q[..i]
    ensures IndexOf(q, p) == i
    decreases i
  {
  }

  class Kernel {
    const table: array<Pcb>
    const readyQueue: array<int>   // PIDs in place of PCB pointers; 0 for a null pointer
    const bitmap: array<nat>       // PID bitmap words
    var hint: int
    var queueSize: nat
    var current: int
    var enabled: bool
    var tickFlag: bool
    var ticks: int
    ghost var pids: set<int>       // the PIDs whose bit is set
    ghost var waiters: multiset<int> // the PIDs in the waiter slots of pipes and keyboard
    ghost var restarted: bool        // exec has given process 1 other code than the idle loop
    ghost var exits: map<nat, int>
    ghost var reaps: seq<Reap>
    var nextUid: nat

    ghost predicate Shape()
      reads this, bitmap
    {
      && table.Length == MAX_PROCS && readyQueue.Length == MAX_PROCS && bitmap.Length == MAX_PROCS / 32
      && table as object != readyQueue && table as object != bitmap && readyQueue as object != bitmap
      && queueSize <= MAX_PROCS && 1 <= hint < MAX_PROCS
      && (forall p | 0 <= p < MAX_PROCS :: p in pids <==> Test(bitmap[p / 32], p % 32))
      && (forall p | p in pids :: 0 <= p < MAX_PROCS)
    }

    ghost function Abs(): Sys
      requires Shape()
      reads this, bitmap, table, readyQueue
    {
      Sys(table[..], pids, hint, readyQueue[..queueSize], current, enabled, tickFlag, ticks, waiters, restarted, exits,
          reaps, nextUid)
    }

    /** What every routine relies on. */
    ghost predicate Valid()
      reads this, bitmap, table, readyQueue
    {
      Shape() && TableOk(Abs()) && PriosOk(table[..])
    }

    // -------------------------------------------------------------------------------------------
    // PIDs

    /** The scan of one pass of `pid_alloc`. */
    method FindClear(start: int, end: int) returns (pid: int)
      requires Shape() && 1 <= start <= end <= MAX_PROCS
      ensures pid == LowestClear(pids, start, end)
    {
      pid := start;
      while pid < end
        invariant start <= pid <= end
        invariant forall p | start <= p < pid :: p in pids
      {
        if !Test(bitmap[pid / 32], pid % 32) {
          return;
        }
        pid := pid + 1;
      }
    }

    method PidAlloc() returns (pid: int)
      requires Shape()
      modifies bitmap, this`pids, this`hint
      ensures Shape()
      ensures pid == PidSearch(old(pids), old(hint))
      ensures Abs() == if pid == PID_INVALID then old(Abs()) else PidTaken(old(Abs()), pid)
    {
      pid := FindClear(hint, MAX_PROCS);
      if pid == MAX_PROCS {
        pid := FindClear(1, hint);
        if pid == hint {
          return PID_INVALID;
        }
      }
      SetPid(pid);
      hint := if pid + 1 < MAX_PROCS then pid + 1 else 1;
    }

    method SetPid(pid: int)
      requires Shape() && 0 <= pid < MAX_PROCS
      modifies bitmap, this`pids
      ensures Shape() && pids == old(pids) + {pid}
    {
      ghost var words := bitmap[..];
      bitmap[pid / 32] := SetBit(bitmap[pid / 32], pid % 32);
      pids := pids + {pid};
      forall p | 0 <= p < MAX_PROCS
        ensures p in pids <==> Test(bitmap[p / 32], p % 32)
      {
        MapSetSets(words, pid, p);
      }
    }

    method FreePid(pid: int)
      requires Shape() && 0 <= pid < MAX_PROCS
      modifies bitmap, this`pids, this`hint
      ensures Shape() && Abs() == PidFree(old(Abs()), pid)
    {
      if pid == 0 || !Test(bitmap[pid / 32], pid % 32) {
        return;
      }
      ghost var words := bitmap[..];
      bitmap[pid / 32] := ClearBit(bitmap[pid / 32], pid % 32);
      pids := pids - {pid};
      if pid < hint {
        hint := pid;
      }
      forall p | 0 <= p < MAX_PROCS
        ensures p in pids <==> Test(bitmap[p / 32], p % 32)
      {
        MapClearClears(words, pid, p);
      }
    }

    // -------------------------------------------------------------------------------------------
    // Ready queue

    method SchedAdd(p: int)
      requires Shape() && 0 <= p < MAX_PROCS
      modifies readyQueue, this`queueSize
      ensures Shape() && Abs() == Enqueue(old(Abs()), p)
    {
      if table[p].state != Ready || queueSize >= MAX_PROCS {
        return;
      }
      readyQueue[queueSize] := p;
      queueSize := queueSize + 1;
      assert readyQueue[..queueSize] == old(readyQueue[..queueSize]) + [p];
    }

    /** The last entry is moved into the gap. */
    method SchedRemove(p: int)
      requires Shape()
      modifies readyQueue, this`queueSize
      ensures Shape() && Abs() == Dequeue(old(Abs()), p)
    {
      ghost var q := readyQueue[..queueSize];
      var i := 0;
      while i < queueSize
        invariant 0 <= i <= queueSize && p !in q[..i]
      {
        if readyQueue[i] == p {
          IndexOfIs(q, p, i);
          queueSize := queueSize - 1;
          readyQueue[i] := readyQueue[queueSize];
          readyQueue[queueSize] := 0;
          assert readyQueue[..queueSize] == SwapRemove(q, p);
          return;
        }
        i := i + 1;
      }
      assert q[..i] == q;
    }

    method ProcWake(p: int)
      requires Shape() && 0 <= p < MAX_PROCS
      modifies table, readyQueue, this`queueSize
      ensures Shape() && Abs() == Wake(old(Abs()), p)
    {
      if table[p].state != Blocked {
        return;
      }
      table[p] := table[p].(wakeup := 0, state := Ready);
      assert table[..] == old(table[..])[p := old(table[p]).(wakeup := 0, state := Ready)];
      SchedAdd(p);
    }

    // -------------------------------------------------------------------------------------------
    // Switching

    /** The scan over the ready queue in `sched_switch_esp` and `sched_start`: the index found, or -1. */
    method Scan(skip: int) returns (nextIdx: int)
      requires Valid()
      ensures nextIdx == Choice(Abs(), skip)
    {
      nextIdx := -1;
      var bestPrio := 255;
      var i := 0;
      while i < queueSize
        invariant 0 <= i <= queueSize
        invariant nextIdx == Best(table[..], readyQueue[..queueSize], skip, i)
        invariant bestPrio == if nextIdx == -1 then 255 else table[readyQueue[nextIdx]].prio
      {
        var p := readyQueue[i];
        assert p == Abs().queue[i] && p in Abs().queue;
        if p != skip && table[p].state == Ready && table[p].prio < bestPrio {
          bestPrio := table[p].prio;
          nextIdx := i;
        }
        i := i + 1;
      }
    }

    /** `sched_switch_esp` */
    method SchedSwitch()
      requires Valid()
      modifies table, this`tickFlag, this`current
      ensures Shape() && Abs() == Switch(old(Abs()))
      ensures tickFlag == (old(tickFlag) && !enabled)
      ensures old(enabled && tickFlag && table[current].slice > 1) && current != 0 ==>
        current == old(current) && table[current] == old(table[current]).(slice := old(table[current]).slice - 1)
    {
      if !enabled || !tickFlag {
        return;
      }
      tickFlag := false;
      if current == 0 {
        return;
      }
      var left := if table[current].slice > 0 then table[current].slice - 1 else 0;
      table[current] := table[current].(slice := left);
      assert table[..] == old(table[..])[current := old(table[current]).(slice := left)];
      if left == 0 {
        PickNext();
      }
    }

    /** At the end of a slice: the foremost other process gets the CPU, or the current one a new slice. */
    method PickNext()
      requires Valid() && current != 0
      modifies table, this`current
      ensures Shape()
      ensures var s := old(Abs());
        var b := Choice(s, s.current);
        var state := if s.table[s.current].state == Running then Ready else s.table[s.current].state;
        var renewed := s.table[s.current].(slice := s.table[s.current].sliceLen);
        Abs() == if b < 0 then s.(table := s.table[s.current := renewed])
                 else Activate(s.(table := s.table[s.current := s.table[s.current].(state := state)]), s.queue[b])
    {
      var b := Scan(current);
      if b < 0 {
        table[current] := table[current].(slice := table[current].sliceLen);
        assert table[..] == old(table[..])[current := old(table[current]).(slice := table[current].sliceLen)];
        return;
      }
      assert readyQueue[b] == Abs().queue[b] && readyQueue[b] in Abs().queue;
      SwitchTo(b);
    }

    /** Hands the CPU to queue entry b. */
    method SwitchTo(b: int)
      requires Valid() && current != 0 && 0 <= b < queueSize && 0 < readyQueue[b] < MAX_PROCS
      modifies table, this`current
      ensures Shape()
      ensures var s := old(Abs());
        var state := if s.table[s.current].state == Running then Ready else s.table[s.current].state;
        Abs() == Activate(s.(table := s.table[s.current := s.table[s.current].(state := state)]), s.queue[b])
    {
      ghost var t0 := table[..];
      if table[current].state == Running {
        table[current] := table[current].(state := Ready);
      }
      ghost var t1 := table[..];
      ghost var state := if t0[current].state == Running then Ready else t0[current].state;
      assert t1 == t0[current := t0[current].(state := state)];
      current := readyQueue[b];
      assert current == readyQueue[..queueSize][b];
      table[current] := table[current].(state := Running, slice := table[current].sliceLen);
      assert table[..] == t1[current := t1[current].(state := Running, slice := t1[current].sliceLen)];
    }

    /** `sched_force_switch`, then the switch at the end of the yield system call. */
    method SchedYield()
      requires Valid()
      modifies table, this`tickFlag, this`current
      ensures Shape() && Abs() == Yield(old(Abs()))
    {
      tickFlag := true;
      if current != 0 {
        table[current] := table[current].(slice := 0);
        assert table[..] == old(table[..])[current := old(table[current]).(slice := 0)];
      }
      SchedSwitch();
    }

    method SchedStart()
      requires Valid()
      modifies table, this`current, this`enabled
      ensures Shape() && Abs() == Start(old(Abs()))
    {
      var b := Scan(0);
      if b < 0 {
        return;
      }
      assert readyQueue[b] == Abs().queue[b] && readyQueue[b] in Abs().queue;
      current := readyQueue[b];
      table[current] := table[current].(state := Running);
      assert table[..] == old(table[..])[current := old(table[..])[current].(state := Running)];
      enabled := true;
    }

    /** `timer_handler` and `sched_tick`, then the switch at the end of the interrupt. */
    method TimerTick()
      requires Valid() && table[0].state == Unused
      modifies table, readyQueue, this`queueSize, this`tickFlag, this`current, this`ticks
      ensures Shape() && Abs() == Tick(old(Abs()))
    {
      ticks := (ticks + 1) % TICK_RANGE;
      tickFlag := true;
      WakeDueKeepsShape(Abs(), 0);
      WakeSleepers();
      SchedSwitch();
    }

    /** The loop of `sched_tick` over the process table. */
    method WakeSleepers()
      requires Shape() && TableOk(Abs()) && table[0].state == Unused
      modifies table, readyQueue, this`queueSize
      ensures Shape() && Abs() == WakeDue(old(Abs()), 0)
    {
      ghost var s1 := Abs();
      var i := 0;
      while i < MAX_PROCS
        invariant 0 <= i <= MAX_PROCS && Shape() && TableOk(Abs()) && Abs().table[0].state == Unused
        invariant WakeDue(Abs(), i) == WakeDue(s1, 0)
      {
        if table[i].state == Blocked && table[i].wakeup != 0 && table[i].wakeup <= ticks {
          ProcWake(i);
        }
        i := i + 1;
      }
    }

    // -------------------------------------------------------------------------------------------
    // Life cycle

    /** `proc_init` and `sched_init` */
    constructor ()
      ensures fresh(table) && fresh(readyQueue) && fresh(bitmap)
      ensures Valid() && Abs() == Boot()
    {
      table := new Pcb[MAX_PROCS](_ => EMPTY);
      readyQueue := new int[MAX_PROCS](_ => 0);
      bitmap := new nat[MAX_PROCS / 32](_ => 0);
      hint, queueSize, current, enabled, tickFlag, ticks := 1, 0, 0, false, false, 0;
      pids, waiters, restarted, exits, reaps, nextUid := {0}, multiset{}, false, map[], [], 0;
      new;
      ghost var words := bitmap[..];
      bitmap[0] := SetBit(bitmap[0], 0);
      forall p | 0 <= p < MAX_PROCS
        ensures p in pids <==> Test(bitmap[p / 32], p % 32)
      {
        MapSetSets(words, 0, p);
        ZeroIsClear(p % 32);
      }
      assert table[..] == Boot().table;
    }

    /** `proc_create`; `memory` tells whether the kernel stack can be allocated. */
    method ProcCreate(prio: int, memory: bool) returns (pid: int)
      requires Valid()
      modifies table, bitmap, this`pids, this`hint, this`nextUid
      ensures Shape() && (Abs(), pid) == Create(old(Abs()), prio, memory)
    {
      var p := PidAlloc();
      if p == PID_INVALID {
        return 0;
      }
      if table[p].state != Unused {
        FreePid(p);
        return 0;
      }
      if !memory {
        FreePid(p);
        return 0;
      }
      table[p] := NewPcb(prio, nextUid);
      assert table[..] == old(table[..])[p := NewPcb(prio, nextUid)];
      nextUid := nextUid + 1;
      return p;
    }

    /** `proc_fork`, with the switch at the end of the system call: the PID of the child, or PID_INVALID. */
    method ProcFork(memory: bool) returns (child: int)
      requires Valid() && current != 0
      modifies table, readyQueue, bitmap
      modifies this`pids, this`hint, this`nextUid, this`queueSize, this`tickFlag, this`current
      ensures Shape() && Abs() == Fork(old(Abs()), memory)
      ensures var pid := Create(old(Abs()), old(table[current].prio), memory).1;
        child == if pid == 0 then PID_INVALID else pid
    {
      var pid := ProcCreate(table[current].prio, memory);
      if pid != 0 {
        ghost var t := table[..];
        table[pid] := table[pid].(ppid := current, puid := table[current].uid, state := Ready);
        assert table[..] == t[pid := t[pid].(ppid := current, puid := t[current].uid, state := Ready)];
        SchedAdd(pid);
      }
      child := if pid == 0 then PID_INVALID else pid;
      SchedSwitch();
    }

    /** `proc_destroy`; the source panics unless the process is a ZOMBIE. */
    method ProcDestroy(p: int)
      requires Shape() && 0 <= p < MAX_PROCS && table[p].state == Zombie
      modifies table, bitmap, this`pids, this`hint
      ensures Shape() && Abs() == Destroy(old(Abs()), p)
    {
      FreePid(p);
      table[p] := EMPTY;
      assert table[..] == old(table[..])[p := EMPTY];
    }

    /** The table scan of `proc_wait`: a child to collect, or MAX_PROCS. */
    method FindZombie(target: int) returns (c: int)
      requires Valid()
      ensures c == FirstZombie(table[..], current, target, 0)
    {
      c := 0;
      while c < MAX_PROCS
        invariant 0 <= c <= MAX_PROCS
        invariant forall k | 0 <= k < c :: !Collectable(table[..], current, target, k)
      {
        if table[c].state != Unused && table[c].ppid == current && (target == PID_INVALID || c == target)
           && table[c].state == Zombie {
          assert Collectable(table[..], current, target, c);
          return;
        }
        c := c + 1;
      }
    }

    /** One turn of the loop of `proc_wait`. */
    method ProcWaitTurn(target: int) returns (pid: int, code: int)
      requires Valid()
      modifies table, readyQueue, bitmap, this`pids, this`hint, this`queueSize, this`tickFlag, this`current, this`reaps
      ensures Shape() && Abs() == WaitTurn(old(Abs()), target)
      ensures var z := FirstZombie(old(table[..]), old(current), target, 0);
        if z < MAX_PROCS then pid == z && code == old(table[..])[z].exitCode else pid == 0
    {
      var z := FindZombie(target);
      if z < MAX_PROCS {
        pid, code := z, table[z].exitCode;
        reaps := reaps + [Reap(table[z].uid, table[z].exitCode, table[z].puid, table[current].uid)];
        ProcDestroy(z);
        SchedSwitch();
        return;
      }
      pid, code := 0, 0;
      BlockCurrent(Waiting(table[current], target));
    }

    /** The common tail of `proc_wait`, `proc_sleep` and the pipe and keyboard waits. */
    method BlockCurrent(pcb: Pcb)
      requires Valid() && pcb.prio <= PRIO_IDLE
      modifies table, readyQueue, this`queueSize, this`tickFlag, this`current
      ensures Shape() && Abs() == Block(old(Abs()), pcb)
    {
      table[current] := pcb;
      assert table[..] == old(table[..])[current := pcb];
      SwapRemoveSubset(readyQueue[..queueSize], current);
      SchedRemove(current);
      SchedYield();
    }

    method ProcSleep(n: int)
      requires Valid()
      modifies table, readyQueue, this`queueSize, this`tickFlag, this`current
      ensures Shape() && Abs() == Sleep(old(Abs()), n)
    {
      if n == 0 {
        SchedSwitch();
        return;
      }
      BlockCurrent(SleepingUntil(table[current], (ticks + n) % TICK_RANGE));
    }

    method ProcExit(code: int)
      requires Valid()
      modifies table, readyQueue, this`queueSize, this`tickFlag, this`current, this`exits
      ensures Shape() && Abs() == Exit(old(Abs()), code)
    {
      var p := current;
      exits := exits[table[p].uid := code];
      table[p] := table[p].(exitCode := code, state := Zombie);
      assert table[..] == old(table[..])[p := old(table[p]).(exitCode := code, state := Zombie)];
      NotifyParent(p);
      SwapRemoveSubset(readyQueue[..queueSize], p);
      SchedRemove(p);
      SchedYield();
    }

    /** The part of `proc_exit` that wakes a parent waiting for this child. */
    method NotifyParent(p: int)
      requires Valid() && 0 <= p < MAX_PROCS
      modifies table, readyQueue, this`queueSize
      ensures Valid() && Abs() == WakeParent(old(Abs()), p)
    {
      var ppid := table[p].ppid;
      if 0 < ppid < MAX_PROCS {
        if table[ppid].state != Unused && table[ppid].waiting && Matches(table[ppid].waitFor, p) {
          ProcWake(ppid);
        }
      }
    }

    /** `sys_exec` and `proc_exec` on process p: 0, or -1 if there is no such process or it is running. */
    method ProcExec(p: int) returns (r: int)
      requires Valid() && 0 < p < MAX_PROCS
      modifies table, readyQueue, this`queueSize, this`tickFlag, this`current, this`restarted
      ensures Shape() && Abs() == Exec(old(Abs()), p)
      ensures r == if old(table[p].state) == Unused || old(table[p].state) == Running then -1 else 0
    {
      r := -1;
      if table[p].state != Unused && table[p].state != Running {
        r := 0;
        SwapRemoveSubset(readyQueue[..queueSize], p);
        SchedRemove(p);
        var pcb := StartOver(table[p]);
        table[p] := pcb;
        assert table[..] == old(table[..])[p := pcb];
        restarted := restarted || p == IDLE;
        SchedAdd(p);
      }
      SchedSwitch();
    }
  }
}
