/** Exit and wait: no wake-up is lost, and every exit code is delivered once, unchanged, to the process
    that forked the child as long as that process is there. */
module ExitWait {
  import opened Processes
  import opened ProcessInvariant
  import opened BootRuns

  /** A process asleep in `proc_wait` has no dead child that it could collect. */
  lemma NoLostWakeup(states: seq<Sys>, steps: seq<Step>, i: nat, p: int, c: int)
    requires SafeRun(states, steps) && i < |states|
    requires 0 < p < MAX_PROCS && 0 < c < MAX_PROCS
    ensures |states[i].table| == MAX_PROCS
    ensures var t := states[i].table;
      t[p].state == Blocked && t[p].waiting && t[c].ppid == p && Matches(t[p].waitFor, c) ==> t[c].state != Zombie
  {
    EveryRunIsSafe(states, steps, i);
    assert PcbOk(states[i].table[p]) && !Missed(states[i].table, p, c);
  }

  /** Process c has exited, is a child of `parent`, and is the one waited for, or any will do. */
  predicate DeadChild(table: seq<Pcb>, parent: int, target: int, c: int) {
    0 <= c < |table| && table[c].state == Zombie && table[c].ppid == parent && (target == PID_INVALID || c == target)
  }

  /** Wait collects the dead child with the lowest PID that it was asked for: its code is handed over, its slot and
      its PID are free, and no other process changes but for the switch at the end. */
  lemma WaitCollectsLowest(s: Sys, target: int, c: int)
    requires Inv(s) && Ok(s) && s.enabled && DeadChild(s.table, s.current, target, c)
    requires forall k | 0 <= k < c :: !DeadChild(s.table, s.current, target, k)
    ensures var s', child := WaitTurn(s, target), s.table[c];
      && s'.reaps == s.reaps + [Reap(child.uid, child.exitCode, child.puid, s.table[s.current].uid)]
      && |s'.table| == MAX_PROCS && s'.table[c].state == Unused && s'.pids == s.pids - {c} && s'.queue == s.queue
      && forall q | 0 <= q < MAX_PROCS && q != c :: SameBut(s.table[q], s'.table[q])
  {
    var z := FirstZombie(s.table, s.current, target, 0);
    assert Collectable(s.table, s.current, target, c);
    assert z == c by {
      assert z < c ==> DeadChild(s.table, s.current, target, z);
    }
    CollectedKeeps(s, c);
    SwitchSameBut(Collected(s, c));
  }

  /** With no such child the caller goes to sleep in its wait, and nothing is collected. */
  lemma WaitSleepsIffNone(s: Sys, target: int)
    requires Inv(s) && Ok(s) && s.enabled && MayCall(s) && s.table[s.current].pc == User
    ensures var s' := WaitTurn(s, target);
      && |s'.table| == MAX_PROCS
      && (s'.table[s.current].state == Blocked <==> forall c :: !DeadChild(s.table, s.current, target, c))
      && (s'.table[s.current].state == Blocked ==> s'.reaps == s.reaps && s'.table[s.current].pc == InWait(target))
  {
    var z := FirstZombie(s.table, s.current, target, 0);
    if z < |s.table| {
      assert DeadChild(s.table, s.current, target, z);
      CollectedKeeps(s, z);
      SwitchSameBut(Collected(s, z));
    } else {
      forall c
        ensures !DeadChild(s.table, s.current, target, c)
      {
        assert 0 <= c < |s.table| ==> !Collectable(s.table, s.current, target, c);
      }
      BlockLeavesBlocked(s, Waiting(s.table[s.current], target));
    }
  }

  lemma BlockLeavesBlocked(s: Sys, pcb: Pcb)
    requires Ok(s) && s.current != 0 && pcb.state == Blocked && pcb.prio <= PRIO_IDLE
    ensures var s', c := Block(s, pcb), s.current;
      |s'.table| == MAX_PROCS && s'.table[c].state == Blocked && s'.table[c].pc == pcb.pc && s'.reaps == s.reaps
  {
    SwapRemoveSubset(s.queue, s.current);
  }

  /** Exit wakes a process that is blocked in a wait exactly if that process is the parent and waits for this child
      or for any. */
  lemma ExitWakesIff(s: Sys, code: int, q: int)
    requires Inv(s) && Ok(s) && s.enabled && MayCall(s) && s.table[s.current].pc == User
    requires 0 < q < MAX_PROCS && s.table[q].state == Blocked && s.table[q].pc.InWait?
    ensures var s', target := Exit(s, code), s.table[q].pc.target;
      && |s'.table| == MAX_PROCS
      && (Runnable(s'.table[q]) <==> s.table[s.current].ppid == q && (target == PID_INVALID || target == s.current))
  {
    assert PcbOk(s.table[q]);
    ExitUnfolds(s, code);
    BuriedKeeps(s, code);
    BuriedWakes(s, code, q);
    YieldRunnable(Buried(s, code), q);
  }

  lemma BuriedWakes(s: Sys, code: int, q: int)
    requires Ok(s) && 0 < q < MAX_PROCS && q != s.current && PcbOk(s.table[q])
    requires s.table[q].state == Blocked && s.table[q].pc.InWait?
    ensures var s1, target := Buried(s, code), s.table[q].pc.target;
      Runnable(s1.table[q]) <==> s.table[s.current].ppid == q && (target == PID_INVALID || target == s.current)
  {
  }

  lemma YieldRunnable(s: Sys, q: int)
    requires Ok(s) && 0 <= q < MAX_PROCS
    ensures |Yield(s).table| == MAX_PROCS && (Runnable(Yield(s).table[q]) <==> Runnable(s.table[q]))
  {
  }

  // ---------------------------------------------------------------------------------------------
  // Lives

  /** What matters of a slot for the delivery of exit codes. */
  datatype Life = Absent | Alive(uid: nat, ppid: int, puid: nat) | Dead(uid: nat, ppid: int, puid: nat, code: int)

  function LifeOf(p: Pcb): Life {
    match p.state
    case Unused => Absent
    case Zombie => Dead(p.uid, p.ppid, p.puid, p.exitCode)
    case _ => Alive(p.uid, p.ppid, p.puid)
  }

  function Lives(table: seq<Pcb>): seq<Life> {
    seq(|table|, i requires 0 <= i < |table| => LifeOf(table[i]))
  }

  /** Two states that differ in nothing that matters here. */
  predicate SameLives(s: Sys, s': Sys) {
    Lives(s'.table) == Lives(s.table) && s'.exits == s.exits && s'.reaps == s.reaps && s'.nextUid == s.nextUid
  }

  lemma SwitchSameLives(s: Sys)
    requires TableOk(s) && PriosOk(s.table)
    ensures SameLives(s, Switch(s))
  {
  }

  lemma WakeSameLives(s: Sys, p: int)
    requires 0 <= p < |s.table|
    ensures SameLives(s, Wake(s, p))
  {
  }

  lemma YieldSameLives(s: Sys)
    requires TableOk(s) && PriosOk(s.table)
    ensures SameLives(s, Yield(s))
  {
  }

  lemma BlockSameLives(s: Sys, pcb: Pcb)
    requires TableOk(s) && PriosOk(s.table) && pcb.prio <= PRIO_IDLE
    requires LifeOf(pcb) == LifeOf(s.table[s.current])
    ensures SameLives(s, Block(s, pcb))
  {
    SwapRemoveSubset(s.queue, s.current);
    YieldSameLives(Dequeue(s.(table := s.table[s.current := pcb]), s.current));
  }

  lemma TickSameLives(s: Sys)
    requires Ok(s)
    ensures SameLives(s, Tick(s))
  {
    var s1 := s.(ticks := (s.ticks + 1) % TICK_RANGE, tickFlag := true);
    WakeDueKeepsShape(s1, 0);
    SwitchSameLives(WakeDue(s1, 0));
  }

  // ---------------------------------------------------------------------------------------------
  // The ledger of exit codes

  ghost predicate Reaped(reaps: seq<Reap>, uid: nat) {
    exists i :: 0 <= i < |reaps| && reaps[i].uid == uid
  }

  ghost predicate DeadIn(lives: seq<Life>, uid: nat, code: int) {
    exists p :: 0 <= p < |lives| && lives[p].Dead? && lives[p].uid == uid && lives[p].code == code
  }

  /** Process identities are unique; a process leaves a code exactly when it dies; what has been
      delivered is what was left, once each; and the dead that are still in the table are exactly
      those whose code has not been delivered. */
  ghost predicate Ledger(lives: seq<Life>, exits: map<nat, int>, reaps: seq<Reap>, nextUid: nat) {
    && (forall p | 0 <= p < |lives| && lives[p].Alive? :: lives[p].uid < nextUid && lives[p].uid !in exits)
    && (forall p | 0 <= p < |lives| && lives[p].Dead? ::
          lives[p].uid in exits && exits[lives[p].uid] == lives[p].code && !Reaped(reaps, lives[p].uid))
    && (forall p, q | 0 <= p < q < |lives| && !lives[p].Absent? && !lives[q].Absent? :: lives[p].uid != lives[q].uid)
    && (forall i | 0 <= i < |reaps| :: reaps[i].uid in exits && exits[reaps[i].uid] == reaps[i].code)
    && (forall i, j | 0 <= i < j < |reaps| :: reaps[i].uid != reaps[j].uid)
    && (forall u | u in exits :: u < nextUid && (Reaped(reaps, u) || DeadIn(lives, u, exits[u])))
  }

  /** The process that forked the one in slot c is still in its own slot. */
  predicate ParentThere(lives: seq<Life>, c: int)
    requires 0 <= c < |lives| && !lives[c].Absent?
  {
    var p := lives[c].ppid;
    0 < p < |lives| && !lives[p].Absent? && lives[p].uid == lives[c].puid
  }

  /** A forked process whose parent is gone has a parent that was collected; and an exit code has gone to
      the process that forked the child exactly if that process had not been collected before. */
  ghost predicate Kinship(lives: seq<Life>, reaps: seq<Reap>) {
    && (forall c | 0 <= c < |lives| && !lives[c].Absent? && lives[c].ppid > 0 ::
          ParentThere(lives, c) || Reaped(reaps, lives[c].puid))
    && (forall i | 0 <= i < |reaps| ::
          reaps[i].collector == reaps[i].parent <==> !Reaped(reaps[..i], reaps[i].parent))
  }

  ghost predicate LedgerInv(s: Sys) {
    Ledger(Lives(s.table), s.exits, s.reaps, s.nextUid) && Kinship(Lives(s.table), s.reaps)
  }

  function Died(l: Life, code: int): Life
    requires l.Alive?
  {
    Dead(l.uid, l.ppid, l.puid, code)
  }

  lemma DeathKeepsKinship(lives: seq<Life>, reaps: seq<Reap>, p: int, code: int)
    requires Kinship(lives, reaps) && 0 <= p < |lives| && lives[p].Alive?
    ensures Kinship(lives[p := Died(lives[p], code)], reaps)
  {
    var lives' := lives[p := Died(lives[p], code)];
    forall c | 0 <= c < |lives'| && !lives'[c].Absent? && lives'[c].ppid > 0
      ensures ParentThere(lives', c) || Reaped(reaps, lives'[c].puid)
    {
      assert ParentThere(lives, c) || Reaped(reaps, lives[c].puid);
    }
  }

  lemma BirthKeepsKinship(lives: seq<Life>, reaps: seq<Reap>, p: int, uid: nat, ppid: int)
    requires Kinship(lives, reaps) && 0 <= p < |lives| && lives[p].Absent? && 0 <= ppid < |lives|
    requires ppid > 0 ==> !lives[ppid].Absent?
    ensures ppid > 0 ==> Kinship(lives[p := Alive(uid, ppid, lives[ppid].uid)], reaps)
    ensures ppid == 0 ==> forall puid: nat :: Kinship(lives[p := Alive(uid, 0, puid)], reaps)
  {
    forall puid: nat | ppid > 0 ==> puid == lives[ppid].uid
      ensures Kinship(lives[p := Alive(uid, ppid, puid)], reaps)
    {
      var lives' := lives[p := Alive(uid, ppid, puid)];
      forall c | 0 <= c < |lives'| && !lives'[c].Absent? && lives'[c].ppid > 0
        ensures ParentThere(lives', c) || Reaped(reaps, lives'[c].puid)
      {
        assert c != p ==> ParentThere(lives, c) || Reaped(reaps, lives[c].puid);
      }
    }
  }

  lemma MoreReaped(reaps: seq<Reap>, r: Reap, uid: nat)
    ensures Reaped(reaps + [r], uid) <==> Reaped(reaps, uid) || uid == r.uid
  {
    if i :| 0 <= i < |reaps| && reaps[i].uid == uid {
      assert (reaps + [r])[i].uid == uid;
    }
    assert (reaps + [r])[|reaps|] == r;
  }

  /** The living process in slot `self` collects its child in slot z. */
  lemma CollectionKeepsKinship(lives: seq<Life>, exits: map<nat, int>, reaps: seq<Reap>, nextUid: nat,
                               z: int, self: int)
    requires Ledger(lives, exits, reaps, nextUid) && Kinship(lives, reaps)
    requires 0 <= z < |lives| && lives[z].Dead? && 0 < self < |lives| && lives[self].Alive? && lives[z].ppid == self
    ensures Kinship(lives[z := Absent], reaps + [Reap(lives[z].uid, lives[z].code, lives[z].puid, lives[self].uid)])
  {
    var r := Reap(lives[z].uid, lives[z].code, lives[z].puid, lives[self].uid);
    var lives', reaps' := lives[z := Absent], reaps + [r];
    forall c | 0 <= c < |lives'| && !lives'[c].Absent? && lives'[c].ppid > 0
      ensures ParentThere(lives', c) || Reaped(reaps', lives'[c].puid)
    {
      MoreReaped(reaps, r, lives[c].puid);
      assert ParentThere(lives, c) || Reaped(reaps, lives[c].puid);
    }
    assert ParentThere(lives, z) || Reaped(reaps, lives[z].puid);
    forall i | 0 <= i < |reaps'|
      ensures reaps'[i].collector == reaps'[i].parent <==> !Reaped(reaps'[..i], reaps'[i].parent)
    {
      assert reaps'[..i] == reaps[..i];
      assert reaps[..|reaps|] == reaps;
    }
  }

  lemma DeathKeepsLedger(lives: seq<Life>, exits: map<nat, int>, reaps: seq<Reap>, nextUid: nat, p: int, code: int)
    requires Ledger(lives, exits, reaps, nextUid) && 0 <= p < |lives| && lives[p].Alive?
    ensures Ledger(lives[p := Died(lives[p], code)], exits[lives[p].uid := code], reaps, nextUid)
  {
    var u := lives[p].uid;
    var lives', exits' := lives[p := Died(lives[p], code)], exits[u := code];
    assert lives'[p] == Died(lives[p], code);
    forall v | v in exits'
      ensures v < nextUid && (Reaped(reaps, v) || DeadIn(lives', v, exits'[v]))
    {
      if v != u && !Reaped(reaps, v) {
        var q :| 0 <= q < |lives| && lives[q].Dead? && lives[q].uid == v && lives[q].code == exits[v];
        assert lives'[q] == lives[q];
      }
    }
  }

  lemma CollectionKeepsLedger(lives: seq<Life>, exits: map<nat, int>, reaps: seq<Reap>, nextUid: nat, p: int, r: Reap)
    requires Ledger(lives, exits, reaps, nextUid) && 0 <= p < |lives| && lives[p].Dead?
    requires r.uid == lives[p].uid && r.code == lives[p].code
    ensures Ledger(lives[p := Absent], exits, reaps + [r], nextUid)
  {
    var u, lives', reaps' := lives[p].uid, lives[p := Absent], reaps + [r];
    forall v: nat
      ensures Reaped(reaps', v) <==> Reaped(reaps, v) || v == u
    {
      MoreReaped(reaps, r, v);
    }
    forall v | v in exits
      ensures Reaped(reaps', v) || DeadIn(lives', v, exits[v])
    {
      if v != u && !Reaped(reaps, v) {
        var q :| 0 <= q < |lives| && lives[q].Dead? && lives[q].uid == v && lives[q].code == exits[v];
        assert lives'[q] == lives[q];
      }
    }
  }

  lemma BirthKeepsLedger(lives: seq<Life>, exits: map<nat, int>, reaps: seq<Reap>, nextUid: nat, p: int, l: Life)
    requires Ledger(lives, exits, reaps, nextUid) && 0 <= p < |lives| && lives[p].Absent?
    requires l.Alive? && l.uid == nextUid
    ensures Ledger(lives[p := l], exits, reaps, nextUid + 1)
  {
    var lives' := lives[p := l];
    forall v | v in exits && !Reaped(reaps, v)
      ensures DeadIn(lives', v, exits[v])
    {
      var q :| 0 <= q < |lives| && lives[q].Dead? && lives[q].uid == v && lives[q].code == exits[v];
      assert lives'[q] == lives[q];
    }
  }

  // ---------------------------------------------------------------------------------------------
  // Every step keeps the ledger

  lemma BuriedLives(s: Sys, code: int)
    requires TableOk(s) && LifeOf(s.table[s.current]).Alive?
    ensures var s1 := Buried(s, code);
      && Lives(s1.table) == Lives(s.table)[s.current := Died(LifeOf(s.table[s.current]), code)]
      && s1.exits == s.exits[s.table[s.current].uid := code] && s1.reaps == s.reaps && s1.nextUid == s.nextUid
  {
  }

  lemma ExitKeepsLedger(s: Sys, code: int)
    requires Inv(s) && Ok(s) && LedgerInv(s) && s.enabled && s.table[s.current].pc == User
    ensures LedgerInv(Exit(s, code))
  {
    assert Lives(s.table)[s.current] == LifeOf(s.table[s.current]);
    DeathKeepsLedger(Lives(s.table), s.exits, s.reaps, s.nextUid, s.current, code);
    DeathKeepsKinship(Lives(s.table), s.reaps, s.current, code);
    BuriedLives(s, code);
    assert LedgerInv(Buried(s, code));
    ExitUnfolds(s, code);
    YieldSameLives(Buried(s, code));
  }

  lemma CollectedKeepsLedger(s: Sys, z: int)
    requires Inv(s) && Ok(s) && LedgerInv(s) && s.enabled
    requires 0 <= z < MAX_PROCS && Collectable(s.table, s.current, PID_INVALID, z)
    ensures LedgerInv(Collected(s, z))
  {
    var lives := Lives(s.table);
    assert lives[z] == LifeOf(s.table[z]) && lives[s.current] == LifeOf(s.table[s.current]);
    var child := s.table[z];
    var r := Reap(child.uid, child.exitCode, child.puid, s.table[s.current].uid);
    CollectionKeepsLedger(lives, s.exits, s.reaps, s.nextUid, z, r);
    CollectionKeepsKinship(lives, s.exits, s.reaps, s.nextUid, z, s.current);
    assert Lives(Collected(s, z).table) == lives[z := Absent];
  }

  lemma WaitKeepsLedger(s: Sys, target: int)
    requires Inv(s) && Ok(s) && LedgerInv(s) && s.enabled
    ensures LedgerInv(WaitTurn(s, target))
  {
    var self := s.current;
    var z := FirstZombie(s.table, self, target, 0);
    if z < |s.table| {
      CollectedKeepsLedger(s, z);
      CollectedKeeps(s, z);
      SwitchSameLives(Collected(s, z));
    } else {
      BlockSameLives(s, Waiting(s.table[self], target));
    }
  }

  lemma CreateKeepsLedger(s: Sys, prio: nat, memory: bool, ppid: int)
    requires Base(s) && Ok(s) && LedgerInv(s)
    requires 0 <= ppid < MAX_PROCS && (ppid == 0 || s.table[ppid].state != Unused)
    ensures var (s1, pid) := Create(s, prio, memory);
      if pid == 0 then LedgerInv(s1) else 0 < pid < |s1.table| && LedgerInv(Launch(s1, pid, ppid))
  {
    CreateKeeps(s, prio, memory, ppid);
    var (s1, pid) := Create(s, prio, memory);
    if pid != 0 {
      BornKeepsLedger(s, pid, prio, ppid);
    }
  }

  lemma BornKeepsLedger(s: Sys, pid: int, prio: nat, ppid: int)
    requires LedgerInv(s) && 0 < pid < |s.table| && s.table[pid].state == Unused
    requires 0 <= ppid < |s.table| && (ppid == 0 || s.table[ppid].state != Unused)
    ensures LedgerInv(Born(s, pid, prio, ppid))
  {
    var lives := Lives(s.table);
    assert lives[pid].Absent? && lives[ppid] == LifeOf(s.table[ppid]);
    BirthKeepsLedger(lives, s.exits, s.reaps, s.nextUid, pid, Alive(s.nextUid, ppid, s.table[ppid].uid));
    BirthKeepsKinship(lives, s.reaps, pid, s.nextUid, ppid);
    assert Lives(Born(s, pid, prio, ppid).table) == lives[pid := Alive(s.nextUid, ppid, s.table[ppid].uid)];
  }

  /** All steps but `proc_exec` on a ZOMBIE, which the code does not refuse. */
  predicate Proper(s: Sys, step: Step)
    requires Ok(s) && Enabled(s, step)
  {
    step.DoExec? ==> s.table[step.pid].state != Zombie
  }

  lemma StepKeepsLedger(s: Sys, step: Step)
    requires Inv(s) && Ok(s) && Enabled(s, step) && Proper(s, step) && LedgerInv(s)
    ensures LedgerInv(Next(s, step))
  {
    match step
    case DoSpawn(prio, memory) => CreateKeepsLedger(s, prio, memory, 0);
    case DoExit(code) => ExitKeepsLedger(s, code);
    case DoWait(target) => WaitKeepsLedger(s, target);
    case DoFork(memory) => ForkKeepsLedger(s, memory);
    case DoResume => ResumeKeepsLedger(s);
    case _ =>
      QuietStep(s, step);
      SameLivesKeepLedger(s, Next(s, step));
  }

  lemma SameLivesKeepLedger(s: Sys, s': Sys)
    requires LedgerInv(s) && SameLives(s, s')
    ensures LedgerInv(s')
  {
  }

  /** The other steps begin and end no life. */
  lemma QuietStep(s: Sys, step: Step)
    requires Inv(s) && Ok(s) && Enabled(s, step) && Proper(s, step)
    requires !step.DoSpawn? && !step.DoExit? && !step.DoWait? && !step.DoFork? && !step.DoResume?
    ensures SameLives(s, Next(s, step))
  {
    match step
    case DoStart => assert SameLives(s, Start(s));
    case DoTick => TickSameLives(s);
    case DoIoWake(p, interrupt) => IoWakeSameLives(s, p, interrupt);
    case DoSleep(n) => SleepSameLives(s, n);
    case DoBlockIo(lost) => BlockIoSameLives(s, lost);
    case DoExec(p) => ExecSameLives(s, p);
    case DoExecve => ExecveSameLives(s);
    case DoCall => SwitchSameLives(s);
    case _ =>
  }

  /** The restriction is exact: exec of a ZOMBIE brings back to life a process that has exited. */
  lemma LedgerKeptIffProper(s: Sys, step: Step)
    requires Inv(s) && Ok(s) && Enabled(s, step) && LedgerInv(s)
    ensures LedgerInv(Next(s, step)) <==> Proper(s, step)
  {
    if Proper(s, step) {
      StepKeepsLedger(s, step);
    } else {
      RestartBreaksLedger(s, step.pid);
    }
  }

  lemma RestartBreaksLedger(s: Sys, p: int)
    requires Inv(s) && Ok(s) && s.enabled && LedgerInv(s) && 0 < p < MAX_PROCS && s.table[p].state == Zombie
    ensures !LedgerInv(Exec(s, p))
  {
    ExecutedBase(s, p);
    SwitchSameLives(Restarted(s, p));
    var lives, lives' := Lives(s.table), Lives(Restarted(s, p).table);
    assert lives[p].Dead?;
    assert lives'[p] == Alive(s.table[p].uid, s.table[p].ppid, s.table[p].puid);
    assert lives' == lives[p := lives'[p]];
  }

  lemma IoWakeSameLives(s: Sys, p: int, interrupt: bool)
    requires Inv(s) && Ok(s) && 0 < p < MAX_PROCS
    ensures SameLives(s, IoWake(s, p, interrupt))
  {
    var s1 := s.(waiters := s.waiters - multiset{p});
    WakeSameLives(s1, p);
    SwitchSameLives(Wake(s1, p));
  }

  lemma BlockIoSameLives(s: Sys, lost: int)
    requires Inv(s) && Ok(s) && s.enabled
    ensures SameLives(s, BlockIo(s, lost))
  {
    BlockSameLives(s.(waiters := s.waiters - multiset{lost} + multiset{s.current}), InWaiterSlot(s.table[s.current]));
  }

  lemma SleepSameLives(s: Sys, n: int)
    requires Inv(s) && Ok(s) && s.enabled
    ensures SameLives(s, Sleep(s, n))
  {
    if n == 0 {
      SwitchSameLives(s);
    } else {
      BlockSameLives(s, SleepingUntil(s.table[s.current], WakeTick(s.ticks, n)));
    }
  }

  lemma ForkKeepsLedger(s: Sys, memory: bool)
    requires Inv(s) && Ok(s) && LedgerInv(s) && s.enabled
    ensures LedgerInv(Fork(s, memory))
  {
    assert PcbOk(s.table[s.current]);
    CreateKeeps(s, s.table[s.current].prio, memory, s.current);
    CreateKeepsLedger(s, s.table[s.current].prio, memory, s.current);
    var (s1, pid) := Create(s, s.table[s.current].prio, memory);
    var s2 := if pid == 0 then s1 else Launch(s1, pid, s.current);
    BaseIsOk(s2);
    SwitchSameLives(s2);
  }

  lemma ExecSameLives(s: Sys, p: int)
    requires Inv(s) && Ok(s) && s.enabled && 0 < p < MAX_PROCS && s.table[p].state != Zombie
    ensures SameLives(s, Exec(s, p))
  {
    if s.table[p].state == Unused || s.table[p].state == Running {
      SwitchSameLives(s);
    } else {
      ExecutedBase(s, p);
      assert SameLives(s, Restarted(s, p));
      SwitchSameLives(Restarted(s, p));
    }
  }

  lemma ExecveSameLives(s: Sys)
    requires Ok(s)
    ensures SameLives(s, Execve(s))
  {
  }

  lemma ResumeKeepsLedger(s: Sys)
    requires Inv(s) && Ok(s) && LedgerInv(s) && s.enabled && s.table[s.current].pc != User
    ensures LedgerInv(ResumeStep(s))
  {
    var me := s.table[s.current];
    var s1 := s.(table := s.table[s.current := me.(waiting := false, pc := User)]);
    assert SameLives(s, s1);
    ResumedInv(s);
    assert PcbOk(me);
    match me.pc
    case User =>
    case InWait(target) => WaitKeepsLedger(s1, target);
    case InSleep => SwitchSameLives(s1);
    case InIo =>
  }

  // ---------------------------------------------------------------------------------------------
  // Whole runs

  /** A run without exec of a ZOMBIE. */
  ghost predicate ProperRun(states: seq<Sys>, steps: seq<Step>) {
    SafeRun(states, steps) && forall k | 0 <= k < |steps| :: ProperAt(states, steps, k)
  }

  predicate ProperAt(states: seq<Sys>, steps: seq<Step>, k: int)
    requires 0 <= k < |steps| < |states|
  {
    Ok(states[k]) && Enabled(states[k], steps[k]) && Proper(states[k], steps[k])
  }

  lemma BootLedger(s: Sys)
    requires s == Boot()
    ensures LedgerInv(s)
  {
    assert forall p | 0 <= p < MAX_PROCS :: Lives(s.table)[p] == Absent;
  }

  lemma {:induction false} EveryRunKeepsLedger(states: seq<Sys>, steps: seq<Step>, i: nat)
    requires ProperRun(states, steps) && i < |states|
    ensures LedgerInv(states[i])
  {
    if i == 0 {
      BootLedger(states[i]);
    } else {
      EveryRunKeepsLedger(states, steps, i - 1);
      LedgerRunStep(states, steps, i);
    }
  }

  lemma LedgerRunStep(states: seq<Sys>, steps: seq<Step>, i: nat)
    requires ProperRun(states, steps) && 0 < i < |states| && LedgerInv(states[i - 1])
    ensures LedgerInv(states[i])
  {
    EveryRunIsSafe(states, steps, i - 1);
    assert Linked(states, steps, i - 1) && ProperAt(states, steps, i - 1);
    StepKeepsLedger(states[i - 1], steps[i - 1]);
  }

  /** In every run without exec of a ZOMBIE: a process that has exited either is still in the table
      with its code, or its code has been handed to exactly one wait, unchanged. */
  lemma ExitCodeDeliveredOnce(states: seq<Sys>, steps: seq<Step>, i: nat, uid: nat)
    requires ProperRun(states, steps) && i < |states| && uid in states[i].exits
    ensures var s := states[i];
      DeadIn(Lives(s.table), uid, s.exits[uid]) <==> !Reaped(s.reaps, uid)
    ensures forall j, k | 0 <= j < |states[i].reaps| && 0 <= k < |states[i].reaps| ::
      states[i].reaps[j].uid == uid && states[i].reaps[k].uid == uid ==> j == k
    ensures forall j | 0 <= j < |states[i].reaps| && states[i].reaps[j].uid == uid ::
      states[i].reaps[j].code == states[i].exits[uid]
  {
    EveryRunKeepsLedger(states, steps, i);
  }

  /** Who gets the code: the process that forked the child, if and only if that process had not been
      collected itself. Otherwise it is a stranger that has got the dead parent's PID. */
  lemma CodeGoesToForkerIff(states: seq<Sys>, steps: seq<Step>, i: nat, k: nat)
    requires ProperRun(states, steps) && i < |states| && k < |states[i].reaps|
    ensures var r := states[i].reaps[k];
      r.collector == r.parent <==> !Reaped(states[i].reaps[..k], r.parent)
  {
    EveryRunKeepsLedger(states, steps, i);
  }

  /** What exec of a ZOMBIE does: the first process exits with code 7, another one restarts it, and its code
      is neither with a dead process nor delivered. */
  lemma RestartedZombieLosesCode() returns (states: seq<Sys>, steps: seq<Step>)
    ensures SafeRun(states, steps)
    ensures var s := states[|steps|];
      s.exits == map[1 := 7] && !Reaped(s.reaps, 1) && forall code :: !DeadIn(Lives(s.table), 1, code)
  {
    states, steps := RunFirstExits(7);
    EveryRunIsSafe(states, steps, |steps|);
    var s := states[|steps|];
    RestartLosesDead(s, 7);
    SafeRunExtends(states, steps, DoExec(2));
    states, steps := states + [Exec(s, 2)], steps + [DoExec(2)];
  }

  lemma RestartLosesDead(s: Sys, code: int)
    requires Inv(s) && Ok(s) && FirstGone(s, code)
    ensures var s' := Exec(s, 2);
      s'.exits == s.exits && s'.reaps == [] && forall p | 0 <= p < |Lives(s'.table)| :: !Lives(s'.table)[p].Dead?
  {
    ExecutedBase(s, 2);
    SwitchSameLives(Restarted(s, 2));
    assert forall p | 0 <= p < MAX_PROCS :: !Lives(Restarted(s, 2).table)[p].Dead?;
  }
}
