/** A run in which an exit code goes to a stranger: the parent of a process dies and is collected, and its PID
    goes to a new process, which then waits. */
module Orphans {
  import opened ReadyQueue
  import opened Processes
  import opened ProcessInvariant
  import opened BootRuns
  import opened ExitWait

  // ---------------------------------------------------------------------------------------------
  // Scenes

  /** What a scene says of one process. */
  datatype Actor = Actor(state: State, pc: Resume, ppid: int, uid: nat, puid: nat, code: int)

  predicate Plays(p: Pcb, a: Actor) {
    p.prio == PRIO_NORMAL && Actor(p.state, p.pc, p.ppid, p.uid, p.puid, p.exitCode) == a
  }

  /** Beside the idle process, which is READY, there is exactly this cast. */
  ghost predicate Stage(s: Sys, queue: seq<int>, cast: map<int, Actor>) {
    && Ok(s) && s.enabled && !s.tickFlag && !s.restarted && s.queue == queue
    && s.table[IDLE].state == Ready && s.table[IDLE].prio == PRIO_IDLE
    && (forall p | p in cast :: 1 < p < MAX_PROCS && cast[p].state != Unused)
    && (forall p | 1 < p < MAX_PROCS :: if p in cast then Plays(s.table[p], cast[p]) else s.table[p].state == Unused)
  }

  ghost predicate Scene(s: Sys, queue: seq<int>, current: int, cast: map<int, Actor>) {
    Stage(s, queue, cast) && s.current == current && current in cast && cast[current].state == Running
  }

  /** The queue names the idle process, then x, then others of the cast. */
  predicate Line(queue: seq<int>, x: int, cast: map<int, Actor>) {
    && |queue| >= 2 && queue[0] == IDLE && queue[1] == x && x in cast && cast[x].state == Ready
    && forall j | 1 < j < |queue| :: queue[j] in cast
  }

  lemma YieldScene(s: Sys, queue: seq<int>, cast: map<int, Actor>, x: int)
    requires Stage(s, queue, cast) && s.current in cast && cast[s.current].state != Running && s.current !in queue
    requires Line(queue, x, cast)
    ensures var s' := Yield(s);
      Scene(s', queue, x, cast[x := cast[x].(state := Running)]) && s'.nextUid == s.nextUid && s'.reaps == s.reaps
  {
    YieldToSecond(s, x);
  }

  lemma ForkScene(s: Sys, queue: seq<int>, self: int, cast: map<int, Actor>, pid: int)
    requires Inv(s) && Scene(s, queue, self, cast) && cast[self].pc == User
    requires 1 < pid < MAX_PROCS && pid !in cast && forall p | 1 < p < pid :: p in cast
    ensures var s' := Fork(s, true);
      && Scene(s', queue + [pid], self, cast[pid := Actor(Ready, User, self, s.nextUid, cast[self].uid, 0)])
      && s'.nextUid == s.nextUid + 1 && s'.reaps == s.reaps
  {
    CreateKeeps(s, PRIO_NORMAL, true, self);
    CreateIs(s, PRIO_NORMAL, true);
    assert IDLE in s.pids;
    assert PidSearch(s.pids, s.hint) == pid;
    BaseIsOk(Born(s, pid, PRIO_NORMAL, self));
  }

  /** The current process waits for any child, none of which is dead. */
  lemma WaitScene(s: Sys, queue: seq<int>, self: int, cast: map<int, Actor>, queue': seq<int>, x: int)
    requires Inv(s) && Scene(s, queue, self, cast) && cast[self].pc == User
    requires forall c | c in cast :: !(cast[c].state == Zombie && cast[c].ppid == self)
    requires queue' == SwapRemove(queue, self) && Line(queue', x, cast) && x != self
    ensures var s' := WaitTurn(s, PID_INVALID);
      && Scene(s', queue', x, cast[self := cast[self].(state := Blocked, pc := InWait(PID_INVALID))]
                                  [x := cast[x].(state := Running)])
      && s'.nextUid == s.nextUid && s'.reaps == s.reaps
  {
    var z := FirstZombie(s.table, self, PID_INVALID, 0);
    assert z < MAX_PROCS ==> z in cast;
    SwapRemoveRemoves(queue, self);
    var s1 := Dequeue(s.(table := s.table[self := Waiting(s.table[self], PID_INVALID)]), self);
    YieldScene(s1, queue', cast[self := cast[self].(state := Blocked, pc := InWait(PID_INVALID))], x);
  }

  lemma UpdateTwice(cast: map<int, Actor>, p: int, a: Actor, b: Actor)
    ensures cast[p := a][p := b] == cast[p := b]
  {
  }

  lemma BuriedIs(s: Sys, code: int, parent: int)
    requires Inv(s) && Ok(s) && s.enabled && s.table[s.current].ppid == parent && 0 < parent < MAX_PROCS
    requires s.table[parent].state == Blocked && s.table[parent].pc == InWait(PID_INVALID)
    ensures var woken := s.table[parent := s.table[parent].(wakeup := 0, state := Ready)];
      Buried(s, code) == s.(table := woken[s.current := woken[s.current].(exitCode := code, state := Zombie)],
                            queue := SwapRemove(s.queue + [parent], s.current),
                            exits := s.exits[s.table[s.current].uid := code])
  {
    assert PcbOk(s.table[parent]);
    QueueNeverFull(s);
  }

  lemma BurialScene(s: Sys, queue: seq<int>, self: int, cast: map<int, Actor>, code: int, parent: int)
    requires Inv(s) && Scene(s, queue, self, cast) && cast[self].ppid == parent && parent in cast
    requires cast[parent].state == Blocked && cast[parent].pc == InWait(PID_INVALID)
    ensures var s1 := Buried(s, code);
      && Stage(s1, SwapRemove(queue + [parent], self),
               cast[self := cast[self].(state := Zombie, code := code)][parent := cast[parent].(state := Ready)])
      && s1.current == self && s1.nextUid == s.nextUid && s1.reaps == s.reaps
  {
    BuriedIs(s, code, parent);
    BuriedIsOk(s, code);
  }

  /** The current process exits and wakes its waiting parent. */
  lemma ExitScene(s: Sys, queue: seq<int>, self: int, cast: map<int, Actor>, code: int, queue': seq<int>, parent: int)
    requires Inv(s) && Scene(s, queue, self, cast) && cast[self].pc == User
    requires cast[self].ppid == parent && parent in cast
    requires cast[parent].state == Blocked && cast[parent].pc == InWait(PID_INVALID)
    requires queue' == SwapRemove(queue + [parent], self)
      && Line(queue', parent, cast[parent := cast[parent].(state := Ready)])
    ensures var s' := Exit(s, code);
      && Scene(s', queue', parent, cast[self := cast[self].(state := Zombie, code := code)]
                                       [parent := cast[parent].(state := Running)])
      && s'.nextUid == s.nextUid && s'.reaps == s.reaps
  {
    var dead := cast[self := cast[self].(state := Zombie, code := code)];
    BurialScene(s, queue, self, cast, code, parent);
    ExitUnfolds(s, code);
    assert parent !in s.queue;
    SwapRemoveRemoves(queue + [parent], self);
    YieldScene(Buried(s, code), queue', dead[parent := cast[parent].(state := Ready)], parent);
    UpdateTwice(dead, parent, cast[parent].(state := Ready), cast[parent].(state := Running));
  }

  /** Back in its wait, the current process finds the one dead child. */
  lemma CollectScene(s: Sys, queue: seq<int>, self: int, cast: map<int, Actor>, z: int)
    requires Inv(s) && Scene(s, queue, self, cast) && cast[self].pc == InWait(PID_INVALID)
    requires z in cast && forall c | c in cast :: cast[c].state == Zombie && cast[c].ppid == self <==> c == z
    ensures var s' := ResumeStep(s);
      && Scene(s', queue, self, (cast - {z})[self := cast[self].(pc := User)])
      && s'.nextUid == s.nextUid
      && s'.reaps == s.reaps + [Reap(cast[z].uid, cast[z].code, cast[z].puid, cast[self].uid)]
  {
    var s1 := s.(table := s.table[self := s.table[self].(waiting := false, pc := User)]);
    assert Collectable(s1.table, self, PID_INVALID, z);
    assert FirstZombie(s1.table, self, PID_INVALID, 0) == z;
  }

  // ---------------------------------------------------------------------------------------------
  // Runs through scenes

  /** A run without exec that ends in this scene, with these codes collected. */
  ghost predicate Ends(states: seq<Sys>, steps: seq<Step>, queue: seq<int>, self: int, cast: map<int, Actor>,
                       nextUid: nat, reaps: seq<Reap>) {
    && ProperRun(states, steps)
    && Scene(states[|steps|], queue, self, cast)
    && states[|steps|].nextUid == nextUid && states[|steps|].reaps == reaps
  }

  lemma ProperRunExtends(states: seq<Sys>, steps: seq<Step>, step: Step)
    requires ProperRun(states, steps) && Ok(states[|steps|]) && Enabled(states[|steps|], step)
    requires !states[|steps|].restarted && !step.DoExec?
    ensures ProperRun(states + [Next(states[|steps|], step)], steps + [step])
  {
    SafeRunExtends(states, steps, step);
    var states', steps' := states + [Next(states[|steps|], step)], steps + [step];
    forall k | 0 <= k < |steps'|
      ensures ProperAt(states', steps', k)
    {
      assert k < |steps| ==> ProperAt(states, steps, k);
    }
  }

  lemma EndsExtends(states: seq<Sys>, steps: seq<Step>, step: Step, s': Sys, queue: seq<int>, self: int,
                    cast: map<int, Actor>, nextUid: nat, reaps: seq<Reap>)
      returns (states': seq<Sys>, steps': seq<Step>)
    requires ProperRun(states, steps) && Ok(states[|steps|]) && Enabled(states[|steps|], step)
    requires !states[|steps|].restarted && !step.DoExec? && s' == Next(states[|steps|], step)
    requires Scene(s', queue, self, cast) && s'.nextUid == nextUid && s'.reaps == reaps
    ensures Ends(states', steps', queue, self, cast, nextUid, reaps)
  {
    ProperRunExtends(states, steps, step);
    states', steps' := states + [s'], steps + [step];
  }

  lemma RunFork(states: seq<Sys>, steps: seq<Step>, queue: seq<int>, self: int, cast: map<int, Actor>, nextUid: nat,
                reaps: seq<Reap>, pid: int, cast': map<int, Actor>)
      returns (states': seq<Sys>, steps': seq<Step>)
    requires Ends(states, steps, queue, self, cast, nextUid, reaps) && cast[self].pc == User
    requires 1 < pid < MAX_PROCS && pid !in cast && forall p | 1 < p < pid :: p in cast
    requires cast' == cast[pid := Actor(Ready, User, self, nextUid, cast[self].uid, 0)]
    ensures Ends(states', steps', queue + [pid], self, cast', nextUid + 1, reaps)
  {
    EveryRunIsSafe(states, steps, |steps|);
    var s := states[|steps|];
    ForkScene(s, queue, self, cast, pid);
    states', steps' := EndsExtends(
      states, steps, DoFork(true), Fork(s, true), queue + [pid], self, cast', nextUid + 1, reaps);
  }

  lemma RunWait(states: seq<Sys>, steps: seq<Step>, queue: seq<int>, self: int, cast: map<int, Actor>, nextUid: nat,
                reaps: seq<Reap>, queue': seq<int>, x: int, cast': map<int, Actor>)
      returns (states': seq<Sys>, steps': seq<Step>)
    requires Ends(states, steps, queue, self, cast, nextUid, reaps) && cast[self].pc == User
    requires forall c | c in cast :: !(cast[c].state == Zombie && cast[c].ppid == self)
    requires queue' == SwapRemove(queue, self) && Line(queue', x, cast) && x != self
    requires cast' == cast[self := cast[self].(state := Blocked, pc := InWait(PID_INVALID))]
                          [x := cast[x].(state := Running)]
    ensures Ends(states', steps', queue', x, cast', nextUid, reaps)
  {
    EveryRunIsSafe(states, steps, |steps|);
    var s := states[|steps|];
    WaitScene(s, queue, self, cast, queue', x);
    states', steps' := EndsExtends(
      states, steps, DoWait(PID_INVALID), WaitTurn(s, PID_INVALID), queue', x, cast', nextUid, reaps);
  }

  lemma RunExit(states: seq<Sys>, steps: seq<Step>, queue: seq<int>, self: int, cast: map<int, Actor>, nextUid: nat,
                reaps: seq<Reap>, code: int, queue': seq<int>, parent: int, cast': map<int, Actor>)
      returns (states': seq<Sys>, steps': seq<Step>)
    requires Ends(states, steps, queue, self, cast, nextUid, reaps) && cast[self].pc == User
    requires cast[self].ppid == parent && parent in cast
    requires cast[parent].state == Blocked && cast[parent].pc == InWait(PID_INVALID)
    requires queue' == SwapRemove(queue + [parent], self)
      && Line(queue', parent, cast[parent := cast[parent].(state := Ready)])
    requires cast' == cast[self := cast[self].(state := Zombie, code := code)]
                          [parent := cast[parent].(state := Running)]
    ensures Ends(states', steps', queue', parent, cast', nextUid, reaps)
  {
    EveryRunIsSafe(states, steps, |steps|);
    var s := states[|steps|];
    ExitScene(s, queue, self, cast, code, queue', parent);
    states', steps' := EndsExtends(states, steps, DoExit(code), Exit(s, code), queue', parent, cast', nextUid, reaps);
  }

  lemma RunCollect(states: seq<Sys>, steps: seq<Step>, queue: seq<int>, self: int, cast: map<int, Actor>, nextUid: nat,
                   reaps: seq<Reap>, z: int, cast': map<int, Actor>)
      returns (states': seq<Sys>, steps': seq<Step>)
    requires Ends(states, steps, queue, self, cast, nextUid, reaps) && cast[self].pc == InWait(PID_INVALID)
    requires z in cast && forall c | c in cast :: cast[c].state == Zombie && cast[c].ppid == self <==> c == z
    requires cast' == (cast - {z})[self := cast[self].(pc := User)]
    ensures Ends(states', steps', queue, self, cast', nextUid,
                 reaps + [Reap(cast[z].uid, cast[z].code, cast[z].puid, cast[self].uid)])
  {
    EveryRunIsSafe(states, steps, |steps|);
    var s := states[|steps|];
    CollectScene(s, queue, self, cast, z);
    var reaps' := reaps + [Reap(cast[z].uid, cast[z].code, cast[z].puid, cast[self].uid)];
    states', steps' := EndsExtends(states, steps, DoResume, ResumeStep(s), queue, self, cast', nextUid, reaps');
  }

  lemma SwapRemoveAt(q: seq<int>, p: int, i: int)
    requires 0 <= i < |q| && q[i] == p && forall j | 0 <= j < i :: q[j] != p
    ensures SwapRemove(q, p) == q[i := q[|q| - 1]][..|q| - 1]
  {
    assert p in q[..i + 1];
  }

  // ---------------------------------------------------------------------------------------------
  // The run

  const IN_WAIT: Resume := InWait(PID_INVALID)

  /** Process 2 of the run, from its creation at boot on. */
  function A(state: State, pc: Resume): Actor {
    Actor(state, pc, 0, 1, 0, 0)
  }

  /** Its first child, the first process with PID 3. */
  function B(state: State, code: int): Actor {
    Actor(state, User, 2, 2, 1, code)
  }

  /** The child of that child, process 4. */
  function C(state: State, code: int): Actor {
    Actor(state, User, 3, 3, 2, code)
  }

  /** The second child of process 2, and the second process with PID 3. */
  function D(state: State, pc: Resume): Actor {
    Actor(state, pc, 2, 4, 1, 0)
  }

  lemma FirstScene() returns (states: seq<Sys>, steps: seq<Step>)
    ensures Ends(states, steps, [1, 2], 2, map[2 := A(Running, User)], 2, [])
  {
    states, steps := BootStarted(2);
    EveryRunIsSafe(states, steps, |steps|);
    StartedParts(states[|steps|], 2);
    forall k | 0 <= k < |steps|
      ensures ProperAt(states, steps, k)
    {
      assert Linked(states, steps, k);
    }
  }

  /** Process 2 forks a child and waits, and the child forks a child of its own. */
  lemma GrandchildForked() returns (states: seq<Sys>, steps: seq<Step>)
    ensures Ends(states, steps, [1, 3, 4], 3,
                 map[2 := A(Blocked, IN_WAIT), 3 := B(Running, 0), 4 := C(Ready, 0)], 4, [])
  {
    states, steps := FirstScene();
    var cast := map[2 := A(Running, User)];
    var cast1 := map[2 := A(Running, User), 3 := B(Ready, 0)];
    states, steps := RunFork(states, steps, [1, 2], 2, cast, 2, [], 3, cast1);
    SwapRemoveAt([1, 2, 3], 2, 1);
    var cast2 := map[2 := A(Blocked, IN_WAIT), 3 := B(Running, 0)];
    states, steps := RunWait(states, steps, [1, 2, 3], 2, cast1, 3, [], [1, 3], 3, cast2);
    var cast3 := map[2 := A(Blocked, IN_WAIT), 3 := B(Running, 0), 4 := C(Ready, 0)];
    states, steps := RunFork(states, steps, [1, 3], 3, cast2, 3, [], 4, cast3);
  }

  /** The child exits. */
  lemma ParentExits() returns (states: seq<Sys>, steps: seq<Step>)
    ensures Ends(states, steps, [1, 2, 4], 2,
                 map[2 := A(Running, IN_WAIT), 3 := B(Zombie, 7), 4 := C(Ready, 0)], 4, [])
  {
    states, steps := GrandchildForked();
    var cast := map[2 := A(Blocked, IN_WAIT), 3 := B(Running, 0), 4 := C(Ready, 0)];
    assert [1, 3, 4] + [2] == [1, 3, 4, 2];
    SwapRemoveAt([1, 3, 4, 2], 3, 1);
    var cast1 := map[2 := A(Running, IN_WAIT), 3 := B(Zombie, 7), 4 := C(Ready, 0)];
    states, steps := RunExit(states, steps, [1, 3, 4], 3, cast, 4, [], 7, [1, 2, 4], 2, cast1);
  }

  /** Process 2 collects the child, forks another, which gets the same PID, and waits for it. */
  lemma PidReused() returns (states: seq<Sys>, steps: seq<Step>)
    ensures Ends(states, steps, [1, 3, 4], 3,
                 map[2 := A(Blocked, IN_WAIT), 3 := D(Running, User), 4 := C(Ready, 0)], 5, [Reap(2, 7, 1, 1)])
  {
    states, steps := ParentExits();
    var cast := map[2 := A(Running, IN_WAIT), 3 := B(Zombie, 7), 4 := C(Ready, 0)];
    var cast1 := map[2 := A(Running, User), 4 := C(Ready, 0)];
    states, steps := RunCollect(states, steps, [1, 2, 4], 2, cast, 4, [], 3, cast1);
    var reaps := [Reap(2, 7, 1, 1)];
    var cast2 := map[2 := A(Running, User), 3 := D(Ready, User), 4 := C(Ready, 0)];
    states, steps := RunFork(states, steps, [1, 2, 4], 2, cast1, 4, reaps, 3, cast2);
    SwapRemoveAt([1, 2, 4, 3], 2, 1);
    var cast3 := map[2 := A(Blocked, IN_WAIT), 3 := D(Running, User), 4 := C(Ready, 0)];
    states, steps := RunWait(states, steps, [1, 2, 4, 3], 2, cast2, 5, reaps, [1, 3, 4], 3, cast3);
  }

  /** The stranger waits too, and collects the code of process 4, which it has not forked. */
  lemma CodeGoesToStranger() returns (states: seq<Sys>, steps: seq<Step>)
    ensures ProperRun(states, steps)
    ensures var reaps := states[|steps|].reaps;
      && |reaps| == 2 && reaps[1].code == 9
      && reaps[1].collector != reaps[1].parent && Reaped(reaps[..1], reaps[1].parent)
  {
    states, steps := PidReused();
    var reaps := [Reap(2, 7, 1, 1)];
    var cast := map[2 := A(Blocked, IN_WAIT), 3 := D(Running, User), 4 := C(Ready, 0)];
    SwapRemoveAt([1, 3, 4], 3, 1);
    var cast1 := map[2 := A(Blocked, IN_WAIT), 3 := D(Blocked, IN_WAIT), 4 := C(Running, 0)];
    states, steps := RunWait(states, steps, [1, 3, 4], 3, cast, 5, reaps, [1, 4], 4, cast1);
    assert [1, 4] + [3] == [1, 4, 3];
    SwapRemoveAt([1, 4, 3], 4, 1);
    var cast2 := map[2 := A(Blocked, IN_WAIT), 3 := D(Running, IN_WAIT), 4 := C(Zombie, 9)];
    states, steps := RunExit(states, steps, [1, 4], 4, cast1, 5, reaps, 9, [1, 3], 3, cast2);
    var cast3 := map[2 := A(Blocked, IN_WAIT), 3 := D(Running, User)];
    states, steps := RunCollect(states, steps, [1, 3], 3, cast2, 5, reaps, 4, cast3);
    assert states[|steps|].reaps[0] == reaps[0];
  }
}
