/** Readers and writers on one pipe, in every interleaving.

    A step is one turn of a read or write loop, the start of a call, or the closing of an end. The
    kernel runs several turns without interruption; letting other processes in between them allows more
    interleavings than the kernel has. A sleeper is woken only through the waiter slots:
    `Blocking.StepLeavesSleeper` shows that exiting children leave it alone and
    `Blocking.TickWakesExactlyDue` that timers do; restarting a sleeper with exec is not part of these
    runs. */
module PipeProtocol {
  import opened Bytes
  import opened Pipes

  datatype Act = Reading(want: nat, got: seq<byte>) | Writing(data: seq<byte>, sent: nat, slept: bool)

  /** A process inside a read or write call. */
  datatype Task = Task(act: Act, asleep: bool)

  /** `accepted` and `delivered` record all bytes that ever went in and came out, in order, `authors` which
      process each accepted byte came from, and `takers` which process each delivered byte went to. */
  datatype Net = Net(pipe: Pipe, tasks: map<int, Task>,
                     accepted: seq<byte>, authors: seq<int>, delivered: seq<byte>, takers: seq<int>)

  datatype Step =
    | BeginRead(pid: int, len: nat)
    | BeginWrite(pid: int, data: seq<byte>)
    | Turn(pid: int)
    | CloseReadEnd
    | CloseWriteEnd

  predicate Readers(n: Net) { exists p :: p in n.tasks && n.tasks[p].act.Reading? }
  predicate Writers(n: Net) { exists p :: p in n.tasks && n.tasks[p].act.Writing? }

  /** A call needs an open end, and a call in progress keeps its own end open. */
  predicate Enabled(n: Net, step: Step) {
    match step
    case BeginRead(p, _) => p !in n.tasks && p != NO_WAITER && n.pipe.readers > 0
    case BeginWrite(p, _) => p !in n.tasks && p != NO_WAITER && n.pipe.writers > 0
    case Turn(p) => p in n.tasks && !n.tasks[p].asleep
    case CloseReadEnd => n.pipe.readers > 0 && (n.pipe.readers == 1 ==> !Readers(n))
    case CloseWriteEnd => n.pipe.writers > 0 && (n.pipe.writers == 1 ==> !Writers(n))
  }

  function WakeTask(tasks: map<int, Task>, p: int): map<int, Task> {
    if p in tasks then tasks[p := tasks[p].(asleep := false)] else tasks
  }

  function DoRead(n: Net, p: int): Net
    requires p in n.tasks && n.tasks[p].act.Reading?
  {
    var t := n.tasks[p].act;
    if |t.got| >= t.want then n.(tasks := n.tasks - {p})
    else
      var (pipe, outcome) := ReadTurn(n.pipe, p, t.want - |t.got|);
      match outcome
      case Eof => n.(pipe := pipe, tasks := n.tasks - {p})
      case ReadBlocks => n.(pipe := pipe, tasks := n.tasks[p := Task(t, true)])
      case Got(data, wake) =>
        Net(pipe, WakeTask(n.tasks[p := Task(Reading(t.want, t.got + data), false)], wake),
            n.accepted, n.authors, n.delivered + data, n.takers + seq(|data|, _ => p))
  }

  function DoWrite(n: Net, p: int): Net
    requires p in n.tasks && n.tasks[p].act.Writing? && |n.pipe.buf| <= BUFSZ
  {
    var t := n.tasks[p].act;
    if t.sent >= |t.data| then n.(tasks := n.tasks - {p})
    else
      var (pipe, outcome) := WriteTurn(n.pipe, p, t.data[t.sent..], t.slept);
      match outcome
      case Broken => n.(pipe := pipe, tasks := n.tasks - {p})
      case WriteBlocks => n.(pipe := pipe, tasks := n.tasks[p := Task(t.(slept := true), true)])
      case Put(k, wake) =>
        Net(pipe, WakeTask(n.tasks[p := Task(Writing(t.data, t.sent + k, false), false)], wake),
            n.accepted + t.data[t.sent..][..k], n.authors + seq(k, _ => p), n.delivered, n.takers)
  }

  function Next(n: Net, step: Step): Net
    requires |n.pipe.buf| <= BUFSZ && Enabled(n, step)
  {
    match step
    case BeginRead(p, len) => n.(tasks := n.tasks[p := Task(Reading(len, []), false)])
    case BeginWrite(p, data) => n.(tasks := n.tasks[p := Task(Writing(data, 0, false), false)])
    case Turn(p) => if n.tasks[p].act.Reading? then DoRead(n, p) else DoWrite(n, p)
    case CloseReadEnd =>
      var (pipe, wake) := CloseRead(n.pipe);
      n.(pipe := pipe, tasks := WakeTask(n.tasks, wake))
    case CloseWriteEnd =>
      var (pipe, wake) := CloseWrite(n.pipe);
      n.(pipe := pipe, tasks := WakeTask(n.tasks, wake))
  }

  // ---------------------------------------------------------------------------------------------
  // First in, first out

  /** What was delivered, followed by what is buffered, is what was accepted. */
  predicate Fifo(n: Net) {
    n.accepted == n.delivered + n.pipe.buf && |n.pipe.buf| <= BUFSZ
  }

  lemma StepKeepsFifo(n: Net, step: Step)
    requires Fifo(n) && Enabled(n, step)
    ensures Fifo(Next(n, step))
  {
  }

  // ---------------------------------------------------------------------------------------------
  // Sleepers

  /** A reader sleeps only while there is nothing to read and a writer could still come, a writer only
      while there is no room and a reader could still come; and each is in its slot. */
  predicate SleeperOk(n: Net, p: int)
    requires p in n.tasks
  {
    var t := n.tasks[p];
    t.asleep ==>
      if t.act.Reading? then n.pipe.buf == [] && n.pipe.writers > 0 && n.pipe.blockedReader == p
      else |n.pipe.buf| == BUFSZ && n.pipe.readers > 0 && n.pipe.blockedWriter == p && t.act.slept
  }

  /** A slot is empty or names a sleeper on its end. */
  predicate SlotsOk(n: Net) {
    var r, w := n.pipe.blockedReader, n.pipe.blockedWriter;
    && (r != NO_WAITER ==> r in n.tasks && n.tasks[r].asleep && n.tasks[r].act.Reading?)
    && (w != NO_WAITER ==> w in n.tasks && n.tasks[w].asleep && n.tasks[w].act.Writing?)
  }

  /** A process inside a call keeps its end open. */
  predicate CallersOpen(n: Net) {
    forall p | p in n.tasks :: if n.tasks[p].act.Reading? then n.pipe.readers > 0 else n.pipe.writers > 0
  }

  ghost predicate Inv(n: Net) {
    && |n.pipe.buf| <= BUFSZ && NO_WAITER !in n.tasks && SlotsOk(n)
    && (forall p | p in n.tasks :: SleeperOk(n, p))
    && CallersOpen(n)
  }

  /** The step puts a process to sleep on an end whose only slot is taken by another sleeper. */
  predicate Crowds(n: Net, step: Step)
    requires Enabled(n, step)
  {
    step.Turn? &&
    var t := n.tasks[step.pid].act;
    if t.Reading? then |t.got| < t.want && n.pipe.buf == [] && n.pipe.writers > 0 && n.pipe.blockedReader != NO_WAITER
    else t.sent < |t.data| && |n.pipe.buf| == BUFSZ && n.pipe.readers > 0 && n.pipe.blockedWriter != NO_WAITER
  }

  lemma ReadKeepsInv(n: Net, p: int)
    requires Inv(n) && Enabled(n, Turn(p)) && n.tasks[p].act.Reading? && !Crowds(n, Turn(p))
    ensures Inv(DoRead(n, p))
  {
  }

  lemma WriteKeepsInv(n: Net, p: int)
    requires Inv(n) && Enabled(n, Turn(p)) && n.tasks[p].act.Writing? && !Crowds(n, Turn(p))
    ensures Inv(DoWrite(n, p))
  {
  }

  lemma CloseKeepsInv(n: Net, step: Step)
    requires Inv(n) && Enabled(n, step) && (step.CloseReadEnd? || step.CloseWriteEnd?)
    ensures Inv(Next(n, step))
  {
  }

  /** The sleepers' promise survives a step if and only if the step does not crowd a slot. */
  lemma InvKeptIffNotCrowded(n: Net, step: Step)
    requires Inv(n) && Enabled(n, step)
    ensures Inv(Next(n, step)) <==> !Crowds(n, step)
  {
    match step
    case BeginRead(p, len) => BeginKeepsInv(n, step);
    case BeginWrite(p, data) => BeginKeepsInv(n, step);
    case Turn(p) =>
      if Crowds(n, step) {
        var q := if n.tasks[p].act.Reading? then n.pipe.blockedReader else n.pipe.blockedWriter;
        var n' := Next(n, step);
        assert q in n.tasks && q != p && n'.tasks[q] == n.tasks[q];
        assert !SleeperOk(n', q);
      } else if n.tasks[p].act.Reading? {
        ReadKeepsInv(n, p);
      } else {
        WriteKeepsInv(n, p);
      }
    case CloseReadEnd => CloseKeepsInv(n, step);
    case CloseWriteEnd => CloseKeepsInv(n, step);
  }

  lemma BeginKeepsInv(n: Net, step: Step)
    requires Inv(n) && Enabled(n, step) && (step.BeginRead? || step.BeginWrite?)
    ensures Inv(Next(n, step))
  {
  }

  // ---------------------------------------------------------------------------------------------
  // Whole runs

  const START := Net(FRESH, map[], [], [], [], [])

  predicate Linked(states: seq<Net>, steps: seq<Step>, i: int)
    requires 0 <= i < |steps| < |states|
  {
    |states[i].pipe.buf| <= BUFSZ && Enabled(states[i], steps[i]) && states[i + 1] == Next(states[i], steps[i])
  }

  ghost predicate IsRun(states: seq<Net>, steps: seq<Step>) {
    |states| == |steps| + 1 && states[0] == START && forall i | 0 <= i < |steps| :: Linked(states, steps, i)
  }

  /** In every run the ring refines an unbounded queue that never holds more than 4096 bytes. */
  lemma {:induction false} EveryRunIsFifo(states: seq<Net>, steps: seq<Step>, i: nat)
    requires IsRun(states, steps) && i < |states|
    ensures Fifo(states[i])
  {
    if i == 0 {
    } else {
      EveryRunIsFifo(states, steps, i - 1);
      assert Linked(states, steps, i - 1);
      StepKeepsFifo(states[i - 1], steps[i - 1]);
    }
  }

  lemma {:induction false} EveryRunKeepsInv(states: seq<Net>, steps: seq<Step>, i: nat)
    requires IsRun(states, steps) && i < |states|
    requires forall k | 0 <= k < i :: Enabled(states[k], steps[k]) && !Crowds(states[k], steps[k])
    ensures Inv(states[i])
  {
    if i == 0 {
    } else {
      EveryRunKeepsInv(states, steps, i - 1);
      assert Linked(states, steps, i - 1);
      InvKeptIffNotCrowded(states[i - 1], steps[i - 1]);
    }
  }

  /** A run in which no step has put a second sleeper on one end, up to state i. */
  ghost predicate Uncrowded(states: seq<Net>, steps: seq<Step>, i: nat) {
    IsRun(states, steps) && i < |states|
    && forall k | 0 <= k < i :: Enabled(states[k], steps[k]) && !Crowds(states[k], steps[k])
  }

  /** No lost wake-up: in every run with at most one sleeper per end, a reader sleeps only on an empty pipe
      that can still be written, a writer only on a full pipe that can still be read, whatever anybody else
      is doing; and the PID of the sleeper is in the slot through which it will be woken. */
  lemma SleeperJustified(states: seq<Net>, steps: seq<Step>, i: nat, p: int)
    requires Uncrowded(states, steps, i) && p in states[i].tasks && states[i].tasks[p].asleep
    ensures var n := states[i];
      if n.tasks[p].act.Reading? then n.pipe.buf == [] && n.pipe.writers > 0 && n.pipe.blockedReader == p
      else |n.pipe.buf| == BUFSZ && n.pipe.readers > 0 && n.pipe.blockedWriter == p
  {
    EveryRunKeepsInv(states, steps, i);
    assert SleeperOk(states[i], p);
  }

  /** No deadlock: a reader and a writer are never asleep together. */
  lemma NeverBothAsleep(states: seq<Net>, steps: seq<Step>, i: nat, r: int, w: int)
    requires Uncrowded(states, steps, i) && r in states[i].tasks && w in states[i].tasks
    requires states[i].tasks[r].act.Reading? && states[i].tasks[w].act.Writing?
    ensures !(states[i].tasks[r].asleep && states[i].tasks[w].asleep)
  {
    if states[i].tasks[r].asleep {
      SleeperJustified(states, steps, i, r);
    }
    if states[i].tasks[w].asleep {
      SleeperJustified(states, steps, i, w);
    }
  }

  /** The step ends process p's read with fewer bytes than it wanted. */
  predicate ShortRead(n: Net, step: Step)
    requires |n.pipe.buf| <= BUFSZ && Enabled(n, step)
  {
    && step.Turn? && n.tasks[step.pid].act.Reading?
    && |n.tasks[step.pid].act.got| < n.tasks[step.pid].act.want && step.pid !in Next(n, step).tasks
  }

  lemma StepKeepsCallersOpen(n: Net, step: Step)
    requires |n.pipe.buf| <= BUFSZ && CallersOpen(n) && Enabled(n, step)
    ensures CallersOpen(Next(n, step))
  {
  }

  lemma {:induction false} EveryCallerIsOpen(states: seq<Net>, steps: seq<Step>, i: nat)
    requires IsRun(states, steps) && i < |states|
    ensures CallersOpen(states[i])
  {
    if i == 0 {
    } else {
      EveryCallerIsOpen(states, steps, i - 1);
      assert Linked(states, steps, i - 1);
      StepKeepsCallersOpen(states[i - 1], steps[i - 1]);
    }
  }

  lemma WritersGoneForGood(n: Net, step: Step)
    requires |n.pipe.buf| <= BUFSZ && CallersOpen(n) && Enabled(n, step) && n.pipe.writers == 0
    ensures Next(n, step).pipe.writers == 0 && Next(n, step).accepted == n.accepted
  {
  }

  lemma {:induction false} NothingMoreAccepted(states: seq<Net>, steps: seq<Step>, i: nat, j: nat)
    requires IsRun(states, steps) && i <= j < |states| && states[i].pipe.writers == 0
    ensures states[j].pipe.writers == 0 && states[j].accepted == states[i].accepted
  {
    if i == j {
    } else {
      NothingMoreAccepted(states, steps, i, j - 1);
      EveryCallerIsOpen(states, steps, j - 1);
      assert Linked(states, steps, j - 1);
      WritersGoneForGood(states[j - 1], steps[j - 1]);
    }
  }

  /** In every run, crowded or not, a read comes back short only at the end of the stream: the buffer is
      drained, every writer has closed, and every byte that will ever be accepted has been delivered. */
  lemma ShortReadOnlyAtEnd(states: seq<Net>, steps: seq<Step>, i: nat, j: nat)
    requires IsRun(states, steps) && i < |steps| && i <= j < |states|
    requires |states[i].pipe.buf| <= BUFSZ && Enabled(states[i], steps[i]) && ShortRead(states[i], steps[i])
    ensures states[i].pipe.buf == [] && states[i].pipe.writers == 0
    ensures states[i].delivered == states[j].accepted
  {
    EveryRunIsFifo(states, steps, i);
    NothingMoreAccepted(states, steps, i, j);
  }

  /** A write fails only when no reader is left. */
  lemma WriteFailsOnlyWhenBroken(n: Net, p: int)
    requires |n.pipe.buf| <= BUFSZ && p in n.tasks && n.tasks[p].act.Writing?
    requires n.tasks[p].act.sent < |n.tasks[p].act.data| && p !in DoWrite(n, p).tasks
    ensures n.pipe.readers == 0
  {
  }

  // ---------------------------------------------------------------------------------------------
  // What a write has had accepted

  /** The bytes that came from p, in order. */
  function Share(bytes: seq<byte>, authors: seq<int>, p: int): seq<byte>
    requires |bytes| == |authors|
  {
    if bytes == [] then []
    else
      var k := |bytes| - 1;
      Share(bytes[..k], authors[..k], p) + if authors[k] == p then [bytes[k]] else []
  }

  lemma {:induction false} ShareAppends(bytes: seq<byte>, authors: seq<int>, more: seq<byte>, q: int, p: int)
    requires |bytes| == |authors|
    ensures Share(bytes + more, authors + seq(|more|, _ => q), p)
            == Share(bytes, authors, p) + if p == q then more else []
    decreases |more|
  {
    var all, who := bytes + more, authors + seq(|more|, _ => q);
    if more == [] {
      assert all == bytes && who == authors;
    } else {
      var k := |more| - 1;
      ShareAppends(bytes, authors, more[..k], q, p);
      assert all[..|all| - 1] == bytes + more[..k] && who[..|all| - 1] == authors + seq(k, _ => q);
      assert who[|all| - 1] == q && all[|all| - 1] == more[k] && more[..k] + [more[k]] == more;
    }
  }

  /** Of the bytes accepted since there were `from` of them, those from p are the first `sent` bytes of its call. */
  predicate Progress(n: Net, p: int, data: seq<byte>, from: nat) {
    && p in n.tasks && n.tasks[p].act.Writing? && n.tasks[p].act.data == data && n.tasks[p].act.sent <= |data|
    && from <= |n.accepted| == |n.authors|
    && Share(n.accepted[from..], n.authors[from..], p) == data[..n.tasks[p].act.sent]
  }

  lemma PutKeepsProgress(n: Net, q: int, k: nat, p: int, data: seq<byte>, from: nat)
    requires Progress(n, p, data, from) && q in n.tasks && n.tasks[q].act.Writing?
    requires n.tasks[q].act.sent + k <= |n.tasks[q].act.data|
    ensures var t := n.tasks[q].act;
      Share((n.accepted + t.data[t.sent..][..k])[from..], (n.authors + seq(k, _ => q))[from..], p)
      == data[..n.tasks[p].act.sent + if p == q then k else 0]
  {
    var t := n.tasks[q].act;
    var more := t.data[t.sent..][..k];
    assert (n.accepted + more)[from..] == n.accepted[from..] + more;
    assert (n.authors + seq(k, _ => q))[from..] == n.authors[from..] + seq(k, _ => q);
    ShareAppends(n.accepted[from..], n.authors[from..], more, q, p);
    if p == q {
      assert data[..t.sent] + more == data[..t.sent + k];
    }
  }

  lemma TurnKeepsProgress(n: Net, q: int, p: int, data: seq<byte>, from: nat)
    requires |n.pipe.buf| <= BUFSZ && Enabled(n, Turn(q)) && n.tasks[q].act.Writing? && Progress(n, p, data, from)
    ensures p in DoWrite(n, q).tasks ==> Progress(DoWrite(n, q), p, data, from)
    ensures p !in DoWrite(n, q).tasks ==>
      p == q && DoWrite(n, q).accepted == n.accepted && DoWrite(n, q).authors == n.authors
  {
    var t := n.tasks[q].act;
    if t.sent < |t.data| && WriteTurn(n.pipe, q, t.data[t.sent..], t.slept).1.Put? {
      PutKeepsProgress(n, q, WriteTurn(n.pipe, q, t.data[t.sent..], t.slept).1.n, p, data, from);
    }
  }

  lemma StepKeepsProgress(n: Net, step: Step, p: int, data: seq<byte>, from: nat)
    requires |n.pipe.buf| <= BUFSZ && Enabled(n, step) && Progress(n, p, data, from)
    ensures p in Next(n, step).tasks ==> Progress(Next(n, step), p, data, from)
    ensures p !in Next(n, step).tasks ==>
      step == Turn(p) && Next(n, step).accepted == n.accepted && Next(n, step).authors == n.authors
  {
    if step.Turn? && n.tasks[step.pid].act.Writing? {
      TurnKeepsProgress(n, step.pid, p, data, from);
    }
  }

  /** Process p is in one and the same write of this data after the steps b .. i - 1. */
  ghost predicate InWrite(states: seq<Net>, steps: seq<Step>, b: nat, i: nat, p: int, data: seq<byte>) {
    && IsRun(states, steps) && b < i < |states| && steps[b] == BeginWrite(p, data)
    && forall k | b < k <= i :: p in states[k].tasks
  }

  lemma {:induction false} AuthorsKept(states: seq<Net>, steps: seq<Step>, i: nat)
    requires IsRun(states, steps) && i < |states|
    ensures |states[i].authors| == |states[i].accepted|
  {
    if i == 0 {
    } else {
      AuthorsKept(states, steps, i - 1);
      assert Linked(states, steps, i - 1);
    }
  }

  lemma {:induction false} WriteProgress(states: seq<Net>, steps: seq<Step>, b: nat, i: nat, p: int, data: seq<byte>)
    requires InWrite(states, steps, b, i, p, data)
    ensures Progress(states[i], p, data, |states[b].accepted|)
    decreases i
  {
    var from := |states[b].accepted|;
    assert Linked(states, steps, i - 1);
    if i == b + 1 {
      AuthorsKept(states, steps, b);
      assert states[i].accepted[from..] == [] && data[..0] == [];
    } else {
      WriteProgress(states, steps, b, i - 1, p, data);
      StepKeepsProgress(states[i - 1], steps[i - 1], p, data, from);
    }
  }

  /** In every run, crowded or not: when the write of p that began with step b comes back with step i, the bytes of
      p accepted in between are a prefix of its data, in order and without repetition. It is all of it, or no
      reader is left; the call then fails although the prefix has been accepted. */
  lemma WriteAcceptsPrefix(states: seq<Net>, steps: seq<Step>, b: nat, i: nat, p: int, data: seq<byte>)
    requires InWrite(states, steps, b, i, p, data) && i < |steps| && p !in states[i + 1].tasks
    ensures var n, n', from := states[i], states[i + 1], |states[b].accepted|;
      && p in n.tasks && n.tasks[p].act.Writing? && n.tasks[p].act.sent <= |data|
      && from <= |n'.accepted| == |n'.authors|
      && Share(n'.accepted[from..], n'.authors[from..], p) == data[..n.tasks[p].act.sent]
      && (n.tasks[p].act.sent < |data| ==> n.pipe.readers == 0)
  {
    WriteProgress(states, steps, b, i, p, data);
    assert Linked(states, steps, i);
    StepKeepsProgress(states[i], steps[i], p, data, |states[b].accepted|);
    if states[i].tasks[p].act.sent < |data| {
      WriteFailsOnlyWhenBroken(states[i], p);
    }
  }

  /** A write of 4097 bytes fails after 4096 of them have been accepted: the writer sleeps on the full pipe until
      the last reader closes. */
  lemma FailedWriteAccepts() returns (states: seq<Net>, steps: seq<Step>)
    ensures IsRun(states, steps) && |steps| == 5 && steps[0] == BeginWrite(1, seq(4097, _ => 7)) && steps[4] == Turn(1)
    ensures var n, n' := states[4], states[5];
      && 1 in n.tasks && n.tasks[1].act.Writing? && n.tasks[1].act.sent == 4096 && 1 !in n'.tasks
      && |n'.accepted| == 4096 && n'.pipe.readers == 0
  {
    steps := [BeginWrite(1, seq(4097, _ => 7)), Turn(1), Turn(1), CloseReadEnd, Turn(1)];
    var s1 := Next(START, steps[0]);
    var s2 := Next(s1, steps[1]);
    assert |s2.pipe.buf| == 4096 && s2.tasks[1].act.sent == 4096;
    var s3 := Next(s2, steps[2]);
    assert s3.tasks[1].asleep && s3.pipe.blockedWriter == 1;
    assert !Readers(s3);
    var s4 := Next(s3, steps[3]);
    var s5 := Next(s4, steps[4]);
    states := [START, s1, s2, s3, s4, s5];
  }

  // ---------------------------------------------------------------------------------------------
  // One turn

  /** A turn of a read that finds bytes takes all it wants or all there are; a turn of a write that finds room
      leaves nothing to write or no room. */
  lemma TurnsAreGreedy(n: Net, p: int)
    requires |n.pipe.buf| <= BUFSZ && Enabled(n, Turn(p))
    ensures var t, n' := n.tasks[p].act, Next(n, Turn(p));
      && (t.Reading? && |t.got| < t.want && n.pipe.buf != [] ==>
            && p in n'.tasks && n'.tasks[p].act.Reading? && n'.tasks[p].act.want == t.want
            && t.got < n'.tasks[p].act.got
            && (|n'.tasks[p].act.got| == t.want || n'.pipe.buf == []))
      && (t.Writing? && n'.accepted != n.accepted ==>
            && p in n'.tasks && n'.tasks[p].act.Writing? && n'.tasks[p].act.data == t.data
            && (n'.tasks[p].act.sent == |t.data| || |n'.pipe.buf| == BUFSZ))
  {
  }

  /** Without a reader, bytes are accepted exactly from a writer that has slept since it last looked for one, and
      finds room. */
  lemma UnreadAcceptedIff(n: Net, p: int)
    requires |n.pipe.buf| <= BUFSZ && Enabled(n, Turn(p)) && n.tasks[p].act.Writing? && n.pipe.readers == 0
    requires n.tasks[p].act.sent < |n.tasks[p].act.data|
    ensures Next(n, Turn(p)).accepted != n.accepted <==> n.tasks[p].act.slept && |n.pipe.buf| < BUFSZ
  {
  }

  lemma OthersLeaveAct(n: Net, step: Step, p: int)
    requires |n.pipe.buf| <= BUFSZ && Enabled(n, step) && p in n.tasks && step != Turn(p)
    ensures p in Next(n, step).tasks && Next(n, step).tasks[p].act == n.tasks[p].act
  {
  }

  lemma {:induction false} ActKept(states: seq<Net>, steps: seq<Step>, i: nat, j: nat, p: int)
    requires IsRun(states, steps) && i <= j < |states| && p in states[i].tasks
    requires forall k | i <= k < j :: steps[k] != Turn(p)
    ensures p in states[j].tasks && states[j].tasks[p].act == states[i].tasks[p].act
    decreases j
  {
    if i == j {
    } else {
      ActKept(states, steps, i, j - 1, p);
      assert Linked(states, steps, j - 1);
      OthersLeaveAct(states[j - 1], steps[j - 1], p);
    }
  }

  lemma {:induction false} ReadersGoneForGood(states: seq<Net>, steps: seq<Step>, i: nat, j: nat)
    requires IsRun(states, steps) && i <= j < |states| && states[i].pipe.readers == 0
    ensures states[j].pipe.readers == 0
    decreases j
  {
    if i == j {
    } else {
      ReadersGoneForGood(states, steps, i, j - 1);
      assert Linked(states, steps, j - 1);
    }
  }

  /** And no more than once: in every run, a write from which bytes have been accepted without a reader comes back
      with its next turn. */
  lemma UnreadAcceptedOnce(states: seq<Net>, steps: seq<Step>, i: nat, j: nat, p: int)
    requires IsRun(states, steps) && i < j < |steps| && steps[i] == Turn(p) && steps[j] == Turn(p)
    requires p in states[i].tasks && states[i].tasks[p].act.Writing? && states[i].pipe.readers == 0
    requires states[i + 1].accepted != states[i].accepted && forall k | i < k < j :: steps[k] != Turn(p)
    ensures p !in states[j + 1].tasks && states[j + 1].accepted == states[j].accepted
  {
    assert Linked(states, steps, i) && Linked(states, steps, j);
    assert p in states[i + 1].tasks && !states[i + 1].tasks[p].act.slept;
    ActKept(states, steps, i + 1, j, p);
    ReadersGoneForGood(states, steps, i, j);
  }

  /** The full pipe with process 1 asleep on it, one byte to go. */
  predicate SleepsFull(n: Net) {
    && |n.pipe.buf| == BUFSZ && |n.accepted| == 4096 && n.pipe.readers == 1 && n.pipe.writers == 1
    && n.pipe.blockedWriter == 1 && n.pipe.blockedReader == NO_WAITER
    && 1 in n.tasks && n.tasks.Keys == {1} && n.tasks[1].asleep
    && n.tasks[1].act == Writing(seq(4097, _ => 7), 4096, true)
  }

  lemma WriterSleeps() returns (states: seq<Net>, steps: seq<Step>)
    ensures IsRun(states, steps) && SleepsFull(states[|steps|])
    ensures steps == [BeginWrite(1, seq(4097, _ => 7)), Turn(1), Turn(1)]
  {
    steps := [BeginWrite(1, seq(4097, _ => 7)), Turn(1), Turn(1)];
    var s1 := Next(START, steps[0]);
    var s2 := Next(s1, steps[1]);
    assert |s2.pipe.buf| == 4096 && s2.tasks[1].act.sent == 4096;
    var s3 := Next(s2, steps[2]);
    states := [START, s1, s2, s3];
  }

  lemma RunExtends(states: seq<Net>, steps: seq<Step>, step: Step) returns (states': seq<Net>, steps': seq<Step>)
    requires IsRun(states, steps) && |states[|steps|].pipe.buf| <= BUFSZ && Enabled(states[|steps|], step)
    ensures IsRun(states', steps') && steps' == steps + [step]
    ensures states' == states + [Next(states[|steps|], step)]
  {
    states', steps' := states + [Next(states[|steps|], step)], steps + [step];
    forall i | 0 <= i < |steps'|
      ensures Linked(states', steps', i)
    {
      assert i < |steps| ==> Linked(states, steps, i);
    }
  }

  /** A run in which a write succeeds although the last reader has closed: the writer sleeps on the full pipe, the
      reader takes a byte and closes, and the last byte is accepted all the same. */
  lemma WriteOutlivesReaders() returns (states: seq<Net>, steps: seq<Step>)
    ensures IsRun(states, steps) && |steps| >= 2 && steps[|steps| - 2] == Turn(1) && steps[|steps| - 1] == Turn(1)
    ensures var n, n', n'' := states[|steps| - 2], states[|steps| - 1], states[|steps|];
      && n.pipe.readers == 0 && |n.accepted| == 4096 && |n'.accepted| == 4097
      && 1 in n'.tasks && n'.tasks[1].act == Writing(seq(4097, _ => 7), 4097, false) && 1 !in n''.tasks
  {
    states, steps := WriterSleeps();
    var n := states[|steps|];
    states, steps := RunExtends(states, steps, BeginRead(2, 1));
    states, steps := RunExtends(states, steps, Turn(2));
    var n2 := states[|steps|];
    assert |n2.pipe.buf| == 4095 && n2.tasks[2].act.Reading? && |n2.tasks[2].act.got| == 1 && !n2.tasks[1].asleep;
    states, steps := RunExtends(states, steps, Turn(2));
    var n3 := states[|steps|];
    assert n3.tasks.Keys == {1} && n3.tasks[1].act == n.tasks[1].act;
    assert !Readers(n3);
    states, steps := RunExtends(states, steps, CloseReadEnd);
    states, steps := RunExtends(states, steps, Turn(1));
    states, steps := RunExtends(states, steps, Turn(1));
  }

  // ---------------------------------------------------------------------------------------------
  // What a read hands back

  /** Of the bytes delivered since there were `from` of them, those to p are what its call has got. */
  predicate Gathered(n: Net, p: int, want: nat, from: nat) {
    && p in n.tasks && n.tasks[p].act.Reading? && n.tasks[p].act.want == want && |n.tasks[p].act.got| <= want
    && from <= |n.delivered| == |n.takers|
    && Share(n.delivered[from..], n.takers[from..], p) == n.tasks[p].act.got
  }

  lemma GotKeepsGathered(n: Net, q: int, data: seq<byte>, p: int, want: nat, from: nat)
    requires Gathered(n, p, want, from)
    ensures Share((n.delivered + data)[from..], (n.takers + seq(|data|, _ => q))[from..], p)
            == n.tasks[p].act.got + if p == q then data else []
  {
    assert (n.delivered + data)[from..] == n.delivered[from..] + data;
    assert (n.takers + seq(|data|, _ => q))[from..] == n.takers[from..] + seq(|data|, _ => q);
    ShareAppends(n.delivered[from..], n.takers[from..], data, q, p);
  }

  lemma TurnKeepsGathered(n: Net, q: int, p: int, want: nat, from: nat)
    requires |n.pipe.buf| <= BUFSZ && Enabled(n, Turn(q)) && n.tasks[q].act.Reading? && Gathered(n, p, want, from)
    ensures p in DoRead(n, q).tasks ==> Gathered(DoRead(n, q), p, want, from)
    ensures p !in DoRead(n, q).tasks ==>
      p == q && DoRead(n, q).delivered == n.delivered && DoRead(n, q).takers == n.takers
  {
    var t := n.tasks[q].act;
    if |t.got| < t.want && ReadTurn(n.pipe, q, t.want - |t.got|).1.Got? {
      GotKeepsGathered(n, q, ReadTurn(n.pipe, q, t.want - |t.got|).1.data, p, want, from);
    }
  }

  lemma StepKeepsGathered(n: Net, step: Step, p: int, want: nat, from: nat)
    requires |n.pipe.buf| <= BUFSZ && Enabled(n, step) && Gathered(n, p, want, from)
    ensures p in Next(n, step).tasks ==> Gathered(Next(n, step), p, want, from)
    ensures p !in Next(n, step).tasks ==>
      step == Turn(p) && Next(n, step).delivered == n.delivered && Next(n, step).takers == n.takers
  {
    if step.Turn? && n.tasks[step.pid].act.Reading? {
      TurnKeepsGathered(n, step.pid, p, want, from);
    }
  }

  /** Process p is in one and the same read after the steps b .. i - 1. */
  ghost predicate InRead(states: seq<Net>, steps: seq<Step>, b: nat, i: nat, p: int, want: nat) {
    && IsRun(states, steps) && b < i < |states| && steps[b] == BeginRead(p, want)
    && forall k | b < k <= i :: p in states[k].tasks
  }

  lemma {:induction false} TakersKept(states: seq<Net>, steps: seq<Step>, i: nat)
    requires IsRun(states, steps) && i < |states|
    ensures |states[i].takers| == |states[i].delivered|
  {
    if i == 0 {
    } else {
      TakersKept(states, steps, i - 1);
      assert Linked(states, steps, i - 1);
    }
  }

  lemma {:induction false} ReadProgress(states: seq<Net>, steps: seq<Step>, b: nat, i: nat, p: int, want: nat)
    requires InRead(states, steps, b, i, p, want)
    ensures Gathered(states[i], p, want, |states[b].delivered|)
    decreases i
  {
    var from := |states[b].delivered|;
    assert Linked(states, steps, i - 1);
    if i == b + 1 {
      TakersKept(states, steps, b);
      assert states[i].delivered[from..] == [];
    } else {
      ReadProgress(states, steps, b, i - 1, p, want);
      StepKeepsGathered(states[i - 1], steps[i - 1], p, want, from);
    }
  }

  /** In every run, crowded or not: when the read of p that began with step b comes back with step i, it hands back
      exactly the bytes delivered to p in between, in the order in which they were delivered. They are as many as
      were asked for, unless the pipe is drained and every writer has closed. */
  lemma ReadReturnsDelivered(states: seq<Net>, steps: seq<Step>, b: nat, i: nat, p: int, want: nat)
    requires InRead(states, steps, b, i, p, want) && i < |steps| && p !in states[i + 1].tasks
    ensures var n, n', from := states[i], states[i + 1], |states[b].delivered|;
      && p in n.tasks && n.tasks[p].act.Reading? && |n.tasks[p].act.got| <= want
      && from <= |n'.delivered| == |n'.takers|
      && n.tasks[p].act.got == Share(n'.delivered[from..], n'.takers[from..], p)
      && (|n.tasks[p].act.got| < want ==> n.pipe.buf == [] && n.pipe.writers == 0)
  {
    ReadProgress(states, steps, b, i, p, want);
    assert Linked(states, steps, i);
    StepKeepsGathered(states[i], steps[i], p, want, |states[b].delivered|);
  }

  lemma {:induction false} ShareOfOne(bytes: seq<byte>, authors: seq<int>, p: int)
    requires |bytes| == |authors| && forall k | 0 <= k < |authors| :: authors[k] == p
    ensures Share(bytes, authors, p) == bytes
  {
    if bytes == [] {
    } else {
      var k := |bytes| - 1;
      ShareOfOne(bytes[..k], authors[..k], p);
      assert bytes[..k] + [bytes[k]] == bytes;
    }
  }

  /** With nobody else reading meanwhile, that is the next stretch of the stream of accepted bytes. */
  lemma SoleReaderGetsStream(states: seq<Net>, steps: seq<Step>, b: nat, i: nat, p: int, want: nat)
    requires InRead(states, steps, b, i, p, want) && i < |steps| && p !in states[i + 1].tasks
    requires forall k | |states[b].delivered| <= k < |states[i].takers| :: states[i].takers[k] == p
    ensures var n, from := states[i], |states[b].delivered|;
      && p in n.tasks && n.tasks[p].act.Reading? && from + |n.tasks[p].act.got| <= |n.accepted|
      && n.tasks[p].act.got == n.accepted[from..from + |n.tasks[p].act.got|]
  {
    var n, from := states[i], |states[b].delivered|;
    ReadProgress(states, steps, b, i, p, want);
    ShareOfOne(n.delivered[from..], n.takers[from..], p);
    EveryRunIsFifo(states, steps, i);
  }

  /** Two sleepers on one end: the second takes the slot, and the first sleeps on although bytes come. */
  lemma CrowdedSleeperLost() returns (states: seq<Net>, steps: seq<Step>)
    ensures IsRun(states, steps)
    ensures var n := states[|steps|];
      1 in n.tasks && n.tasks[1].asleep && n.pipe.buf != [] && n.pipe.blockedReader == NO_WAITER
  {
    steps := [BeginRead(1, 1), Turn(1), BeginRead(2, 1), Turn(2), BeginWrite(3, [7, 8]), Turn(3), Turn(2)];
    var s1 := Next(START, steps[0]);
    var s2 := Next(s1, steps[1]);
    assert s2.pipe == FRESH.(blockedReader := 1) && s2.tasks == map[1 := Task(Reading(1, []), true)];
    var s3 := Next(s2, steps[2]);
    var s4 := Next(s3, steps[3]);
    assert s4.pipe == FRESH.(blockedReader := 2);
    var s5 := Next(s4, steps[4]);
    var s6 := Next(s5, steps[5]);
    assert s6.pipe.buf == [7, 8];
    var s7 := Next(s6, steps[6]);
    assert s7.pipe.buf == [8];
    states := [START, s1, s2, s3, s4, s5, s6, s7];
  }
}
