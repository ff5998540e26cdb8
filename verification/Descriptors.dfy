/** Descriptor tables and shared open files: `kernel/proc/fd.c`, `vfs_close`, `vfs_open_vnode`, and the
    open, close, dup2, pipe, fork, exit and destroy steps that work on them. */
module Descriptors {
  import Pipes

  const FD_MAX: int := 16
  const PROCS: int := 256

  datatype Kind = Plain | ReadEnd(pipe: int) | WriteEnd(pipe: int)

  /** An open file object (`file_t`). */
  datatype File = File(refcount: nat, kind: Kind)

  /** Open ends of a pipe, as `pipe_t` counts them. */
  datatype Ends = Ends(readers: nat, writers: nat)

  /** The tables of all processes lie one behind the other: descriptor fd of process pid is slot
      16 * pid + fd. A slot holds a file number, or 0. `live` are the PIDs in use, `dead` those among them
      whose process has exited and has not been collected. */
  datatype Fds = Fds(slots: seq<int>, files: map<int, File>, pipes: map<int, Ends>,
                     live: set<int>, dead: set<int>, nextId: int)

  predicate Shape(d: Fds) {
    |d.slots| == PROCS * FD_MAX && d.nextId > 0
  }

  function SlotOf(pid: int, fd: int): int { pid * FD_MAX + fd }

  predicate IsPid(pid: int) { 0 <= pid < PROCS }

  // ---------------------------------------------------------------------------------------------
  // Operations on one slot

  /** `vfs_close`: drops one reference; the last one releases the file and closes its pipe end. */
  function Drop(d: Fds, f: int): Fds
    requires f in d.files
  {
    var file := d.files[f];
    if file.refcount > 1 then d.(files := d.files[f := file.(refcount := file.refcount - 1)])
    else
      var d1 := d.(files := d.files - {f});
      match file.kind
      case Plain => d1
      case ReadEnd(p) => if p in d.pipes then SetEnds(d1, p, Less(d.pipes[p].readers), d.pipes[p].writers) else d1
      case WriteEnd(p) => if p in d.pipes then SetEnds(d1, p, d.pipes[p].readers, Less(d.pipes[p].writers)) else d1
  }

  function Less(n: nat): nat { if n > 0 then n - 1 else 0 }

  /** The pipe is released when both counts are zero. */
  function SetEnds(d: Fds, p: int, readers: nat, writers: nat): Fds {
    d.(pipes := if readers == 0 && writers == 0 then d.pipes - {p} else d.pipes[p := Ends(readers, writers)])
  }

  /** `fd_close` */
  function CloseSlot(d: Fds, i: int): Fds
    requires 0 <= i < |d.slots|
  {
    if d.slots[i] !in d.files then d.(slots := d.slots[i := 0])
    else Drop(d, d.slots[i]).(slots := d.slots[i := 0])
  }

  /** One more slot for file f. */
  function Share(d: Fds, i: int, f: int): Fds
    requires 0 <= i < |d.slots|
  {
    if f !in d.files then d.(slots := d.slots[i := f])
    else d.(slots := d.slots[i := f], files := d.files[f := d.files[f].(refcount := d.files[f].refcount + 1)])
  }

  /** A new file object, installed in slot i. */
  function OpenAt(d: Fds, i: int): Fds
    requires 0 <= i < |d.slots|
  {
    d.(slots := d.slots[i := d.nextId], files := d.files[d.nextId := File(1, Plain)], nextId := d.nextId + 1)
  }

  /** A new pipe, with its read end in slot i and its write end in slot j. */
  function PipeAt(d: Fds, i: int, j: int): Fds
    requires 0 <= i < |d.slots| && 0 <= j < |d.slots|
  {
    var p := d.nextId;
    d.(slots := d.slots[i := p][j := p + 1],
       files := d.files[p := File(1, ReadEnd(p))][p + 1 := File(1, WriteEnd(p))],
       pipes := d.pipes[p := Ends(1, 1)],
       nextId := p + 2)
  }

  // ---------------------------------------------------------------------------------------------
  // Operations on one table

  /** Lowest free slot in [i, end), or `end`. */
  function FreeSlot(slots: seq<int>, i: int, end: int): (r: int)
    requires 0 <= i <= end <= |slots|
    ensures i <= r <= end && (r < end ==> slots[r] == 0)
    ensures forall k | i <= k < r :: slots[k] != 0
    decreases end - i
  {
    if i == end || slots[i] == 0 then i else FreeSlot(slots, i + 1, end)
  }

  function FirstFree(d: Fds, pid: int): int
    requires Shape(d) && IsPid(pid)
  {
    FreeSlot(d.slots, SlotOf(pid, 0), SlotOf(pid, FD_MAX))
  }

  /** `fd_table_close_all` over slots [i, end). */
  function CloseAll(d: Fds, i: int, end: int): (r: Fds)
    requires 0 <= i <= end <= |d.slots|
    ensures |r.slots| == |d.slots|
    decreases end - i
  {
    if i == end then d else CloseAll(CloseSlot(d, i), i + 1, end)
  }

  /** `fd_table_clone` of the slots [src, end) to `dst`. */
  function Clone(d: Fds, src: int, end: int, dst: int): (r: Fds)
    requires 0 <= src <= end <= |d.slots| && 0 <= dst && dst + (end - src) <= |d.slots|
    ensures |r.slots| == |d.slots|
    decreases end - src
  {
    if src == end then d
    else
      var d1 := d.(slots := d.slots[dst := d.slots[src]]);
      Clone(if d.slots[src] == 0 then d1 else Share(d, dst, d.slots[src]), src + 1, end, dst + 1)
  }

  /** `fd_table_init`: stdin, stdout and stderr, as far as memory allows. */
  function OpenStd(d: Fds, pid: int, memory: seq<bool>): Fds
    requires Shape(d) && IsPid(pid) && |memory| == 3
  {
    OpenIf(OpenIf(OpenIf(d, SlotOf(pid, 0), memory[0]), SlotOf(pid, 1), memory[1]), SlotOf(pid, 2), memory[2])
  }

  // ---------------------------------------------------------------------------------------------
  // Steps

  datatype Step =
    | Create(pid: int, memory: seq<bool>)
    | Open(pid: int)
    | Close(pid: int, fd: int)
    | Dup2(pid: int, oldfd: int, newfd: int)
    | MakePipe(pid: int)
    | Fork(pid: int, child: int, memory: seq<bool>)
    | Exit(pid: int)
    | Restart(pid: int)
    | Destroy(pid: int)

  /** Two free slots, as `pipe_create` needs for its success path. */
  predicate RoomForPipe(d: Fds, pid: int)
    requires Shape(d) && IsPid(pid)
  {
    var i := FirstFree(d, pid);
    i < SlotOf(pid, FD_MAX) && FreeSlot(d.slots, i + 1, SlotOf(pid, FD_MAX)) < SlotOf(pid, FD_MAX)
  }

  /** Only a process that has not exited makes a call; exec can restart one that has, and only one that has
      is destroyed. */
  predicate Enabled(d: Fds, step: Step)
    requires Shape(d)
  {
    && IsPid(step.pid)
    && (step.Create? <==> step.pid !in d.live)
    && (step.Restart? || step.Destroy? <==> step.pid in d.dead)
    && (step.Create? || step.Fork? ==> |step.memory| == 3)
    && (step.Fork? ==> IsPid(step.child) && step.child !in d.live)
    && (step.MakePipe? ==> RoomForPipe(d, step.pid))
  }

  function Next(d: Fds, step: Step): Fds
    requires Shape(d) && Enabled(d, step)
  {
    match step
    case Create(pid, memory) => OpenStd(d.(live := d.live + {pid}), pid, memory)
    case Open(pid) =>
      // with a full table the new file object is closed again
      var i := FirstFree(d, pid);
      if i < SlotOf(pid, FD_MAX) then OpenAt(d, i) else d.(nextId := d.nextId + 1)
    case Close(pid, fd) => if 0 <= fd < FD_MAX then CloseSlot(d, SlotOf(pid, fd)) else d
    case Dup2(pid, oldfd, newfd) =>
      if !(0 <= oldfd < FD_MAX) || !(0 <= newfd < FD_MAX) || d.slots[SlotOf(pid, oldfd)] == 0 || oldfd == newfd then d
      else Share(CloseSlot(d, SlotOf(pid, newfd)), SlotOf(pid, newfd), d.slots[SlotOf(pid, oldfd)])
    case MakePipe(pid) =>
      var i := FirstFree(d, pid);
      PipeAt(d, i, FreeSlot(d.slots, i + 1, SlotOf(pid, FD_MAX)))
    case Fork(pid, child, memory) =>
      var d1 := OpenStd(d.(live := d.live + {child}), child, memory);
      var d2 := CloseAll(d1, SlotOf(child, 0), SlotOf(child, FD_MAX));
      Clone(d2, SlotOf(pid, 0), SlotOf(pid, FD_MAX), SlotOf(child, 0))
    case Exit(pid) => d.(dead := d.dead + {pid})
    case Restart(pid) => d.(dead := d.dead - {pid})
    case Destroy(pid) =>
      CloseAll(d, SlotOf(pid, 0), SlotOf(pid, FD_MAX)).(live := d.live - {pid}, dead := d.dead - {pid})
  }

  // ---------------------------------------------------------------------------------------------
  // The invariant

  /** How many slots refer to file f. */
  ghost function Refs(slots: seq<int>, f: int): nat {
    multiset(slots)[f]
  }

  /** A file exists exactly while a slot refers to it, and its reference count is their number. */
  ghost predicate Counts(slots: seq<int>, files: map<int, File>) {
    && (forall f | f in files :: files[f].refcount == Refs(slots, f) > 0)
    && (forall i | 0 <= i < |slots| && slots[i] != 0 :: slots[i] in files)
  }

  /** A pipe has at most one file for each end, counts the ends that are open, and has one. */
  ghost predicate EndsOk(d: Fds) {
    && (forall f | f in d.files && !d.files[f].kind.Plain? :: d.files[f].kind.pipe in d.pipes)
    && (forall p | p in d.pipes :: CountsEnds(d.files, p, d.pipes[p]))
  }

  ghost predicate CountsEnds(files: map<int, File>, p: int, ends: Ends) {
    && HasEnd(files, ReadEnd(p), ends.readers) && HasEnd(files, WriteEnd(p), ends.writers)
    && ends.readers + ends.writers > 0
  }

  /** Exactly `n` files are of this kind, n being 0 or 1. */
  ghost predicate HasEnd(files: map<int, File>, kind: Kind, n: nat) {
    && (n == 0 ==> forall f | f in files :: files[f].kind != kind)
    && (n == 1 ==> exists f :: f in files && files[f].kind == kind
                               && forall g | g in files && files[g].kind == kind :: g == f)
    && n <= 1
  }

  ghost predicate Ids(d: Fds) {
    && (forall f | f in d.files :: 0 < f < d.nextId)
    && (forall p | p in d.pipes :: 0 < p < d.nextId)
  }

  ghost predicate Inv(d: Fds) {
    Shape(d) && Counts(d.slots, d.files) && EndsOk(d) && Ids(d)
  }

  /** Processes that do not exist have empty tables, and the dead are among those that exist. */
  ghost predicate AbsentEmpty(d: Fds) {
    && (forall k | 0 <= k < |d.slots| && k / FD_MAX !in d.live :: d.slots[k] == 0)
    && (forall pid | pid in d.dead :: pid in d.live)
  }

  // ---------------------------------------------------------------------------------------------
  // Each slot operation keeps the invariant

  lemma RefsAfter(slots: seq<int>, i: int, x: int, f: int)
    requires 0 <= i < |slots|
    ensures Refs(slots[i := x], f) == Refs(slots, f) - (if slots[i] == f then 1 else 0) + (if x == f then 1 else 0)
  {
  }

  lemma SlotRefers(slots: seq<int>, i: int)
    requires 0 <= i < |slots|
    ensures Refs(slots, slots[i]) > 0
  {
  }

  lemma CloseKeepsCounts(d: Fds, i: int)
    requires Inv(d) && 0 <= i < |d.slots|
    ensures Counts(CloseSlot(d, i).slots, CloseSlot(d, i).files)
  {
    var d' := CloseSlot(d, i);
    forall f | f in d'.files
      ensures d'.files[f].refcount == Refs(d'.slots, f) > 0
    {
      RefsAfter(d.slots, i, 0, f);
    }
    forall k | 0 <= k < |d'.slots| && d'.slots[k] != 0
      ensures d'.slots[k] in d'.files
    {
      SlotRefers(d'.slots, k);
      RefsAfter(d.slots, i, 0, d'.slots[k]);
    }
  }

  lemma CloseKeepsEnds(d: Fds, i: int)
    requires Inv(d) && 0 <= i < |d.slots|
    ensures EndsOk(CloseSlot(d, i)) && Ids(CloseSlot(d, i))
  {
    var f := d.slots[i];
    if f in d.files {
      DropKeepsEnds(d, f);
    }
  }

  lemma HasEndDrop(files: map<int, File>, kind: Kind, n: nat, f: int)
    requires f in files && HasEnd(files, kind, n)
    ensures HasEnd(files - {f}, kind, if files[f].kind == kind then Less(n) else n)
  {
    if n == 1 && files[f].kind != kind {
      var g :| g in files && files[g].kind == kind && forall h | h in files && files[h].kind == kind :: h == g;
      assert g in files - {f};
    }
  }

  lemma HasEndCount(files: map<int, File>, kind: Kind, n: nat, f: int, file: File)
    requires HasEnd(files, kind, n) && f in files && file.kind == files[f].kind
    ensures HasEnd(files[f := file], kind, n)
  {
    if n == 1 {
      var g :| g in files && files[g].kind == kind && forall h | h in files && files[h].kind == kind :: h == g;
      assert files[f := file][g].kind == kind;
    }
  }

  lemma HasEndOther(files: map<int, File>, kind: Kind, n: nat, f: int, file: File)
    requires HasEnd(files, kind, n) && f !in files && file.kind != kind
    ensures HasEnd(files[f := file], kind, n)
  {
    if n == 1 {
      var g :| g in files && files[g].kind == kind && forall h | h in files && files[h].kind == kind :: h == g;
      assert files[f := file][g].kind == kind;
    }
  }

  lemma DropKeepsEnds(d: Fds, f: int)
    requires EndsOk(d) && Ids(d) && f in d.files
    ensures EndsOk(Drop(d, f)) && Ids(Drop(d, f))
  {
    var d', file := Drop(d, f), d.files[f];
    forall p | p in d'.pipes
      ensures CountsEnds(d'.files, p, d'.pipes[p])
    {
      assert CountsEnds(d.files, p, d.pipes[p]);
      if file.refcount > 1 {
        HasEndCount(d.files, ReadEnd(p), d.pipes[p].readers, f, file.(refcount := file.refcount - 1));
        HasEndCount(d.files, WriteEnd(p), d.pipes[p].writers, f, file.(refcount := file.refcount - 1));
      } else {
        HasEndDrop(d.files, ReadEnd(p), d.pipes[p].readers, f);
        HasEndDrop(d.files, WriteEnd(p), d.pipes[p].writers, f);
      }
    }
    DropKeepsPipes(d, f);
  }

  /** A pipe is released only when no file refers to it any more. */
  lemma DropKeepsPipes(d: Fds, f: int)
    requires EndsOk(d) && f in d.files
    ensures forall g | g in Drop(d, f).files && !Drop(d, f).files[g].kind.Plain? ::
      Drop(d, f).files[g].kind.pipe in Drop(d, f).pipes
  {
  }

  lemma CloseKeeps(d: Fds, i: int)
    requires Inv(d) && 0 <= i < |d.slots|
    ensures Inv(CloseSlot(d, i))
    ensures CloseSlot(d, i).slots == d.slots[i := 0] && CloseSlot(d, i).live == d.live && CloseSlot(d, i).dead == d.dead
  {
    CloseKeepsCounts(d, i);
    CloseKeepsEnds(d, i);
  }

  lemma ShareKeeps(d: Fds, i: int, f: int)
    requires Inv(d) && 0 <= i < |d.slots| && d.slots[i] == 0 && f in d.files
    ensures Inv(Share(d, i, f))
    ensures Share(d, i, f).slots == d.slots[i := f] && Share(d, i, f).live == d.live && Share(d, i, f).dead == d.dead
  {
    var d' := Share(d, i, f);
    forall g | g in d'.files
      ensures d'.files[g].refcount == Refs(d'.slots, g) > 0
    {
      RefsAfter(d.slots, i, f, g);
    }
    forall p | p in d'.pipes
      ensures CountsEnds(d'.files, p, d'.pipes[p])
    {
      assert CountsEnds(d.files, p, d.pipes[p]);
      HasEndCount(d.files, ReadEnd(p), d.pipes[p].readers, f, d'.files[f]);
      HasEndCount(d.files, WriteEnd(p), d.pipes[p].writers, f, d'.files[f]);
    }
  }

  lemma NewFileCounts(slots: seq<int>, files: map<int, File>, i: int, f: int, file: File)
    requires 0 <= i < |slots| && slots[i] == 0 && f !in files && f != 0 && 0 !in files && file.refcount == 1
    requires Counts(slots, files)
    ensures Counts(slots[i := f], files[f := file])
  {
  }

  lemma OpenKeeps(d: Fds, i: int)
    requires Inv(d) && 0 <= i < |d.slots| && d.slots[i] == 0
    ensures Inv(OpenAt(d, i))
  {
    var f := d.nextId;
    NewFileCounts(d.slots, d.files, i, f, File(1, Plain));
    forall p | p in d.pipes
      ensures CountsEnds(OpenAt(d, i).files, p, d.pipes[p])
    {
      assert CountsEnds(d.files, p, d.pipes[p]);
      HasEndOther(d.files, ReadEnd(p), d.pipes[p].readers, f, File(1, Plain));
      HasEndOther(d.files, WriteEnd(p), d.pipes[p].writers, f, File(1, Plain));
    }
  }

  lemma PipeKeeps(d: Fds, i: int, j: int)
    requires Inv(d) && 0 <= i < j < |d.slots| && d.slots[i] == 0 && d.slots[j] == 0
    ensures Inv(PipeAt(d, i, j))
  {
    var p := d.nextId;
    var rf, wf := File(1, ReadEnd(p)), File(1, WriteEnd(p));
    var files1 := d.files[p := rf];
    NewFileCounts(d.slots, d.files, i, p, rf);
    NewFileCounts(d.slots[i := p], files1, j, p + 1, wf);
    PipeKeepsEnds(d, i, j);
  }

  lemma PipeKeepsEnds(d: Fds, i: int, j: int)
    requires Inv(d) && 0 <= i < j < |d.slots|
    ensures EndsOk(PipeAt(d, i, j)) && Ids(PipeAt(d, i, j))
  {
    var p, d' := d.nextId, PipeAt(d, i, j);
    forall q | q in d'.pipes
      ensures CountsEnds(d'.files, q, d'.pipes[q])
    {
      if q == p {
        NewPipeCounts(d.files, p);
      } else {
        assert CountsEnds(d.files, q, d.pipes[q]);
        OldPipeCounts(d.files, q, d.pipes[q], p);
      }
    }
  }

  lemma NewPipeCounts(files: map<int, File>, p: int)
    requires p !in files && p + 1 !in files
    requires forall f | f in files :: files[f].kind != ReadEnd(p) && files[f].kind != WriteEnd(p)
    ensures CountsEnds(files[p := File(1, ReadEnd(p))][p + 1 := File(1, WriteEnd(p))], p, Ends(1, 1))
  {
    var files' := files[p := File(1, ReadEnd(p))][p + 1 := File(1, WriteEnd(p))];
    assert files'[p].kind == ReadEnd(p) && files'[p + 1].kind == WriteEnd(p);
  }

  lemma OldPipeCounts(files: map<int, File>, q: int, ends: Ends, p: int)
    requires CountsEnds(files, q, ends) && q != p && p !in files && p + 1 !in files
    ensures CountsEnds(files[p := File(1, ReadEnd(p))][p + 1 := File(1, WriteEnd(p))], q, ends)
  {
    var rf, wf := File(1, ReadEnd(p)), File(1, WriteEnd(p));
    HasEndOther(files, ReadEnd(q), ends.readers, p, rf);
    HasEndOther(files, WriteEnd(q), ends.writers, p, rf);
    HasEndOther(files[p := rf], ReadEnd(q), ends.readers, p + 1, wf);
    HasEndOther(files[p := rf], WriteEnd(q), ends.writers, p + 1, wf);
  }

  // ---------------------------------------------------------------------------------------------
  // Tables

  lemma {:induction false} CloseAllKeeps(d: Fds, i: int, end: int)
    requires Inv(d) && 0 <= i <= end <= |d.slots|
    ensures var r := CloseAll(d, i, end);
      && Inv(r) && r.live == d.live && r.dead == d.dead
      && forall k | 0 <= k < |d.slots| :: r.slots[k] == if i <= k < end then 0 else d.slots[k]
    decreases end - i
  {
    if end <= i {
    } else {
      CloseKeeps(d, i);
      CloseAllKeeps(CloseSlot(d, i), i + 1, end);
    }
  }

  /** Where a clone puts what. */
  lemma {:induction false} CloneCopies(d: Fds, src: int, end: int, dst: int, k: int)
    requires 0 <= src <= end <= |d.slots| && 0 <= dst && dst + (end - src) <= |d.slots|
    requires end <= dst || dst + (end - src) <= src
    requires 0 <= k < |d.slots|
    ensures var r := Clone(d, src, end, dst);
      && r.live == d.live && r.dead == d.dead
      && r.slots[k] == if dst <= k < dst + (end - src) then d.slots[src + k - dst] else d.slots[k]
    decreases end - src
  {
    if end <= src {
    } else {
      var d1 := d.(slots := d.slots[dst := d.slots[src]]);
      var d2 := if d.slots[src] == 0 then d1 else Share(d, dst, d.slots[src]);
      CloneCopies(d2, src + 1, end, dst + 1, k);
    }
  }

  lemma {:induction false} CloneKeeps(d: Fds, src: int, end: int, dst: int)
    requires Inv(d) && 0 <= src <= end <= |d.slots| && 0 <= dst && dst + (end - src) <= |d.slots|
    requires end <= dst || dst + (end - src) <= src
    requires forall k | dst <= k < dst + (end - src) :: d.slots[k] == 0
    ensures Inv(Clone(d, src, end, dst))
    decreases end - src
  {
    if end <= src {
    } else {
      var f := d.slots[src];
      if f == 0 {
        assert d.(slots := d.slots[dst := 0]) == d by { assert d.slots[dst := 0] == d.slots; }
        CloneKeeps(d, src + 1, end, dst + 1);
      } else {
        ShareKeeps(d, dst, f);
        CloneKeeps(Share(d, dst, f), src + 1, end, dst + 1);
      }
    }
  }

  function OpenIf(d: Fds, i: int, memory: bool): Fds
    requires 0 <= i < |d.slots|
  {
    if memory then OpenAt(d, i) else d
  }

  lemma OpenIfKeeps(d: Fds, i: int, memory: bool)
    requires Inv(d) && 0 <= i < |d.slots| && d.slots[i] == 0
    ensures Inv(OpenIf(d, i, memory)) && OpenIf(d, i, memory).live == d.live && OpenIf(d, i, memory).dead == d.dead
    ensures OpenIf(d, i, memory).slots == d.slots[i := if memory then d.nextId else 0]
    ensures OpenIf(d, i, memory).nextId == d.nextId + if memory then 1 else 0
  {
    OpenKeeps(d, i);
  }

  lemma OpenStdKeeps(d: Fds, pid: int, memory: seq<bool>)
    requires Inv(d) && IsPid(pid) && |memory| == 3
    requires forall k | SlotOf(pid, 0) <= k < SlotOf(pid, FD_MAX) :: d.slots[k] == 0
    ensures var r := OpenStd(d, pid, memory);
      && Inv(r) && r.live == d.live && r.dead == d.dead
      && forall k | 0 <= k < |d.slots| && !(SlotOf(pid, 0) <= k < SlotOf(pid, FD_MAX)) :: r.slots[k] == d.slots[k]
  {
    OpenIfKeeps(d, SlotOf(pid, 0), memory[0]);
    var d0 := OpenIf(d, SlotOf(pid, 0), memory[0]);
    OpenIfKeeps(d0, SlotOf(pid, 1), memory[1]);
    var d1 := OpenIf(d0, SlotOf(pid, 1), memory[1]);
    OpenIfKeeps(d1, SlotOf(pid, 2), memory[2]);
  }

  /** The number of the file opened as standard descriptor fd, or 0. */
  function StdFile(d: Fds, memory: seq<bool>, fd: int): int
    requires 0 <= fd < |memory|
  {
    if memory[fd] then d.nextId + Before(memory, fd) else 0
  }

  function StdSlots(d: Fds, pid: int, memory: seq<bool>): seq<int>
    requires Shape(d) && IsPid(pid) && |memory| == 3
  {
    d.slots[SlotOf(pid, 0) := StdFile(d, memory, 0)]
           [SlotOf(pid, 1) := StdFile(d, memory, 1)]
           [SlotOf(pid, 2) := StdFile(d, memory, 2)]
  }

  lemma OpenStdSlots(d: Fds, pid: int, memory: seq<bool>)
    requires Shape(d) && IsPid(pid) && |memory| == 3
    requires forall k | SlotOf(pid, 0) <= k < SlotOf(pid, FD_MAX) :: d.slots[k] == 0
    ensures OpenStd(d, pid, memory).slots == StdSlots(d, pid, memory)
  {
    var d0 := OpenIf(d, SlotOf(pid, 0), memory[0]);
    var d1 := OpenIf(d0, SlotOf(pid, 1), memory[1]);
    assert Before(memory, 0) == 0 && d0.nextId == d.nextId + Before(memory, 1);
    assert d1.nextId == d.nextId + Before(memory, 2);
    assert d0.slots == d.slots[SlotOf(pid, 0) := StdFile(d, memory, 0)];
    assert d1.slots == d0.slots[SlotOf(pid, 1) := StdFile(d, memory, 1)];
  }

  lemma LiveKeeps(d: Fds, live: set<int>, dead: set<int>)
    requires Inv(d)
    ensures Inv(d.(live := live, dead := dead))
  {
  }

  /** Only the table of process pid differs. */
  ghost predicate OnlyTable(d: Fds, d': Fds, pid: int) {
    |d'.slots| == |d.slots| && forall k | 0 <= k < |d.slots| && k / FD_MAX != pid :: d'.slots[k] == d.slots[k]
  }

  lemma OnlyTableKeepsAbsent(d: Fds, d': Fds, pid: int)
    requires AbsentEmpty(d) && OnlyTable(d, d', pid) && d'.live == d.live + {pid} && d'.dead == d.dead
    ensures AbsentEmpty(d')
  {
  }

  lemma TableOf(pid: int, k: int)
    ensures SlotOf(pid, 0) <= k < SlotOf(pid, FD_MAX) <==> k / FD_MAX == pid
  {
  }

  /** The child's table is emptied again before it is filled. */
  function Cleared(d: Fds, child: int, memory: seq<bool>): Fds
    requires Shape(d) && IsPid(child) && |memory| == 3
  {
    CloseAll(OpenStd(d.(live := d.live + {child}), child, memory), SlotOf(child, 0), SlotOf(child, FD_MAX))
  }

  lemma ClearedKeeps(d: Fds, child: int, memory: seq<bool>)
    requires Inv(d) && AbsentEmpty(d) && IsPid(child) && child !in d.live && |memory| == 3
    ensures var r := Cleared(d, child, memory);
      Inv(r) && r.live == d.live + {child} && r.dead == d.dead && r.slots == d.slots
  {
    forall k { TableOf(child, k); }
    var d0 := d.(live := d.live + {child});
    LiveKeeps(d, d.live + {child}, d.dead);
    OpenStdKeeps(d0, child, memory);
    CloseAllKeeps(OpenStd(d0, child, memory), SlotOf(child, 0), SlotOf(child, FD_MAX));
  }

  lemma CloneTable(d: Fds, pid: int, child: int)
    requires Shape(d) && IsPid(pid) && IsPid(child) && pid != child
    ensures var r := Clone(d, SlotOf(pid, 0), SlotOf(pid, FD_MAX), SlotOf(child, 0));
      && r.live == d.live && r.dead == d.dead && OnlyTable(d, r, child)
      && forall fd | 0 <= fd < FD_MAX :: r.slots[SlotOf(child, fd)] == d.slots[SlotOf(pid, fd)]
  {
    var p0, p1, c0 := SlotOf(pid, 0), SlotOf(pid, FD_MAX), SlotOf(child, 0);
    var r := Clone(d, p0, p1, c0);
    CloneCopies(d, p0, p1, c0, 0);
    forall k | 0 <= k < |d.slots| && k / FD_MAX != child
      ensures r.slots[k] == d.slots[k]
    {
      TableOf(child, k);
      CloneCopies(d, p0, p1, c0, k);
    }
    forall fd | 0 <= fd < FD_MAX
      ensures r.slots[SlotOf(child, fd)] == d.slots[SlotOf(pid, fd)]
    {
      CloneCopies(d, p0, p1, c0, SlotOf(child, fd));
    }
  }

  /** After a fork the child has the parent's descriptors and no other table has changed. */
  lemma ForkKeeps(d: Fds, pid: int, child: int, memory: seq<bool>)
    requires Inv(d) && AbsentEmpty(d) && Enabled(d, Fork(pid, child, memory))
    ensures var r := Next(d, Fork(pid, child, memory));
      && Inv(r) && r.live == d.live + {child} && r.dead == d.dead && OnlyTable(d, r, child)
      && forall fd | 0 <= fd < FD_MAX :: r.slots[SlotOf(child, fd)] == d.slots[SlotOf(pid, fd)]
  {
    var d2 := Cleared(d, child, memory);
    ClearedKeeps(d, child, memory);
    CloneTable(d2, pid, child);
    assert forall k | SlotOf(child, 0) <= k < SlotOf(child, FD_MAX) :: d2.slots[k] == 0 by {
      forall k { TableOf(child, k); }
    }
    CloneKeeps(d2, SlotOf(pid, 0), SlotOf(pid, FD_MAX), SlotOf(child, 0));
  }

  predicate IsFd(fd: int) { 0 <= fd < FD_MAX }

  /** Afterwards the new descriptor refers to the file of the old one, and no other has changed; a call with a
      descriptor out of range or closed changes nothing. */
  lemma Dup2Keeps(d: Fds, pid: int, oldfd: int, newfd: int)
    requires Inv(d) && Enabled(d, Dup2(pid, oldfd, newfd))
    ensures var r := Next(d, Dup2(pid, oldfd, newfd));
      && Inv(r) && r.live == d.live && r.dead == d.dead && OnlyTable(d, r, pid)
      && if IsFd(oldfd) && IsFd(newfd) && d.slots[SlotOf(pid, oldfd)] != 0 then
           r.slots == d.slots[SlotOf(pid, newfd) := d.slots[SlotOf(pid, oldfd)]]
         else
           r == d
  {
    if 0 <= oldfd < FD_MAX && 0 <= newfd < FD_MAX && oldfd != newfd && d.slots[SlotOf(pid, oldfd)] != 0 {
      var i, f := SlotOf(pid, newfd), d.slots[SlotOf(pid, oldfd)];
      TableOf(pid, i);
      CloseKeeps(d, i);
      var d1 := CloseSlot(d, i);
      assert d1.slots[SlotOf(pid, oldfd)] == f;
      ShareKeeps(d1, i, f);
    }
  }

  lemma CreateKeeps(d: Fds, pid: int, memory: seq<bool>)
    requires Inv(d) && AbsentEmpty(d) && Enabled(d, Create(pid, memory))
    ensures var r := Next(d, Create(pid, memory));
      Inv(r) && r.live == d.live + {pid} && r.dead == d.dead && OnlyTable(d, r, pid)
  {
    forall k { TableOf(pid, k); }
    LiveKeeps(d, d.live + {pid}, d.dead);
    OpenStdKeeps(d.(live := d.live + {pid}), pid, memory);
  }

  /** A new process has descriptors 0, 1 and 2 as far as memory allows, each a file of its own, and no other. */
  lemma CreateSlots(d: Fds, pid: int, memory: seq<bool>)
    requires Inv(d) && AbsentEmpty(d) && Enabled(d, Create(pid, memory))
    ensures Next(d, Create(pid, memory)).slots == StdSlots(d, pid, memory)
  {
    forall k { TableOf(pid, k); }
    OpenStdSlots(d.(live := d.live + {pid}), pid, memory);
  }

  /** How many files have been opened before this one. */
  function Before(memory: seq<bool>, fd: int): nat
    requires 0 <= fd < |memory|
  {
    if fd == 0 then 0 else Before(memory, fd - 1) + if memory[fd - 1] then 1 else 0
  }

  /** Descriptor fd is the lowest free one of its table from `from` on. */
  predicate IsLowest(d: Fds, pid: int, from: int, fd: int)
    requires Shape(d) && IsPid(pid)
  {
    && 0 <= from <= fd < FD_MAX && d.slots[SlotOf(pid, fd)] == 0
    && forall k | from <= k < fd :: d.slots[SlotOf(pid, k)] != 0
  }

  lemma FreeSlotIsLowest(d: Fds, pid: int, from: int)
    requires Shape(d) && IsPid(pid) && 0 <= from <= FD_MAX
    ensures var fd := FreeSlot(d.slots, SlotOf(pid, from), SlotOf(pid, FD_MAX)) - SlotOf(pid, 0);
      && (fd == FD_MAX ==> forall k | from <= k < FD_MAX :: d.slots[SlotOf(pid, k)] != 0)
      && (fd < FD_MAX ==> IsLowest(d, pid, from, fd))
  {
  }

  /** The lowest free descriptor gets a new file; with a full table there is none, and nothing changes. */
  lemma OpenStepKeeps(d: Fds, pid: int)
    requires Inv(d) && Enabled(d, Open(pid))
    ensures var r := Next(d, Open(pid));
      && Inv(r) && r.live == d.live && r.dead == d.dead && OnlyTable(d, r, pid)
      && (forall fd | IsLowest(d, pid, 0, fd) ::
            r.slots == d.slots[SlotOf(pid, fd) := d.nextId] && r.files == d.files[d.nextId := File(1, Plain)])
      && ((forall fd | IsFd(fd) :: d.slots[SlotOf(pid, fd)] != 0) ==> r.slots == d.slots && r.files == d.files)
      && r.pipes == d.pipes
  {
    var i := FirstFree(d, pid);
    TableOf(pid, i);
    FreeSlotIsLowest(d, pid, 0);
    if i < SlotOf(pid, FD_MAX) {
      OpenKeeps(d, i);
    }
  }

  lemma PipeStepKeeps(d: Fds, pid: int)
    requires Inv(d) && Enabled(d, MakePipe(pid))
    ensures var r, p := Next(d, MakePipe(pid)), d.nextId;
      && Inv(r) && r.live == d.live && r.dead == d.dead && OnlyTable(d, r, pid)
      && r.files == d.files[p := File(1, ReadEnd(p))][p + 1 := File(1, WriteEnd(p))]
      && r.pipes == d.pipes[p := Ends(1, 1)]
  {
    var i := FirstFree(d, pid);
    var j := FreeSlot(d.slots, i + 1, SlotOf(pid, FD_MAX));
    TableOf(pid, i);
    TableOf(pid, j);
    PipeKeeps(d, i, j);
  }

  /** The two lowest free descriptors get the ends of the new pipe, the read end first. */
  lemma PipeStepSlots(d: Fds, pid: int, rfd: int, wfd: int)
    requires Shape(d) && Enabled(d, MakePipe(pid)) && IsLowest(d, pid, 0, rfd) && IsLowest(d, pid, rfd + 1, wfd)
    ensures Next(d, MakePipe(pid)).slots == d.slots[SlotOf(pid, rfd) := d.nextId][SlotOf(pid, wfd) := d.nextId + 1]
  {
    LowestIs(d, pid, 0, rfd);
    LowestIs(d, pid, rfd + 1, wfd);
  }

  lemma LowestIs(d: Fds, pid: int, from: int, fd: int)
    requires Shape(d) && IsPid(pid) && IsLowest(d, pid, from, fd)
    ensures FreeSlot(d.slots, SlotOf(pid, from), SlotOf(pid, FD_MAX)) == SlotOf(pid, fd)
  {
    FreeSlotIsLowest(d, pid, from);
  }

  lemma CloseStepKeeps(d: Fds, pid: int, fd: int)
    requires Inv(d) && Enabled(d, Close(pid, fd))
    ensures var r := Next(d, Close(pid, fd));
      && Inv(r) && r.live == d.live && r.dead == d.dead && OnlyTable(d, r, pid)
      && if IsFd(fd) then r.slots == d.slots[SlotOf(pid, fd) := 0] else r == d
  {
    if 0 <= fd < FD_MAX {
      TableOf(pid, SlotOf(pid, fd));
      CloseKeeps(d, SlotOf(pid, fd));
    }
  }

  /** A destroyed process leaves no reference behind, and no other table changes. */
  lemma DestroyKeeps(d: Fds, pid: int)
    requires Inv(d) && AbsentEmpty(d) && Enabled(d, Destroy(pid))
    ensures var r := Next(d, Destroy(pid));
      && Inv(r) && AbsentEmpty(r) && OnlyTable(d, r, pid) && r.live == d.live - {pid} && r.dead == d.dead - {pid}
      && forall fd | IsFd(fd) :: r.slots[SlotOf(pid, fd)] == 0
  {
    forall k { TableOf(pid, k); }
    var lo, hi := SlotOf(pid, 0), SlotOf(pid, FD_MAX);
    CloseAllKeeps(d, lo, hi);
    LiveKeeps(CloseAll(d, lo, hi), d.live - {pid}, d.dead - {pid});
  }

  lemma StepKeepsInv(d: Fds, step: Step)
    requires Inv(d) && AbsentEmpty(d) && Enabled(d, step)
    ensures Inv(Next(d, step)) && AbsentEmpty(Next(d, step))
  {
    var pid := step.pid;
    assert pid in d.live ==> d.live + {pid} == d.live;
    match step
    case Create(_, memory) => CreateKeeps(d, pid, memory); OnlyTableKeepsAbsent(d, Next(d, step), pid);
    case Open(_) => OpenStepKeeps(d, pid); OnlyTableKeepsAbsent(d, Next(d, step), pid);
    case Close(_, fd) => CloseStepKeeps(d, pid, fd); OnlyTableKeepsAbsent(d, Next(d, step), pid);
    case Dup2(_, oldfd, newfd) => Dup2Keeps(d, pid, oldfd, newfd); OnlyTableKeepsAbsent(d, Next(d, step), pid);
    case MakePipe(_) => PipeStepKeeps(d, pid); OnlyTableKeepsAbsent(d, Next(d, step), pid);
    case Fork(_, child, memory) => ForkKeeps(d, pid, child, memory); OnlyTableKeepsAbsent(d, Next(d, step), child);
    case Exit(_) => LiveKeeps(d, d.live, d.dead + {pid});
    case Restart(_) => LiveKeeps(d, d.live, d.dead - {pid});
    case Destroy(_) => DestroyKeeps(d, pid);
  }

  // ---------------------------------------------------------------------------------------------
  // Whole runs

  /** Nothing open, nobody alive. */
  function Boot(): Fds {
    Fds(seq(PROCS * FD_MAX, i => 0), map[], map[], {}, {}, 1)
  }

  predicate Linked(states: seq<Fds>, steps: seq<Step>, i: int)
    requires 0 <= i < |steps| < |states|
  {
    Shape(states[i]) && Enabled(states[i], steps[i]) && states[i + 1] == Next(states[i], steps[i])
  }

  ghost predicate IsRun(states: seq<Fds>, steps: seq<Step>) {
    |states| == |steps| + 1 && states[0] == Boot() && forall i | 0 <= i < |steps| :: Linked(states, steps, i)
  }

  lemma {:induction false} EveryRunIsSound(states: seq<Fds>, steps: seq<Step>, i: nat)
    requires IsRun(states, steps) && i < |states|
    ensures Inv(states[i]) && AbsentEmpty(states[i])
  {
    if i == 0 {
    } else {
      EveryRunIsSound(states, steps, i - 1);
      assert Linked(states, steps, i - 1);
      StepKeepsInv(states[i - 1], steps[i - 1]);
    }
  }

  lemma FindSlot(slots: seq<int>, f: int) returns (i: int)
    requires Refs(slots, f) > 0
    ensures 0 <= i < |slots| && slots[i] == f
  {
    assert f in multiset(slots);
    i :| 0 <= i < |slots| && slots[i] == f;
  }

  /** In every run, a file's reference count is the number of slots of all live processes that refer to
      it, and the file is gone exactly when that number is zero. */
  lemma RefcountIsSlotCount(states: seq<Fds>, steps: seq<Step>, i: nat, f: int)
    requires IsRun(states, steps) && i < |states| && f != 0
    ensures var d := states[i];
      if f in d.files then d.files[f].refcount == Refs(d.slots, f) > 0 else Refs(d.slots, f) == 0
  {
    EveryRunIsSound(states, steps, i);
    var d := states[i];
    if Refs(d.slots, f) > 0 {
      var i := FindSlot(d.slots, f);
    }
  }

  /** Some slot holds an end of this kind. */
  ghost predicate Held(d: Fds, kind: Kind) {
    exists i :: 0 <= i < |d.slots| && d.slots[i] in d.files && d.files[d.slots[i]].kind == kind
  }

  /** In every run, a pipe counts readers (writers) exactly while some slot holds its read (write) end, and it
      is released exactly when no slot holds either. */
  lemma PipeEndsFollowSlots(states: seq<Fds>, steps: seq<Step>, i: nat, p: int)
    requires IsRun(states, steps) && i < |states|
    ensures var d := states[i];
      && (p in d.pipes <==> Held(d, ReadEnd(p)) || Held(d, WriteEnd(p)))
      && (p in d.pipes ==>
            && (d.pipes[p].readers > 0 <==> Held(d, ReadEnd(p)))
            && (d.pipes[p].writers > 0 <==> Held(d, WriteEnd(p))))
  {
    EveryRunIsSound(states, steps, i);
    var d := states[i];
    if p in d.pipes {
      assert CountsEnds(d.files, p, d.pipes[p]);
      EndIsHeld(d, ReadEnd(p), d.pipes[p].readers);
      EndIsHeld(d, WriteEnd(p), d.pipes[p].writers);
    } else {
      assert forall f | f in d.files :: d.files[f].kind != ReadEnd(p) && d.files[f].kind != WriteEnd(p);
    }
  }

  lemma EndIsHeld(d: Fds, kind: Kind, n: nat)
    requires Inv(d) && HasEnd(d.files, kind, n)
    ensures (n > 0) == Held(d, kind)
  {
    if n > 0 {
      var f :| f in d.files && d.files[f].kind == kind;
      var i := FindSlot(d.slots, f);
      assert d.slots[i] in d.files && d.files[d.slots[i]].kind == kind;
    } else {
      assert forall f | f in d.files :: d.files[f].kind != kind;
    }
  }

  /** Who is there and who has exited after a step. */
  lemma StepLives(d: Fds, step: Step, pid: int)
    requires Inv(d) && AbsentEmpty(d) && Enabled(d, step)
    ensures var r := Next(d, step);
      && (pid in r.live <==>
            || (pid in d.live && step != Destroy(pid))
            || (step.Create? && step.pid == pid) || (step.Fork? && step.child == pid))
      && (pid in r.dead <==> step == Exit(pid) || (pid in d.dead && step != Restart(pid) && step != Destroy(pid)))
  {
    match step
    case Create(p, memory) => CreateKeeps(d, p, memory);
    case Open(p) => OpenStepKeeps(d, p);
    case Close(p, fd) => CloseStepKeeps(d, p, fd);
    case Dup2(p, oldfd, newfd) => Dup2Keeps(d, p, oldfd, newfd);
    case MakePipe(p) => PipeStepKeeps(d, p);
    case Fork(p, child, memory) => ForkKeeps(d, p, child, memory);
    case Exit(_) =>
    case Restart(_) =>
    case Destroy(p) => DestroyKeeps(d, p);
  }

  // ---------------------------------------------------------------------------------------------
  // The slots determine everything else

  /** What a step makes of file f, should f be new. */
  function NewKind(d: Fds, step: Step, f: int): Kind {
    if !step.MakePipe? then Plain else if f == d.nextId then ReadEnd(d.nextId) else WriteEnd(d.nextId)
  }

  /** No file has changed its kind, and new ones are of this kind. */
  ghost predicate KindsKept(d: Fds, step: Step, r: Fds) {
    forall f | f in r.files ::
      r.files[f].kind == if f in d.files then d.files[f].kind else NewKind(d, step, f)
  }

  lemma StepKeepsKinds(d: Fds, step: Step)
    requires Inv(d) && Enabled(d, step)
    ensures KindsKept(d, step, Next(d, step))
  {
    match step
    case Create(pid, memory) => OpenStdKinds(d.(live := d.live + {pid}), pid, memory);
    case Close(pid, fd) => if IsFd(fd) { CloseKinds(d, SlotOf(pid, fd)); }
    case Dup2(pid, oldfd, newfd) => if IsFd(newfd) { CloseKinds(d, SlotOf(pid, newfd)); }
    case Fork(pid, child, memory) => ForkKinds(d, pid, child, memory);
    case Destroy(pid) => CloseAllKeepsKinds(d, SlotOf(pid, 0), SlotOf(pid, FD_MAX));
    case _ =>
  }

  lemma CloseKinds(d: Fds, i: int)
    requires 0 <= i < |d.slots|
    ensures forall f | f in CloseSlot(d, i).files :: f in d.files && CloseSlot(d, i).files[f].kind == d.files[f].kind
  {
  }

  lemma OpenStdKinds(d: Fds, pid: int, memory: seq<bool>)
    requires Inv(d) && IsPid(pid) && |memory| == 3
    ensures var r := OpenStd(d, pid, memory);
      forall f | f in r.files :: r.files[f].kind == if f in d.files then d.files[f].kind else Plain
  {
  }

  lemma ForkKinds(d: Fds, pid: int, child: int, memory: seq<bool>)
    requires Inv(d) && Enabled(d, Fork(pid, child, memory))
    ensures KindsKept(d, Fork(pid, child, memory), Next(d, Fork(pid, child, memory)))
  {
    var d0 := d.(live := d.live + {child});
    OpenStdKinds(d0, child, memory);
    CloseAllKeepsKinds(OpenStd(d0, child, memory), SlotOf(child, 0), SlotOf(child, FD_MAX));
    CloneKeepsKinds(Cleared(d, child, memory), SlotOf(pid, 0), SlotOf(pid, FD_MAX), SlotOf(child, 0));
  }

  lemma SameFiles(d: Fds, e: Fds)
    requires Inv(d) && Inv(e) && d.slots == e.slots
    ensures d.files.Keys <= e.files.Keys
  {
    forall f | f in d.files
      ensures f in e.files
    {
      var i := FindSlot(d.slots, f);
    }
  }

  /** Two states with the same slots, whose files are of the same kinds, have the same reference counts and the
      same pipes with the same ends. So what a step does to the slots and the kinds says all that it does. */
  lemma SlotsDetermineFiles(d: Fds, e: Fds)
    requires Inv(d) && Inv(e) && d.slots == e.slots
    requires forall f | f in d.files && f in e.files :: d.files[f].kind == e.files[f].kind
    ensures d.files == e.files && d.pipes == e.pipes
  {
    SameFiles(d, e);
    SameFiles(e, d);
    forall f | f in d.files
      ensures d.files[f] == e.files[f]
    {
      assert d.files[f].refcount == Refs(d.slots, f) == e.files[f].refcount;
    }
    assert d.files == e.files;
    SamePipes(d, e);
    SamePipes(e, d);
    SameMap(d.pipes, e.pipes);
  }

  lemma SameMap(a: map<int, Ends>, b: map<int, Ends>)
    requires a.Keys <= b.Keys && b.Keys <= a.Keys && forall p | p in a :: b[p] == a[p]
    ensures a == b
  {
    forall p | p in a || p in b
      ensures p in a && p in b && a[p] == b[p]
    {
      assert p in a.Keys && p in b.Keys;
    }
  }

  lemma SamePipes(d: Fds, e: Fds)
    requires EndsOk(d) && EndsOk(e) && d.files == e.files
    ensures d.pipes.Keys <= e.pipes.Keys && forall p | p in d.pipes :: e.pipes[p] == d.pipes[p]
  {
    forall p | p in d.pipes
      ensures p in e.pipes && e.pipes[p] == d.pipes[p]
    {
      assert CountsEnds(d.files, p, d.pipes[p]);
      var f :| f in d.files && (d.files[f].kind == ReadEnd(p) || d.files[f].kind == WriteEnd(p));
      assert p in e.pipes && CountsEnds(e.files, p, e.pipes[p]);
      EndCount(d.files, ReadEnd(p), d.pipes[p].readers, e.pipes[p].readers);
      EndCount(d.files, WriteEnd(p), d.pipes[p].writers, e.pipes[p].writers);
    }
  }

  lemma EndCount(files: map<int, File>, kind: Kind, m: nat, n: nat)
    requires HasEnd(files, kind, m) && HasEnd(files, kind, n)
    ensures m == n
  {
  }

  // ---------------------------------------------------------------------------------------------
  // Descriptors of processes that have exited

  /** Process pid has a descriptor for an end of this kind. */
  ghost predicate Holds(d: Fds, pid: int, kind: Kind) {
    exists i :: 0 <= i < |d.slots| && i / FD_MAX == pid && d.slots[i] in d.files && d.files[d.slots[i]].kind == kind
  }

  lemma HeldByProcess(d: Fds, kind: Kind)
    requires Inv(d) && AbsentEmpty(d)
    ensures Held(d, kind) <==> exists pid :: pid in d.live && Holds(d, pid, kind)
  {
    if Held(d, kind) {
      var i :| 0 <= i < |d.slots| && d.slots[i] in d.files && d.files[d.slots[i]].kind == kind;
      assert i / FD_MAX in d.live && Holds(d, i / FD_MAX, kind);
    }
  }

  /** In every run, a write end counts as open exactly while some process in the table holds it, processes
      that have exited included. */
  lemma WritersAreProcesses(states: seq<Fds>, steps: seq<Step>, i: nat, p: int)
    requires IsRun(states, steps) && i < |states| && p in states[i].pipes
    ensures var d := states[i];
      d.pipes[p].writers > 0 <==> exists pid :: pid in d.live && Holds(d, pid, WriteEnd(p))
  {
    EveryRunIsSound(states, steps, i);
    PipeEndsFollowSlots(states, steps, i, p);
    HeldByProcess(states[i], WriteEnd(p));
  }

  /** What a reader finds on the empty pipe p: end of stream, or a reason to sleep. */
  function EmptyRead(ends: Ends, reader: int, want: nat): Pipes.ReadOutcome {
    Pipes.ReadTurn(Pipes.Pipe([], ends.readers, ends.writers, Pipes.NO_WAITER, Pipes.NO_WAITER), reader, want).1
  }

  /** Exit closes nothing: once every living process has closed the write end, a reader of the empty pipe sees
      the end of the stream if and only if no dead process still holds that end; otherwise it goes to
      sleep. */
  lemma EndOfStreamIffCollected(states: seq<Fds>, steps: seq<Step>, i: nat, p: int, reader: int, want: nat)
    requires IsRun(states, steps) && i < |states| && p in states[i].pipes
    requires forall pid | pid in states[i].live - states[i].dead :: !Holds(states[i], pid, WriteEnd(p))
    ensures var d := states[i];
      EmptyRead(d.pipes[p], reader, want) ==
      if forall pid | pid in d.dead :: !Holds(d, pid, WriteEnd(p)) then Pipes.Eof else Pipes.ReadBlocks
  {
    EveryRunIsSound(states, steps, i);
    WritersAreProcesses(states, steps, i, p);
  }

  // ---------------------------------------------------------------------------------------------
  // A reader kept asleep by a dead writer

  lemma RunExtends(states: seq<Fds>, steps: seq<Step>, step: Step)
    requires IsRun(states, steps) && Shape(states[|steps|]) && Enabled(states[|steps|], step)
    ensures IsRun(states + [Next(states[|steps|], step)], steps + [step])
  {
    var states', steps' := states + [Next(states[|steps|], step)], steps + [step];
    forall i | 0 <= i < |steps'|
      ensures Linked(states', steps', i)
    {
      assert i < |steps| ==> Linked(states, steps, i);
    }
  }

  lemma {:induction false} CloseAllNothing(d: Fds, i: int, end: int)
    requires 0 <= i <= end <= |d.slots| && 0 !in d.files && forall k | i <= k < end :: d.slots[k] == 0
    ensures CloseAll(d, i, end) == d
    decreases end - i
  {
    if end <= i {
    } else {
      assert d.slots[i := 0] == d.slots;
      CloseAllNothing(d, i + 1, end);
    }
  }

  /** Cloning a table changes no file but for its count, and no pipe. */
  lemma {:induction false} CloneKeepsKinds(d: Fds, src: int, end: int, dst: int)
    requires 0 <= src <= end <= |d.slots| && 0 <= dst && dst + (end - src) <= |d.slots|
    ensures var r := Clone(d, src, end, dst);
      && r.pipes == d.pipes && r.files.Keys == d.files.Keys
      && forall f | f in d.files :: r.files[f].kind == d.files[f].kind
    decreases end - src
  {
    if end <= src {
    } else {
      var d1 := d.(slots := d.slots[dst := d.slots[src]]);
      CloneKeepsKinds(if d.slots[src] == 0 then d1 else Share(d, dst, d.slots[src]), src + 1, end, dst + 1);
    }
  }

  const NO_MEMORY := [false, false, false]

  /** Process 1 has the read end of pipe 1 as descriptor 0, process 2 both ends, and nobody else anything. */
  predicate Shared(d: Fds) {
    && Shape(d) && 1 in d.pipes && 1 in d.files && d.files[1].kind == ReadEnd(1)
    && 2 in d.files && d.files[2].kind == WriteEnd(1)
    && d.slots[SlotOf(1, 0)] == 1 && d.slots[SlotOf(2, 0)] == 1 && d.slots[SlotOf(2, 1)] == 2
    && (forall k | 0 <= k < |d.slots| && k / FD_MAX != 1 && k / FD_MAX != 2 :: d.slots[k] == 0)
  }

  /** A process with a new pipe and nothing else. */
  lemma RunToPipe() returns (states: seq<Fds>, steps: seq<Step>)
    ensures IsRun(states, steps)
    ensures var d := states[|steps|];
      && d.live == {1} && d.dead == {} && d.pipes == map[1 := Ends(1, 1)]
      && d.files == map[1 := File(1, ReadEnd(1)), 2 := File(1, WriteEnd(1))]
      && d.slots == Boot().slots[SlotOf(1, 0) := 1][SlotOf(1, 1) := 2] && Shape(d)
  {
    var d0 := Boot();
    states, steps := [d0], [];
    RunExtends(states, steps, Create(1, NO_MEMORY));
    var d1 := Next(d0, Create(1, NO_MEMORY));
    assert d1 == d0.(live := {1});
    states, steps := states + [d1], steps + [Create(1, NO_MEMORY)];
    assert FirstFree(d1, 1) == SlotOf(1, 0);
    assert FreeSlot(d1.slots, SlotOf(1, 0) + 1, SlotOf(1, FD_MAX)) == SlotOf(1, 1);
    RunExtends(states, steps, MakePipe(1));
    states, steps := states + [Next(d1, MakePipe(1))], steps + [MakePipe(1)];
  }

  lemma RunToFork() returns (states: seq<Fds>, steps: seq<Step>)
    ensures IsRun(states, steps) && Shared(states[|steps|])
    ensures states[|steps|].live == {1, 2} && states[|steps|].dead == {} && states[|steps|].slots[SlotOf(1, 1)] == 2
    ensures forall k | SlotOf(1, 2) <= k < SlotOf(1, FD_MAX) :: states[|steps|].slots[k] == 0
  {
    states, steps := RunToPipe();
    var d := states[|steps|];
    EveryRunIsSound(states, steps, |steps|);
    RunExtends(states, steps, Fork(1, 2, NO_MEMORY));
    ForkSharesPipe(d);
    states, steps := states + [Next(d, Fork(1, 2, NO_MEMORY))], steps + [Fork(1, 2, NO_MEMORY)];
  }

  lemma ForkSharesPipe(d: Fds)
    requires Inv(d) && AbsentEmpty(d) && d.live == {1} && d.dead == {} && d.pipes == map[1 := Ends(1, 1)]
    requires d.files == map[1 := File(1, ReadEnd(1)), 2 := File(1, WriteEnd(1))]
    requires d.slots == Boot().slots[SlotOf(1, 0) := 1][SlotOf(1, 1) := 2]
    ensures var r := Next(d, Fork(1, 2, NO_MEMORY));
      && Shared(r) && r.live == {1, 2} && r.dead == {} && r.slots[SlotOf(1, 1)] == 2
      && forall k | SlotOf(1, 2) <= k < SlotOf(1, FD_MAX) :: r.slots[k] == 0
  {
    ForkKeeps(d, 1, 2, NO_MEMORY);
    ForkKeepsKinds(d, 1, 2, NO_MEMORY);
    var r := Next(d, Fork(1, 2, NO_MEMORY));
    assert r.slots[SlotOf(2, 0)] == d.slots[SlotOf(1, 0)] && r.slots[SlotOf(2, 1)] == d.slots[SlotOf(1, 1)];
  }

  /** A fork without memory for the standard descriptors changes no file but for its count, and no pipe. */
  lemma ForkKeepsKinds(d: Fds, pid: int, child: int, memory: seq<bool>)
    requires Inv(d) && AbsentEmpty(d) && Enabled(d, Fork(pid, child, memory)) && memory == NO_MEMORY
    ensures var r := Next(d, Fork(pid, child, memory));
      && r.pipes == d.pipes && r.files.Keys == d.files.Keys
      && forall f | f in d.files :: r.files[f].kind == d.files[f].kind
  {
    forall k { TableOf(child, k); }
    var d1 := d.(live := d.live + {child});
    assert OpenStd(d1, child, memory) == d1;
    CloseAllNothing(d1, SlotOf(child, 0), SlotOf(child, FD_MAX));
    CloneKeepsKinds(d1, SlotOf(pid, 0), SlotOf(pid, FD_MAX), SlotOf(child, 0));
  }

  lemma RunToExit() returns (states: seq<Fds>, steps: seq<Step>)
    ensures IsRun(states, steps) && Shared(states[|steps|])
    ensures states[|steps|].live == {1, 2} && states[|steps|].dead == {2}
    ensures forall k | SlotOf(1, 1) <= k < SlotOf(1, FD_MAX) :: states[|steps|].slots[k] == 0
  {
    states, steps := RunToFork();
    var d := states[|steps|];
    EveryRunIsSound(states, steps, |steps|);
    RunExtends(states, steps, Close(1, 1));
    var d1 := Next(d, Close(1, 1));
    CloseOneOfTwo(d);
    states, steps := states + [d1], steps + [Close(1, 1)];
    RunExtends(states, steps, Exit(2));
    states, steps := states + [d1.(dead := d1.dead + {2})], steps + [Exit(2)];
  }

  /** Closing one of two descriptors of a file leaves the file and its pipe open. */
  lemma CloseOneOfTwo(d: Fds)
    requires Inv(d) && Shared(d) && d.slots[SlotOf(1, 1)] == 2
    ensures var r := CloseSlot(d, SlotOf(1, 1));
      Shared(r) && r.slots == d.slots[SlotOf(1, 1) := 0] && r.live == d.live && r.dead == d.dead
  {
    var r := CloseSlot(d, SlotOf(1, 1));
    CloseKeeps(d, SlotOf(1, 1));
    SlotRefers(r.slots, SlotOf(2, 1));
    RefsAfter(d.slots, SlotOf(1, 1), 0, 2);
    assert d.files[2].refcount > 1;
  }

  /** A run in which the only writer has exited: its descriptor still counts, so a reader of the empty pipe
      goes to sleep. Only when the dead writer is collected does a read see the end of the stream. */
  lemma DeadWriterHoldsPipe() returns (states: seq<Fds>, steps: seq<Step>)
    ensures IsRun(states, steps) && |steps| > 0 && steps[|steps| - 1] == Destroy(2)
    ensures var d, d' := states[|steps| - 1], states[|steps|];
      && Holds(d, 1, ReadEnd(1)) && 2 in d.dead && (forall pid | pid in d.live - d.dead :: !Holds(d, pid, WriteEnd(1)))
      && 1 in d.pipes && d.pipes[1].writers == 1 && EmptyRead(d.pipes[1], 1, 1) == Pipes.ReadBlocks
      && 1 in d'.pipes && d'.pipes[1].writers == 0 && EmptyRead(d'.pipes[1], 1, 1) == Pipes.Eof
  {
    states, steps := RunToExit();
    var d := states[|steps|];
    EveryRunIsSound(states, steps, |steps|);
    PipeEndsFollowSlots(states, steps, |steps|, 1);
    assert d.slots[SlotOf(1, 0)] in d.files && SlotOf(1, 0) / FD_MAX == 1;
    assert d.slots[SlotOf(2, 1)] in d.files;
    assert CountsEnds(d.files, 1, d.pipes[1]);
    forall k { TableOf(1, k); }
    RunExtends(states, steps, Destroy(2));
    var d' := Next(d, Destroy(2));
    CollectedLetsGo(d, 2);
    states, steps := states + [d'], steps + [Destroy(2)];
    PipeEndsFollowSlots(states, steps, |steps|, 1);
  }

  /** What is left of the shared pipe once process pid is destroyed. */
  lemma CollectedLetsGo(d: Fds, pid: int)
    requires Inv(d) && AbsentEmpty(d) && Shared(d) && Enabled(d, Destroy(pid)) && pid == 2
    requires forall k | SlotOf(1, 1) <= k < SlotOf(1, FD_MAX) :: d.slots[k] == 0
    ensures Held(Next(d, Destroy(pid)), ReadEnd(1)) && !Held(Next(d, Destroy(pid)), WriteEnd(1))
  {
    var r := Next(d, Destroy(pid));
    CollectedSlots(d, pid);
    DestroyKeeps(d, pid);
    CloseAllKeepsKinds(d, SlotOf(pid, 0), SlotOf(pid, FD_MAX));
    assert r.slots[SlotOf(1, 0)] == 1 && r.slots[SlotOf(1, 0)] in r.files;
  }

  lemma CollectedSlots(d: Fds, pid: int)
    requires Inv(d) && Shared(d) && Enabled(d, Destroy(pid)) && pid == 2
    requires forall k | SlotOf(1, 1) <= k < SlotOf(1, FD_MAX) :: d.slots[k] == 0
    ensures var r := Next(d, Destroy(pid));
      |r.slots| == |d.slots| && forall k | 0 <= k < |d.slots| :: r.slots[k] == if k == SlotOf(1, 0) then 1 else 0
  {
    CloseAllKeeps(d, SlotOf(pid, 0), SlotOf(pid, FD_MAX));
    forall k { TableOf(1, k); }
    forall k { TableOf(pid, k); }
  }

  /** Closing gives no file another kind. */
  lemma {:induction false} CloseAllKeepsKinds(d: Fds, i: int, end: int)
    requires 0 <= i <= end <= |d.slots|
    ensures var r := CloseAll(d, i, end);
      forall f | f in r.files :: f in d.files && r.files[f].kind == d.files[f].kind
    decreases end - i
  {
    if end <= i {
    } else {
      CloseAllKeepsKinds(CloseSlot(d, i), i + 1, end);
    }
  }
}
