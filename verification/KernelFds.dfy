/** The routines of `kernel/proc/fd.c`, `vfs_close`, the open, close, dup2 and pipe system calls, and what
    fork and destroy do to descriptors, changing table slots and reference counts in place, proved to take
    the steps of `Descriptors`. */
module KernelFds {
  import opened Descriptors

  class FdLayer {
    const slots: array<int>
    var files: map<int, File>
    var pipes: map<int, Ends>
    var nextId: int
    ghost var live: set<int>
    ghost var dead: set<int>

    ghost predicate Valid()
      reads this
    {
      slots.Length == PROCS * FD_MAX && nextId > 0 && forall f | f in files :: 0 < f < nextId
    }

    ghost function Abs(): Fds
      requires Valid()
      reads this, slots
    {
      Fds(slots[..], files, pipes, live, dead, nextId)
    }

    constructor ()
      ensures fresh(slots) && Valid() && Abs() == Boot()
    {
      slots := new int[PROCS * FD_MAX](_ => 0);
      files, pipes, nextId := map[], map[], 1;
      live, dead := {}, {};
      new;
      assert slots[..] == Boot().slots;
    }

    /** `vfs_close` on file f. */
    method VfsClose(f: int)
      requires Valid() && f in files
      modifies this`files, this`pipes
      ensures Valid() && Abs() == Drop(old(Abs()), f)
    {
      var file := files[f];
      if file.refcount > 1 {
        files := files[f := file.(refcount := file.refcount - 1)];
        return;
      }
      files := files - {f};
      match file.kind {
        case Plain =>
        case ReadEnd(p) => if p in pipes { EndsChanged(p, Less(pipes[p].readers), pipes[p].writers); }
        case WriteEnd(p) => if p in pipes { EndsChanged(p, pipes[p].readers, Less(pipes[p].writers)); }
      }
    }

    /** `pipe_maybe_free` after a count has changed. */
    method EndsChanged(p: int, readers: nat, writers: nat)
      requires Valid()
      modifies this`pipes
      ensures Valid() && Abs() == SetEnds(old(Abs()), p, readers, writers)
    {
      if readers == 0 && writers == 0 {
        pipes := pipes - {p};
      } else {
        pipes := pipes[p := Ends(readers, writers)];
      }
    }

    /** `fd_close` on slot i. */
    method FdClose(i: int)
      requires Valid() && 0 <= i < slots.Length
      modifies slots, this`files, this`pipes
      ensures Valid() && Abs() == CloseSlot(old(Abs()), i)
    {
      var f := slots[i];
      if f in files {
        VfsClose(f);
      }
      slots[i] := 0;
      assert slots[..] == old(slots[..])[i := 0];
    }

    /** `fd_table_close_all` */
    method FdTableCloseAll(pid: int)
      requires Valid() && IsPid(pid)
      modifies slots, this`files, this`pipes
      ensures Valid() && Abs() == CloseAll(old(Abs()), SlotOf(pid, 0), SlotOf(pid, FD_MAX))
    {
      var i, end := SlotOf(pid, 0), SlotOf(pid, FD_MAX);
      while i < end
        invariant SlotOf(pid, 0) <= i <= end && Valid()
        invariant CloseAll(Abs(), i, end) == CloseAll(old(Abs()), SlotOf(pid, 0), end)
      {
        FdClose(i);
        i := i + 1;
      }
    }

    /** `fd_table_clone` */
    method FdTableClone(src: int, dst: int)
      requires Valid() && IsPid(src) && IsPid(dst)
      modifies slots, this`files
      ensures Valid() && Abs() == Clone(old(Abs()), SlotOf(src, 0), SlotOf(src, FD_MAX), SlotOf(dst, 0))
    {
      var i, end := SlotOf(src, 0), SlotOf(src, FD_MAX);
      while i < end
        invariant SlotOf(src, 0) <= i <= end && Valid()
        invariant Clone(Abs(), i, end, SlotOf(dst, 0) + i - SlotOf(src, 0))
                  == Clone(old(Abs()), SlotOf(src, 0), end, SlotOf(dst, 0))
      {
        CloneSlot(i, SlotOf(dst, 0) + i - SlotOf(src, 0));
        i := i + 1;
      }
    }

    method CloneSlot(i: int, k: int)
      requires Valid() && 0 <= i < slots.Length && 0 <= k < slots.Length
      modifies slots, this`files
      ensures Valid()
      ensures var d := old(Abs());
        Abs() == if d.slots[i] == 0 then d.(slots := d.slots[k := 0]) else Share(d, k, d.slots[i])
    {
      var f := slots[i];
      slots[k] := f;
      assert slots[..] == old(slots[..])[k := f];
      if f != 0 && f in files {
        files := files[f := files[f].(refcount := files[f].refcount + 1)];
      }
    }

    /** `fd_install`: the slot used, or -1. */
    method FdInstall(pid: int, f: int) returns (i: int)
      requires Valid() && IsPid(pid)
      modifies slots
      ensures Valid()
      ensures var k := FirstFree(old(Abs()), pid);
        if k < SlotOf(pid, FD_MAX) then i == k && slots[..] == old(slots[..])[k := f]
        else i == -1 && slots[..] == old(slots[..])
    {
      i := SlotOf(pid, 0);
      var end := SlotOf(pid, FD_MAX);
      while i < end
        invariant SlotOf(pid, 0) <= i <= end
        invariant forall k | SlotOf(pid, 0) <= k < i :: slots[k] != 0
        invariant slots[..] == old(slots[..])
      {
        if slots[i] == 0 {
          slots[i] := f;
          return;
        }
        i := i + 1;
      }
      return -1;
    }

    /** `sys_open` once the vnode is known; `memory` tells whether a file object can be allocated. */
    method SysOpen(pid: int, memory: bool) returns (fd: int)
      requires Valid() && Enabled(Abs(), Open(pid))
      modifies this, slots
      ensures Valid()
      ensures Abs() == if memory then Next(old(Abs()), Open(pid)) else old(Abs())
      ensures var i := FirstFree(old(Abs()), pid);
        fd == if memory && i < SlotOf(pid, FD_MAX) then i - SlotOf(pid, 0) else -1
    {
      if !memory {
        return -1;
      }
      var f := nextId;
      nextId := nextId + 1;
      files := files[f := File(1, Plain)];
      var i := FdInstall(pid, f);
      if i < 0 {
        files := files - {f};
        assert files == old(files);
        return -1;
      }
      return i - SlotOf(pid, 0);
    }

    method SysDup2(pid: int, oldfd: int, newfd: int) returns (r: int)
      requires Valid() && Enabled(Abs(), Dup2(pid, oldfd, newfd))
      modifies slots, this`files, this`pipes
      ensures Valid() && Abs() == Next(old(Abs()), Dup2(pid, oldfd, newfd))
      ensures var before := old(slots[..]);
        if IsFd(oldfd) && IsFd(newfd) && before[SlotOf(pid, oldfd)] != 0 then
          r == newfd && slots[..] == before[SlotOf(pid, newfd) := before[SlotOf(pid, oldfd)]]
        else
          r == -1 && slots[..] == before
    {
      if oldfd < 0 || oldfd >= FD_MAX || newfd < 0 || newfd >= FD_MAX {
        return -1;
      }
      var f := slots[SlotOf(pid, oldfd)];
      if f == 0 {
        return -1;
      }
      if oldfd == newfd {
        return newfd;
      }
      var i := SlotOf(pid, newfd);
      FdClose(i);
      ghost var before := slots[..];
      slots[i] := f;
      assert slots[..] == before[i := f];
      if f in files {
        files := files[f := files[f].(refcount := files[f].refcount + 1)];
      }
      return newfd;
    }

    method SysClose(pid: int, fd: int) returns (r: int)
      requires Valid() && Enabled(Abs(), Close(pid, fd))
      modifies slots, this`files, this`pipes
      ensures Valid() && Abs() == Next(old(Abs()), Close(pid, fd))
      ensures r == if 0 <= fd < FD_MAX && old(slots[..])[SlotOf(pid, fd)] != 0 then 0 else -1
    {
      if fd < 0 || fd >= FD_MAX {
        return -1;
      }
      if slots[SlotOf(pid, fd)] == 0 {
        assert old(slots[..])[SlotOf(pid, fd) := 0] == old(slots[..]);
        return -1;
      }
      FdClose(SlotOf(pid, fd));
      return 0;
    }

    /** `pipe_create`, where memory and two free slots can be had: the two descriptors. */
    method PipeCreate(pid: int) returns (rfd: int, wfd: int)
      requires Valid() && Enabled(Abs(), MakePipe(pid))
      modifies this, slots
      ensures Valid() && Abs() == Next(old(Abs()), MakePipe(pid))
      ensures 0 <= rfd < wfd < FD_MAX
      ensures slots[..] == old(slots[..])[SlotOf(pid, rfd) := old(nextId)][SlotOf(pid, wfd) := old(nextId) + 1]
    {
      var p := nextId;
      nextId := p + 2;
      pipes := pipes[p := Ends(1, 1)];
      files := files[p := File(1, ReadEnd(p))][p + 1 := File(1, WriteEnd(p))];
      var i := FdInstall(pid, p);
      SecondFree(old(slots[..]), SlotOf(pid, 0), i, SlotOf(pid, FD_MAX), p);
      var j := FdInstall(pid, p + 1);
      return i - SlotOf(pid, 0), j - SlotOf(pid, 0);
    }

    /** `fd_table_init` for a new process. */
    method FdTableInit(pid: int, memory: seq<bool>)
      requires Valid() && IsPid(pid) && |memory| == 3
      modifies slots, this`files, this`nextId
      ensures Valid() && Abs() == OpenStd(old(Abs()), pid, memory)
    {
      OpenStdSlot(SlotOf(pid, 0), memory[0]);
      OpenStdSlot(SlotOf(pid, 1), memory[1]);
      OpenStdSlot(SlotOf(pid, 2), memory[2]);
    }

    method OpenStdSlot(i: int, memory: bool)
      requires Valid() && 0 <= i < slots.Length
      modifies slots, this`files, this`nextId
      ensures Valid() && Abs() == OpenIf(old(Abs()), i, memory)
    {
      if memory {
        slots[i] := nextId;
        assert slots[..] == old(slots[..])[i := nextId];
        files := files[nextId := File(1, Plain)];
        nextId := nextId + 1;
      }
    }

    /** What `proc_fork` does to descriptors: those of the new process are opened, closed again, and replaced
        by the parent's. */
    method ForkTable(pid: int, child: int, memory: seq<bool>)
      requires Valid() && Enabled(Abs(), Fork(pid, child, memory))
      modifies this, slots
      ensures Valid() && Abs() == Next(old(Abs()), Fork(pid, child, memory))
    {
      live := live + {child};
      FdTableInit(child, memory);
      FdTableCloseAll(child);
      FdTableClone(pid, child);
    }

    /** What `proc_destroy` does to descriptors. */
    method DestroyTable(pid: int)
      requires Valid() && Enabled(Abs(), Destroy(pid))
      modifies this, slots
      ensures Valid() && Abs() == Next(old(Abs()), Destroy(pid))
    {
      FdTableCloseAll(pid);
      live, dead := live - {pid}, dead - {pid};
    }
  }

  /** With the lowest free slot i taken, the next one up is the lowest. */
  lemma SecondFree(slots: seq<int>, lo: int, i: int, hi: int, f: int)
    requires 0 <= lo <= i < hi <= |slots| && i == FreeSlot(slots, lo, hi) && f != 0
    ensures FreeSlot(slots[i := f], lo, hi) == FreeSlot(slots, i + 1, hi)
  {
    var r := FreeSlot(slots, i + 1, hi);
    FreeSlotIs(slots[i := f], lo, hi, r);
  }

  lemma {:induction false} FreeSlotIs(slots: seq<int>, i: int, hi: int, r: int)
    requires 0 <= i <= r <= hi <= |slots| && (r < hi ==> slots[r] == 0) && forall k | i <= k < r :: slots[k] != 0
    ensures FreeSlot(slots, i, hi) == r
  {
  }
}
