/** One pipe of `kernel/fs/pipe.c`, seen as a bounded queue of bytes with two waiter slots. */
module Pipes {
  import opened Bytes

  const BUFSZ: int := 4096
  const NO_WAITER: int := 0xFFFF

  /** `blockedReader` and `blockedWriter` hold the PID asleep on that end, or NO_WAITER. */
  datatype Pipe = Pipe(buf: seq<byte>, readers: nat, writers: nat, blockedReader: int, blockedWriter: int)

  /** What one turn of the read loop does; `wake` is a PID to wake, or NO_WAITER. */
  datatype ReadOutcome = Eof | ReadBlocks | Got(data: seq<byte>, wake: int)

  datatype WriteOutcome = Broken | WriteBlocks | Put(n: nat, wake: int)

  /** `pipe_create` on success: one read end and one write end. */
  const FRESH: Pipe := Pipe([], 1, 1, NO_WAITER, NO_WAITER)

  /** One turn of `pipe_read_op` by process `pid` that still wants `want` bytes. */
  function ReadTurn(p: Pipe, pid: int, want: nat): (Pipe, ReadOutcome) {
    if p.buf == [] then
      if p.writers == 0 then (p, Eof) else (p.(blockedReader := pid), ReadBlocks)
    else
      var n := Min(want, |p.buf|);
      (p.(buf := p.buf[n..], blockedWriter := NO_WAITER), Got(p.buf[..n], p.blockedWriter))
  }

  /** One turn of `pipe_write_op` by process `pid` with `rest` still to write. After a sleep the loop on
      a full buffer goes on without a fresh look at the readers. */
  function WriteTurn(p: Pipe, pid: int, rest: seq<byte>, slept: bool): (Pipe, WriteOutcome)
    requires |p.buf| <= BUFSZ
  {
    if p.readers == 0 && (!slept || |p.buf| == BUFSZ) then (p, Broken)
    else if |p.buf| == BUFSZ then (p.(blockedWriter := pid), WriteBlocks)
    else
      var n := Min(|rest|, BUFSZ - |p.buf|);
      (p.(buf := p.buf + rest[..n], blockedReader := NO_WAITER), Put(n, p.blockedReader))
  }

  /** Closing an end wakes the peer when it was the last one; the PID to wake comes second. */
  function CloseRead(p: Pipe): (Pipe, int) {
    var r := if p.readers > 0 then p.readers - 1 else 0;
    if r == 0 then (p.(readers := r, blockedWriter := NO_WAITER), p.blockedWriter)
    else (p.(readers := r), NO_WAITER)
  }

  function CloseWrite(p: Pipe): (Pipe, int) {
    var w := if p.writers > 0 then p.writers - 1 else 0;
    if w == 0 then (p.(writers := w, blockedReader := NO_WAITER), p.blockedReader)
    else (p.(writers := w), NO_WAITER)
  }
}

/** The routines of `kernel/fs/pipe.c` on the ring buffer, proved to act as `Pipes`. */
module KernelPipe {
  import opened Bytes
  import opened Pipes

  /** Byte i of a ring that starts at `head`. */
  function At(ring: seq<byte>, head: int, i: int): byte
    requires |ring| == BUFSZ
  {
    ring[(head + i) % BUFSZ]
  }

  function Buffered(ring: seq<byte>, head: int, count: nat): seq<byte>
    requires |ring| == BUFSZ
  {
    seq(count, i => At(ring, head, i))
  }

  /** Dropping n bytes is moving the head. */
  lemma DropMovesHead(ring: seq<byte>, head: int, count: nat, n: nat)
    requires |ring| == BUFSZ && n <= count
    ensures Buffered(ring, (head + n) % BUFSZ, count - n) == Buffered(ring, head, count)[n..]
  {
  }

  lemma WrapTwice(a: int, i: int)
    ensures (a % BUFSZ + i) % BUFSZ == (a + i) % BUFSZ
  {
  }

  /** Storing behind the last byte appends. */
  lemma StoreAppends(ring: seq<byte>, head: int, count: nat, b: byte)
    requires |ring| == BUFSZ && count < BUFSZ && 0 <= head < BUFSZ
    ensures Buffered(ring[(head + count) % BUFSZ := b], head, count + 1) == Buffered(ring, head, count) + [b]
  {
  }

  class KPipe {
    const ring: array<byte>
    var head: int
    var count: nat
    var readers: nat
    var writers: nat
    var blockedReader: int
    var blockedWriter: int

    ghost predicate Valid()
      reads this
    {
      ring.Length == BUFSZ && 0 <= head < BUFSZ && count <= BUFSZ
    }

    ghost function Contents(): seq<byte>
      requires Valid()
      reads this, ring
    {
      Buffered(ring[..], head, count)
    }

    ghost function Abs(): Pipe
      requires Valid()
      reads this, ring
    {
      Pipe(Contents(), readers, writers, blockedReader, blockedWriter)
    }

    constructor ()
      ensures fresh(ring) && Valid() && Abs() == FRESH
    {
      ring := new byte[BUFSZ](_ => 0);
      head, count := 0, 0;
      readers, writers := 1, 1;
      blockedReader, blockedWriter := NO_WAITER, NO_WAITER;
    }

    /** The copying loop of `pipe_read_op`. */
    method TakeBatch(batch: nat) returns (dst: seq<byte>)
      requires Valid() && batch <= count
      modifies this`head, this`count
      ensures Valid() && dst == old(Contents())[..batch] && Contents() == old(Contents())[batch..]
    {
      dst := [];
      ghost var h := head;
      for i := 0 to batch
        invariant 0 <= head < BUFSZ && head == (h + i) % BUFSZ && count == old(count)
        invariant dst == Buffered(ring[..], h, i)
      {
        dst := dst + [ring[head]];
        head := (head + 1) % BUFSZ;
        WrapTwice(h + i, 1);
      }
      DropMovesHead(ring[..], h, count, batch);
      assert Buffered(ring[..], h, batch) == Buffered(ring[..], h, count)[..batch];
      count := count - batch;
    }

    /** The copying loop of `pipe_write_op`. */
    method PutBatch(src: seq<byte>, batch: nat)
      requires Valid() && batch <= |src| && count + batch <= BUFSZ
      modifies ring, this`count
      ensures Valid() && Contents() == old(Contents()) + src[..batch]
    {
      var tail := (head + count) % BUFSZ;
      for i := 0 to batch
        invariant tail == (head + count + i) % BUFSZ && count == old(count)
        invariant Buffered(ring[..], head, count + i) == old(Contents()) + src[..i]
      {
        ghost var r := ring[..];
        ring[tail] := src[i];
        assert ring[..] == r[tail := src[i]];
        StoreAppends(r, head, count + i, src[i]);
        assert src[..i] + [src[i]] == src[..i + 1];
        tail := (tail + 1) % BUFSZ;
        WrapTwice(head + count + i, 1);
      }
      count := count + batch;
    }

    /** `pipe_wake_peer`: clears the slot and returns the PID that was in it. */
    method WakePeer(wokeByWrite: bool) returns (peer: int)
      requires Valid()
      modifies this`blockedReader, this`blockedWriter
      ensures Valid()
      ensures if wokeByWrite then
          peer == old(blockedReader) && blockedReader == NO_WAITER && blockedWriter == old(blockedWriter)
        else
          peer == old(blockedWriter) && blockedWriter == NO_WAITER && blockedReader == old(blockedReader)
    {
      peer := if wokeByWrite then blockedReader else blockedWriter;
      if peer == NO_WAITER {
        return;
      }
      if wokeByWrite {
        blockedReader := NO_WAITER;
      } else {
        blockedWriter := NO_WAITER;
      }
    }

    /** One turn of the loop of `pipe_read_op`. */
    method ReadTurn(pid: int, want: nat) returns (outcome: ReadOutcome)
      requires Valid()
      modifies this`head, this`count, this`blockedReader, this`blockedWriter
      ensures Valid() && (Abs(), outcome) == Pipes.ReadTurn(old(Abs()), pid, want)
    {
      if count == 0 {
        if writers == 0 {
          return Eof;
        }
        blockedReader := pid;
        return ReadBlocks;
      }
      var batch := want;
      if batch > count {
        batch := count;
      }
      var dst := TakeBatch(batch);
      var peer := WakePeer(false);
      return Got(dst, peer);
    }

    /** One turn of the loop of `pipe_write_op`. */
    method WriteTurn(pid: int, rest: seq<byte>, slept: bool) returns (outcome: WriteOutcome)
      requires Valid()
      modifies ring, this`count, this`blockedReader, this`blockedWriter
      ensures Valid() && (Abs(), outcome) == Pipes.WriteTurn(old(Abs()), pid, rest, slept)
    {
      if !slept && readers == 0 {
        return Broken;
      }
      if count == BUFSZ {
        if readers == 0 {
          return Broken;
        }
        blockedWriter := pid;
        return WriteBlocks;
      }
      var space := BUFSZ - count;
      var batch := |rest|;
      if batch > space {
        batch := space;
      }
      PutBatch(rest, batch);
      var peer := WakePeer(true);
      return Put(batch, peer);
    }

    /** `pipe_close_read`; `gone` tells that the pipe is released. */
    method CloseRead() returns (peer: int, gone: bool)
      requires Valid()
      modifies this`readers, this`blockedReader, this`blockedWriter
      ensures Valid() && (Abs(), peer) == Pipes.CloseRead(old(Abs()))
      ensures gone <==> readers == 0 && writers == 0
    {
      if readers > 0 {
        readers := readers - 1;
      }
      peer := NO_WAITER;
      if readers == 0 {
        peer := WakePeer(false);
      }
      gone := readers == 0 && writers == 0;
    }

    method CloseWrite() returns (peer: int, gone: bool)
      requires Valid()
      modifies this`writers, this`blockedReader, this`blockedWriter
      ensures Valid() && (Abs(), peer) == Pipes.CloseWrite(old(Abs()))
      ensures gone <==> readers == 0 && writers == 0
    {
      if writers > 0 {
        writers := writers - 1;
      }
      peer := NO_WAITER;
      if writers == 0 {
        peer := WakePeer(true);
      }
      gone := readers == 0 && writers == 0;
    }
  }
}
