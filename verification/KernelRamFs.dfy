/** `ramfs_open`, `ramfs_read`, `ramfs_write` and `vfs_read`, `vfs_write` on a growing buffer, proved
    against byte sequences. */
module KernelRamFs {
  import opened Machine
  import opened Bytes
  import opened RamFiles

  /** A regular file's vnode and inode. */
  class RamFile {
    var buf: array<byte>     // length 0 stands for a null pointer
    var capacity: int
    var size: nat
    ghost var doublings: nat // capacity is 0 or Cap(doublings)

    ghost predicate Valid()
      reads this
    {
      && buf.Length == capacity && size <= capacity
      && (capacity != 0 ==> doublings <= 25 && capacity == Cap(doublings))
    }

    ghost function Contents(): seq<byte>
      requires Valid()
      reads this, buf
    {
      buf[..size]
    }

    constructor ()
      ensures Valid() && fresh(buf) && Contents() == []
    {
      buf := new byte[0];
      capacity, size, doublings := 0, 0, 0;
    }

    /** Opening with the truncate flag empties the file. */
    method Open(truncate: bool)
      requires Valid()
      modifies this
      ensures Valid() && (buf == old(buf) || fresh(buf))
      ensures Contents() == if truncate then [] else old(Contents())
    {
      if truncate {
        buf := new byte[0];
        capacity, size := 0, 0;
      }
    }

    method Read(len: nat, offset: nat) returns (data: seq<byte>)
      requires Valid()
      ensures data == ReadAt(Contents(), offset, len)
    {
      if offset >= size {
        return [];
      }
      var avail := size - offset;
      var n := if len < avail then len else avail;
      data := [];
      for i := 0 to n
        invariant data == buf[offset..offset + i]
      {
        data := data + [buf[offset + i]];
      }
      assert buf[offset..offset + n] == Contents()[offset..offset + n];
    }

    /** The doubling loop. */
    method NewCapacity(end: int) returns (newCap: int, ghost k: nat)
      requires Valid() && 0 < end <= LARGEST && end > capacity
      ensures end <= newCap <= LARGEST && k <= 25 && newCap == Cap(k)
    {
      newCap := if capacity != 0 then capacity else 64;
      k := if capacity != 0 then doublings else 0;
      while newCap < end
        invariant k <= 25 && newCap == Cap(k)
        decreases 25 - k
      {
        CapBelowLargest(k);
        newCap := newCap * 2 % WORD_RANGE;
        k := k + 1;
      }
      CapBelowLargest(k);
    }

    /** Replaces the buffer by a larger one with the same first `size` bytes. */
    method Grow(end: int)
      requires Valid() && 0 < end <= LARGEST && end > capacity
      modifies this
      ensures Valid() && fresh(buf) && capacity >= end && size == old(size)
      ensures Contents() == old(Contents())
    {
      var newCap, k := NewCapacity(end);
      var newBuf := new byte[newCap];
      for i := 0 to size
        invariant newBuf[..i] == old(buf[..i]) && Valid() && buf == old(buf) && size == old(size)
        modifies newBuf
      {
        newBuf[i] := buf[i];
        assert newBuf[..i + 1] == newBuf[..i] + [buf[i]];
        assert old(buf[..i + 1]) == old(buf[..i]) + [buf[i]];
      }
      buf := newBuf;
      capacity := newCap;
      doublings := k;
    }

    /** `memcpy` into the buffer. */
    method Store(data: seq<byte>, offset: nat)
      requires Valid() && offset + |data| <= capacity
      modifies buf
      ensures Valid()
      ensures buf[..] == old(buf[..offset]) + data + old(buf[offset + |data|..])
    {
      ghost var before := buf[..];
      for i := 0 to |data|
        invariant buf[..] == before[..offset] + data[..i] + before[offset + i..]
      {
        buf[offset + i] := data[i];
        assert data[..i + 1] == data[..i] + [data[i]];
      }
    }

    /** `ramfs_write`, which returns the count as an `int`; `memory` tells whether a larger buffer can be
        allocated. A write at or below the current size splices; beyond it, the bytes in between are whatever the
        buffer holds. */
    method Write(data: seq<byte>, offset: nat, memory: bool) returns (n: int)
      requires Valid() && offset + |data| <= LARGEST
      modifies this, buf
      ensures Valid() && (buf == old(buf) || fresh(buf))
      ensures n == -1 <==> !memory && offset + |data| > old(capacity)
      ensures n == -1 ==> Contents() == old(Contents())
      ensures n != -1 ==>
        && n == Signed(|data|) && size == Max(old(size), offset + |data|)
        && Contents()[offset..offset + |data|] == data
        && (forall i | 0 <= i < old(size) && !(offset <= i < offset + |data|) :: Contents()[i] == old(Contents())[i])
      ensures n != -1 && offset <= old(size) ==> Contents() == Splice(old(Contents()), offset, data)
    {
      var end := offset + |data|;
      if end > capacity {
        if !memory {
          return -1;
        }
        Grow(end);
      }
      ghost var b := buf[..];
      Store(data, offset);
      if end > size {
        size := end;
      }
      n := Signed(|data|);
      assert buf[..] == b[..offset] + data + b[end..];
      if offset <= old(size) {
        SpliceInBuffer(b, old(size), offset, data, size);
      }
    }
  }

  /** Storing into a buffer whose first `size` bytes count splices those bytes. */
  lemma SpliceInBuffer(b: seq<byte>, size: nat, offset: nat, data: seq<byte>, size': nat)
    requires offset <= size <= |b| && offset + |data| <= |b| && size' == Max(size, offset + |data|)
    ensures (b[..offset] + data + b[offset + |data|..])[..size'] == Splice(b[..size], offset, data)
  {
  }

  // ---------------------------------------------------------------------------------------------

  /** An open file object on a regular file. */
  class OpenFile {
    const node: RamFile
    const append: bool
    var offset: nat

    /** `vfs_open_vnode`: an appending file starts at the end. */
    constructor (node: RamFile, append: bool)
      requires node.Valid()
      ensures this.node == node && this.append == append && offset == if append then node.size else 0
    {
      this.node := node;
      this.append := append;
      offset := if append then node.size else 0;
    }

    /** `vfs_read`: -1 for an empty request. */
    method Read(len: nat) returns (n: int, data: seq<byte>)
      requires node.Valid()
      modifies this`offset
      ensures if len == 0 then n == -1 && data == [] && offset == old(offset)
        else
          && data == ReadAt(node.Contents(), old(offset), len) && n == Signed(|data|)
          && offset == old(offset) + Advance(|data|)
    {
      if len == 0 {
        return -1, [];
      }
      data := node.Read(len, offset);
      n := Signed(|data|);
      if n > 0 {
        offset := offset + n;
      }
    }

    /** `vfs_write`: an appending file always writes at the end. Of 2^31 bytes the count comes back negative, and
        the offset stays. */
    method Write(data: seq<byte>, memory: bool) returns (n: int)
      requires node.Valid()
      requires (if append then node.size else offset) + |data| <= LARGEST
      modifies this`offset, node, node.buf
      ensures node.Valid() && (node.buf == old(node.buf) || fresh(node.buf))
      ensures var at := if append then old(node.size) else old(offset);
        n == -1 <==> data == [] || (!memory && at + |data| > old(node.capacity))
      ensures n == -1 ==>
        && node.Contents() == old(node.Contents())
        && offset == if append && data != [] then old(node.size) else old(offset)
      ensures n != -1 ==>
        var at := if append then old(node.size) else old(offset);
        && n == Signed(|data|) && offset == at + Advance(|data|)
        && (at <= old(node.size) ==> node.Contents() == Splice(old(node.Contents()), at, data))
      ensures n != -1 && append ==> node.Contents() == old(node.Contents()) + data
    {
      if data == [] {
        return -1;
      }
      if append {
        offset := node.size;
      }
      ghost var before := node.Contents();
      n := node.Write(data, offset, memory);
      if append {
        SpliceAtEnd(before, data);
      }
      if n > 0 {
        offset := offset + n;
        // the source extends the size here if need be; the file has done so already
        assert offset <= node.size;
      }
    }
  }
}
