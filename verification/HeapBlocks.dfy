/** The kernel heap seen as a row of blocks.

    `kernel/mm/kheap.c` keeps its blocks only implicitly, as tag words inside the heap. Here they
    are a sequence of values; `KernelHeap` shows that the tag words always encode this sequence. */
module HeapBlocks {
  import opened Machine

  const HEAP_START: int := 0x0100_0000
  const HEAP_MAX: int := 0x0500_0000
  const HEAP_INITIAL: int := 65536
  const MIN_BLOCK: int := 16

  /** Header address of the first real block: right behind padding, prologue header and footer. */
  const FIRST: int := HEAP_START + 12

  /** `addr` is the address of the header word; the payload pointer lies one word further. */
  datatype Block = Block(addr: int, size: int, alloc: bool) {
    function End(): int { addr + size }
    function Payload(): int { addr + 4 }
  }

  // ---------------------------------------------------------------------------------------------
  // Request sizes, in 32-bit arithmetic

  function Align8(s: int): (r: int) {
    (s + 7) % WORD_RANGE / 8 * 8
  }

  /** Block size for a request: aligned payload plus header and footer. */
  function BlockSize(size: int): (r: int) {
    var asize := (Align8(size) + 8) % WORD_RANGE;
    if asize < MIN_BLOCK then MIN_BLOCK else asize
  }

  function ExtendSize(asize: int): (r: int) {
    Align8(if asize > PAGE_SIZE then asize else PAGE_SIZE)
  }

  /** The block is big enough for the request exactly when the 32-bit sum does not wrap. */
  lemma BlockSizeCoversRequest(size: int)
    requires 0 < size < WORD_RANGE
    ensures BlockSize(size) % 8 == 0 && BlockSize(size) >= MIN_BLOCK
    ensures BlockSize(size) - 8 >= size <==> size <= WORD_RANGE - 16
    ensures size <= WORD_RANGE - 16 ==> BlockSize(size) < size + 16
    ensures BlockSize(0xFFFF_FFFF) == MIN_BLOCK
  {
  }

  // ---------------------------------------------------------------------------------------------
  // Layout

  predicate WellFormed(b: Block) {
    b.size >= MIN_BLOCK && b.size % 8 == 0 && b.addr % 8 == 4
  }

  /** The blocks fill [lo, hi) without gap or overlap. */
  predicate Tiled(bs: seq<Block>, lo: int, hi: int) {
    if bs == [] then lo == hi
    else bs[0].addr == lo && WellFormed(bs[0]) && Tiled(bs[1..], bs[0].End(), hi)
  }

  ghost predicate NoAdjacentFree(bs: seq<Block>) {
    forall i | 0 < i < |bs| :: bs[i - 1].alloc || bs[i].alloc
  }

  /** As `NoAdjacentFree`, except that block `k` may touch free neighbours. */
  ghost predicate NoAdjacentFreeBut(bs: seq<Block>, k: int) {
    forall i | 0 < i < |bs| && i != k && i != k + 1 :: bs[i - 1].alloc || bs[i].alloc
  }

  /** Blocks come in address order, inside [lo, hi), each starting where its predecessor ends. */
  lemma {:induction false} BlocksOrdered(bs: seq<Block>, lo: int, hi: int)
    requires Tiled(bs, lo, hi)
    ensures lo <= hi && (bs == [] || lo < hi)
    ensures forall i | 0 <= i < |bs| :: WellFormed(bs[i]) && lo <= bs[i].addr && bs[i].End() <= hi
    ensures forall i | 0 < i < |bs| :: bs[i - 1].End() == bs[i].addr
    ensures bs != [] ==> bs[|bs| - 1].End() == hi
  {
    if bs == [] {
    } else {
      BlocksOrdered(bs[1..], bs[0].End(), hi);
      assert forall i | 0 < i < |bs| :: bs[i] == bs[1..][i - 1];
    }
  }

  lemma {:induction false} TilingJoins(a: seq<Block>, b: seq<Block>, lo: int, mid: int, hi: int)
    requires Tiled(a, lo, mid) && Tiled(b, mid, hi)
    ensures Tiled(a + b, lo, hi)
  {
    if a == [] {
      assert a + b == b;
    } else {
      TilingJoins(a[1..], b, a[0].End(), mid, hi);
      assert (a + b)[1..] == a[1..] + b;
    }
  }

  /** Address where block i starts, or `hi` behind the last one. */
  function StartOf(bs: seq<Block>, hi: int, i: int): int
    requires 0 <= i <= |bs|
  {
    if i < |bs| then bs[i].addr else hi
  }

  lemma {:induction false} TilingCuts(bs: seq<Block>, lo: int, hi: int, i: int)
    requires Tiled(bs, lo, hi) && 0 <= i <= |bs|
    ensures Tiled(bs[..i], lo, StartOf(bs, hi, i)) && Tiled(bs[i..], StartOf(bs, hi, i), hi)
  {
    if 0 < i {
      TilingCuts(bs[1..], bs[0].End(), hi, i - 1);
      assert bs[1..][..i - 1] == bs[..i][1..] && bs[1..][i - 1..] == bs[i..];
    } else {
      assert bs[..0] == [] && bs[0..] == bs;
    }
  }

  /** Replacing blocks i..j-1 by others that fill the same space keeps the tiling. */
  lemma TilingSplices(bs: seq<Block>, lo: int, hi: int, i: int, j: int, mid: seq<Block>)
    requires Tiled(bs, lo, hi) && 0 <= i <= j <= |bs|
    requires Tiled(mid, StartOf(bs, hi, i), StartOf(bs, hi, j))
    ensures Tiled(bs[..i] + mid + bs[j..], lo, hi)
  {
    TilingCuts(bs, lo, hi, i);
    TilingCuts(bs, lo, hi, j);
    TilingJoins(bs[..i], mid, lo, StartOf(bs, hi, i), StartOf(bs, hi, j));
    TilingJoins(bs[..i] + mid, bs[j..], lo, StartOf(bs, hi, j), hi);
  }

  // ---------------------------------------------------------------------------------------------
  // Operations on the row

  /** Index of the lowest free block of at least `asize` bytes, or |bs|. */
  function FirstFit(bs: seq<Block>, asize: int): (r: nat)
    ensures r <= |bs|
    ensures r < |bs| ==> !bs[r].alloc && bs[r].size >= asize
    ensures forall i | 0 <= i < r :: bs[i].alloc || bs[i].size < asize
  {
    if bs == [] then 0
    else if !bs[0].alloc && bs[0].size >= asize then 0
    else 1 + FirstFit(bs[1..], asize)
  }

  /** Index of the block whose payload starts at `p`, or |bs|. */
  function Find(bs: seq<Block>, p: int): (r: nat)
    ensures r <= |bs|
    ensures r < |bs| ==> bs[r].Payload() == p
    ensures forall i | 0 <= i < r :: bs[i].Payload() != p
  {
    if bs == [] || bs[0].Payload() == p then 0 else 1 + Find(bs[1..], p)
  }

  /** Fuses blocks i..j into one free block. */
  function Fuse(bs: seq<Block>, i: int, j: int): seq<Block>
    requires 0 <= i <= j < |bs|
  {
    bs[..i] + [Block(bs[i].addr, bs[j].End() - bs[i].addr, false)] + bs[j + 1..]
  }

  function FuseFrom(bs: seq<Block>, i: int): (r: int)
    requires 0 <= i < |bs|
  {
    if 0 < i && !bs[i - 1].alloc then i - 1 else i
  }

  function FuseTo(bs: seq<Block>, i: int): (r: int)
    requires 0 <= i < |bs|
  {
    if i + 1 < |bs| && !bs[i + 1].alloc then i + 1 else i
  }

  /** Fuses free block i with its free neighbours. */
  function Coalesce(bs: seq<Block>, i: int): seq<Block>
    requires 0 <= i < |bs|
  {
    Fuse(bs, FuseFrom(bs, i), FuseTo(bs, i))
  }

  function MarkFree(bs: seq<Block>, i: int): seq<Block>
    requires 0 <= i < |bs|
  {
    bs[i := bs[i].(alloc := false)]
  }

  function Release(bs: seq<Block>, i: int): seq<Block>
    requires 0 <= i < |bs|
  {
    Coalesce(MarkFree(bs, i), i)
  }

  /** The allocated block that takes the place of free block `b`. */
  function Taken(b: Block, asize: int): Block {
    Block(b.addr, if b.size - asize >= MIN_BLOCK then asize else b.size, true)
  }

  /** Takes block i, giving back the rest as a free block when it is large enough. */
  function Place(bs: seq<Block>, i: int, asize: int): seq<Block>
    requires 0 <= i < |bs|
  {
    var rest := bs[i].size - asize;
    bs[..i]
    + [Taken(bs[i], asize)]
    + (if rest >= MIN_BLOCK then [Block(bs[i].addr + asize, rest, false)] else [])
    + bs[i + 1..]
  }

  ghost function Live(bs: seq<Block>): set<Block> {
    set b | b in bs && b.alloc
  }

  // ---------------------------------------------------------------------------------------------
  // What the operations keep

  lemma LiveOfParts(a: seq<Block>, b: seq<Block>)
    ensures Live(a + b) == Live(a) + Live(b)
  {
  }

  lemma LiveOfBlock(b: Block)
    ensures Live([b]) == if b.alloc then {b} else {}
  {
  }

  lemma LiveAround(bs: seq<Block>, i: int)
    requires 0 <= i < |bs|
    ensures Live(bs) == Live(bs[..i]) + Live([bs[i]]) + Live(bs[i + 1..])
  {
  }

  /** No two blocks overlap. */
  lemma BlocksDisjoint(bs: seq<Block>, lo: int, hi: int, i: int, j: int)
    requires Tiled(bs, lo, hi) && 0 <= i < j < |bs|
    ensures bs[i].End() <= bs[j].addr
  {
    TilingCuts(bs, lo, hi, j);
    BlocksOrdered(bs[..j], lo, bs[j].addr);
    assert bs[..j][i] == bs[i];
  }

  /** A block of a row occurs in it only once. */
  lemma BlockOccursOnce(bs: seq<Block>, lo: int, hi: int, i: int, b: Block)
    requires Tiled(bs, lo, hi) && 0 <= i < |bs| && b.addr == bs[i].addr
    ensures b !in bs[..i] && b !in bs[i + 1..]
  {
    BlocksOrdered(bs, lo, hi);
    TilingCuts(bs, lo, hi, i);
    TilingCuts(bs, lo, hi, i + 1);
    BlocksOrdered(bs[..i], lo, bs[i].addr);
    BlocksOrdered(bs[i + 1..], StartOf(bs, hi, i + 1), hi);
  }

  lemma OneBlockTiles(b: Block)
    requires WellFormed(b)
    ensures Tiled([b], b.addr, b.End())
  {
  }

  lemma FusedWellFormed(a: Block, b: Block)
    requires WellFormed(a) && WellFormed(b) && (a == b || a.End() <= b.addr)
    ensures WellFormed(Block(a.addr, b.End() - a.addr, false))
  {
  }

  lemma FuseKeepsTiling(bs: seq<Block>, lo: int, hi: int, i: int, j: int)
    requires Tiled(bs, lo, hi)
    requires 0 <= i <= j < |bs|
    ensures Tiled(Fuse(bs, i, j), lo, hi)
  {
    BlocksOrdered(bs, lo, hi);
    if i < j {
      BlocksDisjoint(bs, lo, hi, i, j);
    }
    assert StartOf(bs, hi, j + 1) == bs[j].End();
    FusedWellFormed(bs[i], bs[j]);
    var f := Block(bs[i].addr, bs[j].End() - bs[i].addr, false);
    OneBlockTiles(f);
    TilingSplices(bs, lo, hi, i, j + 1, [f]);
  }

  lemma FuseKeepsLive(bs: seq<Block>, i: int, j: int)
    requires 0 <= i <= j < |bs|
    requires forall k | i <= k <= j :: !bs[k].alloc
    ensures Live(Fuse(bs, i, j)) == Live(bs)
  {
  }

  lemma CoalesceKeeps(bs: seq<Block>, lo: int, hi: int, i: int)
    requires Tiled(bs, lo, hi)
    requires 0 <= i < |bs| && !bs[i].alloc
    requires NoAdjacentFreeBut(bs, i)
    ensures Tiled(Coalesce(bs, i), lo, hi)
    ensures NoAdjacentFree(Coalesce(bs, i))
    ensures Live(Coalesce(bs, i)) == Live(bs)
  {
    var f, t := FuseFrom(bs, i), FuseTo(bs, i);
    FuseKeepsTiling(bs, lo, hi, f, t);
    FuseKeepsLive(bs, f, t);
    var r := Coalesce(bs, i);
    forall k | 0 < k < |r|
      ensures r[k - 1].alloc || r[k].alloc
    {
      if k < f {
        assert r[k - 1] == bs[k - 1] && r[k] == bs[k];
      } else if k == f {
        assert r[k - 1] == bs[f - 1];
      } else if k == f + 1 {
        assert r[k] == bs[t + 1];
      } else {
        assert r[k - 1] == bs[k - 1 + t - f] && r[k] == bs[k + t - f];
      }
    }
  }

  lemma PlaceKeepsTiling(bs: seq<Block>, lo: int, hi: int, i: int, asize: int)
    requires Tiled(bs, lo, hi)
    requires 0 <= i < |bs| && bs[i].size >= asize >= MIN_BLOCK && asize % 8 == 0
    ensures Tiled(Place(bs, i, asize), lo, hi)
  {
    assert WellFormed(bs[i]) && StartOf(bs, hi, i + 1) == bs[i].End() by { BlocksOrdered(bs, lo, hi); }
    var b, rest := Taken(bs[i], asize), bs[i].size - asize;
    var tail := if rest >= MIN_BLOCK then [Block(bs[i].addr + asize, rest, false)] else [];
    assert WellFormed(b) && (tail != [] ==> WellFormed(tail[0]));
    assert Tiled([b] + tail, bs[i].addr, bs[i].End()) by {
      assert ([b] + tail)[1..] == tail;
      assert tail != [] ==> tail[1..] == [];
    }
    TilingSplices(bs, lo, hi, i, i + 1, [b] + tail);
    assert Place(bs, i, asize) == bs[..i] + ([b] + tail) + bs[i + 1..];
  }

  lemma PlaceKeepsApart(bs: seq<Block>, i: int, asize: int)
    requires NoAdjacentFree(bs)
    requires 0 <= i < |bs| && !bs[i].alloc
    ensures NoAdjacentFree(Place(bs, i, asize))
  {
  }

  lemma PlaceAddsLive(bs: seq<Block>, lo: int, hi: int, i: int, asize: int)
    requires Tiled(bs, lo, hi)
    requires 0 <= i < |bs| && !bs[i].alloc
    ensures Taken(bs[i], asize) !in Live(bs)
    ensures Live(Place(bs, i, asize)) == Live(bs) + {Taken(bs[i], asize)}
  {
    var b, rest := Taken(bs[i], asize), bs[i].size - asize;
    BlockOccursOnce(bs, lo, hi, i, b);
    LiveAround(bs, i);
    LiveAround(Place(bs, i, asize), i);
    assert Place(bs, i, asize)[..i] == bs[..i];
    var tail := if rest >= MIN_BLOCK then [Block(bs[i].addr + asize, rest, false)] else [];
    assert Place(bs, i, asize)[i + 1..] == tail + bs[i + 1..];
    LiveOfParts(tail, bs[i + 1..]);
    LiveOfBlock(b);
    LiveOfBlock(bs[i]);
  }

  lemma MarkFreeKeepsTiling(bs: seq<Block>, lo: int, hi: int, i: int)
    requires Tiled(bs, lo, hi) && 0 <= i < |bs|
    ensures Tiled(MarkFree(bs, i), lo, hi)
  {
    BlocksOrdered(bs, lo, hi);
    var f := bs[i].(alloc := false);
    assert StartOf(bs, hi, i + 1) == f.End();
    OneBlockTiles(f);
    TilingSplices(bs, lo, hi, i, i + 1, [f]);
    assert MarkFree(bs, i) == bs[..i] + [f] + bs[i + 1..];
  }

  lemma MarkFreeRemovesLive(bs: seq<Block>, lo: int, hi: int, i: int)
    requires Tiled(bs, lo, hi)
    requires 0 <= i < |bs| && bs[i].alloc
    ensures Live(MarkFree(bs, i)) == Live(bs) - {bs[i]}
  {
    var m := MarkFree(bs, i);
    BlockOccursOnce(bs, lo, hi, i, bs[i]);
    LiveAround(bs, i);
    LiveAround(m, i);
    assert m[..i] == bs[..i] && m[i + 1..] == bs[i + 1..];
    LiveOfBlock(bs[i]);
    LiveOfBlock(m[i]);
  }

  lemma ReleaseKeeps(bs: seq<Block>, lo: int, hi: int, i: int)
    requires Tiled(bs, lo, hi) && NoAdjacentFree(bs)
    requires 0 <= i < |bs| && bs[i].alloc
    ensures Tiled(Release(bs, i), lo, hi)
    ensures NoAdjacentFree(Release(bs, i))
    ensures Live(Release(bs, i)) == Live(bs) - {bs[i]}
  {
    MarkFreeKeepsTiling(bs, lo, hi, i);
    MarkFreeRemovesLive(bs, lo, hi, i);
    CoalesceKeeps(MarkFree(bs, i), lo, hi, i);
  }

  /** Freeing right after placing gives back the very same row. */
  lemma ReleaseUndoesPlace(bs: seq<Block>, lo: int, hi: int, i: int, asize: int)
    requires Tiled(bs, lo, hi) && NoAdjacentFree(bs)
    requires 0 <= i < |bs| && !bs[i].alloc && bs[i].size >= asize >= MIN_BLOCK
    ensures Release(Place(bs, i, asize), i) == bs
  {
  }

  // ---------------------------------------------------------------------------------------------
  // Conservation

  function Bytes(bs: seq<Block>, alloc: bool): int {
    if bs == [] then 0 else (if bs[0].alloc == alloc then bs[0].size else 0) + Bytes(bs[1..], alloc)
  }

  lemma {:induction false} BytesConserved(bs: seq<Block>, lo: int, hi: int)
    requires Tiled(bs, lo, hi)
    ensures Bytes(bs, true) + Bytes(bs, false) == hi - lo
  {
    if bs == [] {
    } else {
      BytesConserved(bs[1..], bs[0].End(), hi);
    }
  }

  /** With nothing live, the whole heap is one free block. */
  lemma NothingLiveIsOneBlock(bs: seq<Block>, lo: int, hi: int)
    requires Tiled(bs, lo, hi) && NoAdjacentFree(bs) && lo < hi
    requires Live(bs) == {}
    ensures bs == [Block(lo, hi - lo, false)]
  {
    assert |bs| > 1 ==> bs[1 - 1].alloc || bs[1].alloc;
    forall b | b in bs
      ensures !b.alloc
    {
      assert b !in Live(bs);
    }
  }

  lemma {:induction false} BytesOfParts(a: seq<Block>, b: seq<Block>, alloc: bool)
    ensures Bytes(a + b, alloc) == Bytes(a, alloc) + Bytes(b, alloc)
  {
    if a == [] {
      assert a + b == b;
    } else {
      assert (a + b)[1..] == a[1..] + b;
      BytesOfParts(a[1..], b, alloc);
    }
  }

  lemma BytesAround(bs: seq<Block>, i: int, mid: seq<Block>, j: int, alloc: bool)
    requires 0 <= i <= j <= |bs|
    ensures Bytes(bs[..i] + mid + bs[j..], alloc) == Bytes(bs[..i], alloc) + Bytes(mid, alloc) + Bytes(bs[j..], alloc)
    ensures Bytes(bs, alloc) == Bytes(bs[..i], alloc) + Bytes(bs[i..j], alloc) + Bytes(bs[j..], alloc)
  {
    BytesOfParts(bs[..i] + mid, bs[j..], alloc);
    BytesOfParts(bs[..i], mid, alloc);
    assert bs == bs[..i] + bs[i..j] + bs[j..];
    BytesOfParts(bs[..i] + bs[i..j], bs[j..], alloc);
    BytesOfParts(bs[..i], bs[i..j], alloc);
  }

  /** Taking free block i uses as many bytes as the block that takes its place is long. */
  lemma PlaceUses(bs: seq<Block>, i: int, asize: int)
    requires 0 <= i < |bs| && !bs[i].alloc
    ensures Bytes(Place(bs, i, asize), true) == Bytes(bs, true) + Taken(bs[i], asize).size
  {
    var b, rest := Taken(bs[i], asize), bs[i].size - asize;
    var tail := if rest >= MIN_BLOCK then [Block(bs[i].addr + asize, rest, false)] else [];
    assert Place(bs, i, asize) == bs[..i] + ([b] + tail) + bs[i + 1..];
    assert bs[i..i + 1] == [bs[i]];
    assert [b][1..] == [] && (tail != [] ==> tail[1..] == []);
    BytesAround(bs, i, [b] + tail, i + 1, true);
    BytesOfParts([b], tail, true);
  }

  lemma {:induction false} FreeUsesNothing(bs: seq<Block>)
    requires forall k | 0 <= k < |bs| :: !bs[k].alloc
    ensures Bytes(bs, true) == 0
  {
    if bs == [] {
    } else {
      FreeUsesNothing(bs[1..]);
    }
  }

  lemma CoalesceUses(bs: seq<Block>, i: int)
    requires 0 <= i < |bs| && !bs[i].alloc
    ensures Bytes(Coalesce(bs, i), true) == Bytes(bs, true)
  {
    FuseUses(bs, FuseFrom(bs, i), FuseTo(bs, i));
  }

  lemma FuseUses(bs: seq<Block>, f: int, t: int)
    requires 0 <= f <= t < |bs| && forall k | f <= k <= t :: !bs[k].alloc
    ensures Bytes(Fuse(bs, f, t), true) == Bytes(bs, true)
  {
    var whole := Block(bs[f].addr, bs[t].End() - bs[f].addr, false);
    BytesAround(bs, f, [whole], t + 1, true);
    FreeUsesNothing(bs[f..t + 1]);
    FreeUsesNothing([whole]);
  }

  // ---------------------------------------------------------------------------------------------
  // The live blocks determine the row

  lemma NoAdjacentInTail(bs: seq<Block>)
    requires bs != [] && NoAdjacentFree(bs)
    ensures NoAdjacentFree(bs[1..])
  {
    forall i | 0 < i < |bs[1..]|
      ensures bs[1..][i - 1].alloc || bs[1..][i].alloc
    {
      assert bs[i].alloc || bs[i + 1].alloc;
    }
  }

  /** A live block that starts where the row starts is its first block. */
  lemma FirstIsLive(a: seq<Block>, b: seq<Block>, lo: int, hi: int)
    requires Tiled(a, lo, hi) && Tiled(b, lo, hi) && a != [] && b != [] && Live(a) == Live(b) && a[0].alloc
    ensures a[0] == b[0]
  {
    assert a[0] in Live(b);
    BlockOccursOnce(b, lo, hi, 0, a[0]);
    assert b == [b[0]] + b[1..];
  }

  /** A free first block ends where the next live block starts. */
  lemma FirstFreeEnds(a: seq<Block>, b: seq<Block>, lo: int, hi: int)
    requires Tiled(a, lo, hi) && Tiled(b, lo, hi) && a != [] && b != [] && Live(a) == Live(b)
    requires NoAdjacentFree(a) && !a[0].alloc && !b[0].alloc
    ensures a[0].End() >= b[0].End()
  {
    BlocksOrdered(a, lo, hi);
    BlocksOrdered(b, lo, hi);
    if a[0].End() < b[0].End() {
      assert |a| > 1 && (a[1 - 1].alloc || a[1].alloc) && a[1 - 1].End() == a[1].addr;
      assert a[1] in Live(b);
      var k :| 0 <= k < |b| && b[k] == a[1];
      assert k != 0;
      BlocksDisjoint(b, lo, hi, 0, k);
    }
  }

  lemma LiveOfTail(bs: seq<Block>, lo: int, hi: int)
    requires Tiled(bs, lo, hi) && bs != []
    ensures Live(bs[1..]) == Live(bs) - {bs[0]}
  {
    BlockOccursOnce(bs, lo, hi, 0, bs[0]);
    LiveAround(bs, 0);
    assert bs[..0] == [];
    LiveOfBlock(bs[0]);
  }

  /** Two rows over the same space, both without free neighbours, that have the same live blocks are the same. So
      what allocation and release do to the live blocks says all that they do. */
  lemma {:induction false} LiveBlocksDetermineRow(a: seq<Block>, b: seq<Block>, lo: int, hi: int)
    requires Tiled(a, lo, hi) && Tiled(b, lo, hi) && NoAdjacentFree(a) && NoAdjacentFree(b) && Live(a) == Live(b)
    ensures a == b
    decreases |a|
  {
    BlocksOrdered(a, lo, hi);
    BlocksOrdered(b, lo, hi);
    if a == [] || b == [] {
    } else {
      if a[0].alloc {
        FirstIsLive(a, b, lo, hi);
      } else if b[0].alloc {
        FirstIsLive(b, a, lo, hi);
      } else {
        FirstFreeEnds(a, b, lo, hi);
        FirstFreeEnds(b, a, lo, hi);
      }
      assert a[0] == b[0];
      LiveOfTail(a, lo, hi);
      LiveOfTail(b, lo, hi);
      NoAdjacentInTail(a);
      NoAdjacentInTail(b);
      LiveBlocksDetermineRow(a[1..], b[1..], a[0].End(), hi);
    }
  }
}
