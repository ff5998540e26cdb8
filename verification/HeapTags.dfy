/** The tag words of the kernel heap: what `kernel/mm/kheap.c` reads and writes. */
module HeapTags {
  import opened Machine
  import opened HeapBlocks

  /** Heap words by address; exactly the words of mapped pages are present. */
  type Memory = map<int, int>

  function Pack(size: int, alloc: int): int { size + alloc }
  function SizeOf(w: int): int { w / 8 * 8 }
  function AllocOf(w: int): int { w % 2 }

  function Tag(b: Block): int {
    Pack(b.size, if b.alloc then 1 else 0)
  }

  lemma TagDecodes(b: Block)
    requires b.size % 8 == 0
    ensures SizeOf(Tag(b)) == b.size && (AllocOf(Tag(b)) == 1 <==> b.alloc)
  {
  }

  ghost predicate Mapped(mem: Memory, top: int) {
    forall a :: a in mem <==> HEAP_START <= a < top && a % 4 == 0
  }

  /** Header and footer of `b` are both in place. */
  predicate Tagged(mem: Memory, b: Block) {
    && b.addr in mem && b.End() - 4 in mem
    && mem[b.addr] == Tag(b) && mem[b.End() - 4] == Tag(b)
  }

  /** Prologue, blocks and epilogue as tag words. */
  predicate Encodes(mem: Memory, bs: seq<Block>, brk: int) {
    && FIRST - 8 in mem && mem[FIRST - 8] == 9
    && FIRST - 4 in mem && mem[FIRST - 4] == 9
    && brk in mem && mem[brk] == 1
    && forall b | b in bs :: Tagged(mem, b)
  }

  /** Every word of the blocks in `live`, tags included, is the same in both memories. */
  ghost predicate Untouched(mem: Memory, mem': Memory, live: set<Block>) {
    forall b, a | b in live && a in mem && b.addr <= a < b.End() :: a in mem' && mem'[a] == mem[a]
  }

  /** All words of `mem` are still there. */
  ghost predicate Kept(mem: Memory, mem': Memory) {
    forall a | a in mem :: a in mem' && mem'[a] == mem[a]
  }

  lemma UntouchedChain(m0: Memory, m1: Memory, m2: Memory, live: set<Block>)
    requires Untouched(m0, m1, live) && Untouched(m1, m2, live)
    ensures Untouched(m0, m2, live)
  {
  }

  lemma KeptEncodes(mem: Memory, mem': Memory, bs: seq<Block>, brk: int)
    requires Encodes(mem, bs, brk) && Kept(mem, mem')
    ensures Encodes(mem', bs, brk) && Untouched(mem, mem', Live(bs))
  {
  }

  /** The two memories agree outside [lo, hi). */
  ghost predicate ChangedOnlyIn(mem: Memory, mem': Memory, lo: int, hi: int) {
    forall a | a in mem :: a in mem' && (lo <= a < hi || mem'[a] == mem[a])
  }

  lemma TilingEndsAligned(bs: seq<Block>, lo: int, hi: int)
    requires Tiled(bs, lo, hi) && lo % 8 == 4
    ensures lo <= hi && hi % 8 == 4
  {
  }

  lemma WordAligned(addr: int, size: int)
    requires addr % 8 == 4 && size % 8 == 0
    ensures addr % 4 == 0 && (addr + size) % 4 == 0 && (addr + size - 4) % 4 == 0
  {
  }

  /** The least page boundary at or above `a`. */
  function PageUp(a: int): int {
    (a + PAGE_SIZE - 1) / PAGE_SIZE * PAGE_SIZE
  }

  /** A page boundary with a word before it and `size` bytes behind fits into size + 4100 bytes. */
  lemma AlignedInside(raw: int, size: int)
    requires raw % 8 == 0
    ensures var p := PageUp(raw + 4);
      p % PAGE_SIZE == 0 && raw + 4 <= p && p + size <= raw + size + PAGE_SIZE + 4 && (p - 4) % 4 == 0
  {
  }

  /** The payload that is asked for, size + 4100 bytes in 32-bit arithmetic, has room for them if and only if the
      sum, rounded up, does not wrap around. */
  lemma AlignedFitsIff(raw: int, size: int)
    requires raw % 8 == 0 && 0 <= size < WORD_RANGE
    ensures PageUp(raw + 4) + size <= raw + BlockSize((size + PAGE_SIZE + 4) % WORD_RANGE) - 8
            <==> size + PAGE_SIZE + 4 <= WORD_RANGE - 16
  {
    AlignedInside(raw, size);
    var total := (size + PAGE_SIZE + 4) % WORD_RANGE;
    if total > 0 {
      BlockSizeCoversRequest(total);
    }
  }

  /** Retagging the space of blocks i..j-1 as `mid` gives an encoding of the spliced row, and leaves
      every word of the other blocks alone. */
  lemma RetagEncodes(mem: Memory, mem': Memory, bs: seq<Block>, brk: int, i: int, j: int, mid: seq<Block>)
    requires Tiled(bs, FIRST, brk) && Encodes(mem, bs, brk) && 0 <= i <= j <= |bs|
    requires ChangedOnlyIn(mem, mem', StartOf(bs, brk, i), StartOf(bs, brk, j))
    requires forall b | b in mid :: Tagged(mem', b)
    ensures Encodes(mem', bs[..i] + mid + bs[j..], brk)
    ensures Untouched(mem, mem', Live(bs[..i]) + Live(bs[j..]))
  {
    TilingCuts(bs, FIRST, brk, i);
    TilingCuts(bs, FIRST, brk, j);
    BlocksOrdered(bs[..i], FIRST, StartOf(bs, brk, i));
    BlocksOrdered(bs[j..], StartOf(bs, brk, j), brk);
    forall b | b in bs[..i] || b in bs[j..]
      ensures Tagged(mem', b)
    {
      assert b in bs && WellFormed(b);
    }
  }

  /** Live blocks outside a run of free blocks are all live blocks. */
  lemma LiveOutside(bs: seq<Block>, i: int, j: int)
    requires 0 <= i <= j <= |bs|
    requires forall k | i <= k < j :: !bs[k].alloc
    ensures Live(bs) == Live(bs[..i]) + Live(bs[j..])
  {
  }

  /** Writing inside a payload disturbs no tag. */
  lemma PayloadWriteEncodes(mem: Memory, bs: seq<Block>, brk: int, b: Block, a: int, v: int)
    requires Tiled(bs, FIRST, brk) && Encodes(mem, bs, brk) && b in bs
    requires b.addr < a < b.End() - 4
    ensures Encodes(mem[a := v], bs, brk)
  {
    var i :| 0 <= i < |bs| && bs[i] == b;
    var mem' := mem[a := v];
    assert Tagged(mem', b);
    assert StartOf(bs, brk, i + 1) == b.End() by { BlocksOrdered(bs, FIRST, brk); }
    RetagEncodes(mem, mem', bs, brk, i, i + 1, [b]);
    assert bs == bs[..i] + [b] + bs[i + 1..];
  }

  /** The memory after writing both tags of `b`. */
  function WriteTags(mem: Memory, b: Block): Memory {
    mem[b.addr := Tag(b)][b.End() - 4 := Tag(b)]
  }

  const PROLOGUE := Block(FIRST - 8, 8, true)

  function Before(bs: seq<Block>, i: int): Block
    requires 0 <= i < |bs|
  {
    if 0 < i then bs[i - 1] else PROLOGUE
  }

  function After(bs: seq<Block>, brk: int, i: int): Block
    requires 0 <= i < |bs|
  {
    if i + 1 < |bs| then bs[i + 1] else Block(brk, 0, true)
  }

  /** The block made of `b` and whichever of its neighbours are free. */
  function Merged(b: Block, prev: Block, next: Block): Block {
    var lo := if prev.alloc then b.addr else prev.addr;
    var hi := if next.alloc then b.End() else next.End();
    Block(lo, hi - lo, false)
  }

  /** Block i merged with its neighbours in the row. */
  function Fused(bs: seq<Block>, brk: int, i: int): Block
    requires 0 <= i < |bs|
  {
    Merged(bs[i], Before(bs, i), After(bs, brk, i))
  }

  lemma FusedSpans(bs: seq<Block>, brk: int, i: int)
    requires 0 <= i < |bs|
    ensures var f, t := FuseFrom(bs, i), FuseTo(bs, i);
      0 <= f <= t < |bs| && Fused(bs, brk, i) == Block(bs[f].addr, bs[t].End() - bs[f].addr, false)
  {
  }

  lemma FuseRange(bs: seq<Block>, brk: int, i: int)
    requires Tiled(bs, FIRST, brk) && 0 <= i < |bs| && !bs[i].alloc
    ensures var f, t := FuseFrom(bs, i), FuseTo(bs, i);
      && 0 <= f <= t < |bs|
      && (forall k | f <= k < t + 1 :: !bs[k].alloc)
      && StartOf(bs, brk, f) == Fused(bs, brk, i).addr && StartOf(bs, brk, t + 1) == Fused(bs, brk, i).End()
      && WellFormed(Fused(bs, brk, i))
  {
    var f, t := FuseFrom(bs, i), FuseTo(bs, i);
    FusedSpans(bs, brk, i);
    BlocksOrdered(bs, FIRST, brk);
    if f < t {
      BlocksDisjoint(bs, FIRST, brk, f, t);
    }
    FusedWellFormed(bs[f], bs[t]);
    assert t + 1 < |bs| ==> bs[t + 1 - 1].End() == bs[t + 1].addr;
  }

  /** Two tag writes turn the encoding of a row into that of the coalesced row. */
  lemma FuseEncodes(mem: Memory, bs: seq<Block>, brk: int, i: int)
    requires Tiled(bs, FIRST, brk) && Encodes(mem, bs, brk)
    requires 0 <= i < |bs| && !bs[i].alloc
    ensures Encodes(WriteTags(mem, Fused(bs, brk, i)), Coalesce(bs, i), brk)
    ensures WriteTags(mem, Fused(bs, brk, i)).Keys == mem.Keys
    ensures Untouched(mem, WriteTags(mem, Fused(bs, brk, i)), Live(bs))
    ensures Tiled(Coalesce(bs, i), FIRST, brk)
  {
    var f, t := FuseFrom(bs, i), FuseTo(bs, i);
    var whole := Fused(bs, brk, i);
    var mem' := WriteTags(mem, whole);
    FuseRange(bs, brk, i);
    assert mem'.Keys == mem.Keys && Tagged(mem', whole) by {
      assert Tagged(mem, bs[f]) && Tagged(mem, bs[t]);
    }
    RetagEncodes(mem, mem', bs, brk, f, t + 1, [whole]);
    assert Coalesce(bs, i) == bs[..f] + [whole] + bs[t + 1..];
    LiveOutside(bs, f, t + 1);
    FuseKeepsTiling(bs, FIRST, brk, f, t);
  }

  /** The words that decide how free block `b` coalesces: its own tags, the predecessor's tags
      (prologue included) and the successor's header (epilogue included). */
  predicate Around(mem: Memory, b: Block, prev: Block, next: Block) {
    && WellFormed(b) && !b.alloc && Tagged(mem, b)
    && prev.End() == b.addr && prev.size % 8 == 0 && prev.size > 0 && Tagged(mem, prev)
    && next.addr == b.End() && next.size % 8 == 0
    && next.addr in mem && mem[next.addr] == Tag(next) && (next.alloc || next.End() - 4 in mem)
  }

  lemma EncodesAround(mem: Memory, bs: seq<Block>, brk: int, i: int)
    requires Tiled(bs, FIRST, brk) && Encodes(mem, bs, brk) && 0 <= i < |bs| && !bs[i].alloc
    ensures Around(mem, bs[i], Before(bs, i), After(bs, brk, i))
  {
    BlocksOrdered(bs, FIRST, brk);
    assert bs[i] in bs;
    if 0 < i {
      assert bs[i - 1] in bs;
    }
    if i + 1 < |bs| {
      assert bs[i + 1] in bs && bs[i + 1 - 1].End() == bs[i + 1].addr;
    }
  }

  /** The memory after `place` has split or taken block `b`. */
  function WriteSplit(mem: Memory, b: Block, asize: int): Memory {
    var m := WriteTags(mem, Taken(b, asize));
    if b.size - asize >= MIN_BLOCK then WriteTags(m, Block(b.addr + asize, b.size - asize, false)) else m
  }

  lemma SplitWritesTags(mem: Memory, b: Block, asize: int)
    requires Tagged(mem, b) && b.size >= asize >= MIN_BLOCK
    requires b.addr + asize - 4 in mem && b.addr + asize in mem
    ensures var mem' := WriteSplit(mem, b, asize);
      && mem'.Keys == mem.Keys && ChangedOnlyIn(mem, mem', b.addr, b.End())
      && forall c | c in Parts(b, asize) :: Tagged(mem', c)
  {
  }

  /** The sizes of a block and its parts can be read back from their tags. */
  predicate SplitReads(b: Block, asize: int) {
    && SizeOf(Tag(b)) == b.size
    && SizeOf(Tag(Taken(b, asize))) == Taken(b, asize).size
    && SizeOf(Tag(Block(b.addr + asize, b.size - asize, false))) == b.size - asize
  }

  lemma SplitTagsRead(b: Block, asize: int)
    requires b.size % 8 == 0 && asize % 8 == 0
    ensures SplitReads(b, asize)
  {
  }

  /** What block `b` is split into. */
  function Parts(b: Block, asize: int): seq<Block> {
    [Taken(b, asize)] + if b.size - asize >= MIN_BLOCK then [Block(b.addr + asize, b.size - asize, false)] else []
  }

  lemma PlaceParts(bs: seq<Block>, i: int, asize: int)
    requires 0 <= i < |bs|
    ensures bs[..i] + Parts(bs[i], asize) + bs[i + 1..] == Place(bs, i, asize)
  {
  }

  lemma SplitEncodes(mem: Memory, bs: seq<Block>, brk: int, i: int, asize: int)
    requires Tiled(bs, FIRST, brk) && Encodes(mem, bs, brk)
    requires 0 <= i < |bs| && !bs[i].alloc && bs[i].size >= asize >= MIN_BLOCK && asize % 8 == 0
    requires bs[i].addr + asize - 4 in mem && bs[i].addr + asize in mem
    ensures Encodes(WriteSplit(mem, bs[i], asize), Place(bs, i, asize), brk)
    ensures WriteSplit(mem, bs[i], asize).Keys == mem.Keys
    ensures Untouched(mem, WriteSplit(mem, bs[i], asize), Live(bs))
  {
    var b, mem' := bs[i], WriteSplit(mem, bs[i], asize);
    assert b in bs;
    SplitWritesTags(mem, b, asize);
    assert StartOf(bs, brk, i + 1) == b.End() by { BlocksOrdered(bs, FIRST, brk); }
    PlaceParts(bs, i, asize);
    RetagEncodes(mem, mem', bs, brk, i, i + 1, Parts(b, asize));
    LiveOutside(bs, i, i + 1);
  }

  lemma MarkFreeEncodes(mem: Memory, bs: seq<Block>, brk: int, i: int)
    requires Tiled(bs, FIRST, brk) && Encodes(mem, bs, brk) && 0 <= i < |bs|
    ensures Encodes(WriteTags(mem, bs[i].(alloc := false)), MarkFree(bs, i), brk)
    ensures WriteTags(mem, bs[i].(alloc := false)).Keys == mem.Keys
    ensures Untouched(mem, WriteTags(mem, bs[i].(alloc := false)), Live(bs) - {bs[i]})
    ensures Tiled(MarkFree(bs, i), FIRST, brk)
  {
    var f := bs[i].(alloc := false);
    var mem' := WriteTags(mem, f);
    assert bs[i] in bs;
    assert mem'.Keys == mem.Keys;
    assert StartOf(bs, brk, i + 1) == f.End() && WellFormed(f) by { BlocksOrdered(bs, FIRST, brk); }
    assert Tagged(mem', f);
    RetagEncodes(mem, mem', bs, brk, i, i + 1, [f]);
    assert bs[..i] + [f] + bs[i + 1..] == MarkFree(bs, i);
    LiveAround(bs, i);
    LiveOfBlock(bs[i]);
    MarkFreeKeepsTiling(bs, FIRST, brk, i);
  }

  /** The memory after the epilogue has become the header of a new block with a new epilogue behind. */
  function WriteExtension(mem: Memory, b: Block): Memory {
    WriteTags(mem, b)[b.End() := 1]
  }

  lemma ExtensionEncodes(mem: Memory, bs: seq<Block>, brk: int, b: Block)
    requires Tiled(bs, FIRST, brk) && Encodes(mem, bs, brk)
    requires b.addr == brk && WellFormed(b) && !b.alloc && b.End() - 4 in mem && b.End() in mem
    ensures Encodes(WriteExtension(mem, b), bs + [b], b.End())
    ensures WriteExtension(mem, b).Keys == mem.Keys
    ensures Untouched(mem, WriteExtension(mem, b), Live(bs))
    ensures Tiled(bs + [b], FIRST, b.End())
  {
    var mem' := WriteExtension(mem, b);
    BlocksOrdered(bs, FIRST, brk);
    assert mem'.Keys == mem.Keys;
    forall c | c in bs
      ensures Tagged(mem', c)
    {
      assert Tagged(mem, c) && WellFormed(c);
    }
    OneBlockTiles(b);
    TilingJoins(bs, [b], FIRST, brk, b.End());
  }
}
