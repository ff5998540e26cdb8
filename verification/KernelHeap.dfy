/** The routines of `kernel/mm/kheap.c`, working on tag words in place, proved to take exactly the
    steps of `HeapRuns`. */
module KernelHeap {
  import opened Machine
  import opened HeapBlocks
  import opened HeapTags
  import HeapRuns

  class KHeap {
    var mem: Memory
    var heapBrk: int
    var heapVirtMapped: int
    var frames: nat              // frames the physical memory manager can still supply
    var halted: bool             // the kernel has panicked
    ghost var blocks: seq<Block> // the row that the tag words encode
    const junk: int -> int       // what fresh frames contain

    ghost function Abs(): HeapRuns.Heap
      reads this
    {
      HeapRuns.Heap(blocks, heapBrk, heapVirtMapped, frames, halted)
    }

    /** All that holds while free neighbours may still be waiting to be fused. */
    ghost predicate Shape()
      reads this
    {
      && Tiled(blocks, FIRST, heapBrk)
      && Encodes(mem, blocks, heapBrk)
      && Mapped(mem, heapVirtMapped)
      && heapBrk + 4 <= heapVirtMapped <= HEAP_MAX && heapVirtMapped % PAGE_SIZE == 0
    }

    ghost predicate Valid()
      reads this
    {
      Shape() && HeapRuns.HeapInv(Abs())
    }

    // -------------------------------------------------------------------------------------------
    // Tag access

    function Get(p: int): int
      requires p in mem
      reads this
    {
      mem[p]
    }

    method Put(p: int, v: int)
      requires p in mem
      modifies this`mem
      ensures mem == old(mem)[p := v]
    {
      mem := mem[p := v];
    }

    static function Hdrp(bp: int): int { bp - 4 }

    function Ftrp(bp: int): int
      requires Hdrp(bp) in mem
      reads this
    {
      bp + SizeOf(Get(Hdrp(bp))) - 8
    }

    function NextBlkp(bp: int): int
      requires Hdrp(bp) in mem
      reads this
    {
      bp + SizeOf(Get(Hdrp(bp)))
    }

    function PrevBlkp(bp: int): int
      requires bp - 8 in mem
      reads this
    {
      bp - SizeOf(Get(bp - 8))
    }

    // -------------------------------------------------------------------------------------------
    // Growing

    /** Maps pages on demand until `end` is covered, the ceiling is hit or frames run out. */
    method EnsureMapped(end: int) returns (ok: bool)
      requires !halted && Mapped(mem, heapVirtMapped)
      requires HEAP_START <= heapVirtMapped <= HEAP_MAX && heapVirtMapped % PAGE_SIZE == 0
      modifies this`mem, this`heapVirtMapped, this`frames, this`halted
      ensures Abs() == HeapRuns.Grow(old(Abs()), end)
      ensures ok <==> HeapRuns.CanGrow(old(Abs()), end)
      ensures Mapped(mem, heapVirtMapped)
      ensures Kept(old(mem), mem)
    {
      HeapRuns.GrowReachesEnd(Abs(), end);
      ok := MapUpTo(end);
    }

    /** The loop. */
    method MapUpTo(end: int) returns (ok: bool)
      requires !halted && Mapped(mem, heapVirtMapped)
      requires HEAP_START <= heapVirtMapped <= HEAP_MAX && heapVirtMapped % PAGE_SIZE == 0
      modifies this`mem, this`heapVirtMapped, this`frames, this`halted
      ensures Abs() == HeapRuns.Grow(old(Abs()), end) && (ok <==> end <= heapVirtMapped)
      ensures Mapped(mem, heapVirtMapped)
      ensures Kept(old(mem), mem)
    {
      ghost var h := Abs();
      while heapVirtMapped < end
        invariant HEAP_START <= heapVirtMapped <= HEAP_MAX && heapVirtMapped % PAGE_SIZE == 0 && !halted
        invariant HeapRuns.Grow(Abs(), end) == HeapRuns.Grow(h, end)
        invariant Mapped(mem, heapVirtMapped)
        invariant Kept(old(mem), mem)
        decreases end - heapVirtMapped
      {
        if heapVirtMapped + PAGE_SIZE > HEAP_MAX {
          return false;
        }
        if frames == 0 {
          return false;
        }
        MapNext();
        if halted {
          return false;
        }
      }
      return true;
    }

    /** One page: a frame for it, and one for its table if that is due. */
    method MapNext()
      requires !halted && frames > 0 && Mapped(mem, heapVirtMapped) && HEAP_START <= heapVirtMapped
      modifies this`mem, this`heapVirtMapped, this`frames, this`halted
      ensures Abs() == HeapRuns.GrowOnce(old(Abs()))
      ensures Mapped(mem, heapVirtMapped)
      ensures Kept(old(mem), mem)
    {
      frames := frames - 1;
      CreateTable();
      if !halted {
        MapPage();
      }
    }

    /** `create_table` in `vmm_map_page`: a frame for a new table if the page is the first of its span. The kernel
        panics if there is none. */
    method CreateTable()
      requires !halted
      modifies this`frames, this`halted
      ensures halted <==> heapVirtMapped % HeapRuns.TABLE_SPAN == 0 && old(frames) == 0
      ensures frames == if heapVirtMapped % HeapRuns.TABLE_SPAN == 0 && !halted then old(frames) - 1 else old(frames)
    {
      if heapVirtMapped % HeapRuns.TABLE_SPAN == 0 {
        if frames == 0 {
          halted := true;
          return;
        }
        frames := frames - 1;
      }
    }

    /** Backs the next heap page with a frame of unknown contents. */
    method MapPage()
      requires Mapped(mem, heapVirtMapped) && HEAP_START <= heapVirtMapped
      modifies this`mem, this`heapVirtMapped
      ensures heapVirtMapped == old(heapVirtMapped) + PAGE_SIZE
      ensures Mapped(mem, heapVirtMapped)
      ensures Kept(old(mem), mem)
    {
      var page := map a | heapVirtMapped <= a < heapVirtMapped + PAGE_SIZE && a % 4 == 0 :: junk(a);
      mem := mem + page;
      heapVirtMapped := heapVirtMapped + PAGE_SIZE;
    }

    /** Writes header and footer of the block at `bp`; the footer is found from the new header. */
    method PutTags(bp: int, size: int, alloc: int, ghost b: Block)
      requires b.Payload() == bp && b.size == size && Tag(b) == Pack(size, alloc) && SizeOf(Tag(b)) == size
      requires b.addr in mem && b.End() - 4 in mem
      modifies this`mem
      ensures mem == WriteTags(old(mem), b)
    {
      Put(Hdrp(bp), Pack(size, alloc));
      Put(Ftrp(bp), Pack(size, alloc));
    }

    /** What `coalesce` reads of a free block and its neighbours. */
    lemma TagsAround(b: Block, prev: Block, next: Block)
      requires Around(mem, b, prev, next)
      ensures var bp := b.Payload();
        && Hdrp(bp) in mem && bp - 8 in mem && SizeOf(mem[Hdrp(bp)]) == b.size
        && PrevBlkp(bp) == prev.Payload() && prev.addr in mem && SizeOf(mem[prev.addr]) == prev.size
        && Ftrp(prev.Payload()) == bp - 8 && (AllocOf(mem[bp - 8]) == 0 <==> !prev.alloc)
        && b.End() in mem && SizeOf(mem[b.End()]) == next.size && (AllocOf(mem[b.End()]) == 0 <==> !next.alloc)
    {
      TagDecodes(b);
      TagDecodes(prev);
      TagDecodes(next);
    }

    lemma MergedReads(b: Block, prev: Block, next: Block)
      requires Around(mem, b, prev, next)
      ensures var whole := Merged(b, prev, next);
        && Tag(whole) == Pack(whole.size, 0) && SizeOf(Tag(whole)) == whole.size
        && whole.size == b.size + (if prev.alloc then 0 else prev.size) + (if next.alloc then 0 else next.size)
        && whole.addr == (if prev.alloc then b.addr else prev.addr)
        && whole.End() == (if next.alloc then b.End() else next.End())
    {
      EightsAdd(b.size, if prev.alloc then 0 else prev.size, if next.alloc then 0 else next.size);
      TagDecodes(Merged(b, prev, next));
    }

    static lemma EightsAdd(x: int, y: int, z: int)
      requires x % 8 == 0 && y % 8 == 0 && z % 8 == 0
      ensures (x + y + z) % 8 == 0
    {
      assert x + y + z == 8 * (x / 8 + y / 8 + z / 8);
    }

    /** The four cases of coalescing, on the tag words alone. */
    method MergeTags(bp: int, ghost b: Block, ghost prev: Block, ghost next: Block) returns (r: int)
      requires b.Payload() == bp && Around(mem, b, prev, next)
      modifies this`mem
      ensures mem == WriteTags(old(mem), Merged(b, prev, next))
      ensures r == Merged(b, prev, next).Payload()
    {
      TagsAround(b, prev, next);
      ghost var whole := Merged(b, prev, next);
      MergedReads(b, prev, next);
      var prevBp := PrevBlkp(bp);
      var nextBp := NextBlkp(bp);
      var prevFree := AllocOf(Get(Ftrp(prevBp))) == 0;
      var nextFree := AllocOf(Get(Hdrp(nextBp))) == 0;
      var size := SizeOf(Get(Hdrp(bp)));
      r := bp;
      if !prevFree && !nextFree {
        assert mem == WriteTags(mem, whole);
      } else if !prevFree && nextFree {
        size := size + SizeOf(Get(Hdrp(nextBp)));
        PutTags(bp, size, 0, whole);
      } else if prevFree && !nextFree {
        size := size + SizeOf(Get(Hdrp(prevBp)));
        PutEnds(Hdrp(prevBp), Ftrp(bp), size, whole);
        r := prevBp;
      } else {
        size := size + SizeOf(Get(Hdrp(prevBp))) + SizeOf(Get(Hdrp(nextBp)));
        PutEnds(Hdrp(prevBp), Ftrp(nextBp), size, whole);
        r := prevBp;
      }
    }

    /** Writes the header of one block and the footer of another, behind it, as tags of the whole. */
    method PutEnds(header: int, footer: int, size: int, ghost whole: Block)
      requires header == whole.addr && footer == whole.End() - 4 && Tag(whole) == Pack(size, 0)
      requires header in mem && footer in mem
      modifies this`mem
      ensures mem == WriteTags(old(mem), whole)
    {
      Put(header, Pack(size, 0));
      Put(footer, Pack(size, 0));
    }

    /** Fuses free block i with its free neighbours by rewriting boundary tags. */
    method Coalesce(bp: int, ghost i: int) returns (r: int)
      requires Shape()
      requires 0 <= i < |blocks| && blocks[i].Payload() == bp && !blocks[i].alloc
      modifies this`mem, this`blocks
      ensures Shape()
      ensures blocks == HeapBlocks.Coalesce(old(blocks), i)
      ensures r == blocks[FuseFrom(old(blocks), i)].Payload()
      ensures Untouched(old(mem), mem, Live(old(blocks)))
    {
      ghost var bs := blocks;
      EncodesAround(mem, bs, heapBrk, i);
      r := MergeTags(bp, bs[i], Before(bs, i), After(bs, heapBrk, i));
      FuseEncodes(old(mem), bs, heapBrk, i);
      assert mem.Keys == old(mem).Keys;
      blocks := HeapBlocks.Coalesce(bs, i);
    }

    /** Turns the epilogue into a new free block of `size` bytes; 0 when memory cannot be mapped. */
    method ExtendHeap(size: int) returns (bp: int)
      requires Shape() && !halted
      requires size >= MIN_BLOCK && size % 8 == 0 && heapBrk + size + 4 < WORD_RANGE
      modifies this
      ensures Shape()
      ensures Untouched(old(mem), mem, Live(old(blocks)))
      ensures bp == 0 <==> !HeapRuns.CanGrow(old(Abs()), old(heapBrk) + size + 4)
      ensures var grown := HeapRuns.Grow(old(Abs()), old(heapBrk) + size + 4);
        Abs() == if bp == 0 then grown
                 else grown.(bs := HeapRuns.Extend(old(blocks), old(heapBrk), size), brk := old(heapBrk) + size)
      ensures bp != 0 ==>
        var k := HeapRuns.ExtendIndex(old(blocks), old(heapBrk), size);
        0 <= k < |blocks| && bp == blocks[k].Payload()
    {
      HeapRuns.GrowReachesEnd(Abs(), heapBrk + size + 4);
      ghost var live := Live(blocks);
      var ok := EnsureMapped(heapBrk + size + 4);
      ghost var m1 := mem;
      KeptEncodes(old(mem), m1, blocks, heapBrk);
      if !ok {
        return 0;
      }
      bp := AppendBlock(size);
      ghost var m2 := mem;
      UntouchedChain(old(mem), m1, m2, live);
      bp := Coalesce(bp, |blocks| - 1);
      UntouchedChain(old(mem), m2, mem, live);
      assert bp > 0 by {
        HeapRuns.BlockInside(blocks, heapBrk, blocks[HeapRuns.ExtendIndex(old(blocks), old(heapBrk), size)]);
      }
    }

    /** Writes the tags of a new free block at the old epilogue, and the new epilogue behind it. */
    method AppendBlock(size: int) returns (bp: int)
      requires Shape()
      requires size >= MIN_BLOCK && size % 8 == 0 && heapBrk + size + 4 <= heapVirtMapped
      modifies this`mem, this`heapBrk, this`blocks
      ensures Shape()
      ensures blocks == old(blocks) + [Block(old(heapBrk), size, false)] && heapBrk == old(heapBrk) + size
      ensures bp == old(heapBrk) + 4
      ensures Live(blocks) == Live(old(blocks))
      ensures Untouched(old(mem), mem, Live(old(blocks)))
    {
      ghost var b := Block(heapBrk, size, false);
      NewBlockMapped(size);
      bp := heapBrk + 4;
      Put(heapBrk, Pack(size, 0));
      Put(Ftrp(bp), Pack(size, 0));
      Put(Hdrp(NextBlkp(bp)), Pack(0, 1));
      assert mem == WriteExtension(old(mem), b);
      ExtensionEncodes(old(mem), blocks, heapBrk, b);
      assert mem.Keys == old(mem).Keys;
      LiveOfParts(blocks, [b]);
      LiveOfBlock(b);
      blocks := blocks + [b];
      heapBrk := heapBrk + size;
    }

    lemma NewBlockMapped(size: int)
      requires Shape() && size % 8 == 0 && size >= MIN_BLOCK && heapBrk + size + 4 <= heapVirtMapped
      ensures WellFormed(Block(heapBrk, size, false))
      ensures heapBrk in mem && heapBrk + size - 4 in mem && heapBrk + size in mem
    {
      TilingEndsAligned(blocks, FIRST, heapBrk);
      WordAligned(heapBrk, size);
    }

    /** Takes free block i for `asize` bytes, splitting it when the rest can stand alone. */
    method Place(bp: int, asize: int, ghost i: int)
      requires Shape()
      requires 0 <= i < |blocks| && blocks[i].Payload() == bp && !blocks[i].alloc
      requires blocks[i].size >= asize >= MIN_BLOCK && asize % 8 == 0
      modifies this`mem, this`blocks
      ensures Shape()
      ensures blocks == HeapBlocks.Place(old(blocks), i, asize)
      ensures Untouched(old(mem), mem, Live(old(blocks)))
    {
      ghost var b := blocks[i];
      assert Tagged(mem, b) by { assert b in blocks; }
      SplitPointMapped(asize, i);
      SplitTagsRead(b, asize);
      PlaceTags(bp, asize, b);
      SplitEncodes(old(mem), blocks, heapBrk, i, asize);
      PlaceKeepsTiling(blocks, FIRST, heapBrk, i, asize);
      assert mem.Keys == old(mem).Keys;
      blocks := HeapBlocks.Place(blocks, i, asize);
    }

    method PlaceTags(bp: int, asize: int, ghost b: Block)
      requires b.Payload() == bp && Tagged(mem, b) && b.size >= asize >= MIN_BLOCK && SplitReads(b, asize)
      requires b.addr + asize - 4 in mem && b.addr + asize in mem
      modifies this`mem
      ensures mem == WriteSplit(old(mem), b, asize)
    {
      ghost var taken := Taken(b, asize);
      ghost var rest := Block(b.addr + asize, b.size - asize, false);
      var csize := SizeOf(Get(Hdrp(bp)));
      if csize - asize >= MIN_BLOCK {
        PutTags(bp, asize, 1, taken);
        var remainder := NextBlkp(bp);
        PutTags(remainder, csize - asize, 0, rest);
      } else {
        PutTags(bp, csize, 1, taken);
      }
    }

    lemma SplitPointMapped(asize: int, i: int)
      requires Shape() && 0 <= i < |blocks| && blocks[i].size >= asize >= MIN_BLOCK && asize % 8 == 0
      ensures WellFormed(blocks[i])
      ensures blocks[i].addr + asize - 4 in mem && blocks[i].addr + asize in mem
    {
      assert WellFormed(blocks[i]) && blocks[i].End() <= heapBrk && FIRST <= blocks[i].addr by {
        BlocksOrdered(blocks, FIRST, heapBrk);
      }
      WordAligned(blocks[i].addr, asize);
    }

    // -------------------------------------------------------------------------------------------
    // The interface

    /** `kheap_init`; it panics unless there are frames for the first 17 pages and their table. */
    constructor (supply: nat, junk: int -> int)
      requires supply >= 18
      ensures Valid() && Abs() == HeapRuns.Boot(supply - 18).heap
    {
      this.junk := junk;
      mem := map a | HEAP_START <= a < HEAP_START + PAGE_SIZE && a % 4 == 0 :: junk(a);
      frames := supply - 2;
      halted := false;
      heapVirtMapped := HEAP_START + PAGE_SIZE;
      heapBrk := HEAP_START + 12;
      blocks := [];
      new;
      WritePrologue();
      var init := Align8(HEAP_INITIAL);
      HeapRuns.FirstExtension(Abs(), init, supply - 18);
      HeapRuns.BootInv(supply - 18);
      var bp := ExtendHeap(init);
    }

    method WritePrologue()
      requires Mapped(mem, HEAP_START + PAGE_SIZE)
      modifies this`mem
      ensures Mapped(mem, HEAP_START + PAGE_SIZE) && Encodes(mem, [], HEAP_START + 12)
    {
      Put(HEAP_START, 0);
      Put(HEAP_START + 4, Pack(8, 1));
      Put(HEAP_START + 8, Pack(8, 1));
      Put(HEAP_START + 12, Pack(0, 1));
    }

    /** The first-fit walk of `kmalloc` over the headers, up to the epilogue. */
    method FindFit(asize: int) returns (found: bool, p: int, ghost i: int)
      requires Shape()
      ensures i == FirstFit(blocks, asize) && (found <==> i < |blocks|)
      ensures found ==> p == blocks[i].Payload()
    {
      i := 0;
      WalkStep(i);
      p := NextBlkp(HEAP_START + 8);
      while SizeOf(Get(Hdrp(p))) > 0
        invariant 0 <= i <= |blocks| && p == StartOf(blocks, heapBrk, i) + 4
        invariant Hdrp(p) in mem
        invariant forall k | 0 <= k < i :: blocks[k].alloc || blocks[k].size < asize
        decreases |blocks| - i
      {
        WalkStep(i);
        if AllocOf(Get(Hdrp(p))) == 0 && SizeOf(Get(Hdrp(p))) >= asize {
          return true, p, i;
        }
        p := NextBlkp(p);
        i := i + 1;
      }
      WalkStep(i);
      return false, p, i;
    }

    method Kmalloc(size: int) returns (p: int, ghost b: Block)
      requires Valid() && !halted && HeapRuns.NoWrap(Abs(), size)
      modifies this
      ensures Valid()
      ensures (Abs(), p) == HeapRuns.Malloc(old(Abs()), size)
      ensures p == 0 ==> blocks == old(blocks) && heapBrk == old(heapBrk)
      ensures p != 0 ==>
        && b.Payload() == p && HeapRuns.WellCut(blocks, b, BlockSize(size))
        && b !in Live(old(blocks)) && Live(blocks) == Live(old(blocks)) + {b}
      ensures Untouched(old(mem), mem, Live(old(blocks)))
    {
      b := HeapRuns.MallocSpec(Abs(), size);
      if size == 0 {
        return 0, b;
      }
      HeapRuns.RequestSizes(size);
      var asize := BlockSize(size);
      var found, q, i := FindFit(asize);
      if found {
        Place(q, asize, i);
        assert (Abs(), q) == HeapRuns.Malloc(old(Abs()), size);
        return q, b;
      }
      HeapRuns.NoWrapExact(Abs(), size);
      var extsize := Align8(if asize > PAGE_SIZE then asize else PAGE_SIZE);
      p := GrowAndPlace(extsize, asize);
    }

    /** The second half of `kmalloc`, for when no free block fits. */
    method GrowAndPlace(extsize: int, asize: int) returns (p: int)
      requires Shape() && !halted && NoAdjacentFree(blocks)
      requires extsize >= asize >= MIN_BLOCK && asize % 8 == 0 && extsize % 8 == 0
      requires heapBrk + extsize + 4 < WORD_RANGE
      modifies this
      ensures Shape()
      ensures var h := old(Abs()); (Abs(), p) == HeapRuns.GrowAndPlace(h, h.brk + extsize + 4, extsize, asize)
      ensures Untouched(old(mem), mem, Live(old(blocks)))
    {
      HeapRuns.ExtendKeeps(blocks, heapBrk, extsize);
      p := ExtendHeap(extsize);
      if p == 0 {
        return;
      }
      ghost var m := mem;
      Place(p, asize, HeapRuns.ExtendIndex(old(blocks), old(heapBrk), extsize));
      UntouchedChain(old(mem), m, mem, Live(old(blocks)));
    }

    /** What the block walk reads at block i, and that it stops exactly at the epilogue. */
    lemma WalkStep(i: int)
      requires Shape() && 0 <= i <= |blocks|
      ensures StartOf(blocks, heapBrk, i) in mem
      ensures SizeOf(mem[StartOf(blocks, heapBrk, i)]) == if i < |blocks| then blocks[i].size else 0
      ensures i < |blocks| ==> blocks[i].size > 0 && (AllocOf(mem[blocks[i].addr]) == 1 <==> blocks[i].alloc)
      ensures i < |blocks| ==> StartOf(blocks, heapBrk, i + 1) == blocks[i].End() && blocks[i].End() in mem
    {
      BlocksOrdered(blocks, FIRST, heapBrk);
      if i < |blocks| {
        assert Tagged(mem, blocks[i]);
        TagDecodes(blocks[i]);
        if i + 1 < |blocks| {
          assert Tagged(mem, blocks[i + 1]);
        }
      }
    }

    /** Frees the live block whose payload starts at `p`; 0 is ignored. */
    method Kfree(p: int, ghost b: Block)
      requires Valid()
      requires p != 0 ==> b in Live(blocks) && b.Payload() == p
      modifies this`mem, this`blocks
      ensures Valid()
      ensures Abs() == if p == 0 then old(Abs()) else HeapRuns.Free(old(Abs()), p)
      ensures p == 0 ==> mem == old(mem)
      ensures Untouched(old(mem), mem, Live(old(blocks)) - {b})
    {
      if p == 0 {
        return;
      }
      HeapRuns.FreeSpec(Abs(), b);
      HeapRuns.FindLive(blocks, FIRST, heapBrk, b);
      ghost var i := Find(blocks, p);
      ghost var live := Live(blocks) - {b};
      MarkFreeTags(p, b, i);
      ghost var m := mem;
      var bp := Coalesce(p, i);
      UntouchedChain(old(mem), m, mem, live);
    }

    /** Clears the allocation bit in both tags of block i. */
    method MarkFreeTags(p: int, ghost b: Block, ghost i: int)
      requires Shape() && 0 <= i < |blocks| && blocks[i] == b && b.alloc && b.Payload() == p
      modifies this`mem, this`blocks
      ensures Shape() && blocks == MarkFree(old(blocks), i)
      ensures Live(blocks) == Live(old(blocks)) - {b}
      ensures Untouched(old(mem), mem, Live(old(blocks)) - {b})
    {
      assert Tagged(mem, b) by { assert b in blocks; }
      assert WellFormed(b) by { BlocksOrdered(blocks, FIRST, heapBrk); }
      ClearTags(p, b);
      MarkFreeEncodes(old(mem), blocks, heapBrk, i);
      MarkFreeRemovesLive(blocks, FIRST, heapBrk, i);
      assert mem.Keys == old(mem).Keys;
      blocks := MarkFree(blocks, i);
    }

    method ClearTags(p: int, ghost b: Block)
      requires b.Payload() == p && WellFormed(b) && Tagged(mem, b)
      modifies this`mem
      ensures mem == WriteTags(old(mem), b.(alloc := false))
    {
      TagDecodes(b);
      TagDecodes(b.(alloc := false));
      var size := SizeOf(Get(Hdrp(p)));
      PutTags(p, size, 0, b.(alloc := false));
    }

    /** A caller's write to a word of its own payload. */
    method Store(a: int, v: int, ghost b: Block)
      requires Valid() && b in Live(blocks)
      requires b.Payload() <= a < b.End() - 4 && a % 4 == 0
      modifies this`mem
      ensures Valid() && mem == old(mem)[a := v]
      ensures Untouched(old(mem), mem, Live(blocks) - {b})
    {
      HeapRuns.BlockInside(blocks, heapBrk, b);
      PayloadWriteEncodes(mem, blocks, heapBrk, b, a, v);
      forall c | c in Live(blocks) && c != b
        ensures c.End() <= b.addr || b.End() <= c.addr
      {
        HeapRuns.LiveBlocksApart(blocks, heapBrk, b, c);
      }
      Put(a, v);
    }

    /** Page-aligned allocation; the word before the result points back to the underlying block. */
    method KmallocAligned(size: int) returns (p: int, ghost b: Block)
      requires Valid() && !halted && 0 <= size && size + PAGE_SIZE + 4 <= WORD_RANGE - 16
      requires HeapRuns.NoWrap(Abs(), size + PAGE_SIZE + 4)
      modifies this
      ensures Valid()
      ensures p == 0 <==> HeapRuns.Malloc(old(Abs()), size + PAGE_SIZE + 4).1 == 0
      ensures p == 0 ==> blocks == old(blocks)
      ensures p != 0 ==>
        && b !in Live(old(blocks)) && Live(blocks) == Live(old(blocks)) + {b}
        && p % PAGE_SIZE == 0 && b.Payload() + 4 <= p && p + size <= b.End() - 4
        && p - 4 in mem && mem[p - 4] == b.Payload()
      ensures Untouched(old(mem), mem, Live(old(blocks)))
    {
      var total := size + PAGE_SIZE + 4;
      BlockSizeCoversRequest(total);
      var raw;
      raw, b := Kmalloc(total);
      if raw == 0 {
        return 0, b;
      }
      ghost var m := mem;
      HeapRuns.BlockInside(blocks, heapBrk, b);
      AlignedInside(raw, size);
      var aligned := PageUp(raw + 4);
      Store(aligned - 4, raw, b);
      UntouchedChain(old(mem), m, mem, Live(old(blocks)));
      p := aligned;
    }

    /** Frees the block that the back-pointer word names, provided the word is intact. */
    method KfreeAligned(p: int, ghost b: Block)
      requires Valid()
      requires p != 0 ==> b in Live(blocks) && p - 4 in mem && mem[p - 4] == b.Payload()
      modifies this`mem, this`blocks
      ensures Valid()
      ensures p == 0 ==> Abs() == old(Abs()) && mem == old(mem)
      ensures p != 0 ==> Abs() == HeapRuns.Free(old(Abs()), b.Payload()) && Live(blocks) == Live(old(blocks)) - {b}
      ensures Untouched(old(mem), mem, Live(old(blocks)) - {b})
    {
      if p == 0 {
        return;
      }
      HeapRuns.FreeSpec(Abs(), b);
      HeapRuns.BlockInside(blocks, heapBrk, b);
      var original := Get(p - 4);
      Kfree(original, b);
    }

    /** The totals of `kheap_dump`: they account for every byte between prologue and epilogue. */
    method Dump() returns (used: int, free: int)
      requires Valid()
      ensures used == Bytes(blocks, true) && free == Bytes(blocks, false)
      ensures used + free == heapBrk - (HEAP_START + 12)
    {
      used, free := 0, 0;
      ghost var i := 0;
      WalkStep(i);
      var bp := NextBlkp(HEAP_START + 8);
      assert blocks[0..] == blocks;
      while SizeOf(Get(Hdrp(bp))) > 0
        invariant 0 <= i <= |blocks| && bp == StartOf(blocks, heapBrk, i) + 4
        invariant Hdrp(bp) in mem
        invariant used + Bytes(blocks[i..], true) == Bytes(blocks, true)
        invariant free + Bytes(blocks[i..], false) == Bytes(blocks, false)
        decreases |blocks| - i
      {
        WalkStep(i);
        assert blocks[i..][1..] == blocks[i + 1..];
        var sz := SizeOf(Get(Hdrp(bp)));
        if AllocOf(Get(Hdrp(bp))) == 1 {
          used := used + sz;
        } else {
          free := free + sz;
        }
        bp := NextBlkp(bp);
        i := i + 1;
      }
      WalkStep(i);
      BytesConserved(blocks, FIRST, heapBrk);
    }
  }
}
