/** The allocator as a machine on rows of blocks, and what holds in every run of it.

    `KernelHeap` proves that the C routines, which work on tag words, take exactly these steps. */
module HeapRuns {
  import opened Machine
  import opened HeapBlocks

  /** `frames` is how many frames the physical memory manager can still hand out. `halted` tells that the kernel
      has panicked for want of a page table. */
  datatype Heap = Heap(bs: seq<Block>, brk: int, mapped: int, frames: nat, halted: bool)

  ghost predicate HeapInv(h: Heap) {
    && Tiled(h.bs, FIRST, h.brk)
    && NoAdjacentFree(h.bs)
    && FIRST < h.brk
    && h.brk + 4 <= h.mapped <= HEAP_MAX
    && h.mapped % PAGE_SIZE == 0
  }

  // ---------------------------------------------------------------------------------------------
  // Growing

  /** What one page table covers. */
  const TABLE_SPAN: int := 0x40_0000

  /** Pages are mapped in address order, so the next one needs a new table exactly at the start of a span. */
  predicate NeedsTable(h: Heap) {
    h.mapped % TABLE_SPAN == 0
  }

  /** One page more, as one turn of the mapping loop makes: a frame for the page, then one for the table. Without
      the latter the kernel panics. */
  function GrowOnce(h: Heap): Heap
    requires h.frames > 0
  {
    if !NeedsTable(h) then h.(mapped := h.mapped + PAGE_SIZE, frames := h.frames - 1)
    else if h.frames == 1 then h.(frames := 0, halted := true)
    else h.(mapped := h.mapped + PAGE_SIZE, frames := h.frames - 2)
  }

  /** Maps page after page until `end` is covered, the ceiling is hit or no frame is left. */
  function Grow(h: Heap, end: int): Heap
    decreases h.frames
  {
    if h.halted || h.mapped >= end || h.mapped + PAGE_SIZE > HEAP_MAX || h.frames == 0 then h
    else Grow(GrowOnce(h), end)
  }

  /** Frames for the pages from `mapped` up to `end`, and for the tables that start among them. */
  function FramesWanted(mapped: int, end: int): nat
    decreases end - mapped
  {
    if end <= mapped then 0
    else (if mapped % TABLE_SPAN == 0 then 2 else 1) + FramesWanted(mapped + PAGE_SIZE, end)
  }

  /** Everything up to `end` can be mapped: it lies below the ceiling and there are frames enough. */
  predicate CanGrow(h: Heap, end: int) {
    end <= h.mapped || (end <= HEAP_MAX && FramesWanted(h.mapped, end) <= h.frames)
  }

  /** At m, where a table is due, the last frame goes to the page. */
  predicate HaltsAt(h: Heap, end: int, m: int) {
    && h.mapped <= m < end && m + PAGE_SIZE <= HEAP_MAX && m % TABLE_SPAN == 0
    && FramesWanted(h.mapped, m) + 1 == h.frames
  }

  /** There is such an m, so the kernel panics. */
  ghost predicate Halts(h: Heap, end: int) {
    exists m :: HaltsAt(h, end, m)
  }

  function PagesWanted(mapped: int, end: int): (r: nat) {
    if end <= mapped then 0 else (end - mapped + PAGE_SIZE - 1) / PAGE_SIZE
  }

  /** Number of tables that cover [0, a). */
  function Tables(a: int): int {
    (a + TABLE_SPAN - 1) / TABLE_SPAN
  }

  lemma TablesOfPages(k: nat)
    ensures Tables(k * PAGE_SIZE) == (k + 1023) / 1024
    ensures k * PAGE_SIZE % TABLE_SPAN == 0 <==> k % 1024 == 0
  {
    var q, r := (k + 1023) / 1024, (k + 1023) % 1024;
    assert k * PAGE_SIZE + TABLE_SPAN - 1 == TABLE_SPAN * q + (PAGE_SIZE * r + PAGE_SIZE - 1);
    assert k * PAGE_SIZE == TABLE_SPAN * (k / 1024) + PAGE_SIZE * (k % 1024);
  }

  lemma TablesStep(m: int)
    requires m >= 0 && m % PAGE_SIZE == 0
    ensures Tables(m + PAGE_SIZE) == Tables(m) + if m % TABLE_SPAN == 0 then 1 else 0
  {
    var k := m / PAGE_SIZE;
    assert m == k * PAGE_SIZE && m + PAGE_SIZE == (k + 1) * PAGE_SIZE;
    TablesOfPages(k);
    TablesOfPages(k + 1);
  }

  /** One frame for each page, and one for each table. */
  lemma {:induction false} FramesWantedIs(mapped: int, end: int)
    requires mapped >= 0 && mapped % PAGE_SIZE == 0
    ensures var pages := PagesWanted(mapped, end);
      FramesWanted(mapped, end) == pages + Tables(mapped + pages * PAGE_SIZE) - Tables(mapped)
    decreases end - mapped
  {
    if end <= mapped {
    } else {
      FramesWantedIs(mapped + PAGE_SIZE, end);
      TablesStep(mapped);
      assert PagesWanted(mapped, end) == PagesWanted(mapped + PAGE_SIZE, end) + 1;
    }
  }

  /** The mapping loop succeeds exactly when there is room, and takes one frame for each page and each new
      table. */
  lemma {:induction false} GrowReachesEnd(h: Heap, end: int)
    requires !h.halted && 0 <= h.mapped <= HEAP_MAX && h.mapped % PAGE_SIZE == 0
    ensures CanGrow(h, end) <==> end <= Grow(h, end).mapped
    ensures var g := Grow(h, end);
      && g == h.(mapped := g.mapped, frames := g.frames, halted := g.halted)
      && h.mapped <= g.mapped <= HEAP_MAX && g.mapped % PAGE_SIZE == 0
      && (g.mapped == h.mapped || g.mapped < end + PAGE_SIZE)
      && h.frames == g.frames + FramesWanted(h.mapped, g.mapped) + if g.halted then 1 else 0
    decreases h.frames
  {
    if h.mapped < end && h.mapped + PAGE_SIZE <= HEAP_MAX && h.frames > 0 && !GrowOnce(h).halted {
      GrowReachesEnd(GrowOnce(h), end);
    }
  }

  /** And the kernel panics in it exactly when the supply ends between a page and the table it is due. */
  lemma {:induction false} GrowHaltsIff(h: Heap, end: int)
    requires !h.halted && 0 <= h.mapped <= HEAP_MAX && h.mapped % PAGE_SIZE == 0
    ensures Grow(h, end).halted <==> Halts(h, end)
    decreases h.frames
  {
    if h.mapped < end && h.mapped + PAGE_SIZE <= HEAP_MAX && h.frames > 0 {
      if GrowOnce(h).halted {
        assert HaltsAt(h, end, h.mapped);
      } else {
        GrowHaltsIff(GrowOnce(h), end);
        forall m
          ensures HaltsAt(h, end, m) <==> HaltsAt(GrowOnce(h), end, m)
        {
          HaltsLater(h, end, m);
        }
      }
    }
  }

  lemma HaltsLater(h: Heap, end: int, m: int)
    requires !h.halted && 0 <= h.mapped < end && h.mapped + PAGE_SIZE <= HEAP_MAX && h.mapped % PAGE_SIZE == 0
    requires h.frames > 0 && !GrowOnce(h).halted
    ensures HaltsAt(h, end, m) <==> HaltsAt(GrowOnce(h), end, m)
  {
    if h.mapped < m && m % TABLE_SPAN == 0 {
      SpansArePages(h.mapped, m);
    }
  }

  lemma SpansArePages(a: int, m: int)
    requires a < m && a % PAGE_SIZE == 0 && m % TABLE_SPAN == 0
    ensures a + PAGE_SIZE <= m
  {
    assert m == PAGE_SIZE * (m / TABLE_SPAN * 1024) && a == PAGE_SIZE * (a / PAGE_SIZE);
  }

  // ---------------------------------------------------------------------------------------------
  // Allocation and release

  /** The end up to which `extend_heap` asks for memory. */
  function ExtensionEnd(h: Heap, size: int): int {
    (h.brk + ExtendSize(BlockSize(size)) + 4) % WORD_RANGE
  }

  /** The end of an extension, if one is needed, does not wrap around in 32 bits. */
  predicate NoWrap(h: Heap, size: int) {
    && 0 <= size < WORD_RANGE
    && (FirstFit(h.bs, BlockSize(size)) == |h.bs| ==> h.brk + ExtendSize(BlockSize(size)) + 4 < WORD_RANGE)
  }

  function Extend(bs: seq<Block>, brk: int, ext: int): seq<Block> {
    Coalesce(bs + [Block(brk, ext, false)], |bs|)
  }

  /** Index at which the block made by `Extend` ends up. */
  function ExtendIndex(bs: seq<Block>, brk: int, ext: int): int {
    FuseFrom(bs + [Block(brk, ext, false)], |bs|)
  }

  function Malloc(h: Heap, size: int): (Heap, int) {
    if size == 0 then (h, 0)
    else
      var asize := BlockSize(size);
      var i := FirstFit(h.bs, asize);
      if i < |h.bs| then
        (h.(bs := Place(h.bs, i, asize)), h.bs[i].Payload())
      else
        MallocByGrowth(h, ExtensionEnd(h, size), ExtendSize(asize), asize)
  }

  /** Takes the request from a new block at the end of the heap, or fails. The end is computed in 32 bits. */
  function MallocByGrowth(h: Heap, end: int, ext: int, asize: int): (Heap, int) {
    var (h', p) := GrowAndPlace(h, end, ext, asize);
    (h'.(brk := h'.brk % WORD_RANGE), p)
  }

  function GrowAndPlace(h: Heap, end: int, ext: int, asize: int): (Heap, int) {
    if !CanGrow(h, end) then (Grow(h, end), 0)
    else
      var bs := Extend(h.bs, h.brk, ext);
      var k := ExtendIndex(h.bs, h.brk, ext);
      (Grow(h, end).(bs := Place(bs, k, asize), brk := h.brk + ext), bs[k].Payload())
  }

  function Free(h: Heap, p: int): Heap {
    var i := Find(h.bs, p);
    if i < |h.bs| then h.(bs := Release(h.bs, i)) else h
  }

  lemma ExtendKeeps(bs: seq<Block>, brk: int, ext: int)
    requires Tiled(bs, FIRST, brk) && NoAdjacentFree(bs)
    requires ext >= MIN_BLOCK && ext % 8 == 0
    ensures Tiled(Extend(bs, brk, ext), FIRST, brk + ext) && NoAdjacentFree(Extend(bs, brk, ext))
    ensures Live(Extend(bs, brk, ext)) == Live(bs)
    ensures var k := ExtendIndex(bs, brk, ext);
      && 0 <= k < |Extend(bs, brk, ext)| && !Extend(bs, brk, ext)[k].alloc
      && Extend(bs, brk, ext)[k].size >= ext && Extend(bs, brk, ext)[k].addr == Tail(bs, brk)
    ensures Bytes(Extend(bs, brk, ext), true) == Bytes(bs, true)
  {
    var b := Block(brk, ext, false);
    AppendedKeeps(bs, brk, b);
    CoalesceKeeps(bs + [b], FIRST, brk + ext, |bs|);
    BlocksOrdered(bs + [b], FIRST, brk + ext);
    CoalesceUses(bs + [b], |bs|);
    BytesOfParts(bs, [b], true);
    FreeUsesNothing([b]);
  }

  lemma AppendedKeeps(bs: seq<Block>, brk: int, b: Block)
    requires Tiled(bs, FIRST, brk) && NoAdjacentFree(bs)
    requires b.addr == brk && b.size >= MIN_BLOCK && b.size % 8 == 0 && !b.alloc
    ensures Tiled(bs + [b], FIRST, b.End()) && NoAdjacentFreeBut(bs + [b], |bs|) && Live(bs + [b]) == Live(bs)
  {
    BlocksOrdered(bs, FIRST, brk);
    assert brk % 8 == 4;
    OneBlockTiles(b);
    TilingJoins(bs, [b], FIRST, brk, b.End());
    LiveOfParts(bs, [b]);
    LiveOfBlock(b);
  }

  /** The requests for which that is so: all but those whose block would end beyond 4 GiB. */
  lemma NoWrapIff(h: Heap, size: int)
    requires HeapInv(h) && 0 < size < WORD_RANGE
    ensures NoWrap(h, size) <==> h.brk + BlockSize(size) + 4 < WORD_RANGE
  {
    RequestSizes(size);
    BlocksOrdered(h.bs, FIRST, h.brk);
  }

  /** The heap stays sound if and only if that is so. */
  lemma MallocSoundIff(h: Heap, size: int)
    requires HeapInv(h) && !h.halted && 0 <= size < WORD_RANGE
    ensures HeapInv(Malloc(h, size).0) <==> NoWrap(h, size)
  {
    if NoWrap(h, size) {
      var b := MallocSpec(h, size);
    } else {
      WrappedEnd(h, size);
      WrappedBreaks(h, size);
    }
  }

  lemma WrappedEnd(h: Heap, size: int)
    requires HeapInv(h) && 0 <= size < WORD_RANGE && !NoWrap(h, size)
    ensures size > 0 && ExtensionEnd(h, size) < h.brk && Grow(h, ExtensionEnd(h, size)) == h
    ensures ExtensionEnd(h, size) == h.brk + ExtendSize(BlockSize(size)) + 4 - WORD_RANGE
  {
    if size == 0 {
      BlocksOrdered(h.bs, FIRST, h.brk);
    } else {
      RequestSizes(size);
    }
  }

  /** The end of the last block and the end of the heap are 4 GiB apart, or the end is not mapped. */
  lemma WrappedBreaks(h: Heap, size: int)
    requires HeapInv(h) && 0 < size < WORD_RANGE && !NoWrap(h, size) && ExtensionEnd(h, size) < h.brk
    requires Grow(h, ExtensionEnd(h, size)) == h
    ensures !HeapInv(Malloc(h, size).0)
  {
    RequestSizes(size);
    var ext := ExtendSize(BlockSize(size));
    var b, bs, brk, p := ExtendAndPlace(h.bs, h.brk, ext, BlockSize(size));
    assert Malloc(h, size).0 == h.(bs := bs, brk := brk % WORD_RANGE);
    WrappedEndBreaks(h, bs, brk);
  }

  lemma WrappedEndBreaks(h: Heap, bs: seq<Block>, brk: int)
    requires Tiled(bs, FIRST, brk) && brk + 4 >= WORD_RANGE && h.mapped <= HEAP_MAX
    ensures !HeapInv(h.(bs := bs, brk := brk % WORD_RANGE))
  {
    if Tiled(bs, FIRST, brk % WORD_RANGE) {
      OneEnd(bs, brk, brk % WORD_RANGE);
    }
  }

  lemma OneEnd(bs: seq<Block>, a: int, b: int)
    requires Tiled(bs, FIRST, a) && Tiled(bs, FIRST, b)
    ensures a == b
  {
    BlocksOrdered(bs, FIRST, a);
    BlocksOrdered(bs, FIRST, b);
  }

  /** A block of this row, taken for `asize` bytes: no larger, unless what would be left is too small to stand
      alone and the next block is not free. */
  ghost predicate WellCut(bs: seq<Block>, b: Block, asize: int) {
    && asize <= b.size < asize + MIN_BLOCK
    && (b.size == asize || forall c | c in bs && c.addr == b.End() :: c.alloc)
  }

  ghost predicate HasFit(bs: seq<Block>, asize: int) {
    exists i :: 0 <= i < |bs| && !bs[i].alloc && bs[i].size >= asize
  }

  /** Where the space behind the last allocated block starts. */
  function Tail(bs: seq<Block>, brk: int): int {
    if bs != [] && !bs[|bs| - 1].alloc then bs[|bs| - 1].addr else brk
  }

  /** A successful allocation adds one live block and disturbs no other; the block is large enough if and only
      if rounding up the request does not wrap 32 bits, and larger than it has to be only by a rest that cannot
      stand alone. Where a free block fits, the heap does not grow; else it grows by the larger of the block and a
      page, and the block comes behind the last allocated one. The free bytes change by just that. A failed
      allocation changes no block, and happens only when no free block fits and the heap cannot grow; the kernel
      panics exactly if the frames run out between a page and its table. */
  lemma MallocSpec(h: Heap, size: int) returns (b: Block)
    requires HeapInv(h) && !h.halted && NoWrap(h, size)
    ensures HeapInv(Malloc(h, size).0)
    ensures var (h', p) := Malloc(h, size);
      if p == 0 then
        && h'.bs == h.bs && h'.brk == h.brk
        && (size != 0 ==>
              && (forall i | 0 <= i < |h.bs| :: h.bs[i].alloc || h.bs[i].size < BlockSize(size))
              && !CanGrow(h, ExtensionEnd(h, size)) && (h'.halted <==> Halts(h, ExtensionEnd(h, size))))
      else
        && size != 0 && !h'.halted
        && b.Payload() == p && WellCut(h'.bs, b, BlockSize(size)) && b !in Live(h.bs)
        && (b.size >= size + 8 <==> size <= WORD_RANGE - 16)
        && Live(h'.bs) == Live(h.bs) + {b}
        && Bytes(h'.bs, false) == Bytes(h.bs, false) + (h'.brk - h.brk) - b.size
        && (if HasFit(h.bs, BlockSize(size)) then h' == h.(bs := h'.bs)
            else b.addr == Tail(h.bs, h.brk)
                 && h'.brk == h.brk + if BlockSize(size) > PAGE_SIZE then BlockSize(size) else PAGE_SIZE)
  {
    b := Block(0, 0, true);
    if size != 0 {
      RequestSizes(size);
      var i := FirstFit(h.bs, BlockSize(size));
      if i < |h.bs| {
        b := MallocAt(h.bs, h.brk, i, BlockSize(size));
      } else {
        b := MallocNoFit(h, size);
      }
      var h' := Malloc(h, size).0;
      BytesConserved(h.bs, FIRST, h.brk);
      BytesConserved(h'.bs, FIRST, h'.brk);
    }
  }

  lemma MallocNoFit(h: Heap, size: int) returns (b: Block)
    requires HeapInv(h) && !h.halted && NoWrap(h, size) && size != 0 && FirstFit(h.bs, BlockSize(size)) == |h.bs|
    ensures HeapInv(Malloc(h, size).0)
    ensures var (h', p) := Malloc(h, size);
      if p == 0 then
        && h'.bs == h.bs && h'.brk == h.brk
        && !CanGrow(h, ExtensionEnd(h, size)) && (h'.halted <==> Halts(h, ExtensionEnd(h, size)))
      else
        && !h'.halted && b.Payload() == p && WellCut(h'.bs, b, BlockSize(size)) && b !in Live(h.bs)
        && Live(h'.bs) == Live(h.bs) + {b} && Bytes(h'.bs, true) == Bytes(h.bs, true) + b.size
        && b.addr == Tail(h.bs, h.brk)
        && h'.brk == h.brk + if BlockSize(size) > PAGE_SIZE then BlockSize(size) else PAGE_SIZE
  {
    b := Block(0, 0, true);
    var end, ext := ExtensionEnd(h, size), ExtendSize(BlockSize(size));
    NoWrapExact(h, size);
    RequestSizes(size);
    if CanGrow(h, end) {
      b := MallocGrows(h, ext, BlockSize(size));
    } else {
      GrowthFails(h, end);
    }
  }

  lemma GrowthFails(h: Heap, end: int)
    requires HeapInv(h) && !h.halted && !CanGrow(h, end)
    ensures var g := Grow(h, end);
      HeapInv(g) && g.bs == h.bs && g.brk == h.brk && (g.halted <==> Halts(h, end))
  {
    GrowReachesEnd(h, end);
    GrowHaltsIff(h, end);
  }

  lemma MallocGrows(h: Heap, ext: int, asize: int) returns (b: Block)
    requires HeapInv(h) && !h.halted && ext >= asize >= MIN_BLOCK && ext % 8 == 0 && asize % 8 == 0
    requires CanGrow(h, h.brk + ext + 4)
    ensures var (h', p) := GrowAndPlace(h, h.brk + ext + 4, ext, asize);
      && HeapInv(h') && !h'.halted && b.Payload() == p > 0
      && WellCut(h'.bs, b, asize) && b !in Live(h.bs) && Live(h'.bs) == Live(h.bs) + {b}
      && Bytes(h'.bs, true) == Bytes(h.bs, true) + b.size && b.addr == Tail(h.bs, h.brk) && h'.brk == h.brk + ext
  {
    var g := GrownTo(h, h.brk + ext + 4);
    var bs, brk, p;
    b, bs, brk, p := ExtendAndPlace(h.bs, h.brk, ext, asize);
    GrownInv(g, bs, brk);
    assert GrowAndPlace(h, h.brk + ext + 4, ext, asize) == (g.(bs := bs, brk := brk), p);
  }

  /** Without a wrap-around the 32-bit arithmetic is exact. */
  lemma NoWrapExact(h: Heap, size: int)
    requires HeapInv(h) && NoWrap(h, size) && size != 0 && FirstFit(h.bs, BlockSize(size)) == |h.bs|
    ensures var asize, ext := BlockSize(size), ExtendSize(BlockSize(size));
      && ExtensionEnd(h, size) == h.brk + ext + 4
      && Malloc(h, size) == GrowAndPlace(h, h.brk + ext + 4, ext, asize)
  {
    var ext := ExtendSize(BlockSize(size));
    assert ext > 0 by { RequestSizes(size); }
    GrowKeepsBrk(h, h.brk + ext + 4);
    FitsWord(h.brk);
    FitsWord(h.brk + ext);
    FitsWord(h.brk + ext + 4);
  }

  lemma FitsWord(x: int)
    requires 0 <= x < WORD_RANGE
    ensures x % WORD_RANGE == x
  {
  }

  lemma {:induction false} GrowKeepsBrk(h: Heap, end: int)
    ensures Grow(h, end).brk == h.brk
    decreases h.frames
  {
    if h.frames == 0 {
    } else {
      GrowKeepsBrk(GrowOnce(h), end);
    }
  }

  lemma GrownTo(h: Heap, end: int) returns (g: Heap)
    requires HeapInv(h) && !h.halted && CanGrow(h, end)
    ensures g == Grow(h, end) && !g.halted && end <= g.mapped <= HEAP_MAX && g.mapped % PAGE_SIZE == 0
  {
    GrowReachesEnd(h, end);
    CannotHalt(h, end);
    g := Grow(h, end);
  }

  lemma ExtendAndPlace(bs: seq<Block>, brk: int, ext: int, asize: int)
      returns (b: Block, bs': seq<Block>, brk': int, p: int)
    requires Tiled(bs, FIRST, brk) && NoAdjacentFree(bs)
    requires ext >= asize >= MIN_BLOCK && ext % 8 == 0 && asize % 8 == 0
    ensures var k := ExtendIndex(bs, brk, ext);
      && 0 <= k < |Extend(bs, brk, ext)| && bs' == Place(Extend(bs, brk, ext), k, asize) && brk' == brk + ext
      && p == Extend(bs, brk, ext)[k].Payload()
    ensures Tiled(bs', FIRST, brk') && NoAdjacentFree(bs') && FIRST < brk'
    ensures b.Payload() == p > 0 && WellCut(bs', b, asize) && b !in Live(bs)
    ensures Live(bs') == Live(bs) + {b} && Bytes(bs', true) == Bytes(bs, true) + b.size && b.addr == Tail(bs, brk)
  {
    ExtendKeeps(bs, brk, ext);
    BlocksOrdered(bs, FIRST, brk);
    var k := ExtendIndex(bs, brk, ext);
    b := MallocAt(Extend(bs, brk, ext), brk + ext, k, asize);
    bs', brk', p := Place(Extend(bs, brk, ext), k, asize), brk + ext, Extend(bs, brk, ext)[k].Payload();
  }

  lemma GrownInv(h: Heap, bs: seq<Block>, brk: int)
    requires Tiled(bs, FIRST, brk) && NoAdjacentFree(bs) && FIRST < brk
    requires brk + 4 <= h.mapped <= HEAP_MAX && h.mapped % PAGE_SIZE == 0
    ensures HeapInv(h.(bs := bs, brk := brk))
  {
  }

  /** With frames enough for everything up to `end`, none is missing on the way. */
  lemma CannotHalt(h: Heap, end: int)
    requires !h.halted && 0 <= h.mapped <= HEAP_MAX && h.mapped % PAGE_SIZE == 0 && CanGrow(h, end)
    ensures !Grow(h, end).halted
  {
    GrowReachesEnd(h, end);
    if Grow(h, end).halted {
      StopsWhenHalted(h, end);
    }
  }

  lemma {:induction false} StopsWhenHalted(h: Heap, end: int)
    requires !h.halted && Grow(h, end).halted
    ensures Grow(h, end).mapped < end
    decreases h.frames
  {
    if !GrowOnce(h).halted {
      StopsWhenHalted(GrowOnce(h), end);
    }
  }

  lemma RequestSizes(size: int)
    requires 0 < size < WORD_RANGE
    ensures BlockSize(size) % 8 == 0 && MIN_BLOCK <= BlockSize(size) < WORD_RANGE
    ensures if size <= WORD_RANGE - 16 then BlockSize(size) >= size + 8 else BlockSize(size) == MIN_BLOCK
    ensures var ext := ExtendSize(BlockSize(size));
      ext % 8 == 0 && ext == if BlockSize(size) > PAGE_SIZE then BlockSize(size) else PAGE_SIZE
  {
  }

  lemma MallocAt(bs: seq<Block>, brk: int, i: int, asize: int) returns (b: Block)
    requires Tiled(bs, FIRST, brk) && NoAdjacentFree(bs)
    requires 0 <= i < |bs| && !bs[i].alloc && bs[i].size >= asize >= MIN_BLOCK && asize % 8 == 0
    ensures Tiled(Place(bs, i, asize), FIRST, brk) && NoAdjacentFree(Place(bs, i, asize))
    ensures b == Taken(bs[i], asize) && b.Payload() == bs[i].Payload() && asize <= b.size <= brk && b !in Live(bs)
    ensures b.Payload() > 0 && WellCut(Place(bs, i, asize), b, asize)
    ensures Live(Place(bs, i, asize)) == Live(bs) + {b} && Bytes(Place(bs, i, asize), true) == Bytes(bs, true) + b.size
  {
    BlocksOrdered(bs, FIRST, brk);
    PlaceKeepsTiling(bs, FIRST, brk, i, asize);
    PlaceKeepsApart(bs, i, asize);
    PlaceAddsLive(bs, FIRST, brk, i, asize);
    PlaceUses(bs, i, asize);
    b := Taken(bs[i], asize);
    PlaceCutsWell(bs, brk, i, asize);
  }

  lemma PlaceCutsWell(bs: seq<Block>, brk: int, i: int, asize: int)
    requires Tiled(bs, FIRST, brk) && NoAdjacentFree(bs) && 0 <= i < |bs| && !bs[i].alloc && bs[i].size >= asize
    requires Tiled(Place(bs, i, asize), FIRST, brk)
    ensures WellCut(Place(bs, i, asize), Taken(bs[i], asize), asize)
  {
    var bs', b := Place(bs, i, asize), Taken(bs[i], asize);
    if b.size != asize {
      assert bs'[i] == b && bs' == bs[i := b];
      forall c | c in bs' && c.addr == b.End()
        ensures c.alloc
      {
        NextBlock(bs', brk, i, c);
        assert bs[i + 1 - 1].alloc || bs[i + 1].alloc;
      }
    }
  }

  lemma NextBlock(bs: seq<Block>, brk: int, i: int, c: Block)
    requires Tiled(bs, FIRST, brk) && 0 <= i < |bs| && c in bs && c.addr == bs[i].End()
    ensures i + 1 < |bs| && c == bs[i + 1]
  {
    BlocksOrdered(bs, FIRST, brk);
    var k :| 0 <= k < |bs| && bs[k] == c;
    if k < i {
      BlocksDisjoint(bs, FIRST, brk, k, i);
    } else if k > i + 1 {
      BlocksDisjoint(bs, FIRST, brk, i + 1, k);
    }
  }

  /** Allocation takes the lowest free block that fits, and grows the heap only when none does. */
  lemma MallocIsFirstFit(h: Heap, size: int, i: int)
    requires HeapInv(h) && NoWrap(h, size) && size != 0
    requires 0 <= i < |h.bs| && !h.bs[i].alloc && h.bs[i].size >= BlockSize(size)
    ensures Malloc(h, size).1 != 0 && Malloc(h, size).1 <= h.bs[i].Payload()
    ensures Malloc(h, size).0 == h.(bs := Malloc(h, size).0.bs)
  {
    BlocksOrdered(h.bs, FIRST, h.brk);
    var f := FirstFit(h.bs, BlockSize(size));
    if f < i {
      BlocksDisjoint(h.bs, FIRST, h.brk, f, i);
    }
  }

  lemma FreeSpec(h: Heap, b: Block)
    requires HeapInv(h) && b in Live(h.bs)
    ensures HeapInv(Free(h, b.Payload()))
    ensures Live(Free(h, b.Payload()).bs) == Live(h.bs) - {b}
    ensures Free(h, b.Payload()) == h.(bs := Free(h, b.Payload()).bs)
  {
    FindLive(h.bs, FIRST, h.brk, b);
    ReleaseKeeps(h.bs, FIRST, h.brk, Find(h.bs, b.Payload()));
  }

  /** A payload pointer identifies its block. */
  lemma FindLive(bs: seq<Block>, lo: int, hi: int, b: Block)
    requires Tiled(bs, lo, hi) && b in bs
    ensures Find(bs, b.Payload()) < |bs| && bs[Find(bs, b.Payload())] == b
  {
    var i :| 0 <= i < |bs| && bs[i] == b;
    var f := Find(bs, b.Payload());
    if f < i {
      BlocksOrdered(bs, lo, hi);
      BlocksDisjoint(bs, lo, hi, f, i);
    }
  }

  /** Freeing an allocation that did not grow the heap restores the heap exactly. */
  lemma FreeUndoesMalloc(h: Heap, size: int)
    requires HeapInv(h) && NoWrap(h, size) && size != 0
    requires FirstFit(h.bs, BlockSize(size)) < |h.bs|
    ensures Free(Malloc(h, size).0, Malloc(h, size).1) == h
  {
    BlockSizeCoversRequest(size);
    var asize := BlockSize(size);
    var i := FirstFit(h.bs, asize);
    var b := MallocAt(h.bs, h.brk, i, asize);
    assert Place(h.bs, i, asize)[i] == b;
    FindLive(Place(h.bs, i, asize), FIRST, h.brk, b);
    BlockOccursOnce(Place(h.bs, i, asize), FIRST, h.brk, i, b);
    ReleaseUndoesPlace(h.bs, FIRST, h.brk, i, asize);
  }

  // ---------------------------------------------------------------------------------------------
  // Whole runs

  datatype Op = DoMalloc(size: int) | DoFree(p: int)

  /** The heap together with the size each live pointer was requested with. */
  datatype Session = Session(heap: Heap, ledger: map<int, int>)

  /** The kernel runs, callers free only live pointers or 0, and no request makes the end of the heap wrap
      around. */
  predicate Allowed(s: Session, op: Op) {
    !s.heap.halted &&
    match op
    case DoMalloc(size) => NoWrap(s.heap, size)
    case DoFree(p) => p == 0 || p in s.ledger
  }

  function Step(s: Session, op: Op): Session {
    match op
    case DoMalloc(size) =>
      var (h, p) := Malloc(s.heap, size);
      Session(h, if p == 0 then s.ledger else s.ledger[p := size])
    case DoFree(p) =>
      if p == 0 then s else Session(Free(s.heap, p), s.ledger - {p})
  }

  ghost function Pointers(bs: seq<Block>): set<int> {
    set b | b in Live(bs) :: b.Payload()
  }

  /** The block is as large as computed from the request, and less than 16 bytes larger. */
  predicate Snug(b: Block, size: int) {
    BlockSize(size) <= b.size < BlockSize(size) + MIN_BLOCK
  }

  /** The live blocks are exactly the ledger's pointers, each as large as its request needs. */
  ghost predicate SessionInv(s: Session) {
    && HeapInv(s.heap)
    && s.ledger.Keys == Pointers(s.heap.bs)
    && forall b | b in Live(s.heap.bs) :: b.Payload() in s.ledger && Snug(b, s.ledger[b.Payload()])
  }

  lemma SamePayload(bs: seq<Block>, lo: int, hi: int, b: Block, c: Block)
    requires Tiled(bs, lo, hi) && b in bs && c in bs && b.Payload() == c.Payload()
    ensures b == c
  {
    FindLive(bs, lo, hi, b);
    FindLive(bs, lo, hi, c);
  }

  /** One more live block is one more pointer. */
  lemma PointersGrow(bs: seq<Block>, bs': seq<Block>, b: Block, hi: int)
    requires Tiled(bs', FIRST, hi)
    requires b !in Live(bs) && Live(bs') == Live(bs) + {b}
    ensures b.Payload() !in Pointers(bs) && Pointers(bs') == Pointers(bs) + {b.Payload()}
  {
    forall c | c in Live(bs)
      ensures c.Payload() != b.Payload()
    {
      assert c in Live(bs') && b in Live(bs');
      if c.Payload() == b.Payload() {
        SamePayload(bs', FIRST, hi, b, c);
      }
    }
  }

  lemma MallocKeepsInv(s: Session, size: int)
    requires SessionInv(s) && !s.heap.halted && NoWrap(s.heap, size)
    ensures SessionInv(Step(s, DoMalloc(size)))
  {
    var b := MallocSpec(s.heap, size);
    var (h', p) := Malloc(s.heap, size);
    if p != 0 {
      PointersGrow(s.heap.bs, h'.bs, b, h'.brk);
      forall c | c in Live(h'.bs)
        ensures c.Payload() in s.ledger[p := size] && Snug(c, s.ledger[p := size][c.Payload()])
      {
        if c != b {
          assert c in Live(s.heap.bs) && c.Payload() in Pointers(s.heap.bs);
        }
      }
    }
  }

  lemma FreeKeepsInv(s: Session, p: int)
    requires SessionInv(s) && p in s.ledger
    ensures SessionInv(Session(Free(s.heap, p), s.ledger - {p}))
  {
    var b :| b in Live(s.heap.bs) && b.Payload() == p;
    FreeSpec(s.heap, b);
    var bs' := Free(s.heap, p).bs;
    PointersGrow(bs', s.heap.bs, b, s.heap.brk);
    forall c | c in Live(bs')
      ensures c.Payload() in s.ledger - {p} && Snug(c, (s.ledger - {p})[c.Payload()])
    {
      assert c in Live(s.heap.bs) && c.Payload() in Pointers(bs');
    }
  }

  lemma StepKeepsInv(s: Session, op: Op)
    requires SessionInv(s) && Allowed(s, op)
    ensures SessionInv(Step(s, op))
  {
    match op
    case DoMalloc(size) => MallocKeepsInv(s, size);
    case DoFree(p) => if p != 0 { FreeKeepsInv(s, p); }
  }

  predicate AllAllowed(s: Session, ops: seq<Op>)
    decreases |ops|
  {
    ops == [] || (Allowed(s, ops[0]) && AllAllowed(Step(s, ops[0]), ops[1..]))
  }

  function RunOps(s: Session, ops: seq<Op>): Session
    decreases |ops|
  {
    if ops == [] then s else RunOps(Step(s, ops[0]), ops[1..])
  }

  /** The heap right after `kheap_init`, with the first 64 KiB block. */
  function Boot(frames: nat): Session {
    Session(Heap([Block(FIRST, HEAP_INITIAL, false)], FIRST + HEAP_INITIAL, HEAP_START + 17 * PAGE_SIZE, frames, false),
            map[])
  }

  /** The empty heap, on its first page. */
  function FirstPage(supply: nat): Heap {
    Grow(Heap([], FIRST, HEAP_START, supply, false), HEAP_START + PAGE_SIZE)
  }

  /** Extending it by the initial 64 KiB takes 16 pages more and gives the boot heap. There must be frames for 17
      pages and a table. */
  lemma BootIsFirstExtension(supply: nat)
    requires supply >= 2
    ensures var h := Heap([], FIRST, HEAP_START + PAGE_SIZE, supply - 2, false);
      FirstPage(supply) == h && (CanGrow(h, FIRST + HEAP_INITIAL + 4) <==> supply >= 18)
  {
    var h := Heap([], FIRST, HEAP_START + PAGE_SIZE, supply - 2, false);
    assert GrowOnce(Heap([], FIRST, HEAP_START, supply, false)) == h;
    assert Grow(h, HEAP_START + PAGE_SIZE) == h;
    FirstFrames();
  }

  lemma FirstFrames()
    ensures FramesWanted(HEAP_START + PAGE_SIZE, FIRST + HEAP_INITIAL + 4) == 16
    ensures FramesWanted(HEAP_START + PAGE_SIZE, HEAP_START + 17 * PAGE_SIZE) == 16
  {
    FramesWantedIs(HEAP_START + PAGE_SIZE, FIRST + HEAP_INITIAL + 4);
    FramesWantedIs(HEAP_START + PAGE_SIZE, HEAP_START + 17 * PAGE_SIZE);
  }

  lemma FirstExtension(h: Heap, size: int, frames: nat)
    requires h == Heap([], FIRST, HEAP_START + PAGE_SIZE, frames + 16, false) && size == HEAP_INITIAL
    ensures var end := h.brk + size + 4;
      && CanGrow(h, end)
      && Grow(h, end).(bs := Extend(h.bs, h.brk, size), brk := h.brk + size) == Boot(frames).heap
  {
    var end := h.brk + size + 4;
    FirstFrames();
    GrowReachesEnd(h, end);
    CannotHalt(h, end);
    var b := Block(FIRST, HEAP_INITIAL, false);
    assert [] + [b] == [b];
    assert Extend(h.bs, h.brk, size) == [b];
  }

  lemma BootInv(frames: nat)
    ensures SessionInv(Boot(frames))
  {
    var b := Block(FIRST, HEAP_INITIAL, false);
    OneBlockTiles(b);
    LiveOfBlock(b);
  }

  lemma {:induction false} RunKeepsInv(s: Session, ops: seq<Op>)
    requires SessionInv(s) && AllAllowed(s, ops)
    ensures SessionInv(RunOps(s, ops))
    decreases |ops|
  {
    if ops == [] {
    } else {
      StepKeepsInv(s, ops[0]);
      RunKeepsInv(Step(s, ops[0]), ops[1..]);
    }
  }

  /** Every state that allocations and frees can reach from boot is sound: the heap is tiled with no
      two adjacent free blocks, and no byte is lost. */
  lemma EveryRunIsSound(frames: nat, ops: seq<Op>)
    requires AllAllowed(Boot(frames), ops)
    ensures SessionInv(RunOps(Boot(frames), ops))
    ensures var h := RunOps(Boot(frames), ops).heap;
      Bytes(h.bs, true) + Bytes(h.bs, false) == h.brk - (HEAP_START + 12)
  {
    BootInv(frames);
    RunKeepsInv(Boot(frames), ops);
    var h := RunOps(Boot(frames), ops).heap;
    BytesConserved(h.bs, FIRST, h.brk);
  }

  lemma LiveBlocksApart(bs: seq<Block>, hi: int, b: Block, c: Block)
    requires Tiled(bs, FIRST, hi) && b in bs && c in bs && b != c
    ensures b.End() <= c.addr || c.End() <= b.addr
  {
    var i :| 0 <= i < |bs| && bs[i] == b;
    var j :| 0 <= j < |bs| && bs[j] == c;
    if i < j {
      BlocksDisjoint(bs, FIRST, hi, i, j);
    } else {
      BlocksDisjoint(bs, FIRST, hi, j, i);
    }
  }

  lemma BlockInside(bs: seq<Block>, hi: int, b: Block)
    requires Tiled(bs, FIRST, hi) && b in bs
    ensures b.Payload() % 8 == 0 && FIRST <= b.addr && b.End() <= hi
  {
    BlocksOrdered(bs, FIRST, hi);
    assert WellFormed(b);
  }

  lemma LedgerInside(s: Session, p: int)
    requires SessionInv(s) && p in s.ledger
    ensures p % 8 == 0 && HEAP_START < p && p + BlockSize(s.ledger[p]) - 8 < s.heap.brk < s.heap.mapped
    ensures exists b :: b in Live(s.heap.bs) && b.Payload() == p && Snug(b, s.ledger[p])
  {
    var b :| b in Live(s.heap.bs) && b.Payload() == p;
    BlockInside(s.heap.bs, s.heap.brk, b);
  }

  lemma LedgerApart(s: Session, p: int, q: int)
    requires SessionInv(s) && p in s.ledger && q in s.ledger && p != q
    ensures p + BlockSize(s.ledger[p]) <= q || q + BlockSize(s.ledger[q]) <= p
  {
    var b :| b in Live(s.heap.bs) && b.Payload() == p;
    var c :| c in Live(s.heap.bs) && c.Payload() == q;
    LiveBlocksApart(s.heap.bs, s.heap.brk, b, c);
  }

  /** In every reachable state each live allocation is 8-byte aligned and has the bytes of its block to itself,
      inside the mapped heap. `BlockSizeCoversRequest` says for which requests those are enough. */
  lemma LiveAllocationSound(frames: nat, ops: seq<Op>, p: int)
    requires AllAllowed(Boot(frames), ops) && p in RunOps(Boot(frames), ops).ledger
    ensures var s := RunOps(Boot(frames), ops);
      && p % 8 == 0 && HEAP_START < p && p + BlockSize(s.ledger[p]) - 8 < s.heap.brk < s.heap.mapped
      && exists b :: b in Live(s.heap.bs) && b.Payload() == p && Snug(b, s.ledger[p])
  {
    EveryRunIsSound(frames, ops);
    LedgerInside(RunOps(Boot(frames), ops), p);
  }

  /** And live allocations never overlap, tag words included. */
  lemma LiveAllocationsApart(frames: nat, ops: seq<Op>, p: int, q: int)
    requires AllAllowed(Boot(frames), ops)
    requires var l := RunOps(Boot(frames), ops).ledger; p in l && q in l && p != q
    ensures var l := RunOps(Boot(frames), ops).ledger;
      p + BlockSize(l[p]) <= q || q + BlockSize(l[q]) <= p
  {
    EveryRunIsSound(frames, ops);
    LedgerApart(RunOps(Boot(frames), ops), p, q);
  }

  /** Once every allocation has been freed, the heap is a single free block again. */
  lemma AllFreedIsOneBlock(frames: nat, ops: seq<Op>)
    requires AllAllowed(Boot(frames), ops)
    requires RunOps(Boot(frames), ops).ledger == map[]
    ensures var h := RunOps(Boot(frames), ops).heap;
      h.bs == [Block(FIRST, h.brk - FIRST, false)]
  {
    EveryRunIsSound(frames, ops);
    var h := RunOps(Boot(frames), ops).heap;
    assert forall b | b in Live(h.bs) :: b.Payload() in Pointers(h.bs);
    NothingLiveIsOneBlock(h.bs, FIRST, h.brk);
  }

  /** A request of almost 4 GiB right after boot is one that breaks the heap, with a pointer handed out. */
  lemma HugeRequestBreaks(frames: nat)
    ensures var h := Boot(frames).heap;
      HeapInv(h) && !NoWrap(h, 0xFF00_0000) && !HeapInv(Malloc(h, 0xFF00_0000).0) && Malloc(h, 0xFF00_0000).1 != 0
  {
    var h := Boot(frames).heap;
    BootInv(frames);
    NoWrapIff(h, 0xFF00_0000);
    MallocSoundIff(h, 0xFF00_0000);
    WrappedSucceeds(h, 0xFF00_0000);
  }

  lemma WrappedSucceeds(h: Heap, size: int)
    requires HeapInv(h) && 0 <= size < WORD_RANGE && !NoWrap(h, size)
    ensures Malloc(h, size).1 != 0
  {
    WrappedEnd(h, size);
    RequestSizes(size);
    var ext := ExtendSize(BlockSize(size));
    var b, bs, brk, p := ExtendAndPlace(h.bs, h.brk, ext, BlockSize(size));
  }
}
