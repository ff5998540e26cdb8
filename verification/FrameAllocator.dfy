/** `kernel/mm/pmm.c` on its bitmap words, counters and search hint, proved to act as `Frames`. */
module FrameAllocator {
  import opened Machine
  import opened BitWords
  import opened Frames

  const WORDS: int := 0x8000

  /** An entry of the boot memory map (section 3.3 of the Multiboot Specification). */
  datatype Entry = Entry(addr: int, len: int, available: bool)

  /** What the boot loader passes: a memory map, or else the size of upper memory in KiB, or nothing. */
  datatype BootInfo = MemoryMap(entries: seq<Entry>) | UpperMemory(kb: int) | NoInfo

  const U64: int := 0x1_0000_0000_0000_0000

  /** Base and length that `pmm_init` hands to the marking routine: the end is clamped to 4 GiB, then
      base and length are cut to 32 bits. */
  function Clamped(e: Entry): (int, int) {
    var top := if e.addr + e.len > WORD_RANGE then WORD_RANGE else e.addr + e.len;
    (e.addr % WORD_RANGE, (top - e.addr) % WORD_RANGE)
  }

  predicate Used(e: Entry) {
    e.available && e.addr < WORD_RANGE
  }

  /** An entry whose end stays within 64 bits. */
  predicate EntryOk(e: Entry) {
    0 <= e.addr && 0 <= e.len && e.addr + e.len < U64
  }

  /** Frame f, below 4 GiB, lies wholly in available entry e. */
  predicate Covers(e: Entry, f: int) {
    e.available && WhollyIn(f, e.addr, e.len)
  }

  predicate Marks(e: Entry, f: int) {
    Used(e) && WhollyIn(f, Clamped(e).0, Clamped(e).1)
  }

  /** The one entry form that is lost: 4 GiB or more starting at 0, whose clamped length cuts to 0. */
  predicate CutToZero(e: Entry) {
    e.available && e.addr == 0 && e.len >= WORD_RANGE
  }

  /** An entry frees exactly the frames it covers if and only if it is not cut to zero. */
  lemma EntryExact(e: Entry)
    requires EntryOk(e)
    ensures (forall f | 0 <= f < MAX_FRAMES :: Marks(e, f) <==> Covers(e, f)) <==> !CutToZero(e)
    ensures CutToZero(e) ==> forall f | 0 <= f :: !Marks(e, f)
  {
    if CutToZero(e) {
      assert Covers(e, 1) && !Marks(e, 1);
    } else if Used(e) {
      assert Clamped(e).0 == e.addr;
      forall f | 0 <= f < MAX_FRAMES
        ensures Marks(e, f) <==> Covers(e, f)
      {
        assert (f + 1) * PAGE_SIZE <= WORD_RANGE;
      }
    }
  }

  /** The frames that boot makes available, before the kernel image is taken out. */
  ghost predicate Offered(info: BootInfo, f: int) {
    match info
    case MemoryMap(entries) => exists i :: 0 <= i < |entries| && Marks(entries[i], f)
    case UpperMemory(kb) => WhollyIn(f, 0x10_0000, kb * 1024)
    case NoInfo => false
  }

  predicate InfoOk(info: BootInfo) {
    match info
    case MemoryMap(entries) => forall e | e in entries :: EntryOk(e)
    case UpperMemory(kb) => 0 <= kb && 0x10_0000 + kb * 1024 <= WORD_RANGE
    case NoInfo => true
  }

  /** Free frames after `pmm_init`. */
  ghost predicate FreeAtBoot(info: BootInfo, kernelStart: int, kernelEnd: int, f: int) {
    0 < f < MAX_FRAMES && Offered(info, f) && !WhollyIn(f, kernelStart, kernelEnd - kernelStart)
  }

  /** Some byte of the kernel image lies in frame f. */
  predicate Touches(f: int, kernelStart: int, kernelEnd: int) {
    f * PAGE_SIZE < kernelEnd && kernelStart < (f + 1) * PAGE_SIZE
  }

  /** Reserving rounds inward, so boot protects every frame of the kernel image, whatever the memory
      map, if and only if the image starts and ends on page boundaries. */
  lemma ImageProtectedIffAligned(kernelStart: int, kernelEnd: int)
    requires PAGE_SIZE <= kernelStart < kernelEnd < WORD_RANGE
    ensures (forall info, f | InfoOk(info) && Touches(f, kernelStart, kernelEnd) ::
               !FreeAtBoot(info, kernelStart, kernelEnd, f))
            <==> kernelStart % PAGE_SIZE == 0 && kernelEnd % PAGE_SIZE == 0
  {
    if kernelStart % PAGE_SIZE != 0 || kernelEnd % PAGE_SIZE != 0 {
      var e := Entry(PAGE_SIZE, WORD_RANGE - PAGE_SIZE, true);
      var info := MemoryMap([e]);
      var f := if kernelStart % PAGE_SIZE != 0 then kernelStart / PAGE_SIZE else kernelEnd / PAGE_SIZE;
      assert EntryOk(e) && Marks(info.entries[0], f);
      assert FreeAtBoot(info, kernelStart, kernelEnd, f);
    } else {
      forall info, f | InfoOk(info) && Touches(f, kernelStart, kernelEnd)
        ensures !FreeAtBoot(info, kernelStart, kernelEnd, f)
      {
        assert WhollyIn(f, kernelStart, kernelEnd - kernelStart) by {
          assert kernelStart == kernelStart / PAGE_SIZE * PAGE_SIZE && kernelEnd == kernelEnd / PAGE_SIZE * PAGE_SIZE;
        }
      }
    }
  }

  class Pmm {
    const bitmap: array<nat>
    var total: nat
    var used: int
    var search: int
    ghost var free: set<int>  // the frames whose bit is clear

    ghost predicate Bits()
      reads this, bitmap
    {
      && bitmap.Length == WORDS
      && (forall f | f in free :: 0 < f < MAX_FRAMES)
      && (forall f | 0 <= f < MAX_FRAMES :: f in free <==> !Test(bitmap[f / 32], f % 32))
      && used == MAX_FRAMES - |free|
    }

    ghost function Abs(): Frames.Pmm
      reads this
    {
      Frames.Pmm(free, search, total)
    }

    /** Frame 0 is never made available, so not all frames there could be have been. */
    ghost predicate Valid()
      reads this, bitmap
    {
      Bits() && PmmInv(Abs()) && total < MAX_FRAMES
    }

    // -------------------------------------------------------------------------------------------
    // Bits

    function BitmapTest(f: int): bool
      requires bitmap.Length == WORDS && 0 <= f < MAX_FRAMES
      reads this, bitmap
    {
      Test(bitmap[f / 32], f % 32)
    }

    method BitmapSet(f: int)
      requires Bits() && f in free
      modifies bitmap, this`free, this`used
      ensures Bits() && free == old(free) - {f}
    {
      ghost var words := bitmap[..];
      bitmap[f / 32] := SetBit(bitmap[f / 32], f % 32);
      free := free - {f};
      used := used + 1;
      forall g | 0 <= g < MAX_FRAMES
        ensures g in free <==> !Test(bitmap[g / 32], g % 32)
      {
        MapSetSets(words, f, g);
      }
    }

    method BitmapClear(f: int)
      requires Bits() && 0 < f < MAX_FRAMES && f !in free
      modifies bitmap, this`free, this`used
      ensures Bits() && free == old(free) + {f}
    {
      ghost var words := bitmap[..];
      bitmap[f / 32] := ClearBit(bitmap[f / 32], f % 32);
      free := free + {f};
      used := used - 1;
      forall g | 0 <= g < MAX_FRAMES
        ensures g in free <==> !Test(bitmap[g / 32], g % 32)
      {
        MapClearClears(words, f, g);
      }
    }

    // -------------------------------------------------------------------------------------------
    // Allocation

    /** One pass of the search over [start, end), a word at a time, skipping full words. */
    method FindIn(start: int, end: int) returns (f: int)
      requires Bits() && 1 <= start <= end <= MAX_FRAMES
      ensures f == LowestFree(free, start, end)
    {
      var w := start / 32;
      var wordEnd := (end + 31) / 32;
      while w < wordEnd
        invariant start / 32 <= w
        invariant forall g | start <= g < end && g < w * 32 :: g !in free
      {
        if bitmap[w] == FULL {
          SkipFull(w);
        } else {
          var bit := 0;
          while bit < 32
            invariant 0 <= bit <= 32
            invariant forall g | start <= g < end && g < w * 32 + bit :: g !in free
          {
            var frame := w * 32 + bit;
            if frame != 0 && start <= frame < end && !BitmapTest(frame) {
              return frame;
            }
            bit := bit + 1;
          }
        }
        w := w + 1;
      }
      return end;
    }

    lemma SkipFull(w: int)
      requires Bits() && 0 <= w < WORDS && bitmap[w] == FULL
      ensures forall g | w * 32 <= g < w * 32 + 32 :: g !in free
    {
      forall g | w * 32 <= g < w * 32 + 32
        ensures g !in free
      {
        FullWord(g % 32);
        assert g / 32 == w;
      }
    }

    method AllocFrame() returns (addr: int)
      requires Valid()
      modifies this, bitmap
      ensures Valid() && (Abs(), addr) == Alloc(old(Abs()))
    {
      if total == 0 {
        return 0;
      }
      var frame := FindIn(search, MAX_FRAMES);
      if frame == MAX_FRAMES {
        frame := FindIn(1, search);
        if frame == search {
          return 0;
        }
      }
      BitmapSet(frame);
      search := frame + 1;
      if search >= MAX_FRAMES {
        search := 1;
      }
      return frame * PAGE_SIZE;
    }

    method FreeFrame(addr: int)
      requires Valid() && 0 <= addr < WORD_RANGE
      modifies this, bitmap
      ensures Valid() && Abs() == Free(old(Abs()), addr)
    {
      var frame := addr / PAGE_SIZE;
      if frame == 0 {
        return;
      }
      if !BitmapTest(frame) {
        return;
      }
      BitmapClear(frame);
      if frame < search {
        search := frame;
      }
    }

    /** `pmm_get_free_frames` subtracts the frames in use among all there could be from the frames that
        were made available. It is wrong in every state: too small by the number of frames that were not
        made available, modulo 2^32, and that is never zero. */
    method GetFreeFrames() returns (r: int)
      requires Valid()
      ensures r == (|free| - (MAX_FRAMES - total)) % WORD_RANGE
      ensures r != |free|
    {
      r := (total - used) % WORD_RANGE;
      BoundedSize(free, MAX_FRAMES);
    }

    // -------------------------------------------------------------------------------------------
    // Boot

    method MarkRegionReserved(base: int, len: int)
      requires Bits() && 0 <= base && 0 <= len && base + len <= WORD_RANGE
      modifies bitmap, this`free, this`used
      ensures Bits()
      ensures forall f :: f in free <==> f in old(free) && !WhollyIn(f, base, len)
    {
      var alignedBase := CeilPage(base);
      if alignedBase > base + len {
        forall f { RegionIsWholeFrames(base, len, f); }
        return;
      }
      var alignedLen := (len - (alignedBase - base)) / PAGE_SIZE * PAGE_SIZE;
      var frame := alignedBase / PAGE_SIZE;
      var count := alignedLen / PAGE_SIZE;
      forall f ensures frame <= f < frame + count <==> WhollyIn(f, base, len) { RegionIsWholeFrames(base, len, f); }
      for i := 0 to count
        invariant Bits()
        invariant forall f :: f in free <==> f in old(free) && !(frame <= f < frame + i)
      {
        if !BitmapTest(frame + i) {
          BitmapSet(frame + i);
        }
      }
    }

    method MarkRegionAvailable(base: int, len: int)
      requires Bits() && 0 <= base && 0 <= len && base + len <= WORD_RANGE
      modifies bitmap, this`free, this`used, this`total
      ensures Bits() && total - |free| == old(total - |free|)
      ensures forall f :: f in free <==> f in old(free) || (f != 0 && WhollyIn(f, base, len))
    {
      var alignedBase := CeilPage(base);
      if alignedBase >= base + len {
        forall f { RegionIsWholeFrames(base, len, f); }
        return;
      }
      var alignedLen := (len - (alignedBase - base)) / PAGE_SIZE * PAGE_SIZE;
      var frame := alignedBase / PAGE_SIZE;
      var count := alignedLen / PAGE_SIZE;
      forall f ensures frame <= f < frame + count <==> WhollyIn(f, base, len) { RegionIsWholeFrames(base, len, f); }
      for i := 0 to count
        invariant Bits() && total - |free| == old(total - |free|)
        invariant forall f :: f in free <==> f in old(free) || (f != 0 && frame <= f < frame + i)
      {
        if frame + i != 0 && BitmapTest(frame + i) {
          BitmapClear(frame + i);
          total := total + 1;
        }
      }
    }

    /** `pmm_init`: afterwards a frame is free exactly when it is not frame 0, lies wholly in a marked
        entry and does not lie wholly in the kernel image, and the used count is exact. */
    constructor (info: BootInfo, kernelStart: int, kernelEnd: int)
      requires InfoOk(info) && 0 <= kernelStart <= kernelEnd < WORD_RANGE
      ensures fresh(bitmap) && Valid()
      ensures forall f :: f in free <==> FreeAtBoot(info, kernelStart, kernelEnd, f)
      ensures LedgerInv(Ledger(Abs(), {}))
    {
      bitmap := new nat[WORDS](_ => FULL);
      used := MAX_FRAMES;
      total := 0;
      search := 1;
      free := {};
      new;
      forall f | 0 <= f < MAX_FRAMES
        ensures Test(bitmap[f / 32], f % 32)
      {
        FullWord(f % 32);
      }
      match info {
        case MemoryMap(entries) => MarkEntries(entries);
        case UpperMemory(kb) => MarkRegionAvailable(0x10_0000, kb * 1024);
        case NoInfo =>
      }
      assert forall f :: f in free <==> 0 < f < MAX_FRAMES && Offered(info, f);
      ghost var offered := free;
      BoundedSize(offered, MAX_FRAMES);
      MarkRegionReserved(kernelStart, kernelEnd - kernelStart);
      assert |free| <= |offered| by { SubsetSize(free, offered); }
      // the source now reserves frame 0 explicitly; its bit is never clear here
      assert BitmapTest(0);
    }

    /** The walk over the memory map. */
    method MarkEntries(entries: seq<Entry>)
      requires Bits() && free == {} && total == 0 && forall e | e in entries :: EntryOk(e)
      modifies bitmap, this`free, this`used, this`total
      ensures Bits() && total == |free|
      ensures forall f :: f in free <==> 0 < f < MAX_FRAMES && Offered(MemoryMap(entries), f)
    {
      for i := 0 to |entries|
        invariant Bits() && total == |free|
        invariant forall f :: f in free <==> 0 < f < MAX_FRAMES && exists k :: 0 <= k < i && Marks(entries[k], f)
      {
        var e := entries[i];
        assert EntryOk(e);
        if e.available && e.addr < WORD_RANGE {
          var (base, len) := Clamped(e);
          MarkRegionAvailable(base, len);
        }
      }
    }
  }

  lemma {:induction false} BoundedSize(s: set<int>, n: nat)
    requires n > 0 && forall f | f in s :: 0 < f < n
    ensures |s| < n
    decreases n
  {
    if n == 1 {
      forall f ensures f !in s {}
      assert s == {};
    } else {
      BoundedSize(s - {n - 1}, n - 1);
      assert n - 1 in s ==> s == (s - {n - 1}) + {n - 1};
      assert n - 1 !in s ==> s == s - {n - 1};
    }
  }

  lemma {:induction false} SubsetSize(a: set<int>, b: set<int>)
    requires forall x | x in a :: x in b
    ensures |a| <= |b|
  {
    assert a <= b by { forall x | x in a ensures x in b {} }
    assert b == a + (b - a);
  }
}
