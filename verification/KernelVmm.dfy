/** The routines of `kernel/mm/vmm.c`, writing directory and table entries in place, proved against the
    flat view of `PageTables`. */
module KernelVmm {
  import opened Machine
  import opened PageTables
  import Frames

  // ---------------------------------------------------------------------------------------------
  // Checking a range

  /** Page of a user pointer that passes the check of `vmm_range_mapped`. */
  ghost predicate PageOk(sp: Space, page: int, userOnly: bool)
    requires Directory(sp)
  {
    0 <= page < PAGES && IsMapped(sp, page) && (userOnly ==> UserPage(sp, page))
  }

  /** Every page that [virt, virt + len) touches is mapped. */
  ghost predicate AllMapped(sp: Space, virt: int, len: int, userOnly: bool)
    requires Directory(sp)
  {
    forall page | virt / PAGE_SIZE <= page <= (virt + len - 1) / PAGE_SIZE :: PageOk(sp, page, userOnly)
  }

  /** The page at which the check stops, in 32-bit arithmetic. */
  function EndPage(virt: int, len: int): int {
    (virt + len + PAGE_SIZE - 1) % WORD_RANGE / PAGE_SIZE
  }

  /** What the check looks at. */
  ghost predicate Checked(sp: Space, virt: int, len: int, userOnly: bool)
    requires Directory(sp)
  {
    forall page | virt / PAGE_SIZE <= page < EndPage(virt, len) :: PageOk(sp, page, userOnly)
  }

  /** The rounding up to the end of the range does not wrap. */
  predicate NoWrap(virt: int, len: int) {
    virt + len + PAGE_SIZE - 1 < WORD_RANGE
  }

  lemma EndPageArith(virt: int, len: int)
    requires 0 <= virt < WORD_RANGE && 0 < len < WORD_RANGE
    ensures NoWrap(virt, len) ==> EndPage(virt, len) == (virt + len - 1) / PAGE_SIZE + 1
    ensures !NoWrap(virt, len) ==> EndPage(virt, len) <= virt / PAGE_SIZE + 1
    ensures !NoWrap(virt, len) && virt + len <= WORD_RANGE ==>
      EndPage(virt, len) == 0 && (virt + len - 1) / PAGE_SIZE == PAGES - 1
    ensures virt + len > WORD_RANGE ==> (virt + len - 1) / PAGE_SIZE >= PAGES
  {
  }

  /** A directory with no table, and one frame to make a table of. */
  const EMPTY: Space := Space(PAGE_SIZE, map[PAGE_SIZE := Zeros()], Frames.Pmm({2}, 1, 1))

  lemma EmptySpaceOk(page: int)
    requires 0 <= page < PAGES
    ensures SpaceInv(EMPTY) && Pte(EMPTY, page) == 0 && CanMap(EMPTY, page) && !Present(Pde(EMPTY, page))
  {
  }

  /** The check is right for every address space if and only if the end of the range does not wrap; when
      it does wrap, ranges with unmapped pages pass. */
  lemma RangeCheckExactIff(virt: int, len: int, userOnly: bool)
    requires 0 <= virt < WORD_RANGE && 0 < len < WORD_RANGE
    ensures (forall sp | SpaceInv(sp) :: Checked(sp, virt, len, userOnly) <==> AllMapped(sp, virt, len, userOnly))
            <==> NoWrap(virt, len)
  {
    EndPageArith(virt, len);
    if !NoWrap(virt, len) {
      var sp := WrongSpace(virt, len, userOnly);
      assert SpaceInv(sp);
    }
  }

  lemma WrongSpace(virt: int, len: int, userOnly: bool) returns (sp: Space)
    requires 0 <= virt < WORD_RANGE && 0 < len < WORD_RANGE && !NoWrap(virt, len)
    ensures SpaceInv(sp) && Checked(sp, virt, len, userOnly) && !AllMapped(sp, virt, len, userOnly)
  {
    EndPageArith(virt, len);
    if virt + len <= WORD_RANGE {
      EmptySpaceOk(PAGES - 1);
      sp := EMPTY;
      assert !PageOk(sp, PAGES - 1, userOnly);
    } else {
      var page := virt / PAGE_SIZE;
      EmptySpaceOk(page);
      sp := MapPage(EMPTY, page, 0, 7);
      MapPageMaps(EMPTY, page, 0, 7);
      UserMappingWorksIff(EMPTY, page, 0, 7);
      assert PageOk(sp, page, userOnly);
      assert !PageOk(sp, (virt + len - 1) / PAGE_SIZE, userOnly);
    }
  }

  // ---------------------------------------------------------------------------------------------
  // Mapping a range

  /** The loop of `vmm_map_range` ends if and only if the length is at most 4 GiB less a page: beyond that no
      32-bit offset reaches it. */
  lemma RangeLoopEndsIff(length: int)
    requires 0 <= length < WORD_RANGE
    ensures (exists k: nat :: OffsetAfter(k) >= length) <==> length <= WORD_RANGE - PAGE_SIZE
  {
    if length <= WORD_RANGE - PAGE_SIZE {
      assert OffsetAfter(PAGES - 1) == WORD_RANGE - PAGE_SIZE;
    } else {
      forall k: nat
        ensures OffsetAfter(k) < length
      {
        OffsetIsAligned(k);
      }
    }
  }

  function OffsetAfter(k: nat): int { k * PAGE_SIZE % WORD_RANGE }

  lemma OffsetIsAligned(k: nat)
    ensures OffsetAfter(k) <= WORD_RANGE - PAGE_SIZE
  {
    assert k * PAGE_SIZE == k / PAGES * WORD_RANGE + k % PAGES * PAGE_SIZE;
  }

  lemma PageOfSum(virt: int, n: nat)
    requires 0 <= virt < WORD_RANGE && n < PAGES
    ensures (virt + n * PAGE_SIZE) % WORD_RANGE / PAGE_SIZE == (virt / PAGE_SIZE + n) % PAGES
  {
    assert (virt + n * PAGE_SIZE) / PAGE_SIZE == virt / PAGE_SIZE + n;
  }

  /** How many pages behind page v page q lies, going round at the top of the address space. */
  function Behind(v: int, q: int): int { (q - v) % PAGES }

  /** From `before` to `after`, n pages from `virt` on have been mapped to frames from `phys` on, and nothing
      else has changed. */
  ghost predicate Mapped(before: Space, after: Space, virt: int, phys: int, flags: int, n: nat)
    requires Directory(before) && Directory(after)
  {
    forall q | 0 <= q < PAGES ::
      var k := Behind(virt / PAGE_SIZE, q);
      if k < n then IsEntry(Pte(after, q), (phys + k * PAGE_SIZE) % WORD_RANGE, flags)
      else Pte(after, q) == Pte(before, q)
  }

  lemma OneMoreMapped(start: Space, before: Space, after: Space, virt: int, phys: int, flags: int, n: nat)
    requires Directory(start) && Directory(before) && Directory(after) && n < PAGES && 0 <= virt < WORD_RANGE
    requires Mapped(start, before, virt, phys, flags, n)
    requires forall q | 0 <= q < PAGES ::
      if q == (virt / PAGE_SIZE + n) % PAGES then IsEntry(Pte(after, q), (phys + n * PAGE_SIZE) % WORD_RANGE, flags)
      else Pte(after, q) == Pte(before, q)
    ensures Mapped(start, after, virt, phys, flags, n + 1)
  {
    forall q | 0 <= q < PAGES
      ensures Behind(virt / PAGE_SIZE, q) == n <==> q == (virt / PAGE_SIZE + n) % PAGES
    {
      BehindBy(virt / PAGE_SIZE, q, n);
    }
  }

  lemma BehindBy(v: int, q: int, n: nat)
    requires 0 <= v < PAGES && 0 <= q < PAGES && n < PAGES
    ensures Behind(v, q) == n <==> q == (v + n) % PAGES
  {
  }

  // ---------------------------------------------------------------------------------------------

  class Vmm {
    var pd: int
    var tables: map<int, Table>
    var pmm: Frames.Pmm

    function Abs(): Space
      reads this
    {
      Space(pd, tables, pmm)
    }

    ghost predicate Valid()
      reads this
    {
      SpaceInv(Abs())
    }

    /** `create_table`; 0 when no frame is left for a new table. */
    method CreateTable(page: int, flags: int) returns (table: int)
      requires Valid() && 0 <= page < PAGES
      modifies this`tables, this`pmm
      ensures Valid() && (Abs(), table) == PageTables.CreateTable(old(Abs()), page, flags)
    {
      CreateTableKeeps(Abs(), page, flags);
      var pdIdx := page / 1024;
      if Present(tables[pd][pdIdx]) {
        return AddrOf(tables[pd][pdIdx]);
      }
      var (p, addr) := Frames.Alloc(pmm);
      pmm := p;
      if addr == 0 {
        return 0;
      }
      var zeroed := [];
      for i := 0 to 1024
        invariant zeroed == Zeros()[..i]
      {
        zeroed := zeroed + [0];
      }
      assert zeroed == Zeros();
      var dir := tables[pd][pdIdx := addr + PdeFlags(flags)];
      tables := tables[addr := zeroed][pd := dir];
      return addr;
    }

    /** Maps one page; false where the source panics for want of a table frame. */
    method MapPage(virt: int, phys: int, flags: int) returns (ok: bool)
      requires Valid() && 0 <= virt < WORD_RANGE && 0 <= phys && 0 <= flags < PAGE_SIZE
      modifies this`tables, this`pmm
      ensures Valid() && ok == CanMap(old(Abs()), virt / PAGE_SIZE)
      ensures if ok then Abs() == PageTables.MapPage(old(Abs()), virt / PAGE_SIZE, phys, flags)
              else Abs() == old(Abs())
      ensures forall q | 0 <= q < PAGES ::
        if ok && q == virt / PAGE_SIZE then IsEntry(Pte(Abs(), q), phys, flags) else Pte(Abs(), q) == Pte(old(Abs()), q)
    {
      EntryForIs(phys, flags);
      CreateTableKeeps(Abs(), virt / PAGE_SIZE, flags);
      var pt := CreateTable(virt / PAGE_SIZE, flags);
      if pt == 0 {
        return false;
      }
      var ptIdx := virt / PAGE_SIZE % 1024;
      WriteEntryWrites(Abs(), virt / PAGE_SIZE, EntryFor(phys, flags));
      tables := tables[pt := tables[pt][ptIdx := AddrOf(phys) + WithPresent(flags)]];
      return true;
    }

    /** Maps consecutive pages to consecutive frames, both in 32-bit arithmetic, and stops where the source
        panics; n pages have been mapped. */
    method MapRange(virt: int, phys: int, length: int, flags: int) returns (ok: bool, ghost n: nat)
      requires Valid() && 0 <= virt < WORD_RANGE && 0 <= phys < WORD_RANGE && 0 <= flags < PAGE_SIZE
      requires 0 <= length <= WORD_RANGE - PAGE_SIZE
      modifies this`tables, this`pmm
      ensures Valid() && Mapped(old(Abs()), Abs(), virt, phys, flags, n)
      ensures ok ==> n == (length + PAGE_SIZE - 1) / PAGE_SIZE
      ensures !ok ==> n * PAGE_SIZE < length && !CanMap(Abs(), (virt / PAGE_SIZE + n) % PAGES)
    {
      var offset := 0;
      n := 0;
      while offset < length
        invariant Valid() && offset == n * PAGE_SIZE && offset < length + PAGE_SIZE
        invariant Mapped(old(Abs()), Abs(), virt, phys, flags, n)
      {
        ok := MapNext(virt, phys, flags, offset, old(Abs()), n);
        if !ok {
          return false, n;
        }
        offset := (offset + PAGE_SIZE) % WORD_RANGE;
        n := n + 1;
      }
      return true, n;
    }

    /** One turn of the loop. */
    method MapNext(virt: int, phys: int, flags: int, offset: int, ghost start: Space, ghost n: nat) returns (ok: bool)
      requires Valid() && 0 <= virt < WORD_RANGE && 0 <= phys < WORD_RANGE && 0 <= flags < PAGE_SIZE
      requires n < PAGES && offset == n * PAGE_SIZE && Directory(start) && Mapped(start, Abs(), virt, phys, flags, n)
      modifies this`tables, this`pmm
      ensures Valid()
      ensures if ok then Mapped(start, Abs(), virt, phys, flags, n + 1)
              else Abs() == old(Abs()) && !CanMap(Abs(), (virt / PAGE_SIZE + n) % PAGES)
    {
      PageOfSum(virt, n);
      ok := MapPage((virt + offset) % WORD_RANGE, (phys + offset) % WORD_RANGE, flags);
      if ok {
        OneMoreMapped(start, old(Abs()), Abs(), virt, phys, flags, n);
      }
    }

    method UnmapPage(virt: int)
      requires Valid() && 0 <= virt < WORD_RANGE
      modifies this`tables
      ensures Valid() && Abs() == PageTables.UnmapPage(old(Abs()), virt / PAGE_SIZE)
      ensures forall q | 0 <= q < PAGES ::
        Pte(Abs(), q) == if q == virt / PAGE_SIZE then 0 else Pte(old(Abs()), q)
    {
      UnmapPageUnmaps(Abs(), virt / PAGE_SIZE);
      var pdIdx := virt / PAGE_SIZE / 1024;
      if !Present(tables[pd][pdIdx]) {
        return;
      }
      var pt := AddrOf(tables[pd][pdIdx]);
      tables := tables[pt := tables[pt][virt / PAGE_SIZE % 1024 := 0]];
    }

    method GetPhys(virt: int) returns (phys: int)
      requires Valid() && 0 <= virt < WORD_RANGE
      ensures phys == PageTables.GetPhys(Abs(), virt)
    {
      var pde := tables[pd][virt / PAGE_SIZE / 1024];
      if !Present(pde) {
        return 0;
      }
      var pte := tables[AddrOf(pde)][virt / PAGE_SIZE % 1024];
      if !Present(pte) {
        return 0;
      }
      return AddrOf(pte) + virt % PAGE_SIZE;
    }

    /** `vmm_range_mapped` on this directory. */
    method RangeMapped(virt: int, len: int, userOnly: bool) returns (ok: bool)
      requires Valid() && 0 <= virt < WORD_RANGE && 0 <= len < WORD_RANGE
      ensures ok <==> len != 0 && Checked(Abs(), virt, len, userOnly)
      ensures len != 0 && NoWrap(virt, len) ==> (ok <==> AllMapped(Abs(), virt, len, userOnly))
    {
      if len == 0 {
        return false;
      }
      EndPageArith(virt, len);
      var page := virt / PAGE_SIZE;
      var end := EndPage(virt, len);
      while page < end
        invariant virt / PAGE_SIZE <= page
        invariant forall q | virt / PAGE_SIZE <= q < page :: PageOk(Abs(), q, userOnly)
      {
        var pde := tables[pd][page / 1024];
        if !Present(pde) || (userOnly && !UserBit(pde)) {
          assert !PageOk(Abs(), page, userOnly);
          return false;
        }
        var pte := tables[AddrOf(pde)][page % 1024];
        if !Present(pte) || (userOnly && !UserBit(pte)) {
          assert !PageOk(Abs(), page, userOnly);
          return false;
        }
        page := page + 1;
      }
      return true;
    }

    /** `vmm_init`; it panics unless the allocator can give two frames. Afterwards the first 4 MiB are
        mapped to themselves and nothing else is mapped. */
    constructor (start: Frames.Pmm)
      requires Frames.PmmInv(start) && Frames.Alloc(start).1 != 0 && Frames.Alloc(Frames.Alloc(start).0).1 != 0
      ensures Valid()
      ensures forall q | 0 <= q < PAGES :: Pte(Abs(), q) == if q < 1024 then q * PAGE_SIZE + KERNEL_RW else 0
    {
      var (p1, dirAddr) := Frames.Alloc(start);
      var (p2, pt0) := Frames.Alloc(p1);
      FreshFrame(start);
      FreshFrame(p1);
      var pt := [];
      for i := 0 to 1024
        invariant |pt| == i && forall k | 0 <= k < i :: pt[k] == k * PAGE_SIZE + KERNEL_RW
      {
        pt := pt + [i * PAGE_SIZE + KERNEL_RW];
      }
      pd := dirAddr;
      tables := map[dirAddr := Zeros()[0 := pt0 + KERNEL_RW], pt0 := pt];
      pmm := p2;
      new;
      EntryReads(pt0, KERNEL_RW);
    }
  }
}
