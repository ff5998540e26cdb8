/** The two-level page tables of `kernel/mm/vmm.c` (32-bit paging, section 4.3 of the Intel SDM volume
    3A) and the flat map from pages to entries that they stand for. */
module PageTables {
  import opened Machine
  import Frames

  const PAGES: int := 0x10_0000
  const KERNEL_RW: int := 3
  const USER: int := 4

  type Table = seq<int>

  /** `tables` holds the contents of the frames in use as directory or table, by frame address. */
  datatype Space = Space(pd: int, tables: map<int, Table>, pmm: Frames.Pmm)

  // ---------------------------------------------------------------------------------------------
  // Entries: frame address in the top 20 bits, flags in the low 12

  predicate Present(e: int) { e % 2 == 1 }
  predicate UserBit(e: int) { e / 4 % 2 == 1 }
  function AddrOf(e: int): int { e / PAGE_SIZE * PAGE_SIZE }

  /** `flags | VMM_PRESENT` */
  function WithPresent(flags: int): int {
    if flags % 2 == 1 then flags else flags + 1
  }

  lemma QuarterOf(k: int, f: int)
    requires 0 <= f
    ensures (4096 * k + f) / 4 == 1024 * k + f / 4
  {
  }

  lemma SamePage(k: int, f: int)
    requires 0 <= f < 4096
    ensures (4096 * k + f) / 4096 == k
  {
  }

  lemma SameParity(k: int, f: int)
    ensures (1024 * k + f) % 2 == f % 2
  {
  }

  /** Address and flags packed into an entry can be read back. */
  lemma EntryReads(addr: int, flags: int)
    requires addr % PAGE_SIZE == 0 && 0 <= flags < PAGE_SIZE
    ensures AddrOf(addr + flags) == addr
    ensures Present(addr + flags) <==> Present(flags)
    ensures UserBit(addr + flags) <==> UserBit(flags)
  {
    var k := addr / 4096;
    assert addr == 4096 * k;
    SamePage(k, flags);
    SameParity(4 * k, flags);
    QuarterOf(k, flags);
    SameParity(k, flags / 4);
  }

  /** An entry for this frame with these flags: the frame number in the top 20 bits, the present bit set, and the
      other flags as given. */
  predicate IsEntry(e: int, phys: int, flags: int) {
    e / PAGE_SIZE == phys / PAGE_SIZE && e % 2 == 1 && e % PAGE_SIZE / 2 == flags / 2
  }

  /** There is one such entry. */
  lemma EntryIsUnique(e: int, e': int, phys: int, flags: int)
    requires IsEntry(e, phys, flags) && IsEntry(e', phys, flags)
    ensures e == e'
  {
    HalfOf(e);
    HalfOf(e');
  }

  lemma HalfOf(e: int)
    requires e % 2 == 1
    ensures e == e / PAGE_SIZE * PAGE_SIZE + e % PAGE_SIZE / 2 * 2 + 1
  {
    var r := e % PAGE_SIZE;
    assert e == e / PAGE_SIZE * PAGE_SIZE + r;
    SameParity(4 * (e / PAGE_SIZE), r);
  }

  function PdeFlags(flags: int): int {
    if UserBit(flags) then KERNEL_RW + USER else KERNEL_RW
  }

  function PdIndex(page: int): int { page / 1024 }
  function PtIndex(page: int): int { page % 1024 }

  // ---------------------------------------------------------------------------------------------
  // Well-formed spaces and the flat view

  predicate IsTableFrame(a: int) {
    0 < a < WORD_RANGE && a % PAGE_SIZE == 0
  }

  ghost predicate Directory(sp: Space) {
    && sp.pd in sp.tables
    && (forall a | a in sp.tables :: IsTableFrame(a) && |sp.tables[a]| == 1024)
    && (forall i | 0 <= i < 1024 && Present(sp.tables[sp.pd][i]) ::
          AddrOf(sp.tables[sp.pd][i]) in sp.tables && AddrOf(sp.tables[sp.pd][i]) != sp.pd)
  }

  /** Different directory entries use different table frames, and all of them stay marked used. */
  ghost predicate SpaceInv(sp: Space) {
    && Directory(sp)
    && (forall i, j | 0 <= i < j < 1024 && Present(sp.tables[sp.pd][i]) && Present(sp.tables[sp.pd][j]) ::
          AddrOf(sp.tables[sp.pd][i]) != AddrOf(sp.tables[sp.pd][j]))
    && Frames.PmmInv(sp.pmm)
    && (forall a | a in sp.tables :: a / PAGE_SIZE !in sp.pmm.free)
  }

  function Pde(sp: Space, page: int): int
    requires sp.pd in sp.tables && |sp.tables[sp.pd]| == 1024 && 0 <= page < PAGES
  {
    sp.tables[sp.pd][PdIndex(page)]
  }

  /** The flat view: the entry of a page, 0 where there is no table. */
  ghost function Pte(sp: Space, page: int): int
    requires Directory(sp) && 0 <= page < PAGES
  {
    if Present(Pde(sp, page)) then sp.tables[AddrOf(Pde(sp, page))][PtIndex(page)] else 0
  }

  // ---------------------------------------------------------------------------------------------
  // Operations

  function Zeros(): Table { seq(1024, i => 0) }

  /** `create_table`: the table address for a page, or 0 when no frame is left. */
  function CreateTable(sp: Space, page: int, flags: int): (Space, int)
    requires sp.pd in sp.tables && |sp.tables[sp.pd]| == 1024 && 0 <= page < PAGES
    requires 1 <= sp.pmm.hint < Frames.MAX_FRAMES
  {
    if Present(Pde(sp, page)) then (sp, AddrOf(Pde(sp, page)))
    else
      var (pmm, addr) := Frames.Alloc(sp.pmm);
      if addr == 0 then (sp.(pmm := pmm), 0)
      else
        var pde := addr + PdeFlags(flags);
        var dir := sp.tables[sp.pd][PdIndex(page) := pde];
        (Space(sp.pd, sp.tables[addr := Zeros()][sp.pd := dir], pmm), addr)
  }

  function WriteEntry(sp: Space, table: int, i: int, e: int): Space
    requires table in sp.tables && 0 <= i < |sp.tables[table]|
  {
    sp.(tables := sp.tables[table := sp.tables[table][i := e]])
  }

  /** `vmm_map_page` writes this entry. */
  function EntryFor(phys: int, flags: int): int {
    AddrOf(phys) + WithPresent(flags)
  }

  lemma EntryForIs(phys: int, flags: int)
    requires 0 <= flags < PAGE_SIZE
    ensures IsEntry(EntryFor(phys, flags), phys, flags)
  {
    var k, f := phys / PAGE_SIZE, WithPresent(flags);
    assert EntryFor(phys, flags) == 4096 * k + f;
    SamePage(k, f);
    SameParity(4 * k, f);
    assert (4096 * k + f) % 4096 == f;
  }

  /** A table can be had for the page, so mapping does not panic. */
  predicate CanMap(sp: Space, page: int)
    requires sp.pd in sp.tables && |sp.tables[sp.pd]| == 1024 && 0 <= page < PAGES
    requires 1 <= sp.pmm.hint < Frames.MAX_FRAMES
  {
    Present(Pde(sp, page)) || Frames.Alloc(sp.pmm).1 != 0
  }

  ghost function MapPage(sp: Space, page: int, phys: int, flags: int): Space
    requires SpaceInv(sp) && 0 <= page < PAGES && CanMap(sp, page)
  {
    CreateTableKeeps(sp, page, flags);
    var (sp1, table) := CreateTable(sp, page, flags);
    WriteEntry(sp1, table, PtIndex(page), EntryFor(phys, flags))
  }

  ghost function UnmapPage(sp: Space, page: int): Space
    requires SpaceInv(sp) && 0 <= page < PAGES
  {
    if !Present(Pde(sp, page)) then sp
    else WriteEntry(sp, AddrOf(Pde(sp, page)), PtIndex(page), 0)
  }

  // ---------------------------------------------------------------------------------------------
  // What the operations do to the flat view

  lemma PageIndices(page: int, q: int)
    requires 0 <= page < PAGES && 0 <= q < PAGES
    ensures 0 <= PdIndex(page) < 1024 && 0 <= PtIndex(page) < 1024
    ensures PdIndex(page) == PdIndex(q) && PtIndex(page) == PtIndex(q) ==> page == q
  {
  }

  /** A new table comes from a frame not in use, is empty, and changes no entry of the flat view. */
  lemma CreateTableKeeps(sp: Space, page: int, flags: int)
    requires SpaceInv(sp) && 0 <= page < PAGES
    ensures var (sp1, table) := CreateTable(sp, page, flags);
      && SpaceInv(sp1)
      && (table != 0 <==> CanMap(sp, page))
      && (forall q | 0 <= q < PAGES :: Pte(sp1, q) == Pte(sp, q))
      && (table != 0 ==> Present(Pde(sp1, page)) && AddrOf(Pde(sp1, page)) == table && table in sp1.tables)
  {
    if !Present(Pde(sp, page)) {
      var (pmm, addr) := Frames.Alloc(sp.pmm);
      if addr != 0 {
        FreshFrame(sp.pmm);
        NewTableKeeps(sp, page, addr, flags);
        forall q | 0 <= q < PAGES
          ensures Pte(CreateTable(sp, page, flags).0, q) == Pte(sp, q)
        {
          PageIndices(page, q);
        }
      }
    }
  }

  lemma FreshFrame(p: Frames.Pmm)
    requires Frames.PmmInv(p) && Frames.Alloc(p).1 != 0
    ensures var (p', addr) := Frames.Alloc(p);
      IsTableFrame(addr) && addr / PAGE_SIZE in p.free && p'.free == p.free - {addr / PAGE_SIZE} && Frames.PmmInv(p')
  {
  }

  lemma NewTableKeeps(sp: Space, page: int, addr: int, flags: int)
    requires SpaceInv(sp) && 0 <= page < PAGES && !Present(Pde(sp, page))
    requires Frames.Alloc(sp.pmm).1 == addr && IsTableFrame(addr) && addr / PAGE_SIZE in sp.pmm.free
    requires var p' := Frames.Alloc(sp.pmm).0; Frames.PmmInv(p') && p'.free == sp.pmm.free - {addr / PAGE_SIZE}
    ensures var sp1 := CreateTable(sp, page, flags).0;
      SpaceInv(sp1) && Present(Pde(sp1, page)) && AddrOf(Pde(sp1, page)) == addr
  {
    var sp1, i := CreateTable(sp, page, flags).0, PdIndex(page);
    EntryReads(addr, PdeFlags(flags));
    assert addr !in sp.tables;
    forall j | 0 <= j < 1024 && Present(sp1.tables[sp1.pd][j])
      ensures AddrOf(sp1.tables[sp1.pd][j]) in sp1.tables && AddrOf(sp1.tables[sp1.pd][j]) != sp1.pd
    {
      assert j != i ==> sp1.tables[sp1.pd][j] == sp.tables[sp.pd][j];
    }
  }

  /** Writing one entry of a page's table changes that page of the flat view and no other. */
  lemma WriteEntryWrites(sp: Space, page: int, e: int)
    requires SpaceInv(sp) && 0 <= page < PAGES && Present(Pde(sp, page))
    ensures var sp1 := WriteEntry(sp, AddrOf(Pde(sp, page)), PtIndex(page), e);
      SpaceInv(sp1) && forall q | 0 <= q < PAGES :: Pte(sp1, q) == if q == page then e else Pte(sp, q)
  {
  }

  /** Mapping a page sets its entry, to the frame and the flags given, and leaves every other page alone. */
  lemma MapPageMaps(sp: Space, page: int, phys: int, flags: int)
    requires SpaceInv(sp) && 0 <= page < PAGES && CanMap(sp, page)
    ensures var sp1 := MapPage(sp, page, phys, flags);
      SpaceInv(sp1) && forall q | 0 <= q < PAGES ::
        Pte(sp1, q) == if q == page then EntryFor(phys, flags) else Pte(sp, q)
    ensures 0 <= flags < PAGE_SIZE ==> IsEntry(EntryFor(phys, flags), phys, flags)
  {
    if 0 <= flags < PAGE_SIZE {
      EntryForIs(phys, flags);
    }
    CreateTableKeeps(sp, page, flags);
    WriteEntryWrites(CreateTable(sp, page, flags).0, page, EntryFor(phys, flags));
  }

  /** The entry that mapping makes holds the frame and the flags given; a new directory entry is present and
      writable, and for the user exactly if the page is; no other directory entry changes. */
  lemma MapPageWrites(sp: Space, page: int, phys: int, flags: int)
    requires SpaceInv(sp) && 0 <= page < PAGES && CanMap(sp, page) && 0 <= flags < PAGE_SIZE
    ensures var sp1 := MapPage(sp, page, phys, flags);
      && SpaceInv(sp1) && IsEntry(Pte(sp1, page), phys, flags)
      && (if Present(Pde(sp, page)) then Pde(sp1, page) == Pde(sp, page)
          else Pde(sp1, page) % PAGE_SIZE == if UserBit(flags) then 7 else 3)
      && forall q | 0 <= q < PAGES && q / 1024 != page / 1024 :: Pde(sp1, q) == Pde(sp, q)
  {
    MapPageMaps(sp, page, phys, flags);
    CreateTableKeeps(sp, page, flags);
    if !Present(Pde(sp, page)) {
      FreshFrame(sp.pmm);
      EntryFlags(Frames.Alloc(sp.pmm).1, PdeFlags(flags));
    }
  }

  lemma EntryFlags(addr: int, flags: int)
    requires addr % PAGE_SIZE == 0 && 0 <= flags < PAGE_SIZE
    ensures (addr + flags) % PAGE_SIZE == flags
  {
  }

  /** Unmapping clears the page if it was present and leaves every other page alone. */
  lemma UnmapPageUnmaps(sp: Space, page: int)
    requires SpaceInv(sp) && 0 <= page < PAGES
    ensures var sp1 := UnmapPage(sp, page);
      SpaceInv(sp1) && forall q | 0 <= q < PAGES :: Pte(sp1, q) == if q == page then 0 else Pte(sp, q)
  {
  }

  // ---------------------------------------------------------------------------------------------
  // Runs

  /** Calls on the tables, and other users of the frame allocator who take frames and give them back. */
  datatype Op = DoMap(page: int, phys: int, flags: int) | DoUnmap(page: int) | DoTake | DoGive(addr: int)

  ghost predicate Allowed(sp: Space, op: Op)
    requires SpaceInv(sp)
  {
    match op
    case DoMap(page, phys, flags) =>
      0 <= page < PAGES && 0 <= phys < WORD_RANGE && 0 <= flags < PAGE_SIZE && CanMap(sp, page)
    case DoUnmap(page) => 0 <= page < PAGES
    case DoTake => true
    case DoGive(addr) => 0 <= addr < WORD_RANGE && AddrOf(addr) !in sp.tables
  }

  ghost function Step(sp: Space, op: Op): (r: Space)
    requires SpaceInv(sp) && Allowed(sp, op)
    ensures SpaceInv(r)
  {
    match op
    case DoMap(page, phys, flags) => MapPageMaps(sp, page, phys, flags); MapPage(sp, page, phys, flags)
    case DoUnmap(page) => UnmapPageUnmaps(sp, page); UnmapPage(sp, page)
    case DoTake => TakeKeeps(sp); sp.(pmm := Frames.Alloc(sp.pmm).0)
    case DoGive(addr) => GiveKeeps(sp, addr); sp.(pmm := Frames.Free(sp.pmm, addr))
  }

  lemma TakeKeeps(sp: Space)
    requires SpaceInv(sp)
    ensures SpaceInv(sp.(pmm := Frames.Alloc(sp.pmm).0))
  {
    if Frames.Alloc(sp.pmm).1 != 0 {
      FreshFrame(sp.pmm);
    }
  }

  /** A frame that is no table can be given back. */
  lemma GiveKeeps(sp: Space, addr: int)
    requires SpaceInv(sp) && 0 <= addr < WORD_RANGE && AddrOf(addr) !in sp.tables
    ensures SpaceInv(sp.(pmm := Frames.Free(sp.pmm, addr)))
  {
    forall a | a in sp.tables
      ensures a / PAGE_SIZE != addr / PAGE_SIZE
    {
      assert IsTableFrame(a);
    }
  }

  ghost predicate AllAllowed(sp: Space, ops: seq<Op>)
    requires SpaceInv(sp)
    decreases |ops|
  {
    ops == [] || (Allowed(sp, ops[0]) && AllAllowed(Step(sp, ops[0]), ops[1..]))
  }

  ghost function RunOps(sp: Space, ops: seq<Op>): (r: Space)
    requires SpaceInv(sp) && AllAllowed(sp, ops)
    ensures SpaceInv(r)
    decreases |ops|
  {
    if ops == [] then sp else RunOps(Step(sp, ops[0]), ops[1..])
  }

  /** The flat machine, one page at a time: the last call on a page decides its entry. */
  function LastEntry(ops: seq<Op>, page: int, e: int): int {
    if ops == [] then e
    else
      var op := ops[|ops| - 1];
      if op.DoMap? && op.page == page then EntryFor(op.phys, op.flags)
      else if op.DoUnmap? && op.page == page then 0
      else LastEntry(ops[..|ops| - 1], page, e)
  }

  lemma {:induction false} LastEntryFirst(op: Op, ops: seq<Op>, page: int, e: int)
    ensures LastEntry([op] + ops, page, e) == LastEntry(ops, page, LastEntry([op], page, e))
  {
    if ops == [] {
      assert [op] + ops == [op];
    } else {
      assert ([op] + ops)[..|ops|] == [op] + ops[..|ops| - 1];
      LastEntryFirst(op, ops[..|ops| - 1], page, e);
    }
  }

  /** For any sequence of calls the two-level tables act as a flat map. */
  lemma {:induction false} TablesRefineFlatMap(sp: Space, ops: seq<Op>, page: int)
    requires SpaceInv(sp) && AllAllowed(sp, ops) && 0 <= page < PAGES
    ensures Pte(RunOps(sp, ops), page) == LastEntry(ops, page, Pte(sp, page))
    decreases |ops|
  {
    if ops == [] {
    } else {
      var op := ops[0];
      TablesRefineFlatMap(Step(sp, op), ops[1..], page);
      LastEntryFirst(op, ops[1..], page, Pte(sp, page));
      assert [op] + ops[1..] == ops;
      assert [op][..0] == [];
      match op
      case DoMap(p, phys, flags) => MapPageMaps(sp, p, phys, flags);
      case DoUnmap(p) => UnmapPageUnmaps(sp, p);
      case _ =>
    }
  }

  predicate CallsOn(op: Op, page: int) {
    (op.DoMap? || op.DoUnmap?) && op.page == page
  }

  lemma {:induction false} LastCallDecides(ops: seq<Op>, page: int, e: int, k: int)
    requires 0 <= k < |ops| && CallsOn(ops[k], page) && forall j | k < j < |ops| :: !CallsOn(ops[j], page)
    ensures LastEntry(ops, page, e) == if ops[k].DoMap? then EntryFor(ops[k].phys, ops[k].flags) else 0
  {
    if k == |ops| - 1 {
    } else {
      LastCallDecides(ops[..|ops| - 1], page, e, k);
    }
  }

  lemma {:induction false} AllowedFlags(sp: Space, ops: seq<Op>, k: int)
    requires SpaceInv(sp) && AllAllowed(sp, ops) && 0 <= k < |ops| && ops[k].DoMap?
    ensures 0 <= ops[k].flags < PAGE_SIZE
    decreases |ops|
  {
    if k == 0 {
    } else {
      AllowedFlags(Step(sp, ops[0]), ops[1..], k - 1);
    }
  }

  /** After any sequence of calls, a page last mapped has the entry for the frame and flags of that call, and a page
      last unmapped has none. */
  lemma LastMappingHolds(sp: Space, ops: seq<Op>, page: int, k: int)
    requires SpaceInv(sp) && AllAllowed(sp, ops) && 0 <= page < PAGES
    requires 0 <= k < |ops| && CallsOn(ops[k], page) && forall j | k < j < |ops| :: !CallsOn(ops[j], page)
    ensures var e := Pte(RunOps(sp, ops), page);
      if ops[k].DoMap? then IsEntry(e, ops[k].phys, ops[k].flags) else e == 0
  {
    TablesRefineFlatMap(sp, ops, page);
    LastCallDecides(ops, page, Pte(sp, page), k);
    if ops[k].DoMap? {
      AllowedFlags(sp, ops, k);
      EntryForIs(ops[k].phys, ops[k].flags);
    }
  }

  // ---------------------------------------------------------------------------------------------
  // Look-up

  ghost function GetPhys(sp: Space, virt: int): int
    requires Directory(sp) && 0 <= virt < WORD_RANGE
  {
    var pte := Pte(sp, virt / PAGE_SIZE);
    if Present(pte) then AddrOf(pte) + virt % PAGE_SIZE else 0
  }

  ghost predicate IsMapped(sp: Space, page: int)
    requires Directory(sp) && 0 <= page < PAGES
  {
    Present(Pte(sp, page))
  }

  /** Round trip: after mapping, every address of the page translates into the frame given, at the same
      offset; other addresses translate as before. */
  lemma TranslationAfterMap(sp: Space, page: int, phys: int, flags: int, virt: int)
    requires SpaceInv(sp) && 0 <= page < PAGES && CanMap(sp, page)
    requires 0 <= phys && 0 <= flags < PAGE_SIZE && 0 <= virt < WORD_RANGE
    ensures SpaceInv(MapPage(sp, page, phys, flags))
    ensures GetPhys(MapPage(sp, page, phys, flags), virt)
            == if virt / PAGE_SIZE == page then AddrOf(phys) + virt % PAGE_SIZE else GetPhys(sp, virt)
  {
    MapPageMaps(sp, page, phys, flags);
    EntryReads(AddrOf(phys), WithPresent(flags));
  }

  ghost predicate UserPage(sp: Space, page: int)
    requires Directory(sp) && 0 <= page < PAGES
  {
    IsMapped(sp, page) && UserBit(Pde(sp, page)) && UserBit(Pte(sp, page))
  }

  /** An existing directory entry never gains the user bit: a page mapped for the user is reachable by
      the user if and only if its table is new or was made for the user. */
  lemma UserMappingWorksIff(sp: Space, page: int, phys: int, flags: int)
    requires SpaceInv(sp) && 0 <= page < PAGES && CanMap(sp, page)
    requires 0 <= phys && 0 <= flags < PAGE_SIZE && UserBit(flags)
    ensures SpaceInv(MapPage(sp, page, phys, flags))
    ensures UserPage(MapPage(sp, page, phys, flags), page) <==> !Present(Pde(sp, page)) || UserBit(Pde(sp, page))
  {
    MapPageMaps(sp, page, phys, flags);
    CreateTableKeeps(sp, page, flags);
    EntryReads(AddrOf(phys), WithPresent(flags));
    UserBitKept(flags);
    MapPageKeepsPde(sp, page, phys, flags);
  }

  lemma UserBitKept(flags: int)
    ensures UserBit(WithPresent(flags)) == UserBit(flags) && Present(WithPresent(flags))
  {
    if flags % 2 == 0 {
      EvenQuarter(flags);
    }
  }

  lemma EvenQuarter(f: int)
    requires f % 2 == 0
    ensures (f + 1) / 4 == f / 4
  {
  }

  lemma MapPageKeepsPde(sp: Space, page: int, phys: int, flags: int)
    requires SpaceInv(sp) && 0 <= page < PAGES && CanMap(sp, page)
    ensures SpaceInv(MapPage(sp, page, phys, flags))
    ensures var pde := Pde(MapPage(sp, page, phys, flags), page);
      if Present(Pde(sp, page)) then pde == Pde(sp, page) else UserBit(pde) == UserBit(flags)
  {
    MapPageMaps(sp, page, phys, flags);
    CreateTableKeeps(sp, page, flags);
    if !Present(Pde(sp, page)) {
      FreshFrame(sp.pmm);
      EntryReads(Frames.Alloc(sp.pmm).1, PdeFlags(flags));
    }
  }
}
