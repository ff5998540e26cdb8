/** The physical frame allocator of `kernel/mm/pmm.c`, seen as a set of free frames. */
module Frames {
  import opened Machine

  const MAX_FRAMES: int := 0x10_0000

  /** `total` counts the frames that were ever made available; it never shrinks. */
  datatype Pmm = Pmm(free: set<int>, hint: int, total: nat)

  /** Lowest frame of `free` in [lo, hi), or `hi`. */
  function LowestFree(free: set<int>, lo: int, hi: int): (r: int)
    requires lo <= hi
    ensures lo <= r <= hi
    ensures forall f | lo <= f < r :: f !in free
    ensures r < hi ==> r in free
    decreases hi - lo
  {
    if lo == hi || lo in free then lo else LowestFree(free, lo + 1, hi)
  }

  function Take(p: Pmm, f: int): Pmm {
    p.(free := p.free - {f}, hint := if f + 1 >= MAX_FRAMES then 1 else f + 1)
  }

  /** The frame that the two-pass search of `pmm_alloc_frame` ends at, or 0. */
  function Search(p: Pmm): (f: int)
    requires 1 <= p.hint < MAX_FRAMES
  {
    var first := LowestFree(p.free, p.hint, MAX_FRAMES);
    if first < MAX_FRAMES then first
    else
      var second := LowestFree(p.free, 1, p.hint);
      if second < p.hint then second else 0
  }

  function Alloc(p: Pmm): (Pmm, int)
    requires 1 <= p.hint < MAX_FRAMES
  {
    if p.total == 0 || Search(p) == 0 then (p, 0) else (Take(p, Search(p)), Search(p) * PAGE_SIZE)
  }

  function Free(p: Pmm, addr: int): Pmm {
    var f := addr / PAGE_SIZE;
    if f == 0 || f in p.free then p
    else p.(free := p.free + {f}, hint := if f < p.hint then f else p.hint)
  }

  // ---------------------------------------------------------------------------------------------
  // Runs

  /** The allocator and the frames it has handed out and not got back. */
  datatype Ledger = Ledger(pmm: Pmm, out: set<int>)

  ghost predicate PmmInv(p: Pmm) {
    && 1 <= p.hint < MAX_FRAMES
    && (forall f | f in p.free :: 0 < f < MAX_FRAMES)
    && (forall f | 0 < f < p.hint :: f !in p.free)
  }

  ghost predicate LedgerInv(l: Ledger) {
    && PmmInv(l.pmm)
    && (forall f | f in l.out :: 0 < f < MAX_FRAMES)
    && l.out !! l.pmm.free
    && |l.pmm.free| + |l.out| <= l.pmm.total
  }

  datatype Op = DoAlloc | DoFree(addr: int)

  /** Only frames that were handed out are given back. */
  predicate Allowed(l: Ledger, op: Op) {
    op.DoFree? ==> op.addr / PAGE_SIZE in l.out
  }

  function Step(l: Ledger, op: Op): Ledger
    requires 1 <= l.pmm.hint < MAX_FRAMES
  {
    match op
    case DoAlloc =>
      var (p, addr) := Alloc(l.pmm);
      Ledger(p, if addr == 0 then l.out else l.out + {addr / PAGE_SIZE})
    case DoFree(addr) => Ledger(Free(l.pmm, addr), l.out - {addr / PAGE_SIZE})
  }

  /** The hint is a pure speed-up: the search finds the lowest free frame, and fails only when there is
      none. */
  lemma AllocIsLowest(l: Ledger)
    requires LedgerInv(l)
    ensures var (p, addr) := Alloc(l.pmm);
      if addr == 0 then p == l.pmm && l.pmm.free == {}
      else
        var f := addr / PAGE_SIZE;
        && addr == f * PAGE_SIZE && 0 < addr < WORD_RANGE
        && f in l.pmm.free && (forall g | g in l.pmm.free :: f <= g)
        && f !in l.out && p.free == l.pmm.free - {f} && p.total == l.pmm.total
  {
  }

  lemma StepKeepsInv(l: Ledger, op: Op)
    requires LedgerInv(l) && Allowed(l, op)
    ensures LedgerInv(Step(l, op))
  {
    if op.DoAlloc? {
      AllocIsLowest(l);
    }
  }

  predicate AllAllowed(l: Ledger, ops: seq<Op>)
    decreases |ops|
  {
    ops == [] || (1 <= l.pmm.hint < MAX_FRAMES && Allowed(l, ops[0]) && AllAllowed(Step(l, ops[0]), ops[1..]))
  }

  function RunOps(l: Ledger, ops: seq<Op>): Ledger
    requires AllAllowed(l, ops)
    decreases |ops|
  {
    if ops == [] then l else RunOps(Step(l, ops[0]), ops[1..])
  }

  lemma {:induction false} EveryRunIsSound(l: Ledger, ops: seq<Op>)
    requires LedgerInv(l) && AllAllowed(l, ops)
    ensures LedgerInv(RunOps(l, ops))
    decreases |ops|
  {
    if ops == [] {
    } else {
      StepKeepsInv(l, ops[0]);
      EveryRunIsSound(Step(l, ops[0]), ops[1..]);
    }
  }

  /** No frame is lost or invented: the frames free or handed out are the same set throughout. */
  lemma {:induction false} FramesConserved(l: Ledger, ops: seq<Op>)
    requires LedgerInv(l) && AllAllowed(l, ops)
    ensures RunOps(l, ops).pmm.free + RunOps(l, ops).out == l.pmm.free + l.out
    decreases |ops|
  {
    if ops == [] {
    } else {
      StepKeepsInv(l, ops[0]);
      AllocIsLowest(l);
      FramesConserved(Step(l, ops[0]), ops[1..]);
    }
  }

  /** Giving back the frame just obtained restores the set of free frames. */
  lemma FreeUndoesAlloc(l: Ledger)
    requires LedgerInv(l) && l.pmm.free != {}
    ensures Free(Alloc(l.pmm).0, Alloc(l.pmm).1).free == l.pmm.free
    ensures Alloc(Free(Alloc(l.pmm).0, Alloc(l.pmm).1)).1 == Alloc(l.pmm).1
  {
    AllocIsLowest(l);
    var (p, addr) := Alloc(l.pmm);
    var f := addr / PAGE_SIZE;
    assert p.free + {f} == l.pmm.free;
    var q := Free(p, addr);
    assert forall g | 0 < g < q.hint :: g !in q.free;
    AllocIsLowest(Ledger(q, l.out));
  }

  // ---------------------------------------------------------------------------------------------
  // Regions

  /** Frame f lies wholly inside [base, base + len). */
  predicate WhollyIn(f: int, base: int, len: int) {
    base <= f * PAGE_SIZE && (f + 1) * PAGE_SIZE <= base + len
  }

  function CeilPage(a: int): int {
    (a + PAGE_SIZE - 1) / PAGE_SIZE * PAGE_SIZE
  }

  /** First frame and number of frames that both marking routines compute for a region. */
  function FirstFrame(base: int): int {
    CeilPage(base) / PAGE_SIZE
  }

  function FrameCount(base: int, len: int): int {
    if CeilPage(base) >= base + len then 0 else (len - (CeilPage(base) - base)) / PAGE_SIZE
  }

  /** Rounding inward marks exactly the frames that lie wholly inside. */
  lemma RegionIsWholeFrames(base: int, len: int, f: int)
    requires 0 <= base && 0 <= len
    ensures 0 <= FrameCount(base, len)
    ensures FirstFrame(base) <= f < FirstFrame(base) + FrameCount(base, len) <==> WhollyIn(f, base, len)
  {
  }
}
