/** Regular files of `kernel/fs/ramfs.c`, and reading and writing them through `kernel/fs/vfs.c`. */
module RamFiles {
  import opened Machine
  import opened Bytes

  const LARGEST: int := 0x8000_0000

  // ---------------------------------------------------------------------------------------------
  // Contents as byte sequences

  /** Content after writing `data` at `off`. */
  function Splice(c: seq<byte>, off: nat, data: seq<byte>): seq<byte>
    requires off <= |c|
  {
    c[..off] + data + c[Min(|c|, off + |data|)..]
  }

  function ReadAt(c: seq<byte>, off: nat, len: nat): seq<byte> {
    if off >= |c| then [] else c[off..off + Min(len, |c| - off)]
  }

  /** The 32-bit word n returned as an `int`. */
  function Signed(n: nat): int {
    if n < LARGEST then n else n - WORD_RANGE
  }

  /** How far a transfer of n bytes moves the offset: not at all if the count comes back negative. */
  function Advance(n: nat): nat {
    if Signed(n) > 0 then n else 0
  }

  /** What one descriptor gets by reading with the given lengths, one after the other. */
  function ReadMany(c: seq<byte>, off: nat, lens: seq<nat>): seq<byte>
    decreases |lens|
  {
    if lens == [] then []
    else
      var d := ReadAt(c, off, lens[0]);
      d + ReadMany(c, off + Advance(|d|), lens[1..])
  }

  /** Its offset after that. */
  function OffsetAfter(c: seq<byte>, off: nat, lens: seq<nat>): nat
    decreases |lens|
  {
    if lens == [] then off else OffsetAfter(c, off + Advance(|ReadAt(c, off, lens[0])|), lens[1..])
  }

  /** Every read moves the offset by what it gives. */
  predicate Moves(c: seq<byte>, off: nat, lens: seq<nat>)
    decreases |lens|
  {
    lens == [] ||
    var n := |ReadAt(c, off, lens[0])|;
    n < LARGEST && Moves(c, off + n, lens[1..])
  }

  lemma ReadsUnfold(c: seq<byte>, off: nat, lens: seq<nat>)
    requires lens != []
    ensures var d := ReadAt(c, off, lens[0]);
      && ReadMany(c, off, lens) == d + ReadMany(c, off + Advance(|d|), lens[1..])
      && OffsetAfter(c, off, lens) == OffsetAfter(c, off + Advance(|d|), lens[1..])
      && (Moves(c, off, lens) <==> |d| < LARGEST && Moves(c, off + |d|, lens[1..]))
  {
  }

  /** Successive reads then give consecutive bytes, without gap or repetition. */
  lemma {:induction false} ReadManyIsSlice(c: seq<byte>, off: nat, lens: seq<nat>)
    requires off <= |c| && Moves(c, off, lens)
    ensures off <= OffsetAfter(c, off, lens) <= |c|
    ensures ReadMany(c, off, lens) == c[off..OffsetAfter(c, off, lens)]
    decreases |lens|
  {
    if lens == [] {
      assert c[off..off] == [];
    } else {
      var mid, rest := off + |ReadAt(c, off, lens[0])|, lens[1..];
      OneRead(c, off, lens[0]);
      ReadManyIsSlice(c, mid, rest);
      FirstSlice(c, off, lens, mid, OffsetAfter(c, mid, rest));
    }
  }

  lemma FirstSlice(c: seq<byte>, off: nat, lens: seq<nat>, mid: nat, end: nat)
    requires lens != [] && off <= mid <= end <= |c| && mid == off + |ReadAt(c, off, lens[0])| < off + LARGEST
    requires ReadMany(c, mid, lens[1..]) == c[mid..end] && OffsetAfter(c, mid, lens[1..]) == end
    ensures ReadMany(c, off, lens) == c[off..end] && OffsetAfter(c, off, lens) == end
  {
    OneRead(c, off, lens[0]);
    ReadsUnfold(c, off, lens);
    JoinSlices(c, off, mid, end);
  }

  lemma OneRead(c: seq<byte>, off: nat, len: nat)
    requires off <= |c|
    ensures var n := |ReadAt(c, off, len)|;
      off + n <= |c| && ReadAt(c, off, len) == c[off..off + n] && (n < LARGEST ==> Advance(n) == n)
  {
  }

  lemma JoinSlices(c: seq<byte>, a: nat, b: nat, e: nat)
    requires a <= b <= e <= |c|
    ensures c[a..b] + c[b..e] == c[a..e]
  {
  }

  lemma {:induction false} ReadsCoverOffset(c: seq<byte>, off: nat, lens: seq<nat>)
    ensures off <= OffsetAfter(c, off, lens) <= off + |ReadMany(c, off, lens)|
    decreases |lens|
  {
    if lens == [] {
    } else {
      ReadsCoverOffset(c, off + Advance(|ReadAt(c, off, lens[0])|), lens[1..]);
    }
  }

  /** A read that does not move the offset gives the whole file, and it is read again. */
  lemma {:induction false} ReadsRepeat(c: seq<byte>, off: nat, lens: seq<nat>)
    requires off <= |c| <= LARGEST && !Moves(c, off, lens) && OffsetAfter(c, off, lens) >= |c|
    ensures off + |ReadMany(c, off, lens)| > |c|
    decreases |lens|
  {
    var n, rest := |ReadAt(c, off, lens[0])|, lens[1..];
    OneRead(c, off, lens[0]);
    ReadsUnfold(c, off, lens);
    if n < LARGEST {
      ReadsRepeat(c, off + n, rest);
    } else {
      assert off == 0 && n == |c| && Advance(n) == 0;
      ReadsCoverOffset(c, 0, rest);
    }
  }

  /** Reading in chunks until a read gives nothing yields the content exactly if every read moves the offset. */
  lemma ReadUntilEndIsAll(c: seq<byte>, lens: seq<nat>, last: nat)
    requires |c| <= LARGEST && last > 0 && ReadAt(c, OffsetAfter(c, 0, lens), last) == []
    ensures ReadMany(c, 0, lens) == c <==> Moves(c, 0, lens)
  {
    if Moves(c, 0, lens) {
      ReadManyIsSlice(c, 0, lens);
      assert c[0..|c|] == c;
    } else {
      ReadsRepeat(c, 0, lens);
    }
  }

  /** The first length that is not 0 is below 2^31. */
  predicate StartsSmall(lens: seq<nat>)
    decreases |lens|
  {
    lens == [] || if lens[0] == 0 then StartsSmall(lens[1..]) else lens[0] < LARGEST
  }

  /** That is so unless a file of 2^31 bytes is first asked for all of them at once. */
  lemma {:induction false} MovesIff(c: seq<byte>, lens: seq<nat>)
    requires |c| <= LARGEST
    ensures Moves(c, 0, lens) <==> |c| < LARGEST || StartsSmall(lens)
    decreases |lens|
  {
    if lens == [] {
    } else {
      var n := |ReadAt(c, 0, lens[0])|;
      if n == 0 {
        MovesIff(c, lens[1..]);
      } else if n < LARGEST {
        MovesOn(c, n, lens[1..]);
      }
    }
  }

  lemma {:induction false} MovesOn(c: seq<byte>, off: nat, lens: seq<nat>)
    requires |c| <= LARGEST && off > 0
    ensures Moves(c, off, lens)
    decreases |lens|
  {
    if lens == [] {
    } else {
      MovesOn(c, off + |ReadAt(c, off, lens[0])|, lens[1..]);
    }
  }

  /** What was written is what is read back there, and nothing else changes. */
  lemma SpliceRoundTrip(c: seq<byte>, off: nat, data: seq<byte>, at: nat, len: nat)
    requires off <= |c|
    ensures ReadAt(Splice(c, off, data), off, |data|) == data
    ensures at + len <= off ==> ReadAt(Splice(c, off, data), at, len) == ReadAt(c, at, len)
    ensures off + |data| <= at ==> ReadAt(Splice(c, off, data), at, len) == ReadAt(c, at, len)
  {
  }

  lemma SpliceAtEnd(c: seq<byte>, data: seq<byte>)
    ensures Splice(c, |c|, data) == c + data
  {
  }

  /** Appending concatenates. */
  lemma AppendConcatenates(c: seq<byte>, a: seq<byte>, b: seq<byte>)
    ensures Splice(Splice(c, |c|, a), |c| + |a|, b) == c + (a + b)
  {
  }

  // ---------------------------------------------------------------------------------------------
  // Growth of the buffer

  function Pow2(k: nat): nat {
    if k == 0 then 1 else 2 * Pow2(k - 1)
  }

  /** The capacity after k doublings from 64, in 32-bit arithmetic: beyond 2^31 it is 0 for good. */
  function Cap(k: nat): (r: nat) {
    if k == 0 then 64 else 2 * Cap(k - 1) % WORD_RANGE
  }

  lemma Pow31()
    ensures Pow2(31) == LARGEST
  {
    assert Pow2(8) == 256;
    assert Pow2(16) == 0x1_0000;
    assert Pow2(24) == 0x100_0000;
  }

  lemma {:induction false} CapIs(k: nat)
    ensures Cap(k) == if k <= 25 then Pow2(k + 6) else 0
    ensures Cap(k) <= LARGEST
  {
    if k == 0 {
      assert Pow2(6) == 64;
    } else {
      CapIs(k - 1);
      Doubled(k, Cap(k - 1));
    }
  }

  lemma Doubled(k: nat, cap: nat)
    requires k > 0 && cap == if k <= 26 then Pow2(k + 5) else 0
    ensures 2 * cap % WORD_RANGE == if k <= 25 then Pow2(k + 6) else 0
    ensures k <= 25 ==> Pow2(k + 6) <= LARGEST
  {
    if k <= 25 {
      PowBound(k + 6);
      Fits(Pow2(k + 6));
    } else if k == 26 {
      PowBound(k + 5);
    }
  }

  lemma Fits(x: nat)
    requires x < WORD_RANGE
    ensures x % WORD_RANGE == x
  {
  }

  lemma PowBound(k: nat)
    requires k <= 31
    ensures Pow2(k) <= LARGEST && (k == 31 ==> Pow2(k) == LARGEST)
  {
    Pow31();
    PowGrows(k, 31);
  }

  /** A capacity below 2^31 can be doubled once more. */
  lemma CapBelowLargest(k: nat)
    requires k <= 25
    ensures 64 <= Cap(k) <= LARGEST && (Cap(k) < LARGEST ==> k < 25)
  {
    CapIs(k);
    PowBound(k + 6);
    PowGrows(6, k + 6);
    assert Pow2(6) == 64;
  }

  lemma {:induction false} PowGrows(j: nat, k: nat)
    requires j <= k
    ensures 1 <= Pow2(j) <= Pow2(k)
    decreases k
  {
    if j < k {
      PowGrows(j, k - 1);
    } else if k > 0 {
      PowGrows(j - 1, k - 1);
    }
  }

  /** The doubling loop reaches the size needed if and only if that is at most 2^31; beyond, it never
      ends. */
  lemma GrowthEndsIff(k: nat, end: int)
    requires k <= 25 && 0 < end < WORD_RANGE
    ensures (exists n: nat :: k <= n && Cap(n) >= end) <==> end <= LARGEST
  {
    CapIs(25);
    Pow31();
    forall n: nat
      ensures Cap(n) <= LARGEST
    {
      CapIs(n);
    }
  }
}
