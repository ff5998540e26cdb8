/** Bitmaps kept in 32-bit words, as the frame allocator and the PID allocator keep them. */
module BitWords {

  const FULL: nat := 0xFFFF_FFFF

  /** Bit i of w, which C writes `(w >> i) & 1`. */
  predicate Test(w: nat, i: nat) {
    if i == 0 then w % 2 == 1 else Test(w / 2, i - 1)
  }

  /** `w | (1 << i)` */
  function SetBit(w: nat, i: nat): nat {
    if i == 0 then w - w % 2 + 1 else w % 2 + 2 * SetBit(w / 2, i - 1)
  }

  /** `w & ~(1 << i)` */
  function ClearBit(w: nat, i: nat): nat {
    if i == 0 then w - w % 2 else w % 2 + 2 * ClearBit(w / 2, i - 1)
  }

  lemma {:induction false} SetBitSets(w: nat, i: nat, j: nat)
    ensures Test(SetBit(w, i), j) <==> i == j || Test(w, j)
  {
    if i > 0 && j > 0 {
      SetBitSets(w / 2, i - 1, j - 1);
      assert SetBit(w, i) / 2 == SetBit(w / 2, i - 1);
    }
  }

  lemma {:induction false} ClearBitClears(w: nat, i: nat, j: nat)
    ensures Test(ClearBit(w, i), j) <==> i != j && Test(w, j)
  {
    if i > 0 && j > 0 {
      ClearBitClears(w / 2, i - 1, j - 1);
      assert ClearBit(w, i) / 2 == ClearBit(w / 2, i - 1);
    }
  }

  function Ones(n: nat): nat {
    if n == 0 then 0 else 1 + 2 * Ones(n - 1)
  }

  /** A word of n one-bits has every bit set, so skipping it skips no clear bit. */
  lemma {:induction false} OnesAreSet(n: nat, i: nat)
    ensures Test(Ones(n), i) <==> i < n
  {
    if n > 0 && i > 0 {
      OnesAreSet(n - 1, i - 1);
      assert Ones(n) / 2 == Ones(n - 1);
    } else if n == 0 {
      ZeroIsClear(i);
    }
  }

  lemma {:induction false} ZeroIsClear(i: nat)
    ensures !Test(0, i)
  {
    if i == 0 {
    } else {
      ZeroIsClear(i - 1);
    }
  }

  lemma FullWord(i: nat)
    requires i < 32
    ensures Test(FULL, i)
  {
    assert Ones(8) == 0xFF;
    assert Ones(16) == 0xFFFF by { assert Ones(12) == 0xFFF; }
    assert Ones(24) == 0xFF_FFFF by { assert Ones(20) == 0xF_FFFF; }
    assert Ones(32) == FULL by { assert Ones(28) == 0xFFF_FFFF; }
    OnesAreSet(32, i);
  }

  // ---------------------------------------------------------------------------------------------
  // Arrays of words

  predicate MapTest(words: seq<nat>, k: nat)
    requires k / 32 < |words|
  {
    Test(words[k / 32], k % 32)
  }

  function MapSet(words: seq<nat>, k: nat): seq<nat>
    requires k / 32 < |words|
  {
    words[k / 32 := SetBit(words[k / 32], k % 32)]
  }

  function MapClear(words: seq<nat>, k: nat): seq<nat>
    requires k / 32 < |words|
  {
    words[k / 32 := ClearBit(words[k / 32], k % 32)]
  }

  lemma MapSetSets(words: seq<nat>, k: nat, j: nat)
    requires k / 32 < |words| && j / 32 < |words|
    ensures MapTest(MapSet(words, k), j) <==> j == k || MapTest(words, j)
  {
    SetBitSets(words[k / 32], k % 32, j % 32);
    assert j / 32 == k / 32 && j % 32 == k % 32 ==> j == k;
  }

  lemma MapClearClears(words: seq<nat>, k: nat, j: nat)
    requires k / 32 < |words| && j / 32 < |words|
    ensures MapTest(MapClear(words, k), j) <==> j != k && MapTest(words, j)
  {
    ClearBitClears(words[k / 32], k % 32, j % 32);
    assert j / 32 == k / 32 && j % 32 == k % 32 ==> j == k;
  }
}
