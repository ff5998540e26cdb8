/** The ready queue: a list without repetitions, removal by moving the last entry into the gap, and
    the scheduler's choice. */
module ReadyQueue {

  ghost predicate Distinct(q: seq<int>) {
    forall i, j | 0 <= i < j < |q| :: q[i] != q[j]
  }

  /** Index of the first occurrence of `p`, or |q|. */
  function IndexOf(q: seq<int>, p: int): (r: nat)
    ensures r <= |q|
    ensures r < |q| ==> q[r] == p
    ensures p !in q[..r]
  {
    if q == [] || q[0] == p then 0 else
    assert q == [q[0]] + q[1..];
    1 + IndexOf(q[1..], p)
  }

  /** Removal as `sched_remove` does it: the last entry takes the place of the removed one. */
  function SwapRemove(q: seq<int>, p: int): seq<int> {
    var i := IndexOf(q, p);
    if i == |q| then q else q[i := q[|q| - 1]][..|q| - 1]
  }

  lemma SwapRemoveRemoves(q: seq<int>, p: int)
    requires Distinct(q)
    ensures Distinct(SwapRemove(q, p))
    ensures forall x :: x in SwapRemove(q, p) <==> x in q && x != p
    ensures |SwapRemove(q, p)| == if p in q then |q| - 1 else |q|
  {
    var i, r := IndexOf(q, p), SwapRemove(q, p);
    if i < |q| {
      forall x | x in q && x != p
        ensures x in r
      {
        var k :| 0 <= k < |q| && q[k] == x;
        assert x == if k == |q| - 1 then r[i] else r[k];
      }
    } else {
      assert q[..i] == q;
    }
  }

  /** A list of distinct numbers in [lo, hi) has at most hi - lo entries. */
  lemma {:induction false} DistinctIsSmall(q: seq<int>, lo: int, hi: int)
    requires Distinct(q) && lo <= hi && forall x | x in q :: lo <= x < hi
    ensures |q| <= hi - lo
    decreases hi - lo
  {
    if q == [] {
    } else {
      assert q[0] in q;
      SwapRemoveRemoves(q, hi - 1);
      DistinctIsSmall(SwapRemove(q, hi - 1), lo, hi - 1);
    }
  }
}
