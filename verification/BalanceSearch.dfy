/** The block in which a balance became an expected one: a binary search over balances that may go up and down. */
module BalanceSearch {
  import BlockLookup

  type u64 = BlockLookup.u64

  /** What the node answers for a height: the balance, that the height was never produced, or another error. */
  datatype Reply = Balance(amount: real) | Skipped | Failed

  datatype Answer =
    | Missing               // the range is empty or does not end with the expected balance
    | Change(height: u64)
    | Error(height: u64)

  /** The block at this height has the expected balance. */
  predicate Carries(query: u64 -> Reply, expected: real, h: u64) {
    query(h) == Balance(expected)
  }

  /** The rest of the search; `result` is the lowest height so far that carries the balance. */
  function Search(query: u64 -> Reply, expected: real, left: u64, right: u64, result: u64): Answer
    requires Carries(query, expected, result) && right <= result
    decreases right as int - left as int + 1
  {
    if left > right then Change(result)
    else
      var mid := BlockLookup.Middle(left, right);
      if query(mid).Failed? then Error(mid)
      else if Carries(query, expected, mid) then
        if mid == left then Change(mid) else Search(query, expected, left, mid - 1, mid)
      // another balance, or a height that was skipped
      else Search(query, expected, mid + 1, right, result)
  }

  function Find(query: u64 -> Reply, expected: real, start: u64, end: u64): Answer {
    if start > end then Missing
    else if !query(end).Balance? then Error(end)
    else if !Carries(query, expected, end) then Missing
    else if !query(start).Balance? then Error(start)
    else if Carries(query, expected, start) then Change(start)
    else Search(query, expected, start, end, end)
  }

  /** The search of the source. An answer carries the balance, and the height just before it does not. */
  method FindBalanceChangeBlock(query: u64 -> Reply, expected: real, start: u64, end: u64) returns (r: Answer)
    ensures r == Find(query, expected, start, end)
    ensures r.Change? ==> start <= r.height <= end && Carries(query, expected, r.height)
    ensures r.Change? && start < r.height ==> !Carries(query, expected, r.height - 1)
    ensures r.Missing? <==> start > end || (query(end).Balance? && query(end).amount != expected)
    // what goes wrong: the end is not answered, or the start, or a height in between fails
    ensures start <= end && !query(end).Balance? ==> r == Error(end)
    ensures start <= end && Carries(query, expected, end) && !query(start).Balance? ==> r == Error(start)
    ensures r.Error? && query(start).Balance? && query(end).Balance? ==>
              start <= r.height <= end && query(r.height).Failed?
  {
    if start > end {
      return Missing;
    }
    if !query(end).Balance? {
      return Error(end);
    }
    if query(end).amount != expected {
      return Missing;
    }
    if !query(start).Balance? {
      return Error(start);
    }
    if query(start).amount == expected {
      return Change(start);
    }
    SearchFindsEdge(query, expected, start, start, end, end);
    SearchFails(query, expected, start, end, end);
    r := SearchLoop(query, expected, start, end);
  }

  method SearchLoop(query: u64 -> Reply, expected: real, start: u64, end: u64) returns (r: Answer)
    requires Carries(query, expected, end)
    ensures r == Search(query, expected, start, end, end)
  {
    var left, right, result := start, end, end;
    while left <= right
      invariant Carries(query, expected, result) && right <= result
      invariant Search(query, expected, start, end, end) == Search(query, expected, left, right, result)
      decreases right as int - left as int + 1
    {
      var mid := BlockLookup.Middle(left, right);
      var reply := query(mid);
      if reply.Failed? {
        return Error(mid);
      }
      if reply == Balance(expected) {
        result := mid;
        if mid == left {
          break;
        }
        right := mid - 1;
      } else {
        left := mid + 1;
      }
    }
    r := Change(result);
  }

  lemma {:induction false} SearchFails(query: u64 -> Reply, expected: real, left: u64, right: u64, result: u64)
    requires Carries(query, expected, result) && right <= result
    ensures var r := Search(query, expected, left, right, result);
            !r.Missing? && (r.Error? ==> left <= r.height <= right && query(r.height).Failed?)
    decreases right as int - left as int + 1
  {
    if left <= right {
      var mid := BlockLookup.Middle(left, right);
      if Carries(query, expected, mid) && mid != left {
        SearchFails(query, expected, left, mid - 1, mid);
      } else if !Carries(query, expected, mid) && !query(mid).Failed? {
        SearchFails(query, expected, mid + 1, right, result);
      }
    }
  }

  /** The height just before this one, from `start` on, does not carry the balance. */
  predicate Begins(query: u64 -> Reply, expected: real, start: u64, h: u64) {
    start < h ==> !Carries(query, expected, h - 1)
  }

  /** Whatever the balances do in between, the search ends where the balance begins to be the expected one. */
  lemma {:induction false} SearchFindsEdge(
    query: u64 -> Reply, expected: real, start: u64, left: u64, right: u64, result: u64)
    requires Carries(query, expected, result) && (result == right || result as int == right as int + 1)
    requires start <= left <= result && Begins(query, expected, start, left)
    ensures var r := Search(query, expected, left, right, result);
            r.Change? ==>
              && left <= r.height <= result
              && Carries(query, expected, r.height) && Begins(query, expected, start, r.height)
    decreases right as int - left as int + 1
  {
    if left <= right {
      var mid := BlockLookup.Middle(left, right);
      if !query(mid).Failed? {
        if !Carries(query, expected, mid) {
          assert Begins(query, expected, start, mid + 1);
          SearchFindsEdge(query, expected, start, mid + 1, right, result);
        } else if mid != left {
          SearchFindsEdge(query, expected, start, left, mid - 1, mid);
        }
      }
    } else {
      assert left == result;
    }
  }

  // ---------------------------------------------------------------------------
  // When the answer is the first block with the balance.
  // ---------------------------------------------------------------------------

  /** The lowest height from `k` on that carries the balance. */
  function FirstCarrying(query: u64 -> Reply, expected: real, k: u64, end: u64): (f: u64)
    requires k <= end && Carries(query, expected, end)
    ensures k <= f <= end && Carries(query, expected, f)
    ensures forall h :: k <= h < f ==> !Carries(query, expected, h)
    decreases end as int - k as int
  {
    if Carries(query, expected, k) then k else FirstCarrying(query, expected, k + 1, end)
  }

  /**
   * Halving from `left` to `right` towards `f`: each midpoint below it can be asked for, and each midpoint at or
   * above it carries the balance.
   */
  predicate ClearPath(query: u64 -> Reply, expected: real, left: u64, right: u64, f: u64)
    decreases right as int - left as int + 1
  {
    left > right ||
    var mid := BlockLookup.Middle(left, right);
    if mid < f then !query(mid).Failed? && (mid == right || ClearPath(query, expected, mid + 1, right, f))
    else Carries(query, expected, mid) && (mid == left || ClearPath(query, expected, left, mid - 1, f))
  }

  lemma {:induction false} SearchStaysAbove(query: u64 -> Reply, expected: real, left: u64, right: u64, result: u64)
    requires Carries(query, expected, result) && right <= result
    ensures var r := Search(query, expected, left, right, result); r.Change? ==> left <= r.height || r.height == result
    decreases right as int - left as int + 1
  {
    if left <= right {
      var mid := BlockLookup.Middle(left, right);
      if !query(mid).Failed? {
        if !Carries(query, expected, mid) {
          SearchStaysAbove(query, expected, mid + 1, right, result);
        } else if mid != left {
          SearchStaysAbove(query, expected, left, mid - 1, mid);
        }
      }
    }
  }

  lemma {:induction false} SearchIsFirstIff(query: u64 -> Reply, expected: real, left: u64, right: u64, result: u64,
                                            f: u64)
    requires Carries(query, expected, result) && (result == right || result as int == right as int + 1)
    requires left <= f <= result && Carries(query, expected, f)
    requires forall h :: left <= h < f ==> !Carries(query, expected, h)
    ensures Search(query, expected, left, right, result) == Change(f) <==> ClearPath(query, expected, left, right, f)
    decreases right as int - left as int + 1
  {
    if left <= right {
      var mid := BlockLookup.Middle(left, right);
      if query(mid).Failed? {
      } else if Carries(query, expected, mid) {
        if mid != left {
          SearchIsFirstIff(query, expected, left, mid - 1, mid, f);
        }
      } else if mid < f {
        SearchIsFirstIff(query, expected, mid + 1, right, result, f);
      } else {
        SearchStaysAbove(query, expected, mid + 1, right, result);
      }
    }
  }

  /**
   * On a range that ends with the expected balance and starts with a known one, the answer is the first block with
   * that balance exactly when it is the start or the way to it by halving is clear.
   */
  lemma FirstIff(query: u64 -> Reply, expected: real, start: u64, end: u64)
    requires start <= end && Carries(query, expected, end) && query(start).Balance?
    ensures var f := FirstCarrying(query, expected, start, end);
            Find(query, expected, start, end) == Change(f)
            <==> f == start || ClearPath(query, expected, start, end, f)
  {
    var f := FirstCarrying(query, expected, start, end);
    if f != start {
      SearchIsFirstIff(query, expected, start, end, end, f);
    }
  }

  lemma {:induction false} SettledPathClear(query: u64 -> Reply, expected: real, left: u64, right: u64, f: u64)
    requires forall h :: left <= h <= right && h < f ==> !query(h).Failed?
    requires forall h :: left <= h <= right && f <= h ==> Carries(query, expected, h)
    ensures ClearPath(query, expected, left, right, f)
    decreases right as int - left as int + 1
  {
    if left <= right {
      var mid := BlockLookup.Middle(left, right);
      if mid < f {
        if mid != right {
          SettledPathClear(query, expected, mid + 1, right, f);
        }
      } else if mid != left {
        SettledPathClear(query, expected, left, mid - 1, f);
      }
    }
  }

  /** A balance that stays once it is reached, on heights that all exist from there on, is found where it is reached. */
  lemma SettledIsFirst(query: u64 -> Reply, expected: real, start: u64, end: u64, f: u64)
    requires start <= f <= end && query(start).Balance?
    requires forall h :: start <= h < f ==> !query(h).Failed? && !Carries(query, expected, h)
    requires forall h :: f <= h <= end ==> Carries(query, expected, h)
    ensures Find(query, expected, start, end) == Change(f)
  {
    SettledPathClear(query, expected, start, end, f);
    FirstIff(query, expected, start, end);
    var first := FirstCarrying(query, expected, start, end);
    assert Carries(query, expected, f) && Carries(query, expected, first);
    assert !(first < f) && !(f < first);
  }

  /** Replies in which the balance 5 is reached at height 1 and stays, but height 2 was skipped. */
  function SkippedAt2(h: u64): Reply {
    if h == 0 then Balance(0.0) else if h == 2 then Skipped else Balance(5.0)
  }

  /** An instance: a skipped height behind the change hides it, and a later block is answered. */
  lemma SkippedHidesFirst()
    ensures FirstCarrying(SkippedAt2, 5.0, 0, 4) == 1 && Find(SkippedAt2, 5.0, 0, 4) == Change(3)
  {
    assert BlockLookup.Middle(0, 4) == 2 && BlockLookup.Middle(3, 4) == 3;
    assert Search(SkippedAt2, 5.0, 3, 4, 4) == Change(3);
  }
}
