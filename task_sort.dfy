/**
 * The in-place quicksort of src/todos.rs that orders tasks by priority:
 * `partition_tasks` moves the last task of a range to its sorted place,
 * and `quick_sort_tasks` recurses on both sides of it. The ranges are
 * inclusive, as in the source.
 */
module TaskSort {
  import opened Todos

  /**
   * The tasks at `lo..hi` (inclusive) are in non-decreasing priority. The
   * sort is stated for any priority function `key`; `SortTasks` uses
   * `TaskPriority`.
   */
  predicate SortedRange(key: Task -> nat, s: seq<Task>, lo: int, hi: int)
    requires 0 <= lo && hi < |s|
  {
    forall i, j :: lo <= i < j <= hi ==> key(s[i]) <= key(s[j])
  }

  /**
   * `t` is `s` with only the tasks at `lo..hi` (inclusive) moved among
   * themselves: the same tasks, as many times each, in that range, and
   * everything outside it untouched.
   */
  predicate Rearranged(s: seq<Task>, t: seq<Task>, lo: int, hi: int) {
    |s| == |t| && 0 <= lo <= hi + 1 <= |s| &&
    s[..lo] == t[..lo] && s[hi + 1..] == t[hi + 1..] &&
    multiset(s[lo..hi + 1]) == multiset(t[lo..hi + 1])
  }

  lemma RearrangedTrans(s: seq<Task>, t: seq<Task>, u: seq<Task>, lo: int, hi: int)
    requires Rearranged(s, t, lo, hi) && Rearranged(t, u, lo, hi)
    ensures Rearranged(s, u, lo, hi)
  {
  }

  /** Exchanging two tasks inside a range rearranges that range. */
  lemma SwapRearranges(s: seq<Task>, i: int, j: int, lo: int, hi: int)
    requires 0 <= lo <= i <= hi < |s| && lo <= j <= hi
    ensures Rearranged(s, s[i := s[j]][j := s[i]], lo, hi)
  {
    var t := s[i := s[j]][j := s[i]];
    assert t[lo..hi + 1] == s[lo..hi + 1][i - lo := s[j]][j - lo := s[i]];
  }

  /** A range rearranged inside a wider range rearranges the wider one. */
  lemma Widen(s: seq<Task>, t: seq<Task>, lo: int, hi: int, lo': int, hi': int)
    requires Rearranged(s, t, lo', hi')
    requires 0 <= lo <= lo' && hi' <= hi < |s|
    ensures Rearranged(s, t, lo, hi)
  {
    assert s[lo..hi + 1] == s[lo..lo'] + s[lo'..hi' + 1] + s[hi' + 1..hi + 1];
    assert t[lo..hi + 1] == t[lo..lo'] + t[lo'..hi' + 1] + t[hi' + 1..hi + 1];
    assert s[lo..lo'] == s[..lo'][lo..] && t[lo..lo'] == t[..lo'][lo..];
    assert s[hi' + 1..hi + 1] == s[hi' + 1..][..hi - hi'] && t[hi' + 1..hi + 1] == t[hi' + 1..][..hi - hi'];
  }

  /** Every task now in a rearranged range was in it before. */
  lemma FromRange(s: seq<Task>, t: seq<Task>, lo: int, hi: int, k: int) returns (j: int)
    requires Rearranged(s, t, lo, hi) && lo <= k <= hi
    ensures lo <= j <= hi && t[k] == s[j]
  {
    assert t[k] in multiset(t[lo..hi + 1]) by {
      assert t[lo..hi + 1][k - lo] == t[k];
    }
    assert t[k] in s[lo..hi + 1];
    var m :| 0 <= m < hi + 1 - lo && s[lo..hi + 1][m] == t[k];
    j := lo + m;
  }

  /** Rearranging keeps any bound all the tasks of the range are under. */
  lemma BoundAboveKept(key: Task -> nat, s: seq<Task>, t: seq<Task>, lo: int, hi: int, b: int)
    requires Rearranged(s, t, lo, hi)
    requires forall k :: lo <= k <= hi ==> key(s[k]) <= b
    ensures forall k :: lo <= k <= hi ==> key(t[k]) <= b
  {
    forall k | lo <= k <= hi
      ensures key(t[k]) <= b
    {
      var j := FromRange(s, t, lo, hi, k);
    }
  }

  /** Rearranging keeps any bound all the tasks of the range are over. */
  lemma BoundBelowKept(key: Task -> nat, s: seq<Task>, t: seq<Task>, lo: int, hi: int, b: int)
    requires Rearranged(s, t, lo, hi)
    requires forall k :: lo <= k <= hi ==> b <= key(s[k])
    ensures forall k :: lo <= k <= hi ==> b <= key(t[k])
  {
    forall k | lo <= k <= hi
      ensures b <= key(t[k])
    {
      var j := FromRange(s, t, lo, hi, k);
    }
  }

  /** `arr.swap(i, j)`. */
  method Swap(a: array<Task>, i: int, j: int)
    requires 0 <= i < a.Length && 0 <= j < a.Length
    modifies a
    ensures a[..] == old(a[..])[i := old(a[j])][j := old(a[i])]
  {
    a[i], a[j] := a[j], a[i];
  }

  /**
   * `partition_tasks`: the pivot is the last task of `low..high`; tasks
   * below it in priority end up before it and tasks above it after it, and
   * its index is returned.
   */
  method PartitionTasks(key: Task -> nat, a: array<Task>, low: int, high: int) returns (p: int)
    requires 0 <= low < high < a.Length
    modifies a
    ensures low <= p <= high
    ensures forall k :: low <= k < p ==> key(a[k]) <= key(a[p])
    ensures forall k :: p < k <= high ==> key(a[p]) <= key(a[k])
    ensures Rearranged(old(a[..]), a[..], low, high)
  {
    ghost var s0 := a[..];
    var pivot := high;
    var store := low - 1;
    var last := high;
    ghost var v := key(a[pivot]);
    while true
      invariant low - 1 <= store < last <= high
      invariant a[high] == s0[high] && key(a[pivot]) == v
      invariant forall k :: low <= k <= store ==> key(a[k]) <= v
      invariant forall k :: last <= k < high ==> v <= key(a[k])
      invariant Rearranged(s0, a[..], low, high)
      decreases last - store
    {
      store := AdvanceStore(key, a, store + 1, low, high);
      last := RetreatLast(key, a, last - 1, low, high);
      if store >= last {
        break;
      }
      ExchangeOutOfPlace(key, a, store, last, low, high, s0, v);
    }
    PlacePivot(key, a, store, low, high, s0, v);
    p := store;
  }

  /** The swap after the partition loop: the pivot moves from `high` to `store`, between the two sides. */
  method PlacePivot(key: Task -> nat, a: array<Task>, store: int, low: int, high: int, ghost s0: seq<Task>, ghost v: int)
    requires 0 <= low <= store <= high < a.Length
    requires key(a[high]) == v <= key(a[store])
    requires forall k :: low <= k < store ==> key(a[k]) <= v
    requires forall k :: store < k < high ==> v <= key(a[k])
    requires Rearranged(s0, a[..], low, high)
    modifies a
    ensures forall k :: low <= k < store ==> key(a[k]) <= key(a[store])
    ensures forall k :: store < k <= high ==> key(a[store]) <= key(a[k])
    ensures Rearranged(s0, a[..], low, high)
  {
    ghost var s1 := a[..];
    Swap(a, store, high);
    SwapRearranges(s1, store, high, low, high);
    RearrangedTrans(s0, s1, a[..], low, high);
  }

  /** The first inner loop: from `start` up to the first task not below the pivot at `high`. */
  method AdvanceStore(key: Task -> nat, a: array<Task>, start: int, low: int, high: int) returns (store: int)
    requires 0 <= low <= start <= high < a.Length
    requires forall k :: low <= k < start ==> key(a[k]) <= key(a[high])
    ensures start <= store <= high && key(a[high]) <= key(a[store])
    ensures forall k :: low <= k < store ==> key(a[k]) <= key(a[high])
  {
    store := start;
    while key(a[store]) < key(a[high])
      invariant start <= store <= high
      invariant forall k :: low <= k < store ==> key(a[k]) <= key(a[high])
      decreases high - store
    {
      store := store + 1;
    }
  }

  /**
   * The second inner loop: from `start` down to the first task not above
   * the pivot, or to -1; it is bounded by the start of the array, not by
   * `low`.
   */
  method RetreatLast(key: Task -> nat, a: array<Task>, start: int, low: int, high: int) returns (last: int)
    requires 0 <= low && -1 <= start < high < a.Length
    requires forall k :: start < k < high && low <= k ==> key(a[high]) <= key(a[k])
    ensures -1 <= last <= start
    ensures last >= 0 ==> key(a[last]) <= key(a[high])
    ensures forall k :: last < k < high && low <= k ==> key(a[high]) <= key(a[k])
  {
    last := start;
    while last >= 0 && key(a[last]) > key(a[high])
      invariant -1 <= last <= start
      invariant forall k :: last < k < high && low <= k ==> key(a[high]) <= key(a[k])
      decreases last
    {
      last := last - 1;
    }
  }

  /** The swap inside the partition loop: a task of low priority moves down, one of high priority up. */
  method ExchangeOutOfPlace(key: Task -> nat, a: array<Task>, store: int, last: int, low: int, high: int, ghost s0: seq<Task>, ghost v: int)
    requires 0 <= low <= store < last < high < a.Length
    requires key(a[last]) <= v <= key(a[store])
    requires forall k :: low <= k < store ==> key(a[k]) <= v
    requires forall k :: last < k < high ==> v <= key(a[k])
    requires Rearranged(s0, a[..], low, high)
    modifies a
    ensures a[high] == old(a[high])
    ensures forall k :: low <= k <= store ==> key(a[k]) <= v
    ensures forall k :: last <= k < high ==> v <= key(a[k])
    ensures Rearranged(s0, a[..], low, high)
  {
    ghost var s1 := a[..];
    Swap(a, store, last);
    SwapRearranges(s1, store, last, low, high);
    RearrangedTrans(s0, s1, a[..], low, high);
  }

  /** `quick_sort_tasks`: sorts the tasks at `low..high` (inclusive) by priority, in place. */
  method QuickSortTasks(key: Task -> nat, a: array<Task>, low: int, high: int)
    requires 0 <= low <= high + 1 <= a.Length
    modifies a
    ensures SortedRange(key, a[..], low, high)
    ensures Rearranged(old(a[..]), a[..], low, high)
    decreases high - low
  {
    if low < high {
      ghost var s0 := a[..];
      var p := PartitionTasks(key, a, low, high);
      ghost var s1 := a[..];
      QuickSortTasks(key, a, low, p - 1);
      ghost var s2 := a[..];
      QuickSortTasks(key, a, p + 1, high);
      SortedAroundPivot(key, s0, s1, s2, a[..], low, p, high);
    }
  }

  /** After the pivot is placed and both sides are sorted, the whole range is sorted. */
  lemma SortedAroundPivot(key: Task -> nat, s0: seq<Task>, s1: seq<Task>, s2: seq<Task>, s3: seq<Task>, low: int, p: int, high: int)
    requires 0 <= low <= p <= high < |s1|
    requires Rearranged(s0, s1, low, high)
    requires forall k :: low <= k < p ==> key(s1[k]) <= key(s1[p])
    requires forall k :: p < k <= high ==> key(s1[p]) <= key(s1[k])
    requires Rearranged(s1, s2, low, p - 1) && SortedRange(key, s2, low, p - 1)
    requires Rearranged(s2, s3, p + 1, high) && SortedRange(key, s3, p + 1, high)
    ensures SortedRange(key, s3, low, high)
    ensures Rearranged(s0, s3, low, high)
  {
    RearrangedBothSides(s0, s1, s2, s3, low, p, high);
    var v := key(s1[p]);
    assert s2[p] == s1[p] by { assert s1[p..][0] == s2[p..][0]; }
    assert s3[p] == s2[p] by { assert s2[..p + 1][p] == s3[..p + 1][p]; }
    BoundAboveKept(key, s1, s2, low, p - 1, v);
    BoundBelowKept(key, s2, s3, p + 1, high, v);
    forall k | low <= k < p
      ensures s3[k] == s2[k]
    {
      assert s2[..p + 1][k] == s3[..p + 1][k];
    }
    forall k | p < k <= high
      ensures v <= key(s2[k])
    {
      assert s1[p..][k - p] == s2[p..][k - p];
    }
    SortedJoin(key, s2, s3, low, p, high, v);
  }

  /** A sorted left side no higher than the pivot, the pivot, a sorted right side no lower: all sorted. */
  lemma SortedJoin(key: Task -> nat, s2: seq<Task>, s3: seq<Task>, low: int, p: int, high: int, v: int)
    requires 0 <= low <= p <= high < |s2| == |s3|
    requires forall k :: low <= k < p ==> s3[k] == s2[k]
    requires SortedRange(key, s2, low, p - 1) && forall k :: low <= k < p ==> key(s2[k]) <= v
    requires key(s3[p]) == v
    requires SortedRange(key, s3, p + 1, high) && forall k :: p < k <= high ==> v <= key(s3[k])
    ensures SortedRange(key, s3, low, high)
  {
  }

  /** Rearranging both sides of the pivot rearranges the whole range. */
  lemma RearrangedBothSides(s0: seq<Task>, s1: seq<Task>, s2: seq<Task>, s3: seq<Task>, low: int, p: int, high: int)
    requires 0 <= low <= p <= high < |s1|
    requires Rearranged(s0, s1, low, high)
    requires Rearranged(s1, s2, low, p - 1) && Rearranged(s2, s3, p + 1, high)
    ensures Rearranged(s0, s3, low, high)
  {
    Widen(s1, s2, low, high, low, p - 1);
    Widen(s2, s3, low, high, p + 1, high);
    RearrangedTrans(s0, s1, s2, low, high);
    RearrangedTrans(s0, s2, s3, low, high);
  }

  /** The caller's sort: the whole array, `quick_sort_tasks(&mut tasks, 0, len - 1)`. */
  method SortTasks(a: array<Task>)
    modifies a
    ensures SortedByPriority(a[..])
    ensures multiset(a[..]) == multiset(old(a[..]))
  {
    QuickSortTasks(TaskPriority, a, 0, a.Length - 1);
    assert a[..] == a[0..a.Length] && old(a[..]) == old(a[..])[0..a.Length];
  }
}
