// mergesort.c in place: merge through a temporary array, and sort with each thread run to its end at once.
module MergeSortInPlace {
  import opened StableSort
  import opened ParallelSort

  /** The merge of what the first loop of merge has still to read. */
  ghost function Rest(s: seq<Item>, left: nat, border: nat, right: nat): seq<Item>
    requires left <= border <= |s| && right <= |s|
  {
    Merge(s[left..border], s[right..])
  }

  lemma LeftNext(done: seq<Item>, s: seq<Item>, left: nat, border: nat, right: nat)
    requires left < border <= right <= |s| && (right == |s| || s[left].key <= s[right].key)
    ensures done + [s[left]] + Rest(s, left + 1, border, right) == done + Rest(s, left, border, right)
  {
  }

  lemma RightNext(done: seq<Item>, s: seq<Item>, left: nat, border: nat, right: nat)
    requires left <= border <= right < |s| && (left == border || s[right].key < s[left].key)
    ensures done + [s[right]] + Rest(s, left, border, right + 1) == done + Rest(s, left, border, right)
  {
  }

  lemma RestEnds(s: seq<Item>, left: nat, border: nat, right: nat)
    requires left <= border <= |s| && right <= |s|
    ensures left == border && right == |s| ==> Rest(s, left, border, right) == []
    ensures left == 0 && right == border ==> Rest(s, left, border, right) == Merge(s[..border], s[border..])
  {
  }

  /** The first loop of merge: x[i] comes from the left part or the right part. */
  method PickAll(arr: array<Item>, lo: nat, n: nat, border: nat, x: array<Item>)
    requires lo + n <= arr.Length && border <= n && x.Length == n && x != arr
    modifies x
    ensures x[..] == Merge(arr[lo..lo + n][..border], arr[lo..lo + n][border..])
  {
    hide Rest, Merge;
    var left, right := 0, border;
    ghost var s := arr[lo..lo + n];
    ghost var merged := Rest(s, 0, border, border);
    RestEnds(s, 0, border, border);
    assert x[..0] + merged == merged;
    for i := 0 to n
      invariant left <= border <= right <= n && left + right == border + i
      invariant x[..i] + Rest(s, left, border, right) == merged
    {
      assert left < border ==> arr[lo + left] == s[left];
      assert right < n ==> arr[lo + right] == s[right];
      ghost var done := x[..i];
      if right == n {
        LeftNext(done, s, left, border, right);
        x[i] := arr[lo + left];
        left := left + 1;
      } else if left == border {
        RightNext(done, s, left, border, right);
        x[i] := arr[lo + right];
        right := right + 1;
      } else if arr[lo + right].key < arr[lo + left].key {
        RightNext(done, s, left, border, right);
        x[i] := arr[lo + right];
        right := right + 1;
      } else {
        LeftNext(done, s, left, border, right);
        x[i] := arr[lo + left];
        left := left + 1;
      }
      assert x[..i + 1] == done + [x[i]];
    }
    RestEnds(s, left, border, right);
    assert x[..] == x[..n] + [];
  }

  /** t is s outside the slice of n items at lo. */
  ghost predicate SameBeside(s: seq<Item>, t: seq<Item>, lo: nat, n: nat) {
    |s| == |t| && forall i :: 0 <= i < |s| && !(lo <= i < lo + n) ==> t[i] == s[i]
  }

  /** The second loop of merge: x goes back into the slice at lo. */
  method CopyBack(x: array<Item>, arr: array<Item>, lo: nat)
    requires x != arr && lo + x.Length <= arr.Length
    modifies arr
    ensures arr[lo..lo + x.Length] == x[..]
    ensures SameBeside(old(arr[..]), arr[..], lo, x.Length)
  {
    for i := 0 to x.Length
      invariant arr[lo..lo + i] == x[..i]
      invariant forall k :: 0 <= k < arr.Length && !(lo <= k < lo + i) ==> arr[k] == old(arr[k])
    {
      arr[lo + i] := x[i];
    }
    assert x[..x.Length] == x[..];
  }

  /** merge(arr + lo, n, border) */
  method MergeParts(arr: array<Item>, lo: nat, n: nat, border: nat)
    requires lo + n <= arr.Length && border <= n
    modifies arr
    ensures arr[lo..lo + n] == Merge(old(arr[lo..lo + border]), old(arr[lo + border..lo + n]))
    ensures SameBeside(old(arr[..]), arr[..], lo, n)
  {
    hide Merge;
    var x := new Item[n](_ => Item(0, 0));
    ghost var s := arr[lo..lo + n];
    assert s[..border] == arr[lo..lo + border] && s[border..] == arr[lo + border..lo + n];
    PickAll(arr, lo, n, border, x);
    CopyBack(x, arr, lo);
  }

  lemma SliceBeside(s: seq<Item>, t: seq<Item>, lo: nat, n: nat, from: nat, to: nat)
    requires SameBeside(s, t, lo, n) && from <= to <= |s| && (to <= lo || lo + n <= from)
    ensures t[from..to] == s[from..to]
  {
  }

  /** From `start` the left half was sorted, giving `half`, then the right one, giving `whole`. */
  lemma HalvesMerge(start: seq<Item>, half: seq<Item>, whole: seq<Item>, lo: nat, mid: nat, hi: nat)
    requires lo <= mid <= hi <= |start|
    requires SameBeside(start, half, lo, mid - lo) && IsStableSort(half[lo..mid], start[lo..mid])
    requires SameBeside(half, whole, mid, hi - mid) && IsStableSort(whole[mid..hi], half[mid..hi])
    ensures IsStableSort(Merge(whole[lo..mid], whole[mid..hi]), start[lo..hi])
  {
    hide Merge, IsStableSort;
    SliceBeside(start, half, lo, mid - lo, mid, hi);
    SliceBeside(half, whole, mid, hi - mid, lo, mid);
    MergeIsStable(whole[lo..mid], whole[mid..hi], start[lo..mid], start[mid..hi]);
    assert start[lo..hi] == start[lo..mid] + start[mid..hi];
  }

  /** sort(arr + lo, n, tcnt), the left half sorted to the end before the right one is begun. */
  method Sort(arr: array<Item>, lo: nat, n: nat, tcnt: nat)
    requires lo + n <= arr.Length
    modifies arr
    ensures IsStableSort(arr[lo..lo + n], old(arr[lo..lo + n]))
    ensures SameBeside(old(arr[..]), arr[..], lo, n)
    decreases Rank(n, tcnt), 1
  {
    if n < 2 {
      return;
    }
    hide Merge, IsStableSort;
    var border := Border(n, tcnt);
    SortHalves(arr, lo, n, border, tcnt);
    MergeParts(arr, lo, n, border);
  }

  /** The two calls in sort, on either side of the border. */
  method SortHalves(arr: array<Item>, lo: nat, n: nat, border: nat, tcnt: nat)
    requires lo + n <= arr.Length && n >= 2 && border == Border(n, tcnt)
    modifies arr
    ensures IsStableSort(Merge(arr[lo..lo + border], arr[lo + border..lo + n]), old(arr[lo..lo + n]))
    ensures SameBeside(old(arr[..]), arr[..], lo, n)
    decreases Rank(n, tcnt), 0
  {
    ghost var start := arr[..];
    Sort(arr, lo, border, 1);
    ghost var half := arr[..];
    Sort(arr, lo + border, n - border, Passed(tcnt));
    hide Merge, IsStableSort;
    HalvesMerge(start, half, arr[..], lo, lo + border, lo + n);
    assert start[lo..lo + n] == old(arr[lo..lo + n]);
    assert arr[..][lo..lo + border] == arr[lo..lo + border] && arr[..][lo + border..lo + n] == arr[lo + border..lo + n];
  }
}
