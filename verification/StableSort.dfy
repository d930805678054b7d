// Stable sorting of keyed items: what both halves of the merge sort are measured against.
module StableSort {
  /** An array element: `<` in the C code compares keys, the tag tells equal keys apart. */
  datatype Item = Item(key: int, tag: int)

  ghost predicate Sorted(s: seq<Item>) {
    forall i, j :: 0 <= i < j < |s| ==> s[i].key <= s[j].key
  }

  /** The items with key k, in order. */
  ghost function Filter(s: seq<Item>, k: int): seq<Item> {
    if s == [] then []
    else if s[0].key == k then [s[0]] + Filter(s[1..], k)
    else Filter(s[1..], k)
  }

  /** out is sorted and keeps the items of each key in the order they had in s. */
  ghost predicate IsStableSort(out: seq<Item>, s: seq<Item>) {
    Sorted(out) && forall k :: Filter(out, k) == Filter(s, k)
  }

  /** mergesort.c's merge: the left part goes first unless the right one is strictly smaller. */
  function Merge(l: seq<Item>, r: seq<Item>): (m: seq<Item>)
    ensures |m| == |l| + |r|
    decreases |l| + |r|
  {
    if r == [] then l
    else if l == [] then r
    else if r[0].key < l[0].key then [r[0]] + Merge(l, r[1..])
    else [l[0]] + Merge(l[1..], r)
  }

  lemma {:induction false} FilterConcat(a: seq<Item>, b: seq<Item>, k: int)
    ensures Filter(a + b, k) == Filter(a, k) + Filter(b, k)
  {
    if a == [] {
      assert a + b == b;
    } else {
      assert (a + b)[1..] == a[1..] + b;
      FilterConcat(a[1..], b, k);
    }
  }

  lemma {:induction false} FilterAbsent(s: seq<Item>, k: int)
    requires forall i :: 0 <= i < |s| ==> s[i].key != k
    ensures Filter(s, k) == []
  {
    if s != [] {
      FilterAbsent(s[1..], k);
    }
  }

  lemma {:induction false} FilterMembers(s: seq<Item>, k: int)
    ensures forall x :: x in Filter(s, k) <==> x in s && x.key == k
    ensures multiset(Filter(s, k)) <= multiset(s)
    ensures forall x: Item :: x.key == k ==> multiset(Filter(s, k))[x] == multiset(s)[x]
  {
    if s != [] {
      assert s == [s[0]] + s[1..];
      FilterMembers(s[1..], k);
    }
  }

  lemma FilterRightFirst(x: Item, l: seq<Item>, r: seq<Item>, m: seq<Item>, k: int)
    requires Filter(m, k) == Filter(l, k) + Filter(r, k) && (x.key == k ==> Filter(l, k) == [])
    ensures Filter([x] + m, k) == Filter(l, k) + Filter([x] + r, k)
  {
  }

  lemma FilterLeftFirst(x: Item, l: seq<Item>, r: seq<Item>, m: seq<Item>, k: int)
    requires Filter(m, k) == Filter(l, k) + Filter(r, k)
    ensures Filter([x] + m, k) == Filter([x] + l, k) + Filter(r, k)
  {
  }

  lemma {:induction false} MergeFilter(l: seq<Item>, r: seq<Item>, k: int)
    requires Sorted(l) && Sorted(r)
    ensures Filter(Merge(l, r), k) == Filter(l, k) + Filter(r, k)
    decreases |l| + |r|
  {
    if r == [] || l == [] {
    } else if r[0].key < l[0].key {
      if r[0].key == k {
        FilterAbsent(l, k);
      }
      MergeFilter(l, r[1..], k);
      FilterRightFirst(r[0], l, r[1..], Merge(l, r[1..]), k);
      hide Filter, Sorted;
      assert r == [r[0]] + r[1..];
    } else {
      MergeFilter(l[1..], r, k);
      FilterLeftFirst(l[0], l[1..], r, Merge(l[1..], r), k);
      hide Filter, Sorted;
      assert l == [l[0]] + l[1..];
    }
  }

  lemma SortedCons(a: Item, s: seq<Item>)
    requires Sorted(s) && forall x :: x in s ==> a.key <= x.key
    ensures Sorted([a] + s)
  {
  }

  lemma SortedTail(s: seq<Item>)
    requires Sorted(s) && s != []
    ensures Sorted(s[1..]) && forall x :: x in s ==> s[0].key <= x.key
  {
  }

  lemma {:induction false} MergeSorted(l: seq<Item>, r: seq<Item>)
    requires Sorted(l) && Sorted(r)
    ensures Sorted(Merge(l, r))
    ensures forall x :: x in Merge(l, r) ==> x in l || x in r
    decreases |l| + |r|
  {
    hide Sorted;
    if r == [] || l == [] {
    } else if r[0].key < l[0].key {
      SortedTail(l);
      SortedTail(r);
      MergeSorted(l, r[1..]);
      SortedCons(r[0], Merge(l, r[1..]));
    } else {
      SortedTail(l);
      SortedTail(r);
      MergeSorted(l[1..], r);
      SortedCons(l[0], Merge(l[1..], r));
    }
  }

  lemma {:induction false} MergeItems(l: seq<Item>, r: seq<Item>)
    ensures multiset(Merge(l, r)) == multiset(l) + multiset(r)
    decreases |l| + |r|
  {
    if l == [] || r == [] {
    } else if r[0].key < l[0].key {
      MergeItems(l, r[1..]);
      FirstItem(r);
    } else {
      MergeItems(l[1..], r);
      FirstItem(l);
    }
  }

  lemma FirstItem(s: seq<Item>)
    requires s != []
    ensures multiset(s) == multiset{s[0]} + multiset(s[1..])
  {
    assert s == [s[0]] + s[1..];
  }

  /** Merging stable sorts of two halves sorts the whole stably. */
  lemma MergeIsStable(l: seq<Item>, r: seq<Item>, a: seq<Item>, b: seq<Item>)
    requires IsStableSort(l, a) && IsStableSort(r, b)
    ensures IsStableSort(Merge(l, r), a + b)
  {
    MergeSorted(l, r);
    forall k ensures Filter(Merge(l, r), k) == Filter(a + b, k) {
      MergeFilter(l, r, k);
      FilterConcat(a, b, k);
    }
  }

  lemma SameFiltersSameItems(a: seq<Item>, b: seq<Item>)
    requires forall k :: Filter(a, k) == Filter(b, k)
    ensures multiset(a) == multiset(b)
  {
    forall x: Item ensures multiset(a)[x] == multiset(b)[x] {
      FilterMembers(a, x.key);
      FilterMembers(b, x.key);
      assert Filter(a, x.key) == Filter(b, x.key);
    }
  }

  /** There is only one stable sort, and it is a permutation. */
  lemma {:induction false} StableSortUnique(a: seq<Item>, b: seq<Item>, s: seq<Item>)
    requires IsStableSort(a, s) && IsStableSort(b, s)
    ensures a == b && multiset(a) == multiset(s)
  {
    forall k ensures Filter(a, k) == Filter(b, k) {
      assert Filter(a, k) == Filter(s, k) == Filter(b, k);
    }
    SortedByFilters(a, b);
    SameFiltersSameItems(a, s);
  }

  lemma {:induction false} SortedByFilters(a: seq<Item>, b: seq<Item>)
    requires Sorted(a) && Sorted(b) && forall k :: Filter(a, k) == Filter(b, k)
    ensures a == b
  {
    SameFiltersSameItems(a, b);
    if a == [] {
      assert |multiset(b)| == 0;
    } else {
      FirstIsLeast(a, b);
      FirstIsLeast(b, a);
      assert Filter(a, a[0].key)[0] == a[0] && Filter(b, a[0].key)[0] == b[0];
      assert a == [a[0]] + a[1..] && b == [b[0]] + b[1..];
      forall k ensures Filter(a[1..], k) == Filter(b[1..], k) {
        TailFilter(a, b, k);
      }
      SortedByFilters(a[1..], b[1..]);
    }
  }

  lemma TailFilter(a: seq<Item>, b: seq<Item>, k: int)
    requires a != [] && b != [] && a[0] == b[0] && Filter(a, k) == Filter(b, k)
    ensures Filter(a[1..], k) == Filter(b[1..], k)
  {
    if a[0].key == k {
      assert Filter(a[1..], k) == Filter(a, k)[1..];
      assert Filter(b[1..], k) == Filter(b, k)[1..];
    }
  }

  lemma FirstIsLeast(a: seq<Item>, b: seq<Item>)
    requires a != [] && Sorted(a) && multiset(a) == multiset(b)
    ensures b != [] && a[0].key <= b[0].key
  {
    assert a[0] in multiset(b);
    assert b[0] in multiset(a);
  }
}
