// merge_sort.c: bottom-up passes between two buffers, and the parity of the passes.
module BottomUpSort {
  import opened Bits
  import opened StableSort

  /** This merge takes from the left part only if it is strictly smaller: the right part goes first on ties. */
  function RightFirst(l: seq<Item>, r: seq<Item>): (m: seq<Item>)
    ensures |m| == |l| + |r|
  {
    Merge(r, l)
  }

  lemma RightFirstItems(l: seq<Item>, r: seq<Item>)
    ensures multiset(RightFirst(l, r)) == multiset(l) + multiset(r)
  {
    MergeItems(r, l);
  }

  /** Of equal keys those of the right part go first, each part's in their order. */
  lemma RightFirstTies(l: seq<Item>, r: seq<Item>, k: int)
    requires Sorted(l) && Sorted(r)
    ensures Sorted(RightFirst(l, r)) && Filter(RightFirst(l, r), k) == Filter(r, k) + Filter(l, k)
  {
    MergeSorted(r, l);
    MergeFilter(r, l, k);
  }

  function Min(a: nat, b: nat): nat { if a < b then a else b }

  /** One pass: neighbouring blocks of size h are merged. */
  function Pass(a: seq<Item>, h: nat): (b: seq<Item>)
    requires h >= 1
    ensures |b| == |a|
    decreases |a|
  {
    if a == [] then []
    else
      var m, e := Min(h, |a|), Min(2 * h, |a|);
      RightFirst(a[..m], a[m..e]) + Pass(a[e..], h)
  }

  /** Every block of size h is sorted. */
  ghost predicate Blocks(a: seq<Item>, h: nat)
    requires h >= 1
    decreases |a|
  {
    a == [] || (Sorted(a[..Min(h, |a|)]) && Blocks(a[Min(h, |a|)..], h))
  }

  lemma SplitItems(a: seq<Item>, m: nat, e: nat)
    requires m <= e <= |a|
    ensures multiset(a) == multiset(a[..m]) + multiset(a[m..e]) + multiset(a[e..])
  {
    assert a == a[..m] + a[m..e] + a[e..];
  }

  lemma {:induction false} PassItems(a: seq<Item>, h: nat)
    requires h >= 1
    ensures multiset(Pass(a, h)) == multiset(a)
    decreases |a|
  {
    hide RightFirst;
    if a != [] {
      var m, e := Min(h, |a|), Min(2 * h, |a|);
      SplitItems(a, m, e);
      RightFirstItems(a[..m], a[m..e]);
      PassItems(a[e..], h);
    }
  }

  lemma FirstTwoBlocks(a: seq<Item>, h: nat)
    requires h >= 1 && a != [] && Blocks(a, h)
    ensures var m, e := Min(h, |a|), Min(2 * h, |a|);
            Sorted(a[..m]) && Sorted(a[m..e]) && Blocks(a[e..], h)
  {
    hide Sorted;
    var m, e := Min(h, |a|), Min(2 * h, |a|);
    var rest := a[m..];
    if rest != [] {
      assert rest[..Min(h, |rest|)] == a[m..e];
      assert rest[Min(h, |rest|)..] == a[e..];
    } else {
      assert a[m..e] == [] && a[e..] == [] && Sorted([]) by { EmptySorted(); }
    }
  }

  lemma EmptySorted()
    ensures Sorted([])
  {
  }

  lemma {:induction false} PassBlocks(a: seq<Item>, h: nat)
    requires h >= 1 && Blocks(a, h)
    ensures Blocks(Pass(a, h), 2 * h)
    decreases |a|
  {
    if a != [] {
      var m, e := Min(h, |a|), Min(2 * h, |a|);
      FirstTwoBlocks(a, h);
      MergeSorted(a[m..e], a[..m]);
      PassBlocks(a[e..], h);
      assert Pass(a, h)[..e] == RightFirst(a[..m], a[m..e]);
      assert Pass(a, h)[e..] == Pass(a[e..], h);
    }
  }

  lemma {:induction false} SingleBlocks(a: seq<Item>)
    ensures Blocks(a, 1)
    decreases |a|
  {
    if a != [] {
      SingleBlocks(a[1..]);
    }
  }

  // ---------- the parity mask ----------

  const PARITY_MASK: nat := 0x5555555555555555

  function Mask(n: nat): nat {
    if n == 0 then 0 else 4 * Mask(n - 1) + 1
  }

  lemma AndEven(a: nat, b: nat)
    ensures And(a, 2 * b) == 2 * And(a / 2, b)
  {
    assert 2 * b / 2 == b && 2 * b % 2 == 0;
    assert a > 0 && b > 0 ==> And(a, 2 * b) == 2 * And(a / 2, 2 * b / 2);
  }

  lemma AndZero(a: nat)
    ensures And(0, a) == 0
  {
  }

  lemma AndOne(h: nat)
    ensures And(2 * h + 1, Pow2(0)) == 1
  {
    assert Pow2(0) == 1;
    hide Pow2;
    assert (2 * h + 1) / 2 == h && And(h, 0) == 0;
  }

  /** Two bits further up the mask looks the same; its second bit is clear. */
  lemma MaskHalves(m: nat, k: nat)
    requires k >= 1
    ensures k == 1 ==> And(4 * m + 1, Pow2(k)) == 0
    ensures k >= 2 ==> And(4 * m + 1, Pow2(k)) == 4 * And(m, Pow2(k - 2))
  {
    AndEven(4 * m + 1, Pow2(k - 1));
    assert (4 * m + 1) / 2 == 2 * m;
    if k == 1 {
      assert And(2 * m, 1) == 0;
    } else {
      AndEven(2 * m, Pow2(k - 2));
    }
  }

  lemma MaskUnfolds(n: nat)
    ensures Mask(n) == if n == 0 then 0 else 4 * Mask(n - 1) + 1
  {
  }

  /** Of the 2 * n lowest bits of Mask(n) the even ones are set, and no other bit. */
  lemma {:induction false} MaskBits(n: nat, j: nat)
    ensures And(Mask(n), Pow2(2 * j)) != 0 <==> j < n
    ensures And(Mask(n), Pow2(2 * j + 1)) == 0
    decreases j
  {
    MaskUnfolds(n);
    hide *;
    if n == 0 {
      AndZero(Pow2(2 * j));
      AndZero(Pow2(2 * j + 1));
    } else if j == 0 {
      AndOne(2 * Mask(n - 1));
      MaskHalves(Mask(n - 1), 1);
    } else {
      MaskHalves(Mask(n - 1), 2 * j);
      MaskHalves(Mask(n - 1), 2 * j + 1);
      MaskBits(n - 1, j - 1);
    }
  }

  /** The mask selects sz == 2^k exactly for even k. */
  lemma ParityMask(k: nat)
    requires k < 64
    ensures And(PARITY_MASK, Pow2(k)) != 0 <==> k % 2 == 0
  {
    hide *;
    MaskOfWord();
    var j := k / 2;
    MaskBits(32, j);
    if k % 2 == 0 {
      assert k == 2 * j;
    } else {
      assert k == 2 * j + 1;
    }
  }

  lemma MaskOfWord()
    ensures Mask(32) == PARITY_MASK
  {
    assert Mask(8) == 0x5555;
    assert Mask(16) == 0x55555555;
    assert Mask(24) == 0x555555555555;
  }

  // ---------- the methods ----------

  /** The merge of what the loop of merge has still to read. */
  ghost function Rest(a: seq<Item>, s: nat, m: nat, s2: nat, e: nat): seq<Item>
    requires s <= m <= |a| && s2 <= e <= |a|
  {
    RightFirst(a[s..m], a[s2..e])
  }

  lemma RestLeft(done: seq<Item>, a: seq<Item>, s: nat, m: nat, s2: nat, e: nat)
    requires s < m <= |a| && s2 < e <= |a| && a[s].key < a[s2].key
    ensures done + [a[s]] + Rest(a, s + 1, m, s2, e) == done + Rest(a, s, m, s2, e)
  {
  }

  lemma RestRight(done: seq<Item>, a: seq<Item>, s: nat, m: nat, s2: nat, e: nat)
    requires s < m <= |a| && s2 < e <= |a| && a[s2].key <= a[s].key
    ensures done + [a[s2]] + Rest(a, s, m, s2 + 1, e) == done + Rest(a, s, m, s2, e)
  {
  }

  lemma RestEnds(a: seq<Item>, s: nat, m: nat, s2: nat, e: nat)
    requires s <= m <= |a| && s2 <= e <= |a|
    ensures s == m ==> Rest(a, s, m, s2, e) == a[s2..e]
    ensures s2 == e ==> Rest(a, s, m, s2, e) == a[s..m]
  {
  }

  /** memcpy of n elements */
  method CopyRange(src: array<Item>, from: nat, dst: array<Item>, to: nat, n: nat)
    requires src != dst && from + n <= src.Length && to + n <= dst.Length
    modifies dst
    ensures dst[..to] == old(dst[..to]) && dst[to..to + n] == src[from..from + n] && dst[to + n..] == old(dst[to + n..])
  {
    for k := 0 to n
      invariant dst[..to] == old(dst[..to]) && dst[to + k..] == old(dst[to + k..])
      invariant dst[to..to + k] == src[from..from + k]
    {
      dst[to + k] := src[from + k];
    }
  }

  /** The loop of merge, until one part is used up. */
  method MergeHeads(src: array<Item>, dst: array<Item>, s0: nat, m: nat, e: nat) returns (s: nat, i: nat, s2: nat)
    requires src != dst && src.Length == dst.Length && s0 <= m <= e <= src.Length
    modifies dst
    ensures s0 <= s <= m <= s2 <= e && i + m == s + s2 && (s == m || s2 == e)
    ensures dst[..s0] == old(dst[..s0]) && dst[e..] == old(dst[e..])
    ensures dst[s0..i] + Rest(src[..], s, m, s2, e) == Rest(src[..], s0, m, m, e)
  {
    hide RightFirst, Rest;
    s, i, s2 := s0, s0, m;
    ghost var a := src[..];
    ghost var all := Rest(a, s0, m, m, e);
    assert dst[s0..s0] + all == all;
    while s < m && s2 < e
      invariant s0 <= s <= m <= s2 <= e && i + m == s + s2
      invariant dst[..s0] == old(dst[..s0]) && dst[e..] == old(dst[e..])
      invariant dst[s0..i] + Rest(a, s, m, s2, e) == all
    {
      ghost var done := dst[s0..i];
      assert src[s] == a[s] && src[s2] == a[s2];
      if src[s].key < src[s2].key {
        RestLeft(done, a, s, m, s2, e);
        dst[i] := src[s];
        s := s + 1;
      } else {
        RestRight(done, a, s, m, s2, e);
        dst[i] := src[s2];
        s2 := s2 + 1;
      }
      i := i + 1;
      assert dst[s0..i] == done + [dst[i - 1]];
    }
  }

  lemma SliceSplit(a: array<Item>, lo: nat, mid: nat, hi: nat)
    requires lo <= mid <= hi <= a.Length
    ensures a[lo..hi] == a[lo..mid] + a[mid..hi]
  {
  }

  /** The two memcpy branches of merge: at most one part is left. */
  method CopyTail(src: array<Item>, dst: array<Item>, s: nat, m: nat, s2: nat, e: nat, i: nat)
    requires src != dst && src.Length == dst.Length && s <= m <= s2 <= e <= src.Length && (s == m || s2 == e)
    requires i + m == s + s2
    modifies dst
    ensures dst[..i] == old(dst[..i]) && dst[i..e] == Rest(src[..], s, m, s2, e) && dst[e..] == old(dst[e..])
  {
    RestEnds(src[..], s, m, s2, e);
    hide Rest, RightFirst;
    if s < m {
      assert i + (m - s) == e;
      CopyRange(src, s, dst, i, m - s);
    } else if s2 < e {
      assert i + (e - s2) == e;
      CopyRange(src, s2, dst, i, e - s2);
    }
  }

  lemma PrefixOf(s: seq<Item>, t: seq<Item>, i: nat, lo: nat)
    requires lo <= i <= |s| && i <= |t| && s[..i] == t[..i]
    ensures s[..lo] == t[..lo] && s[lo..i] == t[lo..i]
  {
    assert s[..lo] == s[..i][..lo] && s[lo..i] == s[..i][lo..];
  }

  /** merge(src, dst, s0, m, e) */
  method MergeRanges(src: array<Item>, dst: array<Item>, s0: nat, m: nat, e: nat)
    requires src != dst && src.Length == dst.Length && s0 <= m <= e <= src.Length
    modifies dst
    ensures dst[..s0] == old(dst[..s0]) && dst[e..] == old(dst[e..])
    ensures dst[s0..e] == RightFirst(src[..][s0..m], src[..][m..e])
  {
    hide RightFirst, Rest;
    RestIsMerge(src[..], s0, m, m, e);
    var s, i, s2 := MergeHeads(src, dst, s0, m, e);
    ghost var was := dst[..];
    CopyTail(src, dst, s, m, s2, e, i);
    assert dst[..][..i] == was[..i] && dst[..][s0..i] == dst[s0..i] && was[e..] == old(dst[e..]);
    PrefixOf(dst[..], was, i, s0);
    SliceSplit(dst, s0, i, e);
  }

  lemma RestIsMerge(a: seq<Item>, s: nat, m: nat, s2: nat, e: nat)
    requires s <= m <= |a| && s2 <= e <= |a|
    ensures Rest(a, s, m, s2, e) == RightFirst(a[s..m], a[s2..e])
  {
  }

  /** One turn of the inner loop: the blocks from s on. */
  lemma PassTurn(done: seq<Item>, a: seq<Item>, s: nat, h: nat)
    requires h >= 1 && s < |a|
    ensures var m, e := Min(s + h, |a|), Min(s + 2 * h, |a|);
            done + RightFirst(a[s..m], a[m..e]) + Pass(a[e..], h) == done + Pass(a[s..], h)
  {
    hide RightFirst;
    var rest := a[s..];
    var m, e := Min(s + h, |a|), Min(s + 2 * h, |a|);
    assert rest[..Min(h, |rest|)] == a[s..m];
    assert rest[Min(h, |rest|)..Min(2 * h, |rest|)] == a[m..e];
    assert rest[Min(2 * h, |rest|)..] == a[e..];
    var x, y := RightFirst(a[s..m], a[m..e]), Pass(a[e..], h);
    assert Pass(rest, h) == x + y;
    assert done + x + y == done + (x + y);
  }

  /** One turn of the inner loop of sort. */
  method MergeBlocks(src: array<Item>, dst: array<Item>, s: nat, sz: nat) returns (e: nat)
    requires src != dst && src.Length == dst.Length && sz >= 2 && sz % 2 == 0 && s < src.Length
    modifies dst
    ensures e == Min(s + sz, src.Length)
    ensures dst[..e] + Pass(src[..][e..], sz / 2) == old(dst[..s]) + Pass(src[..][s..], sz / 2)
  {
    hide RightFirst, Pass;
    var m;
    m, e := s + sz / 2, s + sz;
    m, e := if m < src.Length then m else src.Length, if e < src.Length then e else src.Length;
    ghost var done := dst[..s];
    PassTurn(done, src[..], s, sz / 2);
    MergeRanges(src, dst, s, m, e);
    SliceSplit(dst, 0, s, e);
  }

  /** The inner loop of sort: one pass from src to dst. */
  method PassInto(src: array<Item>, dst: array<Item>, sz: nat)
    requires src != dst && src.Length == dst.Length && sz >= 2 && sz % 2 == 0
    modifies dst
    ensures dst[..] == Pass(src[..], sz / 2)
  {
    hide RightFirst, Pass;
    var len := src.Length;
    ghost var a, h := src[..], sz / 2;
    var s := 0;
    assert dst[..0] + Pass(a[0..], h) == Pass(a, h);
    while s < len
      invariant dst[..Min(s, len)] + Pass(a[Min(s, len)..], h) == Pass(a, h)
    {
      var _ := MergeBlocks(src, dst, s, sz);
      s := s + sz;
    }
    assert dst[..] == dst[..len];
    assert |Pass(a, h)| == len && |Pass(a[len..], h)| == 0;
  }

  /** What the passes keep: h-blocks sorted, items conserved, and which buffer holds the data. */
  ghost predicate AfterPasses(a: seq<Item>, was: seq<Item>, k: nat)
    requires k >= 1
  {
    Blocks(a, Pow2(k - 1)) && multiset(a) == multiset(was)
  }

  lemma NextPass(a: seq<Item>, was: seq<Item>, k: nat)
    requires k >= 1 && AfterPasses(a, was, k)
    ensures Pow2(k + 1) == 2 * Pow2(k) && Pow2(k) % 2 == 0 && Pow2(k) >= 2
    ensures AfterPasses(Pass(a, Pow2(k) / 2), was, k + 1)
  {
    assert Pow2(k) / 2 == Pow2(k - 1);
    PassItems(a, Pow2(k - 1));
    PassBlocks(a, Pow2(k - 1));
  }

  lemma LastPass(a: seq<Item>, was: seq<Item>, k: nat)
    requires k >= 1 && AfterPasses(a, was, k) && Pow2(k) >= 2 * |a|
    ensures Sorted(a) && multiset(a) == multiset(was)
  {
  }

  lemma BelowWordSize(k: nat, len: nat)
    requires len <= Pow2(62) && (k == 1 || Pow2(k) < 4 * len)
    ensures k < 64
  {
  }

  /** A pass on sorted blocks of size sz / 2. */
  method OnePass(a: array<Item>, wk: array<Item>, sz: nat, ghost orig: seq<Item>, ghost k: nat)
    requires a != wk && a.Length == wk.Length && k >= 1 && sz == Pow2(k) && AfterPasses(a[..], orig, k)
    modifies wk
    ensures AfterPasses(wk[..], orig, k + 1) && 2 * sz == Pow2(k + 1)
  {
    NextPass(a[..], orig, k);
    hide AfterPasses, Pow2, Pass;
    PassInto(a, wk, sz);
  }

  /** The passes: where the data ends up depends on the parity of their number. */
  method Passes(arr: array<Item>, calloced: array<Item>)
    returns (a: array<Item>, wk: array<Item>, sz: nat, ghost k: nat)
    requires arr != calloced && arr.Length == calloced.Length
    modifies arr, calloced
    ensures k >= 1 && sz == Pow2(k) && 2 * arr.Length <= sz && (k == 1 || sz < 4 * arr.Length)
    ensures if k % 2 == 1 then a == arr && wk == calloced else a == calloced && wk == arr
    ensures AfterPasses(a[..], old(arr[..]), k)
  {
    ghost var orig := arr[..];
    StartPasses(orig);
    hide *;
    a, wk, sz, k := arr, calloced, 2, 1;
    while sz < 2 * arr.Length
      invariant sz == Pow2(k) && k >= 1 && sz >= 2 && (k == 1 || sz < 4 * arr.Length)
      invariant if k % 2 == 1 then a == arr && wk == calloced else a == calloced && wk == arr
      invariant AfterPasses(a[..], orig, k)
      decreases 2 * arr.Length - sz
    {
      OnePass(a, wk, sz, orig, k);
      a, wk, sz, k := wk, a, 2 * sz, k + 1;
    }
  }

  /**
   * sort. `calloced` is the buffer calloc returned, `freed` the one passed to free. The bound on
   * the length keeps sz below 2^64.
   */
  method Sort(arr: array<Item>) returns (calloced: array<Item>, freed: array<Item>)
    requires arr.Length <= Pow2(62)
    modifies arr
    ensures Sorted(arr[..]) && multiset(arr[..]) == multiset(old(arr[..]))
    ensures freed == calloced && fresh(calloced)
  {
    hide AfterPasses, Sorted, And, Pow2;
    calloced := new Item[arr.Length](_ => Item(0, 0));
    var a, wk, sz, k := Passes(arr, calloced);
    LastPass(a[..], old(arr[..]), k);
    BelowWordSize(k, arr.Length);
    ParityMask(k);
    if And(PARITY_MASK, sz) != 0 {
      a, wk := wk, a;
      CopyRange(wk, 0, a, 0, arr.Length);
      assert a[..] == a[0..0 + arr.Length] == wk[0..0 + arr.Length] == wk[..];
    }
    freed := wk;
  }

  lemma StartPasses(a: seq<Item>)
    ensures Pow2(1) == 2 && AfterPasses(a, a, 1)
  {
    SingleBlocks(a);
  }
}
