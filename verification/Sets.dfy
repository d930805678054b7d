// Sizes of finite sets and of their images under a map.
module Sets {

  ghost function Image<A, B>(a: set<A>, f: map<A, B>): set<B>
    requires a <= f.Keys
  {
    set x | x in a :: f[x]
  }

  lemma {:induction false} ImageSize<A, B>(a: set<A>, f: map<A, B>)
    requires a <= f.Keys
    requires forall x, y :: x in a && y in a && f[x] == f[y] ==> x == y
    ensures |Image(a, f)| == |a|
  {
    if a != {} {
      var e :| e in a;
      ImageSize(a - {e}, f);
      assert Image(a, f) == Image(a - {e}, f) + {f[e]};
    }
  }

  lemma {:induction false} ImageAtMost<A, B>(a: set<A>, f: map<A, B>)
    requires a <= f.Keys
    ensures |Image(a, f)| <= |a|
  {
    if a != {} {
      var e :| e in a;
      ImageAtMost(a - {e}, f);
      assert Image(a, f) == Image(a - {e}, f) + {f[e]};
    }
  }

  lemma SubsetSize<T>(a: set<T>, b: set<T>)
    requires a <= b
    ensures |a| <= |b|
    ensures a != b ==> |a| < |b|
  {
    assert b == a + (b - a);
    assert a != b ==> |b - a| > 0;
  }

  /** A larger set has a member that the smaller one lacks. */
  lemma MissingMember<T>(a: set<T>, b: set<T>) returns (x: T)
    requires |a| < |b|
    ensures x in b && x !in a
  {
    if b <= a {
      SubsetSize(b, a);
    }
    x :| x in b && x !in a;
  }

  /** The numbers 1 to n. */
  ghost function OneTo(n: nat): (r: set<nat>)
    ensures forall x: nat :: x in r <==> 1 <= x <= n
    ensures |r| == n
  {
    if n == 0 then {} else OneTo(n - 1) + {n}
  }

  ghost function Member<A>(a: set<A>): (x: A)
    requires |a| > 0
    ensures x in a
  {
    var x :| x in a;
    x
  }

  /** A bijection between sets of equal size. */
  ghost function Pair<A, B>(a: set<A>, b: set<B>): (f: map<A, B>)
    requires |a| == |b|
    ensures f.Keys == a
    decreases |a|
  {
    if a == {} then map[] else Pair(a - {Member(a)}, b - {Member(b)})[Member(a) := Member(b)]
  }

  lemma {:induction false} PairBijective<A, B>(a: set<A>, b: set<B>)
    requires |a| == |b|
    ensures Pair(a, b).Values == b
    ensures forall x, y :: x in a && y in a && x != y ==> Pair(a, b)[x] != Pair(a, b)[y]
    decreases |a|
  {
    if a != {} {
      var x, y := Member(a), Member(b);
      var f := Pair(a - {x}, b - {y});
      PairBijective(a - {x}, b - {y});
      PairExtends(f, x, y);
      assert Pair(a, b) == f[x := y];
      forall z | z in a && z != x ensures f[z] != y {
        assert f[z] in f.Values;
      }
    }
  }

  lemma PairExtends<A, B>(f: map<A, B>, x: A, y: B)
    requires x !in f && y !in f.Values
    ensures f[x := y].Values == f.Values + {y}
  {
    var g := f[x := y];
    assert x in g && g[x] == y;
    forall v | v in f.Values ensures v in g.Values {
      var z :| z in f && f[z] == v;
      assert z in g && g[z] == v;
    }
  }
}
