// Which slots the probe loop of hashmap.c inspects.
module HashProbe {
  import opened Arith
  import opened Bits
  import opened HashTable
  import opened Sets

  /** 1 + 2 + ... + i */
  function Triangle(i: nat): nat {
    if i == 0 then 0 else i + Triangle(i - 1)
  }

  lemma {:induction false} TriangleDoubled(i: nat)
    ensures 2 * Triangle(i) == i + i * i
  {
    if i > 0 {
      TriangleDoubled(i - 1);
      assert i * i == (i - 1) * (i - 1) + 2 * i - 1;
    }
  }

  lemma OddHalf(a: nat, b: nat, c: nat)
    requires a % 2 == 1 && a * b == 2 * c
    ensures b % 2 == 0 && a * (b / 2) == c
  {
    var x, y := a / 2, b / 2;
    assert a * b == 2 * (x * b) + b;
    assert b == 2 * y ==> a * b == 2 * (a * y);
  }

  /** An odd factor takes no part in a power of two. */
  lemma {:induction false} OddFactor(a: nat, b: nat, q: nat, m: nat) returns (r: nat)
    requires a % 2 == 1 && a * b == q * Pow2(m)
    ensures b == r * Pow2(m)
    decreases m
  {
    r := b;
    if m > 0 {
      assert q * Pow2(m) == 2 * (q * Pow2(m - 1));
      OddHalf(a, b, q * Pow2(m - 1));
      r := OddFactor(a, b / 2, q, m - 1);
      assert r * Pow2(m) == 2 * (r * Pow2(m - 1));
    }
  }

  lemma MultipleTooSmall(b: nat, r: nat, p: nat)
    requires 0 < b < p
    ensures b != r * p
  {
  }

  lemma SameResidue(x: nat, y: nat, n: nat) returns (q: nat)
    requires n > 0 && x < y && x % n == y % n
    ensures 2 * (y - x) == q * (2 * n)
  {
    assert x == x / n * n + x % n && y == y / n * n + y % n;
    var d := y / n - x / n;
    assert y - x == d * n;
    assert d < 0 ==> d * n < 0;
    q := d;
  }

  lemma TriangleStep(i: nat, j: nat)
    requires i < j
    ensures Triangle(i) < Triangle(j)
    ensures 2 * (Triangle(j) - Triangle(i)) == (j - i) * (j + i + 1)
  {
  }

  /** Two small factors of different parity do not multiply to a multiple of the power of two. */
  lemma NoMultiple(a: nat, b: nat, q: nat, m: nat)
    requires 0 < a < Pow2(m) && 0 < b < Pow2(m) && a % 2 != b % 2
    ensures a * b != q * Pow2(m)
  {
    if a * b == q * Pow2(m) {
      if a % 2 == 1 {
        var r := OddFactor(a, b, q, m);
        MultipleTooSmall(b, r, Pow2(m));
      } else {
        var r := OddFactor(b, a, q, m);
        MultipleTooSmall(a, r, Pow2(m));
      }
    }
  }

  /** Modulo a power of two the first n triangular numbers are all different. */
  lemma TriangleInjective(k: nat, i: nat, j: nat)
    requires i < j < Pow2(k)
    ensures Triangle(i) % Pow2(k) != Triangle(j) % Pow2(k)
  {
    TriangleStep(i, j);
    hide Triangle;
    if Triangle(i) % Pow2(k) == Triangle(j) % Pow2(k) {
      var q := SameResidue(Triangle(i), Triangle(j), Pow2(k));
      OddSum(i, j);
      NoMultiple(j - i, j + i + 1, q, k + 1);
    }
  }

  lemma OddSum(i: nat, j: nat)
    requires i < j
    ensures (j - i) % 2 != (j + i + 1) % 2
  {
  }

  /** An injective map of 1..n into itself hits everything. */
  lemma SelfMapHits(n: nat, f: map<nat, nat>, r: nat) returns (x: nat)
    requires (forall x: nat :: x in f <==> 1 <= x <= n) && 1 <= r <= n
    requires forall x :: x in f ==> 1 <= f[x] <= n
    requires forall x, y :: x in f && y in f && x < y ==> f[x] != f[y]
    ensures 1 <= x <= n && x in f && f[x] == r
  {
    ImageSize(f.Keys, f);
    if r !in Image(f.Keys, f) {
      SubsetSize(Image(f.Keys, f), f.Keys);
    }
    x :| x in f && f[x] == r;
  }

  /** So they hit every nonzero residue. */
  lemma TriangleHits(k: nat, r: nat) returns (x: nat)
    requires 0 < r < Pow2(k)
    ensures 1 <= x < Pow2(k) && Triangle(x) % Pow2(k) == r
  {
    var xs := OneTo(Pow2(k) - 1);
    forall x | x in xs ensures 0 != Triangle(x) % Pow2(k) {
      TriangleInjective(k, 0, x);
      SmallMod(0, Pow2(k));
    }
    forall x, y | x in xs && y in xs && x < y ensures Triangle(x) % Pow2(k) != Triangle(y) % Pow2(k) {
      TriangleInjective(k, x, y);
    }
    hide Triangle;
    x := SelfMapHits(Pow2(k) - 1, map x | x in xs :: Triangle(x) % Pow2(k), r);
  }

  lemma ModShift(a: nat, t: nat, n: nat)
    requires n > 0
    ensures (a + t) % n == (a + t % n) % n
  {
    assert t == t / n * n + t % n;
    ModAddMultiple(a + t % n, t / n, n);
  }

  lemma {:induction false} ModAddMultiple(a: nat, q: nat, n: nat)
    requires n > 0
    ensures (a + q * n) % n == a % n
  {
    assert a == a / n * n + a % n;
    assert a + q * n == (a / n + q) * n + a % n;
    QuotientIs(a + q * n, n, a / n + q, a % n);
  }

  /** Probe 0 is the hash, a later one half the hash plus a triangular number. */
  lemma ProbeIsTriangle(h: nat, x: nat, n: nat)
    requires h < n
    ensures x == 0 ==> Probe(h, x, n) == h
    ensures x >= 1 ==> Probe(h, x, n) == (h / 2 + Triangle(x) % n) % n
  {
    TriangleDoubled(x);
    assert (h + x + x * x) / 2 == h / 2 + Triangle(x);
    ModShift(h / 2, Triangle(x), n);
  }

  lemma WrapStays(a: nat, t: nat, n: nat)
    requires a < n && t < n
    ensures (a + t) % n == if a + t < n then a + t else a + t - n
  {
  }

  lemma FullTurn(k: nat)
    requires k >= 1
    ensures Triangle(Pow2(k)) % Pow2(k) == Pow2(k - 1)
  {
    hide Triangle;
    assert Pow2(k) == 2 * Pow2(k - 1);
    HalfTurn(Pow2(k - 1), Pow2(k));
  }

  lemma HalfTurn(half: nat, n: nat)
    requires half >= 1 && n == 2 * half
    ensures Triangle(n) % n == half
  {
    hide Triangle;
    TriangleDoubled(n);
    assert n + n * n == 2 * (half + half * n);
    ModAddMultiple(half, half, n);
    SmallMod(half, n);
  }

  /** The loop inspects every slot if the reduced hash is 0, and every slot but h / 2 otherwise. */
  lemma ProbeCoverage(k: nat, h: nat, p: nat)
    requires k >= 1 && h < Pow2(k) && p < Pow2(k)
    ensures (exists i: nat :: i <= Pow2(k) && Probe(h, i, Pow2(k)) == p) <==> (p != h / 2 || h == 0)
  {
    var n := Pow2(k);
    assert Probe(h, 0, n) == h;
    if p != h / 2 {
      var x := ProbeReaches(k, h, p);
    } else if h > 0 {
      forall i: nat | i <= n ensures Probe(h, i, n) != p {
        if i > 0 {
          ProbeAvoids(k, h, i);
        }
      }
    }
  }

  lemma ProbeReaches(k: nat, h: nat, p: nat) returns (x: nat)
    requires h < Pow2(k) && p < Pow2(k) && p != h / 2
    ensures x < Pow2(k) && Probe(h, x, Pow2(k)) == p
  {
    hide Probe, Triangle;
    var n := Pow2(k);
    var r := if p > h / 2 then p - h / 2 else p + n - h / 2;
    x := TriangleHits(k, r);
    ProbeIsTriangle(h, x, n);
    WrapStays(h / 2, r, n);
  }

  lemma ProbeAvoids(k: nat, h: nat, i: nat)
    requires k >= 1 && h < Pow2(k) && 1 <= i <= Pow2(k)
    ensures Probe(h, i, Pow2(k)) != h / 2
  {
    NonzeroResidue(k, i);
    ProbeIsTriangle(h, i, Pow2(k));
    hide Probe, Triangle;
    WrapStays(h / 2, Triangle(i) % Pow2(k), Pow2(k));
  }

  lemma NonzeroResidue(k: nat, i: nat)
    requires k >= 1 && 1 <= i <= Pow2(k)
    ensures Triangle(i) % Pow2(k) != 0
  {
    if i < Pow2(k) {
      TriangleInjective(k, 0, i);
      SmallMod(0, Pow2(k));
    } else {
      FullTurn(k);
    }
  }
}
