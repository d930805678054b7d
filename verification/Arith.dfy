// Facts about quotients and remainders that several proofs share.
module Arith {

  function Bit(b: bool): nat {
    if b then 1 else 0
  }

  lemma QuotientIs(a: int, d: int, q: int, r: int)
    requires d > 0 && 0 <= r < d && a == q * d + r
    ensures a / d == q && a % d == r
  {
    var q1, r1 := a / d, a % d;
    assert a == q1 * d + r1;
    assert (q - q1) * d == r1 - r;
    assert q - q1 >= 1 ==> (q - q1) * d >= d;
    assert q - q1 <= -1 ==> (q - q1) * d <= -d;
  }

  lemma SmallMod(a: nat, n: nat)
    requires a < n
    ensures a % n == a
  {
  }

  lemma ModDiffer(a: nat, b: nat, n: nat)
    requires n >= 1 && a < b < a + n
    ensures a % n != b % n
  {
    var d := b / n - a / n;
    assert a == a / n * n + a % n && b == b / n * n + b % n;
    assert b - a == d * n + (b % n - a % n);
    assert d <= 0 ==> d * n <= 0;
    assert d >= 1 ==> d * n >= n;
  }

  lemma ModNext(a: nat, n: nat)
    requires n >= 1
    ensures (a % n + 1) % n == (a + 1) % n
  {
    var q, r := a / n, a % n;
    assert a == q * n + r;
    if r + 1 < n {
      QuotientIs(a + 1, n, q, r + 1);
      QuotientIs(r + 1, n, 0, r + 1);
    } else {
      assert a + 1 == (q + 1) * n;
      QuotientIs(a + 1, n, q + 1, 0);
      QuotientIs(r + 1, n, 1, 0);
    }
  }

  lemma {:induction false} MulGrows(q: nat, a: nat, b: nat)
    requires a <= b
    ensures q * a <= q * b && a * q <= b * q
  {
  }

  lemma DivBounds(n: nat, t: nat)
    requires t >= 1
    ensures n / t * t <= n < n / t * t + t
  {
  }
}
