// Bitwise arithmetic on natural numbers, as far as the C code uses it.
module Bits {

  function Pow2(k: nat): (p: nat)
    ensures p >= 1
  {
    if k == 0 then 1 else 2 * Pow2(k - 1)
  }

  /** c doubled m times. */
  function Doubled(c: nat, m: nat): (r: nat)
    ensures r >= c
  {
    Times(c, Pow2(m));
    c * Pow2(m)
  }

  lemma Times(c: nat, p: nat)
    requires p >= 1
    ensures c * p >= c
  {
  }

  lemma {:induction false} Pow2Adds(i: nat, j: nat)
    ensures Pow2(i + j) == Pow2(i) * Pow2(j)
  {
    if i > 0 {
      Pow2Adds(i - 1, j);
      calc {
        Pow2(i + j);
        2 * Pow2(i + j - 1);
        2 * (Pow2(i - 1) * Pow2(j));
        (2 * Pow2(i - 1)) * Pow2(j);
      }
    }
  }

  lemma DoubledOnce(c: nat)
    ensures Doubled(c, 0) == c && Doubled(c, 1) == 2 * c
  {
    assert Pow2(1) == 2;
  }

  lemma DoubledTwice(c: nat, i: nat, j: nat)
    ensures Doubled(Doubled(c, i), j) == Doubled(c, i + j)
  {
    Pow2Adds(i, j);
    hide Pow2;
    TimesTimes(c, Pow2(i), Pow2(j));
  }

  lemma TimesTimes(a: nat, b: nat, c: nat)
    ensures a * b * c == a * (b * c)
  {
  }

  lemma DoubledNext(c: nat, m: nat)
    requires m >= 1
    ensures Doubled(2 * c, m - 1) == Doubled(c, m)
  {
    DoubledOnce(c);
    DoubledTwice(c, 1, m - 1);
  }

  function Or(a: nat, b: nat): nat {
    if a == 0 then b
    else if b == 0 then a
    else 2 * Or(a / 2, b / 2) + (if a % 2 == 1 || b % 2 == 1 then 1 else 0)
  }

  function And(a: nat, b: nat): nat {
    if a == 0 || b == 0 then 0
    else 2 * And(a / 2, b / 2) + (if a % 2 == 1 && b % 2 == 1 then 1 else 0)
  }

  function Shr(a: nat, s: nat): nat
    decreases s
  {
    if s == 0 then a else Shr(a / 2, s - 1)
  }

  function Smear(a: nat, s: nat): nat {
    Or(a, Shr(a, s))
  }

  /** hashmap.c's next_power_of_2: smear the bits of n - 1 downwards, then add one. */
  function NextPowerOf2(n: nat): nat
    requires n >= 1
  {
    Smear(Smear(Smear(Smear(Smear(Smear(n - 1, 1), 2), 4), 8), 16), 32) + 1
  }

  lemma {:induction false} OrOfOnes(k: nat, j: nat)
    requires j <= k
    ensures Or(Pow2(k) - 1, Pow2(j) - 1) == Pow2(k) - 1
  {
    if j > 0 {
      OrOfOnes(k - 1, j - 1);
      assert (Pow2(k) - 1) / 2 == Pow2(k - 1) - 1;
      assert (Pow2(j) - 1) / 2 == Pow2(j - 1) - 1;
    }
  }

  lemma {:induction false} ShiftOfOnes(k: nat, s: nat)
    ensures Shr(Pow2(k) - 1, s) == if s <= k then Pow2(k - s) - 1 else 0
    decreases s
  {
    if s > 0 {
      if k == 0 {
        ShiftOfOnes(0, s - 1);
      } else {
        assert (Pow2(k) - 1) / 2 == Pow2(k - 1) - 1;
        ShiftOfOnes(k - 1, s - 1);
      }
    }
  }

  lemma SmearKeepsOnes(k: nat, s: nat)
    ensures Smear(Pow2(k) - 1, s) == Pow2(k) - 1
  {
    ShiftOfOnes(k, s);
    if s <= k {
      OrOfOnes(k, k - s);
    }
  }

  /** On a power of two the smearing changes nothing. */
  lemma NextPowerOf2OfPower(k: nat)
    ensures NextPowerOf2(Pow2(k)) == Pow2(k)
  {
    hide Smear;
    SmearKeepsOnes(k, 1);
    SmearKeepsOnes(k, 2);
    SmearKeepsOnes(k, 4);
    SmearKeepsOnes(k, 8);
    SmearKeepsOnes(k, 16);
    SmearKeepsOnes(k, 32);
  }

  // ---------- the least power of two ----------

  /** Bit i of a. */
  predicate BitAt(a: nat, i: nat) {
    Shr(a, i) % 2 == 1
  }

  lemma {:induction false} ShrAdds(a: nat, i: nat, s: nat)
    ensures Shr(Shr(a, s), i) == Shr(a, s + i)
    decreases s
  {
    if s > 0 {
      ShrAdds(a / 2, i, s - 1);
    }
  }

  lemma {:induction false} ShrZero(i: nat)
    ensures Shr(0, i) == 0
  {
    if i > 0 {
      ShrZero(i - 1);
    }
  }

  lemma HalfOf(x: nat, d: nat)
    requires d <= 1
    ensures (2 * x + d) / 2 == x && (2 * x + d) % 2 == d
  {
  }

  lemma OrHalves(a: nat, b: nat)
    requires a > 0 && b > 0
    ensures Or(a, b) / 2 == Or(a / 2, b / 2)
    ensures Or(a, b) % 2 == 1 <==> a % 2 == 1 || b % 2 == 1
  {
    HalfOf(Or(a / 2, b / 2), if a % 2 == 1 || b % 2 == 1 then 1 else 0);
  }

  lemma {:induction false} OrBit(a: nat, b: nat, i: nat)
    ensures BitAt(Or(a, b), i) <==> BitAt(a, i) || BitAt(b, i)
    decreases i
  {
    if a == 0 || b == 0 {
      ShrZero(i);
    } else {
      OrHalves(a, b);
      hide Or;
      if i > 0 {
        OrBit(a / 2, b / 2, i - 1);
      }
    }
  }

  /** The w highest of the k low bits are set, and no bit above them. */
  ghost predicate TopOnes(a: nat, k: nat, w: nat) {
    && (forall i: nat :: i < k <= i + w ==> BitAt(a, i))
    && (forall i: nat :: k <= i ==> !BitAt(a, i))
  }

  lemma SmearBit(a: nat, w: nat, i: nat)
    ensures BitAt(Smear(a, w), i) <==> BitAt(a, i) || BitAt(a, i + w)
  {
    OrBit(a, Shr(a, w), i);
    ShrAdds(a, i, w);
  }

  /** Smearing by w doubles the run of ones at the top. */
  lemma SmearDoubles(a: nat, k: nat, w: nat)
    requires TopOnes(a, k, w)
    ensures TopOnes(Smear(a, w), k, 2 * w)
  {
    forall i: nat | i < k <= i + 2 * w ensures BitAt(Smear(a, w), i) {
      SmearBit(a, w, i);
      assert if k <= i + w then BitAt(a, i) else BitAt(a, i + w);
    }
    forall i: nat | k <= i ensures !BitAt(Smear(a, w), i) {
      SmearBit(a, w, i);
      assert !BitAt(a, i) && !BitAt(a, i + w);
    }
  }

  lemma {:induction false} AllOnes(a: nat, k: nat, w: nat)
    requires TopOnes(a, k, w) && k <= w
    ensures a == Pow2(k) - 1
    decreases k, a
  {
    forall i: nat ensures BitAt(a / 2, i) == BitAt(a, i + 1) {
      ShrAdds(a, i, 1);
    }
    if k > 0 {
      assert BitAt(a, 0);
      assert TopOnes(a / 2, k - 1, w);
      AllOnes(a / 2, k - 1, w);
    } else if a > 0 {
      assert !BitAt(a, 0);
      AllOnes(a / 2, 0, w);
    }
  }

  /** The highest bit of a positive number. */
  lemma {:induction false} HighestBit(a: nat) returns (k: nat)
    requires a >= 1
    ensures k >= 1 && Pow2(k - 1) <= a < Pow2(k) && TopOnes(a, k, 1)
  {
    if a == 1 {
      k := 1;
      forall i: nat | 1 <= i ensures !BitAt(1, i) {
        ShrZero(i - 1);
      }
    } else {
      k := HighestBit(a / 2);
      forall i: nat | 1 <= i ensures BitAt(a, i) == BitAt(a / 2, i - 1) {
        ShrAdds(a, i - 1, 1);
      }
      k := k + 1;
    }
  }

  /** Six smears fill every bit below the highest one of a 64-bit number. */
  lemma SmearsToOnes(a: nat, k: nat)
    requires TopOnes(a, k, 1) && k <= 64
    ensures NextPowerOf2(a + 1) == Pow2(k)
  {
    hide Smear, TopOnes;
    SmearDoubles(a, k, 1);
    var b := Smear(a, 1);
    SmearDoubles(b, k, 2);
    var c := Smear(b, 2);
    SmearDoubles(c, k, 4);
    var d := Smear(c, 4);
    SmearDoubles(d, k, 8);
    var e := Smear(d, 8);
    SmearDoubles(e, k, 16);
    var f := Smear(e, 16);
    SmearDoubles(f, k, 32);
    AllOnes(Smear(f, 32), k, 64);
  }

  /** For every n up to 2^64 the smearing gives the least power of two that is at least n. */
  lemma NextPowerOf2IsLeast(n: nat) returns (k: nat)
    requires 1 <= n <= Pow2(64)
    ensures NextPowerOf2(n) == Pow2(k)
    ensures forall j: nat :: n <= Pow2(j) <==> k <= j
  {
    hide NextPowerOf2, TopOnes, Pow2;
    if n == 1 {
      k := 0;
      NextPowerOf2OfPower(0);
      assert Pow2(0) == 1 by { Pow2Zero(); }
    } else {
      k := HighestBit(n - 1);
      if k > 64 {
        Pow2Monotone(64, k - 1);
      }
      SmearsToOnes(n - 1, k);
    }
    forall j: nat ensures n <= Pow2(j) <==> k <= j {
      if k <= j {
        Pow2Monotone(k, j);
      } else {
        Pow2Monotone(j, k - 1);
      }
    }
  }

  lemma Pow2Zero()
    ensures Pow2(0) == 1
  {
  }

  lemma {:induction false} Pow2Monotone(i: nat, j: nat)
    requires i <= j
    ensures Pow2(i) <= Pow2(j)
  {
    if i < j {
      Pow2Monotone(i, j - 1);
    }
  }
}
