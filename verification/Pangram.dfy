// pangram.asm and pangram.c: the same letter set, once with an early exit.
module Pangram {
  type Byte = bv8

  const MASK: bv32 := 0x07fffffe

  /** `cmp cl, '@'` and `c < '@'` compare signed bytes: 0x80 and up are negative. */
  predicate SignedLess(a: Byte, b: Byte) {
    (a ^ 0x80) < (b ^ 0x80)
  }

  predicate SignedLessEq(a: Byte, b: Byte) {
    (a ^ 0x80) <= (b ^ 0x80)
  }

  /** bts eax, ecx and `1 << (c & 0x1f)`: the bit number is taken modulo 32. */
  function BitOf(c: Byte): bv32 {
    (1 as bv32) << ((c & 0x1f) as bv6)
  }

  /** The bit set after one character of pangram.c's loop. */
  function Mark(bs: bv32, c: Byte): bv32 {
    if SignedLess(c, 0x40) then bs else bs | BitOf(c)
  }

  /** The bit set of a whole string. */
  function Collect(s: seq<Byte>): bv32 {
    if s == [] then 0 else Mark(Collect(s[..|s| - 1]), s[|s| - 1])
  }

  function Masked(bs: bv32): bv32 {
    bs & MASK
  }

  predicate Full(bs: bv32) {
    Masked(bs) == MASK
  }

  ghost predicate IsString(mem: seq<Byte>, len: nat) {
    len < |mem| && mem[len] == 0 && forall i :: 0 <= i < len ==> mem[i] != 0
  }

  // ---------- the two scans ----------

  lemma CollectNext(mem: seq<Byte>, i: nat)
    requires i < |mem|
    ensures Collect(mem[..i + 1]) == Mark(Collect(mem[..i]), mem[i])
  {
    assert mem[..i + 1][..i] == mem[..i];
  }

  /** ispangram of pangram.c on a NUL-terminated string. */
  method IsPangramC(mem: seq<Byte>, ghost len: nat) returns (r: bool)
    requires IsString(mem, len)
    ensures r == Full(Collect(mem[..len]))
  {
    hide Mark, Full, Collect, SignedLess, BitOf;
    var bs: bv32, i := 0, 0;
    assert bs == Collect(mem[..0]) by { CollectNone(mem); }
    while mem[i] != 0
      invariant i <= len && bs == Collect(mem[..i])
      decreases len - i
    {
      var c := mem[i];
      CollectNext(mem, i);
      MarkCases(bs, c);
      i := i + 1;
      if SignedLess(c, 0x40) {
        continue;
      }
      bs := bs | BitOf(c);
    }
    return Full(bs);
  }

  lemma CollectNone(mem: seq<Byte>)
    ensures Collect(mem[..0]) == 0 && Masked(Collect(mem[..0])) == 0 && !Full(Collect(mem[..0]))
  {
  }

  lemma MarkCases(bs: bv32, c: Byte)
    ensures Mark(bs, c) == if SignedLess(c, 0x40) then bs else bs | BitOf(c)
  {
  }

  /** The two comparisons differ on '@' only, and '@' sets bit 0. */
  lemma Comparisons(c: Byte)
    ensures SignedLess(c, 0x40) ==> SignedLessEq(c, 0x40)
    ensures SignedLessEq(c, 0x40) && !SignedLess(c, 0x40) ==> BitOf(c) == 1
  {
  }

  /** Masking after every character, and skipping '@' instead of setting bit 0, loses nothing. */
  lemma MaskedMark(bs: bv32, c: Byte)
    ensures Masked(Mark(bs, c)) == if SignedLessEq(c, 0x40) then Masked(bs) else Masked(Masked(bs) | BitOf(c))
  {
    hide SignedLess, SignedLessEq, BitOf, Masked, Mark;
    MarkCases(bs, c);
    Comparisons(c);
    MaskedOr(bs, BitOf(c));
  }

  lemma MaskedOr(a: bv32, b: bv32)
    ensures Masked(a | b) == Masked(Masked(a) | b)
    ensures b == 1 ==> Masked(a | b) == Masked(a)
  {
  }

  lemma FullStays(bs: bv32, c: Byte)
    requires Full(bs)
    ensures Full(Mark(bs, c))
  {
  }

  lemma {:induction false} FullPrefix(s: seq<Byte>, i: nat)
    requires i <= |s| && Full(Collect(s[..i]))
    ensures Full(Collect(s))
    decreases |s| - i
  {
    hide Mark, Full, Collect;
    if i == |s| {
      assert s[..i] == s;
    } else {
      CollectNext(s, i);
      FullStays(Collect(s[..i]), s[i]);
      FullPrefix(s, i + 1);
    }
  }

  /** pangram of pangram.asm: leaves the loop as soon as the masked set is full. */
  method PangramAsm(mem: seq<Byte>, ghost len: nat) returns (eax: bv32)
    requires IsString(mem, len)
    ensures eax == if Full(Collect(mem[..len])) then 1 else 0
  {
    hide Mark, Collect, SignedLessEq, BitOf, Masked;
    eax := 0;
    var rdi := 0;
    CollectNone(mem);
    while true
      invariant rdi <= len && eax == Masked(Collect(mem[..rdi])) && !Full(Collect(mem[..rdi]))
      decreases len - rdi
    {
      var cl := mem[rdi];
      if cl == 0 {
        return 0;
      }
      CollectNext(mem, rdi);
      MaskedMark(Collect(mem[..rdi]), cl);
      rdi := rdi + 1;
      if SignedLessEq(cl, 0x40) {
        continue;
      }
      eax := eax | BitOf(cl);
      eax := Masked(eax);
      if eax == MASK {
        assert mem[..len][..rdi] == mem[..rdi];
        FullPrefix(mem[..len], rdi);
        return 1;
      }
    }
  }

  // ---------- what a full set means ----------

  predicate HasBit(bs: bv32, k: bv5) {
    (bs >> k) & 1 == 1
  }

  /** The letter number k, in either case. */
  predicate IsLetter(c: Byte, k: bv5)
    requires 1 <= k <= 26
  {
    c == 0x40 + (k as bv8) || c == 0x60 + (k as bv8)
  }

  lemma MarkBit(bs: bv32, c: Byte, k: bv5)
    requires 1 <= k <= 26
    ensures HasBit(Mark(bs, c), k) <==> HasBit(bs, k) || IsLetter(c, k)
  {
  }

  /** Letter number k occurs in s, in either case. */
  ghost predicate Occurs(s: seq<Byte>, k: bv5)
    requires 1 <= k <= 26
  {
    exists i :: 0 <= i < |s| && IsLetter(s[i], k)
  }

  lemma OccursLast(s: seq<Byte>, k: bv5)
    requires 1 <= k <= 26 && s != []
    ensures Occurs(s, k) <==> Occurs(s[..|s| - 1], k) || IsLetter(s[|s| - 1], k)
  {
  }

  lemma {:induction false} CollectBit(s: seq<Byte>, k: bv5)
    requires 1 <= k <= 26
    ensures HasBit(Collect(s), k) <==> Occurs(s, k)
  {
    if s != [] {
      hide HasBit, Mark, IsLetter, Occurs;
      var n := |s| - 1;
      CollectBit(s[..n], k);
      MarkBit(Collect(s[..n]), s[n], k);
      OccursLast(s, k);
    }
  }

  lemma FullBits(bs: bv32)
    ensures Full(bs) <==> forall k: bv5 :: 1 <= k <= 26 ==> HasBit(bs, k)
  {
    if forall k: bv5 :: 1 <= k <= 26 ==> HasBit(bs, k) {
      assert HasBit(bs, 1) && HasBit(bs, 2) && HasBit(bs, 3) && HasBit(bs, 4) && HasBit(bs, 5) && HasBit(bs, 6);
      assert HasBit(bs, 7) && HasBit(bs, 8) && HasBit(bs, 9) && HasBit(bs, 10) && HasBit(bs, 11) && HasBit(bs, 12);
      assert HasBit(bs, 13) && HasBit(bs, 14) && HasBit(bs, 15) && HasBit(bs, 16) && HasBit(bs, 17) && HasBit(bs, 18);
      assert HasBit(bs, 19) && HasBit(bs, 20) && HasBit(bs, 21) && HasBit(bs, 22) && HasBit(bs, 23) && HasBit(bs, 24);
      assert HasBit(bs, 25) && HasBit(bs, 26);
    }
  }

  /** Both scans accept exactly the strings in which all 26 letters occur, in either case. */
  lemma FullIffAllLetters(s: seq<Byte>)
    ensures Full(Collect(s)) <==> forall k: bv5 :: 1 <= k <= 26 ==> Occurs(s, k)
  {
    hide Full, HasBit, Collect, Occurs;
    forall k: bv5 | 1 <= k <= 26 ensures HasBit(Collect(s), k) <==> Occurs(s, k) {
      CollectBit(s, k);
    }
    FullBits(Collect(s));
  }
}
