// fib.asm on a machine with three 64-bit registers, one flag and a stack.
module FibMachine {
  import opened Arith

  const WORD32: nat := 0x1_0000_0000

  datatype Reg = Rax | Rcx | Rdi

  /** The instructions fib.asm uses; the 32-bit ones zero the upper half of their destination. */
  datatype Instr =
    | Mov32(dst: Reg, src: Reg)
    | CmpOne32(src: Reg)
    | Jle(target: nat)
    | Dec32(dst: Reg)
    | Push(src: Reg)
    | Pop(dst: Reg)
    | Call(target: nat)
    | Add32(dst: Reg, src: Reg)
    | Ret
    | Outside

  function Low32(x: nat): nat {
    x % WORD32
  }

  function Dec(x: nat): nat {
    (x + WORD32 - 1) % WORD32
  }

  function Sum(x: nat, y: nat): nat {
    (x + y) % WORD32
  }

  /** `le` is what jle tests; only cmp's setting of it is ever read. The top of the stack is last. */
  datatype State = State(pc: nat, rax: nat, rcx: nat, rdi: nat, le: bool, stack: seq<nat>)
  {
    function Get(r: Reg): nat {
      match r case Rax => rax case Rcx => rcx case Rdi => rdi
    }

    function Low(r: Reg): nat {
      Low32(Get(r))
    }

    function Set(r: Reg, v: nat): State {
      match r
      case Rax => this.(rax := v)
      case Rcx => this.(rcx := v)
      case Rdi => this.(rdi := v)
    }
  }

  /** The text of fib; addresses are instruction numbers. */
  function Fetch(pc: nat): Instr {
    match pc
    case 0 => Mov32(Rax, Rdi)
    case 1 => CmpOne32(Rdi)
    case 2 => Jle(13)
    case 3 => Dec32(Rdi)
    case 4 => Push(Rdi)
    case 5 => Call(0)
    case 6 => Pop(Rdi)
    case 7 => Mov32(Rcx, Rax)
    case 8 => Dec32(Rdi)
    case 9 => Push(Rcx)
    case 10 => Call(0)
    case 11 => Pop(Rcx)
    case 12 => Add32(Rax, Rcx)
    case 13 => Ret
    case _ => Outside
  }

  function Signed(x: nat): int {
    if x < WORD32 / 2 then x else x - WORD32
  }

  /** One instruction; a pop from the empty stack, or an address outside fib, leaves the state as it is. */
  function Step(s: State): State {
    var next := s.(pc := s.pc + 1);
    match Fetch(s.pc)
    case Mov32(d, r) => next.Set(d, s.Low(r))
    case CmpOne32(r) => next.(le := Signed(s.Low(r)) <= 1)
    case Jle(t) => if s.le then s.(pc := t) else next
    case Dec32(d) => next.Set(d, Dec(s.Low(d)))
    case Push(r) => next.(stack := s.stack + [s.Get(r)])
    case Pop(d) => if s.stack == [] then s else next.Set(d, s.stack[|s.stack| - 1]).(stack := s.stack[..|s.stack| - 1])
    case Call(t) => s.(pc := t, stack := s.stack + [s.pc + 1])
    case Add32(d, r) => next.Set(d, Sum(s.Low(d), s.Low(r)))
    case Ret => if s.stack == [] then s else s.(pc := s.stack[|s.stack| - 1], stack := s.stack[..|s.stack| - 1])
    case Outside => s
  }

  function Run(s: State, k: nat): State
    decreases k
  {
    if k == 0 then s else Run(Step(s), k - 1)
  }

  function Max(a: nat, b: nat): nat { if a < b then b else a }

  /** The largest stack size in the first k steps, the state after them included. */
  function Peak(s: State, k: nat): nat
    decreases k
  {
    if k == 0 then |s.stack| else Max(|s.stack|, Peak(Step(s), k - 1))
  }

  /** The first k states all have `base` at the bottom of their stack. */
  predicate Keeps(s: State, k: nat, base: seq<nat>)
    decreases k
  {
    k == 0 || (base <= s.stack && Keeps(Step(s), k - 1, base))
  }

  /** k steps lead from s to t, never cut into `base`, and peak at a stack of `peak` words. */
  predicate Leads(s: State, k: nat, t: State, base: seq<nat>, peak: nat) {
    Run(s, k) == t && Keeps(s, k, base) && Peak(s, k) == peak
  }

  lemma Stay(s: State, base: seq<nat>)
    ensures Leads(s, 0, s, base, |s.stack|)
  {
  }

  lemma StepThen(s: State, k: nat, t: State, base: seq<nat>, peak: nat)
    requires base <= s.stack && Leads(Step(s), k, t, base, peak)
    ensures Leads(s, k + 1, t, base, Max(|s.stack|, peak))
  {
  }

  lemma {:induction false} Join(s: State, a: nat, t: State, b: nat, u: State, base: seq<nat>, p: nat, q: nat)
    requires Leads(s, a, t, base, p) && Leads(t, b, u, base, q)
    ensures Leads(s, a + b, u, base, Max(p, q))
    decreases a
  {
    if a > 0 {
      Join(Step(s), a - 1, t, b, u, base, Peak(Step(s), a - 1), q);
    } else {
      PeakAtLeast(s, b);
    }
  }

  lemma {:induction false} PeakAtLeast(s: State, k: nat)
    ensures Peak(s, k) >= |s.stack|
  {
  }

  lemma {:induction false} KeepsLess(s: State, k: nat, base: seq<nat>, more: seq<nat>)
    requires Keeps(s, k, more) && base <= more
    ensures Keeps(s, k, base)
    decreases k
  {
    if k > 0 {
      KeepsLess(Step(s), k - 1, base, more);
    }
  }

  function Fib(n: nat): nat {
    if n <= 1 then n else Fib(n - 1) + Fib(n - 2)
  }

  function Fib32(n: nat): (r: nat)
    ensures r < WORD32
  {
    Fib(n) % WORD32
  }

  /** How many instructions a call takes, its ret included. */
  function Cost(n: nat): nat {
    if n <= 1 then 4 else 6 + Cost(n - 1) + (5 + Cost(n - 2) + 3)
  }

  /** How far the stack rises above its size at entry. */
  function High(n: nat): nat {
    if n <= 1 then 0 else 2 * (n - 1)
  }

  /** At fib's first instruction, called with argument x and return address ret on top of `below`. */
  predicate Entered(s: State, x: nat, below: seq<nat>, ret: nat) {
    s.pc == 0 && s.Low(Rdi) == x && s.stack == below + [ret]
  }

  /** Back at the return address with the result, the stack as before the call. */
  predicate Returned(t: State, result: nat, below: seq<nat>, ret: nat) {
    t.pc == ret && t.rax == result && t.stack == below
  }

  /** Arguments 0, 1 and the negative ones are returned as they are. */
  lemma SmallReturns(s: State, x: nat, below: seq<nat>, ret: nat) returns (t: State)
    requires Entered(s, x, below, ret) && Signed(x) <= 1
    ensures Leads(s, 4, t, below + [ret], |below| + 1) && Returned(t, x, below, ret)
  {
    var base := below + [ret];
    var s1 := Step(s);
    var s2 := Step(s1);
    var s3 := Step(s2);
    t := Step(s3);
    assert s3.pc == 13 && s3.stack == base && s2.stack == base && s1.stack == base;
    assert base[..|base| - 1] == below;
    hide Step, Leads;
    Stay(t, base);
    StepThen(s3, 0, t, base, |t.stack|);
    StepThen(s2, 1, t, base, |base|);
    StepThen(s1, 2, t, base, |base|);
    StepThen(s, 3, t, base, |base|);
  }

  /** From entry to the first recursive call's entry. */
  lemma ToFirstCall(s: State, n: nat, below: seq<nat>, ret: nat) returns (t: State)
    requires Entered(s, n, below, ret) && 2 <= n < WORD32 / 2
    ensures Leads(s, 6, t, below + [ret], |below| + 3) && Entered(t, n - 1, below + [ret] + [n - 1], 6)
  {
    var base := below + [ret];
    var s1 := Step(s);
    var s2 := Step(s1);
    var s3 := Step(s2);
    var s4 := Step(s3);
    var s5 := Step(s4);
    t := Step(s5);
    DecIs(n);
    assert s3.pc == 3 && s3.stack == base && s3.rdi == s.rdi;
    assert s4 == s3.(pc := 4, rdi := n - 1);
    assert s5.stack == base + [n - 1] && t.stack == base + [n - 1] + [6];
    SmallMod(n - 1, WORD32);
    hide Step, Leads;
    Stay(t, base);
    StepThen(s5, 0, t, base, |t.stack|);
    StepThen(s4, 1, t, base, |t.stack|);
    StepThen(s3, 2, t, base, |t.stack|);
    StepThen(s2, 3, t, base, |t.stack|);
    StepThen(s1, 4, t, base, |t.stack|);
    StepThen(s, 5, t, base, |t.stack|);
  }

  lemma DecIs(n: nat)
    requires 1 <= n < WORD32
    ensures (n + WORD32 - 1) % WORD32 == n - 1
  {
  }

  /** From the first recursive call's return to the second one's entry. */
  lemma ToSecondCall(s: State, n: nat, f: nat, below: seq<nat>, ret: nat) returns (t: State)
    requires 2 <= n < WORD32 / 2 && f < WORD32 && Returned(s, f, below + [ret] + [n - 1], 6)
    ensures Leads(s, 5, t, below + [ret], |below| + 3) && Entered(t, n - 2, below + [ret] + [f], 11)
  {
    var base := below + [ret];
    var s1 := Step(s);
    var s2 := Step(s1);
    var s3 := Step(s2);
    var s4 := Step(s3);
    t := Step(s4);
    assert s.stack == base + [n - 1] && s.stack[..|s.stack| - 1] == base;
    assert s1.stack == base && s1.rdi == n - 1;
    SmallMod(f, WORD32);
    SmallMod(n - 1, WORD32);
    SmallMod(n - 2, WORD32);
    DecIs(n - 1);
    assert s3 == s1.(pc := 9, rcx := f, rdi := n - 2);
    assert s4.stack == base + [f] && t.stack == base + [f] + [11];
    hide Step, Leads;
    Stay(t, base);
    StepThen(s4, 0, t, base, |t.stack|);
    StepThen(s3, 1, t, base, |t.stack|);
    StepThen(s2, 2, t, base, |t.stack|);
    StepThen(s1, 3, t, base, |t.stack|);
    StepThen(s, 4, t, base, |t.stack|);
  }

  /** From the second recursive call's return to fib's own. */
  lemma ToReturn(s: State, g: nat, f: nat, below: seq<nat>, ret: nat) returns (t: State)
    requires Returned(s, g, below + [ret] + [f], 11) && f < WORD32 && g < WORD32
    ensures Leads(s, 3, t, below + [ret], |below| + 2) && Returned(t, (f + g) % WORD32, below, ret)
  {
    var base := below + [ret];
    var s1 := Step(s);
    var s2 := Step(s1);
    t := Step(s2);
    assert s.stack == base + [f] && s.stack[..|s.stack| - 1] == base && base[..|base| - 1] == below;
    SmallMod(f, WORD32);
    SmallMod(g, WORD32);
    hide Leads;
    assert s1 == s.(pc := 12, rcx := f, stack := base);
    assert s1.Low(Rax) == g && s1.Low(Rcx) == f;
    assert s2 == s1.(pc := 13, rax := (g + f) % WORD32);
    assert t.stack == below && t.pc == ret;
    hide Step, Leads;
    Stay(t, base);
    StepThen(s2, 0, t, base, |t.stack|);
    StepThen(s1, 1, t, base, |base|);
    StepThen(s, 2, t, base, |base|);
  }

  lemma SumMod(a: nat, b: nat, n: nat)
    requires n >= 1
    ensures (a % n + b % n) % n == (a + b) % n
  {
    var r := a % n + b % n;
    assert a == a / n * n + a % n && b == b / n * n + b % n;
    assert r == r / n * n + r % n;
    assert a + b == (a / n + b / n + r / n) * n + r % n;
    QuotientIs(a + b, n, a / n + b / n + r / n, r % n);
  }

  lemma Widen(s: State, k: nat, t: State, base: seq<nat>, more: seq<nat>, peak: nat)
    requires Leads(s, k, t, more, peak) && base <= more
    ensures Leads(s, k, t, base, peak)
  {
    KeepsLess(s, k, base, more);
  }

  /** The five parts of a call that recurses, with the two inner calls' own costs and peaks. */
  lemma FiveParts(s: State, s1: State, s2: State, s3: State, s4: State, t: State,
                  base: seq<nat>, more1: seq<nat>, more2: seq<nat>, c1: nat, c2: nat, h1: nat, h2: nat)
    requires base <= more1 && base <= more2 && h2 <= h1 && |more1| == |base| + 2
    requires Leads(s, 6, s1, base, |base| + 2) && Leads(s1, c1, s2, more1, |base| + 2 + h1)
    requires Leads(s2, 5, s3, base, |base| + 2) && Leads(s3, c2, s4, more2, |base| + 2 + h2)
    requires Leads(s4, 3, t, base, |base| + 1)
    ensures Leads(s, 6 + c1 + (5 + c2 + 3), t, base, |base| + 2 + h1)
  {
    hide Leads;
    Widen(s1, c1, s2, base, more1, |base| + 2 + h1);
    Widen(s3, c2, s4, base, more2, |base| + 2 + h2);
    Join(s3, c2, s4, 3, t, base, |base| + 2 + h2, |base| + 1);
    Join(s2, 5, s3, c2 + 3, t, base, |base| + 2, |base| + 2 + h2);
    Join(s1, c1, s2, 5 + (c2 + 3), t, base, |base| + 2 + h1, |base| + 2 + h2);
    Join(s, 6, s1, c1 + (5 + (c2 + 3)), t, base, |base| + 2, |base| + 2 + h1);
    assert 6 + (c1 + (5 + (c2 + 3))) == 6 + c1 + (5 + c2 + 3);
  }

  lemma SmallFib(n: nat)
    requires n <= 1
    ensures Fib32(n) == n && Cost(n) == 4 && High(n) == 0
  {
  }

  lemma FibSum(n: nat)
    requires n >= 2
    ensures Fib32(n) == (Fib32(n - 1) + Fib32(n - 2)) % WORD32
    ensures Cost(n) == 6 + Cost(n - 1) + (5 + Cost(n - 2) + 3)
    ensures High(n) == 2 + High(n - 1) && High(n - 2) <= High(n - 1)
  {
    SumMod(Fib(n - 1), Fib(n - 2), WORD32);
  }

  /**
   * fib, entered with 0 <= n < 2^31 in edi on any stack, returns Fib(n) mod 2^32 after Cost(n)
   * instructions. Until its ret executes it keeps the caller's stack and its return address, and
   * the stack peaks at exactly High(n) words above entry.
   */
  lemma {:induction false} FibReturns(s: State, n: nat, below: seq<nat>, ret: nat) returns (t: State)
    requires Entered(s, n, below, ret) && n < WORD32 / 2
    ensures Leads(s, Cost(n), t, below + [ret], |below| + 1 + High(n)) && Returned(t, Fib32(n), below, ret)
    decreases n
  {
    hide Leads, Entered, Returned, Fib, Fib32, Cost, High;
    if n <= 1 {
      t := SmallReturns(s, n, below, ret);
      SmallFib(n);
    } else {
      FibSum(n);
      var base, f := below + [ret], Fib32(n - 1);
      assert f < WORD32 && Fib32(n - 2) < WORD32;
      var s1 := ToFirstCall(s, n, below, ret);
      var s2 := FibReturns(s1, n - 1, base + [n - 1], 6);
      var s3 := ToSecondCall(s2, n, f, below, ret);
      var s4 := FibReturns(s3, n - 2, base + [f], 11);
      t := ToReturn(s4, Fib32(n - 2), f, below, ret);
      var more1, more2 := base + [n - 1] + [6], base + [f] + [11];
      assert |base + [n - 1]| == |base| + 1 && |base + [f]| == |base| + 1 && |base| == |below| + 1;
      assert base <= more1 && base <= more2;
      assert Leads(s1, Cost(n - 1), s2, more1, |base| + 2 + High(n - 1));
      assert Leads(s3, Cost(n - 2), s4, more2, |base| + 2 + High(n - 2));
      FiveParts(s, s1, s2, s3, s4, t, base, more1, more2, Cost(n - 1), Cost(n - 2), High(n - 1), High(n - 2));
      assert |base| + 2 + High(n - 1) == |below| + 1 + High(n);
    }
  }

  /** A negative argument comes straight back, with no stack used. */
  lemma NegativeReturns(s: State, x: nat, below: seq<nat>, ret: nat) returns (t: State)
    requires Entered(s, x, below, ret) && WORD32 / 2 <= x < WORD32
    ensures Leads(s, 4, t, below + [ret], |below| + 1) && Returned(t, x, below, ret)
  {
    t := SmallReturns(s, x, below, ret);
  }
}
