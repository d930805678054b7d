// The machine of fib.asm in place, and a call of fib run on it.
module FibCpu {
  import opened FibMachine

  class Cpu {
    var pc: nat
    var rax: nat
    var rcx: nat
    var rdi: nat
    var le: bool
    var stack: seq<nat>

    ghost function Abs(): State
      reads this
    {
      State(pc, rax, rcx, rdi, le, stack)
    }

    method Push(v: nat)
      modifies this`stack
      ensures stack == old(stack) + [v]
    {
      stack := stack + [v];
    }

    method Pop() returns (v: nat)
      requires stack != []
      modifies this`stack
      ensures old(stack) == stack + [v]
    {
      v := stack[|stack| - 1];
      stack := stack[..|stack| - 1];
    }

    /** The instruction at pc. */
    method Exec()
      requires pc <= 13 && stack != []
      modifies this
      ensures Abs() == Step(old(Abs()))
    {
      hide Signed, Low32, Dec, Sum;
      var next := pc + 1;
      match pc {
        case 0 => rax := Low32(rdi);
        case 1 => le := Signed(Low32(rdi)) <= 1;
        case 2 => if le { next := 13; }
        case 3 => rdi := Dec(Low32(rdi));
        case 4 => Push(rdi);
        case 5 => Push(next); next := 0;
        case 6 => rdi := Pop();
        case 7 => rcx := Low32(rax);
        case 8 => rdi := Dec(Low32(rdi));
        case 9 => Push(rcx);
        case 10 => Push(next); next := 0;
        case 11 => rcx := Pop();
        case 12 => rax := Sum(Low32(rax), Low32(rcx));
        case 13 => next := Pop();
      }
      pc := next;
    }

    /** call fib with n in edi; ends when the matching ret has taken the return address off the stack. */
    method CallFib(n: nat, ret: nat)
      requires n < WORD32 / 2 && rdi % WORD32 == n
      modifies this
      ensures pc == ret && rax == Fib32(n) && stack == old(stack)
    {
      var depth := |stack|;
      ghost var below := stack;
      Push(ret);
      pc := 0;
      ghost var t := FibReturns(Abs(), n, below, ret);
      ghost var left := Cost(n);
      while |stack| > depth
        invariant Run(Abs(), left) == t && Keeps(Abs(), left, below + [ret])
        decreases left
      {
        InsideFib(Abs(), left, t, below, ret);
        Exec();
        left := left - 1;
      }
      AtEnd(Abs(), left, below + [ret]);
    }
  }

  /** As long as the return address is on the stack and the run ends at it, pc is an instruction of fib. */
  lemma InsideFib(s: State, left: nat, t: State, below: seq<nat>, ret: nat)
    requires Run(s, left) == t && Keeps(s, left, below + [ret]) && |s.stack| > |below| && t.stack == below
    ensures left > 0 && s.pc <= 13 && s.stack != []
  {
  }

  lemma AtEnd(s: State, left: nat, base: seq<nat>)
    requires Keeps(s, left, base) && |s.stack| < |base|
    ensures left == 0
  {
  }
}
