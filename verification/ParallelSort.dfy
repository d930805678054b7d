// mergesort.c: the fork/join sort over all interleavings of its threads' array steps.
module ParallelSort {
  import opened Arith
  import opened StableSort

  /** Where sort cuts a slice of n items for tcnt threads, and the thread count it passes on. */
  function Border(n: nat, tcnt: nat): (b: nat)
    requires n >= 2
    ensures b < n
  {
    if tcnt > 2 then SmallQuotient(n, tcnt); n / tcnt else n / 2
  }

  lemma SmallQuotient(n: nat, t: nat)
    requires n >= 2 && t > 2
    ensures n / t < n
  {
    DivBounds(n, t);
    MulGrows(n / t, 3, t);
  }

  function Passed(tcnt: nat): nat {
    if tcnt > 2 then tcnt - 1 else 1
  }

  /** Decreases along both calls, also when the border is 0. */
  function Rank(n: nat, tcnt: nat): nat {
    n + (if tcnt > 1 then tcnt else 1)
  }

  /**
   * One activation of sort(arr + lo, n, tcnt): not started, its two halves in progress, merging
   * into x, copying x back, finished. `forked` says whether a thread of its own sorts the left half.
   */
  datatype Activation =
    | Todo(lo: nat, n: nat, tcnt: nat)
    | Halves(lo: nat, n: nat, border: nat, left: Activation, right: Activation, forked: bool)
    | Pick(lo: nat, n: nat, border: nat, l: nat, r: nat, x: seq<Item>)
    | Copy(lo: nat, n: nat, x: seq<Item>, i: nat)
    | Done(lo: nat, n: nat)

  datatype Config = Config(mem: seq<Item>, root: Activation)

  /** One turn of the merge loop. */
  predicate PickStep(mem: seq<Item>, t: Activation, t': Activation)
    requires t.Pick?
  {
    if |t.x| == t.n then t' == Copy(t.lo, t.n, t.x, 0)
    else if t.r == t.n then
      t.lo + t.l < |mem| && t' == t.(x := t.x + [mem[t.lo + t.l]], l := t.l + 1)
    else if t.l == t.border then
      t.lo + t.r < |mem| && t' == t.(x := t.x + [mem[t.lo + t.r]], r := t.r + 1)
    else
      && t.lo + t.l < |mem| && t.lo + t.r < |mem|
      && t' == if mem[t.lo + t.r].key < mem[t.lo + t.l].key
               then t.(x := t.x + [mem[t.lo + t.r]], r := t.r + 1)
               else t.(x := t.x + [mem[t.lo + t.l]], l := t.l + 1)
  }

  /**
   * One atomic step of some thread below t. A forked left half and the right half step in any order;
   * without a fork the right half waits for the left; the merge waits for both.
   */
  predicate Step(mem: seq<Item>, t: Activation, mem': seq<Item>, t': Activation)
    decreases t
  {
    match t
    case Todo(lo, n, tcnt) =>
      && mem' == mem
      && t' == if n < 2 then Done(lo, n)
               else var b := Border(n, tcnt);
                    Halves(lo, n, b, Todo(lo, b, 1), Todo(lo + b, n - b, Passed(tcnt)), tcnt > 1)
    case Halves(lo, n, border, left, right, forked) =>
      if left.Done? && right.Done? then
        mem' == mem && t' == Pick(lo, n, border, 0, border, [])
      else
        && t'.Halves?
        && (|| (t' == t.(left := t'.left) && Step(mem, left, mem', t'.left))
            || (t' == t.(right := t'.right) && (forked || left.Done?) && Step(mem, right, mem', t'.right)))
    case Pick(_, _, _, _, _, _) => mem' == mem && PickStep(mem, t, t')
    case Copy(lo, n, x, i) =>
      if i == n then mem' == mem && t' == Done(lo, n)
      else i < |x| && lo + i < |mem| && mem' == mem[lo + i := x[i]] && t' == t.(i := i + 1)
    case Done(_, _) => false
  }

  ghost predicate IsRun(run: seq<Config>, a: seq<Item>, tcnt: nat) {
    && run != []
    && run[0] == Config(a, Todo(0, |a|, tcnt))
    && forall i :: 0 <= i < |run| - 1 ==> Step(run[i].mem, run[i].root, run[i + 1].mem, run[i + 1].root)
  }

  // ---------- what every step keeps ----------

  function Slice(mem: seq<Item>, lo: nat, n: nat): seq<Item>
    requires lo + n <= |mem|
  {
    mem[lo..lo + n]
  }

  /** Merging: x is what the merge of the two sorted halves starts with. */
  ghost predicate PickOk(mem: seq<Item>, t: Activation, was: seq<Item>)
    requires t.Pick? && t.lo + t.n <= |mem| && |was| == t.n
  {
    && t.l <= t.border <= t.r <= t.n && |t.x| + t.border == t.l + t.r
    && IsStableSort(Slice(mem, t.lo, t.border), was[..t.border])
    && IsStableSort(Slice(mem, t.lo + t.border, t.n - t.border), was[t.border..])
    && t.x + Merge(Slice(mem, t.lo + t.l, t.border - t.l), Slice(mem, t.lo + t.r, t.n - t.r))
       == Merge(Slice(mem, t.lo, t.border), Slice(mem, t.lo + t.border, t.n - t.border))
  }

  ghost predicate CopyOk(mem: seq<Item>, t: Activation, was: seq<Item>)
    requires t.Copy? && t.lo + t.n <= |mem| && |was| == t.n
  {
    t.i <= t.n == |t.x| && IsStableSort(t.x, was) && Slice(mem, t.lo, t.i) == t.x[..t.i]
  }

  /** Activation t is on its way to sorting its slice, which held `was` when the activation was created. */
  ghost predicate Inv(mem: seq<Item>, t: Activation, was: seq<Item>)
    decreases t
  {
    && t.lo + t.n <= |mem| && |was| == t.n
    && match t
       case Todo(lo, n, _) => Slice(mem, lo, n) == was
       case Halves(lo, n, border, left, right, forked) =>
         && border <= n && left.lo == lo && left.n == border && right.lo == lo + border && right.n == n - border
         && Inv(mem, left, was[..border]) && Inv(mem, right, was[border..])
       case Pick(_, _, _, _, _, _) => PickOk(mem, t, was)
       case Copy(_, _, _, _) => CopyOk(mem, t, was)
       case Done(lo, n) => IsStableSort(Slice(mem, lo, n), was)
  }

  ghost predicate SameOn(mem: seq<Item>, mem': seq<Item>, lo: nat, n: nat) {
    |mem'| == |mem| && forall i :: lo <= i < lo + n && i < |mem| ==> mem'[i] == mem[i]
  }

  lemma SliceFrame(mem: seq<Item>, mem': seq<Item>, lo: nat, n: nat, from: nat, k: nat)
    requires SameOn(mem, mem', lo, n) && lo + n <= |mem| && lo <= from && from + k <= lo + n
    ensures Slice(mem', from, k) == Slice(mem, from, k)
  {
  }

  lemma PickFrame(mem: seq<Item>, mem': seq<Item>, t: Activation, was: seq<Item>)
    requires t.Pick? && t.lo + t.n <= |mem| && |was| == t.n
    requires PickOk(mem, t, was) && SameOn(mem, mem', t.lo, t.n)
    ensures PickOk(mem', t, was)
  {
    hide IsStableSort, Merge;
    SliceFrame(mem, mem', t.lo, t.n, t.lo, t.border);
    SliceFrame(mem, mem', t.lo, t.n, t.lo + t.border, t.n - t.border);
    SliceFrame(mem, mem', t.lo, t.n, t.lo + t.l, t.border - t.l);
    SliceFrame(mem, mem', t.lo, t.n, t.lo + t.r, t.n - t.r);
  }

  /** An activation depends on its own slice of the array only. */
  lemma {:induction false} InvFrame(mem: seq<Item>, mem': seq<Item>, t: Activation, was: seq<Item>)
    requires Inv(mem, t, was) && SameOn(mem, mem', t.lo, t.n)
    ensures Inv(mem', t, was)
    decreases t
  {
    hide PickOk, IsStableSort, Slice;
    match t
    case Halves(_, _, border, left, right, _) =>
      InvFrame(mem, mem', left, was[..border]);
      InvFrame(mem, mem', right, was[border..]);
    case Pick(_, _, _, _, _, _) => PickFrame(mem, mem', t, was);
    case Copy(lo, n, x, i) => SliceFrame(mem, mem', lo, n, lo, i);
    case _ => SliceFrame(mem, mem', t.lo, t.n, t.lo, t.n);
  }

  /** A step writes inside its activation's slice only. */
  lemma {:induction false} StepFrame(mem: seq<Item>, t: Activation, mem': seq<Item>, t': Activation, was: seq<Item>)
    requires Inv(mem, t, was) && Step(mem, t, mem', t')
    ensures t'.lo == t.lo && t'.n == t.n && |mem'| == |mem|
    ensures forall i :: 0 <= i < |mem| && !(t.lo <= i < t.lo + t.n) ==> mem'[i] == mem[i]
    decreases t
  {
    match t
    case Halves(_, _, border, left, right, _) =>
      if !(left.Done? && right.Done?) {
        if t' == t.(left := t'.left) && Step(mem, left, mem', t'.left) {
          StepFrame(mem, left, mem', t'.left, was[..border]);
        } else {
          StepFrame(mem, right, mem', t'.right, was[border..]);
        }
      }
    case _ =>
  }

  lemma PickedAll(mem: seq<Item>, t: Activation, was: seq<Item>)
    requires t.Pick? && Inv(mem, t, was) && |t.x| == t.n
    ensures IsStableSort(t.x, was)
  {
    var l, r := Slice(mem, t.lo, t.border), Slice(mem, t.lo + t.border, t.n - t.border);
    MergeIsStable(l, r, was[..t.border], was[t.border..]);
    assert was == was[..t.border] + was[t.border..];
    assert t.x == t.x + [];
  }

  /** What is picked and what is still to be merged. */
  ghost function Pending(mem: seq<Item>, t: Activation): seq<Item>
    requires t.Pick? && t.l <= t.border <= t.n && t.r <= t.n && t.lo + t.n <= |mem|
  {
    t.x + Merge(Slice(mem, t.lo + t.l, t.border - t.l), Slice(mem, t.lo + t.r, t.n - t.r))
  }

  lemma PickLeft(mem: seq<Item>, t: Activation)
    requires t.Pick? && t.l < t.border <= t.n && t.r <= t.n && t.lo + t.n <= |mem|
    requires t.r == t.n || mem[t.lo + t.l].key <= mem[t.lo + t.r].key
    ensures Pending(mem, t.(x := t.x + [mem[t.lo + t.l]], l := t.l + 1)) == Pending(mem, t)
  {
  }

  lemma PickRight(mem: seq<Item>, t: Activation)
    requires t.Pick? && t.l <= t.border <= t.n && t.r < t.n && t.lo + t.n <= |mem|
    requires t.l == t.border || mem[t.lo + t.r].key < mem[t.lo + t.l].key
    ensures Pending(mem, t.(x := t.x + [mem[t.lo + t.r]], r := t.r + 1)) == Pending(mem, t)
  {
  }

  /** One pick moves the head of one rest to the end of x. */
  lemma PickOne(mem: seq<Item>, t: Activation, t': Activation, was: seq<Item>)
    requires t.Pick? && t.lo + t.n <= |mem| && |was| == t.n && PickOk(mem, t, was)
    requires |t.x| < t.n && PickStep(mem, t, t')
    ensures t'.Pick? && t'.lo == t.lo && t'.n == t.n && PickOk(mem, t', was)
  {
    hide Slice, Merge, IsStableSort;
    assert Pending(mem, t) == Merge(Slice(mem, t.lo, t.border), Slice(mem, t.lo + t.border, t.n - t.border));
    if t.l < t.border && (t.r == t.n || mem[t.lo + t.l].key <= mem[t.lo + t.r].key) {
      PickLeft(mem, t);
    } else {
      PickRight(mem, t);
    }
    assert Pending(mem, t') == Pending(mem, t);
  }

  lemma PickInv(mem: seq<Item>, t: Activation, t': Activation, was: seq<Item>)
    requires t.Pick? && Inv(mem, t, was) && PickStep(mem, t, t')
    ensures Inv(mem, t', was)
  {
    hide Merge, IsStableSort;
    if |t.x| == t.n {
      PickedAll(mem, t, was);
    } else {
      PickOne(mem, t, t', was);
    }
  }

  lemma CopyInv(mem: seq<Item>, t: Activation, mem': seq<Item>, t': Activation, was: seq<Item>)
    requires t.Copy? && Inv(mem, t, was) && Step(mem, t, mem', t')
    ensures Inv(mem', t', was)
  {
    if t.i == t.n {
      assert t.x[..t.i] == t.x;
    } else {
      assert Slice(mem', t.lo, t.i + 1) == Slice(mem, t.lo, t.i) + [t.x[t.i]];
    }
  }

  lemma StartInv(mem: seq<Item>, t: Activation, t': Activation, was: seq<Item>)
    requires t.Todo? && Inv(mem, t, was) && Step(mem, t, mem, t')
    ensures Inv(mem, t', was)
  {
  }

  lemma JoinInv(mem: seq<Item>, t: Activation, was: seq<Item>)
    requires t.Halves? && Inv(mem, t, was) && t.left.Done? && t.right.Done?
    ensures Inv(mem, Pick(t.lo, t.n, t.border, 0, t.border, []), was)
  {
  }

  lemma {:induction false} LeftInv(mem: seq<Item>, t: Activation, mem': seq<Item>, left': Activation, was: seq<Item>)
    requires t.Halves? && Inv(mem, t, was) && Step(mem, t.left, mem', left')
    ensures Inv(mem', t.(left := left'), was)
    decreases t, 0
  {
    hide PickOk, CopyOk, IsStableSort, Slice, Step;
    StepInv(mem, t.left, mem', left', was[..t.border]);
    StepFrame(mem, t.left, mem', left', was[..t.border]);
    InvFrame(mem, mem', t.right, was[t.border..]);
  }

  lemma {:induction false} RightInv(mem: seq<Item>, t: Activation, mem': seq<Item>, right': Activation, was: seq<Item>)
    requires t.Halves? && Inv(mem, t, was) && Step(mem, t.right, mem', right')
    ensures Inv(mem', t.(right := right'), was)
    decreases t, 0
  {
    hide PickOk, CopyOk, IsStableSort, Slice, Step;
    StepInv(mem, t.right, mem', right', was[t.border..]);
    StepFrame(mem, t.right, mem', right', was[t.border..]);
    InvFrame(mem, mem', t.left, was[..t.border]);
  }

  /** Every atomic step of every thread keeps every activation on its way. */
  lemma {:induction false} StepInv(mem: seq<Item>, t: Activation, mem': seq<Item>, t': Activation, was: seq<Item>)
    requires Inv(mem, t, was) && Step(mem, t, mem', t')
    ensures Inv(mem', t', was)
    decreases t, 1
  {
    hide Inv;
    match t
    case Todo(_, _, _) => StartInv(mem, t, t', was);
    case Halves(_, _, border, left, right, _) =>
      if left.Done? && right.Done? {
        JoinInv(mem, t, was);
      } else if t' == t.(left := t'.left) && Step(mem, left, mem', t'.left) {
        LeftInv(mem, t, mem', t'.left, was);
      } else {
        RightInv(mem, t, mem', t'.right, was);
      }
    case Pick(_, _, _, _, _, _) => PickInv(mem, t, t', was);
    case Copy(_, _, _, _) => CopyInv(mem, t, mem', t', was);
  }

  // ---------- whole runs ----------

  lemma {:induction false} RunInv(run: seq<Config>, a: seq<Item>, tcnt: nat)
    requires IsRun(run, a, tcnt)
    ensures var c := run[|run| - 1]; Inv(c.mem, c.root, a) && c.root.lo == 0 && c.root.n == |a| && |c.mem| == |a|
  {
    if |run| > 1 {
      var n := |run| - 1;
      RunInv(run[..n], a, tcnt);
      var c, d := run[n - 1], run[n];
      assert run[..n][n - 1] == c;
      StepInv(c.mem, c.root, d.mem, d.root, a);
      StepFrame(c.mem, c.root, d.mem, d.root, a);
    }
  }

  /** Every finished run, whatever the interleaving, leaves a stable sort in the array. */
  lemma FinishedRunSorts(run: seq<Config>, a: seq<Item>, tcnt: nat)
    requires IsRun(run, a, tcnt) && run[|run| - 1].root.Done?
    ensures IsStableSort(run[|run| - 1].mem, a)
  {
    RunInv(run, a, tcnt);
    var c := run[|run| - 1];
    assert Slice(c.mem, 0, |a|) == c.mem;
  }

  /** Neither the interleaving nor the number of threads shows in the result. */
  lemma RunsAgree(run1: seq<Config>, tcnt1: nat, run2: seq<Config>, tcnt2: nat, a: seq<Item>)
    requires IsRun(run1, a, tcnt1) && run1[|run1| - 1].root.Done?
    requires IsRun(run2, a, tcnt2) && run2[|run2| - 1].root.Done?
    ensures run1[|run1| - 1].mem == run2[|run2| - 1].mem
    ensures multiset(run1[|run1| - 1].mem) == multiset(a)
  {
    FinishedRunSorts(run1, a, tcnt1);
    FinishedRunSorts(run2, a, tcnt2);
    StableSortUnique(run1[|run1| - 1].mem, run2[|run2| - 1].mem, a);
  }

  // ---------- every run ends ----------

  /** Steps still to come. */
  function StepsLeft(t: Activation): nat
    decreases t
  {
    match t
    case Todo(_, n, tcnt) => Work(n, tcnt)
    case Halves(_, n, _, left, right, _) => StepsLeft(left) + StepsLeft(right) + 2 * n + 3
    case Pick(_, n, _, _, _, x) => 2 * n + 2 - (if |x| <= n then |x| else n)
    case Copy(_, n, _, i) => if i <= n then n - i + 1 else 0
    case Done(_, _) => 0
  }

  /** All steps of an activation and of those it starts. */
  function Work(n: nat, tcnt: nat): nat
    decreases Rank(n, tcnt)
  {
    if n < 2 then 1
    else Work(Border(n, tcnt), 1) + Work(n - Border(n, tcnt), Passed(tcnt)) + 2 * n + 4
  }

  lemma LeafCounts(mem: seq<Item>, t: Activation, mem': seq<Item>, t': Activation, was: seq<Item>)
    requires !t.Halves? && Inv(mem, t, was) && Step(mem, t, mem', t')
    ensures StepsLeft(t') + 1 == StepsLeft(t)
  {
    hide Merge, IsStableSort, Slice, Border;
  }

  lemma HalvesInv(mem: seq<Item>, t: Activation, was: seq<Item>)
    requires t.Halves? && Inv(mem, t, was)
    ensures t.border <= |was| && Inv(mem, t.left, was[..t.border]) && Inv(mem, t.right, was[t.border..])
    ensures t.left.Done? && t.right.Done? ==> StepsLeft(t) == 2 * t.n + 3
  {
  }

  lemma {:induction false} StepCounts(mem: seq<Item>, t: Activation, mem': seq<Item>, t': Activation, was: seq<Item>)
    requires Inv(mem, t, was) && Step(mem, t, mem', t')
    ensures StepsLeft(t') + 1 == StepsLeft(t)
    decreases t
  {
    hide Inv;
    if t.Halves? {
      HalvesInv(mem, t, was);
      if !(t.left.Done? && t.right.Done?) {
        if t' == t.(left := t'.left) && Step(mem, t.left, mem', t'.left) {
          StepCounts(mem, t.left, mem', t'.left, was[..t.border]);
        } else {
          StepCounts(mem, t.right, mem', t'.right, was[t.border..]);
        }
      }
    } else {
      LeafCounts(mem, t, mem', t', was);
    }
  }

  /** An activation that is not finished has an enabled step: nobody waits for ever. */
  lemma {:induction false} CanStep(mem: seq<Item>, t: Activation, was: seq<Item>)
    returns (mem': seq<Item>, t': Activation)
    requires Inv(mem, t, was) && !t.Done?
    ensures Step(mem, t, mem', t')
    decreases t
  {
    hide Merge, IsStableSort, Slice;
    mem' := mem;
    match t
    case Todo(lo, n, tcnt) =>
      t' := if n < 2 then Done(lo, n)
            else var b := Border(n, tcnt);
                 Halves(lo, n, b, Todo(lo, b, 1), Todo(lo + b, n - b, Passed(tcnt)), tcnt > 1);
    case Halves(lo, n, border, left, right, _) =>
      if left.Done? && right.Done? {
        t' := Pick(lo, n, border, 0, border, []);
      } else if !left.Done? {
        mem', t' := CanStep(mem, left, was[..border]);
        t' := t.(left := t');
      } else {
        mem', t' := CanStep(mem, right, was[border..]);
        t' := t.(right := t');
      }
    case Pick(lo, n, border, l, r, x) =>
      t' := if |x| == n then Copy(lo, n, x, 0)
            else if r == n then t.(x := x + [mem[lo + l]], l := l + 1)
            else if l == border then t.(x := x + [mem[lo + r]], r := r + 1)
            else if mem[lo + r].key < mem[lo + l].key then t.(x := x + [mem[lo + r]], r := r + 1)
            else t.(x := x + [mem[lo + l]], l := l + 1);
    case Copy(lo, n, x, i) =>
      if i == n {
        t' := Done(lo, n);
      } else {
        mem', t' := mem[lo + i := x[i]], t.(i := i + 1);
      }
  }

  /** Every run has the same number of steps ahead of it: it is finished exactly after Work(|a|, tcnt) steps. */
  lemma {:induction false} RunLength(run: seq<Config>, a: seq<Item>, tcnt: nat)
    requires IsRun(run, a, tcnt)
    ensures |run| - 1 + StepsLeft(run[|run| - 1].root) == Work(|a|, tcnt)
    ensures run[|run| - 1].root.Done? <==> |run| - 1 == Work(|a|, tcnt)
  {
    var n := |run| - 1;
    if n > 0 {
      RunLength(run[..n], a, tcnt);
      RunInv(run[..n], a, tcnt);
      var c, d := run[n - 1], run[n];
      assert run[..n][n - 1] == c;
      StepCounts(c.mem, c.root, d.mem, d.root, a);
    }
    RunInv(run, a, tcnt);
    var c := run[n];
    if !c.root.Done? {
      var mem', t' := CanStep(c.mem, c.root, a);
      StepCounts(c.mem, c.root, mem', t', a);
    }
  }
}
