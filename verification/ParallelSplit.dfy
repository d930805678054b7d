// mergesort.c: which threads there are, which slices they own, how even the split is.
module ParallelSplit {
  import opened Arith
  import opened StableSort
  import opened ParallelSort

  // ---------- slices in use ----------

  /** The slices of the activations that can step now, left to right. */
  function Active(t: Activation): seq<(nat, nat)>
    decreases t
  {
    match t
    case Done(_, _) => []
    case Halves(lo, n, _, left, right, forked) =>
      if left.Done? && right.Done? then [(lo, n)]
      else Active(left) + (if forked || left.Done? then Active(right) else [])
    case _ => [(t.lo, t.n)]
  }

  ghost predicate Disjoint(a: seq<(nat, nat)>, lo: nat, n: nat) {
    && (forall i :: 0 <= i < |a| ==> lo <= a[i].0 && a[i].0 + a[i].1 <= lo + n)
    && (forall i, j :: 0 <= i < j < |a| ==> a[i].0 + a[i].1 <= a[j].0)
  }

  /** Activations that can step at the same time own disjoint slices. */
  lemma {:induction false} ActiveDisjoint(mem: seq<Item>, t: Activation, was: seq<Item>)
    requires Inv(mem, t, was)
    ensures Disjoint(Active(t), t.lo, t.n)
    decreases t
  {
    if t.Halves? && !(t.left.Done? && t.right.Done?) {
      ActiveDisjoint(mem, t.left, was[..t.border]);
      ActiveDisjoint(mem, t.right, was[t.border..]);
    }
  }

  /** A step writes inside one active slice only. */
  lemma {:induction false} StepIsLocal(mem: seq<Item>, t: Activation, mem': seq<Item>, t': Activation,
                                       was: seq<Item>)
    returns (k: nat)
    requires Inv(mem, t, was) && Step(mem, t, mem', t')
    ensures k < |Active(t)|
    ensures |mem'| == |mem|
    ensures var (lo, n) := Active(t)[k];
            forall i :: 0 <= i < |mem| && !(lo <= i < lo + n) ==> mem'[i] == mem[i]
    decreases t
  {
    hide Inv;
    k := 0;
    if t.Halves? && !(t.left.Done? && t.right.Done?) {
      HalvesInv(mem, t, was);
      if t' == t.(left := t'.left) && Step(mem, t.left, mem', t'.left) {
        k := StepIsLocal(mem, t.left, mem', t'.left, was[..t.border]);
      } else {
        k := StepIsLocal(mem, t.right, mem', t'.right, was[t.border..]);
        hide Step;
        assert Active(t) == Active(t.left) + Active(t.right);
        k := |Active(t.left)| + k;
      }
    } else {
      StepFrame(mem, t, mem', t', was);
    }
  }

  /** m with the slice at lo taken from m'. */
  function Patch(m: seq<Item>, m': seq<Item>, lo: nat, n: nat): (r: seq<Item>)
    requires |m'| == |m| && lo + n <= |m|
    ensures |r| == |m|
    ensures forall i :: 0 <= i < |m| ==> r[i] == if lo <= i < lo + n then m'[i] else m[i]
  {
    m[..lo] + m'[lo..lo + n] + m[lo + n..]
  }

  lemma PatchSame(m: seq<Item>, m': seq<Item>, lo: nat, n: nat, r: seq<Item>)
    requires |m'| == |m| == |r| && lo + n <= |m|
    requires forall i :: 0 <= i < |m| ==> r[i] == if lo <= i < lo + n then m'[i] else m[i]
    ensures Patch(m, m', lo, n) == r
  {
  }

  lemma {:induction false} LeftElsewhere(mem: seq<Item>, t: Activation, mem': seq<Item>, left': Activation,
                                         was: seq<Item>, other: seq<Item>)
    requires t.Halves? && Inv(mem, t, was) && Step(mem, t.left, mem', left')
    requires SameOn(mem, other, t.lo, t.n) && |mem'| == |mem|
    ensures Step(other, t.left, Patch(other, mem', t.lo, t.n), left')
    decreases t, 0
  {
    hide Step, Patch, Merge, IsStableSort, Slice;
    StepFrame(mem, t.left, mem', left', was[..t.border]);
    StepElsewhere(mem, t.left, mem', left', was[..t.border], other);
    PatchSame(other, mem', t.lo, t.n, Patch(other, mem', t.left.lo, t.left.n));
  }

  lemma {:induction false} RightElsewhere(mem: seq<Item>, t: Activation, mem': seq<Item>, right': Activation,
                                          was: seq<Item>, other: seq<Item>)
    requires t.Halves? && Inv(mem, t, was) && Step(mem, t.right, mem', right')
    requires SameOn(mem, other, t.lo, t.n) && |mem'| == |mem|
    ensures Step(other, t.right, Patch(other, mem', t.lo, t.n), right')
    decreases t, 0
  {
    hide Step, Patch, Merge, IsStableSort, Slice;
    StepFrame(mem, t.right, mem', right', was[t.border..]);
    StepElsewhere(mem, t.right, mem', right', was[t.border..], other);
    PatchSame(other, mem', t.lo, t.n, Patch(other, mem', t.right.lo, t.right.n));
  }

  /** A step reads its own slice only: with any other contents elsewhere it is the same step. */
  lemma {:induction false} StepElsewhere(mem: seq<Item>, t: Activation, mem': seq<Item>, t': Activation,
                                         was: seq<Item>, other: seq<Item>)
    requires Inv(mem, t, was) && Step(mem, t, mem', t') && SameOn(mem, other, t.lo, t.n) && |mem'| == |mem|
    ensures Step(other, t, Patch(other, mem', t.lo, t.n), t')
    decreases t, 1
  {
    hide Merge, IsStableSort, Slice, Patch;
    match t
    case Halves(_, _, _, left, right, _) =>
      if left.Done? && right.Done? {
        PatchSame(other, mem', t.lo, t.n, other);
      } else if t' == t.(left := t'.left) && Step(mem, left, mem', t'.left) {
        LeftElsewhere(mem, t, mem', t'.left, was, other);
      } else {
        RightElsewhere(mem, t, mem', t'.right, was, other);
      }
    case Copy(lo, n, x, i) => PatchSame(other, mem', t.lo, t.n, if i < n then other[lo + i := x[i]] else other);
    case _ => PatchSame(other, mem', t.lo, t.n, other);
  }

  /** Race freedom: steps of a forked half and of the parent's half commute. */
  lemma ForkedStepsCommute(mem: seq<Item>, t: Activation, was: seq<Item>,
                           mem1: seq<Item>, left': Activation, mem2: seq<Item>, right': Activation)
    returns (both: seq<Item>)
    requires t.Halves? && t.forked && Inv(mem, t, was)
    requires Step(mem, t.left, mem1, left') && Step(mem, t.right, mem2, right')
    ensures Step(mem1, t.(left := left'), both, t.(left := left', right := right'))
    ensures Step(mem2, t.(right := right'), both, t.(left := left', right := right'))
  {
    hide Merge, IsStableSort, Slice, Patch;
    var l, r := t.left, t.right;
    StepFrame(mem, l, mem1, left', was[..t.border]);
    StepFrame(mem, r, mem2, right', was[t.border..]);
    StepElsewhere(mem, l, mem1, left', was[..t.border], mem2);
    StepElsewhere(mem, r, mem2, right', was[t.border..], mem1);
    both := Patch(mem1, mem2, r.lo, r.n);
    PatchSame(mem2, mem1, l.lo, l.n, both);
  }

  /** A half that is still at work is not merged: the join waits for it. */
  lemma JoinWaits(mem: seq<Item>, t: Activation, mem': seq<Item>, t': Activation, was: seq<Item>)
    requires t.Halves? && Inv(mem, t, was) && Step(mem, t, mem', t') && t'.Pick?
    ensures IsStableSort(Slice(mem, t.lo, t.border), was[..t.border])
    ensures IsStableSort(Slice(mem, t.lo + t.border, t.n - t.border), was[t.border..])
  {
  }

  // ---------- threads ----------

  /** The slice of each thread: the forked ones from the left, the parent's own last. */
  function Parts(lo: nat, n: nat, tcnt: nat): (p: seq<(nat, nat)>)
    ensures p != []
    decreases tcnt
  {
    if n < 2 || tcnt < 2 then [(lo, n)]
    else var b := Border(n, tcnt); [(lo, b)] + Parts(lo + b, n - b, Passed(tcnt))
  }

  function Forks(lo: nat, n: nat, tcnt: nat): seq<(nat, nat)> {
    var p := Parts(lo, n, tcnt);
    p[..|p| - 1]
  }

  /** The slices of the threads t has still to start, in the order in which it starts them. */
  function ToFork(t: Activation): seq<(nat, nat)>
    decreases t
  {
    match t
    case Todo(lo, n, tcnt) => Forks(lo, n, tcnt)
    case Halves(_, _, _, left, right, _) => ToFork(left) + ToFork(right)
    case _ => []
  }

  /** A left half starts no threads, so those of the right halves come in a fixed order. */
  ghost predicate LeftsFinal(t: Activation)
    decreases t
  {
    t.Halves? ==> ToFork(t.left) == [] && LeftsFinal(t.left) && LeftsFinal(t.right)
  }

  /** The slice of the thread this step starts, if it starts one. */
  function Forked(t: Activation, t': Activation): seq<(nat, nat)>
    decreases t
  {
    match t
    case Todo(_, _, _) => if t'.Halves? && t'.forked then [(t'.left.lo, t'.left.n)] else []
    case Halves(_, _, _, left, right, _) =>
      if !t'.Halves? then []
      else if left != t'.left then Forked(left, t'.left)
      else Forked(right, t'.right)
    case _ => []
  }

  lemma SequentialForks(lo: nat, n: nat, tcnt: nat)
    requires n < 2 || tcnt < 2
    ensures Forks(lo, n, tcnt) == []
  {
  }

  lemma StartForks(mem: seq<Item>, t: Activation, mem': seq<Item>, t': Activation)
    requires t.Todo? && Step(mem, t, mem', t')
    ensures LeftsFinal(t') && ToFork(t) == Forked(t, t') + ToFork(t')
  {
    if t.n >= 2 {
      var b := Border(t.n, t.tcnt);
      SequentialForks(t.lo, b, 1);
      if t.tcnt >= 2 {
        assert Parts(t.lo, t.n, t.tcnt) == [(t.lo, b)] + Parts(t.lo + b, t.n - b, Passed(t.tcnt));
      }
    }
  }

  lemma {:induction false} StepForks(mem: seq<Item>, t: Activation, mem': seq<Item>, t': Activation, was: seq<Item>)
    requires Inv(mem, t, was) && LeftsFinal(t) && Step(mem, t, mem', t')
    ensures LeftsFinal(t') && ToFork(t) == Forked(t, t') + ToFork(t')
    decreases t
  {
    hide Inv, Forks;
    match t
    case Todo(_, _, _) => StartForks(mem, t, mem', t');
    case Halves(_, _, border, left, right, _) =>
      HalvesInv(mem, t, was);
      if !(left.Done? && right.Done?) {
        if t' == t.(left := t'.left) && Step(mem, left, mem', t'.left) {
          StepForks(mem, left, mem', t'.left, was[..border]);
          StepCounts(mem, left, mem', t'.left, was[..border]);
        } else {
          StepForks(mem, right, mem', t'.right, was[border..]);
        }
      }
    case _ =>
  }

  /** The slices of the threads started in a run, in order. */
  function Started(run: seq<Config>): seq<(nat, nat)> {
    if |run| < 2 then []
    else Started(run[..|run| - 1]) + Forked(run[|run| - 2].root, run[|run| - 1].root)
  }

  lemma {:induction false} RunForks(run: seq<Config>, a: seq<Item>, tcnt: nat)
    requires IsRun(run, a, tcnt)
    ensures LeftsFinal(run[|run| - 1].root)
    ensures Started(run) + ToFork(run[|run| - 1].root) == Forks(0, |a|, tcnt)
  {
    var n := |run| - 1;
    if n > 0 {
      RunForks(run[..n], a, tcnt);
      RunInv(run[..n], a, tcnt);
      var c, d := run[n - 1], run[n];
      assert run[..n][n - 1] == c;
      StepForks(c.mem, c.root, d.mem, d.root, a);
      hide *;
      assert Started(run[..n]) + (Forked(c.root, d.root) + ToFork(d.root))
        == Started(run[..n]) + Forked(c.root, d.root) + ToFork(d.root);
    }
  }

  // ---------- the split ----------

  lemma RestAtLeastTwo(n: nat, t: nat)
    requires n >= 2
    ensures t > 2 ==> n - n / t >= 2
  {
    if t > 2 {
      DivBounds(n, t);
      MulGrows(n / t, 3, t);
    }
  }

  ghost predicate Tiles(p: seq<(nat, nat)>, lo: nat, n: nat) {
    && p != [] && p[0].0 == lo && p[|p| - 1].0 + p[|p| - 1].1 == lo + n
    && forall i :: 0 <= i < |p| - 1 ==> p[i].0 + p[i].1 == p[i + 1].0
  }

  lemma OneTile(lo: nat, n: nat)
    ensures Tiles([(lo, n)], lo, n)
  {
  }

  lemma TilesCons(lo: nat, b: nat, n: nat, rest: seq<(nat, nat)>)
    requires b <= n && Tiles(rest, lo + b, n - b)
    ensures Tiles([(lo, b)] + rest, lo, n)
  {
  }

  /** sort cuts after n / tcnt items, and in the middle for up to two threads, rounded down. */
  lemma BorderIs(n: nat, tcnt: nat)
    requires n >= 2
    ensures var t := if tcnt > 2 then tcnt else 2; Border(n, tcnt) * t <= n < Border(n, tcnt) * t + t
  {
    DivBounds(n, if tcnt > 2 then tcnt else 2);
  }

  /** n items in t slices of q or, the last r of them, q + 1. */
  ghost predicate Sizes(p: seq<(nat, nat)>, t: nat, q: nat, r: nat) {
    |p| == t && forall i :: 0 <= i < t ==> p[i].1 == if i < t - r then q else q + 1
  }

  lemma SizesCons(lo: nat, rest: seq<(nat, nat)>, t: nat, q: nat, r: nat)
    requires t >= 1 && r <= t && Sizes(rest, t, q, r)
    ensures Sizes([(lo, q)] + rest, t + 1, q, r)
  {
  }

  /** All q + 1, or none of them q + 1: two ways to say it. */
  lemma SizesFull(p: seq<(nat, nat)>, t: nat, q: nat)
    requires Sizes(p, t, q + 1, 0)
    ensures Sizes(p, t, q, t)
  {
  }

  lemma AfterFirst(n: nat, t: nat, q: nat, r: nat)
    requires n >= 2 && t >= 2 && n == q * t + r && r < t
    ensures Border(n, t) == q && q <= n && (t > 2 ==> n - q >= 2)
    ensures r < t - 1 ==> n - q == q * (t - 1) + r
    ensures r == t - 1 ==> n - q == (q + 1) * (t - 1) + 0
  {
    QuotientIs(n, t, q, r);
    RestAtLeastTwo(n, t);
    assert q * t == q * (t - 1) + q;
    assert (q + 1) * (t - 1) == q * (t - 1) + (t - 1);
  }

  lemma {:induction false} SplitSizes(lo: nat, n: nat, t: nat, q: nat, r: nat)
    requires t >= 1 && (n >= 2 || t == 1) && n == q * t + r && r < t
    ensures Tiles(Parts(lo, n, t), lo, n) && Sizes(Parts(lo, n, t), t, q, r)
    decreases t
  {
    hide *;
    if t == 1 {
      OneTile(lo, n);
      OneSize(lo, n);
    } else {
      AfterFirst(n, t, q, r);
      PartsUnfold(lo, n, t);
      var rest := Parts(lo + q, n - q, t - 1);
      if r < t - 1 {
        SplitSizes(lo + q, n - q, t - 1, q, r);
      } else {
        SplitSizes(lo + q, n - q, t - 1, q + 1, 0);
        SizesFull(rest, t - 1, q);
      }
      SizesCons(lo, rest, t - 1, q, r);
      TilesCons(lo, q, n, rest);
    }
  }

  lemma OneSize(lo: nat, n: nat)
    ensures Sizes([(lo, n)], 1, n, 0) && Parts(lo, n, 1) == [(lo, n)]
  {
  }

  lemma PartsUnfold(lo: nat, n: nat, tcnt: nat)
    requires n >= 2 && tcnt >= 2
    ensures var b := Border(n, tcnt); Parts(lo, n, tcnt) == [(lo, b)] + Parts(lo + b, n - b, tcnt - 1)
  {
  }

  /** tcnt threads get consecutive slices that cover the array: n / tcnt items each, the last n % tcnt one more. */
  lemma EvenSplit(lo: nat, n: nat, tcnt: nat)
    requires n >= 2 && tcnt >= 1
    ensures |Parts(lo, n, tcnt)| == tcnt && Tiles(Parts(lo, n, tcnt), lo, n)
    ensures forall i :: 0 <= i < tcnt ==>
      Parts(lo, n, tcnt)[i].1 == if i < tcnt - n % tcnt then n / tcnt else n / tcnt + 1
  {
    SplitSizes(lo, n, tcnt, n / tcnt, n % tcnt);
  }

  /**
   * Every finished run has started one thread for each slice of the split but the last, in that
   * order: on two or more items and tcnt >= 1 threads, tcnt - 1 of them.
   */
  lemma FinishedRunForks(run: seq<Config>, a: seq<Item>, tcnt: nat)
    requires IsRun(run, a, tcnt) && run[|run| - 1].root.Done?
    ensures Started(run) == Parts(0, |a|, tcnt)[..|Parts(0, |a|, tcnt)| - 1]
    ensures |a| >= 2 && tcnt >= 1 ==> |Started(run)| == tcnt - 1
  {
    RunForks(run, a, tcnt);
    if |a| >= 2 && tcnt >= 1 {
      EvenSplit(0, |a|, tcnt);
    }
  }
}
