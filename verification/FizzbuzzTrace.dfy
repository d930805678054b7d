// What the output of fizzbuzz.c is, read off the trace alone.
module FizzbuzzTrace {
  import opened Arith
  import opened Fizzbuzz

  /** The marks for v: fizz once if 3 divides v, else never; buzz once if 5 divides v, else never, and after fizz. */
  ghost predicate Marks(marks: seq<Event>, v: int) {
    && (forall e :: e in marks ==> e == FizzMark || e == BuzzMark)
    && multiset(marks)[FizzMark] == Bit(v % 3 == 0)
    && multiset(marks)[BuzzMark] == Bit(v % 5 == 0)
    && forall i, j :: 0 <= i < j < |marks| ==> !(marks[i] == BuzzMark && marks[j] == FizzMark)
  }

  /** Event i is a number, and j is where the next number or the end is. */
  ghost predicate Segment(trace: seq<Event>, i: nat, j: nat) {
    && i < j <= |trace| && trace[i].Number?
    && (forall x :: i < x < j ==> !trace[x].Number?)
    && (j < |trace| ==> trace[j].Number?)
  }

  /** The output starts with a number, and each number is followed by its marks up to the next. */
  ghost predicate AllMarked(trace: seq<Event>) {
    && (trace != [] ==> trace[0].Number?)
    && forall i: nat, j: nat :: Segment(trace, i, j) ==> Marks(trace[i + 1..j], trace[i].n)
  }

  ghost predicate Begins(marks: seq<Event>, v: int) {
    exists all: seq<Event> :: marks <= all && Marks(all, v)
  }

  /** The same, but what follows the last number may be only a beginning of its marks. */
  ghost predicate WellMarked(trace: seq<Event>) {
    && (trace != [] ==> trace[0].Number?)
    && forall i: nat, j: nat :: Segment(trace, i, j) ==>
      if j < |trace| then Marks(trace[i + 1..j], trace[i].n)
      else Begins(trace[i + 1..j], trace[i].n)
  }

  /** The numbers printed. */
  function Numbers(trace: seq<Event>): seq<int> {
    if trace == [] then []
    else
      var last := trace[|trace| - 1];
      Numbers(trace[..|trace| - 1]) + (if last.Number? then [last.n] else [])
  }

  lemma {:induction false} NumbersAppend(a: seq<Event>, b: seq<Event>)
    ensures Numbers(a + b) == Numbers(a) + Numbers(b)
    decreases |b|
  {
    if b == [] {
      assert a + b == a;
    } else {
      var n := |b| - 1;
      assert (a + b)[..|a + b| - 1] == a + b[..n];
      NumbersAppend(a, b[..n]);
    }
  }

  lemma {:induction false} MarksHaveNoNumbers(marks: seq<Event>)
    requires forall e :: e in marks ==> !e.Number?
    ensures Numbers(marks) == []
  {
    if marks != [] {
      MarksHaveNoNumbers(marks[..|marks| - 1]);
    }
  }

  /** What fizz and buzz print for v. */
  lemma PartsAreMarks(v: int)
    ensures Marks(FizzPart(v) + BuzzPart(v), v)
  {
  }

  /** The output after one more number and what follows it. */
  function Extended(before: seq<Event>, v: int, marks: seq<Event>): seq<Event> {
    before + [Number(v)] + marks
  }

  lemma {:induction false} RoundNumbers(before: seq<Event>, v: int, marks: seq<Event>)
    requires forall e :: e in marks ==> !e.Number?
    ensures Numbers(Extended(before, v, marks)) == Numbers(before) + [v]
  {
    NumbersAppend(before + [Number(v)], marks);
    MarksHaveNoNumbers(marks);
    assert (before + [Number(v)])[..|before|] == before;
  }

  /** Where the segments of a longer output are. */
  lemma SegmentSplits(before: seq<Event>, v: int, marks: seq<Event>, i: nat, j: nat)
    requires forall e :: e in marks ==> !e.Number?
    requires Segment(Extended(before, v, marks), i, j)
    ensures i < |before| ==> Segment(before, i, j) && Extended(before, v, marks)[i + 1..j] == before[i + 1..j]
    ensures i >= |before| ==>
      && i == |before| && j == |before| + 1 + |marks|
      && Extended(before, v, marks)[i + 1..j] == marks
  {
    var trace := Extended(before, v, marks);
    assert trace[|before|] == Number(v);
    assert forall x :: |before| < x < |trace| ==> trace[x] == marks[x - |before| - 1] && trace[x] in marks;
    assert forall x :: 0 <= x < |before| ==> trace[x] == before[x];
    if i < |before| {
      assert j <= |before|;
      assert forall x :: i < x < j ==> trace[x] == before[x];
    } else {
      assert forall x :: |before| < x < |trace| ==> !trace[x].Number?;
    }
  }

  lemma RoundMarked(before: seq<Event>, v: int, marks: seq<Event>)
    requires AllMarked(before) && Marks(marks, v)
    ensures AllMarked(Extended(before, v, marks))
  {
    var trace := Extended(before, v, marks);
    forall i: nat, j: nat | Segment(trace, i, j) ensures Marks(trace[i + 1..j], trace[i].n) {
      SegmentSplits(before, v, marks, i, j);
    }
  }

  lemma BeginningMarked(before: seq<Event>, v: int, marks: seq<Event>)
    requires AllMarked(before) && Begins(marks, v)
    ensures WellMarked(Extended(before, v, marks))
  {
    var trace := Extended(before, v, marks);
    BeginsHasNoNumbers(marks, v);
    forall i: nat, j: nat | Segment(trace, i, j)
      ensures if j < |trace| then Marks(trace[i + 1..j], trace[i].n)
              else Begins(trace[i + 1..j], trace[i].n)
    {
      SegmentSplits(before, v, marks, i, j);
      MarksBegin(trace[i + 1..j], trace[i].n);
    }
  }

  lemma BeginsHasNoNumbers(marks: seq<Event>, v: int)
    requires Begins(marks, v)
    ensures forall e :: e in marks ==> !e.Number?
  {
    var all: seq<Event> :| marks <= all && Marks(all, v);
    assert forall e :: e in marks ==> e in all;
  }

  lemma MarksBegin(marks: seq<Event>, v: int)
    ensures Marks(marks, v) ==> Begins(marks, v)
  {
    assert marks <= marks;
  }

  lemma ExtendedIs(before: seq<Event>, v: int, marks: seq<Event>)
    ensures before + ([Number(v)] + marks) == Extended(before, v, marks)
  {
  }

  lemma NothingPrinted(before: seq<Event>, v: int)
    ensures before + Printed(v, Drawn) == before
  {
  }

  lemma RoundIs(before: seq<Event>, v: int)
    ensures before + Round(v) == Extended(before, v, FizzPart(v) + BuzzPart(v))
  {
    hide FizzPart, BuzzPart;
  }

  lemma RoundsLastMarks(ns: seq<int>) returns (marks: seq<Event>)
    requires ns != []
    ensures Rounds(ns) == Extended(Rounds(ns[..|ns| - 1]), ns[|ns| - 1], marks) && Marks(marks, ns[|ns| - 1])
    ensures forall e :: e in marks ==> !e.Number?
  {
    var v := ns[|ns| - 1];
    PartsAreMarks(v);
    RoundsLast(ns);
    marks := FizzPart(v) + BuzzPart(v);
    MarksBegin(marks, v);
    BeginsHasNoNumbers(marks, v);
    RoundIs(Rounds(ns[..|ns| - 1]), v);
    hide *;
  }

  lemma NothingMarked()
    ensures Rounds([]) == [] && AllMarked([]) && Numbers([]) == []
  {
  }

  /** Whole rounds are numbers with their marks. */
  lemma {:induction false} RoundsMarked(ns: seq<int>)
    ensures AllMarked(Rounds(ns)) && Numbers(Rounds(ns)) == ns
  {
    hide *;
    if ns == [] {
      NothingMarked();
    } else {
      var n := |ns| - 1;
      RoundsMarked(ns[..n]);
      var marks := RoundsLastMarks(ns);
      RoundMarked(Rounds(ns[..n]), ns[n], marks);
      RoundNumbers(Rounds(ns[..n]), ns[n], marks);
      assert ns == ns[..n] + [ns[n]];
    }
  }

  lemma AllMarkedIsWellMarked(trace: seq<Event>)
    requires AllMarked(trace)
    ensures WellMarked(trace)
  {
    forall i: nat, j: nat | Segment(trace, i, j)
      ensures if j < |trace| then Marks(trace[i + 1..j], trace[i].n)
              else Begins(trace[i + 1..j], trace[i].n)
    {
      MarksBegin(trace[i + 1..j], trace[i].n);
    }
  }

  /** What is printed of the current round. */
  lemma PrintedSplits(v: int, p: Phase) returns (marks: seq<Event>)
    requires p.Numbered? || p.Fizzed? || p.Complete?
    ensures Printed(v, p) == [Number(v)] + marks && Begins(marks, v)
  {
    PartsAreMarks(v);
    hide Marks, FizzPart, BuzzPart;
    marks := match p
      case Numbered => []
      case Fizzed => FizzPart(v)
      case _ => FizzPart(v) + BuzzPart(v);
    assert marks <= FizzPart(v) + BuzzPart(v);
    assert Printed(v, p) == [Number(v)] + marks;
  }

  /** The output in every reachable state. */
  lemma OutputMarked(s: State)
    requires Inv(s)
    ensures WellMarked(s.trace)
    ensures Numbers(s.trace) == s.drawn || (s.drawn != [] && Numbers(s.trace) == s.drawn[..|s.drawn| - 1])
  {
    if s.drawn == [] {
      assert s.trace == [];
    } else {
      var n := |s.drawn| - 1;
      RoundsMarked(s.drawn[..n]);
      PhaseStarted(s);
      RoundInProgress(s, Rounds(s.drawn[..n]), s.drawn[..n]);
    }
  }

  lemma RoundInProgress(s: State, before: seq<Event>, ns: seq<int>)
    requires AllMarked(before) && Numbers(before) == ns && s.drawn == ns + [s.n]
    requires s.trace == before + Printed(s.n, PhaseOf(s)) && !PhaseOf(s).Start?
    ensures WellMarked(s.trace) && (Numbers(s.trace) == s.drawn || Numbers(s.trace) == ns)
  {
    hide *;
    if PhaseOf(s).Drawn? {
      NothingPrinted(before, s.n);
      AllMarkedIsWellMarked(before);
    } else {
      var marks := PrintedSplits(s.n, PhaseOf(s));
      ExtendedIs(before, s.n, marks);
      BeginningMarked(before, s.n, marks);
      BeginsHasNoNumbers(marks, s.n);
      RoundNumbers(before, s.n, marks);
    }
  }

  lemma PhaseStarted(s: State)
    requires Inv(s) && s.drawn != []
    ensures !PhaseOf(s).Start? && s.n == s.drawn[|s.drawn| - 1]
    ensures s.trace == Rounds(s.drawn[..|s.drawn| - 1]) + Printed(s.n, PhaseOf(s))
  {
  }

  /** The numbers rand gave in a run: those of main's actions at its draw. */
  function Draws(states: seq<State>, acts: seq<Action>): seq<int>
    requires |states| == |acts| + 1
  {
    if acts == [] then []
    else
      var n := |acts| - 1;
      var draws := acts[n].Run? && acts[n].r.Main? && states[n].main.AtDraw?;
      Draws(states[..n + 1], acts[..n]) + (if draws then [acts[n].v] else [])
  }

  lemma StepDraws(s: State, a: Action, s': State)
    requires Step(s, a, s')
    ensures s'.drawn == s.drawn + (if a.Run? && a.r.Main? && s.main.AtDraw? then [a.v] else [])
  {
  }

  lemma {:induction false} DrawnAreDraws(states: seq<State>, acts: seq<Action>)
    requires IsRun(states, acts)
    ensures states[|acts|].drawn == Draws(states, acts)
  {
    if acts != [] {
      var n := |acts| - 1;
      DrawnAreDraws(states[..n + 1], acts[..n]);
      assert states[..n + 1][n] == states[n];
      StepDraws(states[n], acts[n], states[n + 1]);
      hide Step;
    }
  }

  /**
   * Over every run, on the trace and the actions alone: the numbers printed are those that rand gave, the
   * last one perhaps not yet, and each is followed by exactly its marks, the last by a beginning of them.
   */
  lemma RunOutput(states: seq<State>, acts: seq<Action>)
    requires IsRun(states, acts)
    ensures var trace, draws := states[|acts|].trace, Draws(states, acts);
            && WellMarked(trace)
            && (Numbers(trace) == draws || (draws != [] && Numbers(trace) == draws[..|draws| - 1]))
  {
    RunInv(states, acts);
    DrawnAreDraws(states, acts);
    OutputMarked(states[|acts|]);
  }
}
