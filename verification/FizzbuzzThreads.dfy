// fizzbuzz.c's globals, changed in place by the statements of its three threads.
module FizzbuzzThreads {
  import opened Fizzbuzz
  import opened FizzbuzzTrace
  import opened Options

  class Globals {
    var mutex: Option<Role>
    var newNumb: bool
    var fizzDone: bool
    var buzzDone: bool
    var n: int
    var main: Pc
    var fizz: Pc
    var buzz: Pc
    ghost var drawn: seq<int>
    ghost var trace: seq<Event>

    ghost function Abs(): State
      reads this
    {
      State(mutex, newNumb, fizzDone, buzzDone, n, main, fizz, buzz, drawn, trace)
    }

    constructor ()
      ensures Abs() == INIT && Turn(Main)
    {
      mutex := None;
      newNumb, fizzDone, buzzDone := false, false, false;
      n := -1;
      main, fizz, buzz := AtLock, AtLock, AtLock;
      drawn, trace := [], [];
    }

    /** The next statement of main; v is what rand() & 0xf yields if it draws. */
    method StepMain(v: int)
      requires Inv(Abs()) && Enabled(Abs(), Main) && 0 <= v < 16
      modifies this
      ensures Abs() == DoMain(old(Abs()), v) && Inv(Abs())
    {
      StepInv(Abs(), Run(Main, v), DoMain(Abs(), v));
      hide Inv, Wake;
      assert !main.Asleep?;
      match main {
        case AtLock => mutex, main := Some(Main), AtCheck;
        case Woken => mutex, main := Some(Main), AtCheck;
        case AtCheck =>
          if n != -1 && !buzzDone {
            mutex, main := None, Asleep;
          } else {
            main := AtClear;
          }
        case AtClear => buzzDone, main := false, AtDraw;
        case AtDraw => n, drawn, main := v, drawn + [v], AtPrint;
        case AtPrint => trace, main := trace + [Number(n)], AtSet;
        case AtSet => newNumb, main := true, AtSignal;
        case AtSignal => fizz, main := Wake(fizz), AtUnlock;
        case AtUnlock => mutex, main := None, AtLock;
      }
    }

    method PrintFizz()
      modifies this`trace
      ensures trace == old(trace) + FizzPart(n)
      ensures trace == old(trace) + (if n % 3 == 0 then [FizzMark] else [])
    {
      if n % 3 == 0 {
        trace := trace + [FizzMark];
      }
    }

    method StepFizz()
      requires Inv(Abs()) && Enabled(Abs(), Fizz)
      modifies this
      ensures Abs() == DoFizz(old(Abs())) && Inv(Abs())
    {
      StepInv(Abs(), Run(Fizz, 0), DoFizz(Abs()));
      assert !fizz.AtDraw?;
      hide Inv, FizzPart;
      match fizz {
        case AtLock => mutex, fizz := Some(Fizz), AtCheck;
        case Woken => mutex, fizz := Some(Fizz), AtCheck;
        case AtCheck =>
          if !newNumb {
            mutex, fizz := None, Asleep;
          } else {
            fizz := AtClear;
          }
        case AtClear => newNumb, fizz := false, AtPrint;
        case AtPrint =>
          PrintFizz();
          fizz := AtSet;
        case AtSet => fizzDone, fizz := true, AtSignal;
        case AtSignal => buzz, fizz := Wake(buzz), AtUnlock;
        case AtUnlock => mutex, fizz := None, AtLock;
      }
    }

    method PrintBuzz()
      modifies this`trace
      ensures trace == old(trace) + BuzzPart(n)
      ensures trace == old(trace) + (if n % 5 == 0 then [BuzzMark] else [])
    {
      if n % 5 == 0 {
        trace := trace + [BuzzMark];
      }
    }

    method StepBuzz()
      requires Inv(Abs()) && Enabled(Abs(), Buzz)
      modifies this
      ensures Abs() == DoBuzz(old(Abs())) && Inv(Abs())
    {
      StepInv(Abs(), Run(Buzz, 0), DoBuzz(Abs()));
      assert !buzz.AtDraw?;
      hide Inv, BuzzPart;
      match buzz {
        case AtLock => mutex, buzz := Some(Buzz), AtCheck;
        case Woken => mutex, buzz := Some(Buzz), AtCheck;
        case AtCheck =>
          if !fizzDone {
            mutex, buzz := None, Asleep;
          } else {
            buzz := AtClear;
          }
        case AtClear => fizzDone, buzz := false, AtPrint;
        case AtPrint =>
          PrintBuzz();
          buzz := AtSet;
        case AtSet => buzzDone, buzz := true, AtSignal;
        case AtSignal => main, buzz := Wake(main), AtUnlock;
        case AtUnlock => mutex, buzz := None, AtLock;
      }
    }

    /** The mutex is free and thread r is neither asleep nor made to wait by its predicate. */
    ghost predicate Turn(r: Role)
      reads this
    {
      HasTurn(Abs(), r)
    }

    /** main once round its loop, uninterrupted. */
    method MainTurn(v: int)
      requires Turn(Main) && 0 <= v < 16
      modifies this
      ensures Turn(Fizz) && main == AtLock && n == v
      ensures drawn == old(drawn) + [v] && trace == old(trace) + [Number(v)]
    {
      hide Inv, HasTurn, DoMain, Enabled;
      ghost var s := Abs();
      TurnInv(s, Main);
      for k := 0 to 8
        invariant Inv(Abs()) && Abs() == After(s, Main, v, k)
      {
        MainPath(s, v, k);
        StepMain(v);
      }
      MainPath(s, v, 8);
      TurnFollows(Abs(), Fizz);
    }

    method FizzTurn()
      requires Turn(Fizz)
      modifies this
      ensures Turn(Buzz) && main == old(main) && n == old(n) && drawn == old(drawn)
      ensures trace == old(trace) + FizzPart(n)
    {
      hide Inv, HasTurn, DoFizz, Enabled, FizzPart;
      ghost var s := Abs();
      TurnInv(s, Fizz);
      for k := 0 to 7
        invariant Inv(Abs()) && Abs() == After(s, Fizz, 0, k)
      {
        FizzPath(s, k);
        StepFizz();
      }
      FizzPath(s, 7);
      TurnFollows(Abs(), Buzz);
    }

    method BuzzTurn()
      requires Turn(Buzz)
      modifies this
      ensures Turn(Main) && n == old(n) && drawn == old(drawn) && trace == old(trace) + BuzzPart(n)
    {
      hide Inv, HasTurn, DoBuzz, Enabled, BuzzPart;
      ghost var s := Abs();
      TurnInv(s, Buzz);
      for k := 0 to 7
        invariant Inv(Abs()) && Abs() == After(s, Buzz, 0, k)
      {
        BuzzPath(s, k);
        StepBuzz();
      }
      BuzzPath(s, 7);
      TurnFollows(Abs(), Main);
    }

    /** One round: each thread in turn, fizz and buzz woken by the signals if they were asleep. */
    method PlayRound(v: int)
      requires Turn(Main) && 0 <= v < 16
      modifies this
      ensures Turn(Main) && drawn == old(drawn) + [v] && trace == old(trace) + Round(v)
      ensures exists marks: seq<Event> :: Marks(marks, v) && trace == old(trace) + [Number(v)] + marks
    {
      PartsAreMarks(v);
      hide HasTurn, FizzPart, BuzzPart, Marks;
      ghost var was := trace;
      MainTurn(v);
      FizzTurn();
      BuzzTurn();
      assert trace == was + ([Number(v)] + FizzPart(v) + BuzzPart(v));
      assert trace == was + [Number(v)] + (FizzPart(v) + BuzzPart(v));
    }

    /** From any state between rounds the threads print the rounds of the numbers drawn. */
    method Play(vs: seq<int>)
      requires Turn(Main) && forall i :: 0 <= i < |vs| ==> 0 <= vs[i] < 16
      modifies this
      ensures Turn(Main) && drawn == old(drawn) + vs && trace == old(trace) + Rounds(vs)
      ensures AllMarked(trace[|old(trace)|..]) && Numbers(trace[|old(trace)|..]) == vs
    {
      RoundsMarked(vs);
      RoundsNext([], 0);
      hide HasTurn, Round, Rounds, AllMarked, Numbers;
      ghost var was := trace;
      for i := 0 to |vs|
        invariant Turn(Main) && drawn == old(drawn) + vs[..i] && trace == was + Rounds(vs[..i])
      {
        PlayRound(vs[i]);
        assert vs[..i + 1] == vs[..i] + [vs[i]];
        RoundsNext(vs[..i], vs[i]);
        assert was + Rounds(vs[..i]) + Round(vs[i]) == was + (Rounds(vs[..i]) + Round(vs[i]));
      }
      assert vs[..|vs|] == vs;
      DropAppended(old(trace), Rounds(vs));
    }
  }

  // ---------- a thread's turn ----------

  ghost predicate HasTurn(s: State, r: Role) {
    Inv(s) && s.mutex == None && !s.At(r).Asleep? && s.Ready(r)
  }

  lemma TurnInv(s: State, r: Role)
    requires HasTurn(s, r)
    ensures Inv(s)
  {
  }

  /** k statements of thread r without interruption. */
  function After(s: State, r: Role, v: int, k: nat): State {
    if k == 0 then s else Do(After(s, r, v, k - 1), r, v)
  }

  /** Where a thread that does not wait is after k statements, main one behind because it draws. */
  function Line(r: Role, k: nat): Pc {
    match k
    case 1 => AtCheck
    case 2 => AtClear
    case 3 => if r.Main? then AtDraw else AtPrint
    case 4 => if r.Main? then AtPrint else AtSet
    case 5 => if r.Main? then AtSet else AtSignal
    case 6 => if r.Main? then AtSignal else AtUnlock
    case 7 => if r.Main? then AtUnlock else AtLock
    case _ => AtLock
  }

  /** t is where the first k statements of main lead from s. */
  ghost predicate MainAt(s: State, v: int, t: State, k: nat) {
    && (if k == 0 then t.main.AtLock? || t.main.Woken? else t.main == Line(Main, k))
    && t.mutex == (if 1 <= k < 8 then Some(Main) else None)
    && t.newNumb == (s.newNumb || k >= 6) && (k <= 2 ==> t.buzzDone == s.buzzDone)
    && (if k >= 4 then t.n == v && t.drawn == s.drawn + [v] else t.n == s.n && t.drawn == s.drawn)
    && t.trace == (if k >= 5 then s.trace + [Number(v)] else s.trace)
    && t.fizz == (if k >= 7 then Wake(s.fizz) else s.fizz)
  }

  lemma MainMoves(s: State, v: int, t: State, k: nat)
    requires MainAt(s, v, t, k) && k < 8 && s.Ready(Main)
    ensures Enabled(t, Main) && MainAt(s, v, DoMain(t, v), k + 1)
  {
  }

  lemma {:induction false} MainPath(s: State, v: int, k: nat)
    requires HasTurn(s, Main) && k <= 8
    ensures MainAt(s, v, After(s, Main, v, k), k)
    ensures k < 8 ==> Enabled(After(s, Main, v, k), Main)
  {
    TurnStarts(s, Main);
    hide HasTurn, DoMain, Enabled;
    if k > 0 {
      MainPath(s, v, k - 1);
      MainMoves(s, v, After(s, Main, v, k - 1), k - 1);
    }
    if k < 8 {
      MainMoves(s, v, After(s, Main, v, k), k);
    }
  }

  /** t is where the first k statements of fizz lead from s. */
  ghost predicate FizzAt(s: State, t: State, k: nat) {
    && (if k == 0 then t.fizz.AtLock? || t.fizz.Woken? else t.fizz == Line(Fizz, k))
    && t.mutex == (if 1 <= k < 7 then Some(Fizz) else None)
    && t.fizzDone == (s.fizzDone || k >= 5) && (k <= 2 ==> t.newNumb == s.newNumb)
    && t.n == s.n && t.drawn == s.drawn && t.main == s.main
    && t.trace == (if k >= 4 then s.trace + FizzPart(s.n) else s.trace)
    && t.buzz == (if k >= 6 then Wake(s.buzz) else s.buzz)
  }

  lemma FizzMoves(s: State, t: State, k: nat)
    requires FizzAt(s, t, k) && k < 7 && s.Ready(Fizz)
    ensures Enabled(t, Fizz) && FizzAt(s, DoFizz(t), k + 1)
  {
    hide FizzPart;
  }

  lemma {:induction false} FizzPath(s: State, k: nat)
    requires HasTurn(s, Fizz) && k <= 7
    ensures FizzAt(s, After(s, Fizz, 0, k), k)
    ensures k < 7 ==> Enabled(After(s, Fizz, 0, k), Fizz)
  {
    TurnStarts(s, Fizz);
    hide HasTurn, DoFizz, Enabled;
    if k > 0 {
      FizzPath(s, k - 1);
      FizzMoves(s, After(s, Fizz, 0, k - 1), k - 1);
    }
    if k < 7 {
      FizzMoves(s, After(s, Fizz, 0, k), k);
    }
  }

  /** t is where the first k statements of buzz lead from s. */
  ghost predicate BuzzAt(s: State, t: State, k: nat) {
    && (if k == 0 then t.buzz.AtLock? || t.buzz.Woken? else t.buzz == Line(Buzz, k))
    && t.mutex == (if 1 <= k < 7 then Some(Buzz) else None)
    && t.buzzDone == (s.buzzDone || k >= 5) && (k <= 2 ==> t.fizzDone == s.fizzDone)
    && t.n == s.n && t.drawn == s.drawn
    && t.trace == (if k >= 4 then s.trace + BuzzPart(s.n) else s.trace)
    && t.main == (if k >= 6 then Wake(s.main) else s.main)
  }

  lemma BuzzMoves(s: State, t: State, k: nat)
    requires BuzzAt(s, t, k) && k < 7 && s.Ready(Buzz)
    ensures Enabled(t, Buzz) && BuzzAt(s, DoBuzz(t), k + 1)
  {
    hide BuzzPart;
  }

  lemma {:induction false} BuzzPath(s: State, k: nat)
    requires HasTurn(s, Buzz) && k <= 7
    ensures BuzzAt(s, After(s, Buzz, 0, k), k)
    ensures k < 7 ==> Enabled(After(s, Buzz, 0, k), Buzz)
  {
    TurnStarts(s, Buzz);
    hide HasTurn, DoBuzz, Enabled;
    if k > 0 {
      BuzzPath(s, k - 1);
      BuzzMoves(s, After(s, Buzz, 0, k - 1), k - 1);
    }
    if k < 7 {
      BuzzMoves(s, After(s, Buzz, 0, k), k);
    }
  }

  lemma TurnFollows(s: State, r: Role)
    requires Inv(s) && s.mutex == None && !s.At(r).Asleep? && s.Ready(r)
    ensures HasTurn(s, r)
  {
  }

  lemma DropAppended(a: seq<Event>, b: seq<Event>)
    ensures (a + b)[|a|..] == b
  {
  }

  lemma RoundsNext(ns: seq<int>, v: int)
    ensures Rounds(ns + [v]) == Rounds(ns) + Round(v) && Rounds([]) == []
  {
    assert (ns + [v])[..|ns|] == ns;
  }

  /** With the mutex free a thread that is not asleep is about to lock it. */
  lemma TurnStarts(s: State, r: Role)
    requires HasTurn(s, r)
    ensures s.At(r).AtLock? || s.At(r).Woken?
    ensures s.Ready(r) && s.mutex == None
  {
  }
}
