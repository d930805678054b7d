// fizzbuzz.c: three threads hand a number round under one mutex and three condition variables.
module Fizzbuzz {
  import opened Arith
  import opened Options

  datatype Role = Main | Fizz | Buzz

  /**
   * Where a thread is in its loop: about to lock, to test its predicate (holding the mutex), asleep
   * on its condition variable, woken and about to lock again, about to clear its flag, to draw n
   * (main only), to print, to set the next flag, to signal, to unlock.
   */
  datatype Pc = AtLock | AtCheck | Asleep | Woken | AtClear | AtDraw | AtPrint | AtSet | AtSignal | AtUnlock

  datatype Event = Number(n: int) | FizzMark | BuzzMark

  /** `drawn` and `trace` record the numbers main drew and what was printed. */
  datatype State = State(
    mutex: Option<Role>,
    newNumb: bool, fizzDone: bool, buzzDone: bool, n: int,
    main: Pc, fizz: Pc, buzz: Pc,
    drawn: seq<int>, trace: seq<Event>)
  {
    function At(r: Role): Pc {
      match r case Main => main case Fizz => fizz case Buzz => buzz
    }

    /** The negated condition of the thread's wait loop. */
    predicate Ready(r: Role) {
      match r case Main => n == -1 || buzzDone case Fizz => newNumb case Buzz => fizzDone
    }
  }

  function Next(r: Role): Role {
    match r case Main => Fizz case Fizz => Buzz case Buzz => Main
  }

  function FizzPart(n: int): seq<Event> { if n % 3 == 0 then [FizzMark] else [] }
  function BuzzPart(n: int): seq<Event> { if n % 5 == 0 then [BuzzMark] else [] }

  const INIT := State(None, false, false, false, -1, AtLock, AtLock, AtLock, [], [])

  /** A sleeping thread waits for a signal; locking waits for the mutex; nothing else waits. */
  predicate Enabled(s: State, r: Role) {
    match s.At(r)
    case Asleep => false
    case AtLock => s.mutex == None
    case Woken => s.mutex == None
    case _ => true
  }

  /** One atomic step of main. pthread_cond_wait releases the mutex and falls asleep in one step. */
  function DoMain(s: State, v: int): State {
    match s.main
    case AtLock => s.(mutex := Some(Main), main := AtCheck)
    case Woken => s.(mutex := Some(Main), main := AtCheck)
    case AtCheck => if s.Ready(Main) then s.(main := AtClear) else s.(mutex := None, main := Asleep)
    case AtClear => s.(buzzDone := false, main := AtDraw)
    case AtDraw => s.(n := v, drawn := s.drawn + [v], main := AtPrint)
    case AtPrint => s.(trace := s.trace + [Number(s.n)], main := AtSet)
    case AtSet => s.(newNumb := true, main := AtSignal)
    case AtSignal => s.(fizz := Wake(s.fizz), main := AtUnlock)
    case AtUnlock => s.(mutex := None, main := AtLock)
    case Asleep => s
  }

  function DoFizz(s: State): State {
    match s.fizz
    case AtLock => s.(mutex := Some(Fizz), fizz := AtCheck)
    case Woken => s.(mutex := Some(Fizz), fizz := AtCheck)
    case AtCheck => if s.newNumb then s.(fizz := AtClear) else s.(mutex := None, fizz := Asleep)
    case AtClear => s.(newNumb := false, fizz := AtPrint)
    case AtPrint => s.(trace := s.trace + FizzPart(s.n), fizz := AtSet)
    case AtSet => s.(fizzDone := true, fizz := AtSignal)
    case AtSignal => s.(buzz := Wake(s.buzz), fizz := AtUnlock)
    case AtUnlock => s.(mutex := None, fizz := AtLock)
    case _ => s
  }

  function DoBuzz(s: State): State {
    match s.buzz
    case AtLock => s.(mutex := Some(Buzz), buzz := AtCheck)
    case Woken => s.(mutex := Some(Buzz), buzz := AtCheck)
    case AtCheck => if s.fizzDone then s.(buzz := AtClear) else s.(mutex := None, buzz := Asleep)
    case AtClear => s.(fizzDone := false, buzz := AtPrint)
    case AtPrint => s.(trace := s.trace + BuzzPart(s.n), buzz := AtSet)
    case AtSet => s.(buzzDone := true, buzz := AtSignal)
    case AtSignal => s.(main := Wake(s.main), buzz := AtUnlock)
    case AtUnlock => s.(mutex := None, buzz := AtLock)
    case _ => s
  }

  /** pthread_cond_signal: the condition variable has one thread that waits on it. */
  function Wake(pc: Pc): Pc {
    if pc.Asleep? then Woken else pc
  }

  function Do(s: State, r: Role, v: int): State {
    match r case Main => DoMain(s, v) case Fizz => DoFizz(s) case Buzz => DoBuzz(s)
  }

  /** rand() & 0xf yields v; a sleeping thread may also wake without a signal. */
  datatype Action = Run(r: Role, v: int) | Spurious(r: Role)

  predicate Step(s: State, a: Action, s': State) {
    match a
    case Run(r, v) => Enabled(s, r) && 0 <= v < 16 && s' == Do(s, r, v)
    case Spurious(r) =>
      && s.At(r).Asleep?
      && s' == match r case Main => s.(main := Woken) case Fizz => s.(fizz := Woken) case Buzz => s.(buzz := Woken)
  }

  predicate IsRun(states: seq<State>, acts: seq<Action>) {
    && |states| == |acts| + 1
    && states[0] == INIT
    && forall i :: 0 <= i < |acts| ==> Step(states[i], acts[i], states[i + 1])
  }

  // ---------- the invariant ----------

  predicate Holding(pc: Pc) {
    !pc.AtLock? && !pc.Asleep? && !pc.Woken?
  }

  ghost predicate MutexOk(s: State) {
    && (Holding(s.main) <==> s.mutex == Some(Main))
    && (Holding(s.fizz) <==> s.mutex == Some(Fizz))
    && (Holding(s.buzz) <==> s.mutex == Some(Buzz))
  }

  /** The places the number being worked on can be in: exactly one is taken. */
  function Places(s: State): nat {
    Bit(InHand(s.main)) + Bit(s.newNumb) + Bit(InHand(s.fizz)) + Bit(s.fizzDone) + Bit(InHand(s.buzz)) + Bit(s.buzzDone)
  }

  /** Between lowering its own flag and raising the next one a thread has the number in hand. */
  predicate InHand(pc: Pc) {
    pc.AtDraw? || pc.AtPrint? || pc.AtSet?
  }

  ghost predicate BatonOk(s: State) {
    && (if s.drawn == [] then s.n == -1 && Places(s) == Bit(s.main.AtDraw?)
        else s.n == s.drawn[|s.drawn| - 1] && Places(s) == 1)
    && (s.main.AtClear? ==> s.Ready(Main)) && (s.fizz.AtClear? ==> s.newNumb) && (s.buzz.AtClear? ==> s.fizzDone)
    && !s.fizz.AtDraw? && !s.buzz.AtDraw?
  }

  ghost predicate DrawnOk(s: State) {
    forall i :: 0 <= i < |s.drawn| ==> 0 <= s.drawn[i] < 16
  }

  /** A sleeper whose predicate holds is about to be signalled. */
  ghost predicate WakeOk(s: State) {
    && (s.fizz.Asleep? && s.newNumb ==> s.main.AtSignal?)
    && (s.buzz.Asleep? && s.fizzDone ==> s.fizz.AtSignal?)
    && (s.main.Asleep? && s.Ready(Main) ==> s.buzz.AtSignal?)
  }

  datatype Phase = Start | Drawn | Numbered | Fizzed | Complete

  function PhaseOf(s: State): Phase {
    if s.drawn == [] then Start
    else if s.main.AtPrint? then Drawn
    else if s.main.AtSet? || s.newNumb || s.fizz.AtPrint? then Numbered
    else if s.fizz.AtSet? || s.fizzDone || s.buzz.AtPrint? then Fizzed
    else Complete
  }

  function Round(n: int): seq<Event> {
    [Number(n)] + FizzPart(n) + BuzzPart(n)
  }

  function Rounds(ns: seq<int>): seq<Event> {
    if ns == [] then [] else Rounds(ns[..|ns| - 1]) + Round(ns[|ns| - 1])
  }

  /** What of the last round is printed in each phase. */
  function Printed(n: int, p: Phase): seq<Event> {
    match p
    case Start => []
    case Drawn => []
    case Numbered => [Number(n)]
    case Fizzed => [Number(n)] + FizzPart(n)
    case Complete => Round(n)
  }

  ghost predicate TraceOk(s: State) {
    s.trace == if s.drawn == [] then [] else Rounds(s.drawn[..|s.drawn| - 1]) + Printed(s.n, PhaseOf(s))
  }

  ghost predicate Inv(s: State) {
    CoreOk(s) && TraceOk(s)
  }

  /** What holds whatever the threads print. */
  ghost predicate CoreOk(s: State) {
    MutexOk(s) && BatonOk(s) && WakeOk(s) && DrawnOk(s)
  }

  lemma MainMutex(s: State, v: int)
    requires MutexOk(s) && BatonOk(s) && DrawnOk(s) && Enabled(s, Main) && 0 <= v < 16
    ensures MutexOk(DoMain(s, v))
  {
  }

  lemma MainBaton(s: State, v: int)
    requires MutexOk(s) && BatonOk(s) && DrawnOk(s) && Enabled(s, Main) && 0 <= v < 16
    ensures BatonOk(DoMain(s, v))
  {
  }

  lemma MainWake(s: State, v: int)
    requires MutexOk(s) && BatonOk(s) && WakeOk(s) && DrawnOk(s) && Enabled(s, Main) && 0 <= v < 16
    ensures WakeOk(DoMain(s, v))
  {
  }

  lemma FizzMutex(s: State)
    requires MutexOk(s) && BatonOk(s) && Enabled(s, Fizz)
    ensures MutexOk(DoFizz(s))
  {
  }

  lemma FizzBaton(s: State)
    requires MutexOk(s) && BatonOk(s) && Enabled(s, Fizz)
    ensures BatonOk(DoFizz(s))
  {
  }

  lemma FizzWake(s: State)
    requires MutexOk(s) && BatonOk(s) && WakeOk(s) && Enabled(s, Fizz)
    ensures WakeOk(DoFizz(s))
  {
  }

  lemma BuzzMutex(s: State)
    requires MutexOk(s) && BatonOk(s) && Enabled(s, Buzz)
    ensures MutexOk(DoBuzz(s))
  {
  }

  lemma BuzzBaton(s: State)
    requires MutexOk(s) && BatonOk(s) && Enabled(s, Buzz)
    ensures BatonOk(DoBuzz(s))
  {
  }

  lemma BuzzWake(s: State)
    requires MutexOk(s) && BatonOk(s) && WakeOk(s) && Enabled(s, Buzz)
    ensures WakeOk(DoBuzz(s))
  {
  }

  lemma RunCore(s: State, r: Role, v: int)
    requires CoreOk(s) && Enabled(s, r) && 0 <= v < 16
    ensures CoreOk(Do(s, r, v))
  {
    assert DrawnOk(Do(s, r, v));
    hide MutexOk, BatonOk, WakeOk, DrawnOk, DoMain, DoFizz, DoBuzz;
    match r
    case Main => MainMutex(s, v); MainBaton(s, v); MainWake(s, v);
    case Fizz => FizzMutex(s); FizzBaton(s); FizzWake(s);
    case Buzz => BuzzMutex(s); BuzzBaton(s); BuzzWake(s);
  }

  lemma SpuriousCore(s: State, r: Role, s': State)
    requires CoreOk(s) && Step(s, Spurious(r), s')
    ensures CoreOk(s') && PhaseOf(s') == PhaseOf(s) && Ahead(s') == Ahead(s)
  {
    match r
    case Main =>
    case Fizz =>
    case Buzz =>
  }

  /** Printing moves the phase on, and so does a draw; other steps do not. */
  lemma MainPhase(s: State, v: int)
    requires CoreOk(s) && Enabled(s, Main)
    ensures PhaseOf(s).Start? <==> s.drawn == []
    ensures PhaseOf(DoMain(s, v)) == if s.main.AtDraw? then Drawn else if s.main.AtPrint? then Numbered else PhaseOf(s)
    ensures s.main.AtPrint? ==> PhaseOf(s) == Drawn
    ensures s.main.AtDraw? ==> PhaseOf(s).Start? || PhaseOf(s).Complete?
  {
  }

  lemma FizzPhase(s: State)
    requires CoreOk(s) && Enabled(s, Fizz)
    ensures PhaseOf(s).Start? <==> s.drawn == []
    ensures PhaseOf(DoFizz(s)) == if s.fizz.AtPrint? then Fizzed else PhaseOf(s)
    ensures s.fizz.AtPrint? ==> PhaseOf(s) == Numbered
  {
  }

  lemma BuzzPhase(s: State)
    requires CoreOk(s) && Enabled(s, Buzz)
    ensures PhaseOf(s).Start? <==> s.drawn == []
    ensures PhaseOf(DoBuzz(s)) == if s.buzz.AtPrint? then Complete else PhaseOf(s)
    ensures s.buzz.AtPrint? ==> PhaseOf(s) == Fizzed
  {
  }

  lemma MainTrace(s: State, v: int)
    requires Inv(s) && Enabled(s, Main)
    ensures TraceOk(DoMain(s, v))
  {
    hide CoreOk, PhaseOf, Rounds;
    MainPhase(s, v);
    if s.main.AtDraw? {
      assert (s.drawn + [v])[..|s.drawn|] == s.drawn;
      RoundsLast(s.drawn);
      if s.drawn != [] {
        DrawnComplete(s);
      }
    }
  }

  lemma DrawnComplete(s: State)
    requires Inv(s) && s.main.AtDraw? && s.drawn != []
    ensures PhaseOf(s).Complete? && s.n == s.drawn[|s.drawn| - 1]
  {
  }

  lemma RoundsLast(ns: seq<int>)
    ensures Rounds(ns) == if ns == [] then [] else Rounds(ns[..|ns| - 1]) + Round(ns[|ns| - 1])
  {
  }

  lemma FizzTrace(s: State)
    requires Inv(s) && Enabled(s, Fizz)
    ensures TraceOk(DoFizz(s))
  {
    hide CoreOk, PhaseOf, Rounds, FizzPart;
    FizzPhase(s);
  }

  lemma BuzzTrace(s: State)
    requires Inv(s) && Enabled(s, Buzz)
    ensures TraceOk(DoBuzz(s))
  {
    hide CoreOk, PhaseOf, Rounds, FizzPart, BuzzPart;
    BuzzPhase(s);
  }

  lemma RunTrace(s: State, r: Role, v: int)
    requires Inv(s) && Enabled(s, r)
    ensures TraceOk(Do(s, r, v))
  {
    hide Inv, TraceOk, DoMain, DoFizz, DoBuzz;
    match r
    case Main => MainTrace(s, v);
    case Fizz => FizzTrace(s);
    case Buzz => BuzzTrace(s);
  }

  lemma StepInv(s: State, a: Action, s': State)
    requires Inv(s) && Step(s, a, s')
    ensures Inv(s')
  {
    hide CoreOk, PhaseOf, Do, Rounds, Printed;
    match a
    case Run(r, v) =>
      RunCore(s, r, v);
      RunTrace(s, r, v);
    case Spurious(r) => SpuriousCore(s, r, s');
  }

  lemma {:induction false} RunInv(states: seq<State>, acts: seq<Action>)
    requires IsRun(states, acts)
    ensures Inv(states[|acts|])
  {
    if acts != [] {
      var n := |acts| - 1;
      RunInv(states[..n + 1], acts[..n]);
      assert states[..n + 1][n] == states[n];
      StepInv(states[n], acts[n], states[n + 1]);
    }
  }

  // ---------- whole runs ----------

  /** At most one flag is up; the output is a prefix of whole rounds of the numbers drawn. */
  lemma RunIsSafe(states: seq<State>, acts: seq<Action>)
    requires IsRun(states, acts)
    ensures var s := states[|acts|];
            && Bit(s.newNumb) + Bit(s.fizzDone) + Bit(s.buzzDone) <= 1
            && s.trace <= Rounds(s.drawn)
            && (s.drawn != [] ==> Rounds(s.drawn[..|s.drawn| - 1]) <= s.trace)
            && forall i :: 0 <= i < |s.drawn| ==> 0 <= s.drawn[i] < 16
  {
    RunInv(states, acts);
    var s := states[|acts|];
    if s.drawn != [] {
      var before := Rounds(s.drawn[..|s.drawn| - 1]);
      assert Printed(s.n, PhaseOf(s)) <= Round(s.n);
      assert before + Printed(s.n, PhaseOf(s)) <= before + Round(s.n);
    }
  }

  /** From main's draw to buzz's print no step changes n. */
  lemma NumberIsStable(s: State, a: Action, s': State)
    requires Inv(s) && Step(s, a, s') && !PhaseOf(s).Start? && !PhaseOf(s).Complete?
    ensures s'.n == s.n && s'.drawn == s.drawn
  {
    if a.Run? && a.r.Main? {
      MainPhase(s, a.v);
    }
  }

  /** fizz and buzz print for the number main drew last, after it was printed and before the next draw. */
  lemma MarksMatch(s: State, r: Role)
    requires Inv(s) && s.At(r).AtPrint?
    ensures s.drawn != [] && s.n == s.drawn[|s.drawn| - 1] && s.mutex == Some(r)
    ensures PhaseOf(s) == (match r case Main => Drawn case Fizz => Numbered case Buzz => Fizzed)
  {
  }

  /** No lost wakeup: only between a flag's setting and its signal is there a sleeper whose predicate holds. */
  lemma NoLostWakeup(s: State, r: Role)
    requires Inv(s) && s.At(Next(r)).Asleep? && s.Ready(Next(r))
    ensures s.At(r).AtSignal? && s.mutex == Some(r)
    ensures Enabled(s, r) && Do(s, r, 0).At(Next(r)).Woken?
  {
  }

  /** What a thread can wait for: a signal, and the mutex; and a signal need not come. */
  lemma WaitsOnly(s: State, r: Role, v: int)
    requires 0 <= v < 16
    ensures (exists s': State :: Step(s, Run(r, v), s')) <==>
      !s.At(r).Asleep? && (s.At(r).AtLock? || s.At(r).Woken? ==> s.mutex == None)
    ensures (exists s': State :: Step(s, Spurious(r), s') && s'.At(r).Woken?) <==> s.At(r).Asleep?
  {
    assert Enabled(s, r) ==> Step(s, Run(r, v), Do(s, r, v));
    var woken := match r case Main => s.(main := Woken) case Fizz => s.(fizz := Woken) case Buzz => s.(buzz := Woken);
    assert s.At(r).Asleep? ==> Step(s, Spurious(r), woken) && woken.At(r).Woken?;
  }

  /** Some thread can always step, without help from spurious wakeups. */
  lemma AlwaysEnabled(s: State)
    requires Inv(s)
    ensures exists r: Role :: Enabled(s, r)
  {
    if s.mutex.Some? {
      assert Holding(s.At(s.mutex.value));
      assert Enabled(s, s.mutex.value);
    } else {
      assert s.Ready(Main) || s.newNumb || s.fizzDone;
      assert Enabled(s, Main) || Enabled(s, Fizz) || Enabled(s, Buzz);
    }
  }

  // ---------- steady progress ----------

  /** How many places the number has still to pass before main draws the next one. */
  function Ahead(s: State): nat {
    if s.main.AtDraw? then 0
    else if s.main.AtClear? then 1
    else if s.buzzDone || s.drawn == [] then 2
    else if s.buzz.AtSet? then 3
    else if s.buzz.AtPrint? then 4
    else if s.buzz.AtClear? then 5
    else if s.fizzDone then 6
    else if s.fizz.AtSet? then 7
    else if s.fizz.AtPrint? then 8
    else if s.fizz.AtClear? then 9
    else if s.newNumb then 10
    else if s.main.AtSet? then 11
    else 12
  }

  /** Steps a thread can take before it sleeps or moves the number on. */
  function Weight(pc: Pc): nat {
    match pc
    case AtCheck => 1
    case AtLock => 2
    case Woken => 2
    case AtUnlock => 3
    case AtSignal => 6
    case _ => 0
  }

  function Potential(s: State): nat {
    7 * Ahead(s) + Weight(s.main) + Weight(s.fizz) + Weight(s.buzz)
  }

  lemma MainUses(s: State, v: int)
    requires CoreOk(s) && Enabled(s, Main)
    ensures Potential(DoMain(s, v)) <= Potential(s) + (if s.main.AtDraw? then 84 else -1)
  {
  }

  lemma FizzUses(s: State)
    requires CoreOk(s) && Enabled(s, Fizz)
    ensures Potential(DoFizz(s)) <= Potential(s) - 1
  {
  }

  lemma BuzzUses(s: State)
    requires CoreOk(s) && Enabled(s, Buzz)
    ensures Potential(DoBuzz(s)) <= Potential(s) - 1
  {
  }

  /** Every step but a draw or a spurious wakeup uses up potential. */
  lemma StepUsesPotential(s: State, a: Action, s': State)
    requires Inv(s) && Step(s, a, s')
    ensures Potential(s') <= Potential(s) + 85 * (|s'.drawn| - |s.drawn|) + 3 * Bit(a.Spurious?) - 1
  {
    match a
    case Spurious(r) => SpuriousCore(s, r, s'); hide CoreOk, Ahead;
    case Run(r, v) =>
      match r
      case Main => MainUses(s, v); hide Potential;
      case Fizz => FizzUses(s); hide Potential;
      case Buzz => BuzzUses(s); hide Potential;
  }

  function SpuriousIn(acts: seq<Action>): nat {
    if acts == [] then 0 else SpuriousIn(acts[..|acts| - 1]) + Bit(acts[|acts| - 1].Spurious?)
  }

  /**
   * No schedule runs without drawing numbers: with w spurious wakeups, a run that has drawn k
   * numbers has at most 20 + 85 * k + 3 * w steps.
   */
  lemma {:induction false} SteadyProgress(states: seq<State>, acts: seq<Action>)
    requires IsRun(states, acts)
    ensures |acts| + Potential(states[|acts|]) <= 20 + 85 * |states[|acts|].drawn| + 3 * SpuriousIn(acts)
  {
    if acts != [] {
      var n := |acts| - 1;
      SteadyProgress(states[..n + 1], acts[..n]);
      assert states[..n + 1][n] == states[n];
      RunInv(states[..n + 1], acts[..n]);
      StepUsesPotential(states[n], acts[n], states[n + 1]);
    }
  }
}
