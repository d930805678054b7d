// What the calls of put and take hand over in a run of the blocking ring queue, call by call.
module QueueCalls {
  import opened Options
  import opened QueueProtocol

  /**
   * A step moves the process that takes it to its next statement and leaves all others as they are, and
   * only a producer's write changes a slot, the one at tail; a death only kills.
   */
  lemma StepTouchesOnlyItself(s: State, a: Action, s': State)
    requires Step(s, a, s')
    ensures |s'.procs| == |s.procs| && s'.cap == s.cap && |s'.buffer| == |s.buffer|
    ensures forall i :: 0 <= i < |s.buffer| && s'.buffer[i] != s.buffer[i] ==>
      a.Do? && s.procs[a.p].role.Producer? && s.procs[a.p].pc.AtSlot? && i == s.tail
    ensures forall q :: 0 <= q < |s.procs| && q != a.p ==> s'.procs[q] == s.procs[q]
    ensures a.Die? ==> s' == s.(procs := s'.procs) && s'.procs[a.p] == s.procs[a.p].(alive := false)
    ensures a.Do? ==>
      var was, proc := s.procs[a.p], s'.procs[a.p];
      was.alive && proc.alive && proc.role == was.role && proc.pc == NextPc(was.pc)
  {
  }

  /** What a live process waits for: a token of its semaphore, a mutex whose owner is alive. It can die anywhere. */
  lemma WaitsOnly(s: State, p: nat, e: Elem)
    requires Inv(s) && p < |s.procs| && s.procs[p].alive
    ensures exists s': State :: Step(s, Die(p), s')
    ensures var proc := s.procs[p];
            (exists s': State :: Step(s, Do(p, e), s')) <==>
              && (proc.pc.AtWait? ==> 0 < (if proc.role.Producer? then s.space else s.element))
              && (proc.pc.AtLock? ==> forall q :: s.Owner(proc.role) == Some(q) ==> !s.procs[q].alive)
  {
    assert OwnerOk(s, s.procs[p].role);
    assert Step(s, Die(p), Crash(s, p));
    assert Enabled(s, p) ==> Step(s, Do(p, e), Next(s, p, e));
  }

  // ---------- calls and their results ----------

  /** The elements p was asked to put: those of its actions that start a put. */
  function Arguments(states: seq<State>, acts: seq<Action>, p: nat): seq<Elem>
    requires |states| == |acts| + 1
  {
    if acts == [] then []
    else
      var n := |acts| - 1;
      var a, s := acts[n], states[n];
      var starts := a.Do? && a.p == p && p < |s.procs| && s.procs[p].role.Producer? && s.procs[p].pc.AtWait?;
      Arguments(states[..n + 1], acts[..n], p) + (if starts then [a.e] else [])
  }

  /** The elements p's finished takes returned: what p holds after its sem_post. */
  function Returned(states: seq<State>, acts: seq<Action>, p: nat): seq<Elem>
    requires |states| == |acts| + 1
  {
    if acts == [] then []
    else
      var n := |acts| - 1;
      var a, s, s' := acts[n], states[n], states[n + 1];
      var ends := a.Do? && a.p == p && p < |s.procs| && p < |s'.procs|
        && s.procs[p].role.Consumer? && s.procs[p].pc.AtPost?;
      Returned(states[..n + 1], acts[..n], p) + (if ends then [s'.procs[p].elem] else [])
  }

  /** For each element ever committed by a put, the process whose action committed it. */
  function PutBy(states: seq<State>, acts: seq<Action>): seq<nat>
    requires |states| == |acts| + 1
  {
    if acts == [] then []
    else
      var n := |acts| - 1;
      PutBy(states[..n + 1], acts[..n]) + (if |states[n + 1].puts| > |states[n].puts| then [acts[n].p] else [])
  }

  /** For each element ever committed by a take, the process whose action committed it. */
  function TakenBy(states: seq<State>, acts: seq<Action>): seq<nat>
    requires |states| == |acts| + 1
  {
    if acts == [] then []
    else
      var n := |acts| - 1;
      TakenBy(states[..n + 1], acts[..n]) + (if |states[n + 1].takes| > |states[n].takes| then [acts[n].p] else [])
  }

  /** The elements of xs that are p's, in order. */
  function Own(xs: seq<Elem>, who: seq<nat>, p: nat): seq<Elem>
    requires |who| == |xs|
  {
    if xs == [] then []
    else
      var n := |xs| - 1;
      Own(xs[..n], who[..n], p) + (if who[n] == p then [xs[n]] else [])
  }

  lemma OwnNext(xs: seq<Elem>, who: seq<nat>, p: nat, x: Elem, q: nat)
    requires |who| == |xs|
    ensures Own(xs + [x], who + [q], p) == Own(xs, who, p) + (if q == p then [x] else [])
  {
    assert (xs + [x])[..|xs|] == xs && (who + [q])[..|who|] == who;
  }

  /** What a step does to the committed elements. */
  lemma StepCommits(s: State, a: Action, s': State)
    requires Step(s, a, s')
    ensures var puts := a.Do? && s.procs[a.p].role.Producer? && s.procs[a.p].pc.AtAdvance?;
            s'.puts == if puts then s.puts + [s.procs[a.p].elem] else s.puts
    ensures var takes := a.Do? && s.procs[a.p].role.Consumer? && s.procs[a.p].pc.AtAdvance?;
            s'.takes == if takes then s.takes + [s.procs[a.p].elem] else s.takes
  {
  }

  /** The element of a call: a put keeps its argument until it is committed, a take keeps what it committed. */
  lemma StepKeepsElem(s: State, a: Action, s': State, p: nat)
    requires Step(s, a, s') && p < |s.procs| && p < |s'.procs|
    ensures s.procs[p].role.Producer? && s.procs[p].pc.AtWait? && a.Do? && a.p == p ==> s'.procs[p].elem == a.e
    ensures PutBefore(s.procs[p]) || TakeAfter(s.procs[p]) ==> s'.procs[p].elem == s.procs[p].elem
    ensures TakeBefore(s.procs[p]) && TakeAfter(s'.procs[p]) ==> s'.procs[p].elem == s.procs[p].elem
  {
  }

  lemma {:induction false} CommittersCounted(states: seq<State>, acts: seq<Action>)
    requires IsRun(states, acts)
    ensures |PutBy(states, acts)| == |states[|acts|].puts|
    ensures |TakenBy(states, acts)| == |states[|acts|].takes|
  {
    if acts != [] {
      var n := |acts| - 1;
      CommittersCounted(states[..n + 1], acts[..n]);
      assert states[..n + 1][n] == states[n];
      StepCommits(states[n], acts[n], states[n + 1]);
    }
  }

  /** The elements of puts that p committed. */
  function CommittedPuts(states: seq<State>, acts: seq<Action>, p: nat): seq<Elem>
    requires IsRun(states, acts)
  {
    CommittersCounted(states, acts);
    Own(states[|acts|].puts, PutBy(states, acts), p)
  }

  function CommittedTakes(states: seq<State>, acts: seq<Action>, p: nat): seq<Elem>
    requires IsRun(states, acts)
  {
    CommittersCounted(states, acts);
    Own(states[|acts|].takes, TakenBy(states, acts), p)
  }

  lemma Prefix(states: seq<State>, acts: seq<Action>)
    requires IsRun(states, acts) && acts != []
    ensures var n := |acts| - 1;
            && IsRun(states[..n + 1], acts[..n]) && states[..n + 1][n] == states[n]
            && Step(states[n], acts[n], states[n + 1])
  {
  }

  lemma CommittedPutsNext(states: seq<State>, acts: seq<Action>, p: nat)
    requires IsRun(states, acts) && acts != []
    ensures var n := |acts| - 1;
            var a, s := acts[n], states[n];
            var puts := a.Do? && a.p == p && p < |s.procs| && s.procs[p].role.Producer? && s.procs[p].pc.AtAdvance?;
            IsRun(states[..n + 1], acts[..n]) && CommittedPuts(states, acts, p)
            == CommittedPuts(states[..n + 1], acts[..n], p) + (if puts then [s.procs[p].elem] else [])
  {
    var n := |acts| - 1;
    Prefix(states, acts);
    CommittersCounted(states[..n + 1], acts[..n]);
    var a, xs, who := acts[n], states[n].puts, PutBy(states[..n + 1], acts[..n]);
    StepCommits(states[n], a, states[n + 1]);
    CommittersCounted(states, acts);
    hide Step, IsRun;
    if |states[n + 1].puts| > |xs| {
      var x := states[n + 1].puts[|xs|];
      assert states[n + 1].puts == xs + [x] && PutBy(states, acts) == who + [a.p];
      OwnNext(xs, who, p, x, a.p);
    } else {
      assert states[n + 1].puts == xs && PutBy(states, acts) == who;
    }
  }

  lemma CommittedTakesNext(states: seq<State>, acts: seq<Action>, p: nat)
    requires IsRun(states, acts) && acts != []
    ensures var n := |acts| - 1;
            var a, s := acts[n], states[n];
            var takes := a.Do? && a.p == p && p < |s.procs| && s.procs[p].role.Consumer? && s.procs[p].pc.AtAdvance?;
            IsRun(states[..n + 1], acts[..n]) && CommittedTakes(states, acts, p)
            == CommittedTakes(states[..n + 1], acts[..n], p) + (if takes then [s.procs[p].elem] else [])
  {
    var n := |acts| - 1;
    Prefix(states, acts);
    CommittersCounted(states[..n + 1], acts[..n]);
    var a, xs, who := acts[n], states[n].takes, TakenBy(states[..n + 1], acts[..n]);
    StepCommits(states[n], a, states[n + 1]);
    CommittersCounted(states, acts);
    hide Step, IsRun;
    if |states[n + 1].takes| > |xs| {
      var x := states[n + 1].takes[|xs|];
      assert states[n + 1].takes == xs + [x] && TakenBy(states, acts) == who + [a.p];
      OwnNext(xs, who, p, x, a.p);
    } else {
      assert states[n + 1].takes == xs && TakenBy(states, acts) == who;
    }
  }

  /** One step of the argument for PutsAreArguments. */
  lemma PutCallMoves(s: State, a: Action, s': State, p: nat)
    requires Step(s, a, s') && p < |s.procs| && s.procs[p].role.Producer?
    ensures p < |s'.procs| && s'.procs[p].role.Producer?
    ensures var proc, proc' := s.procs[p], s'.procs[p];
            var mine := a.Do? && a.p == p;
            (if Before(proc) then [proc.elem] else []) + (if mine && proc.pc.AtWait? then [a.e] else [])
            == (if mine && proc.pc.AtAdvance? then [proc.elem] else []) + (if Before(proc') then [proc'.elem] else [])
  {
    StepTouchesOnlyItself(s, a, s');
    StepKeepsElem(s, a, s', p);
  }

  lemma TakeCallMoves(s: State, a: Action, s': State, p: nat)
    requires Step(s, a, s') && p < |s.procs| && s.procs[p].role.Consumer?
    ensures p < |s'.procs| && s'.procs[p].role.Consumer?
    ensures var proc, proc' := s.procs[p], s'.procs[p];
            var mine := a.Do? && a.p == p;
            (if After(proc) then [proc.elem] else []) + (if mine && proc.pc.AtAdvance? then [proc.elem] else [])
            == (if mine && proc.pc.AtPost? then [proc'.elem] else []) + (if After(proc') then [proc'.elem] else [])
  {
    StepTouchesOnlyItself(s, a, s');
    StepKeepsElem(s, a, s', p);
  }

  /** Processes neither come nor change their role. */
  lemma RoleBefore(s: State, a: Action, s': State, p: nat)
    requires Step(s, a, s') && p < |s'.procs|
    ensures p < |s.procs| && s.procs[p].role == s'.procs[p].role
  {
  }

  /**
   * Over every run, with any interleaving and any deaths: what producer p committed is, in order, what
   * it was asked to put, less at most the put in progress.
   */
  lemma {:induction false} PutsAreArguments(states: seq<State>, acts: seq<Action>, p: nat)
    requires IsRun(states, acts) && p < |states[|acts|].procs| && states[|acts|].procs[p].role.Producer?
    ensures var proc := states[|acts|].procs[p];
            Arguments(states, acts, p) == CommittedPuts(states, acts, p) + (if Before(proc) then [proc.elem] else [])
  {
    if acts != [] {
      var n := |acts| - 1;
      var s, a, s' := states[n], acts[n], states[n + 1];
      Prefix(states, acts);
      RoleBefore(s, a, s', p);
      PutsAreArguments(states[..n + 1], acts[..n], p);
      CommittedPutsNext(states, acts, p);
      PutCallMoves(s, a, s', p);
      hide IsRun, Step, CommittedPuts;
    }
  }

  /** And what consumer p's takes returned is, in order, what it committed, less at most the take in progress. */
  lemma {:induction false} TakesAreReturned(states: seq<State>, acts: seq<Action>, p: nat)
    requires IsRun(states, acts) && p < |states[|acts|].procs| && states[|acts|].procs[p].role.Consumer?
    ensures var proc := states[|acts|].procs[p];
            CommittedTakes(states, acts, p) == Returned(states, acts, p) + (if After(proc) then [proc.elem] else [])
  {
    if acts != [] {
      var n := |acts| - 1;
      var s, a, s' := states[n], acts[n], states[n + 1];
      Prefix(states, acts);
      RoleBefore(s, a, s', p);
      TakesAreReturned(states[..n + 1], acts[..n], p);
      CommittedTakesNext(states, acts, p);
      TakeCallMoves(s, a, s', p);
      hide IsRun, Step, CommittedTakes;
    }
  }
}
