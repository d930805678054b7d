// What the invariant of the blocking ring queue gives its callers.
module QueueTheorems {
  import opened Arith
  import opened QueueProtocol

  // ---------- linearizable bounded FIFO ----------

  /** A step of a bounded queue of capacity cap, or no change. */
  predicate FifoStep(q: seq<Elem>, q': seq<Elem>, cap: nat) {
    || q' == q
    || (|q| < cap && |q'| == |q| + 1 && q' == q + [q'[|q|]])
    || (q != [] && q' == q[1..])
  }

  /** The tail advance enqueues the element being put, the head advance dequeues the front: all other steps stutter. */
  lemma StepIsFifo(s: State, p: nat, e: Elem)
    requires Inv(s) && Enabled(s, p)
    ensures var s' := Next(s, p, e);
            var proc := s.procs[p];
            if !proc.pc.AtAdvance? then Queue(s') == Queue(s)
            else if proc.role.Producer? then |Queue(s)| < s.cap && Queue(s') == Queue(s) + [proc.elem]
            else Queue(s) != [] && proc.elem == Queue(s)[0] && Queue(s') == Queue(s)[1..]
  {
    Bounds(s);
  }

  /** Over every run the committed takes are a prefix of the committed puts, and the queue moves as a bounded FIFO. */
  lemma RunIsFifo(states: seq<State>, acts: seq<Action>, i: nat)
    requires IsRun(states, acts) && i < |acts|
    ensures var s, s' := states[i], states[i + 1];
            && s.takes <= s.puts && s.puts == s.takes + Queue(s) && |Queue(s)| <= s.cap
            && FifoStep(Queue(s), Queue(s'), s.cap)
            && s.puts <= s'.puts && s.takes <= s'.takes
  {
    var s := states[i];
    RunInv(states, acts);
    assert Inv(s);
    Bounds(s);
    match acts[i]
    case Do(p, e) => StepIsFifo(s, p, e);
    case Die(p) =>
  }

  // ---------- slots ----------

  /** A producer about to write and a consumer about to read never address the same slot. */
  lemma SlotRaceFree(s: State, p: nat, c: nat)
    requires Inv(s) && p < |s.procs| && c < |s.procs|
    requires s.procs[p].role.Producer? && s.procs[p].pc.AtSlot?
    requires s.procs[c].role.Consumer? && s.procs[c].pc.AtSlot?
    ensures s.tail != s.head
  {
    Bounds(s);
    ModDiffer(|s.takes|, |s.puts|, s.cap);
  }

  /** Two live processes of one role are never in their critical section together. */
  lemma MutualExclusion(s: State, p: nat, q: nat)
    requires Inv(s) && p < |s.procs| && q < |s.procs|
    requires s.procs[p].alive && s.procs[q].alive && s.procs[p].role == s.procs[q].role
    requires InSection(s.procs[p]) && InSection(s.procs[q])
    ensures p == q
  {
  }

  /** A write hits no slot that holds an element still in the queue; a read hits the slot of the oldest. */
  lemma SlotsAreSafe(s: State, p: nat)
    requires Inv(s) && p < |s.procs| && s.procs[p].pc.AtSlot?
    ensures s.procs[p].role.Producer? ==> forall i :: |s.takes| <= i < |s.puts| ==> i % s.cap != s.tail
    ensures s.procs[p].role.Consumer? ==> |s.takes| < |s.puts| && s.buffer[s.head] == s.puts[|s.takes|]
  {
    Bounds(s);
    if s.procs[p].role.Producer? {
      forall i | |s.takes| <= i < |s.puts| ensures i % s.cap != s.tail {
        ModDiffer(i, |s.puts|, s.cap);
      }
    } else {
      assert s.buffer[|s.takes| % s.cap] == s.puts[|s.takes|];
    }
  }

  // ---------- crashes ----------

  /** Every token is in a semaphore, with a live process in the middle of an operation, or lost with a dead one. */
  lemma TokensConserved(s: State)
    requires Inv(s)
    ensures s.space + s.element + Count(s.procs, IsLive) + Lost(s) == s.cap
  {
    CountSplit(s.procs);
  }

  function Deaths(acts: seq<Action>): nat {
    if acts == [] then 0 else Deaths(acts[..|acts| - 1]) + (if acts[|acts| - 1].Die? then 1 else 0)
  }

  lemma StepLoses(s: State, a: Action, s': State)
    requires Step(s, a, s')
    ensures Lost(s') == Lost(s) + (if a.Die? && InFlight(s.procs[a.p]) then 1 else 0)
  {
    CountUpdate(s.procs, a.p, s'.procs[a.p], IsLost);
    assert s'.procs == s.procs[a.p := s'.procs[a.p]];
  }

  /** A crash costs at most one token, and nothing else does. */
  lemma {:induction false} LostAtMostDeaths(states: seq<State>, acts: seq<Action>)
    requires IsRun(states, acts)
    ensures Lost(states[|acts|]) <= Deaths(acts)
  {
    var n := |acts| - 1;
    if acts == [] {
      CountZero(states[0].procs, IsLost);
    } else {
      LostAtMostDeaths(states[..n + 1], acts[..n]);
      assert states[..n + 1][n] == states[n];
      assert Step(states[n], acts[n], states[n + 1]);
      StepLoses(states[n], acts[n], states[n + 1]);
    }
  }

  // ---------- progress ----------

  ghost predicate LiveRole(s: State, r: Role) {
    exists p :: 0 <= p < |s.procs| && s.procs[p].alive && s.procs[p].role == r
  }

  /** A live process in the middle of an operation is not blocked, or waits for one that is not. */
  lemma InFlightCanStep(s: State, p: nat)
    requires Inv(s) && p < |s.procs| && s.procs[p].alive && InFlight(s.procs[p])
    ensures exists q: nat :: Enabled(s, q)
  {
    if s.procs[p].pc.AtLock? && !Lockable(s, s.procs[p].role) {
      assert OwnerOk(s, s.procs[p].role);
      assert Enabled(s, s.Owner(s.procs[p].role).value);
    } else {
      assert Enabled(s, p);
    }
  }

  lemma {:induction false} CountFinds(procs: seq<Proc>, f: Proc -> bool) returns (i: nat)
    requires Count(procs, f) > 0
    ensures i < |procs| && f(procs[i])
  {
    i := |procs| - 1;
    if !f(procs[i]) {
      i := CountFinds(procs[..i], f);
    }
  }

  /** With a live producer and a live consumer, some process can step exactly as long as not every token is lost. */
  lemma ProgressIff(s: State)
    requires Inv(s) && LiveRole(s, Producer) && LiveRole(s, Consumer)
    ensures (exists p: nat :: Enabled(s, p)) <==> Lost(s) < s.cap
  {
    TokensConserved(s);
    if Lost(s) < s.cap {
      if Count(s.procs, IsLive) > 0 {
        var p := CountFinds(s.procs, IsLive);
        InFlightCanStep(s, p);
      } else {
        SomeTokenUsable(s);
      }
    } else {
      forall p: nat ensures !Enabled(s, p) {
        if Enabled(s, p) && IsLive(s.procs[p]) {
          CountPositive(s.procs, p, IsLive);
        }
      }
    }
  }

  lemma SomeTokenUsable(s: State)
    requires Inv(s) && LiveRole(s, Producer) && LiveRole(s, Consumer)
    requires Count(s.procs, IsLive) == 0 && s.space + s.element > 0
    ensures exists p: nat :: Enabled(s, p)
  {
    var r := if s.space > 0 then Producer else Consumer;
    var p :| 0 <= p < |s.procs| && s.procs[p].alive && s.procs[p].role == r;
    if InFlight(s.procs[p]) {
      CountPositive(s.procs, p, IsLive);
    }
    assert Enabled(s, p);
  }

  predicate AllAlive(s: State) {
    forall p :: 0 <= p < |s.procs| ==> s.procs[p].alive
  }

  /** ring_buffer_posix.c: threads do not die, so no reachable state is stuck. */
  lemma {:induction false} ThreadsNeverStick(states: seq<State>, acts: seq<Action>)
    requires IsRun(states, acts) && AllAlive(states[0])
    requires forall i :: 0 <= i < |acts| ==> acts[i].Do?
    requires LiveRole(states[0], Producer) && LiveRole(states[0], Consumer)
    ensures exists p: nat :: Enabled(states[|acts|], p)
  {
    KeepAlive(states, acts);
    RunInv(states, acts);
    var s := states[|acts|];
    CountZero(s.procs, IsLost);
    ProgressIff(s);
  }

  lemma {:induction false} KeepAlive(states: seq<State>, acts: seq<Action>)
    requires IsRun(states, acts) && AllAlive(states[0])
    requires forall i :: 0 <= i < |acts| ==> acts[i].Do?
    ensures AllAlive(states[|acts|])
    ensures |states[|acts|].procs| == |states[0].procs|
    ensures states[|acts|].cap == states[0].cap
    ensures forall p :: 0 <= p < |states[0].procs| ==> states[|acts|].procs[p].role == states[0].procs[p].role
  {
    if acts != [] {
      var n := |acts| - 1;
      KeepAlive(states[..n + 1], acts[..n]);
      assert states[..n + 1][n] == states[n];
      assert Step(states[n], acts[n], states[n + 1]);
    }
  }
}
