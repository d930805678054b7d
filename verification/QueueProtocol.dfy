// The blocking ring queue as a state machine: any number of producer and consumer processes,
// one atomic step of one process at a time, any process may die between two steps.
// ring_buffer_posix.c is the part of it in which nobody dies.
module QueueProtocol {
  import opened Arith
  import opened Options

  type Elem = int

  datatype Role = Producer | Consumer

  /** What the process does next: wait for its semaphore, lock, touch its slot, advance its index, unlock, post. */
  datatype Pc = AtWait | AtLock | AtSlot | AtAdvance | AtUnlock | AtPost

  /** The order of the statements in put and in take. */
  function NextPc(pc: Pc): Pc {
    match pc
    case AtWait => AtLock
    case AtLock => AtSlot
    case AtSlot => AtAdvance
    case AtAdvance => AtUnlock
    case AtUnlock => AtPost
    case AtPost => AtWait
  }

  /** `elem` is the element being put, or the element read by a take. */
  datatype Proc = Proc(role: Role, pc: Pc, alive: bool, elem: Elem)

  /** `puts` and `takes` record the elements in the order of the tail and head advances. */
  datatype State = State(
    cap: nat, buffer: seq<Elem>, head: nat, tail: nat,
    ownerHead: Option<nat>, ownerTail: Option<nat>,
    element: nat, space: nat,
    procs: seq<Proc>,
    puts: seq<Elem>, takes: seq<Elem>)
  {
    function Owner(r: Role): Option<nat> {
      if r.Producer? then ownerTail else ownerHead
    }
  }

  predicate Init(s: State) {
    && s.cap >= 1 && |s.buffer| == s.cap && s.head == 0 && s.tail == 0
    && s.ownerHead == None && s.ownerTail == None
    && s.element == 0 && s.space == s.cap
    && s.puts == [] && s.takes == []
    && forall i :: 0 <= i < |s.procs| ==> s.procs[i].pc.AtWait?
  }

  /** A robust mutex can be locked when it is free or when its owner is dead (EOWNERDEAD). */
  predicate Lockable(s: State, r: Role) {
    match s.Owner(r)
    case None => true
    case Some(q) => q < |s.procs| && !s.procs[q].alive
  }

  predicate Enabled(s: State, p: nat) {
    && p < |s.procs| && s.procs[p].alive
    && match s.procs[p].pc
       case AtWait => if s.procs[p].role.Producer? then s.space > 0 else s.element > 0
       case AtLock => Lockable(s, s.procs[p].role)
       case AtSlot => s.head < |s.buffer| && s.tail < |s.buffer|
       case AtAdvance => s.cap > 0
       case _ => true
  }

  /** One atomic step of process p; a put that starts now puts e. */
  function Next(s: State, p: nat, e: Elem): State
    requires Enabled(s, p)
  {
    var proc := s.procs[p];
    match (proc.pc, proc.role)
    case (AtWait, Producer) => s.(space := s.space - 1, procs := s.procs[p := proc.(pc := AtLock, elem := e)])
    case (AtWait, Consumer) => s.(element := s.element - 1, procs := s.procs[p := proc.(pc := AtLock)])
    case (AtLock, Producer) => s.(ownerTail := Some(p), procs := s.procs[p := proc.(pc := AtSlot)])
    case (AtLock, Consumer) => s.(ownerHead := Some(p), procs := s.procs[p := proc.(pc := AtSlot)])
    case (AtSlot, Producer) =>
      s.(buffer := s.buffer[s.tail := proc.elem], procs := s.procs[p := proc.(pc := AtAdvance)])
    case (AtSlot, Consumer) => s.(procs := s.procs[p := proc.(pc := AtAdvance, elem := s.buffer[s.head])])
    case (AtAdvance, Producer) =>
      s.(tail := (s.tail + 1) % s.cap, puts := s.puts + [proc.elem], procs := s.procs[p := proc.(pc := AtUnlock)])
    case (AtAdvance, Consumer) =>
      s.(head := (s.head + 1) % s.cap, takes := s.takes + [proc.elem], procs := s.procs[p := proc.(pc := AtUnlock)])
    case (AtUnlock, Producer) => s.(ownerTail := None, procs := s.procs[p := proc.(pc := AtPost)])
    case (AtUnlock, Consumer) => s.(ownerHead := None, procs := s.procs[p := proc.(pc := AtPost)])
    case (AtPost, Producer) => s.(element := s.element + 1, procs := s.procs[p := proc.(pc := AtWait)])
    case (AtPost, Consumer) => s.(space := s.space + 1, procs := s.procs[p := proc.(pc := AtWait)])
  }

  /** Process p dies where it is. */
  function Crash(s: State, p: nat): State
    requires p < |s.procs| && s.procs[p].alive
  {
    s.(procs := s.procs[p := s.procs[p].(alive := false)])
  }

  datatype Action = Do(p: nat, e: Elem) | Die(p: nat)

  predicate Step(s: State, a: Action, s': State) {
    match a
    case Do(p, e) => Enabled(s, p) && s' == Next(s, p, e)
    case Die(p) => p < |s.procs| && s.procs[p].alive && s' == Crash(s, p)
  }

  /** states[i + 1] follows from states[i] by acts[i]. */
  predicate IsRun(states: seq<State>, acts: seq<Action>) {
    && |states| == |acts| + 1
    && Init(states[0])
    && forall i :: 0 <= i < |acts| ==> Step(states[i], acts[i], states[i + 1])
  }

  // ---------- counting processes ----------

  function Count(procs: seq<Proc>, f: Proc -> bool): nat {
    if procs == [] then 0 else Count(procs[..|procs| - 1], f) + (if f(procs[|procs| - 1]) then 1 else 0)
  }

  /** Holds a token of its semaphore that it has not yet turned into a token of the other. */
  predicate InFlight(p: Proc) { !p.pc.AtWait? }

  /** Before, or after, the index advance that commits the operation. */
  predicate Before(p: Proc) { p.pc.AtLock? || p.pc.AtSlot? || p.pc.AtAdvance? }
  predicate After(p: Proc) { p.pc.AtUnlock? || p.pc.AtPost? }

  predicate InSection(p: Proc) { p.pc.AtSlot? || p.pc.AtAdvance? || p.pc.AtUnlock? }

  predicate PutBefore(p: Proc) { p.role.Producer? && Before(p) }
  predicate PutAfter(p: Proc) { p.role.Producer? && After(p) }
  predicate TakeBefore(p: Proc) { p.role.Consumer? && Before(p) }
  predicate TakeAfter(p: Proc) { p.role.Consumer? && After(p) }

  /** A dead process that took its token with it. */
  predicate IsLost(p: Proc) { !p.alive && InFlight(p) }
  predicate IsLive(p: Proc) { p.alive && InFlight(p) }

  function Lost(s: State): nat { Count(s.procs, IsLost) }

  lemma {:induction false} CountUpdate(procs: seq<Proc>, i: nat, p: Proc, f: Proc -> bool)
    requires i < |procs|
    ensures Count(procs[i := p], f) + (if f(procs[i]) then 1 else 0) == Count(procs, f) + (if f(p) then 1 else 0)
  {
    var n := |procs| - 1;
    if i == n {
      assert procs[i := p][..n] == procs[..n];
    } else {
      assert procs[i := p][..n] == procs[..n][i := p];
      CountUpdate(procs[..n], i, p, f);
    }
  }

  lemma {:induction false} CountPositive(procs: seq<Proc>, i: nat, f: Proc -> bool)
    requires i < |procs| && f(procs[i])
    ensures Count(procs, f) >= 1
  {
    if i < |procs| - 1 {
      CountPositive(procs[..|procs| - 1], i, f);
    }
  }

  lemma {:induction false} CountZero(procs: seq<Proc>, f: Proc -> bool)
    requires forall i :: 0 <= i < |procs| ==> !f(procs[i])
    ensures Count(procs, f) == 0
  {
    if procs != [] {
      CountZero(procs[..|procs| - 1], f);
    }
  }

  lemma {:induction false} CountSplit(procs: seq<Proc>)
    ensures Count(procs, InFlight)
            == Count(procs, PutBefore) + Count(procs, PutAfter) + Count(procs, TakeBefore) + Count(procs, TakeAfter)
    ensures Count(procs, InFlight) == Count(procs, IsLive) + Count(procs, IsLost)
  {
    if procs != [] {
      CountSplit(procs[..|procs| - 1]);
    }
  }

  // ---------- the invariant ----------

  /** Elements committed but not yet taken, oldest first. */
  function Queue(s: State): seq<Elem> {
    if |s.takes| <= |s.puts| then s.puts[|s.takes|..] else []
  }

  ghost predicate TokensOk(s: State) {
    && s.space + s.element + Count(s.procs, InFlight) == s.cap
    && |s.puts| == |s.takes| + s.element + Count(s.procs, PutAfter) + Count(s.procs, TakeBefore)
  }

  /** The ring holds exactly the committed elements that were not taken. */
  ghost predicate RingOk(s: State) {
    && s.cap >= 1 && |s.buffer| == s.cap
    && s.takes <= s.puts
    && s.head == |s.takes| % s.cap && s.tail == |s.puts| % s.cap
    && forall i {:trigger s.puts[i]} :: |s.takes| <= i < |s.puts| ==> s.buffer[i % s.cap] == s.puts[i]
  }

  ghost predicate OwnerOk(s: State, r: Role) {
    match s.Owner(r)
    case None => true
    case Some(q) => q < |s.procs| && s.procs[q].role == r && InSection(s.procs[q])
  }

  ghost predicate LocksOk(s: State) {
    && (forall p :: 0 <= p < |s.procs| && s.procs[p].alive && InSection(s.procs[p]) ==>
          s.Owner(s.procs[p].role) == Some(p))
    && OwnerOk(s, Producer) && OwnerOk(s, Consumer)
  }

  /** What a live process remembers between touching its slot and advancing its index. */
  ghost predicate LocalsOk(s: State) {
    forall p :: 0 <= p < |s.procs| && s.procs[p].alive && s.procs[p].pc.AtAdvance? ==>
      if s.procs[p].role.Producer? then s.tail < |s.buffer| && s.buffer[s.tail] == s.procs[p].elem
      else |s.takes| < |s.puts| && s.procs[p].elem == s.puts[|s.takes|]
  }

  ghost predicate Inv(s: State) {
    TokensOk(s) && RingOk(s) && LocksOk(s) && LocalsOk(s)
  }

  lemma InitInv(s: State)
    requires Init(s)
    ensures Inv(s)
  {
    CountZero(s.procs, InFlight);
    CountZero(s.procs, PutAfter);
    CountZero(s.procs, TakeBefore);
  }

  /** Where the tokens are bounds the queue: a put in progress has room, a take in progress has an element. */
  lemma Bounds(s: State)
    requires TokensOk(s)
    ensures |s.takes| <= |s.puts| <= |s.takes| + s.cap
    ensures forall p :: 0 <= p < |s.procs| && PutBefore(s.procs[p]) ==> |s.puts| < |s.takes| + s.cap
    ensures forall p :: 0 <= p < |s.procs| && TakeBefore(s.procs[p]) ==> |s.takes| < |s.puts|
  {
    CountSplit(s.procs);
    forall p | 0 <= p < |s.procs| && PutBefore(s.procs[p]) ensures |s.puts| < |s.takes| + s.cap {
      CountPositive(s.procs, p, PutBefore);
    }
    forall p | 0 <= p < |s.procs| && TakeBefore(s.procs[p]) ensures |s.takes| < |s.puts| {
      CountPositive(s.procs, p, TakeBefore);
    }
  }

  lemma CountsAfter(s: State, p: nat, proc: Proc)
    requires p < |s.procs|
    ensures var t := s.procs[p := proc];
            && Count(t, InFlight) == Count(s.procs, InFlight) + Bit(InFlight(proc)) - Bit(InFlight(s.procs[p]))
            && Count(t, PutAfter) == Count(s.procs, PutAfter) + Bit(PutAfter(proc)) - Bit(PutAfter(s.procs[p]))
            && Count(t, TakeBefore) == Count(s.procs, TakeBefore) + Bit(TakeBefore(proc)) - Bit(TakeBefore(s.procs[p]))
  {
    CountUpdate(s.procs, p, proc, InFlight);
    CountUpdate(s.procs, p, proc, PutAfter);
    CountUpdate(s.procs, p, proc, TakeBefore);
  }

  lemma StepTokens(s: State, p: nat, e: Elem)
    requires TokensOk(s) && Enabled(s, p)
    ensures TokensOk(Next(s, p, e))
  {
    CountsAfter(s, p, Next(s, p, e).procs[p]);
    assert Next(s, p, e).procs == s.procs[p := Next(s, p, e).procs[p]];
  }

  lemma StepRing(s: State, p: nat, e: Elem)
    requires Inv(s) && Enabled(s, p)
    ensures RingOk(Next(s, p, e))
  {
    Bounds(s);
    var s' := Next(s, p, e);
    match s.procs[p].pc
    case AtSlot =>
      forall i | |s.takes| <= i < |s.puts| ensures s'.buffer[i % s.cap] == s.puts[i] {
        assert s.buffer[i % s.cap] == s.puts[i];
        if s.procs[p].role.Producer? {
          ModDiffer(i, |s.puts|, s.cap);
        }
      }
    case AtAdvance =>
      ModNext(|s.takes|, s.cap);
      ModNext(|s.puts|, s.cap);
      forall i | |s'.takes| <= i < |s'.puts| ensures s'.buffer[i % s.cap] == s'.puts[i] {
        if i < |s.puts| {
          assert s.buffer[i % s.cap] == s.puts[i];
        }
      }
    case _ =>
  }

  lemma StepLocks(s: State, p: nat, e: Elem)
    requires LocksOk(s) && Enabled(s, p)
    ensures LocksOk(Next(s, p, e))
  {
  }

  lemma StepLocals(s: State, p: nat, e: Elem)
    requires Inv(s) && Enabled(s, p)
    ensures LocalsOk(Next(s, p, e))
  {
    Bounds(s);
    var s' := Next(s, p, e);
    forall q | 0 <= q < |s.procs| && s'.procs[q].alive && s'.procs[q].pc.AtAdvance?
      ensures if s'.procs[q].role.Producer? then s'.tail < |s'.buffer| && s'.buffer[s'.tail] == s'.procs[q].elem
              else |s'.takes| < |s'.puts| && s'.procs[q].elem == s'.puts[|s'.takes|]
    {
      if q == p {
        assert s.procs[p].role.Consumer? ==> s.buffer[|s.takes| % s.cap] == s.puts[|s.takes|];
      } else {
        assert s.Owner(s.procs[q].role) == Some(q);
        assert s.procs[p].role == s.procs[q].role ==> !InSection(s.procs[p]);
      }
    }
  }

  lemma StepInv(s: State, a: Action, s': State)
    requires Inv(s) && Step(s, a, s')
    ensures Inv(s')
  {
    hide TokensOk, RingOk, LocksOk, LocalsOk, Next, Crash;
    match a
    case Do(p, e) =>
      StepTokens(s, p, e);
      StepRing(s, p, e);
      StepLocks(s, p, e);
      StepLocals(s, p, e);
    case Die(p) => CrashInv(s, p);
  }

  lemma CrashInv(s: State, p: nat)
    requires Inv(s) && p < |s.procs| && s.procs[p].alive
    ensures Inv(Crash(s, p))
  {
    CountsAfter(s, p, s.procs[p].(alive := false));
  }

  /** Over every run, with any interleaving and any deaths. */
  lemma {:induction false} RunInv(states: seq<State>, acts: seq<Action>)
    requires IsRun(states, acts)
    ensures forall i :: 0 <= i < |states| ==> Inv(states[i])
  {
    if acts == [] {
      InitInv(states[0]);
    } else {
      var n := |acts| - 1;
      RunInv(states[..n + 1], acts[..n]);
      assert Inv(states[..n + 1][n]);
      StepInv(states[n], acts[n], states[n + 1]);
      forall i | 0 <= i < |states| ensures Inv(states[i]) {
        if i <= n {
          assert states[i] == states[..n + 1][i];
        }
      }
    }
  }
}
