// The blocking queue's shared memory, changed in place by the atomic steps of its processes.
module BlockingQueue {
  import opened Options
  import opened QueueProtocol
  import opened QueueTheorems

  class SharedQueue {
    const capacity: nat
    const buffer: array<Elem>
    var head: nat
    var tail: nat
    var ownerHead: Option<nat>
    var ownerTail: Option<nat>
    var element: nat
    var space: nat
    var procs: seq<Proc>
    ghost var puts: seq<Elem>
    ghost var takes: seq<Elem>

    ghost function Abs(): State
      reads this, buffer
    {
      State(capacity, buffer[..], head, tail, ownerHead, ownerTail, element, space, procs, puts, takes)
    }

    /** blocking_queue_init, for a fixed set of processes that have not started an operation. */
    constructor (capacity: nat, procs: seq<Proc>)
      requires capacity >= 1 && forall i :: 0 <= i < |procs| ==> procs[i].pc.AtWait?
      ensures Init(Abs()) && fresh(buffer) && this.capacity == capacity && this.procs == procs
    {
      this.capacity := capacity;
      buffer := new Elem[capacity];
      head, tail := 0, 0;
      ownerHead, ownerTail := None, None;
      element, space := 0, capacity;
      this.procs := procs;
      puts, takes := [], [];
    }

    /** One statement of put or take, run by process p. */
    method Exec(p: nat, e: Elem)
      requires Enabled(Abs(), p)
      modifies this, buffer
      ensures Abs() == Next(old(Abs()), p, e)
    {
      var proc := procs[p];
      match proc.role {
        case Producer =>
          match proc.pc {
            case AtWait => space := space - 1; proc := proc.(pc := AtLock, elem := e);
            case AtLock => ownerTail := Some(p); proc := proc.(pc := AtSlot);
            case AtSlot => buffer[tail] := proc.elem; proc := proc.(pc := AtAdvance);
            case AtAdvance =>
              tail := (tail + 1) % capacity;
              puts := puts + [proc.elem];
              proc := proc.(pc := AtUnlock);
            case AtUnlock => ownerTail := None; proc := proc.(pc := AtPost);
            case AtPost => element := element + 1; proc := proc.(pc := AtWait);
          }
        case Consumer =>
          match proc.pc {
            case AtWait => element := element - 1; proc := proc.(pc := AtLock);
            case AtLock => ownerHead := Some(p); proc := proc.(pc := AtSlot);
            case AtSlot => proc := proc.(pc := AtAdvance, elem := buffer[head]);
            case AtAdvance =>
              head := (head + 1) % capacity;
              takes := takes + [proc.elem];
              proc := proc.(pc := AtUnlock);
            case AtUnlock => ownerHead := None; proc := proc.(pc := AtPost);
            case AtPost => space := space + 1; proc := proc.(pc := AtWait);
          }
      }
      procs := procs[p := proc];
    }

    /** What one step changes besides the ring. */
    ghost predicate Turned(s: State, p: nat)
      requires p < |s.procs|
      reads this, buffer
    {
      var was := s.procs[p];
      && Inv(Abs()) && buffer.Length == capacity && head < capacity && tail < capacity
      && |procs| == |s.procs|
      && procs[p].role == was.role && procs[p].alive == was.alive && procs[p].pc == NextPc(was.pc)
      && (was.pc.AtAdvance? || was.pc.AtLock? || was.pc.AtUnlock? || was.pc.AtPost? ==> procs[p].elem == was.elem)
      && (if was.role.Producer? then
            && element == s.element + (if was.pc.AtPost? then 1 else 0)
            && space == s.space - (if was.pc.AtWait? then 1 else 0)
            && ownerHead == s.ownerHead
            && ownerTail == if was.pc.AtLock? then Some(p) else if was.pc.AtUnlock? then None else s.ownerTail
          else
            && element == s.element - (if was.pc.AtWait? then 1 else 0)
            && space == s.space + (if was.pc.AtPost? then 1 else 0)
            && ownerTail == s.ownerTail
            && ownerHead == if was.pc.AtLock? then Some(p) else if was.pc.AtUnlock? then None else s.ownerHead)
    }

    /** One step of process p, with the queue it leaves. */
    method Turn(p: nat, e: Elem)
      requires Inv(Abs()) && Enabled(Abs(), p)
      modifies this, buffer
      ensures Turned(old(Abs()), p)
      ensures old(procs[p]).role.Producer? && !old(procs[p]).pc.AtWait? ==> procs[p].elem == old(procs[p]).elem
      ensures old(procs[p]).role.Producer? && old(procs[p]).pc.AtWait? ==> procs[p].elem == e
      ensures !old(procs[p]).pc.AtAdvance? ==> Queue(Abs()) == old(Queue(Abs()))
      ensures old(procs[p]).pc.AtAdvance? && old(procs[p]).role.Producer? ==>
        Queue(Abs()) == old(Queue(Abs())) + [old(procs[p]).elem]
      ensures old(procs[p]).pc.AtAdvance? && old(procs[p]).role.Consumer? ==>
        old(Queue(Abs())) == [old(procs[p]).elem] + Queue(Abs())
    {
      StepInv(Abs(), Do(p, e), Next(Abs(), p, e));
      StepIsFifo(Abs(), p, e);
      Exec(p, e);
    }

    /** Process p is between operations and the mutex it will need is free. */
    ghost predicate CanRun(p: nat, r: Role)
      reads this, buffer
    {
      Inv(Abs()) && p < |procs| && procs[p] == Proc(r, AtWait, true, procs[p].elem) && Abs().Owner(r) == None
    }

    /** A put that nobody interrupts, as in the single-threaded test. */
    method Put(p: nat, e: Elem)
      requires CanRun(p, Producer) && space > 0
      modifies this, buffer
      ensures Inv(Abs()) && Queue(Abs()) == old(Queue(Abs())) + [e]
      ensures element == old(element) + 1 && space == old(space) - 1
      ensures p < |procs| && procs[p].pc.AtWait? && ownerTail == None && ownerHead == old(ownerHead)
    {
      hide Inv, Queue, Next;
      ghost var q := Queue(Abs());
      Turn(p, e);
      Turn(p, e);
      Turn(p, e);
      assert procs[p] == Proc(Producer, AtAdvance, true, e) && Queue(Abs()) == q;
      Turn(p, e);
      assert procs[p].pc.AtUnlock? && Queue(Abs()) == q + [e];
      Turn(p, e);
      Turn(p, e);
    }

    /** A take that nobody interrupts returns the front of the queue. */
    method Take(p: nat) returns (e: Elem)
      requires CanRun(p, Consumer) && element > 0
      modifies this, buffer
      ensures Inv(Abs()) && old(Queue(Abs())) == [e] + Queue(Abs())
      ensures element == old(element) - 1 && space == old(space) + 1
      ensures p < |procs| && procs[p].pc.AtWait? && ownerHead == None && ownerTail == old(ownerTail)
    {
      hide Inv, Queue, Next;
      Turn(p, 0);
      Turn(p, 0);
      Turn(p, 0);
      Turn(p, 0);
      Turn(p, 0);
      Turn(p, 0);
      e := procs[p].elem;
    }
  }
}
