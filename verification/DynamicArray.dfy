// dynarray.c: an array that grows by half, as a sequence, with the cost of its reallocations.
module DynamicArray {
  type Pointer = int
  const NULL: Pointer := 0
  const STARTING_CAPACITY: nat := 8

  /** What a caller sees of a dynamic array, its capacity, and how many elements reallocs have copied. */
  datatype Model = Model(items: seq<Pointer>, cap: nat, copied: nat)

  datatype Op = Push(x: Pointer) | Pop | Set(x: Pointer, i: int) | Get(i: int)

  const NEW := Model([], STARTING_CAPACITY, 0)

  /** `cap *= 1.5` goes through double and truncates. */
  function Grown(cap: nat): nat {
    3 * cap / 2
  }

  function Apply(m: Model, op: Op): Model {
    match op
    case Push(x) =>
      if |m.items| == m.cap then Model(m.items + [x], Grown(m.cap), m.copied + |m.items|)
      else m.(items := m.items + [x])
    case Pop => if m.items == [] then m else m.(items := m.items[..|m.items| - 1])
    case Set(x, i) => if 0 <= i < |m.items| then m.(items := m.items[i := x]) else m
    case Get(_) => m
  }

  function Run(ops: seq<Op>): Model {
    if ops == [] then NEW else Apply(Run(ops[..|ops| - 1]), ops[|ops| - 1])
  }

  function Pushes(ops: seq<Op>): nat {
    if ops == [] then 0 else Pushes(ops[..|ops| - 1]) + (if ops[|ops| - 1].Push? then 1 else 0)
  }

  function Pops(ops: seq<Op>): nat {
    if ops == [] then 0
    else Pops(ops[..|ops| - 1]) + (if ops[|ops| - 1].Pop? && Run(ops[..|ops| - 1]).items != [] then 1 else 0)
  }

  /** Saved up by the pushes since the last growth to pay for the next one. */
  function Potential(m: Model): nat {
    if 3 * |m.items| >= 2 * m.cap then 3 * |m.items| - 2 * m.cap else 0
  }

  /** Every push pays 4: over any history, pops and shrinking included, growth copies at most 4 elements a push. */
  lemma {:induction false} AmortisedGrowth(ops: seq<Op>)
    ensures Run(ops).copied + Potential(Run(ops)) <= 4 * Pushes(ops)
    ensures |Run(ops).items| <= Run(ops).cap && Run(ops).cap >= STARTING_CAPACITY
    ensures |Run(ops).items| + Pops(ops) == Pushes(ops)
  {
    if ops != [] {
      AmortisedGrowth(ops[..|ops| - 1]);
    }
  }

  /** The list a caller has in mind: capacities play no part in it. */
  function Items(ops: seq<Op>): seq<Pointer> {
    if ops == [] then []
    else
      var before := Items(ops[..|ops| - 1]);
      match ops[|ops| - 1]
      case Push(x) => before + [x]
      case Pop => if before == [] then [] else before[..|before| - 1]
      case Set(x, i) => if 0 <= i < |before| then before[..i] + [x] + before[i + 1..] else before
      case Get(_) => before
  }

  /** Growing never shows: over every history the array holds that list. */
  lemma {:induction false} RefinesList(ops: seq<Op>)
    ensures Run(ops).items == Items(ops)
  {
    if ops != [] {
      RefinesList(ops[..|ops| - 1]);
    }
  }

  /** The array never holds more than half as much again as was pushed, beyond its first block. */
  lemma {:induction false} CapacityBound(ops: seq<Op>)
    ensures Run(ops).cap == STARTING_CAPACITY || 2 * Run(ops).cap <= 3 * Pushes(ops)
  {
    if ops != [] {
      CapacityBound(ops[..|ops| - 1]);
      AmortisedGrowth(ops[..|ops| - 1]);
    }
  }

  /** The next capacity is half as much again, the half dropped. */
  predicate GrownByHalf(cap: nat, next: nat) {
    2 * next <= 3 * cap < 2 * next + 2
  }

  /**
   * Over every history, what the last operation does to the capacity and what it copies: a push on a full
   * array grows it by half, rounded down, and moves every element once; nothing else does either.
   */
  lemma GrowthIsByHalf(ops: seq<Op>, op: Op)
    ensures var m, m' := Run(ops), Run(ops + [op]);
            if op.Push? && |m.items| == m.cap
            then GrownByHalf(m.cap, m'.cap) && m'.copied == m.copied + |m.items|
            else m'.cap == m.cap && m'.copied == m.copied
    ensures Run([]).cap == 8 && Run([]).copied == 0
  {
    assert (ops + [op])[..|ops|] == ops;
  }

  class DA {
    var cap: nat
    var size: nat
    var arr: array<Pointer>
    ghost var copied: nat

    ghost predicate Valid()
      reads this
    {
      size <= cap == arr.Length && cap >= STARTING_CAPACITY
    }

    ghost function Abs(): Model
      requires Valid()
      reads this, arr
    {
      Model(arr[..size], cap, copied)
    }

    constructor ()
      ensures Valid() && fresh(arr) && Abs() == NEW && size == 0 && cap == 8
    {
      cap := STARTING_CAPACITY;
      size := 0;
      arr := new Pointer[STARTING_CAPACITY];
      copied := 0;
    }

    /** realloc to the new capacity: the elements move one by one. */
    method Realloc()
      requires Valid() && size == cap
      modifies this
      ensures Valid() && fresh(arr) && size < cap
      ensures Abs() == old(Abs()).(cap := Grown(old(cap)), copied := old(copied) + old(size))
      ensures GrownByHalf(old(cap), cap)
    {
      var newCap := 3 * cap / 2;
      var next := new Pointer[newCap];
      for i := 0 to size
        invariant copied == old(copied) + i && cap == old(cap) && size == old(size) && arr == old(arr)
        invariant next[..i] == arr[..i]
      {
        next[i] := arr[i];
        copied := copied + 1;
      }
      cap := newCap;
      arr := next;
    }

    method DAPush(x: Pointer)
      requires Valid()
      modifies this, arr
      ensures Valid() && (arr == old(arr) || fresh(arr))
      ensures Abs() == Apply(old(Abs()), Push(x))
      ensures if old(size) == old(cap) then GrownByHalf(old(cap), cap) else cap == old(cap)
    {
      ghost var was := arr[..size];
      if size == cap {
        Realloc();
      }
      assert arr[..size] == was;
      arr[size] := x;
      size := size + 1;
      assert arr[..size] == was + [x];
    }

    method DAPop() returns (x: Pointer)
      requires Valid()
      modifies this
      ensures Valid() && arr == old(arr)
      ensures Abs() == Apply(old(Abs()), Pop)
      ensures x == if old(size) == 0 then NULL else old(Abs()).items[old(size) - 1]
    {
      if size != 0 {
        size := size - 1;
        return arr[size];
      }
      return NULL;
    }

    method DASet(x: Pointer, i: int)
      requires Valid()
      modifies arr
      ensures Valid() && Abs() == Apply(old(Abs()), Set(x, i))
    {
      if i >= 0 && i < size {
        arr[i] := x;
      }
    }

    method DAGet(i: int) returns (x: Pointer)
      requires Valid()
      ensures x == if 0 <= i < |Abs().items| then Abs().items[i] else NULL
    {
      if i >= 0 && i < size {
        return arr[i];
      }
      return NULL;
    }
  }
}
