// The open-addressing table of hashmap.c as a value, operation by operation.
module HashTable {
  import opened Options

  type Byte = b: int | 0 <= b < 256
  type Key = seq<Byte>
  type HashFn = Key -> nat

  /** Values are addresses the caller owns; NULL is what a failed lookup returns. */
  type Value = int
  const NULL: Value := 0

  const STARTING_BUCKETS: nat := 8

  datatype Status = Empty | Occupied | Deleted

  /** `block` names the malloc'ed copy that holds the key's bytes. */
  datatype Node = Node(status: Status, key: Key, block: nat, value: Value, hash: nat)

  /** The allocator's ledger. Freeing a block that is not live is recorded as a fault. */
  datatype Heap = Heap(live: set<nat>, next: nat, fault: bool) {
    function Alloc(): Heap {
      Heap(live + {next}, next + 1, fault)
    }

    function Free(block: nat): Heap {
      if block in live then this.(live := live - {block}) else this.(fault := true)
    }
  }

  /** `mapBlock` and `arrBlock` are the blocks of the map itself and of its slot array. */
  datatype Table = Table(slots: seq<Node>, size: int, mapBlock: nat, arrBlock: nat, heap: Heap)

  const EMPTY_NODE := Node(Empty, [], 0, NULL, 0)

  function EmptySlots(n: nat): seq<Node> {
    seq(n, _ => EMPTY_NODE)
  }

  /** Hashmap_new on a heap: the map's own block, then the slot array. */
  function NewTable(heap: Heap): Table {
    var own := heap.Alloc();
    Table(EmptySlots(STARTING_BUCKETS), 0, heap.next, own.next, own.Alloc())
  }

  /** Probe i of reduced hash h: `(hv + (i + i * i) >> 1) % n` shifts the whole sum. */
  function Probe(h: nat, i: nat, n: nat): (p: nat)
    requires h < n
    ensures p < n
  {
    if i == 0 then h else (h + i + i * i) / 2 % n
  }

  /** Slot p belongs to the chain of h: in use or deleted, with that reduced hash. */
  predicate Mine(s: seq<Node>, h: nat, p: nat) {
    p < |s| && !s[p].status.Empty? && s[p].hash == h
  }

  predicate Holds(s: seq<Node>, key: Key, p: nat) {
    p < |s| && s[p].status.Occupied? && s[p].key == key
  }

  /** Where the probe loop of Hashmap_set ends: at probe j, or with a resize. */
  datatype SetOutcome = Insert(j: nat) | Overwrite(j: nat) | Resize(j: nat)

  function SetScan(s: seq<Node>, key: Key, h: nat, i: nat): (r: SetOutcome)
    requires h < |s| && i <= |s| + 1
    ensures i <= r.j <= |s| + 1
    ensures forall x :: i <= x < r.j ==>
      Mine(s, h, Probe(h, x, |s|)) && s[Probe(h, x, |s|)].status.Occupied? && s[Probe(h, x, |s|)].key != key
    ensures r.Insert? ==> r.j <= |s|
    ensures r.Insert? ==>
      (s[Probe(h, r.j, |s|)].status.Empty? || (Mine(s, h, Probe(h, r.j, |s|)) && s[Probe(h, r.j, |s|)].status.Deleted?))
    ensures r.Overwrite? ==> r.j <= |s| && Mine(s, h, Probe(h, r.j, |s|)) && Holds(s, key, Probe(h, r.j, |s|))
    ensures r.Resize? ==>
      r.j == |s| + 1 || (!s[Probe(h, r.j, |s|)].status.Empty? && s[Probe(h, r.j, |s|)].hash != h)
    decreases |s| + 1 - i
  {
    if i == |s| + 1 then Resize(i)
    else
      var node := s[Probe(h, i, |s|)];
      if node.status.Empty? then Insert(i)
      else if node.hash != h then Resize(i)
      else if node.status.Deleted? then Insert(i)
      else if node.key == key then Overwrite(i)
      else SetScan(s, key, h, i + 1)
  }

  /** Where the probe loop of Hashmap_get and Hashmap_delete ends. */
  datatype GetOutcome = Hit(j: nat) | Miss(j: nat)

  function GetScan(s: seq<Node>, key: Key, h: nat, i: nat): (r: GetOutcome)
    requires h < |s| && i <= |s| + 1
    ensures i <= r.j <= |s| + 1
    ensures forall x :: i <= x < r.j ==> Mine(s, h, Probe(h, x, |s|)) && !Holds(s, key, Probe(h, x, |s|))
    ensures r.Hit? ==> r.j <= |s| && Mine(s, h, Probe(h, r.j, |s|)) && Holds(s, key, Probe(h, r.j, |s|))
    ensures r.Miss? ==> r.j == |s| + 1 || !Mine(s, h, Probe(h, r.j, |s|))
    decreases |s| + 1 - i
  {
    if i == |s| + 1 then Miss(i)
    else
      var p := Probe(h, i, |s|);
      if !Mine(s, h, p) then Miss(i)
      else if Holds(s, key, p) then Hit(i)
      else GetScan(s, key, h, i + 1)
  }

  /** node_set: release the old key copy, if any, and store a fresh one. */
  function WriteNode(t: Table, p: nat, key: Key, value: Value, h: nat): Table
    requires p < |t.slots|
  {
    var node := t.slots[p];
    var heap := if node.status.Occupied? then t.heap.Free(node.block) else t.heap;
    t.(slots := t.slots[p := Node(Occupied, key, heap.next, value, h)], heap := heap.Alloc())
  }

  /** The table a resize starts from: twice the slots, all empty; the old array is still live. */
  function Grown(t: Table): Table {
    t.(slots := EmptySlots(2 * |t.slots|), size := 0, arrBlock := t.heap.next, heap := t.heap.Alloc())
  }

  function Home(hash: HashFn, s: seq<Node>, key: Key): (h: nat)
    requires |s| > 0
    ensures h < |s|
  {
    hash(key) % |s|
  }

  /** Hashmap_set. `fuel` bounds how deeply resizes may nest; None means that bound was reached. */
  function Store(hash: HashFn, t: Table, key: Key, value: Value, fuel: nat): (r: Option<Table>)
    requires |t.slots| > 0
    ensures r.Some? ==> |r.value.slots| >= |t.slots|
    decreases fuel, 0, 0
  {
    var h := Home(hash, t.slots, key);
    match SetScan(t.slots, key, h, 0)
    case Insert(j) => Some(WriteNode(t, Probe(h, j, |t.slots|), key, value, h).(size := t.size + 1))
    case Overwrite(j) => Some(WriteNode(t, Probe(h, j, |t.slots|), key, value, h))
    case Resize(_) =>
      if fuel == 0 then None
      else
        match Rehash(hash, Grown(t), t.slots, 0, fuel - 1)
        case None => None
        case Some(u) => Store(hash, u.(heap := u.heap.Free(t.arrBlock)), key, value, fuel - 1)
  }

  /** The reinsertion loop of a resize, from slot i of the old array on. */
  function Rehash(hash: HashFn, t: Table, src: seq<Node>, i: nat, fuel: nat): (r: Option<Table>)
    requires |t.slots| > 0 && i <= |src|
    ensures r.Some? ==> |r.value.slots| >= |t.slots|
    decreases fuel, 1, |src| - i
  {
    if i == |src| then Some(t)
    else if !src[i].status.Occupied? then Rehash(hash, t, src, i + 1, fuel)
    else
      match Store(hash, t, src[i].key, src[i].value, fuel)
      case None => None
      case Some(u) => Rehash(hash, u.(heap := u.heap.Free(src[i].block)), src, i + 1, fuel)
  }

  /** Hashmap_get. */
  function Lookup(hash: HashFn, t: Table, key: Key): Value
    requires |t.slots| > 0
  {
    var h := Home(hash, t.slots, key);
    match GetScan(t.slots, key, h, 0)
    case Hit(j) => t.slots[Probe(h, j, |t.slots|)].value
    case Miss(_) => NULL
  }

  /** node_delete: the slot keeps its reduced hash, so the chain through it stays whole. */
  function DeleteNode(t: Table, p: nat): Table
    requires p < |t.slots|
  {
    var node := t.slots[p];
    t.(slots := t.slots[p := node.(status := Deleted, key := [])],
       size := t.size - 1,
       heap := t.heap.Free(node.block))
  }

  /** Hashmap_delete's effect on the table; it returns what Lookup returned before. */
  function Remove(hash: HashFn, t: Table, key: Key): (r: Table)
    requires |t.slots| > 0
    ensures |r.slots| == |t.slots|
  {
    var h := Home(hash, t.slots, key);
    match GetScan(t.slots, key, h, 0)
    case Hit(j) => DeleteNode(t, Probe(h, j, |t.slots|))
    case Miss(_) => t
  }

  /** The loop of Hashmap_free: the key copies of the occupied slots from i on. */
  function FreeKeys(heap: Heap, s: seq<Node>, i: nat): Heap
    requires i <= |s|
    decreases |s| - i
  {
    if i == |s| then heap
    else FreeKeys(if s[i].status.Occupied? then heap.Free(s[i].block) else heap, s, i + 1)
  }

  /** Hashmap_free: the key copies, the slot array, the map. */
  function FreeAll(t: Table): Heap {
    FreeKeys(t.heap, t.slots, 0).Free(t.arrBlock).Free(t.mapBlock)
  }
}
