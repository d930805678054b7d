// What every table of hashmap.c satisfies, whatever the hash function and whatever the history.
module HashInvariant {
  import opened HashTable

  /** The first j probes of h all belong to h's chain. */
  ghost predicate ChainAt(s: seq<Node>, h: nat, j: nat)
    requires h < |s|
  {
    forall x: nat :: x < j ==> Mine(s, h, Probe(h, x, |s|))
  }

  /** Slot p is reached from h by probes that never leave h's chain. */
  ghost predicate Linked(s: seq<Node>, h: nat, p: nat)
    requires h < |s|
  {
    exists j: nat :: j <= |s| && Probe(h, j, |s|) == p && ChainAt(s, h, j)
  }

  /** Slot p, if in use or deleted, is linked in its class; an occupied slot is in the class of its key. */
  ghost predicate SlotOk(hash: HashFn, s: seq<Node>, p: nat)
    requires p < |s|
  {
    !s[p].status.Empty? ==>
      && s[p].hash < |s|
      && Linked(s, s[p].hash, p)
      && (s[p].status.Occupied? ==> Home(hash, s, s[p].key) == s[p].hash)
  }

  ghost predicate Chained(hash: HashFn, s: seq<Node>) {
    |s| > 0 && forall p: nat :: p < |s| ==> SlotOk(hash, s, p)
  }

  ghost function OccupiedAt(s: seq<Node>): set<nat> {
    set p: nat | p < |s| && s[p].status.Occupied?
  }

  /** The key copies of slots i and up. */
  ghost function Blocks(s: seq<Node>, i: nat): set<nat> {
    set p: nat | i <= p < |s| && s[p].status.Occupied? :: s[p].block
  }

  ghost predicate DistinctBlocks(s: seq<Node>) {
    forall p, q :: 0 <= p < q < |s| && s[p].status.Occupied? && s[q].status.Occupied? ==> s[p].block != s[q].block
  }

  /** What Hashmap_free releases: each occupied slot's key copy, the slot array and the map. */
  ghost function Owned(t: Table): set<nat> {
    Blocks(t.slots, 0) + {t.arrBlock, t.mapBlock}
  }

  /** Live blocks that are not this table's. */
  ghost function Others(t: Table): set<nat> {
    t.heap.live - Owned(t)
  }

  ghost predicate HeapOk(t: Table) {
    && !t.heap.fault
    && Owned(t) <= t.heap.live
    && t.arrBlock !in Blocks(t.slots, 0) && t.mapBlock !in Blocks(t.slots, 0) && t.arrBlock != t.mapBlock
    && DistinctBlocks(t.slots)
    && forall b :: b in t.heap.live ==> b < t.heap.next
  }

  ghost predicate Sound(hash: HashFn, t: Table) {
    && Chained(hash, t.slots)
    && HeapOk(t)
    && t.size == |OccupiedAt(t.slots)|
  }

  lemma SoundIsChained(hash: HashFn, t: Table)
    requires Sound(hash, t)
    ensures |t.slots| > 0 && Chained(hash, t.slots)
  {
  }

  ghost predicate HeapFresh(heap: Heap) {
    !heap.fault && forall b :: b in heap.live ==> b < heap.next
  }

  lemma NewSound(hash: HashFn, heap: Heap)
    requires HeapFresh(heap)
    ensures Sound(hash, NewTable(heap)) && Others(NewTable(heap)) == heap.live
  {
  }

  /** When a resize starts, the old array and the key copies in it no longer belong to the table. */
  lemma GrownSound(hash: HashFn, t: Table)
    requires Sound(hash, t)
    ensures Sound(hash, Grown(t))
    ensures Others(Grown(t)) == Others(t) + Blocks(t.slots, 0) + {t.arrBlock}
  {
    assert Blocks(Grown(t).slots, 0) == {};
  }

  /** Replacing a node keeps every chain, if slot p is linked in its new chain and was in no other. */
  lemma ReplaceChained(hash: HashFn, s: seq<Node>, p: nat, node: Node, j: nat)
    requires Chained(hash, s) && p < |s|
    requires !node.status.Empty? && node.hash < |s| && j <= |s|
    requires Probe(node.hash, j, |s|) == p && ChainAt(s, node.hash, j)
    requires s[p].status.Empty? || s[p].hash == node.hash
    requires node.status.Occupied? ==> Home(hash, s, node.key) == node.hash
    ensures Chained(hash, s[p := node])
  {
    var s' := s[p := node];
    forall q: nat | q < |s| ensures SlotOk(hash, s', q) {
      var h := s'[q].hash;
      assert SlotOk(hash, s, q);
      if q == p {
        assert ChainAt(s', h, j);
      } else if !s'[q].status.Empty? {
        var i: nat :| i <= |s| && Probe(h, i, |s|) == q && ChainAt(s, h, i);
        assert ChainAt(s', h, i);
      }
    }
  }

  lemma WriteSound(hash: HashFn, t: Table, key: Key, value: Value, h: nat, j: nat)
    requires Sound(hash, t) && h == Home(hash, t.slots, key) && j <= |t.slots|
    requires ChainAt(t.slots, h, j)
    requires var node := t.slots[Probe(h, j, |t.slots|)]; node.status.Empty? || node.hash == h
    ensures var p := Probe(h, j, |t.slots|);
            var d := if t.slots[p].status.Occupied? then 0 else 1;
            var u := WriteNode(t, p, key, value, h).(size := t.size + d);
            Sound(hash, u) && Others(u) == Others(t)
  {
    var p := Probe(h, j, |t.slots|);
    ReplaceChained(hash, t.slots, p, WriteNode(t, p, key, value, h).slots[p], j);
    WriteHeap(t, p, key, value, h);
  }

  lemma WriteHeap(t: Table, p: nat, key: Key, value: Value, h: nat)
    requires HeapOk(t) && t.size == |OccupiedAt(t.slots)| && p < |t.slots|
    ensures var d := if t.slots[p].status.Occupied? then 0 else 1;
            var u := WriteNode(t, p, key, value, h).(size := t.size + d);
            HeapOk(u) && Others(u) == Others(t) && u.size == |OccupiedAt(u.slots)|
  {
    var u := WriteNode(t, p, key, value, h);
    assert OccupiedAt(u.slots) == OccupiedAt(t.slots) + {p};
    ReplaceBlocks(t.slots, p, u.slots[p]);
    if t.slots[p].status.Occupied? {
      assert t.slots[p].block in Blocks(t.slots, 0);
    }
    assert Others(u) == Others(t);
  }

  lemma ReplaceBlocks(s: seq<Node>, p: nat, node: Node)
    requires p < |s| && DistinctBlocks(s)
    ensures Blocks(s[p := node], 0)
            == (if s[p].status.Occupied? then Blocks(s, 0) - {s[p].block} else Blocks(s, 0))
               + (if node.status.Occupied? then {node.block} else {})
  {
    var s' := s[p := node];
    forall b | b in Blocks(s, 0) && b != s[p].block ensures b in Blocks(s', 0) {
      var q: nat :| q < |s| && s[q].status.Occupied? && s[q].block == b;
      assert s'[q] == s[q];
    }
    if node.status.Occupied? {
      assert s'[p].block in Blocks(s', 0);
    }
    if !s[p].status.Occupied? {
      forall b | b in Blocks(s, 0) ensures b in Blocks(s', 0) {
        var q: nat :| q < |s| && s[q].status.Occupied? && s[q].block == b;
        assert s'[q] == s[q];
      }
    }
  }

  lemma {:induction false} StoreSound(hash: HashFn, t: Table, key: Key, value: Value, fuel: nat)
    requires Sound(hash, t) && Store(hash, t, key, value, fuel).Some?
    ensures var u := Store(hash, t, key, value, fuel).value;
            Sound(hash, u) && Others(u) == Others(t)
    decreases fuel, 0, 0
  {
    var h := Home(hash, t.slots, key);
    match SetScan(t.slots, key, h, 0)
    case Insert(j) => WriteSound(hash, t, key, value, h, j);
    case Overwrite(j) => WriteSound(hash, t, key, value, h, j);
    case Resize(_) =>
      GrownSound(hash, t);
      RehashSound(hash, Grown(t), t.slots, 0, fuel - 1);
      var u := Rehash(hash, Grown(t), t.slots, 0, fuel - 1).value;
      FreeOther(hash, u, t.arrBlock);
      StoreSound(hash, u.(heap := u.heap.Free(t.arrBlock)), key, value, fuel - 1);
  }

  lemma FreeOther(hash: HashFn, t: Table, block: nat)
    requires Sound(hash, t) && block in Others(t)
    ensures var u := t.(heap := t.heap.Free(block));
            Sound(hash, u) && Others(u) == Others(t) - {block}
  {
  }

  /** A resize hands every key copy of the old array over: each is freed once, after its last use. */
  lemma {:induction false} RehashSound(hash: HashFn, t: Table, src: seq<Node>, i: nat, fuel: nat)
    requires Sound(hash, t) && i <= |src| && Rehash(hash, t, src, i, fuel).Some?
    requires DistinctBlocks(src) && Blocks(src, i) <= Others(t)
    ensures var u := Rehash(hash, t, src, i, fuel).value;
            Sound(hash, u) && Others(u) == Others(t) - Blocks(src, i)
    decreases fuel, 1, |src| - i
  {
    if i == |src| {
      assert Blocks(src, i) == {};
    } else if !src[i].status.Occupied? {
      assert Blocks(src, i) == Blocks(src, i + 1);
      RehashSound(hash, t, src, i + 1, fuel);
    } else {
      StoreSound(hash, t, src[i].key, src[i].value, fuel);
      var u := Store(hash, t, src[i].key, src[i].value, fuel).value;
      assert Blocks(src, i) == Blocks(src, i + 1) + {src[i].block};
      assert src[i].block !in Blocks(src, i + 1);
      FreeOther(hash, u, src[i].block);
      RehashSound(hash, u.(heap := u.heap.Free(src[i].block)), src, i + 1, fuel);
    }
  }

  lemma DeleteHeap(t: Table, p: nat)
    requires HeapOk(t) && t.size == |OccupiedAt(t.slots)| && p < |t.slots| && t.slots[p].status.Occupied?
    ensures var u := DeleteNode(t, p);
            HeapOk(u) && Others(u) == Others(t) && u.size == |OccupiedAt(u.slots)|
  {
    var u := DeleteNode(t, p);
    DeleteCount(t.slots, p, u.slots[p]);
    ReplaceBlocks(t.slots, p, u.slots[p]);
    assert t.slots[p].block in Blocks(t.slots, 0);
    hide Blocks, OccupiedAt;
    assert Others(u) == Others(t);
  }

  lemma DeleteCount(s: seq<Node>, p: nat, node: Node)
    requires p < |s| && s[p].status.Occupied? && !node.status.Occupied?
    ensures |OccupiedAt(s[p := node])| == |OccupiedAt(s)| - 1
  {
    assert OccupiedAt(s[p := node]) == OccupiedAt(s) - {p};
  }

  lemma RemoveSound(hash: HashFn, t: Table, key: Key)
    requires Sound(hash, t)
    ensures var u := Remove(hash, t, key);
            Sound(hash, u) && Others(u) == Others(t)
  {
    hide HeapOk, OccupiedAt, Blocks;
    var h := Home(hash, t.slots, key);
    match GetScan(t.slots, key, h, 0)
    case Miss(_) =>
    case Hit(j) =>
      var p := Probe(h, j, |t.slots|);
      ReplaceChained(hash, t.slots, p, DeleteNode(t, p).slots[p], j);
      DeleteHeap(t, p);
  }

  lemma {:induction false} FreeKeysEffect(heap: Heap, s: seq<Node>, i: nat)
    requires i <= |s| && !heap.fault && DistinctBlocks(s) && Blocks(s, i) <= heap.live
    ensures FreeKeys(heap, s, i) == heap.(live := heap.live - Blocks(s, i))
    decreases |s| - i
  {
    if i == |s| {
      assert Blocks(s, i) == {};
    } else if s[i].status.Occupied? {
      assert Blocks(s, i) == Blocks(s, i + 1) + {s[i].block};
      assert s[i].block !in Blocks(s, i + 1);
      FreeKeysEffect(heap.Free(s[i].block), s, i + 1);
    } else {
      assert Blocks(s, i) == Blocks(s, i + 1);
      FreeKeysEffect(heap, s, i + 1);
    }
  }

  /** Hashmap_free releases exactly what the table owns, each block once. */
  lemma FreeAllReleasesOwned(hash: HashFn, t: Table)
    requires Sound(hash, t)
    ensures FreeAll(t) == t.heap.(live := Others(t))
  {
    FreeKeysEffect(t.heap, t.slots, 0);
    assert t.heap.live - Blocks(t.slots, 0) - {t.arrBlock} - {t.mapBlock} == Others(t);
  }
}
