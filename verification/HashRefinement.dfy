// The table of hashmap.c against a finite map.
module HashRefinement {
  import opened HashTable
  import opened Options
  import opened Sets
  import opened HashInvariant

  /** m updated with the entries of slots i, i + 1, ... in that order. */
  ghost function Fold(m: map<Key, Value>, s: seq<Node>, i: nat): map<Key, Value>
    requires i <= |s|
    decreases |s| - i
  {
    if i == |s| then m
    else Fold(if s[i].status.Occupied? then m[s[i].key := s[i].value] else m, s, i + 1)
  }

  ghost function Contents(s: seq<Node>): map<Key, Value> {
    Fold(map[], s, 0)
  }

  ghost predicate Unique(s: seq<Node>) {
    forall p, q :: 0 <= p < q < |s| && s[p].status.Occupied? && s[q].status.Occupied? ==> s[p].key != s[q].key
  }

  ghost predicate NoTombs(s: seq<Node>) {
    forall p :: 0 <= p < |s| ==> !s[p].status.Deleted?
  }

  /** The key is stored, and its chain has a deleted slot before it. */
  ghost predicate Hides(hash: HashFn, s: seq<Node>, key: Key)
    requires |s| > 0
  {
    var h := Home(hash, s, key);
    var r := GetScan(s, key, h, 0);
    r.Hit? && exists x: nat :: x < r.j && s[Probe(h, x, |s|)].status.Deleted?
  }

  // ---------- Contents ----------

  /** The last slot of the array that holds the key. */
  ghost predicate IsLast(s: seq<Node>, key: Key, p: nat) {
    Holds(s, key, p) && forall q: nat :: p < q ==> !Holds(s, key, q)
  }

  lemma {:induction false} FoldMeaning(m: map<Key, Value>, s: seq<Node>, i: nat, key: Key)
    requires i <= |s|
    ensures key in Fold(m, s, i) <==> key in m || exists p: nat :: i <= p && Holds(s, key, p)
    ensures forall p: nat :: i <= p && IsLast(s, key, p) ==>
      key in Fold(m, s, i) && Fold(m, s, i)[key] == s[p].value
    ensures key in m && (forall p: nat :: i <= p ==> !Holds(s, key, p)) ==>
      key in Fold(m, s, i) && Fold(m, s, i)[key] == m[key]
    decreases |s| - i
  {
    if i < |s| {
      var m' := if s[i].status.Occupied? then m[s[i].key := s[i].value] else m;
      FoldMeaning(m', s, i + 1, key);
      if s[i].status.Occupied? && s[i].key == key {
        assert Holds(s, key, i);
      }
    }
  }

  /** Contents maps a key to the value of the last slot that holds it, without duplicates the only one. */
  lemma ContentsMeaning(s: seq<Node>, key: Key)
    ensures key in Contents(s) <==> exists p: nat :: Holds(s, key, p)
    ensures forall p: nat :: IsLast(s, key, p) ==> key in Contents(s) && Contents(s)[key] == s[p].value
    ensures Unique(s) ==> forall p: nat :: Holds(s, key, p) ==> key in Contents(s) && Contents(s)[key] == s[p].value
  {
    FoldMeaning(map[], s, 0, key);
    if Unique(s) {
      forall p: nat | Holds(s, key, p) ensures IsLast(s, key, p) {
      }
    }
  }

  lemma {:induction false} LastExists(s: seq<Node>, key: Key, p: nat) returns (last: nat)
    requires Holds(s, key, p)
    ensures IsLast(s, key, last)
    decreases |s| - p
  {
    if q: nat :| p < q && Holds(s, key, q) {
      last := LastExists(s, key, q);
    } else {
      last := p;
    }
  }

  lemma EmptyContents(n: nat)
    ensures Contents(EmptySlots(n)) == map[]
  {
    forall key: Key ensures key !in Contents(EmptySlots(n)) {
      ContentsMeaning(EmptySlots(n), key);
    }
  }

  lemma WriteContents(s: seq<Node>, p: nat, node: Node)
    requires p < |s| && Unique(s) && Unique(s[p := node]) && node.status.Occupied?
    requires !s[p].status.Occupied? || s[p].key == node.key
    ensures Contents(s[p := node]) == Contents(s)[node.key := node.value]
  {
    var s' := s[p := node];
    forall k: Key
      ensures k in Contents(s') <==> k in Contents(s) || k == node.key
      ensures k in Contents(s') ==>
        Contents(s')[k] == if k == node.key then node.value else Contents(s)[k]
    {
      ContentsMeaning(s, k);
      ContentsMeaning(s', k);
      assert Holds(s', node.key, p);
      if k != node.key {
        forall q: nat ensures Holds(s', k, q) <==> Holds(s, k, q) {
        }
      }
    }
  }

  lemma DeleteContents(s: seq<Node>, p: nat, node: Node)
    requires p < |s| && Unique(s) && s[p].status.Occupied? && node.status.Deleted?
    ensures Unique(s[p := node]) && Contents(s[p := node]) == Contents(s) - {s[p].key}
  {
    var s' := s[p := node];
    forall k: Key
      ensures k in Contents(s') <==> k in Contents(s) && k != s[p].key
      ensures k in Contents(s') ==> Contents(s')[k] == Contents(s)[k]
    {
      ContentsMeaning(s, k);
      ContentsMeaning(s', k);
      if k != s[p].key {
        forall q: nat ensures Holds(s', k, q) <==> Holds(s, k, q) {
        }
      }
    }
  }

  // ---------- scans ----------

  /** The chain invariant makes the early stop sound: a scan finds every stored key. */
  lemma ScanFinds(hash: HashFn, s: seq<Node>, key: Key, p: nat)
    requires Chained(hash, s) && Holds(s, key, p)
    ensures GetScan(s, key, Home(hash, s, key), 0).Hit?
  {
    var h := Home(hash, s, key);
    assert SlotOk(hash, s, p);
    var j: nat :| j <= |s| && Probe(h, j, |s|) == p && ChainAt(s, h, j);
    assert Mine(s, h, Probe(h, j, |s|));
  }

  /** The first slot on the key's probe sequence that holds it. */
  ghost predicate IsFirst(hash: HashFn, s: seq<Node>, key: Key, p: nat)
    requires |s| > 0
  {
    var h := Home(hash, s, key);
    && Holds(s, key, p)
    && exists j: nat :: j <= |s| && Probe(h, j, |s|) == p && forall x: nat :: x < j ==> !Holds(s, key, Probe(h, x, |s|))
  }

  /**
   * Hashmap_get returns the value in the first slot that holds the key, NULL if none does; without
   * duplicates that is what the contents say.
   */
  lemma LookupCorrect(hash: HashFn, t: Table, key: Key)
    requires Chained(hash, t.slots)
    ensures forall p: nat :: IsFirst(hash, t.slots, key, p) ==> Lookup(hash, t, key) == t.slots[p].value
    ensures key in Contents(t.slots) <==> exists p: nat :: IsFirst(hash, t.slots, key, p)
    ensures key !in Contents(t.slots) ==> Lookup(hash, t, key) == NULL
    ensures Unique(t.slots) && key in Contents(t.slots) ==> Lookup(hash, t, key) == Contents(t.slots)[key]
  {
    var s := t.slots;
    ContentsMeaning(s, key);
    var h := Home(hash, s, key);
    match GetScan(s, key, h, 0)
    case Hit(j) =>
      assert IsFirst(hash, s, key, Probe(h, j, |s|));
      forall p: nat | IsFirst(hash, s, key, p) ensures p == Probe(h, j, |s|) {
      }
    case Miss(_) =>
      if p: nat :| Holds(s, key, p) {
        ScanFinds(hash, s, key, p);
      }
  }

  /** The two scans agree on where the key is, unless a deleted slot comes first. */
  lemma ScansAgree(hash: HashFn, s: seq<Node>, key: Key)
    requires Chained(hash, s)
    ensures var h := Home(hash, s, key);
            var g := GetScan(s, key, h, 0);
            var r := SetScan(s, key, h, 0);
            && (g.Hit? && !Hides(hash, s, key) ==> r == Overwrite(g.j))
            && (g.Hit? && Hides(hash, s, key) ==> r.Insert? && r.j < g.j && s[Probe(h, r.j, |s|)].status.Deleted?)
            && (g.Miss? ==> !r.Overwrite?)
  {
  }

  // ---------- set ----------

  /** One direct store, no resize. */
  lemma WriteRefines(hash: HashFn, t: Table, key: Key, value: Value, fuel: nat)
    requires Chained(hash, t.slots) && Unique(t.slots) && !Hides(hash, t.slots, key)
    requires !SetScan(t.slots, key, Home(hash, t.slots, key), 0).Resize?
    ensures var u := Store(hash, t, key, value, fuel).value;
            && Unique(u.slots)
            && Contents(u.slots) == Contents(t.slots)[key := value]
            && (NoTombs(t.slots) ==> NoTombs(u.slots))
  {
    var s, h := t.slots, Home(hash, t.slots, key);
    var u := Store(hash, t, key, value, fuel).value;
    ScansAgree(hash, s, key);
    var p := Probe(h, SetScan(s, key, h, 0).j, |s|);
    forall q: nat | Holds(s, key, q) ensures q == p {
      ScanFinds(hash, s, key, q);
    }
    assert u.slots == s[p := u.slots[p]];
    forall q: nat | q < |s| && q != p && s[q].status.Occupied? ensures s[q].key != key {
      assert !Holds(s, key, q);
    }
    WriteContents(s, p, u.slots[p]);
  }

  /** The table a resize starts from is empty, and all it has still to free is not its own. */
  lemma GrownStarts(hash: HashFn, t: Table)
    requires Sound(hash, t)
    ensures var g := Grown(t);
            && Sound(hash, g) && DistinctBlocks(t.slots) && Blocks(t.slots, 0) <= Others(g)
            && t.arrBlock in Others(g) && t.arrBlock !in Blocks(t.slots, 0)
            && Unique(g.slots) && NoTombs(g.slots) && Contents(g.slots) == map[]
  {
    GrownSound(hash, t);
    EmptyContents(2 * |t.slots|);
  }

  /** Set over any number of nested resizes: a resize also clears duplicates and deleted slots. */
  lemma {:induction false} StoreRefines(hash: HashFn, t: Table, key: Key, value: Value, fuel: nat)
    requires Sound(hash, t) && Store(hash, t, key, value, fuel).Some?
    requires var resize := SetScan(t.slots, key, Home(hash, t.slots, key), 0).Resize?;
             resize || (Unique(t.slots) && !Hides(hash, t.slots, key))
    ensures var u := Store(hash, t, key, value, fuel).value;
            var resize := SetScan(t.slots, key, Home(hash, t.slots, key), 0).Resize?;
            && Unique(u.slots)
            && Contents(u.slots) == Contents(t.slots)[key := value]
            && (resize || NoTombs(t.slots) ==> NoTombs(u.slots))
    decreases fuel, 0, 0
  {
    SoundIsChained(hash, t);
    hide Sound, Others, Blocks, Contents, Unique, NoTombs, Hides;
    if SetScan(t.slots, key, Home(hash, t.slots, key), 0).Resize? {
      GrownStarts(hash, t);
      RehashSound(hash, Grown(t), t.slots, 0, fuel - 1);
      RehashRefines(hash, Grown(t), t.slots, 0, fuel - 1);
      var u := Rehash(hash, Grown(t), t.slots, 0, fuel - 1).value;
      FreeOther(hash, u, t.arrBlock);
      NoTombsHideNothing(hash, u.slots, key);
      StoreRefines(hash, u.(heap := u.heap.Free(t.arrBlock)), key, value, fuel - 1);
      assert Contents(t.slots) == Fold(map[], t.slots, 0) by { ContentsIsFold(t.slots); }
    } else {
      WriteRefines(hash, t, key, value, fuel);
    }
  }

  lemma ContentsIsFold(s: seq<Node>)
    ensures Contents(s) == Fold(map[], s, 0)
  {
  }

  lemma NoTombsHideNothing(hash: HashFn, s: seq<Node>, key: Key)
    requires |s| > 0 && NoTombs(s)
    ensures !Hides(hash, s, key)
  {
  }

  lemma {:induction false} RehashRefines(hash: HashFn, t: Table, src: seq<Node>, i: nat, fuel: nat)
    requires Sound(hash, t) && i <= |src| && Rehash(hash, t, src, i, fuel).Some?
    requires DistinctBlocks(src) && Blocks(src, i) <= Others(t)
    requires Unique(t.slots) && NoTombs(t.slots)
    ensures var u := Rehash(hash, t, src, i, fuel).value;
            Unique(u.slots) && NoTombs(u.slots) && Contents(u.slots) == Fold(Contents(t.slots), src, i)
    decreases fuel, 1, |src| - i
  {
    SoundIsChained(hash, t);
    hide Sound, Others, Contents, Unique, NoTombs, Hides;
    if i == |src| {
    } else if !src[i].status.Occupied? {
      RehashRefines(hash, t, src, i + 1, fuel);
    } else {
      StoreSound(hash, t, src[i].key, src[i].value, fuel);
      NoTombsHideNothing(hash, t.slots, src[i].key);
      StoreRefines(hash, t, src[i].key, src[i].value, fuel);
      var u := Store(hash, t, src[i].key, src[i].value, fuel).value;
      assert src[i].block in Others(u) && src[i].block !in Blocks(src, i + 1);
      FreeOther(hash, u, src[i].block);
      RehashRefines(hash, u.(heap := u.heap.Free(src[i].block)), src, i + 1, fuel);
    }
  }

  /** A resizing set is a set on a table w with the old contents, no duplicates and no deleted slots. */
  lemma ResizeUnfolds(hash: HashFn, t: Table, key: Key, value: Value, fuel: nat) returns (w: Table)
    requires Sound(hash, t) && SetScan(t.slots, key, Home(hash, t.slots, key), 0).Resize?
    requires Rehash(hash, Grown(t), t.slots, 0, fuel).Some?
    ensures Sound(hash, w) && Unique(w.slots) && NoTombs(w.slots) && Contents(w.slots) == Contents(t.slots)
    ensures |w.slots| == |Rehash(hash, Grown(t), t.slots, 0, fuel).value.slots|
    ensures Store(hash, t, key, value, fuel + 1) == Store(hash, w, key, value, fuel)
  {
    var u := Rehash(hash, Grown(t), t.slots, 0, fuel).value;
    w := u.(heap := u.heap.Free(t.arrBlock));
    GrownStarts(hash, t);
    RehashSound(hash, Grown(t), t.slots, 0, fuel);
    RehashRefines(hash, Grown(t), t.slots, 0, fuel);
    FreeOther(hash, u, t.arrBlock);
  }

  /** After a resize every get returns what the last slot with its key held, duplicates or not. */
  lemma ResizeGets(hash: HashFn, t: Table, key: Key, value: Value, fuel: nat, k: Key)
    requires Sound(hash, t) && Store(hash, t, key, value, fuel).Some?
    requires SetScan(t.slots, key, Home(hash, t.slots, key), 0).Resize?
    ensures Lookup(hash, Store(hash, t, key, value, fuel).value, k)
            == if k == key then value else if k in Contents(t.slots) then Contents(t.slots)[k] else NULL
  {
    StoreSound(hash, t, key, value, fuel);
    StoreRefines(hash, t, key, value, fuel);
    LookupCorrect(hash, Store(hash, t, key, value, fuel).value, k);
  }

  /** So a resize changes what get returns for another key unless its first and its last slot agree. */
  lemma ResizeRevertsIff(hash: HashFn, t: Table, key: Key, value: Value, fuel: nat, k: Key)
    returns (first: nat, last: nat)
    requires Sound(hash, t) && Store(hash, t, key, value, fuel).Some?
    requires SetScan(t.slots, key, Home(hash, t.slots, key), 0).Resize?
    requires k != key && k in Contents(t.slots)
    ensures IsFirst(hash, t.slots, k, first) && IsLast(t.slots, k, last)
    ensures var u := Store(hash, t, key, value, fuel).value;
            && Lookup(hash, u, k) == t.slots[last].value
            && (Lookup(hash, u, k) == Lookup(hash, t, k) <==> t.slots[last].value == t.slots[first].value)
  {
    hide Store, Contents;
    ContentsMeaning(t.slots, k);
    LookupCorrect(hash, t, k);
    ResizeGets(hash, t, key, value, fuel, k);
    first :| IsFirst(hash, t.slots, k, first);
    last := LastExists(t.slots, k, first);
  }

  /** Exactly when Hashmap_set keeps keys unique: when no deleted slot hides the key. */
  lemma StoreKeepsUniqueIff(hash: HashFn, t: Table, key: Key, value: Value, fuel: nat)
    requires Sound(hash, t) && Unique(t.slots) && Store(hash, t, key, value, fuel).Some?
    ensures Unique(Store(hash, t, key, value, fuel).value.slots) <==> !Hides(hash, t.slots, key)
    ensures !Hides(hash, t.slots, key) ==>
      Contents(Store(hash, t, key, value, fuel).value.slots) == Contents(t.slots)[key := value]
  {
    if Hides(hash, t.slots, key) {
      ScansAgree(hash, t.slots, key);
      var h := Home(hash, t.slots, key);
      var s' := Store(hash, t, key, value, fuel).value.slots;
      var p := Probe(h, SetScan(t.slots, key, h, 0).j, |t.slots|);
      var q := Probe(h, GetScan(t.slots, key, h, 0).j, |t.slots|);
      assert s'[p].key == s'[q].key && p != q;
    } else {
      StoreRefines(hash, t, key, value, fuel);
    }
  }

  lemma {:induction false} SameScan(s: seq<Node>, w: seq<Node>, key: Key, h: nat, i: nat)
    requires |s| == |w| && h < |s| && i <= |s| + 1
    requires forall p: nat :: p < |s| ==> Mine(s, h, p) == Mine(w, h, p) && Holds(s, key, p) == Holds(w, key, p)
    ensures GetScan(s, key, h, i) == GetScan(w, key, h, i)
    decreases |s| + 1 - i
  {
  }

  /** What a caller sees when a deleted slot hides the key: set, then delete, brings the old value back. */
  lemma HiddenKeyResurfaces(hash: HashFn, t: Table, key: Key, value: Value, fuel: nat)
    requires Chained(hash, t.slots) && Hides(hash, t.slots, key)
    ensures Store(hash, t, key, value, fuel).Some?
    ensures var u := Store(hash, t, key, value, fuel).value;
            Lookup(hash, u, key) == value && Lookup(hash, Remove(hash, u, key), key) == Lookup(hash, t, key)
  {
    var s, h := t.slots, Home(hash, t.slots, key);
    ScansAgree(hash, s, key);
    var j := SetScan(s, key, h, 0).j;
    var p := Probe(h, j, |s|);
    var u := Store(hash, t, key, value, fuel).value;
    var g := GetScan(u.slots, key, h, 0);
    assert Mine(u.slots, h, p) && Holds(u.slots, key, p);
    assert g.j <= j;
    assert g == Hit(j);
    var w := Remove(hash, u, key);
    assert w.slots == s[p := w.slots[p]];
    SameScan(s, w.slots, key, h, 0);
  }

  // ---------- whole histories ----------

  datatype Op = Put(key: Key, value: Value) | Del(key: Key)

  const EMPTY_HEAP := Heap({}, 0, false)

  /** The table after a history of sets and deletes on a new map; None if some set's resizes ran out of fuel. */
  function Run(hash: HashFn, ops: seq<Op>, fuel: nat): (r: Option<Table>)
    ensures r.Some? ==> |r.value.slots| > 0
  {
    if ops == [] then Some(NewTable(EMPTY_HEAP))
    else
      match Run(hash, ops[..|ops| - 1], fuel)
      case None => None
      case Some(t) =>
        match ops[|ops| - 1]
        case Put(k, v) => Store(hash, t, k, v, fuel)
        case Del(k) => Some(Remove(hash, t, k))
  }

  ghost function Model(ops: seq<Op>): map<Key, Value> {
    if ops == [] then map[]
    else
      var m := Model(ops[..|ops| - 1]);
      match ops[|ops| - 1]
      case Put(k, v) => m[k := v]
      case Del(k) => m - {k}
  }

  /** No set of the history meets a deleted slot before its own key. */
  ghost predicate NeverHides(hash: HashFn, ops: seq<Op>, fuel: nat) {
    ops == [] ||
    var before := Run(hash, ops[..|ops| - 1], fuel);
    && NeverHides(hash, ops[..|ops| - 1], fuel)
    && (before.Some? && ops[|ops| - 1].Put? ==> !Hides(hash, before.value.slots, ops[|ops| - 1].key))
  }

  lemma {:induction false} HistoryInvariant(hash: HashFn, ops: seq<Op>, fuel: nat)
    requires Run(hash, ops, fuel).Some?
    ensures Sound(hash, Run(hash, ops, fuel).value) && Others(Run(hash, ops, fuel).value) == {}
  {
    if ops == [] {
      NewSound(hash, EMPTY_HEAP);
    } else {
      var before := ops[..|ops| - 1];
      HistoryInvariant(hash, before, fuel);
      var t := Run(hash, before, fuel).value;
      match ops[|ops| - 1]
      case Put(k, v) => StoreSound(hash, t, k, v, fuel);
      case Del(k) => RemoveSound(hash, t, k);
    }
  }

  /** Over every history, duplicates included: chains whole, size exact, nothing leaked or freed twice. */
  lemma HistorySound(hash: HashFn, ops: seq<Op>, fuel: nat)
    requires Run(hash, ops, fuel).Some?
    ensures var t := Run(hash, ops, fuel).value;
            Sound(hash, t) && t.heap.live == Owned(t) && FreeAll(t).live == {} && !FreeAll(t).fault
  {
    var t := Run(hash, ops, fuel).value;
    HistoryInvariant(hash, ops, fuel);
    FreeAllReleasesOwned(hash, t);
  }

  lemma RemoveRefines(hash: HashFn, t: Table, key: Key)
    requires Chained(hash, t.slots) && Unique(t.slots)
    ensures Unique(Remove(hash, t, key).slots)
    ensures Contents(Remove(hash, t, key).slots) == Contents(t.slots) - {key}
  {
    var h := Home(hash, t.slots, key);
    match GetScan(t.slots, key, h, 0)
    case Hit(j) =>
      var p := Probe(h, j, |t.slots|);
      DeleteContents(t.slots, p, Remove(hash, t, key).slots[p]);
    case Miss(_) =>
      ContentsMeaning(t.slots, key);
      if p: nat :| Holds(t.slots, key, p) {
        ScanFinds(hash, t.slots, key, p);
      }
  }

  /** The map refines a finite map over every history in which no set meets a hidden key. */
  lemma {:induction false} HistoryRefines(hash: HashFn, ops: seq<Op>, fuel: nat)
    requires Run(hash, ops, fuel).Some? && NeverHides(hash, ops, fuel)
    ensures var t := Run(hash, ops, fuel).value;
            && Unique(t.slots)
            && Contents(t.slots) == Model(ops)
            && t.size == |Model(ops)|
            && forall k: Key :: Lookup(hash, t, k) == if k in Model(ops) then Model(ops)[k] else NULL
  {
    if ops == [] {
      EmptyContents(STARTING_BUCKETS);
    } else {
      HistoryRefines(hash, ops[..|ops| - 1], fuel);
      HistorySound(hash, ops[..|ops| - 1], fuel);
      var t := Run(hash, ops[..|ops| - 1], fuel).value;
      match ops[|ops| - 1]
      case Put(k, v) => StoreKeepsUniqueIff(hash, t, k, v, fuel);
      case Del(k) => RemoveRefines(hash, t, k);
    }
    HistorySound(hash, ops, fuel);
    var t := Run(hash, ops, fuel).value;
    SizeIsCardinality(t.slots);
    forall k: Key ensures Lookup(hash, t, k) == if k in Model(ops) then Model(ops)[k] else NULL {
      LookupCorrect(hash, t, k);
    }
  }

  /** After every set and every delete of the history the size is that of the finite map. */
  ghost predicate SizesAgree(hash: HashFn, ops: seq<Op>, fuel: nat) {
    && Run(hash, ops, fuel).Some?
    && Run(hash, ops, fuel).value.size == |Model(ops)|
    && (ops == [] || SizesAgree(hash, ops[..|ops| - 1], fuel))
  }

  lemma HidingSetMiscounts(hash: HashFn, t: Table, key: Key, value: Value, fuel: nat)
    requires Chained(hash, t.slots) && Hides(hash, t.slots, key)
    ensures key in Contents(t.slots)
    ensures Store(hash, t, key, value, fuel).Some? && Store(hash, t, key, value, fuel).value.size == t.size + 1
  {
    ScansAgree(hash, t.slots, key);
    ContentsMeaning(t.slots, key);
    var h := Home(hash, t.slots, key);
    assert Holds(t.slots, key, Probe(h, GetScan(t.slots, key, h, 0).j, |t.slots|));
  }

  lemma UpdateSize(m: map<Key, Value>, key: Key, value: Value)
    requires key in m
    ensures |m[key := value]| == |m|
  {
    assert m[key := value].Keys == m.Keys;
  }

  /**
   * Exactly when the map is a finite map over a whole history: when no set meets a hidden key. A
   * caller sees it from the sizes, and with the sizes the contents and every get are right too.
   */
  lemma {:induction false} HistoryRefinesIff(hash: HashFn, ops: seq<Op>, fuel: nat)
    requires Run(hash, ops, fuel).Some?
    ensures NeverHides(hash, ops, fuel) <==> SizesAgree(hash, ops, fuel)
    ensures SizesAgree(hash, ops, fuel) ==>
      var t, m := Run(hash, ops, fuel).value, Model(ops);
      Contents(t.slots) == m && forall k: Key :: Lookup(hash, t, k) == if k in m then m[k] else NULL
  {
    if ops != [] {
      var before, op := ops[..|ops| - 1], ops[|ops| - 1];
      HistoryRefinesIff(hash, before, fuel);
      if NeverHides(hash, before, fuel) {
        HistoryRefines(hash, before, fuel);
        HistoryInvariant(hash, before, fuel);
        var t := Run(hash, before, fuel).value;
        if op.Put? && Hides(hash, t.slots, op.key) {
          HidingSetMiscounts(hash, t, op.key, op.value, fuel);
          UpdateSize(Model(before), op.key, op.value);
        }
      }
    }
    if NeverHides(hash, ops, fuel) {
      HistoryRefines(hash, ops, fuel);
    }
  }

  lemma SizeIsCardinality(s: seq<Node>)
    requires Unique(s)
    ensures |OccupiedAt(s)| == |Contents(s)|
  {
    var keyAt := map p | p in OccupiedAt(s) :: s[p].key;
    ImageSize(OccupiedAt(s), keyAt);
    forall k: Key ensures k in Contents(s) <==> k in Image(OccupiedAt(s), keyAt) {
      ContentsMeaning(s, k);
      if p: nat :| Holds(s, k, p) {
        assert p in OccupiedAt(s) && keyAt[p] == k;
      }
      if k in Image(OccupiedAt(s), keyAt) {
        var p :| p in OccupiedAt(s) && keyAt[p] == k;
        assert Holds(s, k, p);
      }
    }
    assert Image(OccupiedAt(s), keyAt) == Contents(s).Keys;
  }

  /** Histories without deletes never hide a key, whatever the hash function. */
  lemma {:induction false} DeleteFreeNeverHides(hash: HashFn, ops: seq<Op>, fuel: nat)
    requires forall i :: 0 <= i < |ops| ==> ops[i].Put?
    ensures NeverHides(hash, ops, fuel)
    ensures Run(hash, ops, fuel).Some? ==> NoTombs(Run(hash, ops, fuel).value.slots)
  {
    if ops != [] && Run(hash, ops[..|ops| - 1], fuel).Some? {
      DeleteFreeNeverHides(hash, ops[..|ops| - 1], fuel);
      HistorySound(hash, ops[..|ops| - 1], fuel);
      HistoryRefines(hash, ops[..|ops| - 1], fuel);
      if Run(hash, ops, fuel).Some? {
        var op := ops[|ops| - 1];
        StoreRefines(hash, Run(hash, ops[..|ops| - 1], fuel).value, op.key, op.value, fuel);
      }
    } else if ops != [] {
      DeleteFreeNeverHides(hash, ops[..|ops| - 1], fuel);
    }
  }
}
