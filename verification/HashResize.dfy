// When Hashmap_set returns: the mutually nested set and rehash of hashmap.c.
module HashResize {
  import opened Bits
  import opened HashTable
  import opened HashInvariant
  import opened HashRefinement
  import opened Sets

  // ---------- placements ----------

  ghost predicate Taken(hash: HashFn, c: nat, place: map<Key, nat>, h: nat, p: nat)
    requires c > 0
  {
    exists k :: k in place && place[k] == p && hash(k) % c == h
  }

  /** k sits on one of its probes, and all its earlier probes are taken by keys of the same reduced hash. */
  ghost predicate Reached(hash: HashFn, c: nat, place: map<Key, nat>, k: Key)
    requires c > 0 && k in place
  {
    exists j: nat :: j <= c && Probe(hash(k) % c, j, c) == place[k]
      && forall x: nat :: x < j ==> Taken(hash, c, place, hash(k) % c, Probe(hash(k) % c, x, c))
  }

  ghost predicate Places(hash: HashFn, c: nat, place: map<Key, nat>) {
    && c > 0
    && (forall k :: k in place ==> place[k] < c && Reached(hash, c, place, k))
    && (forall k, l :: k in place && l in place && place[k] == place[l] ==> k == l)
  }

  /** The keys fit capacity c: they can sit on distinct slots, each reached within its own hash class. */
  ghost predicate Fits(hash: HashFn, keys: set<Key>, c: nat) {
    exists place: map<Key, nat> :: place.Keys == keys && Places(hash, c, place)
  }

  function StoredKeys(s: seq<Node>): set<Key> {
    set p: nat | p < |s| && s[p].status.Occupied? :: s[p].key
  }

  ghost function SlotOf(s: seq<Node>, k: Key): (p: nat)
    requires k in StoredKeys(s)
    ensures Holds(s, k, p)
  {
    var p: nat :| p < |s| && s[p].status.Occupied? && s[p].key == k;
    p
  }

  /** Where a table without duplicates holds its keys. */
  ghost function PlaceOf(s: seq<Node>): (place: map<Key, nat>)
    ensures forall k :: k in place ==> Holds(s, k, place[k])
    ensures forall p: nat :: p < |s| && s[p].status.Occupied? ==> s[p].key in place
  {
    map k | k in StoredKeys(s) :: SlotOf(s, k)
  }

  lemma PlaceOfReached(hash: HashFn, s: seq<Node>, k: Key)
    requires Chained(hash, s) && Unique(s) && NoTombs(s) && k in PlaceOf(s)
    ensures Reached(hash, |s|, PlaceOf(s), k)
  {
    var place, h := PlaceOf(s), Home(hash, s, k);
    assert SlotOk(hash, s, place[k]);
    var j: nat :| j <= |s| && Probe(h, j, |s|) == place[k] && ChainAt(s, h, j);
    forall x: nat | x < j ensures Taken(hash, |s|, place, h, Probe(h, x, |s|)) {
      var p := Probe(h, x, |s|);
      assert Mine(s, h, p) && SlotOk(hash, s, p);
      assert Holds(s, s[p].key, place[s[p].key]);
    }
  }

  /** A legal table without deleted slots and duplicates shows that its keys fit. */
  lemma TableFits(hash: HashFn, s: seq<Node>)
    requires Chained(hash, s) && Unique(s) && NoTombs(s)
    ensures Fits(hash, Contents(s).Keys, |s|)
  {
    var place := PlaceOf(s);
    forall k: Key ensures k in Contents(s) <==> k in place {
      ContentsMeaning(s, k);
    }
    forall k | k in place ensures Reached(hash, |s|, place, k) {
      PlaceOfReached(hash, s, k);
    }
    assert place.Keys == Contents(s).Keys;
  }

  ghost function ClassSlots(s: seq<Node>, h: nat): set<nat> {
    set p: nat | p < |s| && Mine(s, h, p)
  }

  ghost function ClassSpots(hash: HashFn, c: nat, place: map<Key, nat>, h: nat): set<nat>
    requires c > 0
  {
    set k | k in place && hash(k) % c == h :: place[k]
  }

  /** A table whose keys are placed uses no more slots for a class than the placement does. */
  lemma ClassCount(hash: HashFn, s: seq<Node>, place: map<Key, nat>, h: nat)
    requires Chained(hash, s) && Unique(s) && NoTombs(s) && Places(hash, |s|, place)
    requires Contents(s).Keys <= place.Keys
    ensures |ClassSlots(s, h)| <= |ClassSpots(hash, |s|, place, h)|
    ensures forall k :: k in place && k !in Contents(s) && hash(k) % |s| == h ==>
      |ClassSlots(s, h)| < |ClassSpots(hash, |s|, place, h)|
  {
    var a, b := ClassSlots(s, h), ClassSpots(hash, |s|, place, h);
    forall p | p in a ensures s[p].key in Contents(s) && hash(s[p].key) % |s| == h {
      ContentsMeaning(s, s[p].key);
      assert Holds(s, s[p].key, p) && SlotOk(hash, s, p);
    }
    var f := map p | p in a :: place[s[p].key];
    ImageSize(a, f);
    assert Image(a, f) <= b;
    SubsetSize(Image(a, f), b);
    forall k | k in place && k !in Contents(s) && hash(k) % |s| == h ensures |a| < |b| {
      assert place[k] in b && place[k] !in Image(a, f);
    }
  }

  /** The probe that reaches a spot of the class in the placement, by spots of the class only. */
  lemma SpotProbe(hash: HashFn, c: nat, place: map<Key, nat>, h: nat, q: nat) returns (j: nat)
    requires Places(hash, c, place) && h < c && q in ClassSpots(hash, c, place, h)
    ensures j <= c && Probe(h, j, c) == q
    ensures forall x: nat :: x < j ==> Probe(h, x, c) in ClassSpots(hash, c, place, h)
  {
    hide Probe;
    var k :| k in place && hash(k) % c == h && place[k] == q;
    assert Reached(hash, c, place, k);
    j :| j <= c && Probe(h, j, c) == q && forall x: nat :: x < j ==> Taken(hash, c, place, h, Probe(h, x, c));
  }

  /** Chains of one class are nested: the smaller one lies inside the larger. */
  lemma ClassNested(hash: HashFn, s: seq<Node>, place: map<Key, nat>, h: nat)
    requires Chained(hash, s) && Places(hash, |s|, place) && h < |s|
    requires |ClassSlots(s, h)| <= |ClassSpots(hash, |s|, place, h)|
    ensures ClassSlots(s, h) <= ClassSpots(hash, |s|, place, h)
  {
    hide Probe, Places, ClassSpots;
    var a, b := ClassSlots(s, h), ClassSpots(hash, |s|, place, h);
    if p :| p in a && p !in b {
      assert SlotOk(hash, s, p);
      var i: nat :| i <= |s| && Probe(h, i, |s|) == p && ChainAt(s, h, i);
      forall q | q in b ensures q in a {
        var j := SpotProbe(hash, |s|, place, h, q);
        assert j < i;
      }
      SubsetSize(b, a);
    }
  }

  /** The probe at which a resize would stop is taken, in the placement, by the key's own class. */
  lemma StopIsTaken(hash: HashFn, s: seq<Node>, place: map<Key, nat>, h: nat, stop: nat)
    requires Chained(hash, s) && Places(hash, |s|, place) && h < |s| && stop <= |s| + 1
    requires ChainAt(s, h, stop) && |ClassSlots(s, h)| < |ClassSpots(hash, |s|, place, h)|
    ensures stop <= |s| && Taken(hash, |s|, place, h, Probe(h, stop, |s|))
  {
    hide Probe, Places;
    var q := MissingMember(ClassSlots(s, h), ClassSpots(hash, |s|, place, h));
    var j := SpotProbe(hash, |s|, place, h, q);
    assert j >= stop;
  }

  /** If the keys fit this capacity, no set of one of them resizes. */
  lemma FittingNeverResizes(hash: HashFn, s: seq<Node>, keys: set<Key>, key: Key)
    requires Chained(hash, s) && Unique(s) && NoTombs(s) && Fits(hash, keys, |s|)
    requires Contents(s).Keys <= keys && key in keys
    ensures !SetScan(s, key, Home(hash, s, key), 0).Resize?
  {
    var h := Home(hash, s, key);
    var r := SetScan(s, key, h, 0);
    ContentsMeaning(s, key);
    if key in Contents(s) {
      var p: nat :| Holds(s, key, p);
      ScanFinds(hash, s, key, p);
      ScansAgree(hash, s, key);
    } else if r.Resize? {
      var place: map<Key, nat> :| place.Keys == keys && Places(hash, |s|, place);
      ClassCount(hash, s, place, h);
      StopIsTaken(hash, s, place, h, r.j);
      ForeignIsTaken(hash, s, place, Probe(h, r.j, |s|));
    }
  }

  lemma ForeignIsTaken(hash: HashFn, s: seq<Node>, place: map<Key, nat>, p: nat)
    requires Chained(hash, s) && Unique(s) && NoTombs(s) && Places(hash, |s|, place)
    requires Contents(s).Keys <= place.Keys && p < |s| && !s[p].status.Empty?
    ensures Taken(hash, |s|, place, s[p].hash, p)
  {
    assert SlotOk(hash, s, p);
    ClassCount(hash, s, place, s[p].hash);
    ClassNested(hash, s, place, s[p].hash);
    assert p in ClassSlots(s, s[p].hash);
    assert p in ClassSpots(hash, |s|, place, s[p].hash);
  }

  // ---------- capacities ----------

  /** Fuel only bounds: more of it never changes a result. */
  lemma {:induction false} StoreFuel(hash: HashFn, t: Table, key: Key, value: Value, fuel: nat, more: nat)
    requires |t.slots| > 0 && Store(hash, t, key, value, fuel).Some? && fuel <= more
    ensures Store(hash, t, key, value, more) == Store(hash, t, key, value, fuel)
    decreases fuel, 0, 0
  {
    if SetScan(t.slots, key, Home(hash, t.slots, key), 0).Resize? {
      RehashFuel(hash, Grown(t), t.slots, 0, fuel - 1, more - 1);
      var u := Rehash(hash, Grown(t), t.slots, 0, fuel - 1).value;
      StoreFuel(hash, u.(heap := u.heap.Free(t.arrBlock)), key, value, fuel - 1, more - 1);
    }
  }

  lemma {:induction false} RehashFuel(hash: HashFn, t: Table, src: seq<Node>, i: nat, fuel: nat, more: nat)
    requires |t.slots| > 0 && i <= |src| && Rehash(hash, t, src, i, fuel).Some? && fuel <= more
    ensures Rehash(hash, t, src, i, more) == Rehash(hash, t, src, i, fuel)
    decreases fuel, 1, |src| - i
  {
    if i == |src| {
    } else if !src[i].status.Occupied? {
      RehashFuel(hash, t, src, i + 1, fuel, more);
    } else {
      StoreFuel(hash, t, src[i].key, src[i].value, fuel, more);
      var u := Store(hash, t, src[i].key, src[i].value, fuel).value;
      RehashFuel(hash, u.(heap := u.heap.Free(src[i].block)), src, i + 1, fuel, more);
    }
  }

  /** A set leaves the capacity or doubles it some number of times. */
  lemma {:induction false} StoreGrows(hash: HashFn, t: Table, key: Key, value: Value, fuel: nat) returns (m: nat)
    requires |t.slots| > 0 && Store(hash, t, key, value, fuel).Some?
    ensures |Store(hash, t, key, value, fuel).value.slots| == Doubled(|t.slots|, m)
    ensures m == 0 <==> !SetScan(t.slots, key, Home(hash, t.slots, key), 0).Resize?
    decreases fuel, 0, 0
  {
    hide Doubled;
    m := 0;
    DoubledOnce(|t.slots|);
    if SetScan(t.slots, key, Home(hash, t.slots, key), 0).Resize? {
      var i := RehashGrows(hash, Grown(t), t.slots, 0, fuel - 1);
      var u := Rehash(hash, Grown(t), t.slots, 0, fuel - 1).value;
      var j := StoreGrows(hash, u.(heap := u.heap.Free(t.arrBlock)), key, value, fuel - 1);
      m := 1 + i + j;
      DoubledTwice(2 * |t.slots|, i, j);
      DoubledNext(|t.slots|, m);
    }
  }

  lemma {:induction false} RehashGrows(hash: HashFn, t: Table, src: seq<Node>, i: nat, fuel: nat) returns (m: nat)
    requires |t.slots| > 0 && i <= |src| && Rehash(hash, t, src, i, fuel).Some?
    ensures |Rehash(hash, t, src, i, fuel).value.slots| == Doubled(|t.slots|, m)
    decreases fuel, 1, |src| - i
  {
    hide Doubled;
    if i == |src| {
      m := 0;
      DoubledOnce(|t.slots|);
    } else if !src[i].status.Occupied? {
      m := RehashGrows(hash, t, src, i + 1, fuel);
    } else {
      var a := StoreGrows(hash, t, src[i].key, src[i].value, fuel);
      var u := Store(hash, t, src[i].key, src[i].value, fuel).value;
      var b := RehashGrows(hash, u.(heap := u.heap.Free(src[i].block)), src, i + 1, fuel);
      m := a + b;
      DoubledTwice(|t.slots|, a, b);
    }
  }

  // ---------- when a set returns ----------

  /** If the keys fit after m doublings, a set returns at or below that capacity. */
  lemma {:induction false} StoreReturns(hash: HashFn, t: Table, key: Key, value: Value,
                                        fuel: nat, m: nat, keys: set<Key>)
    returns (left: nat)
    requires Sound(hash, t) && Unique(t.slots) && NoTombs(t.slots)
    requires Contents(t.slots).Keys <= keys && key in keys
    requires Fits(hash, keys, Doubled(|t.slots|, m)) && m <= fuel
    ensures Store(hash, t, key, value, fuel).Some?
    ensures left <= m
    ensures Doubled(|Store(hash, t, key, value, fuel).value.slots|, left) == Doubled(|t.slots|, m)
    decreases fuel, 0, 0
  {
    hide Fits, SlotOk, HeapOk, Unique, NoTombs, Contents, Doubled;
    left := m;
    if m == 0 {
      DoubledOnce(|t.slots|);
      FittingNeverResizes(hash, t.slots, keys, key);
    } else if SetScan(t.slots, key, Home(hash, t.slots, key), 0).Resize? {
      left := ResizeReturns(hash, t, key, value, fuel, m, keys);
    }
  }

  /** The resizing branch, from any table: deleted slots and duplicates of the old array do not matter. */
  lemma {:induction false} ResizeReturns(hash: HashFn, t: Table, key: Key, value: Value,
                                         fuel: nat, m: nat, keys: set<Key>)
    returns (left: nat)
    requires Sound(hash, t) && SetScan(t.slots, key, Home(hash, t.slots, key), 0).Resize?
    requires Contents(t.slots).Keys <= keys && key in keys
    requires 1 <= m <= fuel && Fits(hash, keys, Doubled(|t.slots|, m))
    ensures Store(hash, t, key, value, fuel).Some?
    ensures left < m
    ensures Doubled(|Store(hash, t, key, value, fuel).value.slots|, left) == Doubled(|t.slots|, m)
    decreases fuel - 1, 3, 0
  {
    hide Fits, Sound, Unique, NoTombs, Contents, Blocks, Others, Doubled;
    GrownStarts(hash, t);
    KeysStored(t.slots, keys);
    DoubledNext(|t.slots|, m);
    left := RehashReturns(hash, Grown(t), t.slots, 0, fuel - 1, m - 1, keys);
    var w := ResizeUnfolds(hash, t, key, value, fuel - 1);
    left := StoreReturns(hash, w, key, value, fuel - 1, left, keys);
  }

  lemma KeysStored(s: seq<Node>, keys: set<Key>)
    requires Contents(s).Keys <= keys
    ensures forall p: nat :: p < |s| && s[p].status.Occupied? ==> s[p].key in keys
  {
    forall p: nat | p < |s| && s[p].status.Occupied? ensures s[p].key in keys {
      ContentsMeaning(s, s[p].key);
      assert Holds(s, s[p].key, p);
    }
  }

  lemma {:induction false} RehashReturns(hash: HashFn, t: Table, src: seq<Node>, i: nat,
                                         fuel: nat, m: nat, keys: set<Key>)
    returns (left: nat)
    requires Sound(hash, t) && Unique(t.slots) && NoTombs(t.slots)
    requires i <= |src| && DistinctBlocks(src) && Blocks(src, i) <= Others(t)
    requires Contents(t.slots).Keys <= keys
    requires forall p: nat :: p < |src| && src[p].status.Occupied? ==> src[p].key in keys
    requires Fits(hash, keys, Doubled(|t.slots|, m)) && m <= fuel
    ensures Rehash(hash, t, src, i, fuel).Some?
    ensures left <= m
    ensures Doubled(|Rehash(hash, t, src, i, fuel).value.slots|, left) == Doubled(|t.slots|, m)
    decreases fuel, 1, |src| - i
  {
    hide Fits, SlotOk, HeapOk, Unique, NoTombs, Contents, Doubled;
    if i == |src| {
      left := m;
    } else if !src[i].status.Occupied? {
      left := RehashReturns(hash, t, src, i + 1, fuel, m, keys);
    } else {
      left := StoreReturns(hash, t, src[i].key, src[i].value, fuel, m, keys);
      var w := RehashNext(hash, t, src, i, fuel, keys);
      left := RehashReturns(hash, w, src, i + 1, fuel, left, keys);
    }
  }

  /** The table after one turn of the reinsertion loop. */
  lemma RehashNext(hash: HashFn, t: Table, src: seq<Node>, i: nat, fuel: nat, keys: set<Key>) returns (w: Table)
    requires Sound(hash, t) && Unique(t.slots) && NoTombs(t.slots)
    requires i < |src| && DistinctBlocks(src) && Blocks(src, i) <= Others(t) && src[i].status.Occupied?
    requires Contents(t.slots).Keys <= keys && src[i].key in keys
    requires Store(hash, t, src[i].key, src[i].value, fuel).Some?
    ensures var u := Store(hash, t, src[i].key, src[i].value, fuel).value;
            w == u.(heap := u.heap.Free(src[i].block))
    ensures Sound(hash, w) && Unique(w.slots) && NoTombs(w.slots) && Blocks(src, i + 1) <= Others(w)
    ensures Contents(w.slots).Keys <= keys
    ensures |w.slots| > 0 && Rehash(hash, t, src, i, fuel) == Rehash(hash, w, src, i + 1, fuel)
  {
    var u := Store(hash, t, src[i].key, src[i].value, fuel).value;
    w := u.(heap := u.heap.Free(src[i].block));
    StoreSound(hash, t, src[i].key, src[i].value, fuel);
    StoreRefines(hash, t, src[i].key, src[i].value, fuel);
    assert src[i].block in Others(u) && src[i].block !in Blocks(src, i + 1);
    FreeOther(hash, u, src[i].block);
  }

  /** Exactly when Hashmap_set returns: its probe loop finds a slot, or the keys fit some doubled capacity. */
  lemma StoreReturnsIff(hash: HashFn, t: Table, key: Key, value: Value)
    requires Sound(hash, t)
    ensures (exists fuel: nat :: Store(hash, t, key, value, fuel).Some?)
            <==>
            (!SetScan(t.slots, key, Home(hash, t.slots, key), 0).Resize?
             || exists m: nat :: m >= 1 && Fits(hash, Contents(t.slots).Keys + {key}, Doubled(|t.slots|, m)))
  {
    var keys := Contents(t.slots).Keys + {key};
    if !SetScan(t.slots, key, Home(hash, t.slots, key), 0).Resize? {
      assert Store(hash, t, key, value, 0).Some?;
    } else {
      if fuel: nat :| Store(hash, t, key, value, fuel).Some? {
        var u := Store(hash, t, key, value, fuel).value;
        StoreSound(hash, t, key, value, fuel);
        StoreRefines(hash, t, key, value, fuel);
        TableFits(hash, u.slots);
        assert Contents(u.slots).Keys == keys;
        var m := StoreGrows(hash, t, key, value, fuel);
        assert m >= 1 && Fits(hash, keys, Doubled(|t.slots|, m));
      }
      if m: nat :| m >= 1 && Fits(hash, keys, Doubled(|t.slots|, m)) {
        var _ := ResizeReturns(hash, t, key, value, m, m, keys);
      }
    }
  }

  // ---------- delete-free histories ----------

  ghost function KeysOf(ops: seq<Op>): set<Key> {
    set i | 0 <= i < |ops| :: ops[i].key
  }

  ghost predicate AllPuts(ops: seq<Op>) {
    forall i :: 0 <= i < |ops| ==> ops[i].Put?
  }

  lemma KeysOfLast(ops: seq<Op>)
    requires ops != []
    ensures KeysOf(ops) == KeysOf(ops[..|ops| - 1]) + {ops[|ops| - 1].key}
  {
  }

  lemma {:induction false} PutsModel(ops: seq<Op>)
    requires AllPuts(ops)
    ensures Model(ops).Keys == KeysOf(ops)
  {
    if ops != [] {
      PutsModel(ops[..|ops| - 1]);
      KeysOfLast(ops);
    }
  }

  lemma PutsInvariant(hash: HashFn, ops: seq<Op>, fuel: nat)
    requires AllPuts(ops) && Run(hash, ops, fuel).Some?
    ensures var t := Run(hash, ops, fuel).value;
            Sound(hash, t) && Unique(t.slots) && NoTombs(t.slots) && Contents(t.slots).Keys == KeysOf(ops)
  {
    HistoryInvariant(hash, ops, fuel);
    DeleteFreeNeverHides(hash, ops, fuel);
    HistoryRefines(hash, ops, fuel);
    PutsModel(ops);
  }

  lemma {:induction false} PutsReturn(hash: HashFn, ops: seq<Op>, keys: set<Key>, m: nat) returns (left: nat)
    requires AllPuts(ops) && KeysOf(ops) <= keys && Fits(hash, keys, Doubled(STARTING_BUCKETS, m))
    ensures Run(hash, ops, m).Some? && left <= m
    ensures Doubled(|Run(hash, ops, m).value.slots|, left) == Doubled(STARTING_BUCKETS, m)
  {
    left := m;
    if ops != [] {
      var before, op := ops[..|ops| - 1], ops[|ops| - 1];
      KeysOfLast(ops);
      left := PutsReturn(hash, before, keys, m);
      var t := Run(hash, before, m).value;
      PutsInvariant(hash, before, m);
      left := StoreReturns(hash, t, op.key, op.value, m, left, keys);
    }
  }

  lemma {:induction false} RunGrows(hash: HashFn, ops: seq<Op>, fuel: nat) returns (m: nat)
    requires Run(hash, ops, fuel).Some?
    ensures |Run(hash, ops, fuel).value.slots| == Doubled(STARTING_BUCKETS, m)
  {
    hide Doubled;
    m := 0;
    DoubledOnce(STARTING_BUCKETS);
    if ops != [] {
      var before, op := ops[..|ops| - 1], ops[|ops| - 1];
      m := RunGrows(hash, before, fuel);
      if op.Put? {
        var i := StoreGrows(hash, Run(hash, before, fuel).value, op.key, op.value, fuel);
        DoubledTwice(STARTING_BUCKETS, m, i);
        m := m + i;
      }
    }
  }

  /**
   * A history of sets returns exactly when its keys fit some capacity 8, 16, 32, ...: order and
   * repetition do not matter.
   */
  lemma PutsReturnIff(hash: HashFn, ops: seq<Op>)
    requires AllPuts(ops)
    ensures (exists fuel: nat :: Run(hash, ops, fuel).Some?)
            <==> (exists m: nat :: Fits(hash, KeysOf(ops), Doubled(STARTING_BUCKETS, m)))
  {
    if fuel: nat :| Run(hash, ops, fuel).Some? {
      PutsInvariant(hash, ops, fuel);
      TableFits(hash, Run(hash, ops, fuel).value.slots);
      var m := RunGrows(hash, ops, fuel);
      assert Fits(hash, KeysOf(ops), Doubled(STARTING_BUCKETS, m));
    }
    if m: nat :| Fits(hash, KeysOf(ops), Doubled(STARTING_BUCKETS, m)) {
      var _ := PutsReturn(hash, ops, KeysOf(ops), m);
    }
  }

  lemma SmallProbes(c: nat)
    requires c >= STARTING_BUCKETS
    ensures Probe(2, 0, c) == 2 && Probe(2, 1, c) == 2 && Probe(2, 2, c) == 4 && Probe(4, 0, c) == 4
  {
  }

  /** A second key of reduced hash 2 needs slot 4: probe 1 of hash 2 is slot 2 again. */
  lemma SecondTwoTakesFour(hash: HashFn, c: nat, place: map<Key, nat>, k: Key)
    requires c >= STARTING_BUCKETS && k in place && hash(k) == 2 && place[k] != 2 && Reached(hash, c, place, k)
    ensures Taken(hash, c, place, 2, 4)
  {
    SmallProbes(c);
    var j: nat :| j <= c && Probe(2, j, c) == place[k]
      && forall x: nat :: x < j ==> Taken(hash, c, place, 2, Probe(2, x, c));
    assert j >= 2;
  }

  lemma FourTakesFour(hash: HashFn, c: nat, place: map<Key, nat>, k: Key)
    requires c >= STARTING_BUCKETS && k in place && hash(k) == 4 && Reached(hash, c, place, k)
    ensures Taken(hash, c, place, 4, 4)
  {
    SmallProbes(c);
    var j: nat :| j <= c && Probe(4, j, c) == place[k]
      && forall x: nat :: x < j ==> Taken(hash, c, place, 4, Probe(4, x, c));
  }

  /** Raw hashes 2, 2 and 4 fit no capacity the map can have. */
  lemma ClashNeverFits(hash: HashFn, keys: set<Key>, a: Key, b: Key, d: Key, c: nat)
    requires c >= STARTING_BUCKETS && {a, b, d} <= keys && a != b
    requires hash(a) == 2 && hash(b) == 2 && hash(d) == 4
    ensures !Fits(hash, keys, c)
  {
    if place: map<Key, nat> :| place.Keys == keys && Places(hash, c, place) {
      SecondTwoTakesFour(hash, c, place, if place[a] != 2 then a else b);
      FourTakesFour(hash, c, place, d);
    }
  }

  /** Three sets with such keys never return. */
  lemma ClashNeverReturns(hash: HashFn, a: Key, b: Key, d: Key, v: Value, fuel: nat)
    requires a != b && hash(a) == 2 && hash(b) == 2 && hash(d) == 4
    ensures Run(hash, [Put(a, v), Put(b, v), Put(d, v)], fuel).None?
  {
    var ops := [Put(a, v), Put(b, v), Put(d, v)];
    assert KeysOf(ops) == {a, b, d} by {
      assert ops[0].key == a && ops[1].key == b && ops[2].key == d;
    }
    PutsReturnIff(hash, ops);
    if m: nat :| Fits(hash, KeysOf(ops), Doubled(STARTING_BUCKETS, m)) {
      ClashNeverFits(hash, KeysOf(ops), a, b, d, Doubled(STARTING_BUCKETS, m));
    }
  }
}
