// Histories on which hashmap.c departs from a finite map.
module HashExample {
  import opened Bits
  import opened HashTable
  import opened HashInvariant
  import opened HashRefinement
  import opened HashResize
  import opened Options

  /** Two keys whose chains both start at slot 0 of a new map. */
  ghost predicate Collide(hash: HashFn, a: Key, b: Key) {
    a != b && hash(a) % STARTING_BUCKETS == 0 && hash(b) % STARTING_BUCKETS == 0
  }

  ghost predicate InUse(s: seq<Node>, p: nat, key: Key, value: Value) {
    p < |s| && s[p].status.Occupied? && s[p].key == key && s[p].value == value && s[p].hash == 0
  }

  /** Only slots 0 and 1 of a table of the first capacity are in use or deleted. */
  ghost predicate FirstTwo(s: seq<Node>) {
    |s| == STARTING_BUCKETS && forall p: nat :: 2 <= p < |s| ==> s[p].status.Empty?
  }

  lemma FirstProbes()
    ensures Probe(0, 0, STARTING_BUCKETS) == 0 && Probe(0, 1, STARTING_BUCKETS) == 1
  {
  }

  lemma TwoPuts(hash: HashFn, a: Key, b: Key, x: Value, y: Value, fuel: nat) returns (t: Table)
    requires Collide(hash, a, b)
    ensures Run(hash, [Put(a, x), Put(b, y)], fuel) == Some(t)
    ensures FirstTwo(t.slots) && InUse(t.slots, 0, a, x) && InUse(t.slots, 1, b, y)
  {
    hide Probe;
    FirstProbes();
    var t0 := NewTable(EMPTY_HEAP);
    var t1 := Store(hash, t0, a, x, fuel).value;
    assert SetScan(t0.slots, a, 0, 0) == Insert(0);
    assert SetScan(t1.slots, b, 0, 1) == Insert(1);
    assert SetScan(t1.slots, b, 0, 0) == Insert(1);
    t := Store(hash, t1, b, y, fuel).value;
    hide Store;
    RunThen(hash, [], Put(a, x), fuel);
    RunThen(hash, [Put(a, x)], Put(b, y), fuel);
    assert [] + [Put(a, x)] == [Put(a, x)] && [Put(a, x)] + [Put(b, y)] == [Put(a, x), Put(b, y)];
  }

  /** The first key deleted: now the second hides behind the first's slot. */
  lemma DeletedSlotHides(hash: HashFn, a: Key, b: Key, x: Value, y: Value, fuel: nat) returns (t: Table)
    requires Collide(hash, a, b)
    ensures Run(hash, [Put(a, x), Put(b, y), Del(a)], fuel) == Some(t)
    ensures FirstTwo(t.slots) && t.slots[0].status.Deleted? && t.slots[0].hash == 0 && InUse(t.slots, 1, b, y)
    ensures Hides(hash, t.slots, b) && Lookup(hash, t, b) == y
  {
    hide Probe, Run;
    FirstProbes();
    var t2 := TwoPuts(hash, a, b, x, y, fuel);
    assert GetScan(t2.slots, a, 0, 0) == Hit(0);
    t := Remove(hash, t2, a);
    assert GetScan(t.slots, b, 0, 1) == Hit(1);
    assert GetScan(t.slots, b, 0, 0) == Hit(1);
    RunThen(hash, [Put(a, x), Put(b, y)], Del(a), fuel);
    assert [Put(a, x), Put(b, y)] + [Del(a)] == [Put(a, x), Put(b, y), Del(a)];
    assert t.slots[Probe(0, 0, STARTING_BUCKETS)].status.Deleted?;
  }

  /** Set it again and delete it, and the map, empty by its history, still returns the old value. */
  lemma DeletedKeyComesBack(hash: HashFn, a: Key, b: Key, x: Value, y: Value, z: Value)
    requires Collide(hash, a, b)
    ensures var ops := [Put(a, x), Put(b, y), Del(a), Put(b, z), Del(b)];
            b !in Model(ops) && Run(hash, ops, 0).Some? && Lookup(hash, Run(hash, ops, 0).value, b) == y
  {
    hide Store, Remove, Lookup, Hides, Run, Model;
    var first := [Put(a, x), Put(b, y), Del(a)];
    var t := DeletedSlotHides(hash, a, b, x, y, 0);
    HistoryInvariant(hash, first, 0);
    HiddenKeyResurfaces(hash, t, b, z, 0);
    RunThen(hash, first, Put(b, z), 0);
    RunThen(hash, first + [Put(b, z)], Del(b), 0);
    assert [Put(a, x), Put(b, y), Del(a), Put(b, z), Del(b)] == first + [Put(b, z)] + [Del(b)];
  }

  /** The second key set again: it is stored twice, the new value first. */
  lemma StoredTwice(hash: HashFn, a: Key, b: Key, x: Value, y: Value, z: Value, fuel: nat) returns (t: Table)
    requires Collide(hash, a, b)
    ensures Run(hash, [Put(a, x), Put(b, y), Del(a), Put(b, z)], fuel) == Some(t)
    ensures FirstTwo(t.slots) && InUse(t.slots, 0, b, z) && InUse(t.slots, 1, b, y)
  {
    hide Probe, Run, Hides, Lookup;
    FirstProbes();
    var first := [Put(a, x), Put(b, y), Del(a)];
    var t3 := DeletedSlotHides(hash, a, b, x, y, fuel);
    assert SetScan(t3.slots, b, 0, 0) == Insert(0);
    t := Store(hash, t3, b, z, fuel).value;
    RunThen(hash, first, Put(b, z), fuel);
    assert [Put(a, x), Put(b, y), Del(a), Put(b, z)] == first + [Put(b, z)];
  }

  /** Keys with different reduced hashes fit. */
  lemma ApartFit(hash: HashFn, b: Key, d: Key, c: nat)
    requires c > 0 && hash(b) % c != hash(d) % c
    ensures Fits(hash, {b, d}, c)
  {
    var place := map[b := hash(b) % c, d := hash(d) % c];
    assert Probe(hash(b) % c, 0, c) == place[b] && Probe(hash(d) % c, 0, c) == place[d];
    assert place.Keys == {b, d} && Places(hash, c, place);
  }

  lemma ResizeSucceeds(hash: HashFn, t: Table, b: Key, y: Value, z: Value, d: Key, w: Value)
    requires Sound(hash, t) && FirstTwo(t.slots) && InUse(t.slots, 0, b, z) && InUse(t.slots, 1, b, y)
    requires hash(b) % STARTING_BUCKETS == 0 && hash(d) % STARTING_BUCKETS == 1
    ensures SetScan(t.slots, d, Home(hash, t.slots, d), 0).Resize? && Store(hash, t, d, w, 1).Some?
  {
    hide Sound;
    assert Contents(t.slots).Keys <= {b, d} by {
      forall k: Key | k in Contents(t.slots) ensures k == b {
        ContentsMeaning(t.slots, k);
        var p: nat :| Holds(t.slots, k, p);
      }
    }
    assert hash(b) % 16 % 8 == 0 && hash(d) % 16 % 8 == 1;
    ApartFit(hash, b, d, 16);
    DoubledOnce(STARTING_BUCKETS);
    var _ := ResizeReturns(hash, t, d, w, 1, 1, {b, d});
  }

  /** And a set of another key, which resizes the map, undoes the update: no delete has come since. */
  lemma UpdateIsUndone(hash: HashFn, a: Key, b: Key, d: Key, x: Value, y: Value, z: Value, w: Value)
    requires Collide(hash, a, b) && hash(d) % STARTING_BUCKETS == 1
    ensures var before := [Put(a, x), Put(b, y), Del(a), Put(b, z)];
            var after := [Put(a, x), Put(b, y), Del(a), Put(b, z), Put(d, w)];
            && b in Model(after) && Model(after)[b] == z
            && Run(hash, before, 1).Some? && Lookup(hash, Run(hash, before, 1).value, b) == z
            && Run(hash, after, 1).Some? && Lookup(hash, Run(hash, after, 1).value, b) == y
  {
    hide Store, Lookup, Run, Probe, Sound, Contents;
    var before := [Put(a, x), Put(b, y), Del(a), Put(b, z)];
    var t := StoredTwice(hash, a, b, x, y, z, 1);
    HistoryInvariant(hash, before, 1);
    ResizeSucceeds(hash, t, b, y, z, d, w);
    FirstProbes();
    assert Home(hash, t.slots, b) == 0 && Probe(0, 0, |t.slots|) == 0 && Holds(t.slots, b, 0);
    assert IsFirst(hash, t.slots, b, 0);
    assert IsLast(t.slots, b, 1);
    ContentsMeaning(t.slots, b);
    SoundIsChained(hash, t);
    LookupCorrect(hash, t, b);
    var _, last := ResizeRevertsIff(hash, t, d, w, 1, b);
    assert last == 1;
    RunThen(hash, before, Put(d, w), 1);
    assert [Put(a, x), Put(b, y), Del(a), Put(b, z), Put(d, w)] == before + [Put(d, w)];
    assert before[..3] + [Put(b, z)] == before;
  }

  lemma RunThen(hash: HashFn, ops: seq<Op>, op: Op, fuel: nat)
    requires Run(hash, ops, fuel).Some?
    ensures var t := Run(hash, ops, fuel).value;
            Run(hash, ops + [op], fuel)
            == if op.Put? then Store(hash, t, op.key, op.value, fuel) else Some(Remove(hash, t, op.key))
    ensures op.Del? ==> op.key !in Model(ops + [op])
  {
  }
}
