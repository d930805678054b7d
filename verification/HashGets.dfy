// What one set or delete of hashmap.c changes, slot by slot and for every get: on any table it can
// reach, keys stored twice and deleted slots included.
module HashGets {
  import opened HashTable
  import opened HashInvariant
  import opened HashRefinement

  /**
   * A set that does not resize changes one slot, from then on the first to hold the key: the slot that
   * was the first to hold it, or a free one if the key was absent or hidden.
   */
  lemma StoreEffect(hash: HashFn, t: Table, key: Key, value: Value, fuel: nat) returns (p: nat)
    requires Chained(hash, t.slots) && !SetScan(t.slots, key, Home(hash, t.slots, key), 0).Resize?
    ensures Store(hash, t, key, value, fuel).Some?
    ensures var u := Store(hash, t, key, value, fuel).value;
            && |u.slots| == |t.slots| && p < |t.slots|
            && (forall q: nat :: q < |t.slots| && q != p ==> u.slots[q] == t.slots[q])
            && IsFirst(hash, u.slots, key, p) && u.slots[p].value == value
            && (if key in Contents(t.slots) && !Hides(hash, t.slots, key)
                then IsFirst(hash, t.slots, key, p) && u.size == t.size
                else !t.slots[p].status.Occupied? && u.size == t.size + 1)
  {
    hide Probe;
    var s, h := t.slots, Home(hash, t.slots, key);
    ScansAgree(hash, s, key);
    LookupCorrect(hash, t, key);
    var j := SetScan(s, key, h, 0).j;
    p := Probe(h, j, |s|);
    ghost var u := Store(hash, t, key, value, fuel).value.slots;
    assert u == s[p := u[p]];
    assert Home(hash, u, key) == h && Holds(u, key, p);
    forall x: nat | x < j ensures !Holds(u, key, Probe(h, x, |u|)) && !Holds(s, key, Probe(h, x, |s|)) {
      assert Probe(h, x, |s|) != p;
    }
    StoredIff(hash, t, key);
  }

  lemma StoredIff(hash: HashFn, t: Table, key: Key)
    requires Chained(hash, t.slots)
    ensures key in Contents(t.slots) <==> GetScan(t.slots, key, Home(hash, t.slots, key), 0).Hit?
  {
    ContentsMeaning(t.slots, key);
    if p: nat :| Holds(t.slots, key, p) {
      ScanFinds(hash, t.slots, key, p);
    }
  }

  /** Get after set: always the value set. */
  lemma StoreThenGet(hash: HashFn, t: Table, key: Key, value: Value, fuel: nat)
    requires Sound(hash, t) && Store(hash, t, key, value, fuel).Some?
    ensures Lookup(hash, Store(hash, t, key, value, fuel).value, key) == value
  {
    SoundIsChained(hash, t);
    if SetScan(t.slots, key, Home(hash, t.slots, key), 0).Resize? {
      ResizeGets(hash, t, key, value, fuel, key);
    } else {
      StoreSound(hash, t, key, value, fuel);
      SoundIsChained(hash, Store(hash, t, key, value, fuel).value);
      var p := StoreEffect(hash, t, key, value, fuel);
      hide Store, Sound, Lookup;
      LookupCorrect(hash, Store(hash, t, key, value, fuel).value, key);
    }
  }

  /** Two tables that hold a key in the same slots, with the same values, give the same get. */
  lemma SameGets(hash: HashFn, t: Table, u: Table, k: Key)
    requires Chained(hash, t.slots) && Chained(hash, u.slots) && |u.slots| == |t.slots|
    requires forall q: nat :: Holds(u.slots, k, q) <==> Holds(t.slots, k, q)
    requires forall q: nat :: Holds(t.slots, k, q) ==> u.slots[q].value == t.slots[q].value
    ensures Lookup(hash, u, k) == Lookup(hash, t, k)
  {
    hide Lookup, Chained, Probe;
    LookupCorrect(hash, t, k);
    LookupCorrect(hash, u, k);
    ContentsMeaning(t.slots, k);
    ContentsMeaning(u.slots, k);
    if k in Contents(t.slots) {
      var p: nat :| IsFirst(hash, t.slots, k, p);
      assert IsFirst(hash, u.slots, k, p);
    }
  }

  /** A set that does not resize leaves every other key's get alone. */
  lemma StoreKeepsGets(hash: HashFn, t: Table, key: Key, value: Value, fuel: nat, k: Key)
    requires Sound(hash, t) && !SetScan(t.slots, key, Home(hash, t.slots, key), 0).Resize? && k != key
    ensures Store(hash, t, key, value, fuel).Some?
    ensures Lookup(hash, Store(hash, t, key, value, fuel).value, k) == Lookup(hash, t, k)
  {
    SoundIsChained(hash, t);
    var p := StoreEffect(hash, t, key, value, fuel);
    StoreSound(hash, t, key, value, fuel);
    SoundIsChained(hash, Store(hash, t, key, value, fuel).value);
    hide Sound, Chained, Lookup, Store, Contents;
    SameGets(hash, t, Store(hash, t, key, value, fuel).value, k);
  }

  /** A delete empties the first slot that holds the key, and changes nothing else. */
  lemma RemoveEffect(hash: HashFn, t: Table, key: Key)
    requires Chained(hash, t.slots)
    ensures var u := Remove(hash, t, key);
            && |u.slots| == |t.slots|
            && (forall q: nat :: q < |t.slots| && !IsFirst(hash, t.slots, key, q) ==> u.slots[q] == t.slots[q])
            && (forall q: nat :: IsFirst(hash, t.slots, key, q) ==> u.slots[q].status.Deleted?)
            && u.size == (if key in Contents(t.slots) then t.size - 1 else t.size)
  {
    StoredIff(hash, t, key);
    var s, h := t.slots, Home(hash, t.slots, key);
    match GetScan(s, key, h, 0)
    case Miss(_) => ContentsMeaning(s, key);
    case Hit(j) =>
      hide Probe;
      assert IsFirst(hash, s, key, Probe(h, j, |s|));
      forall q: nat | IsFirst(hash, s, key, q) ensures q == Probe(h, j, |s|) {
      }
  }

  /** Get after delete: NULL if the key was stored once, else the next slot of the probe sequence that holds it. */
  lemma RemoveThenGet(hash: HashFn, t: Table, key: Key)
    requires Sound(hash, t)
    ensures var u := Remove(hash, t, key);
            && (forall p: nat :: Holds(u.slots, key, p) <==> Holds(t.slots, key, p) && !IsFirst(hash, t.slots, key, p))
            && (forall p: nat :: IsFirst(hash, u.slots, key, p) ==> Lookup(hash, u, key) == t.slots[p].value)
            && ((forall p: nat :: !Holds(u.slots, key, p)) ==> Lookup(hash, u, key) == NULL)
  {
    SoundIsChained(hash, t);
    RemoveEffect(hash, t, key);
    RemoveSound(hash, t, key);
    var u := Remove(hash, t, key);
    SoundIsChained(hash, u);
    hide Sound, Chained, Lookup, Remove, Contents, Hides;
    LookupCorrect(hash, u, key);
    forall p: nat | IsFirst(hash, t.slots, key, p) ensures !Holds(u.slots, key, p) {
    }
  }

  /** A delete leaves every other key's get alone. */
  lemma RemoveKeepsGets(hash: HashFn, t: Table, key: Key, k: Key)
    requires Sound(hash, t) && k != key
    ensures Lookup(hash, Remove(hash, t, key), k) == Lookup(hash, t, k)
  {
    SoundIsChained(hash, t);
    RemoveEffect(hash, t, key);
    RemoveSound(hash, t, key);
    SoundIsChained(hash, Remove(hash, t, key));
    hide Sound, Chained, Lookup, Remove, Contents;
    forall q: nat ensures Holds(Remove(hash, t, key).slots, k, q) <==> Holds(t.slots, k, q) {
    }
    SameGets(hash, t, Remove(hash, t, key), k);
  }
}
