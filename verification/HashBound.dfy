// How far hashmap.c's table can grow: bounds for the capacities at which a set can return.
module HashBound {
  import opened Arith
  import opened Bits
  import opened HashTable
  import opened HashFit
  import opened HashInvariant
  import opened HashRefinement
  import opened HashResize
  import opened Sets

  // ---------- only finitely many capacities matter ----------

  /** From this capacity on no probe that a set can need wraps around. */
  function Horizon(top: nat, n: nat): nat {
    top + (n + 2) * (n + 2)
  }

  lemma NoWrap(h: nat, x: nat, n: nat, top: nat, c: nat)
    requires h <= top && x <= n + 1 && c > Horizon(top, n)
    ensures Probe(h, x, c) == if x == 0 then h else (h + x + x * x) / 2
  {
    assert x * x <= (n + 1) * (n + 1) by {
      MulMonotone(x, n + 1);
    }
    assert (n + 2) * (n + 2) == (n + 1) * (n + 1) + 2 * n + 3;
    SmallMod((h + x + x * x) / 2, c);
  }

  lemma MulMonotone(x: nat, y: nat)
    requires x <= y
    ensures x * x <= y * y
  {
  }

  lemma StrictTriangle(h: nat, x: nat, y: nat)
    requires x < y
    ensures (h + x + x * x) / 2 < (h + y + y * y) / 2
    decreases y - x
  {
    if x + 1 < y {
      StrictTriangle(h, x + 1, y);
    }
    assert (x + 1) + (x + 1) * (x + 1) == x + x * x + 2 * (x + 1);
  }

  /** Beyond the horizon each key is reached within one probe more than there are keys. */
  lemma ReachedSoon(hash: HashFn, c: nat, place: map<Key, nat>, k: Key, top: nat) returns (j: nat)
    requires c > Horizon(top, |place|) && k in place && hash(k) <= top && Reached(hash, c, place, k)
    ensures j <= |place| + 1 && Probe(hash(k) % c, j, c) == place[k]
    ensures forall x: nat :: x < j ==> Taken(hash, c, place, hash(k) % c, Probe(hash(k) % c, x, c))
  {
    var h, n := hash(k), |place|;
    SmallMod(h, c);
    j :| j <= c && Probe(h, j, c) == place[k]
      && forall x: nat :: x < j ==> Taken(hash, c, place, h, Probe(h, x, c));
    if j > n + 1 {
      TooManyProbes(hash, c, place, h, top);
    }
  }

  /** Beyond the horizon probes 1, 2, ... are distinct. */
  lemma ProbesApart(h: nat, x: nat, y: nat, n: nat, top: nat, c: nat)
    requires h <= top && 1 <= x < y <= n + 1 && c > Horizon(top, n)
    ensures Probe(h, x, c) != Probe(h, y, c)
  {
    hide Horizon;
    NoWrap(h, x, n, top, c);
    NoWrap(h, y, n, top, c);
    StrictTriangle(h, x, y);
  }

  /** Probes 1 to n of h. */
  ghost function Probed(h: nat, c: nat, n: nat): map<nat, nat>
    requires h < c
  {
    map x | x in OneTo(n) :: Probe(h, x, c)
  }

  lemma ProbedSize(h: nat, n: nat, top: nat, c: nat)
    requires h <= top && h < c && c > Horizon(top, n)
    ensures |Image(OneTo(n + 1), Probed(h, c, n + 1))| == n + 1
  {
    hide Probe, Horizon;
    var f := Probed(h, c, n + 1);
    forall x, y | x in f && y in f && x < y ensures f[x] != f[y] {
      ProbesApart(h, x, y, n, top, c);
    }
    ImageSize(OneTo(n + 1), f);
  }

  /** So more probes than keys cannot all be taken. */
  lemma TooManyProbes(hash: HashFn, c: nat, place: map<Key, nat>, h: nat, top: nat)
    requires c > Horizon(top, |place|) && h <= top && h < c
    ensures exists x: nat :: 1 <= x <= |place| + 1 && !Taken(hash, c, place, h, Probe(h, x, c))
  {
    hide Probe, Horizon, OneTo;
    var n := |place|;
    if forall x: nat :: 1 <= x <= n + 1 ==> Taken(hash, c, place, h, Probe(h, x, c)) {
      ProbedSize(h, n, top, c);
      ImageAtMost(place.Keys, place);
      var probed, spots := Image(OneTo(n + 1), Probed(h, c, n + 1)), Image(place.Keys, place);
      forall p | p in probed ensures p in spots {
        var x :| x in OneTo(n + 1) && Probe(h, x, c) == p;
        assert Taken(hash, c, place, h, Probe(h, x, c));
      }
      SubsetSize(probed, spots);
    }
  }

  lemma TakenStable(hash: HashFn, place: map<Key, nat>, top: nat, c: nat, d: nat, h: nat, x: nat)
    requires c > Horizon(top, |place|) && d > Horizon(top, |place|) && h <= top && x <= |place| + 1
    requires forall k :: k in place ==> hash(k) <= top
    requires Taken(hash, c, place, h, Probe(h, x, c))
    ensures Probe(h, x, c) == Probe(h, x, d) && Taken(hash, d, place, h, Probe(h, x, d))
  {
    NoWrap(h, x, |place|, top, c);
    NoWrap(h, x, |place|, top, d);
    var l :| l in place && place[l] == Probe(h, x, c) && hash(l) % c == h;
    SmallMod(hash(l), c);
    SmallMod(hash(l), d);
  }

  lemma ReachedStable(hash: HashFn, place: map<Key, nat>, top: nat, c: nat, d: nat, k: Key)
    requires c > Horizon(top, |place|) && d > Horizon(top, |place|)
    requires forall k :: k in place ==> hash(k) <= top
    requires k in place && Reached(hash, c, place, k)
    ensures Reached(hash, d, place, k)
    ensures place[k] < d
  {
    var h := hash(k);
    SmallMod(h, c);
    SmallMod(h, d);
    var j := ReachedSoon(hash, c, place, k, top);
    NoWrap(h, j, |place|, top, c);
    NoWrap(h, j, |place|, top, d);
    forall x: nat | x < j ensures Taken(hash, d, place, h, Probe(h, x, d)) {
      TakenStable(hash, place, top, c, d, h, x);
    }
    assert j <= d;
  }

  /** A placement beyond the horizon is a placement for every capacity beyond it. */
  lemma PlacesStable(hash: HashFn, place: map<Key, nat>, top: nat, c: nat, d: nat)
    requires Places(hash, c, place) && c > Horizon(top, |place|) && d > Horizon(top, |place|)
    requires forall k :: k in place ==> hash(k) <= top
    ensures Places(hash, d, place)
  {
    hide Reached;
    forall k | k in place ensures place[k] < d && Reached(hash, d, place, k) {
      ReachedStable(hash, place, top, c, d, k);
    }
  }

  /** Beyond the horizon doubling helps no more. */
  lemma FitsStable(hash: HashFn, keys: set<Key>, top: nat, c: nat, d: nat)
    requires c > Horizon(top, |keys|) && d > Horizon(top, |keys|)
    requires forall k :: k in keys ==> hash(k) <= top
    ensures Fits(hash, keys, c) <==> Fits(hash, keys, d)
  {
    if place: map<Key, nat> :| place.Keys == keys && Places(hash, c, place) {
      assert |place| == |keys|;
      PlacesStable(hash, place, top, c, d);
    }
    if place: map<Key, nat> :| place.Keys == keys && Places(hash, d, place) {
      assert |place| == |keys|;
      PlacesStable(hash, place, top, d, c);
    }
  }

  lemma StoredIsContents(s: seq<Node>)
    ensures StoredKeys(s) == Contents(s).Keys
  {
    forall k: Key ensures k in StoredKeys(s) <==> k in Contents(s) {
      ContentsMeaning(s, k);
      if k in StoredKeys(s) {
        assert Holds(s, k, SlotOf(s, k));
      }
    }
  }

  /**
   * What a caller can compute before a set: the probe loop finds a slot, or the keys stored and the
   * new one have room at one of the next `last` capacities.
   */
  predicate WillReturn(hash: HashFn, t: Table, key: Key, last: nat)
    requires |t.slots| > 0
  {
    || !SetScan(t.slots, key, Home(hash, t.slots, key), 0).Resize?
    || exists m :: 1 <= m <= last && HasRoom(hash, StoredKeys(t.slots) + {key}, Doubled(|t.slots|, m))
  }

  /** Exactly when a set returns: only the capacities up to the horizon count. */
  lemma StoreReturnsIffWithin(hash: HashFn, t: Table, key: Key, value: Value, top: nat, last: nat)
    requires Sound(hash, t) && last >= 1
    requires var keys := StoredKeys(t.slots) + {key};
             (forall k :: k in keys ==> hash(k) <= top) && Doubled(|t.slots|, last) > Horizon(top, |keys|)
    ensures (exists fuel: nat :: Store(hash, t, key, value, fuel).Some?) <==> WillReturn(hash, t, key, last)
  {
    var keys := StoredKeys(t.slots) + {key};
    StoredIsContents(t.slots);
    StoreReturnsIff(hash, t, key, value);
    hide Sound, Fits, Contents, StoredKeys, HasRoom, Doubled, SetScan, Horizon;
    forall m: nat ensures Fits(hash, keys, Doubled(|t.slots|, m)) <==> HasRoom(hash, keys, Doubled(|t.slots|, m)) {
      FitsIff(hash, keys, Doubled(|t.slots|, m));
    }
    forall m: nat | m > last && Fits(hash, keys, Doubled(|t.slots|, m))
      ensures Fits(hash, keys, Doubled(|t.slots|, last))
    {
      DoubledMonotone(|t.slots|, last, m);
      FitsStable(hash, keys, top, Doubled(|t.slots|, last), Doubled(|t.slots|, m));
    }
  }

  lemma {:induction false} DoubledMonotone(c: nat, i: nat, j: nat)
    requires i <= j
    ensures Doubled(c, i) <= Doubled(c, j)
  {
    DoubledTwice(c, i, j - i);
  }

  // ---------- injective hashes ----------

  ghost predicate Injective(hash: HashFn, keys: set<Key>, top: nat) {
    && (forall k :: k in keys ==> hash(k) <= top)
    && (forall k, l :: k in keys && l in keys && hash(k) == hash(l) ==> k == l)
  }

  /** Above the largest raw hash every key can have its own home slot. */
  lemma AboveFits(hash: HashFn, keys: set<Key>, top: nat, c: nat)
    requires Injective(hash, keys, top) && c > top
    ensures Fits(hash, keys, c)
  {
    var place := map k | k in keys :: hash(k);
    forall k | k in place ensures Reached(hash, c, place, k) {
      SmallMod(hash(k), c);
      assert Probe(hash(k) % c, 0, c) == place[k];
    }
    assert place.Keys == keys && Places(hash, c, place);
  }

  /** Above the largest raw hash, chains have length one, deleted slots included. */
  ghost predicate AtHome(s: seq<Node>, top: nat) {
    |s| > top ==> forall p: nat :: p < |s| && !s[p].status.Empty? ==> s[p].hash == p
  }

  lemma TableAtHome(hash: HashFn, s: seq<Node>, keys: set<Key>, top: nat)
    requires Chained(hash, s) && Unique(s) && NoTombs(s)
    requires Injective(hash, keys, top) && StoredKeys(s) <= keys
    ensures AtHome(s, top)
  {
    if |s| > top {
      forall p: nat | p < |s| && !s[p].status.Empty? ensures s[p].hash == p {
        assert SlotOk(hash, s, p);
        var h := s[p].hash;
        var j: nat :| j <= |s| && Probe(h, j, |s|) == p && ChainAt(s, h, j);
        if j > 0 {
          assert Mine(s, h, Probe(h, 0, |s|));
          assert SlotOk(hash, s, h);
          assert s[p].key in StoredKeys(s) && s[h].key in StoredKeys(s);
          SmallMod(hash(s[p].key), |s|);
          SmallMod(hash(s[h].key), |s|);
        }
      }
    }
  }

  /** No resize starts above the largest raw hash, and the set touches the key's home slot only. */
  lemma NoResizeAbove(hash: HashFn, s: seq<Node>, keys: set<Key>, top: nat, key: Key)
    requires Chained(hash, s) && |s| > top && AtHome(s, top)
    requires Injective(hash, keys, top) && StoredKeys(s) <= keys && key in keys
    ensures var r := SetScan(s, key, Home(hash, s, key), 0); !r.Resize? && r.j == 0
  {
    var h := Home(hash, s, key);
    SmallMod(hash(key), |s|);
    if s[h].status.Occupied? {
      assert SlotOk(hash, s, h);
      assert s[h].key in StoredKeys(s);
      SmallMod(hash(s[h].key), |s|);
    }
  }

  lemma {:induction false} FirstAbove(c: nat, top: nat) returns (m: nat)
    requires 1 <= c <= top
    ensures 1 <= m <= top && top < Doubled(c, m) <= 2 * top
    decreases top - c
  {
    if 2 * c > top {
      m := 1;
    } else {
      m := FirstAboveStep(c, top);
    }
  }

  lemma {:induction false} FirstAboveStep(c: nat, top: nat) returns (m: nat)
    requires 1 <= c && 2 * c <= top
    ensures 1 <= m <= top - c + 1 && top < Doubled(c, m) <= 2 * top
    decreases top - c
  {
    if 4 * c > top {
      m := 2;
    } else {
      m := FirstAboveStep(2 * c, top);
      m := m + 1;
    }
  }

  ghost predicate Bounded(hash: HashFn, t: Table, keys: set<Key>, top: nat, limit: nat) {
    Sound(hash, t) && StoredKeys(t.slots) <= keys && AtHome(t.slots, top) && |t.slots| <= limit
  }

  lemma DirectBounded(hash: HashFn, t: Table, key: Key, value: Value, keys: set<Key>, top: nat, limit: nat, fuel: nat)
    requires Bounded(hash, t, keys, top, limit) && Injective(hash, keys, top) && key in keys
    requires !SetScan(t.slots, key, Home(hash, t.slots, key), 0).Resize?
    ensures Store(hash, t, key, value, fuel).Some?
    ensures Bounded(hash, Store(hash, t, key, value, fuel).value, keys, top, limit)
  {
    StoreSound(hash, t, key, value, fuel);
    var h := Home(hash, t.slots, key);
    var j := SetScan(t.slots, key, h, 0).j;
    var u := Store(hash, t, key, value, fuel).value;
    if |t.slots| > top {
      NoResizeAbove(hash, t.slots, keys, top, key);
    }
    assert u.slots == t.slots[Probe(h, j, |t.slots|) := u.slots[Probe(h, j, |t.slots|)]];
    forall k | k in StoredKeys(u.slots) ensures k in keys {
      var p := SlotOf(u.slots, k);
      if p != Probe(h, j, |t.slots|) {
        assert t.slots[p].key in StoredKeys(t.slots);
      }
    }
  }

  lemma ResizeBounded(hash: HashFn, t: Table, key: Key, value: Value, keys: set<Key>, top: nat, limit: nat, fuel: nat)
    requires Bounded(hash, t, keys, top, limit) && Injective(hash, keys, top) && key in keys
    requires SetScan(t.slots, key, Home(hash, t.slots, key), 0).Resize?
    requires top <= fuel && 2 * top <= limit
    ensures Store(hash, t, key, value, fuel).Some?
    ensures Bounded(hash, Store(hash, t, key, value, fuel).value, keys, top, limit)
  {
    if |t.slots| > top {
      NoResizeAbove(hash, t.slots, keys, top, key);
    }
    var m := FirstAbove(|t.slots|, top);
    AboveFits(hash, keys, top, Doubled(|t.slots|, m));
    StoredIsContents(t.slots);
    var left := ResizeReturns(hash, t, key, value, fuel, m, keys);
    StoreSound(hash, t, key, value, fuel);
    StoreRefines(hash, t, key, value, fuel);
    var u := Store(hash, t, key, value, fuel).value;
    StoredIsContents(u.slots);
    TableAtHome(hash, u.slots, keys, top);
  }

  lemma RemoveBounded(hash: HashFn, t: Table, key: Key, keys: set<Key>, top: nat, limit: nat)
    requires Bounded(hash, t, keys, top, limit)
    ensures Bounded(hash, Remove(hash, t, key), keys, top, limit)
  {
    RemoveSound(hash, t, key);
    var u := Remove(hash, t, key);
    forall k | k in StoredKeys(u.slots) ensures k in keys {
      var p := SlotOf(u.slots, k);
      assert t.slots[p].key in StoredKeys(t.slots);
    }
  }

  lemma NewBounded(hash: HashFn, keys: set<Key>, top: nat, limit: nat)
    requires limit >= STARTING_BUCKETS
    ensures Bounded(hash, NewTable(EMPTY_HEAP), keys, top, limit)
  {
    NewSound(hash, EMPTY_HEAP);
  }

  lemma OpBounded(hash: HashFn, t: Table, op: Op, keys: set<Key>, top: nat, limit: nat, fuel: nat)
    requires Bounded(hash, t, keys, top, limit) && Injective(hash, keys, top) && op.key in keys && |t.slots| > 0
    requires top <= fuel && 2 * top <= limit
    ensures op.Put? ==>
      && Store(hash, t, op.key, op.value, fuel).Some?
      && Bounded(hash, Store(hash, t, op.key, op.value, fuel).value, keys, top, limit)
    ensures op.Del? ==> Bounded(hash, Remove(hash, t, op.key), keys, top, limit)
  {
    hide Bounded, Injective, Store, Remove;
    match op
    case Del(k) => RemoveBounded(hash, t, k, keys, top, limit);
    case Put(k, v) =>
      if SetScan(t.slots, k, Home(hash, t.slots, k), 0).Resize? {
        ResizeBounded(hash, t, k, v, keys, top, limit, fuel);
      } else {
        DirectBounded(hash, t, k, v, keys, top, limit, fuel);
      }
  }

  /**
   * With raw hashes distinct on the keys used and at most `top`, every history of sets and deletes
   * returns, and the capacity never exceeds max(8, 2 * top).
   */
  lemma {:induction false} InjectiveHistoriesReturn(hash: HashFn, ops: seq<Op>, keys: set<Key>, top: nat, fuel: nat)
    requires Injective(hash, keys, top) && KeysOf(ops) <= keys && top <= fuel
    ensures Run(hash, ops, fuel).Some?
    ensures var limit := if 2 * top > STARTING_BUCKETS then 2 * top else STARTING_BUCKETS;
            Bounded(hash, Run(hash, ops, fuel).value, keys, top, limit)
  {
    var limit := if 2 * top > STARTING_BUCKETS then 2 * top else STARTING_BUCKETS;
    NewBounded(hash, keys, top, limit);
    hide Bounded, Injective, KeysOf, Store, Remove;
    if ops != [] {
      var before, op := ops[..|ops| - 1], ops[|ops| - 1];
      KeysOfLast(ops);
      InjectiveHistoriesReturn(hash, before, keys, top, fuel);
      OpBounded(hash, Run(hash, before, fuel).value, op, keys, top, limit, fuel);
    }
  }
}
