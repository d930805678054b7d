// Deciding by computation whether keys fit a capacity of hashmap.c's table.
module HashFit {
  import opened HashTable
  import opened HashResize
  import opened Sets

  /** `got` and the slots of probes i, i + 1, ..., c of h, up to n slots in all. */
  function Distinct(h: nat, c: nat, n: nat, i: nat, got: set<nat>): set<nat>
    requires h < c
    decreases c + 1 - i
  {
    if |got| >= n || i > c then got else Distinct(h, c, n, i + 1, got + {Probe(h, i, c)})
  }

  function ClassOf(hash: HashFn, keys: set<Key>, c: nat, h: nat): set<Key>
    requires c > 0
  {
    set k | k in keys && hash(k) % c == h
  }

  /** The first distinct probes of h, as many as there are keys of that reduced hash. */
  function SlotsFor(hash: HashFn, keys: set<Key>, c: nat, h: nat): set<nat>
    requires h < c
  {
    Distinct(h, c, |ClassOf(hash, keys, c, h)|, 0, {})
  }

  /** Each class has enough distinct probes, and no two classes need the same slot. */
  predicate HasRoom(hash: HashFn, keys: set<Key>, c: nat) {
    && c > 0
    && (forall k :: k in keys ==>
          |SlotsFor(hash, keys, c, hash(k) % c)| == |ClassOf(hash, keys, c, hash(k) % c)|)
    && (forall k, l :: k in keys && l in keys && hash(k) % c != hash(l) % c ==>
          SlotsFor(hash, keys, c, hash(k) % c) !! SlotsFor(hash, keys, c, hash(l) % c))
  }

  // ---------- a placement uses these slots ----------

  /** Short of all its spots, the next probe of a placed class is one of them. */
  lemma NextIsSpot(hash: HashFn, c: nat, place: map<Key, nat>, h: nat, i: nat, got: set<nat>)
    requires Places(hash, c, place) && h < c && |got| < |ClassSpots(hash, c, place, h)|
    requires forall x: nat :: x < i ==> Probe(h, x, c) in got
    ensures i <= c && Probe(h, i, c) in ClassSpots(hash, c, place, h)
  {
    hide Probe, Places, ClassSpots;
    var q := MissingMember(got, ClassSpots(hash, c, place, h));
    var j := SpotProbe(hash, c, place, h, q);
    assert j >= i;
  }

  /** Collecting probes never leaves the spots of a placed class, and ends with all of them. */
  lemma {:induction false} DistinctWithin(hash: HashFn, c: nat, place: map<Key, nat>, h: nat, i: nat, got: set<nat>)
    requires Places(hash, c, place) && h < c && got <= ClassSpots(hash, c, place, h)
    requires forall x: nat :: x < i ==> Probe(h, x, c) in got
    ensures Distinct(h, c, |ClassSpots(hash, c, place, h)|, i, got) == ClassSpots(hash, c, place, h)
    decreases c + 1 - i
  {
    hide Probe, Places, ClassSpots;
    var spots := ClassSpots(hash, c, place, h);
    SubsetSize(got, spots);
    if |got| < |spots| {
      NextIsSpot(hash, c, place, h, i, got);
      DistinctWithin(hash, c, place, h, i + 1, got + {Probe(h, i, c)});
    }
  }

  lemma SpotsAreSlots(hash: HashFn, c: nat, place: map<Key, nat>, h: nat)
    requires Places(hash, c, place) && h < c
    ensures SlotsFor(hash, place.Keys, c, h) == ClassSpots(hash, c, place, h)
    ensures |SlotsFor(hash, place.Keys, c, h)| == |ClassOf(hash, place.Keys, c, h)|
  {
    var members := ClassOf(hash, place.Keys, c, h);
    ImageSize(members, place);
    assert Image(members, place) == ClassSpots(hash, c, place, h);
    DistinctWithin(hash, c, place, h, 0, {});
  }

  lemma PlacedHasRoom(hash: HashFn, c: nat, place: map<Key, nat>)
    requires Places(hash, c, place)
    ensures HasRoom(hash, place.Keys, c)
  {
    hide SlotsFor;
    forall k | k in place
      ensures SlotsFor(hash, place.Keys, c, hash(k) % c) == ClassSpots(hash, c, place, hash(k) % c)
      ensures |SlotsFor(hash, place.Keys, c, hash(k) % c)| == |ClassOf(hash, place.Keys, c, hash(k) % c)|
    {
      SpotsAreSlots(hash, c, place, hash(k) % c);
    }
  }

  // ---------- these slots make a placement ----------

  /** Each collected slot is a probe all of whose predecessors are collected. */
  lemma {:induction false} DistinctReached(h: nat, c: nat, n: nat, i: nat, got: set<nat>, p: nat)
    requires h < c && p in Distinct(h, c, n, i, got)
    ensures got <= Distinct(h, c, n, i, got)
    ensures p in got || exists j: nat ::
      && i <= j <= c && Probe(h, j, c) == p
      && forall x: nat :: i <= x < j ==> Probe(h, x, c) in Distinct(h, c, n, i, got)
    decreases c + 1 - i
  {
    hide Probe;
    if |got| < n && i <= c {
      DistinctReached(h, c, n, i + 1, got + {Probe(h, i, c)}, p);
      assert Distinct(h, c, n, i, got) == Distinct(h, c, n, i + 1, got + {Probe(h, i, c)});
      if p !in got && p != Probe(h, i, c) {
        var j: nat :| i + 1 <= j <= c && Probe(h, j, c) == p
          && forall x: nat :: i + 1 <= x < j ==> Probe(h, x, c) in Distinct(h, c, n, i + 1, got + {Probe(h, i, c)});
        assert forall x: nat :: i <= x < j ==> Probe(h, x, c) in Distinct(h, c, n, i, got);
      }
    }
  }

  /** Each class on its own slots, in any order. */
  ghost function Placement(hash: HashFn, keys: set<Key>, c: nat): (place: map<Key, nat>)
    requires HasRoom(hash, keys, c)
    ensures place.Keys == keys
  {
    map k | k in keys :: Pair(ClassOf(hash, keys, c, hash(k) % c), SlotsFor(hash, keys, c, hash(k) % c))[k]
  }

  lemma PlacementIs(hash: HashFn, keys: set<Key>, c: nat, h: nat, k: Key)
    requires HasRoom(hash, keys, c) && k in ClassOf(hash, keys, c, h)
    ensures h < c && |ClassOf(hash, keys, c, h)| == |SlotsFor(hash, keys, c, h)|
    ensures Placement(hash, keys, c)[k] == Pair(ClassOf(hash, keys, c, h), SlotsFor(hash, keys, c, h))[k]
  {
  }

  lemma PlacementInClass(hash: HashFn, keys: set<Key>, c: nat, k: Key)
    requires HasRoom(hash, keys, c) && k in keys
    ensures Placement(hash, keys, c)[k] in SlotsFor(hash, keys, c, hash(k) % c)
  {
    hide SlotsFor;
    var f := Pair(ClassOf(hash, keys, c, hash(k) % c), SlotsFor(hash, keys, c, hash(k) % c));
    PairBijective(ClassOf(hash, keys, c, hash(k) % c), SlotsFor(hash, keys, c, hash(k) % c));
    assert f[k] in f.Values;
  }

  lemma PlacementApart(hash: HashFn, keys: set<Key>, c: nat, k: Key, l: Key)
    requires HasRoom(hash, keys, c) && k in keys && l in keys && k != l
    ensures Placement(hash, keys, c)[k] != Placement(hash, keys, c)[l]
  {
    hide SlotsFor;
    if hash(k) % c == hash(l) % c {
      PairBijective(ClassOf(hash, keys, c, hash(k) % c), SlotsFor(hash, keys, c, hash(k) % c));
    } else {
      PlacementInClass(hash, keys, c, k);
      PlacementInClass(hash, keys, c, l);
      hide Placement;
    }
  }

  lemma RoomForClass(hash: HashFn, keys: set<Key>, c: nat, k: Key)
    requires HasRoom(hash, keys, c) && k in keys
    ensures c > 0 && |SlotsFor(hash, keys, c, hash(k) % c)| == |ClassOf(hash, keys, c, hash(k) % c)|
  {
  }

  lemma SlotTaken(hash: HashFn, keys: set<Key>, c: nat, k: Key, p: nat)
    requires HasRoom(hash, keys, c) && k in keys && p in SlotsFor(hash, keys, c, hash(k) % c)
    ensures Taken(hash, c, Placement(hash, keys, c), hash(k) % c, p)
  {
    RoomForClass(hash, keys, c, k);
    hide SlotsFor, HasRoom, Placement;
    var h := hash(k) % c;
    var f := Pair(ClassOf(hash, keys, c, h), SlotsFor(hash, keys, c, h));
    PairBijective(ClassOf(hash, keys, c, h), SlotsFor(hash, keys, c, h));
    assert p in f.Values;
    var l :| l in f && f[l] == p;
    PlacementIs(hash, keys, c, h, l);
  }

  lemma PlacementReached(hash: HashFn, keys: set<Key>, c: nat, k: Key)
    requires HasRoom(hash, keys, c) && k in keys
    ensures Placement(hash, keys, c)[k] < c && Reached(hash, c, Placement(hash, keys, c), k)
  {
    var place, h := Placement(hash, keys, c), hash(k) % c;
    var n := |ClassOf(hash, keys, c, h)|;
    PlacementInClass(hash, keys, c, k);
    DistinctReached(h, c, n, 0, {}, place[k]);
    hide Distinct, Placement, HasRoom;
    var j: nat :| j <= c && Probe(h, j, c) == place[k]
      && forall x: nat :: 0 <= x < j ==> Probe(h, x, c) in Distinct(h, c, n, 0, {});
    forall x: nat | x < j ensures Taken(hash, c, place, h, Probe(h, x, c)) {
      SlotTaken(hash, keys, c, k, Probe(h, x, c));
    }
  }

  lemma PlacementPlaces(hash: HashFn, keys: set<Key>, c: nat)
    requires HasRoom(hash, keys, c)
    ensures Places(hash, c, Placement(hash, keys, c))
  {
    hide Placement, SlotsFor, Reached;
    var place := Placement(hash, keys, c);
    forall k | k in place ensures place[k] < c && Reached(hash, c, place, k) {
      PlacementReached(hash, keys, c, k);
    }
    forall k, l | k in place && l in place && place[k] == place[l] ensures k == l {
      if k != l {
        PlacementApart(hash, keys, c, k, l);
      }
    }
  }

  /** Whether keys fit a capacity can be computed class by class. */
  lemma FitsIff(hash: HashFn, keys: set<Key>, c: nat)
    ensures Fits(hash, keys, c) <==> HasRoom(hash, keys, c)
  {
    hide HasRoom, Places;
    if place: map<Key, nat> :| place.Keys == keys && Places(hash, c, place) {
      PlacedHasRoom(hash, c, place);
    }
    if HasRoom(hash, keys, c) {
      PlacementPlaces(hash, keys, c);
    }
  }
}
