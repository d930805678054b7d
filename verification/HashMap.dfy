// hashmap.c in place: a slot array overwritten by probe loops and replaced by resizes.
module HashMap {
  import opened Bits
  import opened HashTable
  import opened Options

  /** Store when the probe loop found a slot. */
  lemma StoreDirectly(hash: HashFn, t: Table, key: Key, value: Value, fuel: nat, h: nat, r: SetOutcome)
    requires |t.slots| > 0 && h == Home(hash, t.slots, key) && r == SetScan(t.slots, key, h, 0)
    requires !r.Resize?
    ensures Store(hash, t, key, value, fuel).Some?
    ensures var u := WriteNode(t, Probe(h, r.j, |t.slots|), key, value, h);
            Store(hash, t, key, value, fuel).value == if r.Insert? then u.(size := u.size + 1) else u
  {
  }

  /** Store when it did not. */
  lemma StoreAfterResize(hash: HashFn, t: Table, key: Key, value: Value, fuel: nat)
    requires |t.slots| > 0 && SetScan(t.slots, key, Home(hash, t.slots, key), 0).Resize?
    requires Store(hash, t, key, value, fuel).Some?
    ensures
      && fuel >= 1
      && Rehash(hash, Grown(t), t.slots, 0, fuel - 1).Some?
      && var u := Rehash(hash, Grown(t), t.slots, 0, fuel - 1).value;
         Store(hash, t, key, value, fuel) == Store(hash, u.(heap := u.heap.Free(t.arrBlock)), key, value, fuel - 1)
  {
  }

  class Hashmap {
    const hash: HashFn
    var cap: nat
    var arr: array<Node>
    var size: int
    const mapBlock: nat
    var arrBlock: nat
    var heap: Heap

    ghost predicate Valid()
      reads this
    {
      cap == arr.Length && exists k: nat :: cap == Pow2(k)
    }

    /** The map as the value the specification functions work on. */
    ghost function Abs(): Table
      reads this, arr
    {
      Table(arr[..], size, mapBlock, arrBlock, heap)
    }

    constructor (hash: HashFn, heap: Heap)
      ensures Valid() && fresh(arr) && this.hash == hash
      ensures Abs() == NewTable(heap)
      ensures cap == 8 && size == 0 && forall p :: 0 <= p < cap ==> arr[p].status.Empty?
    {
      this.hash := hash;
      cap := STARTING_BUCKETS;
      arr := new Node[STARTING_BUCKETS](_ => EMPTY_NODE);
      size := 0;
      mapBlock := heap.next;
      arrBlock := heap.Alloc().next;
      this.heap := heap.Alloc().Alloc();
      new;
      assert STARTING_BUCKETS == Pow2(3);
      assert arr[..] == EmptySlots(STARTING_BUCKETS);
    }

    /** The loop bound n of the probe loops is the capacity, so `t >= cap` never skips a probe. */
    lemma BoundIsCap()
      requires Valid()
      ensures cap >= 1 && NextPowerOf2(cap) == cap
    {
      var k: nat :| cap == Pow2(k);
      NextPowerOf2OfPower(k);
    }

    /** Slot p takes the entry; `counted` tells whether the size grows. */
    method NodeSet(p: nat, key: Key, value: Value, hv: nat, counted: bool)
      requires Valid() && p < cap
      modifies this, arr
      ensures Valid() && arr == old(arr)
      ensures var u := WriteNode(old(Abs()), p, key, value, hv);
              Abs() == if counted then u.(size := u.size + 1) else u
    {
      if arr[p].status.Occupied? {
        heap := heap.Free(arr[p].block);
      }
      var block := heap.next;
      heap := heap.Alloc();
      arr[p] := Node(Occupied, key, block, value, hv);
      if counted {
        size := size + 1;
      }
    }

    /** The probe loop of Hashmap_set. */
    method Probing(key: Key, hv: nat) returns (r: SetOutcome)
      requires Valid() && hv < cap
      ensures r == SetScan(arr[..], key, hv, 0)
    {
      BoundIsCap();
      hide Probe;
      var n := NextPowerOf2(cap);
      var i := 0;
      while i <= n
        invariant i <= n + 1
        invariant SetScan(arr[..], key, hv, 0) == SetScan(arr[..], key, hv, i)
        decreases n + 1 - i
      {
        var t := Probe(hv, i, n);
        if t < cap {
          if arr[t].status.Empty? {
            return Insert(i);
          } else if arr[t].hash != hv {
            return Resize(i);
          } else if arr[t].status.Deleted? {
            return Insert(i);
          } else if arr[t].key == key {
            return Overwrite(i);
          }
        }
        i := i + 1;
      }
      return Resize(n + 1);
    }

    /** The end of a set whose probe loop found slot r.j of the chain. */
    method SetDirectly(key: Key, value: Value, hv: nat, r: SetOutcome, ghost fuel: nat)
      requires Valid() && cap > 0 && hv == Home(hash, arr[..], key) && r == SetScan(arr[..], key, hv, 0) && !r.Resize?
      modifies this, arr
      ensures Valid() && arr == old(arr)
      ensures Store(hash, old(Abs()), key, value, fuel) == Some(Abs())
    {
      StoreDirectly(hash, Abs(), key, value, fuel, hv, r);
      hide Probe, SetScan, Store, WriteNode;
      NodeSet(Probe(hv, r.j, cap), key, value, hv, r.Insert?);
    }

    /**
     * Hashmap_set. The ghost fuel bounds how deeply resizes nest: the precondition leaves out
     * exactly the calls that never return, see HashBound.StoreReturnsIffWithin.
     */
    method Set(key: Key, value: Value, ghost fuel: nat)
      requires Valid() && Store(hash, Abs(), key, value, fuel).Some?
      modifies this, arr
      ensures Valid() && (arr == old(arr) || fresh(arr))
      ensures Abs() == Store(hash, old(Abs()), key, value, fuel).value
      decreases fuel, 1
    {
      BoundIsCap();
      hide Probe, SetScan, Store, Rehash, WriteNode, Grown;
      var hv := hash(key) % cap;
      var flg := Probing(key, hv);
      if !flg.Resize? {
        SetDirectly(key, value, hv, flg, fuel);
        return;
      }
      SetGrown(key, value, fuel);
    }

    /** The end of a set whose probe loop asked for a resize. */
    method SetGrown(key: Key, value: Value, ghost fuel: nat)
      requires Valid() && cap > 0 && SetScan(arr[..], key, Home(hash, arr[..], key), 0).Resize?
      requires Store(hash, Abs(), key, value, fuel).Some?
      modifies this, arr
      ensures Valid() && fresh(arr)
      ensures Abs() == Store(hash, old(Abs()), key, value, fuel).value
      decreases fuel, 0
    {
      StoreAfterResize(hash, Abs(), key, value, fuel);
      hide Valid, SetScan, Store, Rehash, Grown, Home;
      GrowAndRehash(fuel - 1);
      Set(key, value, fuel - 1);
    }

    /** A resize up to the retry of the interrupted set. */
    method GrowAndRehash(ghost fuel: nat)
      requires Valid() && Rehash(hash, Grown(Abs()), arr[..], 0, fuel).Some?
      modifies this, arr
      ensures Valid() && fresh(arr)
      ensures Abs() == (var u := Rehash(hash, Grown(old(Abs())), old(arr[..]), 0, fuel).value;
                        u.(heap := u.heap.Free(old(arrBlock))))
      decreases fuel, 3
    {
      hide Rehash;
      var oldArr, oldBlock := arr, arrBlock;
      DoubleCapacity();
      Reinsert(oldArr, fuel);
      heap := heap.Free(oldBlock);
    }

    /** The loop of a resize that moves the occupied slots of the old array. */
    method Reinsert(oldArr: array<Node>, ghost fuel: nat)
      requires Valid() && arr != oldArr && Rehash(hash, Abs(), oldArr[..], 0, fuel).Some?
      modifies this, arr
      ensures Valid() && (arr == old(arr) || fresh(arr))
      ensures Abs() == Rehash(hash, old(Abs()), oldArr[..], 0, fuel).value
      decreases fuel, 2
    {
      hide Store;
      var i := 0;
      while i < oldArr.Length
        invariant Valid() && i <= oldArr.Length && (arr == old(arr) || fresh(arr)) && oldArr[..] == old(oldArr[..])
        invariant Rehash(hash, Abs(), oldArr[..], i, fuel) == Rehash(hash, old(Abs()), oldArr[..], 0, fuel)
      {
        if oldArr[i].status.Occupied? {
          Set(oldArr[i].key, oldArr[i].value, fuel);
          heap := heap.Free(oldArr[i].block);
        }
        i := i + 1;
      }
    }

    /** The start of a resize: twice the capacity, an empty array. */
    method DoubleCapacity()
      requires Valid()
      modifies this
      ensures Valid() && fresh(arr)
      ensures Abs() == Grown(old(Abs()))
    {
      ghost var k: nat :| cap == Pow2(k);
      cap := cap * 2;
      arr := new Node[cap](_ => EMPTY_NODE);
      arrBlock := heap.next;
      heap := heap.Alloc();
      size := 0;
      assert cap == Pow2(k + 1);
      assert arr[..] == EmptySlots(cap);
    }

    /** The probe loop of Hashmap_get and Hashmap_delete. */
    method Probing2(key: Key, hv: nat) returns (r: GetOutcome)
      requires Valid() && hv < cap
      ensures r == GetScan(arr[..], key, hv, 0)
    {
      BoundIsCap();
      hide Probe;
      var n := NextPowerOf2(cap);
      var i := 0;
      while i <= n
        invariant i <= n + 1
        invariant GetScan(arr[..], key, hv, 0) == GetScan(arr[..], key, hv, i)
        decreases n + 1 - i
      {
        var t := Probe(hv, i, n);
        if t < cap {
          if arr[t].status.Empty? || arr[t].hash != hv {
            return Miss(i);
          }
          if !arr[t].status.Deleted? && arr[t].key == key {
            return Hit(i);
          }
        }
        i := i + 1;
      }
      return Miss(n + 1);
    }

    /** Hashmap_get. */
    method Get(key: Key) returns (value: Value)
      requires Valid()
      ensures value == Lookup(hash, Abs(), key)
    {
      BoundIsCap();
      var hv := hash(key) % cap;
      var ret := Probing2(key, hv);
      if ret.Hit? {
        var t := Probe(hv, ret.j, cap);
        return arr[t].value;
      }
      return NULL;
    }

    /** Hashmap_delete. */
    method Delete(key: Key) returns (value: Value)
      requires Valid()
      modifies this, arr
      ensures Valid() && arr == old(arr)
      ensures value == Lookup(hash, old(Abs()), key)
      ensures Abs() == Remove(hash, old(Abs()), key)
    {
      BoundIsCap();
      var hv := hash(key) % cap;
      var ret := Probing2(key, hv);
      if ret.Hit? {
        var t := Probe(hv, ret.j, cap);
        size := size - 1;
        var block := arr[t].block;
        arr[t] := arr[t].(status := Deleted, key := []);
        heap := heap.Free(block);
        return arr[t].value;
      }
      return NULL;
    }

    /** The three parts of Hashmap_free. */
    method Destroy()
      requires Valid()
      modifies this
      ensures heap == FreeAll(old(Abs()))
    {
      var i := 0;
      while i < cap
        invariant Valid() && i <= cap && arr == old(arr) && arrBlock == old(arrBlock) && arr[..] == old(arr[..])
        invariant FreeKeys(heap, arr[..], i) == FreeKeys(old(heap), old(arr[..]), 0)
      {
        if arr[i].status.Occupied? {
          heap := heap.Free(arr[i].block);
        }
        i := i + 1;
      }
      heap := heap.Free(arrBlock).Free(mapBlock);
    }

    /** Hashmap_free: nothing to do for NULL. */
    static method Free(m: Hashmap?)
      requires m != null ==> m.Valid()
      modifies m
      ensures m != null ==> m.heap == FreeAll(old(m.Abs()))
    {
      if m == null {
        return;
      }
      m.Destroy();
    }
  }
}
