/**
 * The client-side store of inline blobs (api/inline-cache.ts): transaction-scoped,
 * single-shot, and bounded by a capacity in bytes.
 */
module InlineCache {
  import opened Framing
  import opened WireTypes

  type Key = (Handle, BlobId)

  /** Bytes stored under the keys of `ks`. */
  ghost function Sizes(m: map<Key, Bytes>, ks: set<Key>): nat
    requires ks <= m.Keys
  {
    if ks == {} then 0
    else
      var k :| k in ks;
      |m[k]| + Sizes(m, ks - {k})
  }

  ghost function Size(m: map<Key, Bytes>): nat { Sizes(m, m.Keys) }

  lemma {:induction false} SizesOf(m: map<Key, Bytes>, ks: set<Key>, k: Key)
    requires ks <= m.Keys && k in ks
    ensures Sizes(m, ks) == |m[k]| + Sizes(m, ks - {k})
  {
    var first :| first in ks && Sizes(m, ks) == |m[first]| + Sizes(m, ks - {first});
    if first != k {
      SizesOf(m, ks - {first}, k);
      SizesOf(m, ks - {k}, first);
      assert ks - {first} - {k} == ks - {k} - {first};
    }
  }

  lemma {:induction false} SizesSame(m: map<Key, Bytes>, m': map<Key, Bytes>, ks: set<Key>)
    requires ks <= m.Keys && ks <= m'.Keys && forall k | k in ks :: m[k] == m'[k]
    ensures Sizes(m, ks) == Sizes(m', ks)
  {
    if ks != {} {
      var k :| k in ks;
      SizesOf(m, ks, k);
      SizesOf(m', ks, k);
      SizesSame(m, m', ks - {k});
    }
  }

  lemma SizeWithout(m: map<Key, Bytes>, k: Key)
    requires k in m
    ensures Size(m) == |m[k]| + Size(m - {k})
  {
    SizesOf(m, m.Keys, k);
    assert (m - {k}).Keys == m.Keys - {k};
    SizesSame(m, m - {k}, m.Keys - {k});
  }

  lemma SizeWith(m: map<Key, Bytes>, k: Key, data: Bytes)
    ensures Size(m[k := data]) == Size(m) - (if k in m then |m[k]| else 0) + |data|
  {
    SizeWithout(m[k := data], k);
    if k in m {
      SizeWithout(m, k);
      assert m[k := data] - {k} == m - {k};
    } else {
      assert m[k := data] - {k} == m;
    }
  }

  class InlineBlobCache {
    const capacity: nat
    var stored: map<Key, Bytes>
    var usedBytes: int

    ghost predicate Valid() reads this { usedBytes == Size(stored) <= capacity }

    constructor (capacity: nat)
      ensures Valid() && stored == map[] && this.capacity == capacity
    {
      this.capacity, stored, usedBytes := capacity, map[], 0;
    }

    /** Kept if it fits beside everything stored already, even what it would replace. */
    method Store(tx: Handle, id: BlobId, data: Bytes)
      requires Valid()
      modifies this
      ensures Valid()
      ensures stored == if Size(old(stored)) + |data| > capacity then old(stored) else old(stored)[(tx, id) := data]
    {
      if usedBytes + |data| > capacity { return; }
      SizeWith(stored, (tx, id), data);
      if (tx, id) in stored { usedBytes := usedBytes - |stored[(tx, id)]|; }
      stored := stored[(tx, id) := data];
      usedBytes := usedBytes + |data|;
    }

    /** The blob's bytes, and never again. */
    method Take(tx: Handle, id: BlobId) returns (r: Option<Bytes>)
      requires Valid()
      modifies this
      ensures Valid() && stored == old(stored) - {(tx, id)}
      ensures r == if (tx, id) in old(stored) then Some(Unframe(old(stored)[(tx, id)])) else None
    {
      if (tx, id) !in stored { return None; }
      var framed := stored[(tx, id)];
      SizeWithout(stored, (tx, id));
      stored := stored - {(tx, id)};
      usedBytes := usedBytes - |framed|;
      r := Some(Unframe(framed));
    }

    /** A finished transaction's blobs go, and only those. */
    method ClearTx(tx: Handle)
      requires Valid()
      modifies this
      ensures Valid()
      ensures stored == map k | k in old(stored) && k.0 != tx :: old(stored)[k]
    {
      var ids := set k | k in stored && k.0 == tx;
      while ids != {}
        invariant Valid() && ids <= stored.Keys && (forall k | k in ids :: k.0 == tx)
        invariant forall k | k in stored && k.0 == tx :: k in ids
        invariant forall k :: (k in stored && k.0 != tx <==> k in old(stored) && k.0 != tx)
        invariant forall k | k in stored :: k in old(stored) && stored[k] == old(stored)[k]
        decreases ids
      {
        var k :| k in ids;
        SizeWithout(stored, k);
        usedBytes := usedBytes - |stored[k]|;
        stored := stored - {k};
        ids := ids - {k};
      }
    }

    method Clear()
      modifies this
      ensures Valid() && stored == map[]
    {
      stored, usedBytes := map[], 0;
    }
  }
}
