/** An index from a key (a location or a user) to the multiset of the visit ids
    filed under it, and what it means for such an index to follow an owner table. */
module MultisetIndex {
  import opened Entities

  type Index = map<Id, multiset<Id>>

  /** The bucket of `key`; an absent bucket holds nothing. */
  function Bucket(index: Index, key: Id): multiset<Id> {
    if key in index then index[key] else multiset{}
  }

  /** How often `id` is filed under `key`. */
  function Count(index: Index, key: Id, id: Id): nat {
    Bucket(index, key)[id]
  }

  function Emplaced(index: Index, key: Id, id: Id): Index {
    index[key := Bucket(index, key) + multiset{id}]
  }

  /** Erasing from a multiset by value removes every occurrence. */
  function Erased(index: Index, key: Id, id: Id): Index {
    if key in index then index[key := index[key][id := 0]] else index
  }

  /** A patch hands `id` from bucket `from` to bucket `to`, erasing `erased` from the old
      bucket; a patch that names no bucket or the same one leaves the index alone. */
  function Moved(index: Index, from: Id, to: Id, erased: Id, id: Id): Index {
    if to == ID_MAX || to == from then index else Emplaced(Erased(index, from, erased), to, id)
  }

  /** A visit is filed at most once in all, and only under its owner. */
  ghost predicate Tracks(index: Index, owners: map<Id, Id>) {
    forall key, id :: Count(index, key, id) <= (if id in owners && owners[id] == key then 1 else 0)
  }

  /** Every visit is filed under its owner. */
  ghost predicate Covers(index: Index, owners: map<Id, Id>) {
    forall id :: id in owners ==> Count(index, owners[id], id) >= 1
  }

  /** Each visit sits exactly once in the index, in the bucket of its owner. */
  ghost predicate Exact(index: Index, owners: map<Id, Id>) {
    Tracks(index, owners) && Covers(index, owners)
  }

  /** Two indexes file the same ids under the same keys (a missing bucket is an empty one). */
  ghost predicate SameContents(a: Index, b: Index) {
    forall key, id :: Count(a, key, id) == Count(b, key, id)
  }

  /** An exact index is determined by its owner table. */
  lemma ExactIsUnique(a: Index, b: Index, owners: map<Id, Id>)
    requires Exact(a, owners) && Exact(b, owners)
    ensures SameContents(a, b)
  {
    forall key, id ensures Count(a, key, id) == Count(b, key, id) {
      if id in owners && owners[id] == key {
        assert Count(a, owners[id], id) >= 1 && Count(b, owners[id], id) >= 1;
      }
    }
  }

  lemma OnlyAtOwner(index: Index, owners: map<Id, Id>, id: Id)
    requires Tracks(index, owners) && id in owners
    ensures forall key :: key != owners[id] ==> Count(index, key, id) == 0
  {
  }

  lemma EmplaceCount(index: Index, key: Id, id: Id)
    ensures forall k, i :: Count(Emplaced(index, key, id), k, i)
                        == Count(index, k, i) + (if k == key && i == id then 1 else 0)
  {
  }

  lemma EraseCount(index: Index, key: Id, id: Id)
    ensures forall k, i :: Count(Erased(index, key, id), k, i)
                        == (if k == key && i == id then 0 else Count(index, k, i))
  {
  }

  /** Filing a visit that was in no table yet. */
  lemma FileKeepsTracks(index: Index, owners: map<Id, Id>, key: Id, id: Id)
    requires Tracks(index, owners) && id !in owners
    ensures Tracks(Emplaced(index, key, id), owners[id := key])
    ensures Covers(index, owners) ==> Covers(Emplaced(index, key, id), owners[id := key])
  {
    EmplaceCount(index, key, id);
  }

  lemma MovedCount(index: Index, from: Id, to: Id, id: Id)
    requires to != ID_MAX && to != from
    ensures forall k, i ::
      Count(Moved(index, from, to, id, id), k, i)
      == if i != id then Count(index, k, i) else if k == from then 0 else Count(index, k, i) + if k == to then 1 else 0
  {
    EraseCount(index, from, id);
    EmplaceCount(Erased(index, from, id), to, id);
  }

  /** Moving a visit away from its owner's bucket. */
  lemma MoveKeepsTracks(index: Index, owners: map<Id, Id>, to: Id, id: Id)
    requires Tracks(index, owners) && id in owners && to != ID_MAX && to != owners[id]
    ensures Tracks(Moved(index, owners[id], to, id, id), owners[id := to])
  {
    MovedCount(index, owners[id], to, id);
    OnlyAtOwner(index, owners, id);
  }

  lemma MoveKeepsCovers(index: Index, owners: map<Id, Id>, to: Id, id: Id)
    requires Covers(index, owners) && id in owners && to != ID_MAX && to != owners[id]
    ensures Covers(Moved(index, owners[id], to, id, id), owners[id := to])
  {
    MovedCount(index, owners[id], to, id);
  }

  /** A patch of the owner keeps the index in step with the owner table. */
  lemma PatchKeepsIndex(index: Index, owners: map<Id, Id>, to: Id, id: Id)
    requires Tracks(index, owners) && id in owners
    ensures var after, owners' := Moved(index, owners[id], to, id, id),
        owners[id := if to == ID_MAX then owners[id] else to];
            Tracks(after, owners') && (Covers(index, owners) ==> Covers(after, owners'))
  {
    if to == ID_MAX || to == owners[id] {
      assert owners[id := owners[id]] == owners;
    } else {
      MoveKeepsTracks(index, owners, to, id);
      if Covers(index, owners) {
        MoveKeepsCovers(index, owners, to, id);
      }
    }
  }

  /** Erasing the key itself from a bucket leaves every other id as often as it was. */
  lemma MoveErasingKey(index: Index, from: Id, to: Id, moved: Id, key: Id, id: Id)
    requires id != key
    ensures Count(Moved(index, from, to, from, moved), key, id) == Count(index, key, id)
      + if to != ID_MAX && to != from && key == to && id == moved then 1 else 0
  {
    EraseCount(index, from, from);
    EmplaceCount(Erased(index, from, from), to, moved);
  }

  /** Where `id` is filed after it was moved from `from` to `via` and on to `to`. */
  lemma MoveTwiceCount(index: Index, id: Id, from: Id, via: Id, to: Id)
    ensures forall k, i ::
      Count(Emplaced(Erased(Emplaced(Erased(index, from, id), via, id), via, id), to, id), k, i)
        == (if i == id && (k == from || k == via) then 0 else Count(index, k, i))
            + (if k == to && i == id then 1 else 0)
  {
    var left := Erased(index, from, id);
    var first := Emplaced(left, via, id);
    EraseCount(index, from, id);
    EmplaceCount(left, via, id);
    EraseCount(first, via, id);
    EmplaceCount(Erased(first, via, id), to, id);
  }

  /** Moving an id from `from` to `via` and on to `to` files it as one move from `from` to
      `to` does, except that a round trip also files an id that was not filed before. */
  lemma MoveTwice(index: Index, id: Id, from: Id, via: Id, to: Id)
    requires via != from && via != to
    requires forall key :: key != from ==> Count(index, key, id) == 0
    ensures var twice := Emplaced(Erased(Emplaced(Erased(index, from, id), via, id), via, id), to, id);
            var once := if to == from then index else Emplaced(Erased(index, from, id), to, id);
            SameContents(twice, once) <==> to != from || Count(index, from, id) == 1
  {
    MoveTwiceCount(index, id, from, via, to);
    var twice := Emplaced(Erased(Emplaced(Erased(index, from, id), via, id), via, id), to, id);
    if to == from {
      assert Count(twice, from, id) == 1;
      assert forall k, i :: k != from || i != id ==> Count(twice, k, i) == Count(index, k, i);
    } else {
      EraseCount(index, from, id);
      EmplaceCount(Erased(index, from, id), to, id);
    }
  }

  /** Two patches of the bucket compose, except for a round trip of an id that was not filed. */
  lemma MovesCompose(index: Index, id: Id, from: Id, first: Id, second: Id)
    requires forall key :: key != from ==> Count(index, key, id) == 0
    ensures var via := if first == ID_MAX then from else first;
            var to := if second == ID_MAX then first else second;
            SameContents(Moved(Moved(index, from, first, id, id), via, second, id, id), Moved(index, from, to, id, id))
            <==> !(first != ID_MAX && first != from && to == from) || Count(index, from, id) == 1
  {
    if first != ID_MAX && first != from && second != ID_MAX && second != first {
      MoveTwice(index, id, from, first, second);
    }
  }

  // ---- sizes

  /** The number of entries filed under the keys of `keys`. */
  ghost function TotalSize(index: Index, keys: set<Id>): nat
    requires keys <= index.Keys
  {
    if keys == {} then 0 else
      var key :| key in keys;
      |index[key]| + TotalSize(index, keys - {key})
  }

  ghost function OwnedBy(owners: map<Id, Id>, keys: set<Id>): set<Id> {
    set id | id in owners && owners[id] in keys
  }

  lemma BucketIsOwned(index: Index, owners: map<Id, Id>, key: Id)
    requires Exact(index, owners) && key in index
    ensures |index[key]| == |OwnedBy(owners, {key})|
  {
    var owned := OwnedBy(owners, {key});
    forall id ensures index[key][id] == multiset(owned)[id] {
      assert index[key][id] == Count(index, key, id);
    }
    assert index[key] == multiset(owned);
  }

  lemma OwnedSplits(owners: map<Id, Id>, key: Id, keys: set<Id>)
    requires key in keys
    ensures |OwnedBy(owners, keys)| == |OwnedBy(owners, {key})| + |OwnedBy(owners, keys - {key})|
  {
    assert OwnedBy(owners, keys) == OwnedBy(owners, {key}) + OwnedBy(owners, keys - {key});
    assert OwnedBy(owners, {key}) !! OwnedBy(owners, keys - {key});
  }

  lemma {:induction false} SizeOfKeys(index: Index, owners: map<Id, Id>, keys: set<Id>)
    requires forall key :: key in index ==> |index[key]| == |OwnedBy(owners, {key})|
    requires keys <= index.Keys
    ensures TotalSize(index, keys) == |OwnedBy(owners, keys)|
  {
    if keys == {} {
      assert OwnedBy(owners, keys) == {};
    } else {
      var key :| key in keys && TotalSize(index, keys) == |index[key]| + TotalSize(index, keys - {key});
      SizeOfKeys(index, owners, keys - {key});
      OwnedSplits(owners, key, keys);
    }
  }

  lemma AllBucketsAreOwned(index: Index, owners: map<Id, Id>)
    requires Exact(index, owners)
    ensures forall key :: key in index ==> |index[key]| == |OwnedBy(owners, {key})|
  {
    forall key | key in index ensures |index[key]| == |OwnedBy(owners, {key})| {
      BucketIsOwned(index, owners, key);
    }
  }

  lemma AllOwnersHaveBuckets(index: Index, owners: map<Id, Id>)
    requires Exact(index, owners)
    ensures OwnedBy(owners, index.Keys) == owners.Keys
  {
    forall id | id in owners ensures owners[id] in index.Keys {
      assert Count(index, owners[id], id) >= 1;
    }
  }

  /** The bucket sizes of an exact index sum to the number of owned visits. */
  lemma SizesSumToVisits(index: Index, owners: map<Id, Id>)
    requires Exact(index, owners)
    ensures TotalSize(index, index.Keys) == |owners|
  {
    AllOwnersHaveBuckets(index, owners);
    AllBucketsAreOwned(index, owners);
    SizeOfKeys(index, owners, index.Keys);
  }
}
