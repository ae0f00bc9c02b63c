/** An index from a key (a location or a user) to a multimap of its visits by time, and
    what it means for such an index to follow a table of slots. */
module TimeIndex {
  import opened Entities
  import opened Multimap

  type Index = map<Id, seq<Entry>>

  /** Where a visit belongs: under which key and at which time. */
  datatype Slot = Slot(key: Id, at: Timestamp)

  function Bucket(index: Index, key: Id): seq<Entry> {
    if key in index then index[key] else []
  }

  function Count(index: Index, key: Id, e: Entry): nat {
    multiset(Bucket(index, key))[e]
  }

  function Put(index: Index, key: Id, e: Entry): Index {
    index[key := Inserted(Bucket(index, key), e)]
  }

  /** Every occurrence of the entry is taken out of the bucket. */
  function Cut(index: Index, key: Id, e: Entry): Index
    requires key in index
  {
    index[key := Filter(index[key], Other(e.at, e.id))]
  }

  /** One entry is taken out of the bucket by its position. */
  function Dropped(index: Index, key: Id, n: nat): Index
    requires key in index && n < |index[key]|
  {
    index[key := index[key][..n] + index[key][n + 1..]]
  }

  ghost predicate AllSorted(index: Index) {
    forall key :: key in index ==> Sorted(index[key])
  }

  /** Each visit sits exactly once in the index, in the bucket and at the time of its slot. */
  ghost predicate Exact(index: Index, slots: map<Id, Slot>) {
    forall key, e :: Count(index, key, e) == if e.id in slots && slots[e.id] == Slot(key, e.at) then 1 else 0
  }

  ghost predicate SameContents(a: Index, b: Index) {
    forall key, e :: Count(a, key, e) == Count(b, key, e)
  }

  lemma ExactIsUnique(a: Index, b: Index, slots: map<Id, Slot>)
    requires Exact(a, slots) && Exact(b, slots)
    ensures SameContents(a, b)
  {
  }

  lemma PutCount(index: Index, key: Id, e: Entry)
    ensures forall k, x :: Count(Put(index, key, e), k, x) == Count(index, k, x) + if k == key && x == e then 1 else 0
  {
    var before, after := Bucket(index, key), Bucket(Put(index, key, e), key);
    assert multiset(after) == multiset(before) + multiset{e} by { InsertCounts(before, e); }
    forall k, x ensures Count(Put(index, key, e), k, x) == Count(index, k, x) + if k == key && x == e then 1 else 0 {
      if k != key {
        assert Bucket(Put(index, key, e), k) == Bucket(index, k);
      }
    }
  }

  lemma PutSorted(index: Index, key: Id, e: Entry)
    requires AllSorted(index)
    ensures AllSorted(Put(index, key, e))
  {
    InsertSorted(Bucket(index, key), e);
  }

  lemma CutCount(index: Index, key: Id, e: Entry)
    requires key in index
    ensures forall k, x :: Count(Cut(index, key, e), k, x) == if k == key && x == e then 0 else Count(index, k, x)
  {
    FilterCounts(index[key], Other(e.at, e.id));
  }

  lemma CutSorted(index: Index, key: Id, e: Entry)
    requires key in index && AllSorted(index)
    ensures AllSorted(Cut(index, key, e))
  {
    FilterSorted(index[key], Other(e.at, e.id));
  }

  lemma DropCount(index: Index, key: Id, n: nat)
    requires key in index && n < |index[key]|
    ensures forall k, x ::
      Count(Dropped(index, key, n), k, x) == Count(index, k, x) - if k == key && x == index[key][n] then 1 else 0
  {
    var s := index[key];
    assert s == s[..n] + [s[n]] + s[n + 1..];
    assert multiset(s) == multiset(s[..n] + s[n + 1..]) + multiset{s[n]};
  }

  lemma DropSorted(index: Index, key: Id, n: nat)
    requires key in index && n < |index[key]| && AllSorted(index)
    ensures AllSorted(Dropped(index, key, n))
  {
  }

  /** Filing a visit that had no slot yet. */
  lemma PutKeepsExact(index: Index, slots: map<Id, Slot>, key: Id, e: Entry)
    requires Exact(index, slots) && e.id !in slots
    ensures Exact(Put(index, key, e), slots[e.id := Slot(key, e.at)])
  {
    PutCount(index, key, e);
  }

  lemma HasBucket(index: Index, slots: map<Id, Slot>, id: Id)
    requires Exact(index, slots) && id in slots
    ensures slots[id].key in index && Entry(slots[id].at, id) in index[slots[id].key]
  {
    var e := Entry(slots[id].at, id);
    assert Count(index, slots[id].key, e) == 1;
    assert e in multiset(Bucket(index, slots[id].key));
  }

  lemma CutLeavesExact(index: Index, slots: map<Id, Slot>, id: Id)
    requires Exact(index, slots) && id in slots && slots[id].key in index
    ensures Exact(Cut(index, slots[id].key, Entry(slots[id].at, id)), slots - {id})
  {
    CutCount(index, slots[id].key, Entry(slots[id].at, id));
  }

  /** Moving a visit from its slot to another one, which may be the same. */
  lemma MoveKeepsExact(index: Index, slots: map<Id, Slot>, id: Id, slot: Slot)
    requires Exact(index, slots) && id in slots && slots[id].key in index
    ensures Exact(Put(Cut(index, slots[id].key, Entry(slots[id].at, id)), slot.key, Entry(slot.at, id)),
        slots[id := slot])
  {
    CutLeavesExact(index, slots, id);
    PutKeepsExact(Cut(index, slots[id].key, Entry(slots[id].at, id)), slots - {id}, slot.key, Entry(slot.at, id));
    assert (slots - {id})[id := slot] == slots[id := slot];
  }

  // ---- the ids of a bucket

  function IdsOf(s: seq<Entry>): seq<Id> {
    if s == [] then [] else [s[0].id] + IdsOf(s[1..])
  }

  /** If the table fixes the time of every entry, an id occurs as often as its entry. */
  lemma {:induction false} IdCounts(s: seq<Entry>, visits: map<Id, Visit>, id: Id)
    requires forall e :: e in s ==> e.id in visits && visits[e.id].visitedAt == e.at
    ensures multiset(IdsOf(s))[id] == if id in visits then multiset(s)[Entry(visits[id].visitedAt, id)] else 0
  {
    if s != [] {
      IdCounts(s[1..], visits, id);
      assert s == [s[0]] + s[1..];
      assert s[0] in s;
    }
  }
}
