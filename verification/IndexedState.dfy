/** The indexed store as a value: its tables, the maps from a visit to its owners, and
    its two time indexes. `locations_to_users_` never affects an answer and is left out. */
module IndexedState {
  import opened Entities
  import opened Multimap
  import opened TimeIndex

  datatype Indexed = Indexed(tables: Tables,
                             visitsToLocations: map<Id, Id>, visitsToUser: map<Id, Id>,
                             usersToVisits: Index, locationsToVisits: Index)

  function MappedIds(t: Tables): set<Id> {
    set id | id in t.visits && Mapped(t, id)
  }

  /** Where the visit belongs; the slot of a visit that is not mapped does not matter. */
  function LocationSlot(visits: map<Id, Visit>, mapped: set<Id>, id: Id): Slot {
    if id in visits && id in mapped then Slot(visits[id].locationId, visits[id].visitedAt) else Slot(0, 0)
  }

  function UserSlot(visits: map<Id, Visit>, mapped: set<Id>, id: Id): Slot {
    if id in visits && id in mapped then Slot(visits[id].userId, visits[id].visitedAt) else Slot(0, 0)
  }

  function LocationSlots(visits: map<Id, Visit>, mapped: set<Id>): map<Id, Slot> {
    map id | id in visits && id in mapped :: LocationSlot(visits, mapped, id)
  }

  function UserSlots(visits: map<Id, Visit>, mapped: set<Id>): map<Id, Slot> {
    map id | id in visits && id in mapped :: UserSlot(visits, mapped, id)
  }

  function EntryOf(v: Visit): Entry { Entry(v.visitedAt, v.id) }

  // ---- updating a visit

  /** Taking `was` out of the bucket of `from` and putting `now` into the bucket of `to`. */
  function Rehomed(index: Index, from: Id, was: Entry, to: Id, now: Entry): Option<Index> {
    if from !in index then None else Some(Put(Cut(index, from, was), to, now))
  }

  /** The position multimap::find yields in libstdc++: the first entry of the key. */
  function FoundAt(s: seq<Entry>, at: Timestamp): (found: Option<nat>)
    ensures found.Some? ==> found.value < |s| && s[found.value].at == at
  {
    var n := LowerBound(s, at);
    if n < |s| && s[n].at == at then Some(n) else None
  }

  /** In a sorted bucket it is the first entry of that time, and there is none if none is found. */
  lemma FoundIsFirst(s: seq<Entry>, at: Timestamp)
    requires Sorted(s)
    ensures match FoundAt(s, at)
            case Some(n) => n < |s| && s[n].at == at && forall i :: 0 <= i < n ==> s[i].at < at
            case None => forall e :: e in s ==> e.at != at
  {
    var n := LowerBound(s, at);
    if FoundAt(s, at) == None {
      forall e | e in s ensures e.at != at {
        var i :| 0 <= i < |s| && s[i] == e;
        assert i >= n ==> s[n].at <= s[i].at;
      }
    }
  }

  /** The user side as written: nothing happens unless the user changes, and then some entry
      of the old time is erased from the old user's bucket. */
  function RehomedAsWritten(index: Index, from: Id, was: Entry, to: Id, now: Entry): Option<Index> {
    if to == from then Some(index)
    else if from !in index || FoundAt(index[from], was.at) == None then None
    else
      var n := FoundAt(index[from], was.at).value;
      Some(Put(Dropped(index, from, n), to, now))
  }

  function UserSide(variant: Variant, index: Index, was: Visit, now: Visit): Option<Index> {
    if variant == Intended then Rehomed(index, was.userId, EntryOf(was), now.userId, EntryOf(now))
    else RehomedAsWritten(index, was.userId, EntryOf(was), now.userId, EntryOf(now))
  }

  function LocationSide(index: Index, was: Visit, now: Visit): Option<Index> {
    Rehomed(index, was.locationId, EntryOf(was), now.locationId, EntryOf(now))
  }

  /** Each guard that fails leaves behind what was changed before it. */
  function UpdateOutcome(variant: Variant, s: Indexed, p: Visit): (Indexed, Status) {
    if p.id !in s.tables.visits || p.id !in s.visitsToLocations then (s, EntityNotFound)
    else
      var was := s.tables.visits[p.id];
      var now := MergeVisit(was, p);
      var s1 := s.(visitsToLocations := s.visitsToLocations[p.id := now.locationId]);
      if p.id !in s.visitsToUser then (s1, EntityNotFound)
      else
        var s2 := s1.(visitsToUser := s.visitsToUser[p.id := now.userId]);
        match UserSide(variant, s.usersToVisits, was, now)
        case None => (s2, EntityNotFound)
        case Some(usersToVisits) =>
          var s3 := s2.(usersToVisits := usersToVisits);
          match LocationSide(s.locationsToVisits, was, now)
          case None => (s3, EntityNotFound)
          case Some(locationsToVisits) =>
            (s3.(locationsToVisits := locationsToVisits,
                 tables := s.tables.(visits := s.tables.visits[p.id := now])), EntitySuccessfullyUpdated)
  }

  function AddOutcome(s: Indexed, v: Visit): Indexed {
    if v.id in s.tables.visits then s
    else Indexed(s.tables.(visits := s.tables.visits[v.id := v]),
                 if v.id in s.visitsToLocations then s.visitsToLocations else s.visitsToLocations[v.id := v.locationId],
                 if v.id in s.visitsToUser then s.visitsToUser else s.visitsToUser[v.id := v.userId],
                 Put(s.usersToVisits, v.userId, EntryOf(v)),
                 Put(s.locationsToVisits, v.locationId, EntryOf(v)))
  }

  function Step(variant: Variant, s: Indexed, op: Op): (Indexed, Status) {
    match op
    case AddVisit(v) => (AddOutcome(s, v), StatusOf(s.tables, op))
    case UpdateVisit(p) => UpdateOutcome(variant, s, p)
    case _ => (s.(tables := TablesAfter(s.tables, op)), StatusOf(s.tables, op))
  }

  function Run(variant: Variant, s: Indexed, ops: seq<Op>): (Indexed, seq<Status>)
    decreases |ops|
  {
    if ops == [] then (s, [])
    else
      var (next, status) := Step(variant, s, ops[0]);
      var (end, rest) := Run(variant, next, ops[1..]);
      (end, [status] + rest)
  }

  // ---- invariants

  /** The owner maps know the same visits, all of them in the table. */
  ghost predicate OwnersKnown(s: Indexed) {
    s.visitsToLocations.Keys == s.visitsToUser.Keys <= s.tables.visits.Keys
  }

  /** ... and agree with it. */
  ghost predicate OwnersAgree(s: Indexed) {
    && OwnersKnown(s)
    && (forall id :: id in s.visitsToLocations ==> s.visitsToLocations[id] == s.tables.visits[id].locationId)
    && (forall id :: id in s.visitsToUser ==> s.visitsToUser[id] == s.tables.visits[id].userId)
  }

  /** Every mapped visit is filed once under its location, at its time, in sorted buckets. */
  ghost predicate LocationsValid(s: Indexed) {
    && AllSorted(s.locationsToVisits)
    && Exact(s.locationsToVisits, LocationSlots(s.tables.visits, s.visitsToLocations.Keys))
  }

  ghost predicate UsersValid(s: Indexed) {
    && AllSorted(s.usersToVisits)
    && Exact(s.usersToVisits, UserSlots(s.tables.visits, s.visitsToLocations.Keys))
  }

  /** Every entry of the index names a visit of `ids`. */
  ghost predicate Names(index: Index, ids: set<Id>) {
    forall key, e :: Count(index, key, e) > 0 ==> e.id in ids
  }

  /** What stands in either variant: the location side is valid, and the owner maps and the
      user index, right or wrong, speak of visits that exist. */
  ghost predicate Standing(s: Indexed) {
    && Keyed(s.tables) && OwnersKnown(s) && LocationsValid(s) && AllSorted(s.usersToVisits)
    && Names(s.usersToVisits, s.tables.visits.Keys)
  }

  ghost predicate Valid(s: Indexed) {
    Keyed(s.tables) && OwnersAgree(s) && LocationsValid(s) && UsersValid(s)
  }

  /** What loading leaves: exactly the visits whose references exist are mapped. */
  ghost predicate Loaded(s: Indexed) {
    Valid(s) && s.visitsToLocations.Keys == MappedIds(s.tables)
  }

  /** What loading leaves, read off the table: a visit is filed at its time, once under its location
      and once under its user, exactly if both exist. */
  lemma LoadedMeans(s: Indexed, key: Id, e: Entry)
    requires Loaded(s)
    ensures var t := s.tables;
            var filed := e.id in t.visits && t.visits[e.id].locationId in t.locations
                && t.visits[e.id].userId in t.users
                         && t.visits[e.id].visitedAt == e.at;
            && multiset(Bucket(s.locationsToVisits, key))[e] ==
                (if filed && t.visits[e.id].locationId == key then 1 else 0)
            && multiset(Bucket(s.usersToVisits, key))[e] == if filed && t.visits[e.id].userId == key then 1 else 0
  {
    var mapped := s.visitsToLocations.Keys;
    var locations, users := LocationSlots(s.tables.visits, mapped), UserSlots(s.tables.visits, mapped);
    assert e.id in mapped <==> Mapped(s.tables, e.id);
    assert Count(s.locationsToVisits, key, e) ==
        if e.id in locations && locations[e.id] == Slot(key, e.at) then 1 else 0;
    assert Count(s.usersToVisits, key, e) == if e.id in users && users[e.id] == Slot(key, e.at) then 1 else 0;
  }

  lemma NothingMapped(t: Tables)
    requires Keyed(t)
    ensures Valid(Indexed(t, map[], map[], map[], map[]))
  {
  }

  lemma SlotsAfterPut(visits: map<Id, Visit>, mapped: set<Id>, v: Visit)
    ensures LocationSlots(visits[v.id := v], mapped + {v.id})
         == LocationSlots(visits, mapped)[v.id := Slot(v.locationId, v.visitedAt)]
    ensures UserSlots(visits[v.id := v], mapped + {v.id})
         == UserSlots(visits, mapped)[v.id := Slot(v.userId, v.visitedAt)]
  {
  }

  lemma PutKeepsSide(index: Index, slots: map<Id, Slot>, key: Id, e: Entry)
    requires AllSorted(index) && Exact(index, slots) && e.id !in slots
    ensures AllSorted(Put(index, key, e)) && Exact(Put(index, key, e), slots[e.id := Slot(key, e.at)])
  {
    PutKeepsExact(index, slots, key, e);
    PutSorted(index, key, e);
  }

  lemma AddKeepsOwners(s: Indexed, v: Visit)
    requires OwnersKnown(s) && v.id !in s.tables.visits
    ensures OwnersKnown(AddOutcome(s, v))
    ensures OwnersAgree(s) ==> OwnersAgree(AddOutcome(s, v))
    ensures AddOutcome(s, v).visitsToLocations.Keys == s.visitsToLocations.Keys + {v.id}
  {
  }

  lemma AddKeepsLocations(s: Indexed, v: Visit)
    requires OwnersKnown(s) && LocationsValid(s) && v.id !in s.tables.visits
    ensures LocationsValid(AddOutcome(s, v))
  {
    var mapped := s.visitsToLocations.Keys;
    AddKeepsOwners(s, v);
    SlotsAfterPut(s.tables.visits, mapped, v);
    PutKeepsSide(s.locationsToVisits, LocationSlots(s.tables.visits, mapped), v.locationId, EntryOf(v));
  }

  lemma AddKeepsUsers(s: Indexed, v: Visit)
    requires OwnersKnown(s) && UsersValid(s) && v.id !in s.tables.visits
    ensures UsersValid(AddOutcome(s, v))
  {
    var mapped := s.visitsToLocations.Keys;
    AddKeepsOwners(s, v);
    SlotsAfterPut(s.tables.visits, mapped, v);
    PutKeepsSide(s.usersToVisits, UserSlots(s.tables.visits, mapped), v.userId, EntryOf(v));
  }

  lemma AddKeepsKeyed(s: Indexed, v: Visit)
    requires Keyed(s.tables)
    ensures Keyed(AddOutcome(s, v).tables)
  {
  }

  lemma AddKeepsValid(s: Indexed, v: Visit)
    requires Valid(s)
    ensures Valid(AddOutcome(s, v))
  {
    AddKeepsKeyed(s, v);
    if v.id !in s.tables.visits {
      AddKeepsOwners(s, v);
      AddKeepsLocations(s, v);
      AddKeepsUsers(s, v);
    }
  }

  /** Mapping a visit of the table: its owners are recorded and it is filed in both indexes. */
  function WithMapped(s: Indexed, id: Id): Indexed
    requires id in s.tables.visits
  {
    var v := s.tables.visits[id];
    s.(visitsToLocations := s.visitsToLocations[id := v.locationId],
       visitsToUser := s.visitsToUser[id := v.userId],
       usersToVisits := Put(s.usersToVisits, v.userId, Entry(v.visitedAt, id)),
       locationsToVisits := Put(s.locationsToVisits, v.locationId, Entry(v.visitedAt, id)))
  }

  lemma MappingKeepsLocations(s: Indexed, id: Id)
    requires Keyed(s.tables) && OwnersAgree(s) && LocationsValid(s)
        && id in s.tables.visits && id !in s.visitsToLocations
    ensures LocationsValid(WithMapped(s, id))
  {
    var v := s.tables.visits[id];
    assert s.tables.visits[id := v] == s.tables.visits;
    SlotsAfterPut(s.tables.visits, s.visitsToLocations.Keys, v);
    assert WithMapped(s, id).visitsToLocations.Keys == s.visitsToLocations.Keys + {id};
    PutKeepsSide(s.locationsToVisits, LocationSlots(s.tables.visits, s.visitsToLocations.Keys),
        v.locationId, EntryOf(v));
  }

  lemma MappingKeepsUsers(s: Indexed, id: Id)
    requires Keyed(s.tables) && OwnersAgree(s) && UsersValid(s) && id in s.tables.visits && id !in s.visitsToLocations
    ensures UsersValid(WithMapped(s, id))
  {
    var v := s.tables.visits[id];
    assert s.tables.visits[id := v] == s.tables.visits;
    SlotsAfterPut(s.tables.visits, s.visitsToLocations.Keys, v);
    assert WithMapped(s, id).visitsToLocations.Keys == s.visitsToLocations.Keys + {id};
    PutKeepsSide(s.usersToVisits, UserSlots(s.tables.visits, s.visitsToLocations.Keys), v.userId, EntryOf(v));
  }

  lemma MappingKeepsOwners(s: Indexed, id: Id)
    requires OwnersAgree(s) && id in s.tables.visits
    ensures OwnersAgree(WithMapped(s, id))
    ensures WithMapped(s, id).visitsToLocations.Keys == s.visitsToLocations.Keys + {id}
  {
  }

  lemma MappingKeepsValid(s: Indexed, id: Id)
    requires Valid(s) && id in s.tables.visits && id !in s.visitsToLocations
    ensures Valid(WithMapped(s, id))
    ensures WithMapped(s, id).visitsToLocations.Keys == s.visitsToLocations.Keys + {id}
  {
    MappingKeepsOwners(s, id);
    MappingKeepsLocations(s, id);
    MappingKeepsUsers(s, id);
  }

  /** The visits outside `rest` whose references exist are mapped, and no others. */
  ghost predicate MappedOutside(s: Indexed, rest: set<Id>) {
    Valid(s) && s.visitsToLocations.Keys == MappedIds(s.tables) - rest
  }

  lemma MapNext(s: Indexed, rest: set<Id>, id: Id)
    requires MappedOutside(s, rest) && id in rest && id in s.tables.visits
    ensures MappedOutside(if Mapped(s.tables, id) then WithMapped(s, id) else s, rest - {id})
  {
    if Mapped(s.tables, id) {
      MappingKeepsValid(s, id);
      assert MappedIds(s.tables) - (rest - {id}) == MappedIds(s.tables) - rest + {id};
    }
  }

  /** Rehoming moves exactly one entry: it takes the visit from its slot to the new one. */
  lemma RehomedKeepsExact(index: Index, slots: map<Id, Slot>, id: Id, slot: Slot)
    requires AllSorted(index) && Exact(index, slots) && id in slots
    ensures var moved := Rehomed(index, slots[id].key, Entry(slots[id].at, id), slot.key, Entry(slot.at, id));
            moved.Some? && AllSorted(moved.value) && Exact(moved.value, slots[id := slot])
  {
    HasBucket(index, slots, id);
    MoveKeepsExact(index, slots, id, slot);
    CutSorted(index, slots[id].key, Entry(slots[id].at, id));
    PutSorted(Cut(index, slots[id].key, Entry(slots[id].at, id)), slot.key, Entry(slot.at, id));
  }

  /** The visit in the table after the patch. */
  function Patched(s: Indexed, p: Visit): Visit
    requires p.id in s.tables.visits
  {
    MergeVisit(s.tables.visits[p.id], p)
  }

  /** The state an update leads to when no guard stops it. */
  function Updated(s: Indexed, p: Visit, usersToVisits: Index, locationsToVisits: Index): Indexed
    requires p.id in s.tables.visits
  {
    var now := Patched(s, p);
    Indexed(s.tables.(visits := s.tables.visits[p.id := now]),
            s.visitsToLocations[p.id := now.locationId], s.visitsToUser[p.id := now.userId],
            usersToVisits, locationsToVisits)
  }

  lemma UpdateKeepsOwners(s: Indexed, p: Visit, usersToVisits: Index, locationsToVisits: Index)
    requires OwnersKnown(s) && p.id in s.visitsToLocations
    ensures OwnersAgree(s) ==> OwnersAgree(Updated(s, p, usersToVisits, locationsToVisits))
    ensures OwnersKnown(Updated(s, p, usersToVisits, locationsToVisits))
    ensures Updated(s, p, usersToVisits, locationsToVisits).visitsToLocations.Keys == s.visitsToLocations.Keys
  {
  }

  lemma UpdateMovesLocation(s: Indexed, p: Visit, usersToVisits: Index)
    requires Keyed(s.tables) && OwnersKnown(s) && LocationsValid(s) && p.id in s.visitsToLocations
    ensures var moved := LocationSide(s.locationsToVisits, s.tables.visits[p.id], Patched(s, p));
            moved.Some? && LocationsValid(Updated(s, p, usersToVisits, moved.value))
  {
    var now, mapped := Patched(s, p), s.visitsToLocations.Keys;
    assert mapped + {p.id} == mapped;
    SlotsAfterPut(s.tables.visits, mapped, now);
    RehomedKeepsExact(s.locationsToVisits, LocationSlots(s.tables.visits, mapped),
        p.id, Slot(now.locationId, now.visitedAt));
    UpdateKeepsOwners(s, p, usersToVisits, s.locationsToVisits);
  }

  lemma UpdateMovesUser(s: Indexed, p: Visit, locationsToVisits: Index)
    requires Keyed(s.tables) && OwnersKnown(s) && UsersValid(s) && p.id in s.visitsToLocations
    ensures var moved := UserSide(Intended, s.usersToVisits, s.tables.visits[p.id], Patched(s, p));
            moved.Some? && UsersValid(Updated(s, p, moved.value, locationsToVisits))
  {
    var now, mapped := Patched(s, p), s.visitsToLocations.Keys;
    assert mapped + {p.id} == mapped;
    SlotsAfterPut(s.tables.visits, mapped, now);
    RehomedKeepsExact(s.usersToVisits, UserSlots(s.tables.visits, mapped), p.id, Slot(now.userId, now.visitedAt));
    UpdateKeepsOwners(s, p, s.usersToVisits, locationsToVisits);
  }

  /** As meant, an update of a mapped visit passes every guard, moves the visit in both
      indexes and leaves everything in agreement; it answers as the tables say. */
  lemma UpdateKeepsValid(s: Indexed, p: Visit)
    requires Valid(s) && p.id in s.visitsToLocations
    ensures var (after, status) := UpdateOutcome(Intended, s, p);
            && status == EntitySuccessfullyUpdated
            && after.tables == TablesAfter(s.tables, Op.UpdateVisit(p))
            && after.visitsToLocations.Keys == s.visitsToLocations.Keys
            && Valid(after)
  {
    var users := UserSide(Intended, s.usersToVisits, s.tables.visits[p.id], Patched(s, p));
    var locations := LocationSide(s.locationsToVisits, s.tables.visits[p.id], Patched(s, p));
    UpdateMovesLocation(s, p, if users.Some? then users.value else map[]);
    UpdateMovesUser(s, p, locations.value);
    UpdateKeepsOwners(s, p, users.value, locations.value);
    StepKeepsKeyed(s.tables, Op.UpdateVisit(p));
    assert UpdateOutcome(Intended, s, p).0 == Updated(s, p, users.value, locations.value);
  }

  /** An update of a visit that is not mapped is refused and changes nothing. */
  lemma UnmappedIsRefused(variant: Variant, s: Indexed, p: Visit)
    requires p.id !in s.visitsToLocations
    ensures UpdateOutcome(variant, s, p) == (s, EntityNotFound)
  {
  }

  lemma AddFollowsTables(s: Indexed, v: Visit)
    requires OwnersKnown(s)
    ensures AddOutcome(s, v).tables == TablesAfter(s.tables, Op.AddVisit(v))
    ensures AddOutcome(s, v).visitsToLocations.Keys
         == s.visitsToLocations.Keys + if v.id !in s.tables.visits then {v.id} else {}
  {
    if v.id !in s.tables.visits {
      AddKeepsOwners(s, v);
    }
  }

  /** Operations on users and locations leave the visits alone. */
  lemma OtherTables(t: Tables, op: Op)
    requires Keyed(t) && !op.AddVisit? && !op.UpdateVisit?
    ensures Keyed(TablesAfter(t, op)) && TablesAfter(t, op).visits == t.visits
  {
    StepKeepsKeyed(t, op);
  }

  lemma TablesKeepValid(s: Indexed, tables: Tables)
    requires Valid(s) && Keyed(tables) && tables.visits == s.tables.visits
    ensures Valid(s.(tables := tables))
  {
  }

  lemma TablesKeepStanding(s: Indexed, tables: Tables)
    requires Standing(s) && Keyed(tables) && tables.visits == s.tables.visits
    ensures Standing(s.(tables := tables))
  {
  }

  /** As meant, one operation keeps the store valid; it answers and changes the tables as the
      tables alone would have it, except that it refuses to update an unmapped visit. */
  lemma StepKeepsValid(s: Indexed, op: Op)
    requires Valid(s)
    ensures var (after, status) := Step(Intended, s, op);
            && Valid(after)
            && (if op.UpdateVisit? && op.visit.id !in s.visitsToLocations
                then after == s && status == EntityNotFound
                else after.tables == TablesAfter(s.tables, op) && status == StatusOf(s.tables, op))
            && after.visitsToLocations.Keys == s.visitsToLocations.Keys
                 + (if op.AddVisit? && op.visit.id !in s.tables.visits then {op.visit.id} else {})
  {
    match op
    case AddVisit(v) =>
      AddKeepsValid(s, v);
      AddFollowsTables(s, v);
    case UpdateVisit(p) =>
      if p.id in s.visitsToLocations {
        UpdateKeepsValid(s, p);
      } else {
        UnmappedIsRefused(Intended, s, p);
      }
    case _ =>
      OtherTables(s.tables, op);
      TablesKeepValid(s, TablesAfter(s.tables, op));
  }

  /** Over every run from a load, whether its data is closed or not, the store stays valid. */
  lemma {:induction false} RunKeepsValid(s: Indexed, ops: seq<Op>)
    requires Valid(s)
    ensures Valid(Run(Intended, s, ops).0)
    decreases |ops|
  {
    if ops != [] {
      StepKeepsValid(s, ops[0]);
      RunKeepsValid(Step(Intended, s, ops[0]).0, ops[1..]);
    }
  }

  // ---- what stands in either variant

  lemma ValidStands(s: Indexed)
    requires Valid(s)
    ensures Standing(s)
  {
    var slots := UserSlots(s.tables.visits, s.visitsToLocations.Keys);
    forall key, e | Count(s.usersToVisits, key, e) > 0 ensures e.id in s.tables.visits {
      assert e.id in slots;
    }
  }

  lemma PutNames(index: Index, ids: set<Id>, key: Id, e: Entry)
    requires AllSorted(index) && Names(index, ids) && e.id in ids
    ensures AllSorted(Put(index, key, e)) && Names(Put(index, key, e), ids)
  {
    PutCount(index, key, e);
    PutSorted(index, key, e);
  }

  /** Whatever the user side of an update does, it keeps the buckets sorted and names no
      visit that is not there. */
  lemma UserSideNames(variant: Variant, index: Index, ids: set<Id>, was: Visit, now: Visit)
    requires AllSorted(index) && Names(index, ids) && now.id in ids
    ensures var moved := UserSide(variant, index, was, now);
            moved.Some? ==> AllSorted(moved.value) && Names(moved.value, ids)
  {
    var from := was.userId;
    if variant == Intended {
      if from in index {
        CutCount(index, from, EntryOf(was));
        CutSorted(index, from, EntryOf(was));
        PutNames(Cut(index, from, EntryOf(was)), ids, now.userId, EntryOf(now));
      }
    } else if now.userId != from && from in index && FoundAt(index[from], was.visitedAt).Some? {
      var n := FoundAt(index[from], was.visitedAt).value;
      DropCount(index, from, n);
      DropSorted(index, from, n);
      PutNames(Dropped(index, from, n), ids, now.userId, EntryOf(now));
    }
  }

  lemma AddKeepsStanding(s: Indexed, v: Visit)
    requires Standing(s)
    ensures Standing(AddOutcome(s, v))
  {
    if v.id !in s.tables.visits {
      AddKeepsOwners(s, v);
      AddKeepsLocations(s, v);
      AddFollowsTables(s, v);
      AddKeepsKeyed(s, v);
      AddNames(s.usersToVisits, s.tables.visits.Keys, v);
    }
  }

  lemma AddNames(index: Index, ids: set<Id>, v: Visit)
    requires AllSorted(index) && Names(index, ids)
    ensures AllSorted(Put(index, v.userId, EntryOf(v))) && Names(Put(index, v.userId, EntryOf(v)), ids + {v.id})
  {
    PutNames(index, ids + {v.id}, v.userId, EntryOf(v));
  }

  /** The owner maps as an update that is refused late leaves them. */
  function Marked(s: Indexed, p: Visit): Indexed
    requires p.id in s.tables.visits
  {
    s.(visitsToLocations := s.visitsToLocations[p.id := Patched(s, p).locationId],
       visitsToUser := s.visitsToUser[p.id := Patched(s, p).userId])
  }

  /** The outcome in terms of the two sides. */
  lemma OutcomeOfSides(variant: Variant, s: Indexed, p: Visit, users: Option<Index>, locations: Option<Index>)
    requires p.id in s.tables.visits && p.id in s.visitsToLocations && p.id in s.visitsToUser
    requires users == UserSide(variant, s.usersToVisits, s.tables.visits[p.id], Patched(s, p))
    requires locations == LocationSide(s.locationsToVisits, s.tables.visits[p.id], Patched(s, p))
    ensures users == None ==> UpdateOutcome(variant, s, p) == (Marked(s, p), EntityNotFound)
    ensures users.Some? && locations.Some? ==>
              UpdateOutcome(variant, s, p) == (Updated(s, p, users.value, locations.value), EntitySuccessfullyUpdated)
  {
  }

  /** The location side never refuses: an update of a mapped visit ends after the user side. */
  lemma OutcomeIs(variant: Variant, s: Indexed, p: Visit)
    requires Keyed(s.tables) && OwnersKnown(s) && LocationsValid(s) && p.id in s.visitsToLocations
    ensures var users := UserSide(variant, s.usersToVisits, s.tables.visits[p.id], Patched(s, p));
            var locations := LocationSide(s.locationsToVisits, s.tables.visits[p.id], Patched(s, p));
            && locations.Some?
            && UpdateOutcome(variant, s, p) == if users == None then (Marked(s, p), EntityNotFound)
                                               else (Updated(s, p, users.value, locations.value),
                                                   EntitySuccessfullyUpdated)
  {
    UpdateMovesLocation(s, p, map[]);
  }

  /** The user side has nothing to take the visit from: as meant, the old user has no bucket; as
      written, the user changes and the old user has no entry at the visit's stored time. */
  predicate FindsNothing(variant: Variant, s: Indexed, p: Visit) {
    && p.id in s.tables.visits
    && var was := s.tables.visits[p.id];
       if variant == Intended then was.userId !in s.usersToVisits
       else Patched(s, p).userId != was.userId && FoundAt(Bucket(s.usersToVisits, was.userId), was.visitedAt) == None
  }

  /** An update is refused exactly if the visit is not mapped or nothing is found. */
  lemma RefusedIff(variant: Variant, s: Indexed, p: Visit)
    requires Keyed(s.tables) && OwnersKnown(s) && LocationsValid(s)
    ensures UpdateOutcome(variant, s, p).1 == EntityNotFound
      <==> p.id !in s.visitsToLocations || FindsNothing(variant, s, p)
  {
    if p.id in s.visitsToLocations {
      OutcomeIs(variant, s, p);
    }
  }

  predicate StepFindsNothing(variant: Variant, s: Indexed, op: Op) {
    op.UpdateVisit? && op.visit.id in s.visitsToLocations && FindsNothing(variant, s, op.visit)
  }

  /** Some update of the run finds nothing for its mapped visit. */
  predicate RunFindsNothing(variant: Variant, s: Indexed, ops: seq<Op>)
    decreases |ops|
  {
    && ops != []
    && (StepFindsNothing(variant, s, ops[0]) || RunFindsNothing(variant, Step(variant, s, ops[0]).0, ops[1..]))
  }

  /** As meant, a valid store always finds what it looks for. */
  lemma {:induction false} MeantFindsAll(s: Indexed, ops: seq<Op>)
    requires Valid(s)
    ensures !RunFindsNothing(Intended, s, ops)
    decreases |ops|
  {
    if ops != [] {
      StepKeepsValid(s, ops[0]);
      MeantFindsAll(Step(Intended, s, ops[0]).0, ops[1..]);
      if ops[0].UpdateVisit? && ops[0].visit.id in s.visitsToLocations {
        UpdateMovesUser(s, ops[0].visit, map[]);
      }
    }
  }

  lemma MarkedStands(s: Indexed, p: Visit)
    requires Standing(s) && p.id in s.visitsToLocations
    ensures Standing(Marked(s, p))
  {
    assert Marked(s, p).visitsToLocations.Keys == s.visitsToLocations.Keys;
  }

  lemma UpdatedStands(s: Indexed, p: Visit, users: Index, locations: Index)
    requires Standing(s) && p.id in s.visitsToLocations
    requires LocationSide(s.locationsToVisits, s.tables.visits[p.id], Patched(s, p)) == Some(locations)
    requires AllSorted(users) && Names(users, s.tables.visits.Keys)
    ensures Standing(Updated(s, p, users, locations))
  {
    UpdateMovesLocation(s, p, users);
    UpdateKeepsOwners(s, p, users, locations);
    StepKeepsKeyed(s.tables, Op.UpdateVisit(p));
    assert Updated(s, p, users, locations).tables == TablesAfter(s.tables, Op.UpdateVisit(p));
    assert Updated(s, p, users, locations).tables.visits.Keys == s.tables.visits.Keys;
  }

  lemma UpdateKeepsStanding(variant: Variant, s: Indexed, p: Visit)
    requires Standing(s)
    ensures Standing(UpdateOutcome(variant, s, p).0)
  {
    if p.id in s.visitsToLocations {
      OutcomeIs(variant, s, p);
      var users := UserSide(variant, s.usersToVisits, s.tables.visits[p.id], Patched(s, p));
      UserSideNames(variant, s.usersToVisits, s.tables.visits.Keys, s.tables.visits[p.id], Patched(s, p));
      if users == None {
        MarkedStands(s, p);
      } else {
        var locations := LocationSide(s.locationsToVisits, s.tables.visits[p.id], Patched(s, p));
        UpdatedStands(s, p, users.value, locations.value);
      }
    }
  }

  /** In either variant one operation keeps the location side valid, whatever the user side
      has come to. */
  lemma StepKeepsStanding(variant: Variant, s: Indexed, op: Op)
    requires Standing(s)
    ensures Standing(Step(variant, s, op).0)
  {
    match op
    case AddVisit(v) => AddKeepsStanding(s, v);
    case UpdateVisit(p) => UpdateKeepsStanding(variant, s, p);
    case _ =>
      OtherTables(s.tables, op);
      TablesKeepStanding(s, TablesAfter(s.tables, op));
  }

  /** ... and so does every run. */
  lemma {:induction false} RunKeepsStanding(variant: Variant, s: Indexed, ops: seq<Op>)
    requires Standing(s)
    ensures Standing(Run(variant, s, ops).0)
    decreases |ops|
  {
    if ops != [] {
      StepKeepsStanding(variant, s, ops[0]);
      RunKeepsStanding(variant, Step(variant, s, ops[0]).0, ops[1..]);
    }
  }
}
