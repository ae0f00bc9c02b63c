/** The update of the indexed store as written: what it always does, when its user index
    survives, and a run in which the owner maps end up contradicting the table. */
module IndexedAsWritten {
  import opened Entities
  import opened Multimap
  import opened TimeIndex
  import opened IndexedState

  /** The update leaves the user index wrong: the time changes and the user does not, or the
      user changes and another visit of the old user comes first at the old time. */
  predicate GoesStale(s: Indexed, p: Visit) {
    && p.id in s.tables.visits && p.id in s.visitsToLocations
    && var was, now := s.tables.visits[p.id], Patched(s, p);
       if now.userId == was.userId then now.visitedAt != was.visitedAt
       else FindsOther(Bucket(s.usersToVisits, was.userId), EntryOf(was))
  }

  /** The entry found at the time of `e` belongs to another visit. */
  predicate FindsOther(s: seq<Entry>, e: Entry) {
    FoundAt(s, e.at).Some? && s[FoundAt(s, e.at).value].id != e.id
  }

  /** A sorted bucket that holds an entry of a time has one found at that time. */
  lemma FindFinds(s: seq<Entry>, e: Entry)
    requires Sorted(s) && e in s
    ensures FoundAt(s, e.at).Some?
  {
    var i :| 0 <= i < |s| && s[i] == e;
    var n := LowerBound(s, e.at);
    assert n <= i;
    assert s[n].at <= s[i].at;
  }

  /** Dropping the found entry, if it is the visit's own, does what cutting it out does. */
  lemma DropLeavesExact(index: Index, slots: map<Id, Slot>, id: Id, n: nat)
    requires TimeIndex.Exact(index, slots) && id in slots && slots[id].key in index && n < |index[slots[id].key]|
    requires index[slots[id].key][n] == Entry(slots[id].at, id)
    ensures TimeIndex.Exact(Dropped(index, slots[id].key, n), slots - {id})
  {
    DropCount(index, slots[id].key, n);
  }

  /** In an exact index the visit's bucket is there and some entry of its time is found. */
  lemma EntryIsFound(index: Index, slots: map<Id, Slot>, id: Id)
    requires AllSorted(index) && TimeIndex.Exact(index, slots) && id in slots
    ensures slots[id].key in index && FoundAt(index[slots[id].key], slots[id].at).Some?
  {
    HasBucket(index, slots, id);
    FindFinds(index[slots[id].key], Entry(slots[id].at, id));
  }

  /** Moving the visit after dropping its own entry keeps the index exact. */
  lemma OwnEntryFound(index: Index, slots: map<Id, Slot>, id: Id, n: nat, slot: Slot)
    requires TimeIndex.Exact(index, slots) && id in slots && slots[id].key in index && n < |index[slots[id].key]|
    requires index[slots[id].key][n] == Entry(slots[id].at, id)
    ensures TimeIndex.Exact(Put(Dropped(index, slots[id].key, n), slot.key, Entry(slot.at, id)), slots[id := slot])
  {
    DropLeavesExact(index, slots, id, n);
    PutKeepsExact(Dropped(index, slots[id].key, n), slots - {id}, slot.key, Entry(slot.at, id));
    assert (slots - {id})[id := slot] == slots[id := slot];
  }

  /** Dropping another visit's entry leaves the visit's own entry behind. */
  lemma OtherEntryFound(index: Index, slots: map<Id, Slot>, id: Id, n: nat, slot: Slot)
    requires TimeIndex.Exact(index, slots) && id in slots && slots[id].key in index && n < |index[slots[id].key]|
    requires index[slots[id].key][n].id != id && slot.key != slots[id].key
    ensures !TimeIndex.Exact(Put(Dropped(index, slots[id].key, n), slot.key, Entry(slot.at, id)), slots[id := slot])
  {
    var key, e := slots[id].key, Entry(slots[id].at, id);
    var left := Dropped(index, key, n);
    DropCount(index, key, n);
    PutCount(left, slot.key, Entry(slot.at, id));
    assert Count(index, key, e) == 1;
    assert Count(Put(left, slot.key, Entry(slot.at, id)), key, e) >= 1;
  }

  /** When the user changes, the index stays exact exactly when the visit's own entry is found. */
  lemma UserChanges(index: Index, slots: map<Id, Slot>, id: Id, slot: Slot)
    requires AllSorted(index) && TimeIndex.Exact(index, slots) && id in slots && slot.key != slots[id].key
    ensures var moved := RehomedAsWritten(index, slots[id].key, Entry(slots[id].at, id), slot.key, Entry(slot.at, id));
            && moved.Some? && AllSorted(moved.value)
            && (TimeIndex.Exact(moved.value, slots[id := slot])
                <==> !FindsOther(Bucket(index, slots[id].key), Entry(slots[id].at, id)))
  {
    var key := slots[id].key;
    EntryIsFound(index, slots, id);
    var n := FoundAt(index[key], slots[id].at).value;
    DropSorted(index, key, n);
    PutSorted(Dropped(index, key, n), slot.key, Entry(slot.at, id));
    if index[key][n].id == id {
      OwnEntryFound(index, slots, id, n, slot);
    } else {
      OtherEntryFound(index, slots, id, n, slot);
    }
  }

  /** Without a move, the index stays exact exactly when the time does not change. */
  lemma KeyChanges(index: Index, slots: map<Id, Slot>, id: Id, at: Timestamp)
    requires TimeIndex.Exact(index, slots) && id in slots
    ensures TimeIndex.Exact(index, slots[id := Slot(slots[id].key, at)]) <==> at == slots[id].at
  {
    if at == slots[id].at {
      assert slots[id := slots[id]] == slots;
    } else {
      assert Count(index, slots[id].key, Entry(at, id)) == 0;
      assert slots[id := Slot(slots[id].key, at)][id] == Slot(slots[id].key, at);
    }
  }

  lemma UserSideAsWritten(s: Indexed, p: Visit, locationsToVisits: Index)
    requires Keyed(s.tables) && OwnersKnown(s) && UsersValid(s) && p.id in s.visitsToLocations
    ensures var moved := UserSide(AsWritten, s.usersToVisits, s.tables.visits[p.id], Patched(s, p));
            && moved.Some? && AllSorted(moved.value)
            && (UsersValid(Updated(s, p, moved.value, locationsToVisits)) <==> !GoesStale(s, p))
  {
    var was, now, mapped := s.tables.visits[p.id], Patched(s, p), s.visitsToLocations.Keys;
    var slots := UserSlots(s.tables.visits, mapped);
    assert mapped + {p.id} == mapped;
    SlotsAfterPut(s.tables.visits, mapped, now);
    UpdateKeepsOwners(s, p, s.usersToVisits, locationsToVisits);
    if now.userId == was.userId {
      KeyChanges(s.usersToVisits, slots, p.id, now.visitedAt);
    } else {
      UserChanges(s.usersToVisits, slots, p.id, Slot(now.userId, now.visitedAt));
    }
  }

  // ---- refusals

  /** From a valid user index no guard stops the update of a mapped visit. */
  lemma NothingIsRefused(s: Indexed, p: Visit)
    requires Keyed(s.tables) && OwnersKnown(s) && LocationsValid(s) && UsersValid(s) && p.id in s.visitsToLocations
    ensures !FindsNothing(AsWritten, s, p) && UpdateOutcome(AsWritten, s, p).1 == EntitySuccessfullyUpdated
  {
    OutcomeIs(AsWritten, s, p);
    UserSideAsWritten(s, p, map[]);
  }

  /** A refused update of a mapped visit has told the owner maps of the new owners, and the table
      not: they then contradict each other. */
  lemma RefusedUpdateContradicts(s: Indexed, p: Visit)
    requires Keyed(s.tables) && OwnersKnown(s) && LocationsValid(s)
    requires p.id in s.visitsToLocations && FindsNothing(AsWritten, s, p)
    ensures UpdateOutcome(AsWritten, s, p) == (Marked(s, p), EntityNotFound)
    ensures !OwnersAgree(Marked(s, p))
  {
    OutcomeIs(AsWritten, s, p);
    assert p.id in Marked(s, p).visitsToUser;
  }

  predicate IsRefusal(status: Status) { status == EntityNotFound || status == EntityAlreadyExist }

  /** The owner maps already hold the owners that the patch leads to. */
  predicate OwnersHold(s: Indexed, p: Visit) {
    && p.id in s.tables.visits && p.id in s.visitsToLocations && p.id in s.visitsToUser
    && s.visitsToLocations[p.id] == Patched(s, p).locationId && s.visitsToUser[p.id] == Patched(s, p).userId
  }

  /** As written, a refused operation changes nothing exactly if it is not an update of a mapped
      visit, or the owner maps already hold the new owners. When the owner maps agree with the
      table, the second never happens. */
  lemma RefusalAsWritten(s: Indexed, op: Op)
    requires Keyed(s.tables) && OwnersKnown(s) && LocationsValid(s)
    requires IsRefusal(Step(AsWritten, s, op).1)
    ensures var updatesMapped := op.UpdateVisit? && op.visit.id in s.visitsToLocations;
            && (Step(AsWritten, s, op).0 == s <==> (updatesMapped ==> OwnersHold(s, op.visit)))
            && (OwnersAgree(s) ==> (Step(AsWritten, s, op).0 == s <==> !updatesMapped))
  {
    if op.UpdateVisit? {
      RefusedIff(AsWritten, s, op.visit);
      if op.visit.id in s.visitsToLocations {
        RefusedUpdateContradicts(s, op.visit);
        MarkingChanges(s, op.visit);
      }
    }
  }

  lemma MarkingChanges(s: Indexed, p: Visit)
    requires OwnersKnown(s) && p.id in s.visitsToLocations
    ensures Marked(s, p) == s <==> OwnersHold(s, p)
  {
    assert p.id in s.visitsToUser.Keys;
    var after := Marked(s, p);
    assert after.visitsToLocations[p.id] == Patched(s, p).locationId
        && after.visitsToUser[p.id] == Patched(s, p).userId;
    if OwnersHold(s, p) {
      assert after.visitsToLocations == s.visitsToLocations && after.visitsToUser == s.visitsToUser;
    }
  }

  // ---- one update

  /** The owner maps agree with the table but perhaps for one visit. */
  ghost predicate OwnersAgreeBut(s: Indexed, other: Id) {
    && OwnersKnown(s)
    && (forall id :: id in s.visitsToLocations && id != other ==>
        s.visitsToLocations[id] == s.tables.visits[id].locationId)
    && (forall id :: id in s.visitsToUser && id != other ==> s.visitsToUser[id] == s.tables.visits[id].userId)
  }

  lemma OwnersOfUpdated(s: Indexed, p: Visit, users: Index, locations: Index)
    requires OwnersKnown(s) && p.id in s.visitsToLocations
    ensures OwnersAgree(Updated(s, p, users, locations)) <==> OwnersAgreeBut(s, p.id)
  {
    var after := Updated(s, p, users, locations);
    assert after.visitsToLocations.Keys == s.visitsToLocations.Keys && after.visitsToUser.Keys == s.visitsToUser.Keys;
    if OwnersAgree(after) {
      forall id | id in s.visitsToLocations && id != p.id
        ensures s.visitsToLocations[id] == s.tables.visits[id].locationId
            && s.visitsToUser[id] == s.tables.visits[id].userId
      {
        assert id in after.visitsToLocations && id in after.visitsToUser;
      }
    }
  }

  /** The update as written, from any state in which the location side stands, the states it has
      spoiled before included. If something is found, it updates the table and the location
      index, and the owner maps then agree if the other visits' owners do. If not, it is refused
      and the owner maps contradict the table. */
  lemma UpdateAsWritten(s: Indexed, p: Visit)
    requires Standing(s) && p.id in s.visitsToLocations
    ensures var (after, status) := UpdateOutcome(AsWritten, s, p);
            && Standing(after)
            && (status == EntityNotFound <==> FindsNothing(AsWritten, s, p))
            && (FindsNothing(AsWritten, s, p) ==> after == Marked(s, p) && !OwnersAgree(after))
            && (!FindsNothing(AsWritten, s, p) ==>
                  && status == EntitySuccessfullyUpdated
                  && after.tables == TablesAfter(s.tables, Op.UpdateVisit(p))
                  && (OwnersAgree(after) <==> OwnersAgreeBut(s, p.id)))
  {
    UpdateKeepsStanding(AsWritten, s, p);
    OutcomeIs(AsWritten, s, p);
    RefusedIff(AsWritten, s, p);
    if FindsNothing(AsWritten, s, p) {
      RefusedUpdateContradicts(s, p);
    } else {
      var after := UpdateOutcome(AsWritten, s, p).0;
      OwnersOfUpdated(s, p, after.usersToVisits, after.locationsToVisits);
    }
  }

  /** From a valid user index, whatever the owner maps say, the update as written leaves a valid
      one exactly when it does not go stale. */
  lemma UserIndexAfterUpdate(s: Indexed, p: Visit)
    requires Standing(s) && UsersValid(s) && p.id in s.visitsToLocations
    ensures UsersValid(UpdateOutcome(AsWritten, s, p).0) <==> !GoesStale(s, p)
  {
    OutcomeIs(AsWritten, s, p);
    UserSideAsWritten(s, p, LocationSide(s.locationsToVisits, s.tables.visits[p.id], Patched(s, p)).value);
  }

  // ---- runs

  predicate StepGoesStale(s: Indexed, op: Op) {
    op.UpdateVisit? && GoesStale(s, op.visit)
  }

  /** From a valid state one operation as written leads to a valid state exactly when it does
      not go stale. */
  lemma StepAsWritten(s: Indexed, op: Op)
    requires Valid(s)
    ensures Valid(Step(AsWritten, s, op).0) <==> !StepGoesStale(s, op)
  {
    ValidStands(s);
    if op.UpdateVisit? {
      if op.visit.id in s.visitsToLocations {
        NothingIsRefused(s, op.visit);
        UpdateAsWritten(s, op.visit);
        UserIndexAfterUpdate(s, op.visit);
      }
    } else {
      StepKeepsValid(s, op);
      assert Step(AsWritten, s, op) == Step(Intended, s, op);
    }
  }

  /** Some operation of the run goes stale. */
  predicate RunGoesStale(s: Indexed, ops: seq<Op>)
    decreases |ops|
  {
    ops != [] && (StepGoesStale(s, ops[0]) || RunGoesStale(Step(AsWritten, s, ops[0]).0, ops[1..]))
  }

  /** As written, a run in which no operation goes stale keeps the store valid. */
  lemma {:induction false} RunAsWritten(s: Indexed, ops: seq<Op>)
    requires Valid(s) && !RunGoesStale(s, ops)
    ensures Valid(Run(AsWritten, s, ops).0)
    decreases |ops|
  {
    if ops != [] {
      StepAsWritten(s, ops[0]);
      RunAsWritten(Step(AsWritten, s, ops[0]).0, ops[1..]);
    }
  }

  /** As written, a run in which no operation goes stale finds all it looks for. */
  lemma {:induction false} FreshRunFindsAll(s: Indexed, ops: seq<Op>)
    requires Valid(s) && !RunGoesStale(s, ops)
    ensures !RunFindsNothing(AsWritten, s, ops)
    decreases |ops|
  {
    if ops != [] {
      StepAsWritten(s, ops[0]);
      FreshRunFindsAll(Step(AsWritten, s, ops[0]).0, ops[1..]);
      if ops[0].UpdateVisit? && ops[0].visit.id in s.visitsToLocations {
        NothingIsRefused(s, ops[0].visit);
      }
    }
  }

  /** The state after every operation of the run, the first one included. */
  ghost predicate ValidThroughout(s: Indexed, ops: seq<Op>)
    decreases |ops|
  {
    Valid(s) && (ops != [] ==> ValidThroughout(Step(AsWritten, s, ops[0]).0, ops[1..]))
  }

  /** As written, the store is valid all along a run exactly when no operation of it goes stale. */
  lemma {:induction false} ValidThroughoutIff(s: Indexed, ops: seq<Op>)
    requires Valid(s)
    ensures ValidThroughout(s, ops) <==> !RunGoesStale(s, ops)
    decreases |ops|
  {
    if ops != [] {
      StepAsWritten(s, ops[0]);
      if Valid(Step(AsWritten, s, ops[0]).0) {
        ValidThroughoutIff(Step(AsWritten, s, ops[0]).0, ops[1..]);
      }
    }
  }

  // ---- witnesses

  /** One visit, of user 1 at location 3, whose time is `at` but in the user index still 0. */
  function TimeMoved(at: Timestamp): Indexed {
    Indexed(Tables(map[1 := BlankUser(1), 2 := BlankUser(2)], map[3 := BlankLocation(3)],
        map[7 := Visit(7, 3, 1, at, 0)]),
            map[7 := 3], map[7 := 1], map[1 := [Entry(0, 7)]], map[3 := [Entry(at, 7)]])
  }

  function OneVisit(): Indexed { TimeMoved(0) }

  /** The tables of the visit before it is mapped. */
  function Unmapped(): Indexed { Indexed(OneVisit().tables, map[], map[], map[], map[]) }

  lemma OneVisitIsMapped()
    ensures WithMapped(Unmapped(), 7) == OneVisit()
  {
    assert Inserted([], Entry(0, 7)) == [Entry(0, 7)];
  }

  lemma OneVisitIsKeyed()
    ensures Keyed(OneVisit().tables) && Closed(OneVisit().tables) && MappedIds(OneVisit().tables) == {7}
  {
  }

  lemma OneVisitIsValid()
    ensures Loaded(OneVisit()) && Closed(OneVisit().tables)
  {
    OneVisitIsKeyed();
    OneVisitIsMapped();
    NothingMapped(Unmapped().tables);
    MappingKeepsValid(Unmapped(), 7);
  }

  function ChangeTime(at: Timestamp): Op { Op.UpdateVisit(BlankVisit(7).(visitedAt := at)) }

  function ChangeUser(user: Id): Op { Op.UpdateVisit(BlankVisit(7).(userId := user)) }

  /** Rehoming the only entry of an index. */
  lemma RehomedAlone(from: Id, was: Entry, to: Id, now: Entry)
    ensures Rehomed(map[from := [was]], from, was, to, now) == Some(map[from := [], to := [now]])
  {
    var cut: Index := map[from := []];
    assert Filter([was], Other(was.at, was.id)) == Filter([was][1..], Other(was.at, was.id)) == [];
    assert Cut(map[from := [was]], from, was) == cut;
    assert Bucket(cut, to) == [] && UpperBound([], now.at) == 0;
    assert Inserted([], now) == [now];
    assert Put(cut, to, now) == map[from := [], to := [now]];
  }

  lemma TimeChanges(from: Timestamp, to: Timestamp)
    requires to != TIMESTAMP_MAX
    ensures Step(AsWritten, TimeMoved(from), ChangeTime(to)) == (TimeMoved(to), EntitySuccessfullyUpdated)
    ensures StepGoesStale(TimeMoved(from), ChangeTime(to)) <==> from != to
  {
    var s, p := TimeMoved(from), ChangeTime(to).visit;
    RehomedAlone(3, Entry(from, 7), 3, Entry(to, 7));
    assert map[3 := [], 3 := [Entry(to, 7)]] == map[3 as Id := [Entry(to, 7)]];
    assert Patched(s, p) == Visit(7, 3, 1, to, 0);
    assert s.tables.visits[7 := Patched(s, p)] == TimeMoved(to).tables.visits;
    assert map[7 := 3][7 := 3] == map[7 := 3 as Id] && map[7 := 1][7 := 1] == map[7 := 1 as Id];
  }

  lemma NoEntryAtFive()
    ensures UserSide(AsWritten, TimeMoved(5).usersToVisits, Visit(7, 3, 1, 5, 0), Visit(7, 3, 2, 5, 0)) == None
  {
    assert LowerBound([Entry(0, 7)], 5) == 1;
  }

  lemma MarkedForTwo()
    ensures Patched(TimeMoved(5), ChangeUser(2).visit) == Visit(7, 3, 2, 5, 0)
    ensures Marked(TimeMoved(5), ChangeUser(2).visit) == TimeMoved(5).(visitsToUser := map[7 := 2])
  {
    assert map[7 := 1][7 := 2] == map[7 := 2 as Id] && map[7 := 3][7 := 3] == map[7 := 3 as Id];
  }

  /** An update of the user that does not find the visit's time is refused after the fact. */
  lemma UserNotFound()
    ensures Step(AsWritten, TimeMoved(5), ChangeUser(2)) == (TimeMoved(5).(visitsToUser := map[7 := 2]), EntityNotFound)
  {
    var s, p := TimeMoved(5), ChangeUser(2).visit;
    NoEntryAtFive();
    MarkedForTwo();
    OutcomeOfSides(AsWritten, s, p, None, LocationSide(s.locationsToVisits, s.tables.visits[7], Patched(s, p)));
  }

  lemma {:induction false} RunOfOne(variant: Variant, s: Indexed, op: Op)
    ensures Run(variant, s, [op]) == (Step(variant, s, op).0, [Step(variant, s, op).1])
  {
    var (next, status) := Step(variant, s, op);
    assert [op][1..] == [];
    assert Run(variant, next, []) == (next, []);
    assert [status] + [] == [status];
  }

  lemma {:induction false} RunOfTwo(variant: Variant, s: Indexed, first: Op, second: Op)
    ensures var (mid, status) := Step(variant, s, first);
            var (end, status') := Step(variant, mid, second);
            Run(variant, s, [first, second]) == (end, [status, status'])
  {
    var (mid, status) := Step(variant, s, first);
    RunOfOne(variant, mid, second);
    assert [first, second][1..] == [second];
    assert [status] + [Step(variant, mid, second).1] == [status, Step(variant, mid, second).1];
  }

  /** As written, the second update of the run is refused, after it has already told the owner
      map that the visit belongs to user 2; the table still says user 1. */
  lemma RefusedUpdateLeavesTraces()
    ensures Valid(OneVisit()) && Closed(OneVisit().tables)
    ensures Run(AsWritten, OneVisit(), [ChangeTime(5), ChangeUser(2)])
         == (TimeMoved(5).(visitsToUser := map[7 := 2]), [EntitySuccessfullyUpdated, EntityNotFound])
    ensures !OwnersAgree(TimeMoved(5).(visitsToUser := map[7 := 2]))
  {
    OneVisitIsValid();
    TimeChanges(0, 5);
    UserNotFound();
    RunOfTwo(AsWritten, OneVisit(), ChangeTime(5), ChangeUser(2));
    assert 7 in TimeMoved(5).(visitsToUser := map[7 := 2]).visitsToUser;
  }

  /** A run that goes stale may still end in a valid state, here the one it started in: no
      operation going stale is sufficient, but not necessary, for the end of a run alone. */
  lemma StaleRunMayRecover()
    ensures Valid(OneVisit()) && RunGoesStale(OneVisit(), [ChangeTime(5), ChangeTime(0)])
    ensures Run(AsWritten, OneVisit(), [ChangeTime(5), ChangeTime(0)]).0 == OneVisit()
  {
    OneVisitIsValid();
    TimeChanges(0, 5);
    TimeChanges(5, 0);
    RunOfTwo(AsWritten, OneVisit(), ChangeTime(5), ChangeTime(0));
  }
}
