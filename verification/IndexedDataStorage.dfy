/** The faster store: owner maps and time-keyed multimaps beside the tables. */
module IndexedStorage {
  import opened Entities
  import opened Multimap
  import opened TimeIndex
  import opened IndexedState
  import opened IndexedQueries
  import opened Queries
  import opened VisitTexts
  import opened Effects

  class IndexedDataStorage {
    const variant: Variant
    const calendar: Calendar
    var users: map<Id, User>
    var locations: map<Id, Location>
    var visits: map<Id, Visit>
    var visitsToLocations: map<Id, Id>
    var visitsToUser: map<Id, Id>
    var usersToVisits: Index
    var locationsToVisits: Index

    function State(): Indexed
      reads this
    {
      Indexed(Tables(users, locations, visits), visitsToLocations, visitsToUser, usersToVisits, locationsToVisits)
    }

    /** Loading files the parsed entities. The step that maps them is commented out in the code
        (IndexedDataStorage.cpp:57 and 196), so as written no visit is mapped; as meant it is
        the last step. */
    constructor LoadData(variant: Variant, calendar: Calendar, t: Tables)
      requires Keyed(t)
      ensures this.variant == variant && this.calendar == calendar
      ensures State().tables == t && IndexedState.Valid(State())
      ensures variant == Intended ==> Loaded(State())
      ensures variant == AsWritten ==> visitsToLocations == map[] && visitsToUser == map[]
    {
      this.variant, this.calendar := variant, calendar;
      users, locations, visits := t.users, t.locations, t.visits;
      visitsToLocations, visitsToUser := map[], map[];
      usersToVisits, locationsToVisits := map[], map[];
      new;
      NothingMapped(t);
      if variant == Intended {
        MapEntities();
      }
    }

    /** One round of the mapping: nothing happens to a visit with a missing reference. */
    method MapVisit(id: Id)
      requires id in visits
      modifies this`visitsToLocations, this`visitsToUser, this`usersToVisits, this`locationsToVisits
      ensures State() == if Mapped(old(State().tables), id) then WithMapped(old(State()), id) else old(State())
    {
      var visit := visits[id];
      if visit.locationId in locations && visit.userId in users {
        visitsToLocations := visitsToLocations[id := visit.locationId];
        locationsToVisits := Put(locationsToVisits, visit.locationId, Entry(visit.visitedAt, id));
        visitsToUser := visitsToUser[id := visit.userId];
        usersToVisits := Put(usersToVisits, visit.userId, Entry(visit.visitedAt, id));
      }
    }

    /** Maps the visits whose references exist, in whatever order the table is walked. */
    method MapEntities()
      requires IndexedState.Valid(State()) && visitsToLocations == map[]
      modifies this`visitsToLocations, this`visitsToUser, this`usersToVisits, this`locationsToVisits
      ensures Loaded(State())
    {
      var rest := visits.Keys;
      while rest != {}
        invariant rest <= visits.Keys
        invariant MappedOutside(State(), rest)
      {
        var id :| id in rest;
        MapNext(State(), rest, id);
        MapVisit(id);
        rest := rest - {id};
      }
    }

    method AddUser(user: User) returns (status: Status)
      modifies this`users
      ensures (State(), status) == Step(variant, old(State()), Op.AddUser(user))
      ensures Effect(old(State().tables), Op.AddUser(user), State().tables, status)
    {
      TablesHaveEffect(State().tables, Op.AddUser(user));
      if user.id in users {
        return EntityAlreadyExist;
      }
      users := users[user.id := user];
      return EntitySuccessfullyAdded;
    }

    method AddLocation(location: Location) returns (status: Status)
      modifies this`locations
      ensures (State(), status) == Step(variant, old(State()), Op.AddLocation(location))
      ensures Effect(old(State().tables), Op.AddLocation(location), State().tables, status)
    {
      TablesHaveEffect(State().tables, Op.AddLocation(location));
      if location.id in locations {
        return EntityAlreadyExist;
      }
      locations := locations[location.id := location];
      return EntitySuccessfullyAdded;
    }

    /** Puts an entry into its bucket, or makes a bucket of it. */
    method Filed(index: Index, key: Id, entry: Entry) returns (filed: Index)
      ensures filed == Put(index, key, entry)
    {
      if key !in index {
        assert Inserted([], entry) == [entry];
        filed := index[key := [entry]];
      } else {
        filed := index[key := Inserted(index[key], entry)];
      }
    }

    method AddVisit(visit: Visit) returns (status: Status)
      modifies this
      ensures (State(), status) == Step(variant, old(State()), Op.AddVisit(visit))
      ensures Effect(old(State().tables), Op.AddVisit(visit), State().tables, status)
    {
      ghost var t := State().tables;
      if visit.id in visits {
        return EntityAlreadyExist;
      }
      visits := visits[visit.id := visit];
      if visit.id !in visitsToUser {
        visitsToUser := visitsToUser[visit.id := visit.userId];
      }
      if visit.id !in visitsToLocations {
        visitsToLocations := visitsToLocations[visit.id := visit.locationId];
      }
      locationsToVisits := Filed(locationsToVisits, visit.locationId, Entry(visit.visitedAt, visit.id));
      usersToVisits := Filed(usersToVisits, visit.userId, Entry(visit.visitedAt, visit.id));
      TablesHaveEffect(t, Op.AddVisit(visit));
      assert State().tables == TablesAfter(t, Op.AddVisit(visit));
      return EntitySuccessfullyAdded;
    }

    method UpdateUser(user: User) returns (status: Status)
      requires Keyed(State().tables)
      modifies this`users
      ensures (State(), status) == Step(variant, old(State()), Op.UpdateUser(user))
      ensures Effect(old(State().tables), Op.UpdateUser(user), State().tables, status)
    {
      TablesHaveEffect(State().tables, Op.UpdateUser(user));
      if user.id !in users {
        return EntityNotFound;
      }
      var userToUpdate := users[user.id];
      if user.email != "" {
        userToUpdate := userToUpdate.(email := user.email);
      }
      if user.firstName != "" {
        userToUpdate := userToUpdate.(firstName := user.firstName);
      }
      if user.lastName != "" {
        userToUpdate := userToUpdate.(lastName := user.lastName);
      }
      if user.gender != Any {
        userToUpdate := userToUpdate.(gender := user.gender);
      }
      if user.birthDate != TIMESTAMP_MIN {
        userToUpdate := userToUpdate.(birthDate := user.birthDate);
      }
      assert userToUpdate == MergeUser(users[user.id], user);
      users := users[user.id := userToUpdate];
      return EntitySuccessfullyUpdated;
    }

    method UpdateLocation(location: Location) returns (status: Status)
      requires Keyed(State().tables)
      modifies this`locations
      ensures (State(), status) == Step(variant, old(State()), Op.UpdateLocation(location))
      ensures Effect(old(State().tables), Op.UpdateLocation(location), State().tables, status)
    {
      TablesHaveEffect(State().tables, Op.UpdateLocation(location));
      if location.id !in locations {
        return EntityNotFound;
      }
      var locationToUpdate := locations[location.id];
      if location.distance != DISTANCE_MIN {
        locationToUpdate := locationToUpdate.(distance := location.distance);
      }
      if location.place != "" {
        locationToUpdate := locationToUpdate.(place := location.place);
      }
      if location.country != "" {
        locationToUpdate := locationToUpdate.(country := location.country);
      }
      if location.city != "" {
        locationToUpdate := locationToUpdate.(city := location.city);
      }
      assert locationToUpdate == MergeLocation(locations[location.id], location);
      locations := locations[location.id := locationToUpdate];
      return EntitySuccessfullyUpdated;
    }

    /** Takes `was` out of the bucket of `from` by a walk over its range, and files `now`. */
    method Rehome(index: Index, from: Id, was: Entry, to: Id, now: Entry) returns (moved: Option<Index>)
      requires AllSorted(index)
      ensures moved == Rehomed(index, from, was, to, now)
    {
      if from !in index {
        return None;
      }
      var bucket := new TimestampToId(index[from]);
      bucket.EraseInRange(was.at, was.id);
      var left := index[from := bucket.entries];
      return Some(Put(left, to, now));
    }

    /** The user part of an update. As written it does nothing unless the user changes, and
        then erases whatever entry of the old time it finds first. */
    method MoveUser(was: Visit, now: Visit) returns (ok: bool)
      requires AllSorted(usersToVisits)
      modifies this`usersToVisits
      ensures var moved := UserSide(variant, old(usersToVisits), was, now);
              ok == moved.Some? && usersToVisits == if ok then moved.value else old(usersToVisits)
    {
      if variant == Intended {
        var moved := Rehome(usersToVisits, was.userId, EntryOf(was), now.userId, EntryOf(now));
        if moved == None {
          return false;
        }
        usersToVisits := moved.value;
        return true;
      }
      if now.userId != was.userId {
        if was.userId !in usersToVisits {
          return false;
        }
        var found := FoundAt(usersToVisits[was.userId], was.visitedAt);
        if found == None {
          return false;
        }
        usersToVisits := Dropped(usersToVisits, was.userId, found.value);
        usersToVisits := Put(usersToVisits, now.userId, EntryOf(now));
      }
      return true;
    }

    /** Fills the fields that the patch leaves out from the stored visit. */
    method Complete(patch: Visit) returns (visit: Visit)
      requires Keyed(State().tables) && patch.id in visits
      ensures visit == MergeVisit(visits[patch.id], patch)
    {
      visit := patch;
      if visit.locationId == ID_MAX {
        visit := visit.(locationId := visits[patch.id].locationId);
      }
      if visit.userId == ID_MAX {
        visit := visit.(userId := visits[patch.id].userId);
      }
      if visit.visitedAt == TIMESTAMP_MAX {
        visit := visit.(visitedAt := visits[patch.id].visitedAt);
      }
      if visit.mark == MARK_MAX {
        visit := visit.(mark := visits[patch.id].mark);
      }
    }

    method UpdateVisit(patch: Visit) returns (status: Status)
      requires Keyed(State().tables) && AllSorted(usersToVisits) && AllSorted(locationsToVisits)
      modifies this
      ensures (State(), status) == Step(variant, old(State()), Op.UpdateVisit(patch))
      ensures status == EntityNotFound || status == EntitySuccessfullyUpdated
      ensures if status == EntityNotFound then State().tables == old(State().tables)
              else Effect(old(State().tables), Op.UpdateVisit(patch), State().tables, status)
    {
      ghost var t := State().tables;
      if patch.id !in visits {
        return EntityNotFound;
      }
      var was := visits[patch.id];
      var visit := Complete(patch);
      if visit.id !in visitsToLocations {
        return EntityNotFound;
      }
      visitsToLocations := visitsToLocations[visit.id := visit.locationId];
      if visit.id !in visitsToUser {
        return EntityNotFound;
      }
      visitsToUser := visitsToUser[visit.id := visit.userId];
      var ok := MoveUser(was, visit);
      if !ok {
        return EntityNotFound;
      }
      var moved := Rehome(locationsToVisits, was.locationId, EntryOf(was), visit.locationId, EntryOf(visit));
      if moved == None {
        return EntityNotFound;
      }
      locationsToVisits := moved.value;
      visits := visits[visit.id := visit];
      TablesHaveEffect(t, Op.UpdateVisit(patch));
      assert State().tables == TablesAfter(t, Op.UpdateVisit(patch));
      return EntitySuccessfullyUpdated;
    }

    // ---- the erase loops

    method EraseByCountry(country: string, entries: TimestampToId)
      requires forall e :: e in entries.entries && e.id in visitsToLocations ==> visitsToLocations[e.id] in locations
      modifies entries
      ensures entries.entries == Filter(old(entries.entries), CountryTest(State(), country))
    {
      ghost var all, keep, k: nat := entries.entries, CountryTest(State(), country), 0;
      var current: nat := 0;
      while current != |entries.entries|
        invariant Walked(all, k, keep, entries.entries, current)
        decreases |all| - k
      {
        WalkedAll(all, k, keep, entries.entries, current);
        WalkOn(all, k, keep, entries.entries, current);
        k := k + 1;
        var id := entries.entries[current].id;
        if id !in visitsToLocations {
          entries.EraseAt(current);
          continue;
        }
        if locations[visitsToLocations[id]].country != country {
          entries.EraseAt(current);
          continue;
        }
        current := current + 1;
      }
      WalkedAll(all, k, keep, entries.entries, current);
    }

    method EraseByToDistance(toDistance: Distance, entries: TimestampToId)
      requires forall e :: e in entries.entries && e.id in visitsToLocations ==> visitsToLocations[e.id] in locations
      modifies entries
      ensures entries.entries == Filter(old(entries.entries), DistanceTest(State(), toDistance))
    {
      ghost var all, keep, k: nat := entries.entries, DistanceTest(State(), toDistance), 0;
      var current: nat := 0;
      while current != |entries.entries|
        invariant Walked(all, k, keep, entries.entries, current)
        decreases |all| - k
      {
        WalkedAll(all, k, keep, entries.entries, current);
        WalkOn(all, k, keep, entries.entries, current);
        k := k + 1;
        var id := entries.entries[current].id;
        if id !in visitsToLocations {
          entries.EraseAt(current);
          continue;
        }
        if locations[visitsToLocations[id]].distance >= toDistance {
          entries.EraseAt(current);
          continue;
        }
        current := current + 1;
      }
      WalkedAll(all, k, keep, entries.entries, current);
    }

    method EraseByAge(age: Timestamp, comparator: Comparator, entries: TimestampToId)
      modifies entries
      ensures entries.entries == Filter(old(entries.entries), AgeTest(State(), comparator, calendar(AgeOf(age))))
    {
      var boundary := calendar(AgeOf(age));
      ghost var all, keep, k: nat := entries.entries, AgeTest(State(), comparator, boundary), 0;
      var current: nat := 0;
      while current != |entries.entries|
        invariant Walked(all, k, keep, entries.entries, current)
        decreases |all| - k
      {
        WalkedAll(all, k, keep, entries.entries, current);
        WalkOn(all, k, keep, entries.entries, current);
        k := k + 1;
        var id := entries.entries[current].id;
        if id !in visitsToUser {
          entries.EraseAt(current);
          continue;
        }
        if visitsToUser[id] !in users || comparator.Holds(users[visitsToUser[id]].birthDate, boundary) {
          entries.EraseAt(current);
          continue;
        }
        current := current + 1;
      }
      WalkedAll(all, k, keep, entries.entries, current);
    }

    method EraseByGender(gender: Gender, entries: TimestampToId)
      modifies entries
      ensures entries.entries == Filter(old(entries.entries), GenderTest(State(), gender))
    {
      ghost var all, keep, k: nat := entries.entries, GenderTest(State(), gender), 0;
      var current: nat := 0;
      while current != |entries.entries|
        invariant Walked(all, k, keep, entries.entries, current)
        decreases |all| - k
      {
        WalkedAll(all, k, keep, entries.entries, current);
        WalkOn(all, k, keep, entries.entries, current);
        k := k + 1;
        var id := entries.entries[current].id;
        if id !in visitsToUser {
          entries.EraseAt(current);
          continue;
        }
        if visitsToUser[id] !in users || gender != users[visitsToUser[id]].gender {
          entries.EraseAt(current);
          continue;
        }
        current := current + 1;
      }
      WalkedAll(all, k, keep, entries.entries, current);
    }

    // ---- the queries

    /** The date stages, shared by both queries; stops as soon as one leaves nothing. */
    method CutDates(fromDate: Timestamp, toDate: Timestamp, entries: TimestampToId) returns (stopped: bool)
      requires Sorted(entries.entries)
      modifies entries
      ensures var left := Stage(Stage(old(entries.entries), fromDate != TIMESTAMP_MIN, AfterTest(fromDate)),
                                toDate != TIMESTAMP_MAX, BeforeTest(toDate));
              && (stopped ==> left == [] && (fromDate != TIMESTAMP_MIN || toDate != TIMESTAMP_MAX))
              && (!stopped ==> entries.entries == left
                               && (left == [] ==> fromDate == TIMESTAMP_MIN && toDate == TIMESTAMP_MAX))
    {
      FilterIf(entries.entries, fromDate != TIMESTAMP_MIN, AfterTest(fromDate));
      FilterIf(Stage(entries.entries, fromDate != TIMESTAMP_MIN, AfterTest(fromDate)),
          toDate != TIMESTAMP_MAX, BeforeTest(toDate));
      if fromDate != TIMESTAMP_MIN {
        entries.EraseLessOrEqualElements(fromDate);
        if entries.entries == [] {
          return true;
        }
      }
      if toDate != TIMESTAMP_MAX {
        entries.EraseGreaterOrEqualElements(toDate);
        if entries.entries == [] {
          return true;
        }
      }
      return false;
    }

    /** The stages of the average that look at the users. */
    method CutUsers(q: AverageQuery, entries: TimestampToId) returns (stopped: bool)
      modifies entries
      ensures var left := UserStages(State(), q, calendar, old(entries.entries));
              && (stopped ==> left == [] && AsksUsers(q))
              && (!stopped ==> entries.entries == left && (left == [] ==> !AsksUsers(q)))
              && (!stopped && !AsksUsers(q) ==> entries.entries == old(entries.entries))
    {
      ghost var s, s0 := State(), entries.entries;
      FilterIf(s0, q.fromAge != TIMESTAMP_MIN, AgeTest(s, Greater, calendar(AgeOf(q.fromAge))));
      if q.fromAge != TIMESTAMP_MIN {
        EraseByAge(q.fromAge, Greater, entries);
        if entries.entries == [] {
          return true;
        }
      }
      ghost var s1 := entries.entries;
      FilterIf(s1, q.toAge != TIMESTAMP_MAX, AgeTest(s, Less, calendar(AgeOf(q.toAge))));
      if q.toAge != TIMESTAMP_MAX {
        EraseByAge(q.toAge, Less, entries);
        if entries.entries == [] {
          return true;
        }
      }
      ghost var s2 := entries.entries;
      FilterIf(s2, q.gender != Any, GenderTest(s, q.gender));
      if q.gender != Any {
        EraseByGender(q.gender, entries);
        if entries.entries == [] {
          return true;
        }
      }
      return false;
    }

    /** As in the live store, every partial sum is exact in a double. */
    method SumOf(entries: seq<Entry>) returns (sum: int)
      requires DistinctIds(entries) && forall e :: e in entries ==> e.id in visits
      ensures IdSet(entries) <= visits.Keys && |IdSet(entries)| == |entries|
      ensures sum == SumMarks(visits, IdSet(entries))
    {
      sum := 0;
      for i := 0 to |entries|
        invariant IdSet(entries[..i]) <= visits.Keys && |IdSet(entries[..i])| == i
        invariant sum == SumMarks(visits, IdSet(entries[..i]))
        invariant -0x20_0000_0000_0000 < sum < 0x20_0000_0000_0000
      {
        assert entries[i] in entries;
        OneIdMore(entries, i);
        SumMarksWith(visits, IdSet(entries[..i]), entries[i].id);
        SumIsExactInDouble(visits, IdSet(entries[..i + 1]));
        sum := sum + visits[entries[i].id].mark;
      }
      assert entries[..|entries|] == entries;
    }

    /** Cutting the copied bucket down stage by stage, with the early exits, and adding up what
        is left answers for the scan of the visit table. */
    method GetAverageLocationMark(q: AverageQuery) returns (answer: MarkAnswer)
      requires Keyed(State().tables) && OwnersKnown(State()) && LocationsValid(State())
      ensures answer == AverageAnswer(State(), q, calendar)
      ensures answer == Mean(0, 0) <==> EmptyBucketAsked(State(), q)
    {
      ZeroByZeroIff(State(), q, calendar);
      if q.id !in locations {
        return NoLocation;
      }
      AnswerOfLeft(State(), q, calendar);
      if q.id !in locationsToVisits {
        return NoMarks;
      }
      answer := AverageOfBucket(q);
    }

    /** The average of a location that has a bucket. */
    method AverageOfBucket(q: AverageQuery) returns (answer: MarkAnswer)
      requires q.id in locationsToVisits
      requires Keyed(State().tables) && OwnersKnown(State()) && LocationsValid(State())
      ensures var left := AverageStages(State(), q, calendar, locationsToVisits[q.id]);
              && IdSet(left) <= visits.Keys
              && answer == if left == [] && !AsksNothing(q) then NoMarks
                           else Mean(SumMarks(visits, IdSet(left)), |IdSet(left)|)
    {
      ghost var s := State();
      LeftAreDistinct(s, q, calendar);
      IdsAreVisits(s.tables, AverageStages(s, q, calendar, locationsToVisits[q.id]));
      var entries := new TimestampToId(locationsToVisits[q.id]);
      var stopped := CutDates(q.fromDate, q.toDate, entries);
      if stopped {
        return NoMarks;
      }
      stopped := CutUsers(q, entries);
      if stopped {
        return NoMarks;
      }
      var sum := SumOf(entries.entries);
      return Mean(sum, |entries.entries|);
    }

    /** The stages of the visits query that look at the locations. */
    method CutLocations(q: VisitsQuery, entries: TimestampToId)
      requires AsksLocations(q) ==> MappedLocationsExist(State(), entries.entries)
      modifies entries
      ensures entries.entries == LocationStages(State(), q, old(entries.entries))
    {
      ghost var s, s0 := State(), entries.entries;
      FilterIf(s0, q.country != "", CountryTest(s, q.country));
      if q.country != "" {
        EraseByCountry(q.country, entries);
        FilterIn(s0, CountryTest(s, q.country));
      }
      FilterIf(entries.entries, q.toDistance != DISTANCE_MAX, DistanceTest(s, q.toDistance));
      if q.country != "" && entries.entries == [] {
        return;
      }
      if q.toDistance != DISTANCE_MAX {
        EraseByToDistance(q.toDistance, entries);
      }
    }

    /** Cutting the copied bucket down stage by stage leaves the entries that pass all tests.
        The erase loops end because the mapped locations of the entries exist. */
    method GetVisistsByUserId(q: VisitsQuery) returns (answer: Option<string>)
      requires AllSorted(usersToVisits)
      requires forall e :: e in Bucket(usersToVisits, q.id) ==> e.id in visits
      requires AsksLocations(q) ==> MappedLocationsExist(State(), InDates(q, Bucket(usersToVisits, q.id)))
      ensures q.id !in users ==> answer == None
      ensures q.id in users ==> answer == Some(VisitsText(State().tables, MarkFirst, VisitsLeft(State(), q)))
    {
      if q.id !in users {
        return None;
      }
      ghost var s := State();
      VisitsStagesAreOne(s, q, Bucket(usersToVisits, q.id));
      EmptyText(s.tables, MarkFirst);
      if q.id !in usersToVisits {
        return Some(HEAD + TAIL);
      }
      var entries := new TimestampToId(usersToVisits[q.id]);
      var stopped := CutDates(q.fromDate, q.toDate, entries);
      if stopped {
        return Some(HEAD + TAIL);
      }
      CutLocations(q, entries);
      if entries.entries == [] {
        return Some(HEAD + TAIL);
      }
      var text := RenderShown(State().tables, MarkFirst, entries.entries);
      return Some(text);
    }
  }
}
