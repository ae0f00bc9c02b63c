/** The live store: three tables and two indexes, changed in place. */
module DataStorage {
  import opened Entities
  import opened MultisetIndex
  import opened LiveState
  import opened LiveQueries
  import opened Queries
  import M = Multimap
  import opened VisitTexts
  import opened Effects

  class DataStorageNew {
    const variant: Variant
    const calendar: Calendar
    var users: map<Id, User>
    var locations: map<Id, Location>
    var visits: map<Id, Visit>
    var usersToVisits: Index
    var locationsToVisits: Index

    function State(): Live
      reads this
    {
      Live(Tables(users, locations, visits), usersToVisits, locationsToVisits)
    }

    ghost predicate Valid()
      reads this
    {
      Keyed(State().tables) && LocationTracks(State())
    }

    /** Loading files the parsed entities and maps them as the last step. */
    constructor LoadData(variant: Variant, calendar: Calendar, t: Tables)
      requires Keyed(t)
      ensures this.variant == variant && this.calendar == calendar
      ensures State().tables == t && Loaded(State()) && Valid()
    {
      this.variant, this.calendar := variant, calendar;
      users, locations, visits := t.users, t.locations, t.visits;
      usersToVisits, locationsToVisits := map[], map[];
      new;
      MapEntities();
      LoadEstablishes(State());
    }

    /** Files every mapped visit once more under its location and its user, whatever
        the order in which the hash table of visits is walked. */
    method MapEntities()
      modifies this`usersToVisits, this`locationsToVisits
      ensures LocationsFiled(State().tables, old(locationsToVisits), locationsToVisits, {})
      ensures UsersFiled(State().tables, old(usersToVisits), usersToVisits, {})
    {
      ghost var t := State().tables;
      var rest := visits.Keys;
      while rest != {}
        invariant rest <= visits.Keys
        invariant LocationsFiled(t, old(locationsToVisits), locationsToVisits, rest)
        invariant UsersFiled(t, old(usersToVisits), usersToVisits, rest)
      {
        var id :| id in rest;
        var visit := visits[id];
        FileLocation(t, old(locationsToVisits), locationsToVisits, rest, id);
        FileUser(t, old(usersToVisits), usersToVisits, rest, id);
        if visit.locationId in locations && visit.userId in users {
          usersToVisits := Emplaced(usersToVisits, visit.userId, id);
          locationsToVisits := Emplaced(locationsToVisits, visit.locationId, id);
        }
        rest := rest - {id};
      }
    }

    method AddUser(user: User) returns (status: Status)
      requires Valid()
      modifies this`users
      ensures Valid() && State() == Step(variant, old(State()), Op.AddUser(user))
      ensures status == StatusOf(old(State().tables), Op.AddUser(user))
      ensures Effect(old(State().tables), Op.AddUser(user), State().tables, status)
    {
      TablesHaveEffect(State().tables, Op.AddUser(user));
      if user.id in users {
        return EntityAlreadyExist;
      }
      users := users[user.id := user];
      return EntitySuccessfullyAdded;
    }

    method AddLocation(location: Location) returns (status: Status)
      requires Valid()
      modifies this`locations
      ensures Valid() && State() == Step(variant, old(State()), Op.AddLocation(location))
      ensures status == StatusOf(old(State().tables), Op.AddLocation(location))
      ensures Effect(old(State().tables), Op.AddLocation(location), State().tables, status)
    {
      TablesHaveEffect(State().tables, Op.AddLocation(location));
      if location.id in locations {
        return EntityAlreadyExist;
      }
      locations := locations[location.id := location];
      return EntitySuccessfullyAdded;
    }

    method AddVisit(visit: Visit) returns (status: Status)
      requires Valid()
      modifies this`visits, this`usersToVisits, this`locationsToVisits
      ensures Valid() && State() == Step(variant, old(State()), Op.AddVisit(visit))
      ensures status == StatusOf(old(State().tables), Op.AddVisit(visit))
      ensures Effect(old(State().tables), Op.AddVisit(visit), State().tables, status)
    {
      ghost var s, op := State(), Op.AddVisit(visit);
      StepKeepsLocationIndex(variant, s, op);
      StepKeepsKeyed(s.tables, op);
      TablesHaveEffect(s.tables, op);
      if visit.id in visits {
        return EntityAlreadyExist;
      }
      visits := visits[visit.id := visit];
      usersToVisits := Emplaced(usersToVisits, visit.userId, visit.id);
      locationsToVisits := Emplaced(locationsToVisits, visit.locationId, visit.id);
      assert State() == Step(variant, s, op);
      return EntitySuccessfullyAdded;
    }

    method UpdateUser(user: User) returns (status: Status)
      requires Valid()
      modifies this`users
      ensures Valid() && State() == Step(variant, old(State()), Op.UpdateUser(user))
      ensures status == StatusOf(old(State().tables), Op.UpdateUser(user))
      ensures Effect(old(State().tables), Op.UpdateUser(user), State().tables, status)
    {
      TablesHaveEffect(State().tables, Op.UpdateUser(user));
      if user.id !in users {
        return EntityNotFound;
      }
      var userToUpdate := users[user.id];
      if user.email != "" {
        userToUpdate := userToUpdate.(email := user.email);
      }
      if user.firstName != "" {
        userToUpdate := userToUpdate.(firstName := user.firstName);
      }
      if user.lastName != "" {
        userToUpdate := userToUpdate.(lastName := user.lastName);
      }
      if user.gender != Any {
        userToUpdate := userToUpdate.(gender := user.gender);
      }
      if user.birthDate != TIMESTAMP_MIN {
        userToUpdate := userToUpdate.(birthDate := user.birthDate);
      }
      assert userToUpdate == MergeUser(users[user.id], user);
      users := users[user.id := userToUpdate];
      return EntitySuccessfullyUpdated;
    }

    method UpdateLocation(location: Location) returns (status: Status)
      requires Valid()
      modifies this`locations
      ensures Valid() && State() == Step(variant, old(State()), Op.UpdateLocation(location))
      ensures status == StatusOf(old(State().tables), Op.UpdateLocation(location))
      ensures Effect(old(State().tables), Op.UpdateLocation(location), State().tables, status)
    {
      TablesHaveEffect(State().tables, Op.UpdateLocation(location));
      if location.id !in locations {
        return EntityNotFound;
      }
      var locationToUpdate := locations[location.id];
      if location.distance != DISTANCE_MIN {
        locationToUpdate := locationToUpdate.(distance := location.distance);
      }
      if location.place != "" {
        locationToUpdate := locationToUpdate.(place := location.place);
      }
      if location.country != "" {
        locationToUpdate := locationToUpdate.(country := location.country);
      }
      if location.city != "" {
        locationToUpdate := locationToUpdate.(city := location.city);
      }
      assert locationToUpdate == MergeLocation(locations[location.id], location);
      locations := locations[location.id := locationToUpdate];
      return EntitySuccessfullyUpdated;
    }

    /** The location part of a visit update. */
    method ChangeLocation(visit: Visit)
      requires Keyed(State().tables) && visit.id in visits
      modifies this`visits, this`locationsToVisits
      ensures locationsToVisits == LocationIndexAfter(old(State()), Op.UpdateVisit(visit))
      ensures visits == old(visits)[visit.id := WithLocation(old(visits)[visit.id], visit)]
    {
      if visit.locationId != ID_MAX && visits[visit.id].locationId != visit.locationId {
        locationsToVisits := Erased(locationsToVisits, visits[visit.id].locationId, visits[visit.id].id);
        locationsToVisits := Emplaced(locationsToVisits, visit.locationId, visit.id);
        visits := visits[visit.id := visits[visit.id].(locationId := visit.locationId)];
      }
    }

    /** The user part of a visit update. As written it erases, from the old user's bucket,
        the number of the user and not the number of the visit. */
    method ChangeUser(visit: Visit)
      requires Keyed(State().tables) && visit.id in visits
      modifies this`visits, this`usersToVisits
      ensures usersToVisits == UserIndexAfter(variant, old(State()), Op.UpdateVisit(visit))
      ensures visits == old(visits)[visit.id := WithUser(old(visits)[visit.id], visit)]
    {
      if visit.userId != ID_MAX && visits[visit.id].userId != visit.userId {
        var erased := if variant == Intended then visits[visit.id].id else visits[visit.id].userId;
        usersToVisits := Erased(usersToVisits, visits[visit.id].userId, erased);
        usersToVisits := Emplaced(usersToVisits, visit.userId, visit.id);
        visits := visits[visit.id := visits[visit.id].(userId := visit.userId)];
      }
    }

    /** The fields no index depends on. */
    method ChangeTimeAndMark(visit: Visit)
      requires visit.id in visits
      modifies this`visits
      ensures visits == old(visits)[visit.id := WithTimeAndMark(old(visits)[visit.id], visit)]
    {
      if visit.visitedAt != TIMESTAMP_MAX && visits[visit.id].visitedAt != visit.visitedAt {
        visits := visits[visit.id := visits[visit.id].(visitedAt := visit.visitedAt)];
      }
      if visit.mark != MARK_MAX && visits[visit.id].mark != visit.mark {
        visits := visits[visit.id := visits[visit.id].(mark := visit.mark)];
      }
    }

    method UpdateVisit(visit: Visit) returns (status: Status)
      requires Valid()
      modifies this`visits, this`usersToVisits, this`locationsToVisits
      ensures Valid() && State() == Step(variant, old(State()), Op.UpdateVisit(visit))
      ensures status == StatusOf(old(State().tables), Op.UpdateVisit(visit))
      ensures Effect(old(State().tables), Op.UpdateVisit(visit), State().tables, status)
    {
      TablesHaveEffect(State().tables, Op.UpdateVisit(visit));
      ghost var s, op := State(), Op.UpdateVisit(visit);
      if visit.id !in visits {
        return EntityNotFound;
      }
      ChangeLocation(visit);
      ghost var first := State();
      ChangeUser(visit);
      ghost var second := State();
      ChangeTimeAndMark(visit);
      PartsMakeStep(variant, s, visit, first, second, State());
      StepKeepsKeyed(s.tables, op);
      StepKeepsLocationIndex(variant, s, op);
      return EntitySuccessfullyUpdated;
    }

    /** Whether a visit of the location passes the bounds of the average query. */
    method Counts(visit: Visit, q: AverageQuery) returns (counts: bool)
      ensures counts == VisitCounts(State().tables, q, calendar, visit)
    {
      if q.fromDate != TIMESTAMP_MIN && !(visit.visitedAt > q.fromDate) {
        return false;
      }
      if q.toDate != TIMESTAMP_MAX && !(visit.visitedAt < q.toDate) {
        return false;
      }
      if visit.userId !in users {
        return false;
      }
      var user := users[visit.userId];
      if q.gender != Any && user.gender != q.gender {
        return false;
      }
      if q.fromAge != TIMESTAMP_MIN && !(user.birthDate < calendar(AgeOf(q.fromAge))) {
        return false;
      }
      if q.toAge != TIMESTAMP_MAX && !(user.birthDate > calendar(AgeOf(q.toAge))) {
        return false;
      }
      return true;
    }

    /** One pass over the bucket of the location, in whatever order it is walked, adds up
        exactly the visits of the bucket that a scan of the visit table selects. */
    method GetAverageLocationMark(q: AverageQuery) returns (answer: MarkAnswer)
      requires Valid()
      ensures answer == AverageAnswer(State(), q, calendar)
    {
      if q.id !in locations {
        return NoLocation;
      }
      if q.id !in locationsToVisits {
        return NoMarks;
      }
      ghost var s, selected := State(), {};
      var marksSum, marksAmount := 0, 0;
      var rest := locationsToVisits[q.id];
      SelectedStart(s, q, calendar);
      while rest != multiset{}
        invariant rest <= s.locationsToVisits[q.id]
        invariant selected == SelectedBefore(s, q, calendar, rest)
        invariant marksSum == SumMarks(visits, selected) && marksAmount == |selected|
        invariant -0x20_0000_0000_0000 < marksSum < 0x20_0000_0000_0000
        decreases |rest|
      {
        var id :| id in rest;
        SelectedNext(s, q, calendar, rest, id);
        rest := rest - multiset{id};
        if id !in visits {
          continue;
        }
        var counts := Counts(visits[id], q);
        if !counts {
          continue;
        }
        SumMarksWith(visits, selected, id);
        selected := selected + {id};
        SumIsExactInDouble(visits, selected);
        marksSum := marksSum + visits[id].mark;
        marksAmount := marksAmount + 1;
      }
      SelectedEnd(s, q, calendar);
      if marksAmount == 0 {
        return NoMarks;
      }
      return Mean(marksSum, marksAmount);
    }

    /** The text of the user's visits: the passing visits of the user's bucket, sorted by time
        and id, none skipped, with commas between them. */
    method GetVisistsByUserId(q: VisitsQuery) returns (answer: Option<string>)
      requires Valid()
      ensures q.id !in users ==> answer == None
      ensures q.id in users ==>
        exists entries ::
          && ListsBucket(State().tables, q, Bucket(usersToVisits, q.id), entries)
          && Resolvable(State().tables, entries)
          && answer == Some(ListText(PlaceFirst, Records(State().tables, entries)))
    {
      if q.id !in users {
        return None;
      }
      var t := State().tables;
      if q.id !in usersToVisits {
        assert ListsBucket(t, q, multiset{}, []);
        return Some(ListText(PlaceFirst, Records(t, [])));
      }
      ghost var bucket := usersToVisits[q.id];
      var entries: seq<M.Entry> := [];
      var rest := usersToVisits[q.id];
      while rest != multiset{}
        invariant ListedSoFar(t, q, bucket, rest, entries)
        decreases |rest|
      {
        ghost var least := SmallestId(rest);
        var id :| id in rest && forall other :: other in rest ==> id <= other;
        if id in visits {
          var passes := Passes(visits[id], q);
          if passes {
            ListNext(t, q, bucket, rest, entries, id);
            entries := M.Inserted(entries, M.Entry(visits[id].visitedAt, id));
            rest := rest - multiset{id};
            continue;
          }
        }
        SkipNext(t, q, bucket, rest, entries, id);
        rest := rest - multiset{id};
      }
      assert bucket - rest == bucket;
      assert ListsBucket(t, q, Bucket(usersToVisits, q.id), entries);
      ListedResolves(t, q, bucket, entries);
      var text := RenderShown(t, PlaceFirst, entries);
      NoneIsSkipped(t, PlaceFirst, entries);
      assert t == State().tables;
      return Some(text);
    }

    /** Whether a visit of the user's bucket is listed. */
    method Passes(visit: Visit, q: VisitsQuery) returns (passes: bool)
      ensures passes == VisitPasses(State().tables, q, visit)
    {
      if visit.locationId !in locations {
        return false;
      }
      var location := locations[visit.locationId];
      if q.fromDate != TIMESTAMP_MIN && !(q.fromDate < visit.visitedAt) {
        return false;
      }
      if q.toDate != TIMESTAMP_MAX && !(q.toDate > visit.visitedAt) {
        return false;
      }
      if q.country != "" && !(q.country == location.country) {
        return false;
      }
      // The 32-bit distance is compared with the 64-bit sentinel, so it is never skipped.
      if q.toDistance as int != TIMESTAMP_MAX as int && !(q.toDistance > location.distance) {
        return false;
      }
      return true;
    }
  }
}
