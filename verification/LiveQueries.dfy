/** What the two queries of the live store answer, as a scan of the visit table. */
module LiveQueries {
  import opened Entities
  import opened MultisetIndex
  import opened LiveState
  import opened Queries
  import opened Multimap
  import opened VisitTexts

  /** The date of the visit is in the window, its user exists, and the user's gender and
      age are asked for. */
  predicate VisitCounts(t: Tables, q: AverageQuery, calendar: Calendar, v: Visit) {
    && InWindow(q.fromDate, q.toDate, v.visitedAt)
    && v.userId in t.users
    && GenderFits(q, t.users[v.userId])
    && AgeFitsStrictly(q, calendar, t.users[v.userId])
  }

  predicate AverageSelects(t: Tables, q: AverageQuery, calendar: Calendar, id: Id) {
    && id in t.visits
    && t.visits[id].locationId == q.id
    && VisitCounts(t, q, calendar, t.visits[id])
  }

  /** The scan of the whole visit table. */
  ghost function AverageScan(t: Tables, q: AverageQuery, calendar: Calendar): (ids: set<Id>)
    ensures ids <= t.visits.Keys
  {
    set id | id in t.visits && AverageSelects(t, q, calendar, id)
  }

  /** The selection, with the calendar's date for an age `a` and an age `b` in whatever way the two
      bounds give them, and the numbers for "no bound" written out. */
  lemma SelectionIs(t: Tables, q: AverageQuery, calendar: Calendar, id: Id, a: int, b: int, j: int, k: int)
    requires 0 <= a < 0x1_0000 && q.fromAge == a + j * 0x1_0000
    requires 0 <= b < 0x1_0000 && q.toAge == b + k * 0x1_0000
    ensures id in AverageScan(t, q, calendar) <==>
      && id in t.visits && t.visits[id].locationId == q.id && t.visits[id].userId in t.users
      && (q.fromDate == -0x8000_0000_0000_0000 || q.fromDate < t.visits[id].visitedAt)
      && (q.toDate == 0x7FFF_FFFF_FFFF_FFFF || t.visits[id].visitedAt < q.toDate)
      && (q.gender == Any || t.users[t.visits[id].userId].gender == q.gender)
      && (q.fromAge == -0x8000_0000_0000_0000 || t.users[t.visits[id].userId].birthDate < calendar(a))
      && (q.toAge == 0x7FFF_FFFF_FFFF_FFFF || t.users[t.visits[id].userId].birthDate > calendar(b))
  {
    AgeOfBound(a, j, q.fromAge);
    AgeOfBound(b, k, q.toAge);
  }

  /** The answer of the live store, in whatever order the filed visits of the scan are listed. */
  lemma AnswerIs(s: Live, q: AverageQuery, calendar: Calendar, ids: seq<Id>)
    requires Enumerates(ids, FiledSelection(s, q, calendar))
    ensures AverageAnswer(s, q, calendar)
      == if q.id !in s.tables.locations then NoLocation
         else if ids == [] then NoMarks
         else Mean(Total(s.tables.visits, ids), |ids|)
  {
    AnswerIsTotal(s.tables.visits, ids, FiledSelection(s, q, calendar));
  }

  /** The visits of the scan that are filed in the location index. */
  ghost function FiledSelection(s: Live, q: AverageQuery, calendar: Calendar): (ids: set<Id>)
    ensures ids <= s.tables.visits.Keys
  {
    set id | id in AverageScan(s.tables, q, calendar) && Count(s.locationsToVisits, q.id, id) > 0
  }

  /** The answer of the live store. */
  ghost function AverageAnswer(s: Live, q: AverageQuery, calendar: Calendar): MarkAnswer {
    if q.id !in s.tables.locations then NoLocation else AnswerFor(s.tables.visits, FiledSelection(s, q, calendar))
  }

  /** The part of the selection that the walk over the bucket has passed when `rest` is left. */
  ghost function SelectedBefore(s: Live, q: AverageQuery, calendar: Calendar, rest: multiset<Id>): (ids: set<Id>)
    ensures ids <= s.tables.visits.Keys
  {
    set id | id in FiledSelection(s, q, calendar) && id !in rest
  }

  lemma SelectedStart(s: Live, q: AverageQuery, calendar: Calendar)
    ensures SelectedBefore(s, q, calendar, Bucket(s.locationsToVisits, q.id)) == {}
  {
  }

  lemma SelectedEnd(s: Live, q: AverageQuery, calendar: Calendar)
    ensures SelectedBefore(s, q, calendar, multiset{}) == FiledSelection(s, q, calendar)
  {
  }

  /** Passing an id puts it into the selection if the scan selects it; an id is met once. */
  lemma SelectedNext(s: Live, q: AverageQuery, calendar: Calendar, rest: multiset<Id>, id: Id)
    requires LocationTracks(s) && rest <= Bucket(s.locationsToVisits, q.id) && id in rest
    ensures var before, after := SelectedBefore(s, q, calendar, rest),
        SelectedBefore(s, q, calendar, rest - multiset{id});
            id !in before && after == if AverageSelects(s.tables, q, calendar, id) then before + {id} else before
    ensures id in s.tables.visits && s.tables.visits[id].locationId == q.id
  {
    var owners := LocationOwners(s.tables.visits);
    assert Bucket(s.locationsToVisits, q.id)[id] == Count(s.locationsToVisits, q.id, id) <= 1;
    assert id in owners && owners[id] == q.id;
    assert rest[id] == 1;
  }

  /** In every state that a run reaches from a closed load, the average query of the live
      store, as written, answers for the scan of the whole visit table. */
  lemma AverageIsTableScan(variant: Variant, loaded: Live, ops: seq<Op>, q: AverageQuery, calendar: Calendar)
    requires Loaded(loaded) && Closed(loaded.tables)
    ensures var s := Run(variant, loaded, ops);
            && Keyed(s.tables) && LocationTracks(s)
            && FiledSelection(s, q, calendar) == AverageScan(s.tables, q, calendar)
  {
    LoadEstablishes(loaded);
    RunKeepsLocationIndex(variant, loaded, ops);
    var s := Run(variant, loaded, ops);
    var owners := LocationOwners(s.tables.visits);
    forall id | id in AverageScan(s.tables, q, calendar)
      ensures id in FiledSelection(s, q, calendar)
    {
      assert Count(s.locationsToVisits, owners[id], id) >= 1;
    }
  }

  // ---- the visits of a user

  /** The visit's location exists and is near enough, the date is in the window, and the
      country is the one asked for, if one is. The distance is always compared. */
  predicate VisitPasses(t: Tables, q: VisitsQuery, v: Visit) {
    && v.locationId in t.locations
    && InWindow(q.fromDate, q.toDate, v.visitedAt)
    && (q.country != "" ==> q.country == t.locations[v.locationId].country)
    && q.toDistance > t.locations[v.locationId].distance
  }

  /** The entry names a visit that passes, at its time. */
  predicate Chosen(t: Tables, q: VisitsQuery, e: Entry) {
    && e.id in t.visits
    && e.at == t.visits[e.id].visitedAt
    && VisitPasses(t, q, t.visits[e.id])
  }

  /** What is listed, with the numbers for "no bound" written out. The distance is always compared. */
  lemma ChosenIs(t: Tables, q: VisitsQuery, e: Entry)
    ensures Chosen(t, q, e) <==>
      && e.id in t.visits && e.at == t.visits[e.id].visitedAt && t.visits[e.id].locationId in t.locations
      && (q.fromDate == -0x8000_0000_0000_0000 || q.fromDate < e.at)
      && (q.toDate == 0x7FFF_FFFF_FFFF_FFFF || e.at < q.toDate)
      && (q.country == "" || t.locations[t.visits[e.id].locationId].country == q.country)
      && t.locations[t.visits[e.id].locationId].distance < q.toDistance
  {
  }

  /** `entries` are the passing visits of the bucket, each as often as the bucket holds it,
      sorted by time and, at one time, by visit id. */
  ghost predicate ListsBucket(t: Tables, q: VisitsQuery, bucket: multiset<Id>, entries: seq<Entry>) {
    && LexSorted(entries)
    && forall e :: multiset(entries)[e] == if Chosen(t, q, e) then bucket[e.id] else 0
  }

  /** There is only one such list. */
  lemma ListsBucketIsUnique(t: Tables, q: VisitsQuery, bucket: multiset<Id>, a: seq<Entry>, b: seq<Entry>)
    requires ListsBucket(t, q, bucket, a) && ListsBucket(t, q, bucket, b)
    ensures a == b
  {
    assert multiset(a) == multiset(b);
    LexSortedIsUnique(a, b);
  }

  lemma ListedResolves(t: Tables, q: VisitsQuery, bucket: multiset<Id>, entries: seq<Entry>)
    requires ListsBucket(t, q, bucket, entries)
    ensures Resolvable(t, entries)
  {
    forall e | e in entries ensures Chosen(t, q, e) {
      assert multiset(entries)[e] > 0;
    }
  }

  lemma {:induction false} SmallestId(ids: multiset<Id>) returns (least: Id)
    requires ids != multiset{}
    ensures least in ids && forall id :: id in ids ==> least <= id
    decreases |ids|
  {
    var id :| id in ids;
    if ids == multiset{id} {
      least := id;
    } else {
      var other := SmallestId(ids - multiset{id});
      assert forall i :: i in ids ==> i == id || i in ids - multiset{id};
      least := if id <= other then id else other;
    }
  }

  /** What the walk over the bucket, in ascending order, has put into the multimap when
      `rest` is left. */
  ghost predicate ListedSoFar(t: Tables, q: VisitsQuery, bucket: multiset<Id>, rest: multiset<Id>,
      entries: seq<Entry>) {
    && rest <= bucket
    && ListsBucket(t, q, bucket - rest, entries)
    && forall i, id :: 0 <= i < |entries| && id in rest ==> entries[i].id <= id
  }

  lemma ListedCounts(t: Tables, q: VisitsQuery, bucket: multiset<Id>, entries: seq<Entry>, id: Id)
    requires ListsBucket(t, q, bucket, entries)
    requires id in t.visits && VisitPasses(t, q, t.visits[id])
    requires forall i :: 0 <= i < |entries| ==> entries[i].id <= id
    ensures ListsBucket(t, q, bucket + multiset{id}, Inserted(entries, Entry(t.visits[id].visitedAt, id)))
  {
    var e := Entry(t.visits[id].visitedAt, id);
    InsertCounts(entries, e);
    InsertLexSorted(entries, e);
  }

  lemma ListNext(t: Tables, q: VisitsQuery, bucket: multiset<Id>, rest: multiset<Id>, entries: seq<Entry>, id: Id)
    requires ListedSoFar(t, q, bucket, rest, entries)
    requires id in rest && forall other :: other in rest ==> id <= other
    requires id in t.visits && VisitPasses(t, q, t.visits[id])
    ensures ListedSoFar(t, q, bucket, rest - multiset{id}, Inserted(entries, Entry(t.visits[id].visitedAt, id)))
  {
    var longer := Inserted(entries, Entry(t.visits[id].visitedAt, id));
    assert bucket - (rest - multiset{id}) == (bucket - rest) + multiset{id};
    ListedCounts(t, q, bucket - rest, entries, id);
    forall i, other | 0 <= i < |longer| && other in rest - multiset{id} ensures longer[i].id <= other {
      assert other in rest;
    }
  }

  lemma SkipNext(t: Tables, q: VisitsQuery, bucket: multiset<Id>, rest: multiset<Id>, entries: seq<Entry>, id: Id)
    requires ListedSoFar(t, q, bucket, rest, entries) && id in rest
    requires !(id in t.visits && VisitPasses(t, q, t.visits[id]))
    ensures ListedSoFar(t, q, bucket, rest - multiset{id}, entries)
  {
    assert bucket - (rest - multiset{id}) == (bucket - rest) + multiset{id};
  }

  /** The list holds exactly the user's passing visits, each once. */
  ghost predicate RightList(t: Tables, q: VisitsQuery, entries: seq<Entry>) {
    forall e :: multiset(entries)[e] == if Chosen(t, q, e) && t.visits[e.id].userId == q.id then 1 else 0
  }

  /** With an exact user index, the list is exactly the user's passing visits, each once. */
  lemma ListIsTheUsersVisits(s: Live, q: VisitsQuery, entries: seq<Entry>)
    requires UserExact(s)
    requires ListsBucket(s.tables, q, Bucket(s.usersToVisits, q.id), entries)
    ensures RightList(s.tables, q, entries)
  {
    var owners := UserOwners(s.tables.visits);
    forall e
      ensures multiset(entries)[e] == if Chosen(s.tables, q, e) && s.tables.visits[e.id].userId == q.id then 1 else 0
    {
      if Chosen(s.tables, q, e) {
        assert Bucket(s.usersToVisits, q.id)[e.id] == Count(s.usersToVisits, q.id, e.id);
        assert e.id in owners && Count(s.usersToVisits, owners[e.id], e.id) >= 1;
      }
    }
  }

  /** Every bucket has its list: the walk builds it. */
  lemma {:induction false} ListFrom(t: Tables, q: VisitsQuery, bucket: multiset<Id>, rest: multiset<Id>,
      sofar: seq<Entry>)
    returns (entries: seq<Entry>)
    requires ListedSoFar(t, q, bucket, rest, sofar)
    ensures ListsBucket(t, q, bucket, entries)
    decreases |rest|
  {
    if rest == multiset{} {
      assert bucket - rest == bucket;
      return sofar;
    }
    var id := SmallestId(rest);
    if id in t.visits && VisitPasses(t, q, t.visits[id]) {
      ListNext(t, q, bucket, rest, sofar, id);
      entries := ListFrom(t, q, bucket, rest - multiset{id}, Inserted(sofar, Entry(t.visits[id].visitedAt, id)));
    } else {
      SkipNext(t, q, bucket, rest, sofar, id);
      entries := ListFrom(t, q, bucket, rest - multiset{id}, sofar);
    }
  }

  lemma ListExists(t: Tables, q: VisitsQuery, bucket: multiset<Id>) returns (entries: seq<Entry>)
    ensures ListsBucket(t, q, bucket, entries)
  {
    assert bucket - bucket == multiset{};
    entries := ListFrom(t, q, bucket, bucket, []);
  }

  /** Every list that the live store gives, to every visits query, is right. */
  ghost predicate AllListsRight(s: Live) {
    forall q: VisitsQuery, entries ::
      ListsBucket(s.tables, q, Bucket(s.usersToVisits, q.id), entries) ==> RightList(s.tables, q, entries)
  }

  /** The location of every visit exists and is not at the largest distance, where the query
      without a distance bound would drop the visit. */
  ghost predicate AllListable(t: Tables) {
    forall id :: id in t.visits ==>
      t.visits[id].locationId in t.locations && t.locations[t.visits[id].locationId].distance != DISTANCE_MAX
  }

  /** A visit that has strayed is listed for a user more often than it is that user's. */
  lemma StrayIsListed(s: Live, key: Id, id: Id, entries: seq<Entry>)
    requires Stray(s, key, id) && AllListable(s.tables)
    requires ListsBucket(s.tables, BlankVisitsQuery(key), Bucket(s.usersToVisits, key), entries)
    ensures multiset(entries)[Entry(s.tables.visits[id].visitedAt, id)]
        > if s.tables.visits[id].userId == key then 1 else 0
    ensures !RightList(s.tables, BlankVisitsQuery(key), entries)
  {
    var e := Entry(s.tables.visits[id].visitedAt, id);
    assert Chosen(s.tables, BlankVisitsQuery(key), e);
    assert multiset(entries)[e] == Bucket(s.usersToVisits, key)[id] == Count(s.usersToVisits, key, id);
  }

  /** As written, after a closed load and any run that ends with all visits listable, every list
      of every visits query is right exactly when the run loses track of no visit. */
  lemma ListsRightIff(loaded: Live, ops: seq<Op>)
    requires Loaded(loaded) && Closed(loaded.tables) && AllListable(Run(AsWritten, loaded, ops).tables)
    ensures AllListsRight(Run(AsWritten, loaded, ops)) <==> !RunLosesTrack(loaded, ops)
  {
    LoadEstablishes(loaded);
    var end := Run(AsWritten, loaded, ops);
    if RunLosesTrack(loaded, ops) {
      var key, id := LosingRunLeavesStray(loaded, ops);
      var entries := ListExists(end.tables, BlankVisitsQuery(key), Bucket(end.usersToVisits, key));
      StrayIsListed(end, key, id, entries);
    } else {
      TrackingRunKeepsExact(loaded, ops);
      forall q: VisitsQuery, entries | ListsBucket(end.tables, q, Bucket(end.usersToVisits, q.id), entries)
        ensures RightList(end.tables, q, entries)
      {
        ListIsTheUsersVisits(end, q, entries);
      }
    }
  }

  /** After a closed load, and a run in which the erase meant is used or no visit is lost track
      of, the list of the query is exactly the user's passing visits, each once, in order. */
  lemma ListAfterRun(variant: Variant, loaded: Live, ops: seq<Op>, q: VisitsQuery, entries: seq<Entry>)
    requires Loaded(loaded) && Closed(loaded.tables)
    requires variant == Intended || !RunLosesTrack(loaded, ops)
    requires var s := Run(variant, loaded, ops); ListsBucket(s.tables, q, Bucket(s.usersToVisits, q.id), entries)
    ensures LexSorted(entries) && RightList(Run(variant, loaded, ops).tables, q, entries)
    ensures forall i, j :: 0 <= i < j < |entries| ==>
      entries[i].at < entries[j].at || (entries[i].at == entries[j].at && entries[i].id <= entries[j].id)
  {
    LoadEstablishes(loaded);
    if variant == Intended {
      RunKeepsUserIndex(loaded, ops);
    } else {
      TrackingRunKeepsExact(loaded, ops);
    }
    ListIsTheUsersVisits(Run(variant, loaded, ops), q, entries);
  }
}
