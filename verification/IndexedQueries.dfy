/** What the two queries of the indexed store answer: tests that cut down a copied bucket
    one after the other, and the scan of the visit table they stand for. */
module IndexedQueries {
  import opened Entities
  import opened Multimap
  import opened TimeIndex
  import opened IndexedState
  import opened Queries
  import opened VisitTexts

  // ---- the tests of the erase loops; an entry that is not mapped is erased

  function CountryTest(s: Indexed, country: string): Entry -> bool {
    (e: Entry) =>
      && e.id in s.visitsToLocations && s.visitsToLocations[e.id] in s.tables.locations
      && s.tables.locations[s.visitsToLocations[e.id]].country == country
  }

  function DistanceTest(s: Indexed, toDistance: Distance): Entry -> bool {
    (e: Entry) =>
      && e.id in s.visitsToLocations && s.visitsToLocations[e.id] in s.tables.locations
      && s.tables.locations[s.visitsToLocations[e.id]].distance < toDistance
  }

  function GenderTest(s: Indexed, gender: Gender): Entry -> bool {
    (e: Entry) =>
      && e.id in s.visitsToUser && s.visitsToUser[e.id] in s.tables.users
      && s.tables.users[s.visitsToUser[e.id]].gender == gender
  }

  /** The comparison passed to the age loop: an entry is erased when it holds. */
  datatype Comparator = Greater | Less {
    predicate Holds(a: Timestamp, b: Timestamp) {
      if this == Greater then a > b else a < b
    }
  }

  function AgeTest(s: Indexed, comparator: Comparator, boundary: Timestamp): Entry -> bool {
    (e: Entry) =>
      && e.id in s.visitsToUser && s.visitsToUser[e.id] in s.tables.users
      && !comparator.Holds(s.tables.users[s.visitsToUser[e.id]].birthDate, boundary)
  }

  function AfterTest(bound: Timestamp): Entry -> bool { (e: Entry) => bound < e.at }

  function BeforeTest(bound: Timestamp): Entry -> bool { (e: Entry) => e.at < bound }

  /** A test that a query asks for only if its bound is not a sentinel. */
  function If(asked: bool, test: Entry -> bool): Entry -> bool {
    (e: Entry) => asked ==> test(e)
  }

  lemma FilterIf(s: seq<Entry>, asked: bool, test: Entry -> bool)
    ensures Filter(s, If(asked, test)) == if asked then Filter(s, test) else s
  {
    if asked {
      FilterSame(s, If(asked, test), test);
    } else {
      FilterAll(s, If(asked, test));
    }
  }

  function Stage(s: seq<Entry>, asked: bool, test: Entry -> bool): seq<Entry> {
    Filter(s, If(asked, test))
  }

  function And(first: Entry -> bool, second: Entry -> bool): Entry -> bool {
    (e: Entry) => first(e) && second(e)
  }

  /** Four filters in a row are the filter by all four tests. */
  lemma FilterFour(s: seq<Entry>, a: Entry -> bool, b: Entry -> bool, c: Entry -> bool, d: Entry -> bool,
                   all: Entry -> bool)
    requires forall x :: all(x) <==> a(x) && b(x) && c(x) && d(x)
    ensures Filter(Filter(Filter(Filter(s, a), b), c), d) == Filter(s, all)
  {
    FilterTwice(s, a, b, And(a, b));
    FilterTwice(s, And(a, b), c, And(And(a, b), c));
    FilterTwice(s, And(And(a, b), c), d, all);
  }

  lemma FilterFive(s: seq<Entry>, a: Entry -> bool, b: Entry -> bool, c: Entry -> bool,
      d: Entry -> bool, e: Entry -> bool,
                   all: Entry -> bool)
    requires forall x :: all(x) <==> a(x) && b(x) && c(x) && d(x) && e(x)
    ensures Filter(Filter(Filter(Filter(Filter(s, a), b), c), d), e) == Filter(s, all)
  {
    var four := And(And(And(a, b), c), d);
    forall x ensures four(x) <==> a(x) && b(x) && c(x) && d(x) {
      assert And(And(a, b), c)(x) <==> And(a, b)(x) && c(x);
    }
    FilterFour(s, a, b, c, d, four);
    FilterTwice(s, four, e, all);
  }

  // ---- the average

  /** The five stages, in the order of the query. */
  function AverageTest(s: Indexed, q: AverageQuery, calendar: Calendar): Entry -> bool {
    (e: Entry) =>
      && (q.fromDate != TIMESTAMP_MIN ==> AfterTest(q.fromDate)(e))
      && (q.toDate != TIMESTAMP_MAX ==> BeforeTest(q.toDate)(e))
      && (q.fromAge != TIMESTAMP_MIN ==> AgeTest(s, Greater, calendar(AgeOf(q.fromAge)))(e))
      && (q.toAge != TIMESTAMP_MAX ==> AgeTest(s, Less, calendar(AgeOf(q.toAge)))(e))
      && (q.gender != Any ==> GenderTest(s, q.gender)(e))
  }

  /** The stages of the average that look at the users, one after the other. */
  function UserStages(s: Indexed, q: AverageQuery, calendar: Calendar, entries: seq<Entry>): seq<Entry> {
    var s3 := Stage(entries, q.fromAge != TIMESTAMP_MIN, AgeTest(s, Greater, calendar(AgeOf(q.fromAge))));
    var s4 := Stage(s3, q.toAge != TIMESTAMP_MAX, AgeTest(s, Less, calendar(AgeOf(q.toAge))));
    Stage(s4, q.gender != Any, GenderTest(s, q.gender))
  }

  predicate AsksUsers(q: AverageQuery) {
    q.fromAge != TIMESTAMP_MIN || q.toAge != TIMESTAMP_MAX || q.gender != Any
  }

  /** All stages of the average, one after the other. */
  function AverageStages(s: Indexed, q: AverageQuery, calendar: Calendar, bucket: seq<Entry>): seq<Entry> {
    var s1 := Stage(bucket, q.fromDate != TIMESTAMP_MIN, AfterTest(q.fromDate));
    var s2 := Stage(s1, q.toDate != TIMESTAMP_MAX, BeforeTest(q.toDate));
    UserStages(s, q, calendar, s2)
  }

  /** Cutting down the bucket stage by stage leaves what passes all tests at once. */
  lemma AverageStagesAreOne(s: Indexed, q: AverageQuery, calendar: Calendar, bucket: seq<Entry>)
    ensures AverageStages(s, q, calendar, bucket) == Filter(bucket, AverageTest(s, q, calendar))
  {
    FilterFive(bucket,
               If(q.fromDate != TIMESTAMP_MIN, AfterTest(q.fromDate)),
               If(q.toDate != TIMESTAMP_MAX, BeforeTest(q.toDate)),
               If(q.fromAge != TIMESTAMP_MIN, AgeTest(s, Greater, calendar(AgeOf(q.fromAge)))),
               If(q.toAge != TIMESTAMP_MAX, AgeTest(s, Less, calendar(AgeOf(q.toAge)))),
               If(q.gender != Any, GenderTest(s, q.gender)),
               AverageTest(s, q, calendar));
  }

  predicate AsksNothing(q: AverageQuery) {
    q == BlankAverageQuery(q.id)
  }

  /** The visit counts for the indexed average. The user is looked up only for a bound. */
  predicate VisitCounts(t: Tables, q: AverageQuery, calendar: Calendar, v: Visit) {
    && InWindow(q.fromDate, q.toDate, v.visitedAt)
    && (AsksUsers(q) ==>
          && v.userId in t.users
          && GenderFits(q, t.users[v.userId])
          && AgeFitsLoosely(q, calendar, t.users[v.userId]))
  }

  /** The visit of the table, with the user that the owner map names. */
  function AsOwned(s: Indexed, id: Id): Visit
    requires id in s.tables.visits
  {
    if id in s.visitsToUser then s.tables.visits[id].(userId := s.visitsToUser[id]) else s.tables.visits[id]
  }

  /** The scan of the visit table for the mapped visits that count. */
  ghost function AverageScan(s: Indexed, q: AverageQuery, calendar: Calendar): (ids: set<Id>) {
    set id | id in s.tables.visits && id in s.visitsToLocations
             && s.tables.visits[id].locationId == q.id && VisitCounts(s.tables, q, calendar, AsOwned(s, id))
  }

  /** The selection, with the calendar's date for an age `a` and an age `b` in whatever way the two
      bounds give them, and the numbers for "no bound" written out. */
  lemma SelectionIs(s: Indexed, q: AverageQuery, calendar: Calendar, id: Id, a: int, b: int, j: int, k: int)
    requires OwnersAgree(s)
    requires 0 <= a < 0x1_0000 && q.fromAge == a + j * 0x1_0000
    requires 0 <= b < 0x1_0000 && q.toAge == b + k * 0x1_0000
    ensures id in AverageScan(s, q, calendar) <==>
      var t := s.tables;
      && id in t.visits && id in s.visitsToLocations && t.visits[id].locationId == q.id
      && (q.fromDate == -0x8000_0000_0000_0000 || q.fromDate < t.visits[id].visitedAt)
      && (q.toDate == 0x7FFF_FFFF_FFFF_FFFF || t.visits[id].visitedAt < q.toDate)
      && ((q.gender == Any && q.fromAge == -0x8000_0000_0000_0000 && q.toAge == 0x7FFF_FFFF_FFFF_FFFF)
          || t.visits[id].userId in t.users)
      && (q.gender == Any || t.users[t.visits[id].userId].gender == q.gender)
      && (q.fromAge == -0x8000_0000_0000_0000 || t.users[t.visits[id].userId].birthDate <= calendar(a))
      && (q.toAge == 0x7FFF_FFFF_FFFF_FFFF || t.users[t.visits[id].userId].birthDate >= calendar(b))
  {
    AgeOfBound(a, j, q.fromAge);
    AgeOfBound(b, k, q.toAge);
    if id in s.tables.visits {
      ScanReadsTable(s, q, calendar, id);
    }
  }

  /** The answer of the indexed store, in whatever order the visits of the scan are listed. */
  lemma AnswerIs(s: Indexed, q: AverageQuery, calendar: Calendar, ids: seq<Id>)
    requires Enumerates(ids, AverageScan(s, q, calendar))
    ensures AverageAnswer(s, q, calendar)
      == if q.id !in s.tables.locations then NoLocation
         else if EmptyBucketAsked(s, q) then Mean(0, 0)
         else if ids == [] then NoMarks
         else Mean(Total(s.tables.visits, ids), |ids|)
  {
    AnswerIsTotal(s.tables.visits, ids, AverageScan(s, q, calendar));
  }

  /** While the owner maps agree with the table, the scan reads nothing but the table. */
  lemma ScanReadsTable(s: Indexed, q: AverageQuery, calendar: Calendar, id: Id)
    requires OwnersAgree(s) && id in s.tables.visits
    ensures AsOwned(s, id) == s.tables.visits[id]
    ensures id in AverageScan(s, q, calendar) <==>
              && id in s.visitsToLocations && s.tables.visits[id].locationId == q.id
              && VisitCounts(s.tables, q, calendar, s.tables.visits[id])
  {
  }

  /** The ids of the entries that pass every stage. */
  function IdSet(s: seq<Entry>): set<Id> {
    set e | e in s :: e.id
  }

  ghost predicate DistinctIds(s: seq<Entry>) {
    forall i, j :: 0 <= i < j < |s| ==> s[i].id != s[j].id
  }

  lemma TestsReadMaps(s: Indexed, q: AverageQuery, calendar: Calendar, id: Id)
    requires OwnersKnown(s) && id in s.visitsToLocations
    ensures AverageTest(s, q, calendar)(Entry(s.tables.visits[id].visitedAt, id))
      <==> VisitCounts(s.tables, q, calendar, AsOwned(s, id))
  {
    assert id in s.visitsToUser.Keys;
    var v, e := AsOwned(s, id), Entry(s.tables.visits[id].visitedAt, id);
    assert AfterTest(q.fromDate)(e) <==> q.fromDate < v.visitedAt;
    assert BeforeTest(q.toDate)(e) <==> v.visitedAt < q.toDate;
    assert GenderTest(s, q.gender)(e) <==> v.userId in s.tables.users && s.tables.users[v.userId].gender == q.gender;
    assert AgeTest(s, Greater, calendar(AgeOf(q.fromAge)))(e) <==>
      v.userId in s.tables.users && s.tables.users[v.userId].birthDate <= calendar(AgeOf(q.fromAge));
    assert AgeTest(s, Less, calendar(AgeOf(q.toAge)))(e) <==>
      v.userId in s.tables.users && s.tables.users[v.userId].birthDate >= calendar(AgeOf(q.toAge));
  }

  /** An entry is in a bucket exactly when the visit has its slot there. */
  lemma BucketMembers(index: Index, slots: map<Id, Slot>, key: Id, e: Entry)
    requires TimeIndex.Exact(index, slots)
    ensures e in Bucket(index, key) <==> e.id in slots && slots[e.id] == Slot(key, e.at)
  {
    assert e in multiset(Bucket(index, key)) <==> Count(index, key, e) > 0;
  }

  /** An exact bucket and all that is left of it name each visit once. */
  lemma FilteredIdsDiffer(index: Index, slots: map<Id, Slot>, key: Id, keep: Entry -> bool)
    requires TimeIndex.Exact(index, slots)
    ensures DistinctIds(Filter(Bucket(index, key), keep))
  {
    var s := Filter(Bucket(index, key), keep);
    FilterCounts(Bucket(index, key), keep);
    forall i, j | 0 <= i < j < |s| ensures s[i].id != s[j].id {
      if s[i].id == s[j].id {
        assert s[i] in multiset(s) && s[j] in multiset(s);
        assert Count(index, key, s[i]) > 0 && Count(index, key, s[j]) > 0;
        assert s[i] == s[j];
        OccursTwice(s, i, j);
      }
    }
  }

  lemma OccursTwice(s: seq<Entry>, i: nat, j: nat)
    requires i < j < |s| && s[i] == s[j]
    ensures multiset(s)[s[i]] >= 2
  {
    assert s == s[..j] + [s[j]] + s[j + 1..];
    assert s[i] in multiset(s[..j]);
  }

  lemma OneIdMore(s: seq<Entry>, i: nat)
    requires DistinctIds(s) && i < |s|
    ensures IdSet(s[..i + 1]) == IdSet(s[..i]) + {s[i].id} && s[i].id !in IdSet(s[..i])
  {
    assert s[..i + 1] == s[..i] + [s[i]];
    forall id | id in IdSet(s[..i]) + {s[i].id} ensures id in IdSet(s[..i + 1]) {
      if id == s[i].id {
        assert s[i] in s[..i + 1];
      } else {
        var e :| e in s[..i] && e.id == id;
        assert e in s[..i + 1];
      }
    }
  }

  /** What is left for the average names distinct visits of the table. */
  lemma LeftAreDistinct(s: Indexed, q: AverageQuery, calendar: Calendar)
    requires Keyed(s.tables) && OwnersKnown(s) && LocationsValid(s)
    ensures var left := AverageStages(s, q, calendar, Bucket(s.locationsToVisits, q.id));
            DistinctIds(left) && forall e :: e in left ==> e.id in s.tables.visits
  {
    var bucket, test := Bucket(s.locationsToVisits, q.id), AverageTest(s, q, calendar);
    var slots := LocationSlots(s.tables.visits, s.visitsToLocations.Keys);
    AverageStagesAreOne(s, q, calendar, bucket);
    FilteredIdsDiffer(s.locationsToVisits, slots, q.id, test);
    FilterIn(bucket, test);
    forall e | e in Filter(bucket, test) ensures e.id in s.tables.visits {
      BucketMembers(s.locationsToVisits, slots, q.id, e);
    }
  }

  lemma IdsAreVisits(t: Tables, left: seq<Entry>)
    requires forall e :: e in left ==> e.id in t.visits
    ensures IdSet(left) <= t.visits.Keys
  {
  }

  /** What passes the stages of the average is the scan of the visit table. */
  lemma StagesAreScan(s: Indexed, q: AverageQuery, calendar: Calendar)
    requires Keyed(s.tables) && OwnersKnown(s) && LocationsValid(s)
    ensures IdSet(Filter(Bucket(s.locationsToVisits, q.id), AverageTest(s, q, calendar))) == AverageScan(s, q, calendar)
  {
    var bucket, test := Bucket(s.locationsToVisits, q.id), AverageTest(s, q, calendar);
    var slots := LocationSlots(s.tables.visits, s.visitsToLocations.Keys);
    FilterIn(bucket, test);
    forall e | e in Filter(bucket, test) ensures e.id in AverageScan(s, q, calendar) {
      BucketMembers(s.locationsToVisits, slots, q.id, e);
      TestsReadMaps(s, q, calendar, e.id);
    }
    forall id | id in AverageScan(s, q, calendar) ensures id in IdSet(Filter(bucket, test)) {
      var e := Entry(s.tables.visits[id].visitedAt, id);
      BucketMembers(s.locationsToVisits, slots, q.id, e);
      TestsReadMaps(s, q, calendar, id);
      assert e in Filter(bucket, test);
    }
  }

  /** The location has a bucket without visits, and is asked for without any bound: the code
      then divides by the bucket's size of 0. */
  predicate EmptyBucketAsked(s: Indexed, q: AverageQuery) {
    q.id in s.tables.locations && q.id in s.locationsToVisits && s.locationsToVisits[q.id] == [] && AsksNothing(q)
  }

  /** The answer of the indexed store. */
  ghost function AverageAnswer(s: Indexed, q: AverageQuery, calendar: Calendar): MarkAnswer {
    if q.id !in s.tables.locations then NoLocation
    else if EmptyBucketAsked(s, q) then Mean(0, 0)
    else AnswerFor(s.tables.visits, AverageScan(s, q, calendar))
  }

  /** The quotient of 0 by 0 is printed exactly for an empty bucket asked without bounds; every
      other empty selection prints 0. */
  lemma ZeroByZeroIff(s: Indexed, q: AverageQuery, calendar: Calendar)
    ensures AverageAnswer(s, q, calendar) == Mean(0, 0) <==> EmptyBucketAsked(s, q)
    ensures q.id in s.tables.locations && AverageScan(s, q, calendar) == {} && !EmptyBucketAsked(s, q) ==>
              AverageAnswer(s, q, calendar) == NoMarks
  {
  }

  /** Without any bound nothing is cut from the bucket. */
  lemma NothingIsCut(s: Indexed, q: AverageQuery, calendar: Calendar, bucket: seq<Entry>)
    requires AsksNothing(q)
    ensures AverageStages(s, q, calendar, bucket) == bucket
  {
    AverageStagesAreOne(s, q, calendar, bucket);
    FilterAll(bucket, AverageTest(s, q, calendar));
  }

  /** The answer in terms of what the stages leave of the bucket. */
  lemma AnswerOfLeft(s: Indexed, q: AverageQuery, calendar: Calendar)
    requires Keyed(s.tables) && OwnersKnown(s) && LocationsValid(s) && q.id in s.tables.locations
    ensures var left := AverageStages(s, q, calendar, Bucket(s.locationsToVisits, q.id));
            && IdSet(left) <= s.tables.visits.Keys
            && (q.id !in s.locationsToVisits ==> AverageAnswer(s, q, calendar) == NoMarks)
            && (left == [] && !AsksNothing(q) ==> AverageAnswer(s, q, calendar) == NoMarks)
            && (q.id in s.locationsToVisits && (left == [] ==> AsksNothing(q)) ==>
                  AverageAnswer(s, q, calendar) == Mean(SumMarks(s.tables.visits, IdSet(left)), |IdSet(left)|))
  {
    var bucket := Bucket(s.locationsToVisits, q.id);
    StagesAreScan(s, q, calendar);
    AverageStagesAreOne(s, q, calendar, bucket);
    var left := AverageStages(s, q, calendar, bucket);
    assert left != [] ==> left[0].id in IdSet(left);
    assert IdSet([]) == {};
    if AsksNothing(q) {
      NothingIsCut(s, q, calendar, bucket);
    }
  }

  // ---- the visits of a user

  function VisitsTest(s: Indexed, q: VisitsQuery): Entry -> bool {
    (e: Entry) =>
      && (q.fromDate != TIMESTAMP_MIN ==> AfterTest(q.fromDate)(e))
      && (q.toDate != TIMESTAMP_MAX ==> BeforeTest(q.toDate)(e))
      && (q.country != "" ==> CountryTest(s, q.country)(e))
      && (q.toDistance != DISTANCE_MAX ==> DistanceTest(s, q.toDistance)(e))
  }

  /** The entries inside the dates. */
  function InDates(q: VisitsQuery, entries: seq<Entry>): seq<Entry> {
    var s1 := Stage(entries, q.fromDate != TIMESTAMP_MIN, AfterTest(q.fromDate));
    Stage(s1, q.toDate != TIMESTAMP_MAX, BeforeTest(q.toDate))
  }

  function LocationStages(s: Indexed, q: VisitsQuery, entries: seq<Entry>): seq<Entry> {
    var s3 := Stage(entries, q.country != "", CountryTest(s, q.country));
    Stage(s3, q.toDistance != DISTANCE_MAX, DistanceTest(s, q.toDistance))
  }

  predicate AsksLocations(q: VisitsQuery) {
    q.country != "" || q.toDistance != DISTANCE_MAX
  }

  /** No entry gets the loops over the locations stuck. */
  ghost predicate MappedLocationsExist(s: Indexed, entries: seq<Entry>) {
    forall e :: e in entries && e.id in s.visitsToLocations ==> s.visitsToLocations[e.id] in s.tables.locations
  }

  /** What the country loop does with an entry. */
  function CountryVerdict(s: Indexed, country: string): Entry -> Verdict {
    (e: Entry) =>
      if e.id !in s.visitsToLocations then Erase
      else if s.visitsToLocations[e.id] !in s.tables.locations then Stuck
      else if s.tables.locations[s.visitsToLocations[e.id]].country != country then Erase
      else Keep
  }

  /** What the distance loop does with an entry. */
  function DistanceVerdict(s: Indexed, toDistance: Distance): Entry -> Verdict {
    (e: Entry) =>
      if e.id !in s.visitsToLocations then Erase
      else if s.visitsToLocations[e.id] !in s.tables.locations then Stuck
      else if s.tables.locations[s.visitsToLocations[e.id]].distance >= toDistance then Erase
      else Keep
  }

  /** The country loop and the distance loop end exactly when the mapped locations exist. */
  lemma LocationLoopsEndIff(s: Indexed, country: string, toDistance: Distance, entries: seq<Entry>)
    ensures Ends(CountryVerdict(s, country), Walk(entries, 0)) <==> MappedLocationsExist(s, entries)
    ensures Ends(DistanceVerdict(s, toDistance), Walk(entries, 0)) <==> MappedLocationsExist(s, entries)
  {
    assert entries[0..] == entries;
    WalkEndsIff(CountryVerdict(s, country), Walk(entries, 0));
    WalkEndsIff(DistanceVerdict(s, toDistance), Walk(entries, 0));
  }

  /** Whenever one of these loops has ended, it has left the entries that pass its test. */
  lemma LocationLoopsLeave(s: Indexed, country: string, toDistance: Distance, entries: seq<Entry>, n: nat)
    ensures var end := Rounds(CountryVerdict(s, country), Walk(entries, 0), n);
            end.cursor >= |end.entries| ==> end.entries == Filter(entries, CountryTest(s, country))
    ensures var end := Rounds(DistanceVerdict(s, toDistance), Walk(entries, 0), n);
            end.cursor >= |end.entries| ==> end.entries == Filter(entries, DistanceTest(s, toDistance))
  {
    var start := Walk(entries, 0);
    assert entries[0..] == entries && entries[..0] == [];
    var byCountry := Rounds(CountryVerdict(s, country), start, n);
    if byCountry.cursor >= |byCountry.entries| {
      WalkLeaves(CountryVerdict(s, country), CountryTest(s, country), start, n);
    }
    var byDistance := Rounds(DistanceVerdict(s, toDistance), start, n);
    if byDistance.cursor >= |byDistance.entries| {
      WalkLeaves(DistanceVerdict(s, toDistance), DistanceTest(s, toDistance), start, n);
    }
  }

  /** The owner map names only locations that exist. */
  ghost predicate OwnedLocationsExist(s: Indexed) {
    forall id :: id in s.visitsToLocations ==> s.visitsToLocations[id] in s.tables.locations
  }

  /** Where the location side stands, every visits query finds the visits it looks up; its loops
      end if the owner map names only locations that exist. */
  lemma QueriesEnd(s: Indexed, q: VisitsQuery)
    requires Standing(s)
    ensures forall e :: e in Bucket(s.usersToVisits, q.id) ==> e.id in s.tables.visits
    ensures OwnedLocationsExist(s) ==> MappedLocationsExist(s, InDates(q, Bucket(s.usersToVisits, q.id)))
  {
    forall e | e in Bucket(s.usersToVisits, q.id) ensures e.id in s.tables.visits {
      assert Count(s.usersToVisits, q.id, e) > 0;
    }
  }

  // The owner map goes on naming only locations that exist, in either variant.

  ghost predicate Serving(s: Indexed) {
    Standing(s) && Closed(s.tables) && OwnedLocationsExist(s)
  }

  lemma LoadedServes(s: Indexed)
    requires Valid(s) && Closed(s.tables)
    ensures Serving(s)
  {
    ValidStands(s);
  }

  /** The users and the locations are those of `t`: an operation that is refused only for its
      visit leaves the visits of the two apart. */
  predicate SameReferred(t: Tables, s: Indexed) {
    t.users == s.tables.users && t.locations == s.tables.locations
  }

  lemma StepKeepsReferred(variant: Variant, s: Indexed, t: Tables, op: Op)
    requires SameReferred(t, s)
    ensures SameReferred(TablesAfter(t, op), Step(variant, s, op).0)
    ensures ReferencesExist(t, op) <==> ReferencesExist(s.tables, op)
  {
  }

  lemma ServesAfterAdd(s: Indexed, after: Indexed, v: Visit)
    requires Serving(s) && ReferencesExist(s.tables, Op.AddVisit(v)) && Standing(after)
    requires after.tables == TablesAfter(s.tables, Op.AddVisit(v))
    requires after.visitsToLocations == s.visitsToLocations
        || after.visitsToLocations == s.visitsToLocations[v.id := v.locationId]
    ensures Serving(after)
  {
    StepKeepsClosed(s.tables, Op.AddVisit(v));
    assert after.tables.locations == s.tables.locations;
  }

  lemma AddKeepsServing(s: Indexed, v: Visit)
    requires Serving(s) && ReferencesExist(s.tables, Op.AddVisit(v))
    ensures Serving(AddOutcome(s, v))
  {
    AddKeepsStanding(s, v);
    ServesAfterAdd(s, AddOutcome(s, v), v);
  }

  lemma TablesKeepServing(s: Indexed, op: Op)
    requires Serving(s) && ReferencesExist(s.tables, op) && !op.AddVisit? && !op.UpdateVisit?
    ensures Serving(s.(tables := TablesAfter(s.tables, op)))
  {
    StepKeepsStanding(Intended, s, op);
    StepKeepsClosed(s.tables, op);
    assert TablesAfter(s.tables, op).locations.Keys >= s.tables.locations.Keys;
  }

  /** An update of a mapped visit records the new location, and updates the table or not. */
  lemma UpdateIsEither(variant: Variant, s: Indexed, p: Visit)
    requires Standing(s) && p.id in s.visitsToLocations
    ensures var after := UpdateOutcome(variant, s, p).0;
            && after.visitsToLocations == s.visitsToLocations[p.id := Patched(s, p).locationId]
            && (after.tables == s.tables || after.tables == TablesAfter(s.tables, Op.UpdateVisit(p)))
  {
    OutcomeIs(variant, s, p);
  }

  lemma PatchedLocationExists(s: Indexed, p: Visit)
    requires Closed(s.tables) && ReferencesExist(s.tables, Op.UpdateVisit(p)) && p.id in s.tables.visits
    ensures Patched(s, p).locationId in s.tables.locations
    ensures Closed(TablesAfter(s.tables, Op.UpdateVisit(p)))
    ensures TablesAfter(s.tables, Op.UpdateVisit(p)).locations == s.tables.locations
  {
    StepKeepsClosed(s.tables, Op.UpdateVisit(p));
  }

  lemma ServesAfterUpdate(s: Indexed, after: Indexed, p: Visit)
    requires p.id in s.tables.visits && OwnedLocationsExist(s) && Patched(s, p).locationId in s.tables.locations
    requires Standing(after) && Closed(after.tables) && after.tables.locations == s.tables.locations
    requires after.visitsToLocations == s.visitsToLocations[p.id := Patched(s, p).locationId]
    ensures Serving(after)
  {
  }

  lemma UpdateKeepsServing(variant: Variant, s: Indexed, p: Visit)
    requires Serving(s) && ReferencesExist(s.tables, Op.UpdateVisit(p))
    ensures Serving(UpdateOutcome(variant, s, p).0)
  {
    if p.id in s.visitsToLocations {
      UpdateKeepsStanding(variant, s, p);
      UpdateIsEither(variant, s, p);
      PatchedLocationExists(s, p);
      ServesAfterUpdate(s, UpdateOutcome(variant, s, p).0, p);
    } else {
      UnmappedIsRefused(variant, s, p);
    }
  }

  lemma StepKeepsServing(variant: Variant, s: Indexed, op: Op)
    requires Serving(s) && ReferencesExist(s.tables, op)
    ensures Serving(Step(variant, s, op).0)
  {
    match op
    case UpdateVisit(p) => UpdateKeepsServing(variant, s, p);
    case AddVisit(v) => AddKeepsServing(s, v);
    case _ => TablesKeepServing(s, op);
  }

  lemma {:induction false} RunKeepsServing(variant: Variant, s: Indexed, t: Tables, ops: seq<Op>)
    requires Serving(s) && SameReferred(t, s) && ReferencesExistThroughout(t, ops)
    ensures Serving(Run(variant, s, ops).0)
    decreases |ops|
  {
    if ops != [] {
      StepKeepsReferred(variant, s, t, ops[0]);
      StepKeepsServing(variant, s, ops[0]);
      RunKeepsServing(variant, Step(variant, s, ops[0]).0, TablesAfter(t, ops[0]), ops[1..]);
    }
  }

  /** In either variant, after every run whose references exist from a valid state over closed
      tables, the loops of every visits query end. */
  lemma LoopsEndAfterRun(variant: Variant, s: Indexed, ops: seq<Op>, q: VisitsQuery)
    requires Valid(s) && Closed(s.tables) && ReferencesExistThroughout(s.tables, ops)
    ensures var end := Run(variant, s, ops).0;
            var entries := InDates(q, Bucket(end.usersToVisits, q.id));
            && Ends(CountryVerdict(end, q.country), Walk(entries, 0))
            && Ends(DistanceVerdict(end, q.toDistance), Walk(entries, 0))
  {
    LoadedServes(s);
    RunKeepsServing(variant, s, s.tables, ops);
    var end := Run(variant, s, ops).0;
    QueriesEnd(end, q);
    LocationLoopsEndIff(end, q.country, q.toDistance, InDates(q, Bucket(end.usersToVisits, q.id)));
  }

  /** All stages of the visits query, one after the other. */
  function VisitsStages(s: Indexed, q: VisitsQuery, bucket: seq<Entry>): seq<Entry> {
    LocationStages(s, q, InDates(q, bucket))
  }

  /** Cutting down the bucket stage by stage leaves what passes all tests at once. */
  lemma VisitsStagesAreOne(s: Indexed, q: VisitsQuery, bucket: seq<Entry>)
    ensures VisitsStages(s, q, bucket) == Filter(bucket, VisitsTest(s, q))
  {
    FilterFour(bucket,
               If(q.fromDate != TIMESTAMP_MIN, AfterTest(q.fromDate)),
               If(q.toDate != TIMESTAMP_MAX, BeforeTest(q.toDate)),
               If(q.country != "", CountryTest(s, q.country)),
               If(q.toDistance != DISTANCE_MAX, DistanceTest(s, q.toDistance)),
               VisitsTest(s, q));
  }

  /** What is listed of a user's bucket, with the numbers for "no bound" written out. */
  lemma ListedIs(s: Indexed, q: VisitsQuery, e: Entry)
    requires OwnersAgree(s) && e.id in s.visitsToLocations
    ensures e in VisitsLeft(s, q) <==>
      var location := s.tables.visits[e.id].locationId;
      && e in Bucket(s.usersToVisits, q.id)
      && (q.fromDate == -0x8000_0000_0000_0000 || q.fromDate < e.at)
      && (q.toDate == 0x7FFF_FFFF_FFFF_FFFF || e.at < q.toDate)
      && ((q.country == "" && q.toDistance == 0xFFFF_FFFF) || location in s.tables.locations)
      && (q.country == "" || s.tables.locations[location].country == q.country)
      && (q.toDistance == 0xFFFF_FFFF || s.tables.locations[location].distance < q.toDistance)
  {
    FilterIn(Bucket(s.usersToVisits, q.id), VisitsTest(s, q));
    assert AfterTest(q.fromDate)(e) <==> q.fromDate < e.at;
    assert BeforeTest(q.toDate)(e) <==> e.at < q.toDate;
  }

  /** The entries that pass every stage. */
  function VisitsLeft(s: Indexed, q: VisitsQuery): seq<Entry> {
    Filter(Bucket(s.usersToVisits, q.id), VisitsTest(s, q))
  }

  /** Over closed tables a valid store prints the comma-join of all entries that pass. */
  lemma TextIsJoin(s: Indexed, q: VisitsQuery)
    requires Valid(s) && Closed(s.tables)
    ensures Resolvable(s.tables, VisitsLeft(s, q))
    ensures VisitsText(s.tables, MarkFirst, VisitsLeft(s, q))
        == ListText(MarkFirst, Records(s.tables, VisitsLeft(s, q)))
  {
    ValidStands(s);
    QueriesEnd(s, q);
    FilterIn(Bucket(s.usersToVisits, q.id), VisitsTest(s, q));
    NoneIsSkipped(s.tables, MarkFirst, VisitsLeft(s, q));
  }
}
