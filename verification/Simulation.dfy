/** The two stores side by side: started from the same closed data they give the same
    statuses, keep the same tables and the same buckets, and answer alike but for the ties
    at their bounds. */
module Simulation {
  import opened Entities
  import opened Queries
  import opened Multimap
  import L = LiveState
  import I = IndexedState
  import MI = MultisetIndex
  import TI = TimeIndex
  import LQ = LiveQueries
  import IQ = IndexedQueries
  import W = IndexedAsWritten

  /** The stores hold the same tables, all visits are filed by location in both, and the owner
      maps of the indexed store agree with the table. Nothing is said of the users' indexes. */
  ghost predicate Alike(live: L.Live, indexed: I.Indexed) {
    && live.tables == indexed.tables
    && L.LocationExact(live)
    && I.Standing(indexed) && I.OwnersAgree(indexed) && AllMapped(indexed)
  }

  ghost predicate AllMapped(indexed: I.Indexed) {
    indexed.visitsToLocations.Keys == indexed.tables.visits.Keys
  }

  /** Both stores are loaded from the same closed data. */
  ghost predicate LoadedTogether(live: L.Live, indexed: I.Indexed) {
    L.Loaded(live) && I.Loaded(indexed) && live.tables == indexed.tables && Closed(live.tables)
  }

  lemma LoadsAreAlike(live: L.Live, indexed: I.Indexed)
    requires LoadedTogether(live, indexed)
    ensures Alike(live, indexed) && L.UserExact(live) && I.UsersValid(indexed)
  {
    L.LoadEstablishes(live);
    I.ValidStands(indexed);
    AllAreMapped(indexed);
  }

  lemma KeysFollow(t: Tables, op: Op)
    ensures TablesAfter(t, op).visits.Keys
         == t.visits.Keys + if op.AddVisit? && op.visit.id !in t.visits then {op.visit.id} else {}
    ensures op.UpdateVisit? && op.visit.id !in t.visits ==> TablesAfter(t, op) == t && StatusOf(t, op) == EntityNotFound
  {
  }

  /** With all visits mapped, an update that finds its visit answers and changes the tables as
      they say; one that finds nothing is refused although the visit is there. */
  lemma UpdateFollowsTables(variant: Variant, indexed: I.Indexed, p: Visit)
    requires I.Standing(indexed) && I.OwnersAgree(indexed) && p.id in indexed.visitsToLocations
    ensures var (after, status) := I.UpdateOutcome(variant, indexed, p);
            if I.FindsNothing(variant, indexed, p) then status == EntityNotFound
            else status == EntitySuccessfullyUpdated
                 && after.tables == TablesAfter(indexed.tables, Op.UpdateVisit(p))
                 && I.OwnersAgree(after) && after.visitsToLocations.Keys == indexed.visitsToLocations.Keys
  {
    I.OutcomeIs(variant, indexed, p);
    if !I.FindsNothing(variant, indexed, p) {
      var after := I.UpdateOutcome(variant, indexed, p).0;
      I.UpdateKeepsOwners(indexed, p, after.usersToVisits, after.locationsToVisits);
    }
  }

  lemma AddFollows(indexed: I.Indexed, v: Visit)
    requires I.OwnersAgree(indexed) && AllMapped(indexed)
    ensures var after := I.AddOutcome(indexed, v);
            && after.tables == TablesAfter(indexed.tables, Op.AddVisit(v))
            && I.OwnersAgree(after) && AllMapped(after)
  {
    KeysFollow(indexed.tables, Op.AddVisit(v));
    I.AddFollowsTables(indexed, v);
    if v.id !in indexed.tables.visits {
      I.AddKeepsOwners(indexed, v);
    }
  }

  lemma UpdateFollows(variant: Variant, indexed: I.Indexed, p: Visit)
    requires I.Standing(indexed) && I.OwnersAgree(indexed) && AllMapped(indexed)
    ensures var (after, status) := I.UpdateOutcome(variant, indexed, p);
            && (status == StatusOf(indexed.tables, Op.UpdateVisit(p))
                <==> !I.StepFindsNothing(variant, indexed, Op.UpdateVisit(p)))
            && (!I.StepFindsNothing(variant, indexed, Op.UpdateVisit(p)) ==>
                  after.tables == TablesAfter(indexed.tables, Op.UpdateVisit(p))
                      && I.OwnersAgree(after) && AllMapped(after))
  {
    KeysFollow(indexed.tables, Op.UpdateVisit(p));
    if p.id in indexed.visitsToLocations {
      UpdateFollowsTables(variant, indexed, p);
    } else {
      I.UnmappedIsRefused(variant, indexed, p);
    }
  }

  lemma OthersFollow(indexed: I.Indexed, op: Op)
    requires Keyed(indexed.tables) && I.OwnersAgree(indexed) && AllMapped(indexed) && !op.AddVisit? && !op.UpdateVisit?
    ensures var after := indexed.(tables := TablesAfter(indexed.tables, op)); I.OwnersAgree(after) && AllMapped(after)
  {
    I.OtherTables(indexed.tables, op);
  }

  lemma IndexedFollowsTables(variant: Variant, indexed: I.Indexed, op: Op)
    requires I.Standing(indexed) && I.OwnersAgree(indexed) && AllMapped(indexed)
    ensures var (after, status) := I.Step(variant, indexed, op);
            && (status == StatusOf(indexed.tables, op) <==> !I.StepFindsNothing(variant, indexed, op))
            && (!I.StepFindsNothing(variant, indexed, op) ==>
                  after.tables == TablesAfter(indexed.tables, op) && I.OwnersAgree(after) && AllMapped(after))
  {
    match op
    case AddVisit(v) => AddFollows(indexed, v);
    case UpdateVisit(p) => UpdateFollows(variant, indexed, p);
    case _ => OthersFollow(indexed, op);
  }

  /** One operation, whatever it refers to and in whichever variants: the stores answer with the
      same status exactly unless the indexed store finds nothing, and otherwise stay alike. */
  lemma StepKeepsAlike(variant: Variant, variant': Variant, live: L.Live, indexed: I.Indexed, op: Op)
    requires Alike(live, indexed)
    ensures I.Step(variant', indexed, op).1 == StatusOf(live.tables, op) <==> !I.StepFindsNothing(variant', indexed, op)
    ensures !I.StepFindsNothing(variant', indexed, op) ==>
              Alike(L.Step(variant, live, op), I.Step(variant', indexed, op).0)
  {
    L.StepKeepsLocationIndex(variant, live, op);
    I.StepKeepsStanding(variant', indexed, op);
    IndexedFollowsTables(variant', indexed, op);
  }

  /** The statuses of a run of the live store. */
  function Statuses(variant: Variant, s: L.Live, ops: seq<Op>): seq<Status>
    decreases |ops|
  {
    if ops == [] then [] else [StatusOf(s.tables, ops[0])] + Statuses(variant, L.Step(variant, s, ops[0]), ops[1..])
  }

  lemma SameHeads(a: Status, b: Status, x: seq<Status>, y: seq<Status>)
    ensures [a] + x == [b] + y <==> a == b && x == y
  {
    if [a] + x == [b] + y {
      assert ([a] + x)[0] == a && ([b] + y)[0] == b;
      assert ([a] + x)[1..] == x && ([b] + y)[1..] == y;
    }
  }

  /** Over a run the stores give the same statuses exactly if the indexed store always finds what
      it looks for, and then they stay alike. */
  lemma {:induction false} RunKeepsAlike(variant: Variant, variant': Variant, live: L.Live, indexed: I.Indexed,
      ops: seq<Op>)
    requires Alike(live, indexed)
    ensures I.Run(variant', indexed, ops).1 == Statuses(variant, live, ops)
        <==> !I.RunFindsNothing(variant', indexed, ops)
    ensures !I.RunFindsNothing(variant', indexed, ops) ==>
              Alike(L.Run(variant, live, ops), I.Run(variant', indexed, ops).0)
    decreases |ops|
  {
    if ops != [] {
      var (next, status) := I.Step(variant', indexed, ops[0]);
      StepKeepsAlike(variant, variant', live, indexed, ops[0]);
      SameHeads(status, StatusOf(live.tables, ops[0]),
                I.Run(variant', next, ops[1..]).1, Statuses(variant, L.Step(variant, live, ops[0]), ops[1..]));
      if !I.StepFindsNothing(variant', indexed, ops[0]) {
        RunKeepsAlike(variant, variant', L.Step(variant, live, ops[0]), next, ops[1..]);
      }
    }
  }

  /** The simulation, in whichever variants: from the same closed data, a run gives the same
      statuses exactly if the indexed store always finds what it looks for; then it gives the same
      tables, and every location's multimap holds the ids of its multiset. As meant, it always does. */
  lemma StoresSimulate(variant: Variant, variant': Variant, live: L.Live, indexed: I.Indexed, ops: seq<Op>)
    requires LoadedTogether(live, indexed)
    ensures var end, (end', statuses) := L.Run(variant, live, ops), I.Run(variant', indexed, ops);
            && (statuses == Statuses(variant, live, ops) <==> !I.RunFindsNothing(variant', indexed, ops))
            && (!I.RunFindsNothing(variant', indexed, ops) ==>
                  && end.tables == end'.tables
                  && (forall key :: MI.Bucket(end.locationsToVisits, key)
                                 == multiset(TI.IdsOf(TI.Bucket(end'.locationsToVisits, key)))))
            && (variant' == Intended ==> !I.RunFindsNothing(variant', indexed, ops))
  {
    LoadsAreAlike(live, indexed);
    RunKeepsAlike(variant, variant', live, indexed, ops);
    I.MeantFindsAll(indexed, ops);
    var end, end' := L.Run(variant, live, ops), I.Run(variant', indexed, ops).0;
    if !I.RunFindsNothing(variant', indexed, ops) {
      forall key
        ensures MI.Bucket(end.locationsToVisits, key) == multiset(TI.IdsOf(TI.Bucket(end'.locationsToVisits, key)))
      {
        BucketsHoldSameIds(end, end', key);
      }
    }
  }

  lemma LiveCount(live: L.Live, key: Id, id: Id)
    requires L.LocationExact(live)
    ensures MI.Bucket(live.locationsToVisits, key)[id]
         == if id in live.tables.visits && live.tables.visits[id].locationId == key then 1 else 0
  {
    var owners := L.LocationOwners(live.tables.visits);
    assert MI.Bucket(live.locationsToVisits, key)[id] == MI.Count(live.locationsToVisits, key, id);
    if id in owners {
      assert MI.Count(live.locationsToVisits, owners[id], id) >= 1;
    }
  }

  lemma IndexedCount(indexed: I.Indexed, key: Id, id: Id)
    requires I.LocationsValid(indexed) && AllMapped(indexed)
    ensures multiset(TI.IdsOf(TI.Bucket(indexed.locationsToVisits, key)))[id]
         == if id in indexed.tables.visits && indexed.tables.visits[id].locationId == key then 1 else 0
  {
    var visits, bucket := indexed.tables.visits, TI.Bucket(indexed.locationsToVisits, key);
    var slots := I.LocationSlots(visits, indexed.visitsToLocations.Keys);
    forall e | e in bucket ensures e.id in visits && visits[e.id].visitedAt == e.at {
      IQ.BucketMembers(indexed.locationsToVisits, slots, key, e);
    }
    TI.IdCounts(bucket, visits, id);
    if id in visits {
      var e := Entry(visits[id].visitedAt, id);
      assert TI.Count(indexed.locationsToVisits, key, e) == if slots[id] == TI.Slot(key, e.at) then 1 else 0;
    }
  }

  lemma BucketsHoldSameIds(live: L.Live, indexed: I.Indexed, key: Id)
    requires Alike(live, indexed)
    ensures MI.Bucket(live.locationsToVisits, key) == multiset(TI.IdsOf(TI.Bucket(indexed.locationsToVisits, key)))
  {
    forall id ensures MI.Bucket(live.locationsToVisits, key)[id]
                   == multiset(TI.IdsOf(TI.Bucket(indexed.locationsToVisits, key)))[id] {
      LiveCount(live, key, id);
      IndexedCount(indexed, key, id);
    }
  }

  // ---- the average

  /** The user's birth date is exactly an age boundary of the query. */
  predicate OnBoundary(q: AverageQuery, calendar: Calendar, u: User) {
    || (q.fromAge != TIMESTAMP_MIN && u.birthDate == calendar(AgeOf(q.fromAge)))
    || (q.toAge != TIMESTAMP_MAX && u.birthDate == calendar(AgeOf(q.toAge)))
  }

  /** A visit that the query selects, bounds included, is of a user born on a boundary. */
  ghost predicate SelectsTie(t: Tables, q: AverageQuery, calendar: Calendar) {
    exists id :: id in t.visits && t.visits[id].locationId == q.id
      && IQ.VisitCounts(t, q, calendar, t.visits[id])
      && t.visits[id].userId in t.users && OnBoundary(q, calendar, t.users[t.visits[id].userId])
  }

  /** On closed tables the strict test is the loose one without the ties. */
  lemma StrictIsLooseWithoutTies(t: Tables, q: AverageQuery, calendar: Calendar, v: Visit)
    requires v.userId in t.users
    ensures LQ.VisitCounts(t, q, calendar, v)
      <==> IQ.VisitCounts(t, q, calendar, v) && !OnBoundary(q, calendar, t.users[v.userId])
  {
  }

  lemma ScansDifferByTies(live: L.Live, indexed: I.Indexed, q: AverageQuery, calendar: Calendar)
    requires Alike(live, indexed) && Closed(live.tables)
    ensures LQ.AverageScan(live.tables, q, calendar) <= IQ.AverageScan(indexed, q, calendar)
    ensures LQ.AverageScan(live.tables, q, calendar) == IQ.AverageScan(indexed, q, calendar)
      <==> !SelectsTie(live.tables, q, calendar)
  {
    var t := live.tables;
    forall id | id in t.visits
      ensures id in LQ.AverageScan(t, q, calendar) <==>
                id in IQ.AverageScan(indexed, q, calendar) && !OnBoundary(q, calendar, t.users[t.visits[id].userId])
    {
      StrictIsLooseWithoutTies(t, q, calendar, t.visits[id]);
      IQ.ScanReadsTable(indexed, q, calendar, id);
    }
    if SelectsTie(t, q, calendar) {
      var id :| id in t.visits && t.visits[id].locationId == q.id && IQ.VisitCounts(t, q, calendar, t.visits[id])
        && t.visits[id].userId in t.users && OnBoundary(q, calendar, t.users[t.visits[id].userId]);
      IQ.ScanReadsTable(indexed, q, calendar, id);
      assert id in IQ.AverageScan(indexed, q, calendar) && id !in LQ.AverageScan(t, q, calendar);
    }
  }

  /** A proper subset has fewer elements. */
  lemma SmallerSet<T>(a: set<T>, b: set<T>)
    requires a <= b && a != b
    ensures |a| < |b|
  {
    var x :| x in b && x !in a;
    assert a + {x} <= b;
    var rest := b - (a + {x});
    assert b == a + {x} + rest;
  }

  lemma FiledIsScan(live: L.Live, q: AverageQuery, calendar: Calendar)
    requires L.LocationExact(live)
    ensures LQ.FiledSelection(live, q, calendar) == LQ.AverageScan(live.tables, q, calendar)
  {
    forall id | id in LQ.AverageScan(live.tables, q, calendar)
      ensures MI.Count(live.locationsToVisits, q.id, id) > 0
    {
      LiveCount(live, q.id, id);
    }
  }

  /** On alike stores with closed tables, the two averages answer alike exactly when no selected
      visit is of a user born on an age boundary of the query and the query does not ask,
      without any bound, for a location whose bucket has become empty. */
  lemma AveragesAgreeIff(live: L.Live, indexed: I.Indexed, q: AverageQuery, calendar: Calendar)
    requires Alike(live, indexed) && Closed(live.tables)
    ensures LQ.AverageAnswer(live, q, calendar) == IQ.AverageAnswer(indexed, q, calendar)
      <==> !SelectsTie(live.tables, q, calendar) && !IQ.EmptyBucketAsked(indexed, q)
  {
    FiledIsScan(live, q, calendar);
    ScansDifferByTies(live, indexed, q, calendar);
    var strict, loose := LQ.AverageScan(live.tables, q, calendar), IQ.AverageScan(indexed, q, calendar);
    if strict != loose {
      SmallerSet(strict, loose);
      SomeLocation(live.tables, q, calendar);
    }
    if IQ.EmptyBucketAsked(indexed, q) {
      EmptyBucketHasNoScan(indexed, q, calendar);
    }
  }

  lemma SomeLocation(t: Tables, q: AverageQuery, calendar: Calendar)
    requires Closed(t) && SelectsTie(t, q, calendar)
    ensures q.id in t.locations
  {
  }

  lemma EmptyBucketHasNoScan(indexed: I.Indexed, q: AverageQuery, calendar: Calendar)
    requires I.Standing(indexed) && IQ.EmptyBucketAsked(indexed, q)
    ensures IQ.AverageScan(indexed, q, calendar) == {}
  {
    IQ.StagesAreScan(indexed, q, calendar);
  }

  lemma {:induction false} RunKeepsClosed(variant: Variant, s: L.Live, ops: seq<Op>)
    requires Closed(s.tables) && ReferencesExistThroughout(s.tables, ops)
    ensures Closed(L.Run(variant, s, ops).tables)
    decreases |ops|
  {
    if ops != [] {
      StepKeepsClosed(s.tables, ops[0]);
      RunKeepsClosed(variant, L.Step(variant, s, ops[0]), ops[1..]);
    }
  }

  /** The simulation for the averages: from the same closed data, after every run whose
      references exist and in which the indexed store always finds what it looks for, an average
      query is answered alike exactly when it selects no tie and does not ask for an empty bucket
      without bounds. */
  lemma AveragesSimulate(variant: Variant, variant': Variant, live: L.Live, indexed: I.Indexed, ops: seq<Op>,
                         q: AverageQuery, calendar: Calendar)
    requires LoadedTogether(live, indexed) && ReferencesExistThroughout(live.tables, ops)
    requires variant' == Intended || !I.RunFindsNothing(variant', indexed, ops)
    ensures var end, end' := L.Run(variant, live, ops), I.Run(variant', indexed, ops).0;
            LQ.AverageAnswer(end, q, calendar) == IQ.AverageAnswer(end', q, calendar)
            <==> !SelectsTie(end.tables, q, calendar) && !IQ.EmptyBucketAsked(end', q)
  {
    LoadsAreAlike(live, indexed);
    I.MeantFindsAll(indexed, ops);
    RunKeepsAlike(variant, variant', live, indexed, ops);
    RunKeepsClosed(variant, live, ops);
    AveragesAgreeIff(L.Run(variant, live, ops), I.Run(variant', indexed, ops).0, q, calendar);
  }

  // ---- the visits of a user

  /** Without a distance bound, one of the user's visits passes all else and is at the largest
      distance there is: the live store compares it with the sentinel and drops it. */
  ghost predicate AtSentinelDistance(t: Tables, q: VisitsQuery) {
    q.toDistance == DISTANCE_MAX && exists id :: id in t.visits && DroppedBySentinel(t, q, t.visits[id])
  }

  predicate DroppedBySentinel(t: Tables, q: VisitsQuery, v: Visit) {
    && v.userId == q.id
    && v.locationId in t.locations && t.locations[v.locationId].distance == DISTANCE_MAX
    && InWindow(q.fromDate, q.toDate, v.visitedAt)
    && (q.country != "" ==> q.country == t.locations[v.locationId].country)
  }

  /** The staged tests and the one-pass test differ only by the distance sentinel. */
  lemma TestsDiffer(indexed: I.Indexed, q: VisitsQuery, id: Id)
    requires Keyed(indexed.tables) && I.OwnersAgree(indexed) && Closed(indexed.tables)
        && id in indexed.visitsToLocations
    requires indexed.tables.visits[id].userId == q.id
    ensures var e := Entry(indexed.tables.visits[id].visitedAt, id);
            IQ.VisitsTest(indexed, q)(e) <==>
              LQ.Chosen(indexed.tables, q, e)
              || (q.toDistance == DISTANCE_MAX && DroppedBySentinel(indexed.tables, q, indexed.tables.visits[id]))
  {
    var v, e := indexed.tables.visits[id], Entry(indexed.tables.visits[id].visitedAt, id);
    var l := indexed.tables.locations[v.locationId];
    assert IQ.AfterTest(q.fromDate)(e) <==> q.fromDate < v.visitedAt;
    assert IQ.BeforeTest(q.toDate)(e) <==> v.visitedAt < q.toDate;
    assert IQ.CountryTest(indexed, q.country)(e) <==> l.country == q.country;
    assert IQ.DistanceTest(indexed, q.toDistance)(e) <==> l.distance < q.toDistance;
  }

  lemma LeftCount(indexed: I.Indexed, q: VisitsQuery, e: Entry)
    requires I.UsersValid(indexed) && AllMapped(indexed)
    ensures multiset(IQ.VisitsLeft(indexed, q))[e]
      == if e.id in indexed.tables.visits && indexed.tables.visits[e.id].userId == q.id
            && indexed.tables.visits[e.id].visitedAt == e.at && IQ.VisitsTest(indexed, q)(e) then 1 else 0
  {
    FilterCounts(TI.Bucket(indexed.usersToVisits, q.id), IQ.VisitsTest(indexed, q));
    var slots := I.UserSlots(indexed.tables.visits, indexed.visitsToLocations.Keys);
    assert TI.Count(indexed.usersToVisits, q.id, e)
        == if e.id in slots && slots[e.id] == TI.Slot(q.id, e.at) then 1 else 0;
  }

  /** Both stores are exact on the user side. */
  ghost predicate AlikeForUsers(live: L.Live, indexed: I.Indexed) {
    Alike(live, indexed) && L.UserExact(live) && I.UsersValid(indexed) && Closed(live.tables)
  }

  /** How often the indexed store lists the entry beyond what the live store does. */
  function Surplus(t: Tables, q: VisitsQuery, e: Entry): nat {
    if e.id in t.visits && e.at == t.visits[e.id].visitedAt && q.toDistance == DISTANCE_MAX
       && DroppedBySentinel(t, q, t.visits[e.id]) then 1 else 0
  }

  /** How often a right list of the live store holds the entry. */
  function Share(t: Tables, q: VisitsQuery, e: Entry): nat {
    if LQ.Chosen(t, q, e) && t.visits[e.id].userId == q.id then 1 else 0
  }

  /** What the indexed store lists, whatever has become of the live store's user index. */
  lemma LeftIsShareAndSurplus(live: L.Live, indexed: I.Indexed, q: VisitsQuery, e: Entry)
    requires Alike(live, indexed) && I.UsersValid(indexed) && Closed(live.tables)
    ensures multiset(IQ.VisitsLeft(indexed, q))[e] == Share(live.tables, q, e) + Surplus(live.tables, q, e)
  {
    LeftCount(indexed, q, e);
    if e.id in live.tables.visits && live.tables.visits[e.id].userId == q.id {
      assert e.id in indexed.visitsToLocations.Keys;
      TestsDiffer(indexed, q, e.id);
    }
  }

  lemma EntryCounts(live: L.Live, indexed: I.Indexed, q: VisitsQuery, entries: seq<Entry>, e: Entry)
    requires AlikeForUsers(live, indexed)
    requires LQ.ListsBucket(live.tables, q, MI.Bucket(live.usersToVisits, q.id), entries)
    ensures multiset(IQ.VisitsLeft(indexed, q))[e] == multiset(entries)[e] + Surplus(live.tables, q, e)
  {
    LQ.ListIsTheUsersVisits(live, q, entries);
    LeftIsShareAndSurplus(live, indexed, q, e);
  }

  lemma NoSurplusIff(t: Tables, q: VisitsQuery, left: multiset<Entry>, listed: multiset<Entry>)
    requires forall e :: left[e] == listed[e] + Surplus(t, q, e)
    ensures left == listed <==> !AtSentinelDistance(t, q)
  {
    if AtSentinelDistance(t, q) {
      var id :| id in t.visits && DroppedBySentinel(t, q, t.visits[id]);
      assert Surplus(t, q, Entry(t.visits[id].visitedAt, id)) == 1;
    }
  }

  /** Cutting the bucket down by date, country and distance, early exits included, leaves the
      same multiset of visits as the one-pass walk, exactly when none of the user's visits is
      at the sentinel distance; both lists are in the order of time. */
  lemma StagedIsOnePassIff(live: L.Live, indexed: I.Indexed, q: VisitsQuery, entries: seq<Entry>)
    requires AlikeForUsers(live, indexed)
    requires LQ.ListsBucket(live.tables, q, MI.Bucket(live.usersToVisits, q.id), entries)
    ensures multiset(IQ.VisitsLeft(indexed, q)) == multiset(entries) <==> !AtSentinelDistance(live.tables, q)
    ensures Sorted(entries) && Sorted(IQ.VisitsLeft(indexed, q))
  {
    forall e ensures multiset(IQ.VisitsLeft(indexed, q))[e] == multiset(entries)[e] + Surplus(live.tables, q, e) {
      EntryCounts(live, indexed, q, entries, e);
    }
    NoSurplusIff(live.tables, q, multiset(IQ.VisitsLeft(indexed, q)), multiset(entries));
    LeftIsSorted(indexed, q);
  }

  lemma LeftIsSorted(indexed: I.Indexed, q: VisitsQuery)
    requires I.UsersValid(indexed)
    ensures Sorted(IQ.VisitsLeft(indexed, q))
  {
    FilterSorted(TI.Bucket(indexed.usersToVisits, q.id), IQ.VisitsTest(indexed, q));
  }

  /** Of two of the user's visits at one time that the indexed store lists, the one put in later
      has the smaller id. */
  ghost predicate PutInOutOfOrder(indexed: I.Indexed, q: VisitsQuery) {
    !PassInOrder(TI.Bucket(indexed.usersToVisits, q.id), IQ.VisitsTest(indexed, q))
  }

  /** The two stores list the same visits in the same order exactly when none is at the sentinel
      distance and none of those listed at one time was put in out of order: the live store lists
      them by id, the indexed store in the order in which they were put in. */
  lemma ListsAgreeIff(live: L.Live, indexed: I.Indexed, q: VisitsQuery, entries: seq<Entry>)
    requires AlikeForUsers(live, indexed)
    requires LQ.ListsBucket(live.tables, q, MI.Bucket(live.usersToVisits, q.id), entries)
    ensures IQ.VisitsLeft(indexed, q) == entries
      <==> !AtSentinelDistance(live.tables, q) && !PutInOutOfOrder(indexed, q)
  {
    StagedIsOnePassIff(live, indexed, q, entries);
    FilterLexSortedIff(TI.Bucket(indexed.usersToVisits, q.id), IQ.VisitsTest(indexed, q));
    if !AtSentinelDistance(live.tables, q) && !PutInOutOfOrder(indexed, q) {
      LexSortedIsUnique(IQ.VisitsLeft(indexed, q), entries);
    }
  }

  /** No two visits of the user are at one time. */
  ghost predicate TimesDiffer(t: Tables, user: Id) {
    forall id, other ::
      id in t.visits && other in t.visits && id != other && t.visits[id].userId == t.visits[other].userId == user ==>
        t.visits[id].visitedAt != t.visits[other].visitedAt
  }

  /** If the times of the user's visits differ, none is out of order, whatever was put in when. */
  lemma DifferentTimesAreInOrder(indexed: I.Indexed, q: VisitsQuery)
    requires I.UsersValid(indexed) && TimesDiffer(indexed.tables, q.id)
    ensures !PutInOutOfOrder(indexed, q)
  {
    var bucket, slots := TI.Bucket(indexed.usersToVisits, q.id),
        I.UserSlots(indexed.tables.visits, indexed.visitsToLocations.Keys);
    forall i, j | 0 <= i < j < |bucket| ensures InOrder(bucket[i], bucket[j]) {
      IQ.BucketMembers(indexed.usersToVisits, slots, q.id, bucket[i]);
      IQ.BucketMembers(indexed.usersToVisits, slots, q.id, bucket[j]);
      assert bucket[i].at <= bucket[j].at;
    }
  }

  /** Neither run spoils a user index: as meant none does; as written the live store loses track of
      no visit, and no operation of the indexed store goes stale. */
  predicate UsersKept(variant: Variant, variant': Variant, live: L.Live, indexed: I.Indexed, ops: seq<Op>) {
    && (variant == Intended || !L.RunLosesTrack(live, ops))
    && (variant' == Intended || !W.RunGoesStale(indexed, ops))
  }

  /** From the same closed data, after every run whose references exist and that spoils no user
      index, the visits of a user are listed alike: the same multiset exactly when none is at
      the sentinel distance, the same list exactly when, besides, none was put in out of order. */
  lemma VisitsSimulate(variant: Variant, variant': Variant, live: L.Live, indexed: I.Indexed, ops: seq<Op>,
                       q: VisitsQuery, entries: seq<Entry>)
    requires LoadedTogether(live, indexed) && ReferencesExistThroughout(live.tables, ops)
    requires UsersKept(variant, variant', live, indexed, ops)
    requires var end := L.Run(variant, live, ops);
             LQ.ListsBucket(end.tables, q, MI.Bucket(end.usersToVisits, q.id), entries)
    ensures var end, end' := L.Run(variant, live, ops), I.Run(variant', indexed, ops).0;
            && (multiset(IQ.VisitsLeft(end', q)) == multiset(entries) <==> !AtSentinelDistance(end.tables, q))
            && (IQ.VisitsLeft(end', q) == entries <==> !AtSentinelDistance(end.tables, q) && !PutInOutOfOrder(end', q))
            && (TimesDiffer(end.tables, q.id) ==> !PutInOutOfOrder(end', q))
  {
    LoadsAreAlike(live, indexed);
    IndexedUsersStay(variant, variant', live, indexed, ops);
    RunKeepsClosed(variant, live, ops);
    UsersStayExact(variant, live, ops);
    var end, end' := L.Run(variant, live, ops), I.Run(variant', indexed, ops).0;
    StagedIsOnePassIff(end, end', q, entries);
    ListsAgreeIff(end, end', q, entries);
    if TimesDiffer(end.tables, q.id) {
      DifferentTimesAreInOrder(end', q);
    }
  }

  /** The indexed store stays alike and keeps its user index. */
  lemma IndexedUsersStay(variant: Variant, variant': Variant, live: L.Live, indexed: I.Indexed, ops: seq<Op>)
    requires Alike(live, indexed) && I.UsersValid(indexed)
    requires variant' == Intended || !W.RunGoesStale(indexed, ops)
    ensures Alike(L.Run(variant, live, ops), I.Run(variant', indexed, ops).0)
    ensures I.UsersValid(I.Run(variant', indexed, ops).0)
  {
    if variant' == Intended {
      I.MeantFindsAll(indexed, ops);
      I.RunKeepsValid(indexed, ops);
    } else {
      W.FreshRunFindsAll(indexed, ops);
      W.RunAsWritten(indexed, ops);
    }
    RunKeepsAlike(variant, variant', live, indexed, ops);
  }

  /** For every visits query, what the indexed store lists is what any list of the live store holds. */
  ghost predicate ListsMatch(live: L.Live, indexed: I.Indexed) {
    forall q: VisitsQuery, entries ::
      LQ.ListsBucket(live.tables, q, MI.Bucket(live.usersToVisits, q.id), entries) ==>
        multiset(IQ.VisitsLeft(indexed, q)) == multiset(entries)
  }

  /** Without a visit at the sentinel distance the indexed store's lists are right, so the live
      store's match them exactly if they are. */
  lemma MatchIsRight(live: L.Live, indexed: I.Indexed)
    requires Alike(live, indexed) && I.UsersValid(indexed) && Closed(live.tables) && LQ.AllListable(live.tables)
    ensures ListsMatch(live, indexed) <==> LQ.AllListsRight(live)
  {
    forall q: VisitsQuery, entries
      ensures multiset(IQ.VisitsLeft(indexed, q)) == multiset(entries) <==> LQ.RightList(live.tables, q, entries)
    {
      RightIsLeft(live, indexed, q, entries);
    }
  }

  lemma RightIsLeft(live: L.Live, indexed: I.Indexed, q: VisitsQuery, entries: seq<Entry>)
    requires Alike(live, indexed) && I.UsersValid(indexed) && Closed(live.tables) && LQ.AllListable(live.tables)
    ensures multiset(IQ.VisitsLeft(indexed, q)) == multiset(entries) <==> LQ.RightList(live.tables, q, entries)
  {
    forall e ensures multiset(IQ.VisitsLeft(indexed, q))[e] == Share(live.tables, q, e) {
      LeftIsShareAndSurplus(live, indexed, q, e);
    }
  }

  /** The live store as written beside an indexed store that keeps its user index: after a run
      whose references exist and that ends with all visits listable, the two list the same visits
      for every query exactly when the live store has lost track of none. */
  lemma ListsMatchIff(variant': Variant, live: L.Live, indexed: I.Indexed, ops: seq<Op>)
    requires LoadedTogether(live, indexed) && ReferencesExistThroughout(live.tables, ops)
    requires variant' == Intended || !W.RunGoesStale(indexed, ops)
    requires LQ.AllListable(L.Run(AsWritten, live, ops).tables)
    ensures ListsMatch(L.Run(AsWritten, live, ops), I.Run(variant', indexed, ops).0) <==> !L.RunLosesTrack(live, ops)
  {
    LoadsAreAlike(live, indexed);
    IndexedUsersStay(AsWritten, variant', live, indexed, ops);
    RunKeepsClosed(AsWritten, live, ops);
    MatchIsRight(L.Run(AsWritten, live, ops), I.Run(variant', indexed, ops).0);
    LQ.ListsRightIff(live, ops);
  }

  lemma UsersStayExact(variant: Variant, live: L.Live, ops: seq<Op>)
    requires Keyed(live.tables) && L.UserExact(live)
    requires variant == Intended || !L.RunLosesTrack(live, ops)
    ensures L.UserExact(L.Run(variant, live, ops))
  {
    if variant == Intended {
      L.RunKeepsUserIndex(live, ops);
    } else {
      L.UserIndexRunAsWritten(live, ops);
    }
  }

  // ---- building the indexed store in one batch and one by one

  /** A store with the users and locations of `t`, and no visits. */
  function Bare(t: Tables): I.Indexed {
    I.Indexed(t.(visits := map[]), map[], map[], map[], map[])
  }

  lemma AddsFillBare(t: Tables, vs: seq<Visit>)
    requires Keyed(t) && L.Lists(vs, t.visits)
    ensures Alike(L.Run(Intended, L.WithoutVisits(t), L.Adds(vs)), I.Run(Intended, Bare(t), L.Adds(vs)).0)
    ensures I.Valid(I.Run(Intended, Bare(t), L.Adds(vs)).0) && I.Run(Intended, Bare(t), L.Adds(vs)).0.tables == t
  {
    I.NothingMapped(t.(visits := map[]));
    I.ValidStands(Bare(t));
    I.MeantFindsAll(Bare(t), L.Adds(vs));
    I.RunKeepsValid(Bare(t), L.Adds(vs));
    RunKeepsAlike(Intended, Intended, L.WithoutVisits(t), Bare(t), L.Adds(vs));
    L.IncrementalTables(Intended, t, vs);
  }

  /** The same entries in the same buckets, and the same owners. */
  ghost predicate SameIndexes(a: I.Indexed, b: I.Indexed) {
    && TI.SameContents(a.locationsToVisits, b.locationsToVisits) && TI.SameContents(a.usersToVisits, b.usersToVisits)
    && a.visitsToLocations == b.visitsToLocations && a.visitsToUser == b.visitsToUser
  }

  /** On closed data, mapping the whole table and adding its visits one by one, in any order,
      file the same entries in the same buckets of the indexed store. */
  lemma BatchEqualsIncremental(batch: I.Indexed, vs: seq<Visit>)
    requires I.Loaded(batch) && Closed(batch.tables) && L.Lists(vs, batch.tables.visits)
    ensures I.Run(Intended, Bare(batch.tables), L.Adds(vs)).0.tables == batch.tables
    ensures SameIndexes(I.Run(Intended, Bare(batch.tables), L.Adds(vs)).0, batch)
  {
    AddsFillBare(batch.tables, vs);
    AllAreMapped(batch);
    SameTablesSameIndexes(I.Run(Intended, Bare(batch.tables), L.Adds(vs)).0, batch);
  }

  lemma AllAreMapped(s: I.Indexed)
    requires I.Loaded(s) && Closed(s.tables)
    ensures AllMapped(s)
  {
    assert I.MappedIds(s.tables) == s.tables.visits.Keys;
  }

  /** Two valid states with the same tables and all visits mapped hold the same entries. */
  lemma SameTablesSameIndexes(a: I.Indexed, b: I.Indexed)
    requires I.Valid(a) && I.Valid(b) && a.tables == b.tables
    requires a.visitsToLocations.Keys == b.visitsToLocations.Keys
    ensures SameIndexes(a, b)
  {
    var visits, mapped := a.tables.visits, a.visitsToLocations.Keys;
    TI.ExactIsUnique(a.locationsToVisits, b.locationsToVisits, I.LocationSlots(visits, mapped));
    TI.ExactIsUnique(a.usersToVisits, b.usersToVisits, I.UserSlots(visits, mapped));
    OwnerMapsAgree(a, b);
  }

  lemma OwnerMapsAgree(a: I.Indexed, b: I.Indexed)
    requires I.OwnersAgree(a) && I.OwnersAgree(b) && a.tables == b.tables
    requires a.visitsToLocations.Keys == b.visitsToLocations.Keys
    ensures a.visitsToLocations == b.visitsToLocations && a.visitsToUser == b.visitsToUser
  {
  }

  // ---- partial updates of the indexed store compose

  lemma MeantUpdate(s: I.Indexed, p: Visit)
    requires I.Valid(s)
    ensures var (after, status) := I.UpdateOutcome(Intended, s, p);
            && I.Valid(after) && after.visitsToLocations.Keys == s.visitsToLocations.Keys
            && (if p.id in s.visitsToLocations
                then after.tables == TablesAfter(s.tables, Op.UpdateVisit(p)) && status == EntitySuccessfullyUpdated
                else after == s && status == EntityNotFound)
  {
    if p.id in s.visitsToLocations {
      I.UpdateKeepsValid(s, p);
    } else {
      I.UnmappedIsRefused(Intended, s, p);
    }
  }

  /** As meant, `p` then `q` leaves what `p` overridden by `q` leaves: the same status, tables
      and owners, and the same entries in the same buckets. Repeating `p` changes nothing. */
  lemma UpdatesCompose(s: I.Indexed, p: Visit, q: Visit)
    requires I.Valid(s) && p.id == q.id
    ensures var (first, status) := I.UpdateOutcome(Intended, s, p);
            var (twice, status') := I.UpdateOutcome(Intended, first, q);
            var (once, status'') := I.UpdateOutcome(Intended, s, MergeVisit(p, q));
            && status == status' == status''
            && twice.tables == once.tables && SameIndexes(twice, once)
            && (p == q ==> twice.tables == first.tables && SameIndexes(twice, first))
  {
    var first := I.UpdateOutcome(Intended, s, p).0;
    MeantUpdate(s, p);
    MeantUpdate(first, q);
    MeantUpdate(s, MergeVisit(p, q));
    VisitPatchLaws(s.tables, p, q);
    var twice, once := I.UpdateOutcome(Intended, first, q).0, I.UpdateOutcome(Intended, s, MergeVisit(p, q)).0;
    SameTablesSameIndexes(twice, once);
    if p == q {
      SameTablesSameIndexes(twice, first);
    }
  }
}
