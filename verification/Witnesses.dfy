/** Reachable states in which the conditions of the theorems fail: from one loaded store of two
    users, one location and one visit, a short run of operations leads to each of them. */
module Witnesses {
  import opened Entities
  import opened Queries
  import opened Multimap
  import opened VisitTexts
  import L = LiveState
  import I = IndexedState
  import MI = MultisetIndex
  import TI = TimeIndex
  import LQ = LiveQueries
  import IQ = IndexedQueries
  import W = IndexedAsWritten
  import S = Simulation

  /** Both stores, loaded from the same closed data. */
  lemma BothAreLoaded()
    ensures L.Loaded(L.SmallStore()) && I.Loaded(W.OneVisit())
    ensures L.SmallStore().tables == W.OneVisit().tables && Closed(L.SmallStore().tables)
  {
    L.SmallStoreIsLoaded();
    W.OneVisitIsValid();
  }

  lemma {:induction false} LiveRunOfOne(variant: Variant, s: L.Live, op: Op)
    ensures L.Run(variant, s, [op]) == L.Step(variant, s, op)
  {
    assert [op][1..] == [];
  }

  lemma {:induction false} LiveRunOfTwo(variant: Variant, s: L.Live, first: Op, second: Op)
    ensures L.Run(variant, s, [first, second]) == L.Step(variant, L.Step(variant, s, first), second)
  {
    assert [first, second][1..] == [second];
    LiveRunOfOne(variant, L.Step(variant, s, first), second);
  }

  // ---- the user side as written

  lemma MovedTables()
    ensures var t := TablesAfter(L.SmallStore().tables, L.SmallMove());
            t.visits.Keys == {7} && t.visits[7] == Visit(7, 3, 2, 0, 0) && t.locations == map[3 := BlankLocation(3)]
  {
  }

  lemma MoveLosesTrack()
    ensures L.LosesTrack(L.SmallStore().tables, L.SmallMove()) && L.SmallStore().tables.visits[7].userId == 1
  {
  }

  /** The live store as written moves visit 7 from user 1 to user 2 ... */
  lemma SmallMoveStrays()
    ensures L.RunLosesTrack(L.SmallStore(), [L.SmallMove()])
    ensures L.Stray(L.Step(AsWritten, L.SmallStore(), L.SmallMove()), 1, 7)
  {
    BothAreLoaded();
    L.LoadEstablishes(L.SmallStore());
    MoveLosesTrack();
    L.LosingTrackLeavesStray(L.SmallStore(), L.SmallMove());
  }

  /** ... and goes on listing it for user 1. */
  lemma StrayIsListed(entries: seq<Entry>)
    requires var end := L.Run(AsWritten, L.SmallStore(), [L.SmallMove()]);
             LQ.ListsBucket(end.tables, BlankVisitsQuery(1), MI.Bucket(end.usersToVisits, 1), entries)
    ensures L.Run(AsWritten, L.SmallStore(), [L.SmallMove()]).tables.visits[7].userId == 2
    ensures Entry(0, 7) in entries
  {
    var end := L.Step(AsWritten, L.SmallStore(), L.SmallMove());
    LiveRunOfOne(AsWritten, L.SmallStore(), L.SmallMove());
    SmallMoveStrays();
    MovedTables();
    ListedForOne(end, entries);
  }

  lemma ListedForOne(end: L.Live, entries: seq<Entry>)
    requires L.Stray(end, 1, 7) && end.tables.visits.Keys == {7} && end.tables.visits[7] == Visit(7, 3, 2, 0, 0)
    requires end.tables.locations == map[3 := BlankLocation(3)]
    requires LQ.ListsBucket(end.tables, BlankVisitsQuery(1), MI.Bucket(end.usersToVisits, 1), entries)
    ensures Entry(0, 7) in entries
  {
    LQ.StrayIsListed(end, 1, 7, entries);
    assert Entry(0, 7) in multiset(entries);
  }

  lemma {:induction false} StatusesOfTwo(variant: Variant, s: L.Live, first: Op, second: Op)
    ensures S.Statuses(variant, s, [first, second])
         == [StatusOf(s.tables, first), StatusOf(TablesAfter(s.tables, first), second)]
  {
    var mid := L.Step(variant, s, first);
    var x, y := StatusOf(s.tables, first), StatusOf(mid.tables, second);
    assert [first, second][1..] == [second] && [second][1..] == [];
    assert S.Statuses(variant, L.Step(variant, mid, second), []) == [];
    assert S.Statuses(variant, mid, [second]) == [y] + [];
    assert [x] + ([y] + []) == [x, y];
  }

  lemma BothAreAccepted()
    ensures var t := L.SmallStore().tables;
            && StatusOf(t, W.ChangeTime(5)) == EntitySuccessfullyUpdated
            && StatusOf(TablesAfter(t, W.ChangeTime(5)), W.ChangeUser(2)) == EntitySuccessfullyUpdated
  {
  }

  /** The indexed store as written refuses the second of two updates that the live store accepts. */
  lemma RefusalSplitsStatuses()
    ensures I.Run(AsWritten, W.OneVisit(), [W.ChangeTime(5), W.ChangeUser(2)]).1
         == [EntitySuccessfullyUpdated, EntityNotFound]
    ensures S.Statuses(AsWritten, L.SmallStore(), [W.ChangeTime(5), W.ChangeUser(2)])
         == [EntitySuccessfullyUpdated, EntitySuccessfullyUpdated]
  {
    W.RefusedUpdateLeavesTraces();
    StatusesOfTwo(AsWritten, L.SmallStore(), W.ChangeTime(5), W.ChangeUser(2));
    BothAreAccepted();
  }

  function SecondVisit(): Op { Op.AddVisit(Visit(9, 3, 1, 0, 0)) }

  function HandOver(): Op { Op.UpdateVisit(BlankVisit(9).(userId := 2)) }

  function TwoVisits(): I.Indexed { I.Step(AsWritten, W.OneVisit(), SecondVisit()).0 }

  lemma TwoVisitsAreValid()
    ensures I.Valid(TwoVisits()) && 9 in TwoVisits().visitsToLocations
    ensures 9 in TwoVisits().tables.visits && TwoVisits().tables.visits[9] == Visit(9, 3, 1, 0, 0)
  {
    W.OneVisitIsValid();
    I.AddKeepsValid(W.OneVisit(), SecondVisit().visit);
  }

  lemma SevenIsFoundFirst()
    ensures TI.Bucket(TwoVisits().usersToVisits, 1) == [Entry(0, 7), Entry(0, 9)]
    ensures W.FindsOther([Entry(0, 7), Entry(0, 9)], Entry(0, 9))
  {
    AddedIsPut(W.OneVisit(), SecondVisit().visit);
    assert UpperBound([Entry(0, 7)][1..], 0) == 0;
    assert UpperBound([Entry(0, 7)], 0) == 1;
    assert Inserted([Entry(0, 7)], Entry(0, 9)) == [Entry(0, 7), Entry(0, 9)];
    assert LowerBound([Entry(0, 7), Entry(0, 9)], 0) == 0;
  }

  /** Handing the second of two visits of one time to another user erases the first one's entry. */
  lemma OtherIsErased()
    ensures I.Valid(TwoVisits()) && W.StepGoesStale(TwoVisits(), HandOver())
    ensures !I.Valid(I.Step(AsWritten, TwoVisits(), HandOver()).0)
  {
    TwoVisitsAreValid();
    SevenIsFoundFirst();
    assert I.Patched(TwoVisits(), HandOver().visit).userId == 2;
    W.StepAsWritten(TwoVisits(), HandOver());
  }

  // ---- a birth date on an age bound

  /** User 1 is born at 100. */
  function Birth(): Op { Op.UpdateUser(BlankUser(1).(birthDate := 100)) }

  /** The calendar puts every age at birth date 100. */
  function FlatCalendar(): Calendar { (age: Age) => 100 }

  function FromTwenty(): AverageQuery { BlankAverageQuery(3).(fromAge := 20) }

  lemma TieIsSelected()
    ensures S.SelectsTie(TablesAfter(L.SmallStore().tables, Birth()), FromTwenty(), FlatCalendar())
  {
    var t := TablesAfter(L.SmallStore().tables, Birth());
    assert 7 in t.visits && t.visits[7].locationId == FromTwenty().id;
    assert t.users[1].birthDate == FlatCalendar()(AgeOf(20));
    assert IQ.VisitCounts(t, FromTwenty(), FlatCalendar(), t.visits[7]);
    assert S.OnBoundary(FromTwenty(), FlatCalendar(), t.users[t.visits[7].userId]);
  }

  /** Then the two averages differ, for the live store as written. */
  lemma TieSplitsAverages()
    ensures LQ.AverageAnswer(L.Run(AsWritten, L.SmallStore(), [Birth()]), FromTwenty(), FlatCalendar())
         != IQ.AverageAnswer(I.Run(Intended, W.OneVisit(), [Birth()]).0, FromTwenty(), FlatCalendar())
  {
    BothAreLoaded();
    TieIsSelected();
    LiveRunOfOne(AsWritten, L.SmallStore(), Birth());
    assert [Birth()][1..] == [];
    assert ReferencesExistThroughout(TablesAfter(L.SmallStore().tables, Birth()), []);
    assert ReferencesExistThroughout(L.SmallStore().tables, [Birth()]);
    S.AveragesSimulate(AsWritten, Intended, L.SmallStore(), W.OneVisit(), [Birth()], FromTwenty(), FlatCalendar());
  }

  // ---- an emptied bucket

  function NewLocation(): Op { Op.AddLocation(BlankLocation(4)) }

  function MoveAway(): Op { Op.UpdateVisit(BlankVisit(7).(locationId := 4)) }

  /** The loaded store with one more location. */
  function Roomy(): I.Indexed {
    W.OneVisit().(tables := W.OneVisit().tables.(locations := map[3 := BlankLocation(3), 4 := BlankLocation(4)]))
  }

  /** The store after its only visit has moved from location 3 to location 4. */
  function Emptied(): I.Indexed {
    Roomy().(tables := Roomy().tables.(visits := map[7 := Visit(7, 4, 1, 0, 0)]),
             visitsToLocations := map[7 := 4],
             locationsToVisits := map[3 := [], 4 := [Entry(0, 7)]])
  }

  lemma RoomIsMade()
    ensures I.Step(Intended, W.OneVisit(), NewLocation()) == (Roomy(), EntitySuccessfullyAdded)
  {
  }

  lemma EmptiedIsUpdated()
    ensures I.Patched(Roomy(), MoveAway().visit) == Visit(7, 4, 1, 0, 0)
    ensures I.Updated(Roomy(), MoveAway().visit, map[1 := [Entry(0, 7)]], map[3 := [], 4 := [Entry(0, 7)]]) == Emptied()
  {
    assert I.Patched(Roomy(), MoveAway().visit) == Visit(7, 4, 1, 0, 0);
    assert Roomy().tables.visits[7 := Visit(7, 4, 1, 0, 0)] == Emptied().tables.visits;
    assert map[7 := 3][7 := 4] == map[7 := 4 as Id] && map[7 := 1][7 := 1] == map[7 := 1 as Id];
  }

  lemma UserSideOfMove()
    ensures I.UserSide(Intended, Roomy().usersToVisits, Visit(7, 3, 1, 0, 0), Visit(7, 4, 1, 0, 0))
         == Some(map[1 := [Entry(0, 7)]])
  {
    var e := Entry(0, 7);
    W.RehomedAlone(1, e, 1, e);
    assert map[1 := [], 1 := [e]] == map[1 as Id := [e]];
  }

  lemma LocationSideOfMove()
    ensures I.LocationSide(Roomy().locationsToVisits, Visit(7, 3, 1, 0, 0), Visit(7, 4, 1, 0, 0))
         == Some(map[3 := [], 4 := [Entry(0, 7)]])
  {
    W.RehomedAlone(3, Entry(0, 7), 4, Entry(0, 7));
  }

  lemma VisitIsMoved()
    ensures I.Step(Intended, Roomy(), MoveAway()) == (Emptied(), EntitySuccessfullyUpdated)
  {
    UserSideOfMove();
    LocationSideOfMove();
    EmptiedIsUpdated();
    I.OutcomeOfSides(Intended, Roomy(), MoveAway().visit,
        Some(map[1 := [Entry(0, 7)]]), Some(map[3 := [], 4 := [Entry(0, 7)]]));
  }

  lemma VisitMovesAway()
    ensures I.Run(Intended, W.OneVisit(), [NewLocation(), MoveAway()])
         == (Emptied(), [EntitySuccessfullyAdded, EntitySuccessfullyUpdated])
  {
    RoomIsMade();
    VisitIsMoved();
    W.RunOfTwo(Intended, W.OneVisit(), NewLocation(), MoveAway());
  }

  /** The indexed store then answers 0 by 0 where the live store, as written, prints 0. */
  lemma EmptiedBucketSplitsAverages(calendar: Calendar)
    ensures IQ.AverageAnswer(I.Run(Intended, W.OneVisit(), [NewLocation(), MoveAway()]).0,
        BlankAverageQuery(3), calendar) == Mean(0, 0)
    ensures LQ.AverageAnswer(L.Run(AsWritten, L.SmallStore(), [NewLocation(), MoveAway()]),
        BlankAverageQuery(3), calendar) == NoMarks
  {
    VisitMovesAway();
    IQ.ZeroByZeroIff(Emptied(), BlankAverageQuery(3), calendar);
    var end := L.Run(AsWritten, L.SmallStore(), [NewLocation(), MoveAway()]);
    LiveRunOfTwo(AsWritten, L.SmallStore(), NewLocation(), MoveAway());
    assert end.tables.visits[7].locationId == 4;
    assert LQ.FiledSelection(end, BlankAverageQuery(3), calendar) == {};
  }

  // ---- a location at the largest distance

  function FarAway(): Op { Op.UpdateLocation(BlankLocation(3).(distance := DISTANCE_MAX)) }

  lemma SentinelIsDropped()
    ensures S.AtSentinelDistance(TablesAfter(L.SmallStore().tables, FarAway()), BlankVisitsQuery(1))
  {
    var t := TablesAfter(L.SmallStore().tables, FarAway());
    assert 7 in t.visits && S.DroppedBySentinel(t, BlankVisitsQuery(1), t.visits[7]);
  }

  /** Then the two stores list different visits, although no distance is asked for. */
  lemma SentinelSplitsLists(entries: seq<Entry>)
    requires var end := L.Run(Intended, L.SmallStore(), [FarAway()]);
             LQ.ListsBucket(end.tables, BlankVisitsQuery(1), MI.Bucket(end.usersToVisits, 1), entries)
    ensures multiset(IQ.VisitsLeft(I.Run(Intended, W.OneVisit(), [FarAway()]).0,
        BlankVisitsQuery(1))) != multiset(entries)
  {
    BothAreLoaded();
    SentinelIsDropped();
    LiveRunOfOne(Intended, L.SmallStore(), FarAway());
    assert [FarAway()][1..] == [];
    assert ReferencesExistThroughout(TablesAfter(L.SmallStore().tables, FarAway()), []);
    assert ReferencesExistThroughout(L.SmallStore().tables, [FarAway()]);
    S.VisitsSimulate(Intended, Intended, L.SmallStore(), W.OneVisit(), [FarAway()], BlankVisitsQuery(1), entries);
  }

  // ---- two visits at one time, put in against the order of their ids

  function AddNine(): Op { Op.AddVisit(Visit(9, 3, 2, 0, 0)) }

  function AddFive(): Op { Op.AddVisit(Visit(5, 3, 2, 0, 0)) }

  lemma InsertedTwo()
    ensures Inserted(Inserted([], Entry(0, 9)), Entry(0, 5)) == [Entry(0, 9), Entry(0, 5)]
  {
    assert Inserted([], Entry(0, 9)) == [Entry(0, 9)];
    assert UpperBound([Entry(0, 9)][1..], 0) == 0;
    assert UpperBound([Entry(0, 9)], 0) == 1;
  }

  /** A new visit goes into the bucket of its user. */
  lemma AddedIsPut(s: I.Indexed, v: Visit)
    requires v.id !in s.tables.visits
    ensures var (after, _) := I.Step(Intended, s, Op.AddVisit(v));
            && TI.Bucket(after.usersToVisits, v.userId) == Inserted(TI.Bucket(s.usersToVisits, v.userId), I.EntryOf(v))
            && after.tables.visits.Keys == s.tables.visits.Keys + {v.id}
  {
  }

  lemma TwoArePut(s: I.Indexed, v: Visit, w: Visit)
    requires v.id !in s.tables.visits && w.id !in s.tables.visits && v.id != w.id && v.userId == w.userId
    ensures TI.Bucket(I.Run(Intended, s, [Op.AddVisit(v), Op.AddVisit(w)]).0.usersToVisits, v.userId)
         == Inserted(Inserted(TI.Bucket(s.usersToVisits, v.userId), I.EntryOf(v)), I.EntryOf(w))
  {
    AddedIsPut(s, v);
    AddedIsPut(I.Step(Intended, s, Op.AddVisit(v)).0, w);
    W.RunOfTwo(Intended, s, Op.AddVisit(v), Op.AddVisit(w));
  }

  lemma BucketOfTwo()
    ensures TI.Bucket(I.Run(Intended, W.OneVisit(), [AddNine(), AddFive()]).0.usersToVisits, 2)
        == [Entry(0, 9), Entry(0, 5)]
  {
    TwoArePut(W.OneVisit(), Visit(9, 3, 2, 0, 0), Visit(5, 3, 2, 0, 0));
    InsertedTwo();
  }

  /** The indexed store then lists visit 9 before visit 5, which no list of the live store does. */
  lemma OrderSplitsLists(entries: seq<Entry>)
    requires var end := L.Run(Intended, L.SmallStore(), [AddNine(), AddFive()]);
             LQ.ListsBucket(end.tables, BlankVisitsQuery(2), MI.Bucket(end.usersToVisits, 2), entries)
    ensures IQ.VisitsLeft(I.Run(Intended, W.OneVisit(), [AddNine(), AddFive()]).0, BlankVisitsQuery(2))
        == [Entry(0, 9), Entry(0, 5)]
    ensures entries != [Entry(0, 9), Entry(0, 5)]
  {
    var end := I.Run(Intended, W.OneVisit(), [AddNine(), AddFive()]).0;
    BucketOfTwo();
    FilterAll([Entry(0, 9), Entry(0, 5)], IQ.VisitsTest(end, BlankVisitsQuery(2)));
    var wrong := [Entry(0, 9), Entry(0, 5)];
    assert !InOrder(wrong[0], wrong[1]);
  }

  // ---- a visit added with a location that does not exist

  function AddLost(): Op { Op.AddVisit(Visit(8, 99, 2, 0, 0)) }

  function WithLost(): I.Indexed { I.Run(Intended, W.OneVisit(), [AddLost()]).0 }

  lemma LostIsFiled()
    ensures TI.Bucket(WithLost().usersToVisits, 2) == [Entry(0, 8)]
    ensures 8 in WithLost().visitsToLocations && WithLost().visitsToLocations[8] == 99
    ensures 8 in WithLost().tables.visits && WithLost().tables.visits[8] == Visit(8, 99, 2, 0, 0)
    ensures WithLost().tables.locations == map[3 := BlankLocation(3)]
  {
    W.RunOfOne(Intended, W.OneVisit(), AddLost());
    assert Inserted([], Entry(0, 8)) == [Entry(0, 8)];
  }

  lemma LostIsListed()
    ensures IQ.VisitsLeft(WithLost(), BlankVisitsQuery(2)) == [Entry(0, 8)]
  {
    LostIsFiled();
    FilterAll([Entry(0, 8)], IQ.VisitsTest(WithLost(), BlankVisitsQuery(2)));
  }

  /** Nothing of the user's list can be shown, and its bracket is lost. */
  lemma BracketIsLost()
    ensures IQ.VisitsLeft(WithLost(), BlankVisitsQuery(2)) == [Entry(0, 8)]
    ensures VisitsText(WithLost().tables, MarkFirst, [Entry(0, 8)]) == "{\"visits\":]}"
  {
    LostIsFiled();
    LostIsListed();
    var t := WithLost().tables;
    assert t.visits[8].locationId == 99;
    NoneShown(t, MarkFirst, [Entry(0, 8)]);
  }

  /** Asked for a country or a distance as well, the loops go round for ever. */
  lemma LoopsAreStuck(country: string, toDistance: Distance)
    ensures !Ends(IQ.CountryVerdict(WithLost(), country), Walk(TI.Bucket(WithLost().usersToVisits, 2), 0))
    ensures !Ends(IQ.DistanceVerdict(WithLost(), toDistance), Walk(TI.Bucket(WithLost().usersToVisits, 2), 0))
  {
    LostIsFiled();
    IQ.LocationLoopsEndIff(WithLost(), country, toDistance, [Entry(0, 8)]);
    assert Entry(0, 8) in [Entry(0, 8)];
  }

  // ---- a visit that loading left out, moved there and back

  /** The user of visit 7 is missing, so loading did not file it. */
  function Unfiled(): L.Live {
    L.Live(Tables(map[], map[3 := BlankLocation(3), 4 := BlankLocation(4)],
        map[7 := Visit(7, 3, 1, 0, 0)]), map[], map[])
  }

  function MoveBack(): Op { Op.UpdateVisit(BlankVisit(7).(locationId := 3)) }

  /** How the two updates change the index, and how the one that they amount to does. */
  lemma RoundTripSteps(mid: L.Live)
    requires mid == L.Step(AsWritten, Unfiled(), MoveAway())
    ensures mid.locationsToVisits == MI.Moved(map[], 3, 4, 7, 7)
    ensures L.Step(AsWritten, mid, MoveBack()).locationsToVisits == MI.Moved(mid.locationsToVisits, 4, 3, 7, 7)
    ensures L.Step(AsWritten, Unfiled(), MoveBack()).locationsToVisits == map[]
  {
    assert mid.tables.visits[7].locationId == 4;
  }

  lemma UnfiledIsLoaded()
    ensures L.Loaded(Unfiled()) && L.MovesAwayAndBack(Unfiled().tables, MoveAway().visit, MoveBack().visit)
  {
  }

  /** Two updates, to location 4 and back, file it under location 3; the one update that they
      amount to leaves it unfiled. */
  lemma RoundTripFiles()
    ensures L.Loaded(Unfiled()) && L.MovesAwayAndBack(Unfiled().tables, MoveAway().visit, MoveBack().visit)
    ensures MI.Count(L.Run(AsWritten, Unfiled(), [MoveAway(), MoveBack()]).locationsToVisits, 3, 7) == 1
    ensures MergeVisit(MoveAway().visit, MoveBack().visit) == MoveBack().visit
    ensures MI.Count(L.Step(AsWritten, Unfiled(), MoveBack()).locationsToVisits, 3, 7) == 0
  {
    var mid := L.Step(AsWritten, Unfiled(), MoveAway());
    UnfiledIsLoaded();
    LiveRunOfTwo(AsWritten, Unfiled(), MoveAway(), MoveBack());
    RoundTripSteps(mid);
    MI.MovedCount(map[], 3, 4, 7);
    MI.MovedCount(mid.locationsToVisits, 4, 3, 7);
  }
}
