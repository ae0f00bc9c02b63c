/** The live store as a value: its tables and its two indexes, the effect of one
    operation, and what every run of operations keeps. */
module LiveState {
  import opened Entities
  import opened MultisetIndex

  datatype Live = Live(tables: Tables, usersToVisits: Index, locationsToVisits: Index)

  function LocationOwners(visits: map<Id, Visit>): map<Id, Id> {
    map id | id in visits :: visits[id].locationId
  }

  function UserOwners(visits: map<Id, Visit>): map<Id, Id> {
    map id | id in visits :: visits[id].userId
  }

  /** The patch names another location than the stored one. */
  predicate MovesLocation(t: Tables, p: Visit) {
    p.id in t.visits && p.locationId != ID_MAX && p.locationId != t.visits[p.id].locationId
  }

  predicate MovesUser(t: Tables, p: Visit) {
    p.id in t.visits && p.userId != ID_MAX && p.userId != t.visits[p.id].userId
  }

  function LocationIndexAfter(s: Live, op: Op): Index {
    match op
    case AddVisit(v) =>
      if v.id in s.tables.visits then s.locationsToVisits
      else Emplaced(s.locationsToVisits, v.locationId, v.id)
    case UpdateVisit(p) =>
      if p.id !in s.tables.visits then s.locationsToVisits
      else Moved(s.locationsToVisits, s.tables.visits[p.id].locationId, p.locationId, p.id, p.id)
    case _ => s.locationsToVisits
  }

  /** The value erased from the old user's bucket: the code erases the user's own id there. */
  function ErasedId(variant: Variant, v: Visit): Id {
    if variant == Intended then v.id else v.userId
  }

  function UserIndexAfter(variant: Variant, s: Live, op: Op): Index {
    match op
    case AddVisit(v) =>
      if v.id in s.tables.visits then s.usersToVisits
      else Emplaced(s.usersToVisits, v.userId, v.id)
    case UpdateVisit(p) =>
      if p.id !in s.tables.visits then s.usersToVisits
      else
        var v := s.tables.visits[p.id];
        Moved(s.usersToVisits, v.userId, p.userId, ErasedId(variant, v), p.id)
    case _ => s.usersToVisits
  }

  // The three parts of a visit update, in the order in which they are carried out.

  function WithLocation(v: Visit, p: Visit): Visit {
    v.(locationId := if p.locationId != ID_MAX then p.locationId else v.locationId)
  }

  function WithUser(v: Visit, p: Visit): Visit {
    v.(userId := if p.userId != ID_MAX then p.userId else v.userId)
  }

  function WithTimeAndMark(v: Visit, p: Visit): Visit {
    v.(visitedAt := if p.visitedAt != TIMESTAMP_MAX then p.visitedAt else v.visitedAt,
       mark := if p.mark != MARK_MAX then p.mark else v.mark)
  }

  /** Carrying out the parts one after the other is the one step of the specification. */
  lemma PartsMakeStep(variant: Variant, s: Live, p: Visit, first: Live, second: Live, third: Live)
    requires p.id in s.tables.visits
    requires first == s.(tables := s.tables.(visits := s.tables.visits[p.id := WithLocation(s.tables.visits[p.id], p)]),
                         locationsToVisits := LocationIndexAfter(s, Op.UpdateVisit(p)))
    requires second == first.(
               tables := s.tables.(visits := first.tables.visits[p.id := WithUser(first.tables.visits[p.id], p)]),
               usersToVisits := UserIndexAfter(variant, first, Op.UpdateVisit(p)))
    requires third == second.(
               tables := s.tables.(visits := second.tables.visits[p.id :=
                   WithTimeAndMark(second.tables.visits[p.id], p)]))
    ensures third == Step(variant, s, Op.UpdateVisit(p))
  {
    assert third.tables.visits[p.id] == MergeVisit(s.tables.visits[p.id], p);
    assert third.tables.visits == s.tables.visits[p.id := third.tables.visits[p.id]];
  }

  function Step(variant: Variant, s: Live, op: Op): Live {
    Live(TablesAfter(s.tables, op), UserIndexAfter(variant, s, op), LocationIndexAfter(s, op))
  }

  function Run(variant: Variant, s: Live, ops: seq<Op>): Live
    decreases |ops|
  {
    if ops == [] then s else Run(variant, Step(variant, s, ops[0]), ops[1..])
  }

  // ---- invariants

  ghost predicate LocationTracks(s: Live) {
    Tracks(s.locationsToVisits, LocationOwners(s.tables.visits))
  }

  ghost predicate LocationExact(s: Live) {
    Exact(s.locationsToVisits, LocationOwners(s.tables.visits))
  }

  ghost predicate UserExact(s: Live) {
    Exact(s.usersToVisits, UserOwners(s.tables.visits))
  }

  /** How often mapping the data files visit `id` under the location `key`. */
  function LocationShare(t: Tables, key: Id, id: Id): nat {
    if Mapped(t, id) && t.visits[id].locationId == key then 1 else 0
  }

  function UserShare(t: Tables, key: Id, id: Id): nat {
    if Mapped(t, id) && t.visits[id].userId == key then 1 else 0
  }

  /** What loading leaves: each mapped visit once under its location and once under its user. */
  ghost predicate Loaded(s: Live) {
    && Keyed(s.tables)
    && (forall key, id :: Count(s.locationsToVisits, key, id) == LocationShare(s.tables, key, id))
    && (forall key, id :: Count(s.usersToVisits, key, id) == UserShare(s.tables, key, id))
  }

  /** The data of `rest` is still to be mapped into `now`, which held `was` before. */
  ghost predicate LocationsFiled(t: Tables, was: Index, now: Index, rest: set<Id>) {
    forall key, id :: Count(now, key, id) == Count(was, key, id) + if id in rest then 0 else LocationShare(t, key, id)
  }

  ghost predicate UsersFiled(t: Tables, was: Index, now: Index, rest: set<Id>) {
    forall key, id :: Count(now, key, id) == Count(was, key, id) + if id in rest then 0 else UserShare(t, key, id)
  }

  lemma FileLocation(t: Tables, was: Index, now: Index, rest: set<Id>, id: Id)
    requires LocationsFiled(t, was, now, rest) && id in rest && id in t.visits
    ensures Mapped(t, id) ==> LocationsFiled(t, was, Emplaced(now, t.visits[id].locationId, id), rest - {id})
    ensures !Mapped(t, id) ==> LocationsFiled(t, was, now, rest - {id})
  {
    EmplaceCount(now, t.visits[id].locationId, id);
  }

  lemma FileUser(t: Tables, was: Index, now: Index, rest: set<Id>, id: Id)
    requires UsersFiled(t, was, now, rest) && id in rest && id in t.visits
    ensures Mapped(t, id) ==> UsersFiled(t, was, Emplaced(now, t.visits[id].userId, id), rest - {id})
    ensures !Mapped(t, id) ==> UsersFiled(t, was, now, rest - {id})
  {
    EmplaceCount(now, t.visits[id].userId, id);
  }

  lemma LoadEstablishes(s: Live)
    requires Loaded(s)
    ensures LocationTracks(s)
    ensures Closed(s.tables) ==> LocationExact(s) && UserExact(s)
  {
  }

  /** What loading leaves, read off the table: a visit is filed, once under its location and once
      under its user, exactly if both exist. */
  lemma LoadedMeans(s: Live, key: Id, id: Id)
    requires Loaded(s)
    ensures var t := s.tables;
            var filed := id in t.visits && t.visits[id].locationId in t.locations && t.visits[id].userId in t.users;
            && Bucket(s.locationsToVisits, key)[id] == (if filed && t.visits[id].locationId == key then 1 else 0)
            && Bucket(s.usersToVisits, key)[id] == if filed && t.visits[id].userId == key then 1 else 0
  {
    assert Count(s.locationsToVisits, key, id) == LocationShare(s.tables, key, id);
    assert Count(s.usersToVisits, key, id) == UserShare(s.tables, key, id);
  }

  /** An operation that is refused changes nothing, in either variant. */
  lemma RefusedChangesNothing(variant: Variant, s: Live, op: Op)
    requires StatusOf(s.tables, op) == EntityAlreadyExist || StatusOf(s.tables, op) == EntityNotFound
    ensures Step(variant, s, op) == s
  {
  }

  lemma OwnersAfter(t: Tables, op: Op)
    requires Keyed(t)
    ensures var after := TablesAfter(t, op).visits;
            match op
            case AddVisit(v) => v.id !in t.visits ==>
              && LocationOwners(after) == LocationOwners(t.visits)[v.id := v.locationId]
              && UserOwners(after) == UserOwners(t.visits)[v.id := v.userId]
            case UpdateVisit(p) => p.id in t.visits ==>
              && LocationOwners(after) == LocationOwners(t.visits)[p.id := after[p.id].locationId]
              && UserOwners(after) == UserOwners(t.visits)[p.id := after[p.id].userId]
            case _ => after == t.visits
  {
  }

  /** One operation keeps the location index, whatever it is and in either variant. */
  lemma StepKeepsLocationIndex(variant: Variant, s: Live, op: Op)
    requires Keyed(s.tables) && LocationTracks(s)
    ensures LocationTracks(Step(variant, s, op))
    ensures LocationExact(s) ==> LocationExact(Step(variant, s, op))
  {
    var owners := LocationOwners(s.tables.visits);
    OwnersAfter(s.tables, op);
    match op
    case AddVisit(v) =>
      if v.id !in s.tables.visits {
        FileKeepsTracks(s.locationsToVisits, owners, v.locationId, v.id);
      }
    case UpdateVisit(p) =>
      if p.id in s.tables.visits {
        PatchKeepsIndex(s.locationsToVisits, owners, p.locationId, p.id);
      }
    case _ =>
  }

  /** Over every run, a visit is filed at most once in all location buckets and only under
      its current location; after a closed load it is filed exactly once. */
  lemma {:induction false} RunKeepsLocationIndex(variant: Variant, s: Live, ops: seq<Op>)
    requires Keyed(s.tables) && LocationTracks(s)
    ensures Keyed(Run(variant, s, ops).tables) && LocationTracks(Run(variant, s, ops))
    ensures LocationExact(s) ==> LocationExact(Run(variant, s, ops))
    decreases |ops|
  {
    if ops != [] {
      StepKeepsKeyed(s.tables, ops[0]);
      StepKeepsLocationIndex(variant, s, ops[0]);
      RunKeepsLocationIndex(variant, Step(variant, s, ops[0]), ops[1..]);
    }
  }

  /** After a closed load the bucket sizes always sum to the number of visits. */
  lemma BucketSizesSum(variant: Variant, s: Live, ops: seq<Op>)
    requires Loaded(s) && Closed(s.tables)
    ensures var r := Run(variant, s, ops);
            TotalSize(r.locationsToVisits, r.locationsToVisits.Keys) == |r.tables.visits|
  {
    LoadEstablishes(s);
    RunKeepsLocationIndex(variant, s, ops);
    var r := Run(variant, s, ops);
    SizesSumToVisits(r.locationsToVisits, LocationOwners(r.tables.visits));
    assert LocationOwners(r.tables.visits).Keys == r.tables.visits.Keys;
  }

  // ---- the user index

  /** The update moves a visit whose number differs from its old user's number: the erase
      as written then leaves the visit behind. */
  predicate LosesTrack(t: Tables, op: Op) {
    op.UpdateVisit? && MovesUser(t, op.visit) && t.visits[op.visit.id].userId != op.visit.id
  }

  lemma StepKeepsUserIndex(variant: Variant, s: Live, op: Op)
    requires Keyed(s.tables) && UserExact(s)
    requires variant == Intended || !LosesTrack(s.tables, op)
    ensures UserExact(Step(variant, s, op))
  {
    var owners := UserOwners(s.tables.visits);
    OwnersAfter(s.tables, op);
    match op
    case AddVisit(v) =>
      if v.id !in s.tables.visits {
        FileKeepsTracks(s.usersToVisits, owners, v.userId, v.id);
      }
    case UpdateVisit(p) =>
      if p.id in s.tables.visits {
        var v := s.tables.visits[p.id];
        assert Moved(s.usersToVisits, v.userId, p.userId, ErasedId(variant, v), p.id)
            == Moved(s.usersToVisits, v.userId, p.userId, p.id, p.id);
        PatchKeepsIndex(s.usersToVisits, owners, p.userId, p.id);
      }
    case _ =>
  }

  /** With the erase meant, over every run each visit sits exactly once under its user. */
  lemma {:induction false} RunKeepsUserIndex(s: Live, ops: seq<Op>)
    requires Keyed(s.tables) && UserExact(s)
    ensures UserExact(Run(Intended, s, ops))
    decreases |ops|
  {
    if ops != [] {
      StepKeepsKeyed(s.tables, ops[0]);
      StepKeepsUserIndex(Intended, s, ops[0]);
      RunKeepsUserIndex(Step(Intended, s, ops[0]), ops[1..]);
    }
  }

  /** `id` is filed under a user `key` of another number more often than the table explains. */
  ghost predicate Stray(s: Live, key: Id, id: Id) {
    && id != key && id in s.tables.visits
    && Count(s.usersToVisits, key, id) > (if s.tables.visits[id].userId == key then 1 else 0)
  }

  lemma LosingTrackLeavesStray(s: Live, op: Op)
    requires Keyed(s.tables) && UserExact(s) && LosesTrack(s.tables, op)
    ensures Stray(Step(AsWritten, s, op), s.tables.visits[op.visit.id].userId, op.visit.id)
  {
    var p := op.visit;
    var u := s.tables.visits[p.id].userId;
    MoveErasingKey(s.usersToVisits, u, p.userId, p.id, u, p.id);
    assert UserOwners(s.tables.visits)[p.id] == u;
    assert Count(s.usersToVisits, u, p.id) >= 1;
    assert Step(AsWritten, s, op).usersToVisits == Moved(s.usersToVisits, u, p.userId, u, p.id);
    assert Step(AsWritten, s, op).tables.visits[p.id].userId == p.userId;
  }

  /** As written, one operation keeps the user index exactly when it does not move
      a visit away from a user with another number than the visit's. */
  lemma UserIndexAsWritten(s: Live, op: Op)
    requires Keyed(s.tables) && UserExact(s)
    ensures UserExact(Step(AsWritten, s, op)) <==> !LosesTrack(s.tables, op)
  {
    if LosesTrack(s.tables, op) {
      LosingTrackLeavesStray(s, op);
      assert UserOwners(Step(AsWritten, s, op).tables.visits)[op.visit.id] == op.visit.userId;
    } else {
      StepKeepsUserIndex(AsWritten, s, op);
    }
  }

  /** As written, a stray entry stays one: bucket `key` loses only the value `key`. */
  lemma StepKeepsStray(s: Live, op: Op, key: Id, id: Id)
    requires Keyed(s.tables) && Stray(s, key, id)
    ensures Stray(Step(AsWritten, s, op), key, id)
  {
    match op
    case AddVisit(v) =>
      EmplaceCount(s.usersToVisits, v.userId, v.id);
    case UpdateVisit(p) =>
      if p.id in s.tables.visits {
        MoveErasingKey(s.usersToVisits, s.tables.visits[p.id].userId, p.userId, p.id, key, id);
      }
    case _ =>
  }

  lemma {:induction false} RunKeepsStray(s: Live, ops: seq<Op>, key: Id, id: Id)
    requires Keyed(s.tables) && Stray(s, key, id)
    ensures Stray(Run(AsWritten, s, ops), key, id)
    decreases |ops|
  {
    if ops != [] {
      StepKeepsKeyed(s.tables, ops[0]);
      StepKeepsStray(s, ops[0], key, id);
      RunKeepsStray(Step(AsWritten, s, ops[0]), ops[1..], key, id);
    }
  }

  /** Some operation of the run loses track of a visit. */
  predicate RunLosesTrack(s: Live, ops: seq<Op>)
    decreases |ops|
  {
    ops != [] && (LosesTrack(s.tables, ops[0]) || RunLosesTrack(Step(AsWritten, s, ops[0]), ops[1..]))
  }

  /** Once an operation has lost track of a visit, the run ends with a stray entry. */
  lemma {:induction false} LosingRunLeavesStray(s: Live, ops: seq<Op>) returns (key: Id, id: Id)
    requires Keyed(s.tables) && UserExact(s) && RunLosesTrack(s, ops)
    ensures Stray(Run(AsWritten, s, ops), key, id)
    decreases |ops|
  {
    StepKeepsKeyed(s.tables, ops[0]);
    if LosesTrack(s.tables, ops[0]) {
      key, id := s.tables.visits[ops[0].visit.id].userId, ops[0].visit.id;
      LosingTrackLeavesStray(s, ops[0]);
      RunKeepsStray(Step(AsWritten, s, ops[0]), ops[1..], key, id);
    } else {
      StepKeepsUserIndex(AsWritten, s, ops[0]);
      key, id := LosingRunLeavesStray(Step(AsWritten, s, ops[0]), ops[1..]);
    }
  }

  lemma {:induction false} TrackingRunKeepsExact(s: Live, ops: seq<Op>)
    requires Keyed(s.tables) && UserExact(s) && !RunLosesTrack(s, ops)
    ensures UserExact(Run(AsWritten, s, ops))
    decreases |ops|
  {
    if ops != [] {
      StepKeepsKeyed(s.tables, ops[0]);
      StepKeepsUserIndex(AsWritten, s, ops[0]);
      TrackingRunKeepsExact(Step(AsWritten, s, ops[0]), ops[1..]);
    }
  }

  /** As written, a run ends with an exact user index exactly when no operation of it moves
      a visit away from a user of another number: later operations never repair the index. */
  lemma UserIndexRunAsWritten(s: Live, ops: seq<Op>)
    requires Keyed(s.tables) && UserExact(s)
    ensures UserExact(Run(AsWritten, s, ops)) <==> !RunLosesTrack(s, ops)
  {
    if RunLosesTrack(s, ops) {
      var key, id := LosingRunLeavesStray(s, ops);
      var end := Run(AsWritten, s, ops);
      assert Count(end.usersToVisits, key, id) > (if end.tables.visits[id].userId == key then 1 else 0);
      assert UserOwners(end.tables.visits)[id] == end.tables.visits[id].userId;
    } else {
      TrackingRunKeepsExact(s, ops);
    }
  }

  /** A loaded store of two users and one visit, and an update that hands visit 7 to user 2. */
  function SmallStore(): Live {
    Live(Tables(map[1 := BlankUser(1), 2 := BlankUser(2)], map[3 := BlankLocation(3)], map[7 := Visit(7, 3, 1, 0, 0)]),
         map[1 := multiset{7}], map[3 := multiset{7}])
  }

  function SmallMove(): Op {
    Op.UpdateVisit(BlankVisit(7).(userId := 2))
  }

  lemma SmallStoreIsLoaded()
    ensures Loaded(SmallStore()) && Closed(SmallStore().tables)
  {
    var s := SmallStore();
    assert s.tables.visits.Keys == {7};
    forall key, id ensures Count(s.locationsToVisits, key, id) == LocationShare(s.tables, key, id) {
      assert Mapped(s.tables, id) <==> id == 7;
    }
    forall key, id ensures Count(s.usersToVisits, key, id) == UserShare(s.tables, key, id) {
      assert Mapped(s.tables, id) <==> id == 7;
    }
  }

  /** As written, visit 7 then sits in the buckets of both users. */
  lemma UserIndexFailsAsWritten()
    ensures Loaded(SmallStore()) && Closed(SmallStore().tables) && ReferencesExist(SmallStore().tables, SmallMove())
    ensures var after := Step(AsWritten, SmallStore(), SmallMove());
            && !UserExact(after)
            && Count(after.usersToVisits, 1, 7) >= 1
            && Count(after.usersToVisits, 2, 7) >= 1
  {
    var s := SmallStore();
    SmallStoreIsLoaded();
    LoadEstablishes(s);
    UserIndexAsWritten(s, SmallMove());
    LosingTrackLeavesStray(s, SmallMove());
    MoveErasingKey(s.usersToVisits, 1, 2, 7, 2, 7);
  }

  // ---- partial updates compose

  /** `p` moves the visit to another location and `q` moves it back. */
  predicate MovesAwayAndBack(t: Tables, p: Visit, q: Visit)
    requires p.id in t.visits
  {
    && MovesLocation(t, p)
    && MergeVisit(p, q).locationId == t.visits[p.id].locationId
  }

  /** `p` then `q` files the visits under the same locations as `p` overridden by `q`, except
      for a visit that loading left out of the index and that `p` and `q` move there and back. */
  lemma UpdatesComposeOnLocations(variant: Variant, s: Live, p: Visit, q: Visit)
    requires Keyed(s.tables) && LocationTracks(s) && p.id == q.id && p.id in s.tables.visits
    ensures SameContents(Step(variant, Step(variant, s, Op.UpdateVisit(p)), Op.UpdateVisit(q)).locationsToVisits,
                         Step(variant, s, Op.UpdateVisit(MergeVisit(p, q))).locationsToVisits)
      <==> !MovesAwayAndBack(s.tables, p, q)
           || Count(s.locationsToVisits, s.tables.visits[p.id].locationId, p.id) == 1
  {
    OnlyAtOwner(s.locationsToVisits, LocationOwners(s.tables.visits), p.id);
    MovesCompose(s.locationsToVisits, p.id, s.tables.visits[p.id].locationId, p.locationId, q.locationId);
  }

  /** With the erase meant, the user side composes as well, for exact indexes. */
  lemma UpdatesComposeOnUsers(s: Live, p: Visit, q: Visit)
    requires Keyed(s.tables) && UserExact(s) && p.id == q.id
    ensures SameContents(
      Step(Intended, Step(Intended, s, Op.UpdateVisit(p)), Op.UpdateVisit(q)).usersToVisits,
      Step(Intended, s, Op.UpdateVisit(MergeVisit(p, q))).usersToVisits)
  {
    var first := Step(Intended, s, Op.UpdateVisit(p));
    StepKeepsKeyed(s.tables, Op.UpdateVisit(p));
    StepKeepsUserIndex(Intended, s, Op.UpdateVisit(p));
    StepKeepsUserIndex(Intended, first, Op.UpdateVisit(q));
    StepKeepsUserIndex(Intended, s, Op.UpdateVisit(MergeVisit(p, q)));
    VisitPatchLaws(s.tables, p, q);
    var twice := Step(Intended, first, Op.UpdateVisit(q));
    ExactIsUnique(twice.usersToVisits, Step(Intended, s, Op.UpdateVisit(MergeVisit(p, q))).usersToVisits,
                  UserOwners(twice.tables.visits));
  }

  // ---- building in one batch and one by one

  function Adds(vs: seq<Visit>): (ops: seq<Op>)
    ensures |ops| == |vs|
  {
    seq(|vs|, i requires 0 <= i < |vs| => Op.AddVisit(vs[i]))
  }

  /** `vs` lists every visit of the table once, in some order. */
  ghost predicate Lists(vs: seq<Visit>, visits: map<Id, Visit>) {
    && (forall v :: v in vs ==> v.id in visits && visits[v.id] == v)
    && (forall i, j :: 0 <= i < j < |vs| ==> vs[i].id != vs[j].id)
    && (forall id :: id in visits ==> visits[id] in vs)
  }

  lemma {:induction false} AddsKeepIndexes(variant: Variant, s: Live, vs: seq<Visit>)
    requires Keyed(s.tables) && LocationExact(s) && UserExact(s)
    ensures LocationExact(Run(variant, s, Adds(vs))) && UserExact(Run(variant, s, Adds(vs)))
    decreases |vs|
  {
    if vs != [] {
      var op := Op.AddVisit(vs[0]);
      assert Adds(vs)[0] == op && Adds(vs)[1..] == Adds(vs[1..]);
      StepKeepsKeyed(s.tables, op);
      StepKeepsLocationIndex(variant, s, op);
      StepKeepsUserIndex(variant, s, op);
      AddsKeepIndexes(variant, Step(variant, s, op), vs[1..]);
    }
  }

  /** Among visits of different numbers, each one that is new to the table. */
  ghost predicate FilesEach(t: Tables, after: Tables, vs: seq<Visit>, id: Id) {
    && after.users == t.users && after.locations == t.locations
    && (id in t.visits ==> id in after.visits && after.visits[id] == t.visits[id])
    && (id !in t.visits && id in after.visits ==> after.visits[id] in vs)
    && (forall v :: v in vs && v.id == id && id !in t.visits ==> id in after.visits && after.visits[id] == v)
  }

  lemma AddFilesOne(t: Tables, after: Tables, v: Visit, rest: seq<Visit>, id: Id)
    requires forall w :: w in rest ==> w.id != v.id
    requires FilesEach(TablesAfter(t, Op.AddVisit(v)), after, rest, id)
    ensures FilesEach(t, after, [v] + rest, id)
  {
  }

  /** Adding the visits of a list files each of them and leaves the rest of the table alone. */
  lemma {:induction false} AddsFileEach(variant: Variant, s: Live, vs: seq<Visit>, id: Id)
    requires forall i, j :: 0 <= i < j < |vs| ==> vs[i].id != vs[j].id
    ensures FilesEach(s.tables, Run(variant, s, Adds(vs)).tables, vs, id)
    decreases |vs|
  {
    if vs != [] {
      var op := Op.AddVisit(vs[0]);
      assert Adds(vs)[0] == op && Adds(vs)[1..] == Adds(vs[1..]);
      AddsFileEach(variant, Step(variant, s, op), vs[1..], id);
      AddFilesOne(s.tables, Run(variant, s, Adds(vs)).tables, vs[0], vs[1..], id);
      assert vs == [vs[0]] + vs[1..];
    }
  }

  /** A store with the users and locations of `t`, and no visits. */
  function WithoutVisits(t: Tables): Live {
    Live(t.(visits := map[]), map[], map[])
  }

  lemma IncrementalTables(variant: Variant, t: Tables, vs: seq<Visit>)
    requires Keyed(t) && Lists(vs, t.visits)
    ensures Run(variant, WithoutVisits(t), Adds(vs)).tables == t
  {
    var r := Run(variant, WithoutVisits(t), Adds(vs)).tables;
    forall id
      ensures id in r.visits <==> id in t.visits
      ensures id in r.visits ==> r.visits[id] == t.visits[id]
    {
      AddsFileEach(variant, WithoutVisits(t), vs, id);
      StepsKeepKeyed(variant, WithoutVisits(t), Adds(vs));
      if id in t.visits {
        assert t.visits[id] in vs && t.visits[id].id == id;
      }
    }
    AddsFileEach(variant, WithoutVisits(t), vs, 0);
    assert r.visits == t.visits;
  }

  lemma {:induction false} StepsKeepKeyed(variant: Variant, s: Live, ops: seq<Op>)
    requires Keyed(s.tables)
    ensures Keyed(Run(variant, s, ops).tables)
    decreases |ops|
  {
    if ops != [] {
      StepKeepsKeyed(s.tables, ops[0]);
      StepsKeepKeyed(variant, Step(variant, s, ops[0]), ops[1..]);
    }
  }

  /** On closed data the batch build files the same visits in the same buckets as adding
      them one by one in any order, in both variants. */
  lemma BatchEqualsIncremental(variant: Variant, batch: Live, vs: seq<Visit>)
    requires Loaded(batch) && Closed(batch.tables) && Lists(vs, batch.tables.visits)
    ensures var one := Run(variant, WithoutVisits(batch.tables), Adds(vs));
            && one.tables == batch.tables
            && SameContents(one.locationsToVisits, batch.locationsToVisits)
            && SameContents(one.usersToVisits, batch.usersToVisits)
  {
    LoadEstablishes(batch);
    AddsKeepIndexes(variant, WithoutVisits(batch.tables), vs);
    IncrementalTables(variant, batch.tables, vs);
    var one := Run(variant, WithoutVisits(batch.tables), Adds(vs));
    ExactIsUnique(one.locationsToVisits, batch.locationsToVisits, LocationOwners(one.tables.visits));
    ExactIsUnique(one.usersToVisits, batch.usersToVisits, UserOwners(one.tables.visits));
  }
}
