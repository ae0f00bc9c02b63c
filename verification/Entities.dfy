/** The entities of the travel database, the sentinel values that stand for
    "field absent" in a partial update, and the tables both stores keep. */
module Entities {

  // The integer widths of DataTypes.h.
  newtype Id = x: int | 0 <= x < 0x1_0000_0000
  type Distance = x: int | 0 <= x < 0x1_0000_0000
  type Timestamp = x: int | -0x8000_0000_0000_0000 <= x < 0x8000_0000_0000_0000
  type Mark = x: int | -0x8000 <= x < 0x8000
  type Age = x: int | 0 <= x < 0x1_0000

  const ID_MAX: Id := 0xFFFF_FFFF
  const DISTANCE_MIN: Distance := 0
  const DISTANCE_MAX: Distance := 0xFFFF_FFFF
  const TIMESTAMP_MIN: Timestamp := -0x8000_0000_0000_0000
  const TIMESTAMP_MAX: Timestamp := 0x7FFF_FFFF_FFFF_FFFF
  const MARK_MAX: Mark := 0x7FFF

  datatype Option<+T> = None | Some(value: T)

  datatype Gender = Male | Female | Any

  datatype User = User(id: Id, email: string, firstName: string, lastName: string,
                       gender: Gender, birthDate: Timestamp)

  datatype Location = Location(id: Id, place: string, country: string, city: string, distance: Distance)

  datatype Visit = Visit(id: Id, locationId: Id, userId: Id, visitedAt: Timestamp, mark: Mark)

  /** What the default constructors build: every field holds its sentinel. */
  function BlankUser(id: Id): User { User(id, "", "", "", Any, TIMESTAMP_MIN) }

  function BlankLocation(id: Id): Location { Location(id, "", "", "", DISTANCE_MIN) }

  function BlankVisit(id: Id): Visit { Visit(id, ID_MAX, ID_MAX, TIMESTAMP_MAX, MARK_MAX) }

  /** `base` with every field of `patch` that is not a sentinel put over it. */
  function MergeUser(base: User, patch: User): User {
    User(base.id,
         if patch.email != "" then patch.email else base.email,
         if patch.firstName != "" then patch.firstName else base.firstName,
         if patch.lastName != "" then patch.lastName else base.lastName,
         if patch.gender != Any then patch.gender else base.gender,
         if patch.birthDate != TIMESTAMP_MIN then patch.birthDate else base.birthDate)
  }

  function MergeLocation(base: Location, patch: Location): Location {
    Location(base.id,
             if patch.place != "" then patch.place else base.place,
             if patch.country != "" then patch.country else base.country,
             if patch.city != "" then patch.city else base.city,
             if patch.distance != DISTANCE_MIN then patch.distance else base.distance)
  }

  function MergeVisit(base: Visit, patch: Visit): Visit {
    Visit(base.id,
          if patch.locationId != ID_MAX then patch.locationId else base.locationId,
          if patch.userId != ID_MAX then patch.userId else base.userId,
          if patch.visitedAt != TIMESTAMP_MAX then patch.visitedAt else base.visitedAt,
          if patch.mark != MARK_MAX then patch.mark else base.mark)
  }

  datatype Tables = Tables(users: map<Id, User>, locations: map<Id, Location>, visits: map<Id, Visit>)

  /** Every entity is filed under its own id. */
  ghost predicate Keyed(t: Tables) {
    && (forall id :: id in t.users ==> t.users[id].id == id)
    && (forall id :: id in t.locations ==> t.locations[id].id == id)
    && (forall id :: id in t.visits ==> t.visits[id].id == id)
  }

  /** Every visit refers to a location and a user that exist. */
  ghost predicate Closed(t: Tables) {
    forall id :: id in t.visits ==>
      t.visits[id].locationId in t.locations && t.visits[id].userId in t.users
  }

  /** The location and the user of the visit are both there when the data is mapped. */
  predicate Mapped(t: Tables, id: Id) {
    id in t.visits && t.visits[id].locationId in t.locations && t.visits[id].userId in t.users
  }

  /** Two steps of the stores depart from what their neighbours do: the erase on the
      user side of a visit update, DataStorage.cpp:630 and IndexedDataStorage.cpp:783-812.
      `AsWritten` is the code; `Intended` does on the user side what the same function
      does on the location side (DataStorage.cpp:614, IndexedDataStorage.cpp:829-849). */
  datatype Variant = AsWritten | Intended

  /** The six operations that change a store. An update carries a
      sentinel-filled entity: the fields that are not sentinels are the patch. */
  datatype Op =
    | AddUser(user: User)
    | AddLocation(location: Location)
    | AddVisit(visit: Visit)
    | UpdateUser(user: User)
    | UpdateLocation(location: Location)
    | UpdateVisit(visit: Visit)

  datatype Status =
    | EntityAlreadyExist
    | EntitySuccessfullyAdded
    | EntityNotFound
    | EntitySuccessfullyUpdated

  /** The meaning of an operation for the tables alone. An entity that exists is
      not overwritten by an add, one that does not exist is not created by an update. */
  function TablesAfter(t: Tables, op: Op): Tables {
    match op
    case AddUser(u) => if u.id in t.users then t else t.(users := t.users[u.id := u])
    case AddLocation(l) => if l.id in t.locations then t else t.(locations := t.locations[l.id := l])
    case AddVisit(v) => if v.id in t.visits then t else t.(visits := t.visits[v.id := v])
    case UpdateUser(u) =>
      if u.id in t.users then t.(users := t.users[u.id := MergeUser(t.users[u.id], u)]) else t
    case UpdateLocation(l) =>
      if l.id in t.locations then t.(locations := t.locations[l.id := MergeLocation(t.locations[l.id], l)]) else t
    case UpdateVisit(v) =>
      if v.id in t.visits then t.(visits := t.visits[v.id := MergeVisit(t.visits[v.id], v)]) else t
  }

  function StatusOf(t: Tables, op: Op): Status {
    match op
    case AddUser(u) => if u.id in t.users then EntityAlreadyExist else EntitySuccessfullyAdded
    case AddLocation(l) => if l.id in t.locations then EntityAlreadyExist else EntitySuccessfullyAdded
    case AddVisit(v) => if v.id in t.visits then EntityAlreadyExist else EntitySuccessfullyAdded
    case UpdateUser(u) => if u.id in t.users then EntitySuccessfullyUpdated else EntityNotFound
    case UpdateLocation(l) => if l.id in t.locations then EntitySuccessfullyUpdated else EntityNotFound
    case UpdateVisit(v) => if v.id in t.visits then EntitySuccessfullyUpdated else EntityNotFound
  }

  /** The operation refers only to locations and users that exist. */
  ghost predicate ReferencesExist(t: Tables, op: Op) {
    match op
    case AddVisit(v) => v.locationId in t.locations && v.userId in t.users
    case UpdateVisit(v) =>
      && (v.locationId != ID_MAX ==> v.locationId in t.locations)
      && (v.userId != ID_MAX ==> v.userId in t.users)
    case _ => true
  }

  /** Every operation of the run refers to locations and users that exist when it comes. */
  ghost predicate ReferencesExistThroughout(t: Tables, ops: seq<Op>)
    decreases |ops|
  {
    ops != [] ==> ReferencesExist(t, ops[0]) && ReferencesExistThroughout(TablesAfter(t, ops[0]), ops[1..])
  }

  lemma StepKeepsKeyed(t: Tables, op: Op)
    requires Keyed(t)
    ensures Keyed(TablesAfter(t, op))
  {
  }

  lemma StepKeepsClosed(t: Tables, op: Op)
    requires Closed(t) && ReferencesExist(t, op)
    ensures Closed(TablesAfter(t, op))
  {
  }

  // Partial updates act on each table as a monoid: `p` then `q` is `p` overridden by
  // `q`, repeating a patch changes nothing more, and a patch of sentinels is absent.

  lemma UserPatchLaws(t: Tables, p: User, q: User)
    requires Keyed(t) && p.id == q.id
    ensures TablesAfter(TablesAfter(t, UpdateUser(p)), UpdateUser(q)) == TablesAfter(t, UpdateUser(MergeUser(p, q)))
    ensures TablesAfter(TablesAfter(t, UpdateUser(p)), UpdateUser(p)) == TablesAfter(t, UpdateUser(p))
    ensures TablesAfter(t, UpdateUser(BlankUser(p.id))) == t
  {
    if p.id in t.users {
      var u := t.users[p.id];
      assert MergeUser(MergeUser(u, p), q) == MergeUser(u, MergeUser(p, q));
      assert MergeUser(MergeUser(u, p), p) == MergeUser(u, p);
      assert MergeUser(u, BlankUser(p.id)) == u;
      assert t.users[p.id := u] == t.users;
    }
  }

  lemma LocationPatchLaws(t: Tables, p: Location, q: Location)
    requires Keyed(t) && p.id == q.id
    ensures TablesAfter(TablesAfter(t, UpdateLocation(p)), UpdateLocation(q))
         == TablesAfter(t, UpdateLocation(MergeLocation(p, q)))
    ensures TablesAfter(TablesAfter(t, UpdateLocation(p)), UpdateLocation(p)) == TablesAfter(t, UpdateLocation(p))
    ensures TablesAfter(t, UpdateLocation(BlankLocation(p.id))) == t
  {
    if p.id in t.locations {
      var l := t.locations[p.id];
      assert MergeLocation(MergeLocation(l, p), q) == MergeLocation(l, MergeLocation(p, q));
      assert MergeLocation(MergeLocation(l, p), p) == MergeLocation(l, p);
      assert MergeLocation(l, BlankLocation(p.id)) == l;
      assert t.locations[p.id := l] == t.locations;
    }
  }

  lemma VisitPatchLaws(t: Tables, p: Visit, q: Visit)
    requires Keyed(t) && p.id == q.id
    ensures TablesAfter(TablesAfter(t, UpdateVisit(p)), UpdateVisit(q)) == TablesAfter(t, UpdateVisit(MergeVisit(p, q)))
    ensures TablesAfter(TablesAfter(t, UpdateVisit(p)), UpdateVisit(p)) == TablesAfter(t, UpdateVisit(p))
    ensures TablesAfter(t, UpdateVisit(BlankVisit(p.id))) == t
  {
    if p.id in t.visits {
      var v := t.visits[p.id];
      assert MergeVisit(MergeVisit(v, p), q) == MergeVisit(v, MergeVisit(p, q));
      assert MergeVisit(MergeVisit(v, p), p) == MergeVisit(v, p);
      assert MergeVisit(v, BlankVisit(p.id)) == v;
      assert t.visits[p.id := v] == t.visits;
    }
  }
}
