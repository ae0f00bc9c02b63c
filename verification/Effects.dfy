/** What every operation does to the tables and answers, field by field and with the numbers that
    stand for "absent" written out. The stores are compared with this, not with each other. */
module Effects {
  import opened Entities
  import L = LiveState
  import I = IndexedState

  // Nothing changes but at most the entity of the number.

  ghost predicate OnlyUser(t: Tables, after: Tables, id: Id) {
    id in after.users && after == Tables(t.users[id := after.users[id]], t.locations, t.visits)
  }

  ghost predicate OnlyLocation(t: Tables, after: Tables, id: Id) {
    id in after.locations && after == Tables(t.users, t.locations[id := after.locations[id]], t.visits)
  }

  ghost predicate OnlyVisit(t: Tables, after: Tables, id: Id) {
    id in after.visits && after == Tables(t.users, t.locations, t.visits[id := after.visits[id]])
  }

  // Every field is the patch's unless that says "absent".

  predicate UserOverridden(was: User, patch: User, now: User) {
    && now.id == was.id
    && (if patch.email == "" then now.email == was.email else now.email == patch.email)
    && (if patch.firstName == "" then now.firstName == was.firstName else now.firstName == patch.firstName)
    && (if patch.lastName == "" then now.lastName == was.lastName else now.lastName == patch.lastName)
    && (if patch.gender == Any then now.gender == was.gender else now.gender == patch.gender)
    && (if patch.birthDate == -0x8000_0000_0000_0000 then now.birthDate == was.birthDate
        else now.birthDate == patch.birthDate)
  }

  predicate LocationOverridden(was: Location, patch: Location, now: Location) {
    && now.id == was.id
    && (if patch.place == "" then now.place == was.place else now.place == patch.place)
    && (if patch.country == "" then now.country == was.country else now.country == patch.country)
    && (if patch.city == "" then now.city == was.city else now.city == patch.city)
    && (if patch.distance == 0 then now.distance == was.distance else now.distance == patch.distance)
  }

  predicate VisitOverridden(was: Visit, patch: Visit, now: Visit) {
    && now.id == was.id
    && (if patch.locationId == 0xFFFF_FFFF then now.locationId == was.locationId
        else now.locationId == patch.locationId)
    && (if patch.userId == 0xFFFF_FFFF then now.userId == was.userId else now.userId == patch.userId)
    && (if patch.visitedAt == 0x7FFF_FFFF_FFFF_FFFF then now.visitedAt == was.visitedAt
        else now.visitedAt == patch.visitedAt)
    && (if patch.mark == 0x7FFF then now.mark == was.mark else now.mark == patch.mark)
  }

  /** An add of a new number stores the entity, an update of a stored one overrides it; the other
      adds and updates are refused and change nothing. */
  ghost predicate Effect(t: Tables, op: Op, after: Tables, status: Status) {
    match op
    case AddUser(u) =>
      if u.id in t.users then after == t && status == EntityAlreadyExist
      else OnlyUser(t, after, u.id) && after.users[u.id] == u && status == EntitySuccessfullyAdded
    case AddLocation(l) =>
      if l.id in t.locations then after == t && status == EntityAlreadyExist
      else OnlyLocation(t, after, l.id) && after.locations[l.id] == l && status == EntitySuccessfullyAdded
    case AddVisit(v) =>
      if v.id in t.visits then after == t && status == EntityAlreadyExist
      else OnlyVisit(t, after, v.id) && after.visits[v.id] == v && status == EntitySuccessfullyAdded
    case UpdateUser(p) =>
      if p.id !in t.users then after == t && status == EntityNotFound
      else
        && OnlyUser(t, after, p.id) && UserOverridden(t.users[p.id], p, after.users[p.id])
        && status == EntitySuccessfullyUpdated
    case UpdateLocation(p) =>
      if p.id !in t.locations then after == t && status == EntityNotFound
      else
        && OnlyLocation(t, after, p.id) && LocationOverridden(t.locations[p.id], p, after.locations[p.id])
        && status == EntitySuccessfullyUpdated
    case UpdateVisit(p) =>
      if p.id !in t.visits then after == t && status == EntityNotFound
      else
        && OnlyVisit(t, after, p.id) && VisitOverridden(t.visits[p.id], p, after.visits[p.id])
        && status == EntitySuccessfullyUpdated
  }

  lemma TablesHaveEffect(t: Tables, op: Op)
    ensures Effect(t, op, TablesAfter(t, op), StatusOf(t, op))
  {
  }

  /** There is only one such outcome: the effect determines tables and status. */
  lemma EffectIsUnique(t: Tables, op: Op, a: Tables, x: Status, b: Tables, y: Status)
    requires Effect(t, op, a, x) && Effect(t, op, b, y)
    ensures a == b && x == y
  {
  }

  /** A step of the live store, in either variant. */
  lemma LiveStepHasEffect(variant: Variant, s: L.Live, op: Op)
    ensures Effect(s.tables, op, L.Step(variant, s, op).tables, StatusOf(s.tables, op))
  {
    TablesHaveEffect(s.tables, op);
  }

  /** The indexed store does not update the visit although it is in the table. */
  predicate Overlooks(variant: Variant, s: I.Indexed, op: Op) {
    && op.UpdateVisit? && op.visit.id in s.tables.visits
    && (op.visit.id !in s.visitsToLocations || I.FindsNothing(variant, s, op.visit))
  }

  /** A step of the indexed store: the same effect, unless the store overlooks the visit; then the
      tables stay and the answer is "not found". */
  lemma IndexedStepHasEffect(variant: Variant, s: I.Indexed, op: Op)
    requires Keyed(s.tables) && I.OwnersKnown(s) && I.LocationsValid(s)
    ensures var (after, status) := I.Step(variant, s, op);
            if Overlooks(variant, s, op) then after.tables == s.tables && status == EntityNotFound
            else Effect(s.tables, op, after.tables, status)
  {
    TablesHaveEffect(s.tables, op);
    if op.UpdateVisit? && op.visit.id in s.visitsToLocations {
      I.OutcomeIs(variant, s, op.visit);
    }
  }

  /** From closed tables an operation that takes effect leads to closed tables exactly if what it
      refers to exists. */
  lemma ClosedAfterIff(t: Tables, op: Op)
    requires Closed(t)
    requires StatusOf(t, op) == EntitySuccessfullyAdded || StatusOf(t, op) == EntitySuccessfullyUpdated
    ensures Closed(TablesAfter(t, op)) <==> ReferencesExist(t, op)
  {
    var after := TablesAfter(t, op);
    match op
    case AddVisit(v) => assert v.id in after.visits && after.visits[v.id] == v;
    case UpdateVisit(p) => assert p.id in after.visits && after.visits[p.id] == MergeVisit(t.visits[p.id], p);
    case _ =>
  }
}
