/** The text of one visit, and the scan that reads the visit back from it. */
module VisitSerialization {
  import opened Entities
  import opened Numbers
  import opened Scanning

  const ID_LABEL := "{\"id\":"
  const LOCATION_LABEL := ",\"location\":"
  const USER_LABEL := ",\"user\":"
  const VISITED_AT_LABEL := ",\"visited_at\":"
  const MARK_LABEL := ",\"mark\":"
  const END_LABEL := "}"

  function Serialize(v: Visit): string {
    ID_LABEL + PrintInt(v.id as int) + (LOCATION_LABEL + PrintInt(v.locationId as int)
        + (USER_LABEL + PrintInt(v.userId as int)
    + (VISITED_AT_LABEL + PrintInt(v.visitedAt) + (MARK_LABEL + PrintInt(v.mark) + END_LABEL))))
  }

  // ---- scanning, with the labels written out

  datatype Scanned = Scanned(id: int, locationId: int, userId: int, visitedAt: int, mark: int)

  /** One scan over the whole text. */
  function Scan(s: string): Option<Scanned> {
    match ReadField("{\"id\":", s)
    case None => None
    case Some((id, s1)) =>
      match ReadField(",\"location\":", s1)
      case None => None
      case Some((location, s2)) =>
        match ReadField(",\"user\":", s2)
        case None => None
        case Some((user, s3)) =>
          match ReadField(",\"visited_at\":", s3)
          case None => None
          case Some((at, s4)) =>
            match ReadField(",\"mark\":", s4)
            case None => None
            case Some((mark, s5)) => if s5 == "}" then Some(Scanned(id, location, user, at, mark)) else None
  }

  /** The scan recovers the five numbers of every visit, so no two visits have the same text. */
  lemma SerializeIsReadBack(v: Visit)
    ensures Scan(Serialize(v)) == Some(Scanned(v.id as int, v.locationId as int, v.userId as int, v.visitedAt, v.mark))
  {
    var s5 := END_LABEL;
    var s4 := MARK_LABEL + PrintInt(v.mark) + s5;
    var s3 := VISITED_AT_LABEL + PrintInt(v.visitedAt) + s4;
    var s2 := USER_LABEL + PrintInt(v.userId as int) + s3;
    var s1 := LOCATION_LABEL + PrintInt(v.locationId as int) + s2;
    FieldIsRead(ID_LABEL, v.id as int, s1);
    FieldIsRead(LOCATION_LABEL, v.locationId as int, s2);
    FieldIsRead(USER_LABEL, v.userId as int, s3);
    FieldIsRead(VISITED_AT_LABEL, v.visitedAt, s4);
    FieldIsRead(MARK_LABEL, v.mark, s5);
  }

  lemma SerializeIsInjective(v: Visit, w: Visit)
    requires Serialize(v) == Serialize(w)
    ensures v == w
  {
    SerializeIsReadBack(v);
    SerializeIsReadBack(w);
  }
}
