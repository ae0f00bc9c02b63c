/** The text of the visits query is read back: a scan over it, with the labels of either store
    written out, recovers place, time and mark of every visit listed, in order. */
module ListScan {
  import opened Entities
  import opened Numbers
  import opened Scanning
  import opened Multimap
  import opened VisitTexts

  datatype Line = Line(place: string, visitedAt: int, mark: int)

  // ---- one record

  /** `{"place": "...", "visited_at": ..., "mark": ...}` */
  function ReadPlaceFirst(s: string): (read: Option<(Line, string)>)
    ensures read.Some? ==> |read.value.1| < |s|
  {
    match Skip("{\"place\": \"", s)
    case None => None
    case Some(s1) =>
      match ReadQuoted(s1)
      case None => None
      case Some((place, s2)) =>
        match ReadField("\", \"visited_at\": ", s2)
        case None => None
        case Some((at, s3)) =>
          match ReadField(", \"mark\": ", s3)
          case None => None
          case Some((mark, s4)) =>
            match Skip("}", s4)
            case None => None
            case Some(rest) => Some((Line(place, at, mark), rest))
  }

  /** `{"mark":...,"visited_at":...,"place":"..."}` */
  function ReadMarkFirst(s: string): (read: Option<(Line, string)>)
    ensures read.Some? ==> |read.value.1| < |s|
  {
    match ReadField("{\"mark\":", s)
    case None => None
    case Some((mark, s1)) =>
      match ReadField(",\"visited_at\":", s1)
      case None => None
      case Some((at, s2)) =>
        match Skip(",\"place\":\"", s2)
        case None => None
        case Some(s3) =>
          match ReadQuoted(s3)
          case None => None
          case Some((place, s4)) =>
            match Skip("\"}", s4)
            case None => None
            case Some(rest) => Some((Line(place, at, mark), rest))
  }

  function ReadRecord(layout: Layout, s: string): (read: Option<(Line, string)>)
    ensures read.Some? ==> |read.value.1| < |s|
  {
    match layout
    case PlaceFirst => ReadPlaceFirst(s)
    case MarkFirst => ReadMarkFirst(s)
  }

  function LineOf(r: Record): Line { Line(r.place, r.visitedAt, r.mark) }

  lemma PlaceFirstSplits(r: Record, rest: string)
    ensures RecordText(PlaceFirst, r) + rest
         == "{\"place\": \"" + (r.place + ("\", \"visited_at\": " + PrintInt(r.visitedAt)
            + (", \"mark\": " + PrintInt(r.mark) + ("}" + rest))))
  {
  }

  lemma PlaceFirstIsRead(r: Record, rest: string)
    requires '"' !in r.place
    ensures ReadPlaceFirst(RecordText(PlaceFirst, r) + rest) == Some((LineOf(r), rest))
  {
    var s4 := "}" + rest;
    var s3 := ", \"mark\": " + PrintInt(r.mark) + s4;
    var s2 := "\", \"visited_at\": " + PrintInt(r.visitedAt) + s3;
    var s1 := r.place + s2;
    PlaceFirstSplits(r, rest);
    SkipLabel("{\"place\": \"", s1);
    QuotedIsRead(r.place, s2);
    FieldIsRead("\", \"visited_at\": ", r.visitedAt, s3);
    FieldIsRead(", \"mark\": ", r.mark, s4);
    SkipLabel("}", rest);
  }

  lemma MarkFirstIsRead(r: Record, rest: string)
    requires '"' !in r.place
    ensures ReadMarkFirst(RecordText(MarkFirst, r) + rest) == Some((LineOf(r), rest))
  {
    var s4 := "\"}" + rest;
    var s3 := r.place + s4;
    var s2 := ",\"place\":\"" + s3;
    var s1 := ",\"visited_at\":" + PrintInt(r.visitedAt) + s2;
    assert RecordText(MarkFirst, r) + rest == "{\"mark\":" + PrintInt(r.mark) + s1;
    FieldIsRead("{\"mark\":", r.mark, s1);
    FieldIsRead(",\"visited_at\":", r.visitedAt, s2);
    SkipLabel(",\"place\":\"", s3);
    QuotedIsRead(r.place, s4);
    SkipLabel("\"}", rest);
  }

  lemma RecordIsRead(layout: Layout, r: Record, rest: string)
    requires '"' !in r.place
    ensures ReadRecord(layout, RecordText(layout, r) + rest) == Some((LineOf(r), rest))
  {
    match layout
    case PlaceFirst => PlaceFirstIsRead(r, rest);
    case MarkFirst => MarkFirstIsRead(r, rest);
  }

  // ---- the list

  /** Records with commas between them, up to the end of the list. */
  function ReadRecords(layout: Layout, s: string): Option<seq<Line>>
    decreases |s|
  {
    match ReadRecord(layout, s)
    case None => None
    case Some((line, rest)) =>
      if rest == "]}" then Some([line])
      else if rest == "" || rest[0] != ',' then None
      else
        match ReadRecords(layout, rest[1..])
        case None => None
        case Some(lines) => Some([line] + lines)
  }

  /** The whole text. */
  function ScanList(layout: Layout, s: string): Option<seq<Line>> {
    match Skip("{\"visits\":[", s)
    case None => None
    case Some(rest) => if rest == "]}" then Some([]) else ReadRecords(layout, rest)
  }

  function LinesOf(rs: seq<Record>): (lines: seq<Line>)
    ensures |lines| == |rs|
  {
    seq(|rs|, i requires 0 <= i < |rs| => LineOf(rs[i]))
  }

  ghost predicate PlainPlaces(rs: seq<Record>) {
    forall i :: 0 <= i < |rs| ==> '"' !in rs[i].place
  }

  lemma OneMoreRecord(layout: Layout, r: Record, tail: string)
    requires '"' !in r.place
    ensures ReadRecords(layout, RecordText(layout, r) + ("," + tail))
         == match ReadRecords(layout, tail)
            case None => None
            case Some(lines) => Some([LineOf(r)] + lines)
  {
    RecordIsRead(layout, r, "," + tail);
    assert ("," + tail)[0] == ',' && ("," + tail)[1..] == tail;
    assert "," + tail != "]}";
  }

  lemma OneRecord(layout: Layout, r: Record)
    requires '"' !in r.place
    ensures ReadRecords(layout, RecordText(layout, r) + "]}") == Some([LineOf(r)])
  {
    RecordIsRead(layout, r, "]}");
  }

  lemma JoinedMore(texts: seq<string>, end: string)
    requires |texts| > 1
    ensures Joined(texts) + end == texts[0] + ("," + (Joined(texts[1..]) + end))
  {
    var rest := Joined(texts[1..]);
    assert texts[0] + "," + rest + end == texts[0] + ("," + (rest + end));
  }

  /** What stands between the brackets, with the closing one. */
  function Body(layout: Layout, rs: seq<Record>): string {
    Joined(RecordTexts(layout, rs)) + "]}"
  }

  lemma BodyOfOne(layout: Layout, rs: seq<Record>)
    requires |rs| == 1
    ensures Body(layout, rs) == RecordText(layout, rs[0]) + "]}" && LinesOf(rs) == [LineOf(rs[0])]
  {
  }

  lemma FirstText(layout: Layout, rs: seq<Record>)
    requires rs != []
    ensures RecordTexts(layout, rs)[0] == RecordText(layout, rs[0])
  {
  }

  lemma SameText(layout: Layout, a: seq<Record>, i: nat, b: seq<Record>, j: nat)
    requires i < |a| && j < |b| && a[i] == b[j]
    ensures RecordTexts(layout, a)[i] == RecordTexts(layout, b)[j]
  {
  }

  lemma LaterTexts(layout: Layout, rs: seq<Record>)
    requires rs != []
    ensures RecordTexts(layout, rs)[1..] == RecordTexts(layout, rs[1..])
  {
    var later, texts := RecordTexts(layout, rs)[1..], RecordTexts(layout, rs[1..]);
    forall i | 0 <= i < |rs| - 1 ensures later[i] == texts[i] {
      SameText(layout, rs, i + 1, rs[1..], i);
    }
  }

  lemma LinesOfMore(rs: seq<Record>)
    requires rs != []
    ensures LinesOf(rs) == [LineOf(rs[0])] + LinesOf(rs[1..])
  {
  }

  lemma BodyOfMore(layout: Layout, rs: seq<Record>)
    requires |rs| > 1
    ensures Body(layout, rs) == RecordText(layout, rs[0]) + ("," + Body(layout, rs[1..]))
  {
    FirstText(layout, rs);
    LaterTexts(layout, rs);
    JoinedMore(RecordTexts(layout, rs), "]}");
  }

  lemma {:induction false} RecordsAreRead(layout: Layout, rs: seq<Record>)
    requires rs != [] && PlainPlaces(rs)
    ensures ReadRecords(layout, Body(layout, rs)) == Some(LinesOf(rs))
    decreases |rs|
  {
    if |rs| == 1 {
      BodyOfOne(layout, rs);
      OneRecord(layout, rs[0]);
    } else {
      BodyOfMore(layout, rs);
      LinesOfMore(rs);
      RecordsAreRead(layout, rs[1..]);
      OneMoreRecord(layout, rs[0], Body(layout, rs[1..]));
    }
  }

  lemma NoRecordEndsList(layout: Layout, rs: seq<Record>)
    requires rs != [] && PlainPlaces(rs)
    ensures Body(layout, rs) != "]}"
  {
    var texts := RecordTexts(layout, rs);
    assert texts[0][0] == '{' by {
      assert texts[0] == RecordText(layout, rs[0]);
    }
    assert Joined(texts)[0] == '{';
  }

  lemma ListIsReadBack(layout: Layout, rs: seq<Record>)
    requires PlainPlaces(rs)
    ensures ScanList(layout, ListText(layout, rs)) == Some(LinesOf(rs))
  {
    var body := Body(layout, rs);
    assert ListText(layout, rs) == "{\"visits\":[" + body;
    SkipLabel("{\"visits\":[", body);
    if rs == [] {
      assert RecordTexts(layout, rs) == [] && body == "]}";
    } else {
      NoRecordEndsList(layout, rs);
      RecordsAreRead(layout, rs);
    }
  }

  /** From the text of either store, place, time and mark of the visit of every entry are read
      back, in order, if no place has a quotation mark in it. */
  lemma TextIsReadBack(t: Tables, layout: Layout, entries: seq<Entry>)
    requires Resolvable(t, entries)
    requires forall id :: id in t.locations ==> '"' !in t.locations[id].place
    ensures var lines := ScanList(layout, ListText(layout, Records(t, entries)));
            && VisitsText(t, layout, entries) == ListText(layout, Records(t, entries))
            && lines.Some? && |lines.value| == |entries|
            && forall i :: 0 <= i < |entries| ==>
                 var v := t.visits[entries[i].id];
                 lines.value[i] == Line(t.locations[v.locationId].place, v.visitedAt, v.mark)
  {
    NoneIsSkipped(t, layout, entries);
    forall i | 0 <= i < |entries| ensures '"' !in Records(t, entries)[i].place {
      assert entries[i] in entries;
    }
    ListIsReadBack(layout, Records(t, entries));
  }
}
