/** The texts of the visits query: one record a visit, joined by commas. */
module VisitTexts {
  import opened Entities
  import opened Numbers
  import opened Multimap

  datatype Record = Record(place: string, visitedAt: Timestamp, mark: Mark)

  /** The visits that the entries name and their locations exist. */
  ghost predicate Resolvable(t: Tables, entries: seq<Entry>) {
    forall e :: e in entries ==> e.id in t.visits && t.visits[e.id].locationId in t.locations
  }

  function RecordOf(t: Tables, id: Id): Record
    requires id in t.visits && t.visits[id].locationId in t.locations
  {
    var v := t.visits[id];
    Record(t.locations[v.locationId].place, v.visitedAt, v.mark)
  }

  /** The records of the entries, in their order. */
  function Records(t: Tables, entries: seq<Entry>): (rs: seq<Record>)
    requires Resolvable(t, entries)
    ensures |rs| == |entries|
    ensures forall i :: 0 <= i < |rs| ==> rs[i] == RecordOf(t, entries[i].id)
  {
    seq(|entries|, i requires 0 <= i < |entries| => RecordOf(t, entries[i].id))
  }

  /** The two stores print the fields of a record in different orders. */
  datatype Layout = PlaceFirst | MarkFirst

  function RecordText(layout: Layout, r: Record): string {
    match layout
    case PlaceFirst =>
      "{\"place\": \"" + r.place + "\", \"visited_at\": " + PrintInt(r.visitedAt)
          + ", \"mark\": " + PrintInt(r.mark) + "}"
    case MarkFirst =>
      "{\"mark\":" + PrintInt(r.mark) + ",\"visited_at\":" + PrintInt(r.visitedAt) + ",\"place\":\"" + r.place + "\"}"
  }

  const HEAD := "{\"visits\":["
  const TAIL := "]}"

  function RecordTexts(layout: Layout, rs: seq<Record>): (texts: seq<string>)
    ensures |texts| == |rs|
  {
    seq(|rs|, i requires 0 <= i < |rs| => RecordText(layout, rs[i]))
  }

  /** The texts with commas between them. */
  function Joined(texts: seq<string>): string {
    if texts == [] then ""
    else if |texts| == 1 then texts[0]
    else texts[0] + "," + Joined(texts[1..])
  }

  function ListText(layout: Layout, rs: seq<Record>): string {
    HEAD + Joined(RecordTexts(layout, rs)) + TAIL
  }

  /** The texts with a comma after each of them. */
  function Trailed(texts: seq<string>): string {
    if texts == [] then "" else texts[0] + "," + Trailed(texts[1..])
  }

  /** Putting one more text and comma at the end, as the loops do. */
  lemma {:induction false} TrailedEnd(texts: seq<string>, last: string)
    ensures Trailed(texts + [last]) == Trailed(texts) + (last + ",")
  {
    if texts == [] {
      assert (texts + [last])[1..] == [];
      assert Trailed([]) == "";
    } else {
      TrailedEnd(texts[1..], last);
      assert (texts + [last])[1..] == texts[1..] + [last];
      var head, rest := texts[0] + ",", Trailed(texts[1..]);
      assert head + (rest + (last + ",")) == (head + rest) + (last + ",");
    }
  }

  /** Taking the last comma off the trailed list gives the joined list. */
  lemma {:induction false} TrailedIsJoined(texts: seq<string>)
    requires texts != []
    ensures Trailed(texts) == Joined(texts) + ","
  {
    if |texts| > 1 {
      TrailedIsJoined(texts[1..]);
      var head, rest := texts[0] + ",", Joined(texts[1..]);
      assert head + (rest + ",") == (head + rest) + ",";
    } else {
      assert Trailed(texts[1..]) == "";
    }
  }

  // ---- the printing loops

  /** The printing loops show the entries whose visit and location are found. */
  function ShownTest(t: Tables): Entry -> bool {
    (e: Entry) => e.id in t.visits && t.visits[e.id].locationId in t.locations
  }

  lemma ShownResolves(t: Tables, entries: seq<Entry>)
    ensures Resolvable(t, Filter(entries, ShownTest(t)))
  {
    FilterIn(entries, ShownTest(t));
  }

  /** The text for the entries of a query. If there are some but none can be shown, the
      character taken off at the end is the opening bracket. */
  function VisitsText(t: Tables, layout: Layout, entries: seq<Entry>): string {
    ShownResolves(t, entries);
    var shown := Filter(entries, ShownTest(t));
    if entries != [] && shown == [] then "{\"visits\":" + TAIL
    else ListText(layout, Records(t, shown))
  }

  /** The text is the list of the records that can be shown, exactly unless there are entries
      and none of them can. */
  lemma TextIsListIff(t: Tables, layout: Layout, entries: seq<Entry>)
    ensures Resolvable(t, Filter(entries, ShownTest(t)))
    ensures var shown := Filter(entries, ShownTest(t));
            VisitsText(t, layout, entries) == ListText(layout, Records(t, shown)) <==> entries == [] || shown != []
  {
    ShownResolves(t, entries);
    var shown := Filter(entries, ShownTest(t));
    if entries != [] && shown == [] {
      assert RecordTexts(layout, Records(t, shown)) == [];
      assert |ListText(layout, Records(t, shown))| == |HEAD| + |TAIL|;
      assert |VisitsText(t, layout, entries)| == |HEAD| - 1 + |TAIL|;
    }
  }

  /** The text without its opening bracket. */
  lemma NoneShown(t: Tables, layout: Layout, entries: seq<Entry>)
    requires entries != [] && forall e :: e in entries ==> !ShownTest(t)(e)
    ensures VisitsText(t, layout, entries) == "{\"visits\":]}"
  {
    FilterNone(entries, ShownTest(t));
    assert "{\"visits\":" + TAIL == "{\"visits\":]}";
  }

  /** When every entry can be shown none is skipped: the text is the comma-join of all records. */
  lemma NoneIsSkipped(t: Tables, layout: Layout, entries: seq<Entry>)
    requires Resolvable(t, entries)
    ensures VisitsText(t, layout, entries) == ListText(layout, Records(t, entries))
  {
    FilterAll(entries, ShownTest(t));
  }

  lemma EmptyText(t: Tables, layout: Layout)
    ensures VisitsText(t, layout, []) == HEAD + TAIL
  {
    assert RecordTexts(layout, Records(t, [])) == [];
    assert HEAD + "" == HEAD;
  }

  /** The texts that the printing loop shows for `entries`. */
  function ShownTexts(t: Tables, layout: Layout, entries: seq<Entry>): seq<string> {
    ShownResolves(t, entries);
    RecordTexts(layout, Records(t, Filter(entries, ShownTest(t))))
  }

  lemma ShownNext(t: Tables, layout: Layout, entries: seq<Entry>, i: nat)
    requires i < |entries|
    ensures ShownTexts(t, layout, entries[..i + 1])
      == if ShownTest(t)(entries[i])
         then ShownTexts(t, layout, entries[..i]) + [RecordText(layout, RecordOf(t, entries[i].id))]
         else ShownTexts(t, layout, entries[..i])
  {
    assert entries[..i + 1] == entries[..i] + [entries[i]];
    FilterSplits(entries[..i], [entries[i]], ShownTest(t));
    assert Filter([entries[i]], ShownTest(t)) == if ShownTest(t)(entries[i]) then [entries[i]] else [];
  }

  /** Prints the entries one by one, each with a comma behind it, and skips those whose visit or
      location is not found. (Only the live store asks whether the visit is found.) */
  method PrintShown(t: Tables, layout: Layout, entries: seq<Entry>) returns (result: string)
    ensures result == Trailed(ShownTexts(t, layout, entries))
  {
    result := "";
    for i := 0 to |entries|
      invariant result == Trailed(ShownTexts(t, layout, entries[..i]))
    {
      ShownNext(t, layout, entries, i);
      var id := entries[i].id;
      if id !in t.visits {
        continue;
      }
      if t.visits[id].locationId !in t.locations {
        continue;
      }
      var record := RecordText(layout, RecordOf(t, id));
      TrailedEnd(ShownTexts(t, layout, entries[..i]), record);
      result := result + (record + ",");
    }
    assert entries[..|entries|] == entries;
  }

  /** At the end the last character is taken off if there was any entry. */
  method RenderShown(t: Tables, layout: Layout, entries: seq<Entry>) returns (text: string)
    ensures text == VisitsText(t, layout, entries)
  {
    var result := PrintShown(t, layout, entries);
    EndOfText(ShownTexts(t, layout, entries));
    result := HEAD + result;
    if entries != [] {
      result := result[..|result| - 1];
    }
    text := result + TAIL;
  }

  /** Taking off the last character drops the comma of the last text, or the bracket. */
  lemma EndOfText(texts: seq<string>)
    ensures texts != [] ==> (HEAD + Trailed(texts))[..|HEAD + Trailed(texts)| - 1] == HEAD + Joined(texts)
    ensures texts == [] ==> HEAD + Trailed(texts) == HEAD && HEAD[..|HEAD| - 1] == "{\"visits\":"
  {
    if texts != [] {
      TrailedIsJoined(texts);
      assert HEAD + (Joined(texts) + ",") == (HEAD + Joined(texts)) + ",";
    }
  }
}
