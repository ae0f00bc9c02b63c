/** The request parser: routing of the path and the fold over the query parameters. */
module HttpParsing {
  import opened Entities
  import opened Numbers
  import opened Queries

  datatype HttpMethod = Get | Post | OtherMethod

  datatype RequestType =
    | NoRequest
    | GetVisitById | GetUserById | GetLocationById | GetVisitsByUserId | GetAverageLocationMark
    | UpdateVisitById | UpdateUserById | UpdateLocationById
    | AddVisit | AddUser | AddLocation

  datatype ErrorType = Ok | BadRequest | NotFound

  /** The number a text stands for once it is read into 64 bits. */
  function Number(s: string): Timestamp
    requires AllDigits(s)
  {
    Wrap64(DecimalValue(s))
  }

  // ---- routing

  function Collection(t: RequestType): string
    requires t != NoRequest
  {
    match t
    case GetVisitById | UpdateVisitById | AddVisit => "visits"
    case GetUserById | GetVisitsByUserId | UpdateUserById | AddUser => "users"
    case GetLocationById | GetAverageLocationMark | UpdateLocationById | AddLocation => "locations"
  }

  predicate IsAdd(t: RequestType) {
    t == RequestType.AddVisit || t == RequestType.AddUser || t == RequestType.AddLocation
  }

  predicate IsUpdate(t: RequestType) { t == UpdateVisitById || t == UpdateUserById || t == UpdateLocationById }

  function MethodOf(t: RequestType): HttpMethod {
    if IsAdd(t) || IsUpdate(t) then Post else Get
  }

  /** The path parts of a request. */
  function PathOf(t: RequestType, id: Id): seq<string>
    requires t != NoRequest
  {
    [Collection(t), if IsAdd(t) then "new" else PrintNat(id as int)]
    + (if t == GetVisitsByUserId then ["visits"] else if t == GetAverageLocationMark then ["avg"] else [])
  }

  /** The method and the path parts ask for a request of type `t`. */
  predicate AsksFor(t: RequestType, m: HttpMethod, parts: seq<string>) {
    && t != NoRequest && m == MethodOf(t) && |parts| >= 2 && parts[0] == Collection(t)
    && (if IsAdd(t) then parts[1] == "new" else AllDigits(parts[1]))
    && (t == GetUserById || t == GetLocationById ==> |parts| == 2)
    && (t == GetVisitsByUserId ==> |parts| > 2 && parts[2] == "visits")
    && (t == GetAverageLocationMark ==> |parts| > 2 && parts[2] == "avg")
  }

  /** A path asks for at most one type of request. */
  lemma AsksForOne(t: RequestType, u: RequestType, m: HttpMethod, parts: seq<string>)
    requires AsksFor(t, m, parts) && AsksFor(u, m, parts)
    ensures t == u
  {
    assert "new"[0] == 'n' && !AllDigits("new");
    assert "visits"[0] == 'v' && "users"[0] == 'u' && "locations"[0] == 'l' && "avg"[0] == 'a';
  }

  /** Routing undoes the printing of a path: the printed parts ask for the type ... */
  lemma PrintedPathAsks(t: RequestType, id: Id)
    requires t != NoRequest
    ensures AsksFor(t, MethodOf(t), PathOf(t, id))
  {
    var n := PrintNat(id as int);
    assert AllDigits(n);
  }

  /** The eleven requests, by their paths: a collection by name, "new" or a number, and for the two
      queries the name of what is asked. */
  lemma PostsAre(m: HttpMethod, parts: seq<string>)
    requires |parts| >= 2
    ensures AsksFor(RequestType.AddUser, m, parts) <==> m == Post && parts[0] == "users" && parts[1] == "new"
    ensures AsksFor(RequestType.AddLocation, m, parts) <==> m == Post && parts[0] == "locations" && parts[1] == "new"
    ensures AsksFor(RequestType.AddVisit, m, parts) <==> m == Post && parts[0] == "visits" && parts[1] == "new"
    ensures AsksFor(UpdateUserById, m, parts) <==> m == Post && parts[0] == "users" && AllDigits(parts[1])
    ensures AsksFor(UpdateLocationById, m, parts) <==> m == Post && parts[0] == "locations" && AllDigits(parts[1])
    ensures AsksFor(UpdateVisitById, m, parts) <==> m == Post && parts[0] == "visits" && AllDigits(parts[1])
  {
  }

  lemma GetsAre(m: HttpMethod, parts: seq<string>)
    requires |parts| >= 2
    ensures AsksFor(GetVisitById, m, parts) <==> m == Get && parts[0] == "visits" && AllDigits(parts[1])
    ensures AsksFor(GetUserById, m, parts)
      <==> m == Get && |parts| == 2 && parts[0] == "users" && AllDigits(parts[1])
    ensures AsksFor(GetLocationById, m, parts)
      <==> m == Get && |parts| == 2 && parts[0] == "locations" && AllDigits(parts[1])
    ensures AsksFor(GetVisitsByUserId, m, parts)
      <==> m == Get && |parts| > 2 && parts[0] == "users" && AllDigits(parts[1]) && parts[2] == "visits"
    ensures AsksFor(GetAverageLocationMark, m, parts)
      <==> m == Get && |parts| > 2 && parts[0] == "locations" && AllDigits(parts[1]) && parts[2] == "avg"
  {
  }

  lemma PrintedNumberIsRead(n: nat)
    requires n < 0x1_0000_0000
    ensures Low32(Number(PrintNat(n))) == n
  {
    PrintedValue(n);
    WrapOfSmall(n);
    assert Number(PrintNat(n)) == n;
    Low32OfSmall(n);
  }

  /** ... and the id they carry is the id, for every id of 32 bits. */
  lemma PrintedIdIsRead(t: RequestType, id: Id)
    requires t != NoRequest && !IsAdd(t)
    ensures AllDigits(PathOf(t, id)[1]) && Low32(Number(PathOf(t, id)[1])) == id as int
  {
    var n: nat := id as int;
    PrintedNumberIsRead(n);
    assert PathOf(t, id)[1] == PrintNat(n);
  }

  /** A longer string of digits routes by its value modulo 2^32. */
  lemma LongIdIsReduced(digits: string)
    requires AllDigits(digits)
    ensures Low32(Number(digits)) == DecimalValue(digits) % 0x1_0000_0000
  {
    Low32OfWrap(DecimalValue(digits));
  }

  // ---- query parameters

  datatype Param = Param(key: string, value: string)

  /** The keys the parser knows. */
  datatype Key = FromDate | ToDate | FromAge | ToAge | GenderKey | Country | ToDistance | Unknown

  function KeyOf(key: string): Key {
    if key == "gender" then GenderKey
    else if key == "toDistance" then ToDistance
    else if key == "fromDate" then FromDate
    else if key == "toDate" then ToDate
    else if key == "fromAge" then FromAge
    else if key == "toAge" then ToAge
    else if key == "country" then Country
    else Unknown
  }

  predicate IsNumeric(k: Key) { k in {FromDate, ToDate, FromAge, ToAge, ToDistance} }

  /** A gender that is neither f nor m, or a number that is not one. */
  predicate Malformed(p: Param) {
    || (KeyOf(p.key) == GenderKey && p.value != "f" && p.value != "m")
    || (IsNumeric(KeyOf(p.key)) && !AllDigits(p.value))
  }

  /** The parser refuses exactly these parameters, by their names in a request. */
  lemma MalformedIff(p: Param)
    ensures Malformed(p) <==>
      || (p.key == "gender" && p.value != "f" && p.value != "m")
      || (p.key in ["fromDate", "toDate", "fromAge", "toAge", "toDistance"]
          && exists i :: 0 <= i < |p.value| && !('0' <= p.value[i] <= '9'))
  {
  }

  /** The value of the last parameter of the key. */
  function Last(params: seq<Param>, key: Key): Option<string> {
    if params == [] then None
    else if KeyOf(params[|params| - 1].key) == key then Some(params[|params| - 1].value)
    else Last(params[..|params| - 1], key)
  }

  /** The parser's fields that the query parameters set, and the mask of those that were set. */
  datatype Fields = Fields(fromDate: Timestamp, toDate: Timestamp, fromAge: Timestamp, toAge: Timestamp,
                           gender: Gender, country: string, toDistance: Distance, mask: bv8)

  const FROM_DATE: bv8 := 1
  const TO_DATE: bv8 := 2
  const FROM_AGE: bv8 := 4
  const TO_AGE: bv8 := 8
  const GENDER: bv8 := 16
  const COUNTRY: bv8 := 32
  const TO_DISTANCE: bv8 := 64

  predicate Has(mask: bv8, flag: bv8) { mask & flag != 0 }

  function FlagOf(k: Key): bv8
    requires k != Unknown
  {
    match k
    case FromDate => FROM_DATE
    case ToDate => TO_DATE
    case FromAge => FROM_AGE
    case ToAge => TO_AGE
    case GenderKey => GENDER
    case Country => COUNTRY
    case ToDistance => TO_DISTANCE
  }

  lemma OrDistributes(mask: bv8, flag: bv8, other: bv8)
    ensures Has(mask | flag, other) <==> Has(mask, other) || Has(flag, other)
  {
  }

  /** Setting the flag of one key sets it and leaves the others. */
  lemma FlagsAreSeparate(mask: bv8, set_: Key, other: Key)
    requires set_ != Unknown && other != Unknown
    ensures Has(mask | FlagOf(set_), FlagOf(other)) <==> Has(mask, FlagOf(other)) || set_ == other
  {
    OrDistributes(mask, FlagOf(set_), FlagOf(other));
  }

  /** The value of the text as a number; a malformed one is never stored. */
  function NumberOf(s: string): Timestamp {
    if AllDigits(s) then Number(s) else 0
  }

  function GenderOf(s: string): Gender {
    if s == "f" then Female else Male
  }

  function DistanceOf(s: string): Distance {
    Low32(NumberOf(s))
  }

  /** The field of the key is assigned from the text. */
  function Stored(f: Fields, k: Key, value: string, decode: string -> string): Fields
    requires k != Unknown
  {
    match k
    case FromDate => f.(fromDate := NumberOf(value))
    case ToDate => f.(toDate := NumberOf(value))
    case FromAge => f.(fromAge := NumberOf(value))
    case ToAge => f.(toAge := NumberOf(value))
    case GenderKey => f.(gender := GenderOf(value))
    case Country => f.(country := decode(value))
    case ToDistance => f.(toDistance := DistanceOf(value))
  }

  /** The field of the key holds what the text says. */
  predicate Shows(f: Fields, k: Key, value: string, decode: string -> string)
    requires k != Unknown
  {
    match k
    case FromDate => f.fromDate == NumberOf(value)
    case ToDate => f.toDate == NumberOf(value)
    case FromAge => f.fromAge == NumberOf(value)
    case ToAge => f.toAge == NumberOf(value)
    case GenderKey => f.gender == GenderOf(value)
    case Country => f.country == decode(value)
    case ToDistance => f.toDistance == DistanceOf(value)
  }

  /** What one well-formed parameter does to the fields. */
  function Absorbed(f: Fields, p: Param, decode: string -> string): Fields {
    var k := KeyOf(p.key);
    if k == Unknown then f else Stored(f, k, p.value, decode).(mask := f.mask | FlagOf(k))
  }

  /** The flag is set exactly if the key occurred, and then the field holds the last value. */
  predicate ReflectsKey(f: Fields, params: seq<Param>, k: Key, decode: string -> string)
    requires k != Unknown
  {
    match Last(params, k)
    case None => !Has(f.mask, FlagOf(k))
    case Some(value) => Has(f.mask, FlagOf(k)) && Shows(f, k, value, decode)
  }

  ghost predicate Reflects(f: Fields, params: seq<Param>, decode: string -> string) {
    forall k: Key :: k != Unknown ==> ReflectsKey(f, params, k, decode)
  }

  lemma LastOfMore(params: seq<Param>, p: Param, k: Key)
    ensures Last(params + [p], k) == if KeyOf(p.key) == k then Some(p.value) else Last(params, k)
  {
    assert (params + [p])[..|params|] == params;
  }

  lemma StoredShows(f: Fields, k: Key, value: string, other: Key, value': string, decode: string -> string)
    requires k != Unknown && other != Unknown
    ensures Shows(Stored(f, k, value, decode), k, value, decode)
    ensures other != k ==>
        (Shows(Stored(f, k, value, decode), other, value', decode) <==> Shows(f, other, value', decode))
  {
  }

  lemma MaskOfAbsorbed(f: Fields, p: Param, k: Key, decode: string -> string)
    requires k != Unknown
    ensures Has(Absorbed(f, p, decode).mask, FlagOf(k)) <==> Has(f.mask, FlagOf(k)) || KeyOf(p.key) == k
  {
    if KeyOf(p.key) != Unknown {
      FlagsAreSeparate(f.mask, KeyOf(p.key), k);
    }
  }

  lemma FieldsOfAbsorbed(f: Fields, p: Param, k: Key, value: string, decode: string -> string)
    requires k != Unknown
    ensures KeyOf(p.key) == k ==> Shows(Absorbed(f, p, decode), k, p.value, decode)
    ensures KeyOf(p.key) != k ==> (Shows(Absorbed(f, p, decode), k, value, decode) <==> Shows(f, k, value, decode))
  {
    if KeyOf(p.key) != Unknown {
      StoredShows(f, KeyOf(p.key), p.value, k, value, decode);
    }
  }

  lemma AbsorbedReflectsKey(f: Fields, params: seq<Param>, p: Param, k: Key, decode: string -> string)
    requires k != Unknown && ReflectsKey(f, params, k, decode)
    ensures ReflectsKey(Absorbed(f, p, decode), params + [p], k, decode)
  {
    LastOfMore(params, p, k);
    MaskOfAbsorbed(f, p, k, decode);
    FieldsOfAbsorbed(f, p, k, Or(Last(params, k), ""), decode);
  }

  /** Absorbing one more parameter keeps the fields in step with the list. */
  lemma AbsorbedReflects(f: Fields, params: seq<Param>, p: Param, decode: string -> string)
    requires Reflects(f, params, decode)
    ensures Reflects(Absorbed(f, p, decode), params + [p], decode)
  {
    forall k: Key | k != Unknown ensures ReflectsKey(Absorbed(f, p, decode), params + [p], k, decode) {
      AbsorbedReflectsKey(f, params, p, k, decode);
    }
  }

  function Or<T>(seen: Option<T>, absent: T): T {
    match seen case None => absent case Some(value) => value
  }

  // What the last parameter of a key says, if there is one.

  function NumberSeen(params: seq<Param>, k: Key, absent: Timestamp): Timestamp {
    match Last(params, k) case None => absent case Some(value) => NumberOf(value)
  }

  /** The average query that a parameter list stands for: the last occurrence of each key counts
      and absent keys keep their sentinels. */
  function AverageQueryOf(id: Id, params: seq<Param>): AverageQuery {
    AverageQuery(id,
                 NumberSeen(params, FromDate, TIMESTAMP_MIN), NumberSeen(params, ToDate, TIMESTAMP_MAX),
                 NumberSeen(params, FromAge, TIMESTAMP_MIN), NumberSeen(params, ToAge, TIMESTAMP_MAX),
                 match Last(params, GenderKey) case None => Any case Some(value) => GenderOf(value))
  }

  function VisitsQueryOf(id: Id, params: seq<Param>, decode: string -> string): VisitsQuery {
    VisitsQuery(id,
                NumberSeen(params, FromDate, TIMESTAMP_MIN), NumberSeen(params, ToDate, TIMESTAMP_MAX),
                match Last(params, Country) case None => "" case Some(value) => decode(value),
                match Last(params, ToDistance) case None => DISTANCE_MAX case Some(value) => DistanceOf(value))
  }

  /** What one parameter does to the average query: the step of a left fold. */
  function FoldStep(q: AverageQuery, p: Param): AverageQuery {
    match p.key
    case "fromDate" => q.(fromDate := NumberOf(p.value))
    case "toDate" => q.(toDate := NumberOf(p.value))
    case "fromAge" => q.(fromAge := NumberOf(p.value))
    case "toAge" => q.(toAge := NumberOf(p.value))
    case "gender" => q.(gender := if p.value == "f" then Female else Male)
    case _ => q
  }

  function Folded(q: AverageQuery, params: seq<Param>): AverageQuery
    decreases |params|
  {
    if params == [] then q else Folded(FoldStep(q, params[0]), params[1..])
  }

  lemma {:induction false} FoldedMore(q: AverageQuery, params: seq<Param>, p: Param)
    ensures Folded(q, params + [p]) == FoldStep(Folded(q, params), p)
    decreases |params|
  {
    if params == [] {
      assert (params + [p])[1..] == [];
    } else {
      assert (params + [p])[1..] == params[1..] + [p];
      FoldedMore(FoldStep(q, params[0]), params[1..], p);
    }
  }

  lemma SeenMore(params: seq<Param>, p: Param, k: Key, absent: Timestamp)
    ensures NumberSeen(params + [p], k, absent)
         == if KeyOf(p.key) == k then NumberOf(p.value) else NumberSeen(params, k, absent)
  {
    LastOfMore(params, p, k);
  }

  /** The step of the fold, by the key that the parser sees in the name. */
  lemma FoldStepByKey(q: AverageQuery, p: Param)
    ensures FoldStep(q, p) == match KeyOf(p.key)
                              case FromDate => q.(fromDate := NumberOf(p.value))
                              case ToDate => q.(toDate := NumberOf(p.value))
                              case FromAge => q.(fromAge := NumberOf(p.value))
                              case ToAge => q.(toAge := NumberOf(p.value))
                              case GenderKey => q.(gender := GenderOf(p.value))
                              case _ => q
  {
  }

  /** What the parameters before the last one leave of the query, seen key by key. */
  lemma QueryByKey(id: Id, params: seq<Param>, p: Param, key: Key)
    requires key == KeyOf(p.key)
    ensures var q := AverageQueryOf(id, params);
            AverageQueryOf(id, params + [p]) == match key
                                                case FromDate => q.(fromDate := NumberOf(p.value))
                                                case ToDate => q.(toDate := NumberOf(p.value))
                                                case FromAge => q.(fromAge := NumberOf(p.value))
                                                case ToAge => q.(toAge := NumberOf(p.value))
                                                case GenderKey => q.(gender := GenderOf(p.value))
                                                case _ => q
  {
    SeenMore(params, p, FromDate, TIMESTAMP_MIN);
    SeenMore(params, p, ToDate, TIMESTAMP_MAX);
    SeenMore(params, p, FromAge, TIMESTAMP_MIN);
    SeenMore(params, p, ToAge, TIMESTAMP_MAX);
    LastOfMore(params, p, GenderKey);
  }

  lemma QueryOfMore(id: Id, params: seq<Param>, p: Param)
    ensures AverageQueryOf(id, params + [p]) == FoldStep(AverageQueryOf(id, params), p)
  {
    QueryByKey(id, params, p, KeyOf(p.key));
    FoldStepByKey(AverageQueryOf(id, params), p);
  }

  /** The query of a parameter list is the left fold of the parameters over the blank query. */
  lemma {:induction false} QueryIsFold(id: Id, params: seq<Param>)
    ensures AverageQueryOf(id, params) == Folded(BlankAverageQuery(id), params)
  {
    if params != [] {
      var init, p := params[..|params| - 1], params[|params| - 1];
      assert params == init + [p];
      QueryOfMore(id, init, p);
      QueryIsFold(id, init);
      FoldedMore(BlankAverageQuery(id), init, p);
    }
  }

  function VisitsFoldStep(q: VisitsQuery, p: Param, decode: string -> string): VisitsQuery {
    match p.key
    case "fromDate" => q.(fromDate := NumberOf(p.value))
    case "toDate" => q.(toDate := NumberOf(p.value))
    case "country" => q.(country := decode(p.value))
    case "toDistance" => q.(toDistance := DistanceOf(p.value))
    case _ => q
  }

  function VisitsFolded(q: VisitsQuery, params: seq<Param>, decode: string -> string): VisitsQuery
    decreases |params|
  {
    if params == [] then q else VisitsFolded(VisitsFoldStep(q, params[0], decode), params[1..], decode)
  }

  lemma {:induction false} VisitsFoldedMore(q: VisitsQuery, params: seq<Param>, p: Param, decode: string -> string)
    ensures VisitsFolded(q, params + [p], decode) == VisitsFoldStep(VisitsFolded(q, params, decode), p, decode)
    decreases |params|
  {
    if params == [] {
      assert (params + [p])[1..] == [];
    } else {
      assert (params + [p])[1..] == params[1..] + [p];
      VisitsFoldedMore(VisitsFoldStep(q, params[0], decode), params[1..], p, decode);
    }
  }

  lemma VisitsFoldStepByKey(q: VisitsQuery, p: Param, decode: string -> string)
    ensures VisitsFoldStep(q, p, decode) == match KeyOf(p.key)
                                            case FromDate => q.(fromDate := NumberOf(p.value))
                                            case ToDate => q.(toDate := NumberOf(p.value))
                                            case Country => q.(country := decode(p.value))
                                            case ToDistance => q.(toDistance := DistanceOf(p.value))
                                            case _ => q
  {
  }

  lemma VisitsQueryByKey(id: Id, params: seq<Param>, p: Param, key: Key, decode: string -> string)
    requires key == KeyOf(p.key)
    ensures var q := VisitsQueryOf(id, params, decode);
            VisitsQueryOf(id, params + [p], decode) == match key
                                                       case FromDate => q.(fromDate := NumberOf(p.value))
                                                       case ToDate => q.(toDate := NumberOf(p.value))
                                                       case Country => q.(country := decode(p.value))
                                                       case ToDistance => q.(toDistance := DistanceOf(p.value))
                                                       case _ => q
  {
    SeenMore(params, p, FromDate, TIMESTAMP_MIN);
    SeenMore(params, p, ToDate, TIMESTAMP_MAX);
    LastOfMore(params, p, Country);
    LastOfMore(params, p, ToDistance);
  }

  lemma VisitsQueryOfMore(id: Id, params: seq<Param>, p: Param, decode: string -> string)
    ensures VisitsQueryOf(id, params + [p], decode) == VisitsFoldStep(VisitsQueryOf(id, params, decode), p, decode)
  {
    VisitsQueryByKey(id, params, p, KeyOf(p.key), decode);
    VisitsFoldStepByKey(VisitsQueryOf(id, params, decode), p, decode);
  }

  lemma {:induction false} VisitsQueryIsFold(id: Id, params: seq<Param>, decode: string -> string)
    ensures VisitsQueryOf(id, params, decode) == VisitsFolded(BlankVisitsQuery(id), params, decode)
  {
    if params != [] {
      var init, p := params[..|params| - 1], params[|params| - 1];
      assert params == init + [p];
      VisitsQueryOfMore(id, init, p, decode);
      VisitsQueryIsFold(id, init, decode);
      VisitsFoldedMore(BlankVisitsQuery(id), init, p, decode);
    }
  }

  lemma LastOfOne(p: Param, k: Key)
    ensures Last([p], k) == if KeyOf(p.key) == k then Some(p.value) else None
  {
    LastOfMore([], p, k);
    assert [] + [p] == [p];
  }

  lemma NumberOfPrinted(n: nat)
    requires n < 1_000_000_000_000_000_000
    ensures AllDigits(PrintNat(n)) && NumberOf(PrintNat(n)) == n
  {
    PrintedValue(n);
    WrapOfSmall(n);
  }

  lemma OneIsFolded(id: Id, p: Param, decode: string -> string)
    ensures AverageQueryOf(id, [p]) == FoldStep(BlankAverageQuery(id), p)
    ensures VisitsQueryOf(id, [p], decode) == VisitsFoldStep(BlankVisitsQuery(id), p, decode)
  {
    QueryOfMore(id, [], p);
    VisitsQueryOfMore(id, [], p, decode);
    assert [] + [p] == [p];
  }

  /** The blank average query, with the numbers for "no bound" written out. */
  function NoBounds(id: Id): AverageQuery {
    AverageQuery(id, -0x8000_0000_0000_0000, 0x7FFF_FFFF_FFFF_FFFF, -0x8000_0000_0000_0000, 0x7FFF_FFFF_FFFF_FFFF, Any)
  }

  /** What one number parameter asks of an average. */
  lemma NumberAsksAverage(id: Id, n: nat)
    requires n < 1_000_000_000_000_000_000
    ensures AverageQueryOf(id, [Param("fromDate", PrintNat(n))]) == NoBounds(id).(fromDate := n)
    ensures AverageQueryOf(id, [Param("toDate", PrintNat(n))]) == NoBounds(id).(toDate := n)
    ensures AverageQueryOf(id, [Param("fromAge", PrintNat(n))]) == NoBounds(id).(fromAge := n)
    ensures AverageQueryOf(id, [Param("toAge", PrintNat(n))]) == NoBounds(id).(toAge := n)
  {
    NumberOfPrinted(n);
    forall p: Param ensures AverageQueryOf(id, [p]) == FoldStep(BlankAverageQuery(id), p) {
      OneIsFolded(id, p, (s: string) => s);
    }
  }

  /** What one gender parameter asks of an average. */
  lemma GenderAsksAverage(id: Id)
    ensures AverageQueryOf(id, [Param("gender", "f")]) == NoBounds(id).(gender := Female)
    ensures AverageQueryOf(id, [Param("gender", "m")]) == NoBounds(id).(gender := Male)
  {
    OneIsFolded(id, Param("gender", "f"), (s: string) => s);
    OneIsFolded(id, Param("gender", "m"), (s: string) => s);
  }

  function AllVisits(id: Id): VisitsQuery {
    VisitsQuery(id, -0x8000_0000_0000_0000, 0x7FFF_FFFF_FFFF_FFFF, "", 0xFFFF_FFFF)
  }

  /** What one number parameter asks of the visits. */
  lemma NumberAsksVisits(id: Id, n: nat, decode: string -> string)
    requires n < 1_000_000_000_000_000_000
    ensures VisitsQueryOf(id, [Param("fromDate", PrintNat(n))], decode) == AllVisits(id).(fromDate := n)
    ensures VisitsQueryOf(id, [Param("toDate", PrintNat(n))], decode) == AllVisits(id).(toDate := n)
    ensures VisitsQueryOf(id, [Param("toDistance", PrintNat(n))], decode)
        == AllVisits(id).(toDistance := n % 0x1_0000_0000)
  {
    NumberOfPrinted(n);
    forall p: Param ensures VisitsQueryOf(id, [p], decode) == VisitsFoldStep(BlankVisitsQuery(id), p, decode) {
      OneIsFolded(id, p, decode);
    }
  }

  lemma CountryAsksVisits(id: Id, value: string, decode: string -> string)
    ensures VisitsQueryOf(id, [Param("country", value)], decode) == AllVisits(id).(country := decode(value))
  {
    OneIsFolded(id, Param("country", value), decode);
  }

  /** Neighbours with different keys may change places. */
  lemma NeighboursCommute(id: Id, before: seq<Param>, p: Param, q: Param, after: seq<Param>, decode: string -> string)
    requires KeyOf(p.key) != KeyOf(q.key)
    ensures AverageQueryOf(id, before + [p, q] + after) == AverageQueryOf(id, before + [q, p] + after)
    ensures VisitsQueryOf(id, before + [p, q] + after, decode) == VisitsQueryOf(id, before + [q, p] + after, decode)
  {
    forall k ensures Last(before + [p, q] + after, k) == Last(before + [q, p] + after, k) {
      LastSwaps(before, p, q, after, k);
    }
  }

  lemma {:induction false} LastSwaps(before: seq<Param>, p: Param, q: Param, after: seq<Param>, k: Key)
    requires KeyOf(p.key) != KeyOf(q.key)
    ensures Last(before + [p, q] + after, k) == Last(before + [q, p] + after, k)
  {
    if after == [] {
      assert before + [p, q] + after == before + [p] + [q] && before + [q, p] + after == before + [q] + [p];
      LastOfMore(before + [p], q, k);
      LastOfMore(before, p, k);
      LastOfMore(before + [q], p, k);
      LastOfMore(before, q, k);
    } else {
      var init, last := after[..|after| - 1], after[|after| - 1];
      assert before + [p, q] + after == (before + [p, q] + init) + [last];
      assert before + [q, p] + after == (before + [q, p] + init) + [last];
      LastSwaps(before, p, q, init, k);
      LastOfMore(before + [p, q] + init, last, k);
      LastOfMore(before + [q, p] + init, last, k);
    }
  }

  class HttpParser {
    const decode: string -> string
    var requestType: RequestType
    var entityId: Id
    var fromDate: Timestamp
    var toDate: Timestamp
    var fromAge: Timestamp
    var toAge: Timestamp
    var gender: Gender
    var country: string
    var toDistance: Distance
    var additionalInfoMask: bv8

    function State(): Fields
      reads this
    {
      Fields(fromDate, toDate, fromAge, toAge, gender, country, toDistance, additionalInfoMask)
    }

    constructor (decode: string -> string)
      ensures this.decode == decode && requestType == NoRequest && entityId == ID_MAX
      ensures Reflects(State(), [], decode)
    {
      this.decode := decode;
      requestType, entityId := NoRequest, ID_MAX;
      fromDate, toDate := TIMESTAMP_MIN, TIMESTAMP_MAX;
      fromAge, toAge := TIMESTAMP_MIN, TIMESTAMP_MAX;
      gender, country, toDistance := Any, "", DISTANCE_MAX;
      additionalInfoMask := 0;
    }

    /** A parser serves many requests: clearing the mask is enough to forget the parameters of the
        last one, although their values stay in the fields. */
    method StartRequest()
      modifies this`additionalInfoMask
      ensures additionalInfoMask == 0
      ensures Reflects(State(), [], decode)
    {
      additionalInfoMask := 0;
    }

    /** Succeeds exactly if no parameter is malformed; then the fields hold the last values. */
    method SplitQuery(params: seq<Param>) returns (error: ErrorType)
      requires Reflects(State(), [], decode)
      modifies this`fromDate, this`toDate, this`fromAge, this`toAge, this`gender, this`country, this`toDistance,
               this`additionalInfoMask
      ensures error == Ok || error == BadRequest
      ensures error == Ok <==> forall p :: p in params ==> !Malformed(p)
      ensures error == Ok ==> Reflects(State(), params, decode)
    {
      for i := 0 to |params|
        invariant forall j :: 0 <= j < i ==> !Malformed(params[j])
        invariant Reflects(State(), params[..i], decode)
      {
        ghost var before := State();
        AbsorbedReflects(before, params[..i], params[i], decode);
        assert params[..i + 1] == params[..i] + [params[i]];
        assert params[i] in params;
        var ok := Absorb(params[i]);
        if !ok {
          return BadRequest;
        }
      }
      assert params[..|params|] == params;
      return Ok;
    }

    /** The chain of key comparisons for one parameter. */
    method Absorb(p: Param) returns (ok: bool)
      modifies this`fromDate, this`toDate, this`fromAge, this`toAge, this`gender, this`country, this`toDistance,
               this`additionalInfoMask
      ensures ok <==> !Malformed(p)
      ensures ok ==> State() == Absorbed(old(State()), p, decode)
    {
      ok := true;
      if p.key == "gender" {
        if p.value == "f" {
          gender := Female;
        } else if p.value == "m" {
          gender := Male;
        } else {
          return false;
        }
        additionalInfoMask := additionalInfoMask | GENDER;
      } else if p.key == "toDistance" {
        var number;
        ok, number := StringToNumber(p.value);
        if !ok {
          return;
        }
        toDistance := Low32(number);
        additionalInfoMask := additionalInfoMask | TO_DISTANCE;
      } else if p.key == "fromDate" {
        var number;
        ok, number := StringToNumber(p.value);
        if !ok {
          return;
        }
        fromDate := number;
        additionalInfoMask := additionalInfoMask | FROM_DATE;
      } else if p.key == "toDate" {
        var number;
        ok, number := StringToNumber(p.value);
        if !ok {
          return;
        }
        toDate := number;
        additionalInfoMask := additionalInfoMask | TO_DATE;
      } else if p.key == "fromAge" {
        var number;
        ok, number := StringToNumber(p.value);
        if !ok {
          return;
        }
        fromAge := number;
        additionalInfoMask := additionalInfoMask | FROM_AGE;
      } else if p.key == "toAge" {
        var number;
        ok, number := StringToNumber(p.value);
        if !ok {
          return;
        }
        toAge := number;
        additionalInfoMask := additionalInfoMask | TO_AGE;
      } else if p.key == "country" {
        country := decode(p.value);
        additionalInfoMask := additionalInfoMask | COUNTRY;
      }
    }

    /** Routes a path: succeeds exactly if it asks for a type of request, and then stores the
        type and, for an entity that has one, the low 32 bits of its id. */
    method Route(m: HttpMethod, parts: seq<string>) returns (error: ErrorType)
      requires m != OtherMethod ==> |parts| >= 2
      modifies this`requestType, this`entityId
      ensures error == Ok ==> AsksFor(requestType, m, parts)
      ensures forall t :: AsksFor(t, m, parts) ==> error == Ok && requestType == t
      ensures error == NotFound <==> m == Get && !AllDigits(parts[1])
      ensures error != Ok ==> requestType == NoRequest
      ensures error == Ok && !IsAdd(requestType) ==> entityId as int == Low32(Number(parts[1]))
    {
      requestType := NoRequest;
      if m == Get {
        error := RouteGet(parts);
      } else if m == Post {
        error := RoutePost(parts);
      } else {
        error := BadRequest;
      }
    }

    method RouteGet(parts: seq<string>) returns (error: ErrorType)
      requires |parts| >= 2 && requestType == NoRequest
      modifies this`requestType, this`entityId
      ensures error == Ok ==> AsksFor(requestType, Get, parts)
      ensures forall t :: AsksFor(t, Get, parts) ==> error == Ok && requestType == t
      ensures error == NotFound <==> !AllDigits(parts[1])
      ensures error != Ok ==> requestType == NoRequest
      ensures error == Ok ==> !IsAdd(requestType) && entityId as int == Low32(Number(parts[1]))
    {
      var ok, id := StringToNumber(parts[1]);
      if !ok {
        return NotFound;
      }
      entityId := Low32(id) as Id;
      if parts[0] == "" {
        return BadRequest;
      }
      if parts[0][0] == 'u' {
        if parts[0] != "users" {
          return BadRequest;
        }
        if |parts| == 2 {
          requestType := GetUserById;
        } else {
          if parts[2] != "visits" {
            return BadRequest;
          }
          requestType := GetVisitsByUserId;
        }
      } else if parts[0][0] == 'l' {
        if parts[0] != "locations" {
          return BadRequest;
        }
        if |parts| == 2 {
          requestType := GetLocationById;
        } else {
          if parts[2] != "avg" {
            return BadRequest;
          }
          requestType := GetAverageLocationMark;
        }
      } else if parts[0][0] == 'v' {
        if parts[0] != "visits" {
          return BadRequest;
        }
        requestType := GetVisitById;
      } else {
        return BadRequest;
      }
      return Ok;
    }

    /** The two types of POST request on a collection. */
    method PostTypes(collection: string) returns (known: bool, add: RequestType, update: RequestType)
      ensures known <==> collection == "users" || collection == "locations" || collection == "visits"
      ensures known ==> IsAdd(add) && Collection(add) == collection
      ensures known ==> IsUpdate(update) && Collection(update) == collection
    {
      known, add, update := false, NoRequest, NoRequest;
      if collection == "" {
        return;
      }
      if collection[0] == 'u' {
        if collection != "users" {
          return;
        }
        add, update := RequestType.AddUser, UpdateUserById;
      } else if collection[0] == 'l' {
        if collection != "locations" {
          return;
        }
        add, update := RequestType.AddLocation, UpdateLocationById;
      } else if collection[0] == 'v' {
        if collection != "visits" {
          return;
        }
        add, update := RequestType.AddVisit, UpdateVisitById;
      } else {
        return;
      }
      known := true;
    }

    /** What a POST path asks for shows in its collection and in its second part. */
    lemma PostAsks(parts: seq<string>, t: RequestType)
      requires AsksFor(t, Post, parts)
      ensures parts[0] == "users" || parts[0] == "locations" || parts[0] == "visits"
      ensures IsAdd(t) ==> parts[1] == "new" && !AllDigits(parts[1])
      ensures !IsAdd(t) ==> AllDigits(parts[1])
    {
      assert "new"[0] == 'n';
    }

    method RoutePost(parts: seq<string>) returns (error: ErrorType)
      requires |parts| >= 2 && requestType == NoRequest
      modifies this`requestType, this`entityId
      ensures error == Ok ==> AsksFor(requestType, Post, parts)
      ensures forall t :: AsksFor(t, Post, parts) ==> error == Ok && requestType == t
      ensures error != NotFound && (error != Ok ==> requestType == NoRequest)
      ensures error == Ok && !IsAdd(requestType) ==> entityId as int == Low32(Number(parts[1]))
    {
      forall t | AsksFor(t, Post, parts)
        ensures parts[0] in ["users", "locations", "visits"] && (parts[1] == "new" || AllDigits(parts[1]))
      {
        PostAsks(parts, t);
      }
      var known, add, update := PostTypes(parts[0]);
      if !known {
        return BadRequest;
      }
      if parts[1] == "new" {
        requestType := add;
        forall t | AsksFor(t, Post, parts) ensures t == add { AsksForOne(t, add, Post, parts); }
        return Ok;
      }
      var ok, id := StringToNumber(parts[1]);
      if !ok {
        return BadRequest;
      }
      entityId := Low32(id) as Id;
      requestType := update;
      forall t | AsksFor(t, Post, parts) ensures t == update { AsksForOne(t, update, Post, parts); }
      return Ok;
    }
  }

  /** Routing the eleven paths, written out, for every id of 32 bits. */
  method RouteWrittenPath(parser: HttpParser, m: HttpMethod, parts: seq<string>, ghost id: Id)
    returns (error: ErrorType)
    requires |parts| >= 2
    modifies parser`requestType, parser`entityId
    ensures m == Get && parts == ["visits", PrintNat(id as int)] ==>
      error == Ok && parser.requestType == GetVisitById && parser.entityId == id
    ensures m == Get && parts == ["users", PrintNat(id as int)] ==>
      error == Ok && parser.requestType == GetUserById && parser.entityId == id
    ensures m == Get && parts == ["locations", PrintNat(id as int)] ==>
      error == Ok && parser.requestType == GetLocationById && parser.entityId == id
    ensures m == Get && parts == ["users", PrintNat(id as int), "visits"] ==>
      error == Ok && parser.requestType == GetVisitsByUserId && parser.entityId == id
    ensures m == Get && parts == ["locations", PrintNat(id as int), "avg"] ==>
      error == Ok && parser.requestType == GetAverageLocationMark && parser.entityId == id
    ensures m == Post && parts == ["visits", PrintNat(id as int)] ==>
      error == Ok && parser.requestType == UpdateVisitById && parser.entityId == id
    ensures m == Post && parts == ["users", PrintNat(id as int)] ==>
      error == Ok && parser.requestType == UpdateUserById && parser.entityId == id
    ensures m == Post && parts == ["locations", PrintNat(id as int)] ==>
      error == Ok && parser.requestType == UpdateLocationById && parser.entityId == id
    ensures m == Post && parts == ["visits", "new"] ==> error == Ok && parser.requestType == RequestType.AddVisit
    ensures m == Post && parts == ["users", "new"] ==> error == Ok && parser.requestType == RequestType.AddUser
    ensures m == Post && parts == ["locations", "new"] ==> error == Ok && parser.requestType == RequestType.AddLocation
  {
    PostsAre(m, parts);
    GetsAre(m, parts);
    PrintedNumberIsRead(id as int);
    error := parser.Route(m, parts);
  }

  /** Routing the printed path of a request gives the request back. */
  method RoutePrintedPath(parser: HttpParser, t: RequestType, id: Id) returns (error: ErrorType)
    requires t != NoRequest
    modifies parser`requestType, parser`entityId
    ensures error == Ok && parser.requestType == t
    ensures !IsAdd(t) ==> parser.entityId == id
  {
    PrintedPathAsks(t, id);
    error := parser.Route(MethodOf(t), PathOf(t, id));
    if !IsAdd(t) {
      PrintedIdIsRead(t, id);
    }
  }

  // ---- RequestProcessor.cpp: from the parser's fields to a query

  /** The mask-gated fill of the average query gives what the parameter list stands for. */
  method FillAverageLocationMarkQuery(parser: HttpParser, ghost params: seq<Param>) returns (query: AverageQuery)
    requires Reflects(parser.State(), params, parser.decode)
    ensures query == AverageQueryOf(parser.entityId, params)
  {
    ghost var f, decode := parser.State(), parser.decode;
    assert ReflectsKey(f, params, FromDate, decode) && ReflectsKey(f, params, ToDate, decode);
    assert ReflectsKey(f, params, FromAge, decode) && ReflectsKey(f, params, ToAge, decode);
    assert ReflectsKey(f, params, GenderKey, decode);
    query := BlankAverageQuery(parser.entityId);
    var mask := parser.additionalInfoMask;
    if Has(mask, FROM_DATE) {
      query := query.(fromDate := parser.fromDate);
    }
    if Has(mask, TO_DATE) {
      query := query.(toDate := parser.toDate);
    }
    if Has(mask, FROM_AGE) {
      query := query.(fromAge := parser.fromAge);
    }
    if Has(mask, TO_AGE) {
      query := query.(toAge := parser.toAge);
    }
    if Has(mask, GENDER) {
      query := query.(gender := parser.gender);
    }
  }

  method FillVisistsByUserIdQuery(parser: HttpParser, ghost params: seq<Param>) returns (query: VisitsQuery)
    requires Reflects(parser.State(), params, parser.decode)
    ensures query == VisitsQueryOf(parser.entityId, params, parser.decode)
  {
    ghost var f, decode := parser.State(), parser.decode;
    assert ReflectsKey(f, params, FromDate, decode) && ReflectsKey(f, params, ToDate, decode);
    assert ReflectsKey(f, params, Country, decode) && ReflectsKey(f, params, ToDistance, decode);
    query := BlankVisitsQuery(parser.entityId);
    var mask := parser.additionalInfoMask;
    if Has(mask, FROM_DATE) {
      query := query.(fromDate := parser.fromDate);
    }
    if Has(mask, TO_DATE) {
      query := query.(toDate := parser.toDate);
    }
    if Has(mask, COUNTRY) {
      query := query.(country := parser.country);
    }
    if Has(mask, TO_DISTANCE) {
      query := query.(toDistance := parser.toDistance);
    }
  }

  /** A parameter list has a gender that is neither f nor m, or a number that is not all digits. */
  predicate Unreadable(params: seq<Param>) {
    exists i :: 0 <= i < |params| && Malformed(params[i])
  }

  /** Splitting the parameters of a request and filling the query. A single parameter sets its own
      field and no other. `n` and `value` stand for any number below 10^18 and any text. */
  method ReadAverageQuery(parser: HttpParser, params: seq<Param>, ghost n: nat)
    returns (error: ErrorType, query: AverageQuery)
    requires n < 1_000_000_000_000_000_000 && Reflects(parser.State(), [], parser.decode)
    modifies parser`fromDate, parser`toDate, parser`fromAge, parser`toAge, parser`gender, parser`country,
             parser`toDistance, parser`additionalInfoMask
    ensures error == (if Unreadable(params) then BadRequest else Ok)
    ensures error == Ok ==> query == Folded(NoBounds(parser.entityId), params)
    ensures params == [] ==> error == Ok && query == NoBounds(parser.entityId)
    ensures params == [Param("fromDate", PrintNat(n))] ==>
              error == Ok && query == NoBounds(parser.entityId).(fromDate := n)
    ensures params == [Param("toDate", PrintNat(n))] ==>
              error == Ok && query == NoBounds(parser.entityId).(toDate := n)
    ensures params == [Param("fromAge", PrintNat(n))] ==>
              error == Ok && query == NoBounds(parser.entityId).(fromAge := n)
    ensures params == [Param("toAge", PrintNat(n))] ==>
              error == Ok && query == NoBounds(parser.entityId).(toAge := n)
    ensures params == [Param("gender", "f")] ==>
              error == Ok && query == NoBounds(parser.entityId).(gender := Female)
    ensures params == [Param("gender", "m")] ==>
              error == Ok && query == NoBounds(parser.entityId).(gender := Male)
  {
    ghost var id := parser.entityId;
    NumberOfPrinted(n);
    NumberAsksAverage(id, n);
    GenderAsksAverage(id);
    QueryIsFold(id, params);
    query := BlankAverageQuery(parser.entityId);
    error := parser.SplitQuery(params);
    if error == Ok {
      query := FillAverageLocationMarkQuery(parser, params);
    }
  }

  method ReadVisitsQuery(parser: HttpParser, params: seq<Param>, ghost n: nat, ghost value: string)
    returns (error: ErrorType, query: VisitsQuery)
    requires n < 1_000_000_000_000_000_000 && Reflects(parser.State(), [], parser.decode)
    modifies parser`fromDate, parser`toDate, parser`fromAge, parser`toAge, parser`gender, parser`country,
             parser`toDistance, parser`additionalInfoMask
    ensures error == (if Unreadable(params) then BadRequest else Ok)
    ensures error == Ok ==> query == VisitsFolded(AllVisits(parser.entityId), params, parser.decode)
    ensures params == [] ==> error == Ok && query == AllVisits(parser.entityId)
    ensures params == [Param("fromDate", PrintNat(n))] ==>
              error == Ok && query == AllVisits(parser.entityId).(fromDate := n)
    ensures params == [Param("toDate", PrintNat(n))] ==>
              error == Ok && query == AllVisits(parser.entityId).(toDate := n)
    ensures params == [Param("toDistance", PrintNat(n))] ==>
              error == Ok && query == AllVisits(parser.entityId).(toDistance := n % 0x1_0000_0000)
    ensures params == [Param("country", value)] ==>
              error == Ok && query == AllVisits(parser.entityId).(country := parser.decode(value))
  {
    ghost var id := parser.entityId;
    NumberOfPrinted(n);
    NumberAsksVisits(id, n, parser.decode);
    CountryAsksVisits(id, value, parser.decode);
    VisitsQueryIsFold(id, params, parser.decode);
    query := BlankVisitsQuery(parser.entityId);
    error := parser.SplitQuery(params);
    if error == Ok {
      query := FillVisistsByUserIdQuery(parser, params);
    }
  }
}
