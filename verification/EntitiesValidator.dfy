/** From the body of an update request to a patch: the validator sets a bit for every
    attribute of the right kind, and the fill copies the attributes whose bits are set. */
module UpdateBodies {
  import opened Entities
  import opened Numbers

  /** The members of a parsed body; numbers with a fraction and all other values are `Other`. */
  datatype Json = Text(text: string) | Integer(n: int) | Other

  type Body = map<string, Json>

  predicate IsString(j: Json) { j.Text? }

  predicate IsUint64(j: Json) { j.Integer? && 0 <= j.n < 0x1_0000_0000_0000_0000 }

  predicate IsInt64(j: Json) { j.Integer? && -0x8000_0000_0000_0000 <= j.n < 0x8000_0000_0000_0000 }

  datatype Kind = StringKind | Uint64Kind | Int64Kind

  predicate HasKind(j: Json, k: Kind) {
    match k
    case StringKind => IsString(j)
    case Uint64Kind => IsUint64(j)
    case Int64Kind => IsInt64(j)
  }

  /** An attribute: its bit in the mask, its name in the body, and the kind it is checked for. */
  datatype Attribute = Attribute(bit: bv16, name: string, kind: Kind)

  const PLACE := Attribute(1, "place", StringKind)
  const COUNTRY := Attribute(2, "country", StringKind)
  const CITY := Attribute(4, "city", StringKind)
  const DISTANCE := Attribute(8, "distance", Uint64Kind)
  const LOCATION_ID := Attribute(16, "location", Uint64Kind)
  const USER_ID := Attribute(32, "user", Uint64Kind)
  const VISITED_AT := Attribute(64, "visited_at", Int64Kind)
  const MARK := Attribute(128, "mark", Uint64Kind)
  const EMAIL := Attribute(256, "email", StringKind)
  const FIRST_NAME := Attribute(512, "first_name", StringKind)
  const LAST_NAME := Attribute(1024, "last_name", StringKind)
  const GENDER := Attribute(2048, "gender", StringKind)
  const BIRTH_DATE := Attribute(4096, "birth_date", Int64Kind)

  const LOCATION_ATTRIBUTES := [PLACE, COUNTRY, CITY, DISTANCE]
  const VISIT_ATTRIBUTES := [LOCATION_ID, USER_ID, VISITED_AT, MARK]
  const USER_ATTRIBUTES := [EMAIL, FIRST_NAME, LAST_NAME, GENDER, BIRTH_DATE]

  /** The attribute is absent or of its kind. */
  predicate Acceptable(body: Body, a: Attribute) {
    a.name in body ==> HasKind(body[a.name], a.kind)
  }

  predicate AllAcceptable(body: Body, attributes: seq<Attribute>) {
    forall i :: 0 <= i < |attributes| ==> Acceptable(body, attributes[i])
  }

  // ---- the mask

  predicate Has(mask: bv16, bit: bv16) { mask & bit != 0 }

  predicate SingleBit(x: bv16) { x != 0 && x & (x - 1) == 0 }

  predicate Separate(attributes: seq<Attribute>) {
    && (forall i :: 0 <= i < |attributes| ==> SingleBit(attributes[i].bit))
    && (forall i, j :: 0 <= i < j < |attributes| ==> attributes[i].bit != attributes[j].bit)
  }

  lemma OrDistributes(mask: bv16, x: bv16, y: bv16)
    ensures (mask | x) & y == (mask & y) | (x & y)
  {
  }

  lemma OrIsZero(x: bv16, y: bv16)
    ensures x | y == 0 <==> x == 0 && y == 0
  {
  }

  lemma SingleBitsMeet(x: bv16, y: bv16)
    requires SingleBit(x) && SingleBit(y)
    ensures x & y != 0 <==> x == y
  {
  }

  /** Setting a bit sets it and leaves the other bits. */
  lemma OrSingleBit(mask: bv16, x: bv16, y: bv16)
    requires SingleBit(x) && SingleBit(y)
    ensures Has(mask | x, y) <==> Has(mask, y) || x == y
  {
    OrDistributes(mask, x, y);
    OrIsZero(mask & y, x & y);
    SingleBitsMeet(x, y);
  }

  /** After the first `n` checks the mask has the bits of those of the attributes that the
      body has, and none of the later ones. */
  ghost predicate MaskFollows(mask: bv16, body: Body, attributes: seq<Attribute>, n: nat) {
    forall i :: 0 <= i < |attributes| ==> (Has(mask, attributes[i].bit) <==> i < n && attributes[i].name in body)
  }

  function WithBit(mask: bv16, body: Body, a: Attribute): bv16 {
    if a.name in body then mask | a.bit else mask
  }

  lemma BitsAfter(mask: bv16, body: Body, a: Attribute, other: bv16)
    requires SingleBit(a.bit) && SingleBit(other)
    ensures Has(WithBit(mask, body, a), other) <==> Has(mask, other) || (a.name in body && a.bit == other)
  {
    var x := a.bit;
    if a.name in body {
      assert WithBit(mask, body, a) == mask | x;
      OrSingleBit(mask, x, other);
    } else {
      assert WithBit(mask, body, a) == mask;
    }
  }

  lemma CheckOneMore(mask: bv16, body: Body, attributes: seq<Attribute>, n: nat)
    requires Separate(attributes) && n < |attributes| && MaskFollows(mask, body, attributes, n)
    ensures MaskFollows(WithBit(mask, body, attributes[n]), body, attributes, n + 1)
  {
    var mask' := WithBit(mask, body, attributes[n]);
    forall i | 0 <= i < |attributes|
      ensures Has(mask', attributes[i].bit) <==> i < n + 1 && attributes[i].name in body
    {
      BitsAfter(mask, body, attributes[n], attributes[i].bit);
      assert attributes[n].bit == attributes[i].bit <==> i == n;
    }
  }

  class EntitiesValidator {
    var attributesMask: bv16
    var jsonContent: Body

    constructor ()
      ensures attributesMask == 0 && jsonContent == map[]
    {
      attributesMask, jsonContent := 0, map[];
    }

    // Each check accepts an absent attribute, and a present one of its kind, whose bit it sets.

    method CheckStringAttribute(a: Attribute) returns (ok: bool)
      requires a.kind == StringKind
      modifies this`attributesMask
      ensures ok <==> Acceptable(jsonContent, a)
      ensures ok ==> attributesMask == WithBit(old(attributesMask), jsonContent, a)
    {
      if a.name in jsonContent {
        if IsString(jsonContent[a.name]) {
          attributesMask := attributesMask | a.bit;
          return true;
        }
        return false;
      }
      return true;
    }

    method CheckUint64Attribute(a: Attribute) returns (ok: bool)
      requires a.kind == Uint64Kind
      modifies this`attributesMask
      ensures ok <==> Acceptable(jsonContent, a)
      ensures ok ==> attributesMask == WithBit(old(attributesMask), jsonContent, a)
    {
      if a.name in jsonContent {
        if IsUint64(jsonContent[a.name]) {
          attributesMask := attributesMask | a.bit;
          return true;
        }
        return false;
      }
      return true;
    }

    method CheckInt64Attribute(a: Attribute) returns (ok: bool)
      requires a.kind == Int64Kind
      modifies this`attributesMask
      ensures ok <==> Acceptable(jsonContent, a)
      ensures ok ==> attributesMask == WithBit(old(attributesMask), jsonContent, a)
    {
      if a.name in jsonContent {
        if IsInt64(jsonContent[a.name]) {
          attributesMask := attributesMask | a.bit;
          return true;
        }
        return false;
      }
      return true;
    }

    // A body that does not parse is `None`; the checks stop at the first that fails.

    method LocationDataForUpdate(content: Option<Body>) returns (ok: bool)
      requires attributesMask == 0
      modifies this
      ensures ok <==> content.Some? && AllAcceptable(content.value, LOCATION_ATTRIBUTES)
      ensures ok ==> jsonContent == content.value && MaskFollows(attributesMask, jsonContent, LOCATION_ATTRIBUTES, 4)
    {
      if content == None {
        return false;
      }
      jsonContent := content.value;
      AttributesAreSeparate();
      CheckOneMore(attributesMask, jsonContent, LOCATION_ATTRIBUTES, 0);
      ok := CheckStringAttribute(PLACE);
      if !ok {
        assert !Acceptable(jsonContent, LOCATION_ATTRIBUTES[0]);
        return;
      }
      CheckOneMore(attributesMask, jsonContent, LOCATION_ATTRIBUTES, 1);
      ok := CheckStringAttribute(COUNTRY);
      if !ok {
        assert !Acceptable(jsonContent, LOCATION_ATTRIBUTES[1]);
        return;
      }
      CheckOneMore(attributesMask, jsonContent, LOCATION_ATTRIBUTES, 2);
      ok := CheckStringAttribute(CITY);
      if !ok {
        assert !Acceptable(jsonContent, LOCATION_ATTRIBUTES[2]);
        return;
      }
      CheckOneMore(attributesMask, jsonContent, LOCATION_ATTRIBUTES, 3);
      ok := CheckUint64Attribute(DISTANCE);
      assert Acceptable(jsonContent, LOCATION_ATTRIBUTES[3]) <==> ok;
    }

    method VisitDataForUpdate(content: Option<Body>) returns (ok: bool)
      requires attributesMask == 0
      modifies this
      ensures ok <==> content.Some? && AllAcceptable(content.value, VISIT_ATTRIBUTES)
      ensures ok ==> jsonContent == content.value && MaskFollows(attributesMask, jsonContent, VISIT_ATTRIBUTES, 4)
    {
      if content == None {
        return false;
      }
      jsonContent := content.value;
      AttributesAreSeparate();
      CheckOneMore(attributesMask, jsonContent, VISIT_ATTRIBUTES, 0);
      ok := CheckUint64Attribute(LOCATION_ID);
      if !ok {
        assert !Acceptable(jsonContent, VISIT_ATTRIBUTES[0]);
        return;
      }
      CheckOneMore(attributesMask, jsonContent, VISIT_ATTRIBUTES, 1);
      ok := CheckUint64Attribute(USER_ID);
      if !ok {
        assert !Acceptable(jsonContent, VISIT_ATTRIBUTES[1]);
        return;
      }
      CheckOneMore(attributesMask, jsonContent, VISIT_ATTRIBUTES, 2);
      ok := CheckInt64Attribute(VISITED_AT);
      if !ok {
        assert !Acceptable(jsonContent, VISIT_ATTRIBUTES[2]);
        return;
      }
      CheckOneMore(attributesMask, jsonContent, VISIT_ATTRIBUTES, 3);
      ok := CheckUint64Attribute(MARK);
      assert Acceptable(jsonContent, VISIT_ATTRIBUTES[3]) <==> ok;
    }

    method UserDataForUpdate(content: Option<Body>) returns (ok: bool)
      requires attributesMask == 0
      modifies this
      ensures ok <==> content.Some? && AllAcceptable(content.value, USER_ATTRIBUTES)
      ensures ok ==> jsonContent == content.value && MaskFollows(attributesMask, jsonContent, USER_ATTRIBUTES, 5)
    {
      if content == None {
        return false;
      }
      jsonContent := content.value;
      AttributesAreSeparate();
      CheckOneMore(attributesMask, jsonContent, USER_ATTRIBUTES, 0);
      ok := CheckStringAttribute(EMAIL);
      if !ok {
        assert !Acceptable(jsonContent, USER_ATTRIBUTES[0]);
        return;
      }
      CheckOneMore(attributesMask, jsonContent, USER_ATTRIBUTES, 1);
      ok := CheckStringAttribute(FIRST_NAME);
      if !ok {
        assert !Acceptable(jsonContent, USER_ATTRIBUTES[1]);
        return;
      }
      CheckOneMore(attributesMask, jsonContent, USER_ATTRIBUTES, 2);
      ok := CheckStringAttribute(LAST_NAME);
      if !ok {
        assert !Acceptable(jsonContent, USER_ATTRIBUTES[2]);
        return;
      }
      CheckOneMore(attributesMask, jsonContent, USER_ATTRIBUTES, 3);
      ok := CheckStringAttribute(GENDER);
      if !ok {
        assert !Acceptable(jsonContent, USER_ATTRIBUTES[3]);
        return;
      }
      CheckOneMore(attributesMask, jsonContent, USER_ATTRIBUTES, 4);
      ok := CheckInt64Attribute(BIRTH_DATE);
      assert Acceptable(jsonContent, USER_ATTRIBUTES[4]) <==> ok;
    }
  }

  // ---- RequestProcessor.cpp: from the validated body to a sentinel-filled entity

  /** Storing a 64-bit number in a signed 16-bit field. */
  function AsMark(n: int): Mark { (n + 0x8000) % 0x1_0000 - 0x8000 }

  function AsGender(s: string): Gender { if s == "m" then Male else Female }

  /** The number that the body gives for the attribute. */
  function Given(body: Body, a: Attribute): Option<int> {
    if a.name in body && body[a.name].Integer? then Some(body[a.name].n) else None
  }

  /** The text that the body gives for the attribute. */
  function GivenText(body: Body, a: Attribute): Option<string> {
    if a.name in body && body[a.name].Text? then Some(body[a.name].text) else None
  }

  function NumberOr(body: Body, a: Attribute, absent: int): int {
    match Given(body, a) case Some(n) => n case None => absent
  }

  function TextOr(body: Body, a: Attribute): string {
    match GivenText(body, a) case Some(text) => text case None => ""
  }

  /** The patch a body stands for: what it has, cut to the width of the field, else the sentinel. */
  function VisitPatch(id: Id, body: Body): Visit {
    Visit(id,
          Low32(NumberOr(body, LOCATION_ID, ID_MAX as int)) as Id, Low32(NumberOr(body, USER_ID, ID_MAX as int)) as Id,
          Wrap64(NumberOr(body, VISITED_AT, TIMESTAMP_MAX)), AsMark(NumberOr(body, MARK, MARK_MAX)))
  }

  function LocationPatch(id: Id, body: Body): Location {
    Location(id, TextOr(body, PLACE), TextOr(body, COUNTRY), TextOr(body, CITY),
             Low32(NumberOr(body, DISTANCE, DISTANCE_MIN)))
  }

  function UserPatch(id: Id, body: Body): User {
    User(id, TextOr(body, EMAIL), TextOr(body, FIRST_NAME), TextOr(body, LAST_NAME),
         if GENDER.name in body then AsGender(TextOr(body, GENDER)) else Any,
         Wrap64(NumberOr(body, BIRTH_DATE, TIMESTAMP_MIN)))
  }

  lemma AttributesAreSeparate()
    ensures Separate(LOCATION_ATTRIBUTES) && Separate(VISIT_ATTRIBUTES) && Separate(USER_ATTRIBUTES)
  {
  }

  /** Refuses the body exactly if it does not parse or an attribute has a wrong kind; otherwise
      the entity is the patch that the body stands for. */
  method FillVisitToUpdate(id: Id, content: Option<Body>) returns (patch: Option<Visit>)
    ensures patch == None <==> content == None || !AllAcceptable(content.value, VISIT_ATTRIBUTES)
    ensures patch.Some? ==> patch.value == VisitPatch(id, content.value)
    ensures patch.Some? ==> patch.value.id == id
  {
    var validator := new EntitiesValidator();
    var ok := validator.VisitDataForUpdate(content);
    if !ok {
      return None;
    }
    var visit, mask, json := BlankVisit(id), validator.attributesMask, validator.jsonContent;
    assert VISIT_ATTRIBUTES[0] == LOCATION_ID && VISIT_ATTRIBUTES[1] == USER_ID;
    assert VISIT_ATTRIBUTES[2] == VISITED_AT && VISIT_ATTRIBUTES[3] == MARK;
    if Has(mask, LOCATION_ID.bit) {
      visit := visit.(locationId := Low32(json[LOCATION_ID.name].n) as Id);
    }
    if Has(mask, USER_ID.bit) {
      visit := visit.(userId := Low32(json[USER_ID.name].n) as Id);
    }
    if Has(mask, VISITED_AT.bit) {
      visit := visit.(visitedAt := json[VISITED_AT.name].n);
    }
    if Has(mask, MARK.bit) {
      visit := visit.(mark := AsMark(json[MARK.name].n));
    }
    return Some(visit);
  }

  method FillLocationToUpdate(id: Id, content: Option<Body>) returns (patch: Option<Location>)
    ensures patch == None <==> content == None || !AllAcceptable(content.value, LOCATION_ATTRIBUTES)
    ensures patch.Some? ==> patch.value == LocationPatch(id, content.value)
    ensures patch.Some? ==> patch.value.id == id
  {
    var validator := new EntitiesValidator();
    var ok := validator.LocationDataForUpdate(content);
    if !ok {
      return None;
    }
    var location, mask, json := BlankLocation(id), validator.attributesMask, validator.jsonContent;
    assert LOCATION_ATTRIBUTES[0] == PLACE && LOCATION_ATTRIBUTES[1] == COUNTRY;
    assert LOCATION_ATTRIBUTES[2] == CITY && LOCATION_ATTRIBUTES[3] == DISTANCE;
    if Has(mask, PLACE.bit) {
      location := location.(place := json[PLACE.name].text);
    }
    if Has(mask, COUNTRY.bit) {
      location := location.(country := json[COUNTRY.name].text);
    }
    if Has(mask, CITY.bit) {
      location := location.(city := json[CITY.name].text);
    }
    if Has(mask, DISTANCE.bit) {
      location := location.(distance := Low32(json[DISTANCE.name].n));
    }
    return Some(location);
  }

  method FillUserToUpdate(id: Id, content: Option<Body>) returns (patch: Option<User>)
    ensures patch == None <==> content == None || !AllAcceptable(content.value, USER_ATTRIBUTES)
    ensures patch.Some? ==> patch.value == UserPatch(id, content.value)
    ensures patch.Some? ==> patch.value.id == id
  {
    var validator := new EntitiesValidator();
    var ok := validator.UserDataForUpdate(content);
    if !ok {
      return None;
    }
    var user, mask, json := BlankUser(id), validator.attributesMask, validator.jsonContent;
    assert USER_ATTRIBUTES[0] == EMAIL && USER_ATTRIBUTES[1] == FIRST_NAME && USER_ATTRIBUTES[2] == LAST_NAME;
    assert USER_ATTRIBUTES[3] == GENDER && USER_ATTRIBUTES[4] == BIRTH_DATE;
    if Has(mask, EMAIL.bit) {
      user := user.(email := json[EMAIL.name].text);
    }
    if Has(mask, FIRST_NAME.bit) {
      user := user.(firstName := json[FIRST_NAME.name].text);
    }
    if Has(mask, LAST_NAME.bit) {
      user := user.(lastName := json[LAST_NAME.name].text);
    }
    if Has(mask, GENDER.bit) {
      user := user.(gender := AsGender(json[GENDER.name].text));
    }
    if Has(mask, BIRTH_DATE.bit) {
      user := user.(birthDate := json[BIRTH_DATE.name].n);
    }
    return Some(user);
  }

  // ---- the whole chain, from a body to the stored entity, with the names of the members and the
  // widths of the fields written out

  predicate NumberAt(body: Body, name: string, low: int, high: int) {
    name in body ==> body[name].Integer? && low <= body[name].n < high
  }

  predicate TextAt(body: Body, name: string) {
    name in body ==> body[name].Text?
  }

  /** The bodies that the validator accepts. */
  lemma BodiesAccepted(body: Body)
    ensures AllAcceptable(body, VISIT_ATTRIBUTES) <==>
      && NumberAt(body, "location", 0, 0x1_0000_0000_0000_0000) && NumberAt(body, "user", 0, 0x1_0000_0000_0000_0000)
      && NumberAt(body, "visited_at", -0x8000_0000_0000_0000, 0x8000_0000_0000_0000)
      && NumberAt(body, "mark", 0, 0x1_0000_0000_0000_0000)
    ensures AllAcceptable(body, LOCATION_ATTRIBUTES) <==>
      && TextAt(body, "place") && TextAt(body, "country") && TextAt(body, "city")
      && NumberAt(body, "distance", 0, 0x1_0000_0000_0000_0000)
    ensures AllAcceptable(body, USER_ATTRIBUTES) <==>
      && TextAt(body, "email") && TextAt(body, "first_name") && TextAt(body, "last_name") && TextAt(body, "gender")
      && NumberAt(body, "birth_date", -0x8000_0000_0000_0000, 0x8000_0000_0000_0000)
  {
    FourAcceptable(body, LOCATION_ID, USER_ID, VISITED_AT, MARK);
    FourAcceptable(body, PLACE, COUNTRY, CITY, DISTANCE);
    FourAcceptable(body, EMAIL, FIRST_NAME, LAST_NAME, GENDER);
    FiveAcceptable(body, EMAIL, FIRST_NAME, LAST_NAME, GENDER, BIRTH_DATE);
  }

  lemma FourAcceptable(body: Body, a: Attribute, b: Attribute, c: Attribute, d: Attribute)
    ensures AllAcceptable(body, [a, b, c, d])
      <==> Acceptable(body, a) && Acceptable(body, b) && Acceptable(body, c) && Acceptable(body, d)
  {
    var all := [a, b, c, d];
    assert all[0] == a && all[1] == b && all[2] == c && all[3] == d;
  }

  lemma FiveAcceptable(body: Body, a: Attribute, b: Attribute, c: Attribute, d: Attribute, e: Attribute)
    ensures AllAcceptable(body, [a, b, c, d, e])
      <==> AllAcceptable(body, [a, b, c, d]) && Acceptable(body, e)
  {
    var all, init := [a, b, c, d, e], [a, b, c, d];
    assert all[4] == e && forall i :: 0 <= i < 4 ==> all[i] == init[i];
  }

  /** An id takes effect exactly if it is given and its low 32 bits are not all ones. */
  predicate IdFollows(body: Body, name: string, before: Id, after: Id) {
    if name in body && body[name].Integer? && body[name].n % 0x1_0000_0000 != 0xFFFF_FFFF
    then after as int == body[name].n % 0x1_0000_0000
    else after == before
  }

  /** A text takes effect exactly if it is given and not empty. */
  predicate TextFollows(body: Body, name: string, before: string, after: string) {
    after == if name in body && body[name].Text? && body[name].text != "" then body[name].text else before
  }

  /** A 64-bit number takes effect exactly if it is given and is not the one for "absent". */
  predicate NumberFollows(body: Body, name: string, absent: int, before: int, after: int) {
    after == if name in body && body[name].Integer? && body[name].n != absent then body[name].n else before
  }

  /** The ids of a visit. */
  lemma IdsOfVisitAfter(v: Visit, body: Body)
    requires AllAcceptable(body, VISIT_ATTRIBUTES)
    ensures var after := MergeVisit(v, VisitPatch(v.id, body));
            && IdFollows(body, "location", v.locationId, after.locationId)
            && IdFollows(body, "user", v.userId, after.userId)
  {
  }

  /** The time: every 64-bit number takes effect but the largest one. */
  lemma TimeOfVisitAfter(v: Visit, body: Body)
    requires AllAcceptable(body, VISIT_ATTRIBUTES)
    ensures var after := MergeVisit(v, VisitPatch(v.id, body));
            NumberFollows(body, "visited_at", 0x7FFF_FFFF_FFFF_FFFF, v.visitedAt, after.visitedAt)
  {
    BodiesAccepted(body);
  }

  /** The mark: a number takes effect exactly if its low 16 bits are not 32767; it is then the
      signed number of these bits. */
  lemma MarkOfVisitAfter(v: Visit, body: Body)
    requires AllAcceptable(body, VISIT_ATTRIBUTES)
    ensures var after := MergeVisit(v, VisitPatch(v.id, body));
            if "mark" in body && body["mark"].Integer? && body["mark"].n % 0x1_0000 != 0x7FFF then
              var low := body["mark"].n % 0x1_0000;
              after.mark == if low < 0x8000 then low else low - 0x1_0000
            else after.mark == v.mark
  {
    if "mark" in body && body["mark"].Integer? {
      LowBits(body["mark"].n);
    }
  }

  lemma LowBits(n: int)
    ensures var low := n % 0x1_0000; AsMark(n) == if low < 0x8000 then low else low - 0x1_0000
  {
  }

  /** A location: a distance that is a multiple of 2^32 acts as absent. */
  lemma LocationAfterBody(l: Location, body: Body)
    requires AllAcceptable(body, LOCATION_ATTRIBUTES)
    ensures var after := MergeLocation(l, LocationPatch(l.id, body));
            && TextFollows(body, "place", l.place, after.place)
            && TextFollows(body, "country", l.country, after.country)
            && TextFollows(body, "city", l.city, after.city)
            && (if "distance" in body && body["distance"].Integer? && body["distance"].n % 0x1_0000_0000 != 0
                then after.distance == body["distance"].n % 0x1_0000_0000
                else after.distance == l.distance)
  {
  }

  /** A user: every given gender takes effect, all but "m" as female; every birth date does but
      the smallest 64-bit number. */
  lemma UserAfterBody(u: User, body: Body)
    requires AllAcceptable(body, USER_ATTRIBUTES)
    ensures var after := MergeUser(u, UserPatch(u.id, body));
            && TextFollows(body, "email", u.email, after.email)
            && TextFollows(body, "first_name", u.firstName, after.firstName)
            && TextFollows(body, "last_name", u.lastName, after.lastName)
            && (if "gender" !in body then after.gender == u.gender
                else body["gender"].Text? && after.gender == if body["gender"].text == "m" then Male else Female)
            && NumberFollows(body, "birth_date", -0x8000_0000_0000_0000, u.birthDate, after.birthDate)
  {
    BodiesAccepted(body);
  }
}
