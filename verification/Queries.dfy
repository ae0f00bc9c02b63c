/** The two queries, the scan of the visit table each of them stands for, and the
    arithmetic of the average. */
module Queries {
  import opened Entities

  datatype AverageQuery = AverageQuery(id: Id, fromDate: Timestamp, toDate: Timestamp,
                                       fromAge: Timestamp, toAge: Timestamp, gender: Gender)

  datatype VisitsQuery = VisitsQuery(id: Id, fromDate: Timestamp, toDate: Timestamp,
                                     country: string, toDistance: Distance)

  function BlankAverageQuery(id: Id): AverageQuery {
    AverageQuery(id, TIMESTAMP_MIN, TIMESTAMP_MAX, TIMESTAMP_MIN, TIMESTAMP_MAX, Any)
  }

  function BlankVisitsQuery(id: Id): VisitsQuery {
    VisitsQuery(id, TIMESTAMP_MIN, TIMESTAMP_MAX, "", DISTANCE_MAX)
  }

  /** Maps an age in years to the birth date of that age, as the clock of the server has it. */
  type Calendar = Age -> Timestamp

  /** A bound on the age arrives as a 64-bit number and is cut to 16 bits. */
  function AgeOf(bound: Timestamp): Age { bound % 0x1_0000 }

  /** Every bound that is `a` modulo 2^16 asks for the age `a`. */
  lemma AgeOfBound(a: int, k: int, bound: Timestamp)
    requires 0 <= a < 0x1_0000 && bound == a + k * 0x1_0000
    ensures AgeOf(bound) == a
  {
  }

  /** The marks of a list of visits, added up from the left. */
  function Total(visits: map<Id, Visit>, ids: seq<Id>): int
    requires forall id :: id in ids ==> id in visits
  {
    if ids == [] then 0
    else Total(visits, ids[..|ids| - 1]) + visits[ids[|ids| - 1]].mark
  }

  /** `ids` names every element of the set once, in some order. */
  ghost predicate Enumerates(ids: seq<Id>, all: set<Id>) {
    (forall id :: id in ids <==> id in all) && forall i, j :: 0 <= i < j < |ids| ==> ids[i] != ids[j]
  }

  lemma {:induction false} TotalIsSum(visits: map<Id, Visit>, ids: seq<Id>, all: set<Id>)
    requires Enumerates(ids, all) && all <= visits.Keys
    ensures Total(visits, ids) == SumMarks(visits, all) && |ids| == |all|
    decreases |ids|
  {
    if ids == [] {
      assert all == {};
    } else {
      var init, last := ids[..|ids| - 1], ids[|ids| - 1];
      assert ids == init + [last];
      assert last in all && last !in init;
      assert forall id :: id in init <==> id in all - {last};
      TotalIsSum(visits, init, all - {last});
      SumMarksWithout(visits, all, last);
    }
  }

  /** The answer for a selection, whatever the order in which it is listed: without visits none,
      else the total of their marks over their number. */
  lemma AnswerIsTotal(visits: map<Id, Visit>, ids: seq<Id>, selected: set<Id>)
    requires Enumerates(ids, selected) && selected <= visits.Keys
    ensures AnswerFor(visits, selected) == if ids == [] then NoMarks else Mean(Total(visits, ids), |ids|)
  {
    TotalIsSum(visits, ids, selected);
    if ids == [] {
      assert selected == {};
    }
  }

  /** The open date window; a bound that holds its sentinel is no bound. */
  predicate InWindow(fromDate: Timestamp, toDate: Timestamp, at: Timestamp) {
    && (fromDate != TIMESTAMP_MIN ==> fromDate < at)
    && (toDate != TIMESTAMP_MAX ==> at < toDate)
  }

  predicate GenderFits(q: AverageQuery, u: User) {
    q.gender != Any ==> u.gender == q.gender
  }

  /** The age bounds of the live store: a birth date on a bound is outside. */
  predicate AgeFitsStrictly(q: AverageQuery, calendar: Calendar, u: User) {
    && (q.fromAge != TIMESTAMP_MIN ==> u.birthDate < calendar(AgeOf(q.fromAge)))
    && (q.toAge != TIMESTAMP_MAX ==> u.birthDate > calendar(AgeOf(q.toAge)))
  }

  /** The age bounds of the indexed store: a birth date on a bound is inside. */
  predicate AgeFitsLoosely(q: AverageQuery, calendar: Calendar, u: User) {
    && (q.fromAge != TIMESTAMP_MIN ==> u.birthDate <= calendar(AgeOf(q.fromAge)))
    && (q.toAge != TIMESTAMP_MAX ==> u.birthDate >= calendar(AgeOf(q.toAge)))
  }

  // ---- sums of marks

  /** The sum of the marks of the visits in `ids`, in whatever order they are added. */
  ghost function SumMarks(visits: map<Id, Visit>, ids: set<Id>): int
    requires ids <= visits.Keys
  {
    if ids == {} then 0 else
      var id :| id in ids;
      visits[id].mark + SumMarks(visits, ids - {id})
  }

  lemma {:induction false} SumMarksWithout(visits: map<Id, Visit>, ids: set<Id>, id: Id)
    requires ids <= visits.Keys && id in ids
    ensures SumMarks(visits, ids) == visits[id].mark + SumMarks(visits, ids - {id})
    decreases |ids|
  {
    var first :| first in ids && SumMarks(visits, ids) == visits[first].mark + SumMarks(visits, ids - {first});
    if first != id {
      SumMarksWithout(visits, ids - {first}, id);
      SumMarksWithout(visits, ids - {id}, first);
      assert ids - {first} - {id} == ids - {id} - {first};
    }
  }

  lemma SumMarksWith(visits: map<Id, Visit>, ids: set<Id>, id: Id)
    requires ids <= visits.Keys && id in visits && id !in ids
    ensures SumMarks(visits, ids + {id}) == SumMarks(visits, ids) + visits[id].mark
  {
    SumMarksWithout(visits, ids + {id}, id);
    assert ids + {id} - {id} == ids;
  }

  lemma {:induction false} IdsAreFew(ids: set<Id>, bound: nat)
    requires forall id :: id in ids ==> id as int < bound
    ensures |ids| <= bound
    decreases bound
  {
    if bound > 0 {
      if id :| id in ids && id as int == bound - 1 {
        IdsAreFew(ids - {id}, bound - 1);
      } else {
        IdsAreFew(ids, bound - 1);
      }
    } else {
      assert ids == {};
    }
  }

  lemma OneMore(bound: int, count: nat)
    ensures bound * (count + 1) == bound * count + bound
  {
  }

  lemma {:induction false} SumMarksBetween(visits: map<Id, Visit>, ids: set<Id>, low: int, high: int)
    requires ids <= visits.Keys
    requires forall id :: id in ids ==> low <= visits[id].mark <= high
    ensures low * |ids| <= SumMarks(visits, ids) <= high * |ids|
    decreases |ids|
  {
    if ids != {} {
      var id :| id in ids;
      SumMarksWithout(visits, ids, id);
      SumMarksBetween(visits, ids - {id}, low, high);
      OneMore(low, |ids - {id}|);
      OneMore(high, |ids - {id}|);
    }
  }

  /** The sum over any set of visits, so the sum at every step of every query, is an integer
      below 2^53 in size: adding the marks up in a double is exact. */
  lemma SumIsExactInDouble(visits: map<Id, Visit>, ids: set<Id>)
    requires ids <= visits.Keys
    ensures -0x8000_0000_0000 <= SumMarks(visits, ids) <= 0x8000_0000_0000 < 0x20_0000_0000_0000
  {
    IdsAreFew(ids, 0x1_0000_0000);
    SumMarksBetween(visits, ids, -0x8000, 0x7FFF);
  }

  // ---- the answer of the average query

  /** The store prints nothing, `0`, or the quotient of a sum by a count. */
  datatype MarkAnswer = NoLocation | NoMarks | Mean(sum: int, count: nat)

  /** The answer for a selection of visits of a location that exists. */
  ghost function AnswerFor(visits: map<Id, Visit>, selected: set<Id>): MarkAnswer
    requires selected <= visits.Keys
  {
    if selected == {} then NoMarks else Mean(SumMarks(visits, selected), |selected|)
  }

  /** The quotient in units of 10^-5, rounded to the nearest unit (a half goes up). */
  function Rounded5(sum: int, count: nat): int
    requires count > 0
  {
    (2 * 100000 * sum + count) / (2 * count)
  }

  /** Rounding moves the quotient by at most half a unit. */
  lemma RoundedIsNearest(sum: int, count: nat)
    requires count > 0
    ensures -(count as int) <= 2 * (Rounded5(sum, count) * count - 100000 * sum) <= count
  {
    var r := Rounded5(sum, count);
    var n := 2 * 100000 * sum + count;
    assert n == (2 * count) * r + n % (2 * count);
    assert (2 * count) * r == 2 * (r * count);
  }

  lemma ScaleLess(a: int, b: int, count: nat)
    requires a < b
    ensures a * count + count <= b * count
  {
    assert (b - a - 1) * count >= 0;
  }

  lemma ScaleSum(bound: int, count: nat)
    ensures 100000 * bound * count == 100000 * (bound * count)
  {
  }

  lemma RoundedBetween(sum: int, count: nat, low: int, high: int)
    requires count > 0 && low * count <= sum <= high * count
    ensures 100000 * low <= Rounded5(sum, count) <= 100000 * high
  {
    RoundedIsNearest(sum, count);
    var r := Rounded5(sum, count);
    ScaleSum(low, count);
    ScaleSum(high, count);
    if r < 100000 * low {
      ScaleLess(r, 100000 * low, count);
    }
    if r > 100000 * high {
      ScaleLess(100000 * high, r, count);
    }
  }

  /** The rounded average of a selection lies between its smallest and its largest mark. */
  lemma AverageWithinMarks(visits: map<Id, Visit>, selected: set<Id>, low: int, high: int)
    requires selected <= visits.Keys && selected != {}
    requires forall id :: id in selected ==> low <= visits[id].mark <= high
    ensures var a := AnswerFor(visits, selected);
            a.Mean? && a.count > 0 && 100000 * low <= Rounded5(a.sum, a.count) <= 100000 * high
  {
    SumMarksBetween(visits, selected, low, high);
    RoundedBetween(SumMarks(visits, selected), |selected|, low, high);
  }

  // ---- the quotient in a double, and its text

  predicate Within(x: real, bound: real) { -bound <= x <= bound }

  function Abs(x: int): nat { if x < 0 then -x else x }

  /** `d` may be what a double holds of the quotient of two exact integers: rounding to the nearest
      double errs by at most 2^-53 of the quotient. */
  predicate IsQuotient(d: real, sum: int, count: nat) {
    Within(d * count as real - sum as real, Abs(sum) as real / 9007199254740992.0)
  }

  /** `p` units of 10^-5 may be printed for `d`: five fixed decimals are the nearest, ties either way. */
  predicate PrintsAs(p: int, d: real) {
    Within(p as real - 100000.0 * d, 0.5)
  }

  /** The error of what is printed, scaled by the count: that of printing and that of dividing. */
  lemma ErrorSplits(p: int, d: real, sum: int, count: nat) returns (printing: real, dividing: real)
    requires IsQuotient(d, sum, count) && PrintsAs(p, d)
    ensures (p * count - 100000 * sum) as real == printing + 100000.0 * dividing
    ensures Within(printing, 0.5 * count as real)
    ensures Within(dividing, Abs(sum) as real / 9007199254740992.0)
  {
    var c, x := count as real, p as real - 100000.0 * d;
    printing, dividing := x * c, d * c - sum as real;
    ScaleWithin(x, 0.5, c);
    RealProduct(p, count);
    Spread(p as real, d, x, c, sum as real);
  }

  lemma RealProduct(p: int, count: nat)
    ensures (p * count) as real == p as real * count as real
  {
  }

  lemma Spread(p: real, d: real, x: real, c: real, sum: real)
    requires x == p - 100000.0 * d
    ensures x * c + 100000.0 * (d * c - sum) == p * c - 100000.0 * sum
  {
  }

  lemma ScaleWithin(x: real, bound: real, c: real)
    requires Within(x, bound) && c >= 0.0
    ensures Within(x * c, bound * c)
  {
    assert (bound - x) * c >= 0.0;
    assert (bound + x) * c >= 0.0;
  }

  /** The errors of printing and of dividing, both scaled by the count. */
  lemma ErrorsAdd(printing: real, dividing: real, size: nat, count: nat)
    requires Within(printing, 0.5 * count as real)
    requires Within(dividing, size as real / 9007199254740992.0) && size <= 0x8000 * count
    ensures Within(printing + 100000.0 * dividing, 0.500001 * count as real)
  {
    var c := count as real;
    assert size as real <= 32768.0 * c;
    assert Within(dividing, 32768.0 * c / 9007199254740992.0);
  }

  /** What is printed for an average of marks is within half a unit of the exact quotient, up to the
      error of the division, which is below a millionth of a unit. */
  lemma PrintedIsNear(sum: int, count: nat, d: real, p: int)
    requires count > 0 && -0x8000 * count <= sum <= 0x8000 * count
    requires IsQuotient(d, sum, count) && PrintsAs(p, d)
    ensures Within((p * count - 100000 * sum) as real, 0.500001 * count as real)
  {
    var printing, dividing := ErrorSplits(p, d, sum, count);
    ErrorsAdd(printing, dividing, Abs(sum), count);
  }

  /** The printed number is the exact quotient rounded, unless that lies within a millionth of a
      unit of the middle between two printed numbers. */
  lemma PrintedIsRounded(sum: int, count: nat, d: real, p: int)
    requires count > 0 && -0x8000 * count <= sum <= 0x8000 * count
    requires IsQuotient(d, sum, count) && PrintsAs(p, d)
    ensures var r := Rounded5(sum, count);
            p == r || (Abs(p - r) == 1 && Within((200000 * sum - (p + r) * count) as real, 0.000002 * count as real))
  {
    PrintedIsNear(sum, count, d, p);
    RoundedIsNearest(sum, count);
    var r := Rounded5(sum, count);
    var x, c := p * count - 100000 * sum, count as real;
    assert Within(x as real, 0.500001 * c);
    assert 1000000 * x <= 500001 * count && 1000000 * x >= -500001 * (count as int);
    NearbyIntegers(p, r, 100000 * sum, count);
  }

  /** Two integers near one quotient are equal, or neighbours with the quotient in the middle. */
  lemma NearbyIntegers(p: int, r: int, x: int, count: nat)
    requires count > 0
    requires -500001 * (count as int) <= 1000000 * (p * count - x) <= 500001 * count
    requires -(count as int) <= 2 * (r * count - x) <= count
    ensures p == r || (Abs(p - r) == 1 && Within((2 * x - (p + r) * count) as real, 0.000002 * count as real))
  {
    var k := p - r;
    assert p * count == r * count + k * count;
    assert (p + r) * count == 2 * (r * count) + k * count;
    Multiples(k, count);
    Neighbours(k, r * count, k * count, x, count);
  }

  lemma Neighbours(k: int, rc: int, kc: int, x: int, count: nat)
    requires count > 0
    requires -500001 * (count as int) <= 1000000 * (rc + kc - x) <= 500001 * count
    requires -(count as int) <= 2 * (rc - x) <= count
    requires (k >= 2 ==> kc >= 2 * count) && (k <= -2 ==> kc <= -2 * (count as int))
    requires (k == 1 ==> kc == count) && (k == -1 ==> kc == -(count as int))
    ensures k == 0 || (Abs(k) == 1 && Within((2 * x - (2 * rc + kc)) as real, 0.000002 * count as real))
  {
    if k != 0 {
      assert -2 * (count as int) <= 1000000 * (2 * x - (2 * rc + kc)) <= 2 * count;
    }
  }

  lemma Multiples(k: int, count: nat)
    ensures k >= 2 ==> k * count >= 2 * count
    ensures k <= -2 ==> k * count <= -2 * (count as int)
    ensures k == 1 ==> k * count == count
    ensures k == -1 ==> k * count == -(count as int)
  {
    assert k >= 2 ==> (k - 2) * count >= 0;
    assert k <= -2 ==> (-2 - k) * count >= 0;
  }

  /** What is printed for a selection lies between its smallest and its largest mark. */
  lemma PrintedWithinMarks(visits: map<Id, Visit>, selected: set<Id>, low: int, high: int, d: real, p: int)
    requires selected <= visits.Keys && selected != {}
    requires forall id :: id in selected ==> low <= visits[id].mark <= high
    requires IsQuotient(d, SumMarks(visits, selected), |selected|) && PrintsAs(p, d)
    ensures 100000 * low <= p <= 100000 * high
  {
    var sum, count: nat := SumMarks(visits, selected), |selected|;
    SumMarksBetween(visits, selected, low, high);
    SumMarksBetween(visits, selected, -0x8000, 0x7FFF);
    PrintedIsNear(sum, count, d, p);
    ScaleSum(low, count);
    ScaleSum(high, count);
    if p < 100000 * low {
      ScaleLess(p, 100000 * low, count);
    }
    if p > 100000 * high {
      ScaleLess(100000 * high, p, count);
    }
  }
}
