/** A multimap from timestamps to visit ids: entries in the order of their keys, entries
    of one key in the order they were put in. */
module Multimap {
  import opened Entities

  datatype Entry = Entry(at: Timestamp, id: Id)

  ghost predicate Sorted(s: seq<Entry>) {
    forall i, j :: 0 <= i < j < |s| ==> s[i].at <= s[j].at
  }

  /** Sorted by timestamp and, within one timestamp, by id. */
  ghost predicate LexSorted(s: seq<Entry>) {
    forall i, j :: 0 <= i < j < |s| ==> InOrder(s[i], s[j])
  }

  predicate InOrder(first: Entry, second: Entry) {
    first.at < second.at || (first.at == second.at && first.id <= second.id)
  }

  /** The first position whose key is not below `at`. */
  function LowerBound(s: seq<Entry>, at: Timestamp): (n: nat)
    ensures n <= |s|
    ensures forall i :: 0 <= i < n ==> s[i].at < at
    ensures n < |s| ==> s[n].at >= at
  {
    if s == [] || s[0].at >= at then 0 else 1 + LowerBound(s[1..], at)
  }

  /** The first position whose key is above `at`. */
  function UpperBound(s: seq<Entry>, at: Timestamp): (n: nat)
    ensures n <= |s|
    ensures forall i :: 0 <= i < n ==> s[i].at <= at
    ensures n < |s| ==> s[n].at > at
  {
    if s == [] || s[0].at > at then 0 else 1 + UpperBound(s[1..], at)
  }

  lemma BoundsInOrder(s: seq<Entry>, at: Timestamp)
    requires Sorted(s)
    ensures LowerBound(s, at) <= UpperBound(s, at)
    ensures forall i :: LowerBound(s, at) <= i < UpperBound(s, at) ==> s[i].at == at
    ensures forall i :: UpperBound(s, at) <= i < |s| ==> s[i].at > at
  {
  }

  /** A new entry goes to the end of the range of its key. */
  function Inserted(s: seq<Entry>, e: Entry): seq<Entry> {
    var n := UpperBound(s, e.at);
    s[..n] + [e] + s[n..]
  }

  /** The entries that pass `keep`, in their order. */
  function Filter(s: seq<Entry>, keep: Entry -> bool): (r: seq<Entry>)
    ensures |r| <= |s|
  {
    if s == [] then [] else (if keep(s[0]) then [s[0]] else []) + Filter(s[1..], keep)
  }

  lemma InsertCounts(s: seq<Entry>, e: Entry)
    ensures multiset(Inserted(s, e)) == multiset(s) + multiset{e}
  {
    assert s == s[..UpperBound(s, e.at)] + s[UpperBound(s, e.at)..];
  }

  lemma InsertSorted(s: seq<Entry>, e: Entry)
    requires Sorted(s)
    ensures Sorted(Inserted(s, e))
  {
    var n := UpperBound(s, e.at);
    forall j | n <= j < |s| ensures e.at <= s[j].at {
      assert s[n].at <= s[j].at;
    }
  }

  /** Putting entries in by ascending id keeps them sorted by timestamp and id. */
  lemma InsertLexSorted(s: seq<Entry>, e: Entry)
    requires LexSorted(s) && forall i :: 0 <= i < |s| ==> s[i].id <= e.id
    ensures LexSorted(Inserted(s, e))
  {
    var n := UpperBound(s, e.at);
    forall j | n <= j < |s| ensures e.at < s[j].at {
      assert s[n].at <= s[j].at;
    }
  }

  lemma FilterCons(x: Entry, s: seq<Entry>, keep: Entry -> bool)
    ensures Filter([x] + s, keep) == (if keep(x) then [x] else []) + Filter(s, keep)
  {
    assert ([x] + s)[1..] == s;
  }

  lemma Regroup(a: seq<Entry>, b: seq<Entry>, c: seq<Entry>)
    ensures a + (b + c) == (a + b) + c
  {
  }

  lemma {:induction false} FilterSplits(a: seq<Entry>, b: seq<Entry>, keep: Entry -> bool)
    ensures Filter(a + b, keep) == Filter(a, keep) + Filter(b, keep)
  {
    if a == [] {
      assert a + b == b;
    } else {
      assert a + b == [a[0]] + (a[1..] + b);
      FilterCons(a[0], a[1..] + b, keep);
      FilterSplits(a[1..], b, keep);
      Regroup(if keep(a[0]) then [a[0]] else [], Filter(a[1..], keep), Filter(b, keep));
    }
  }

  lemma {:induction false} FilterCounts(s: seq<Entry>, keep: Entry -> bool)
    ensures forall e :: multiset(Filter(s, keep))[e] == if keep(e) then multiset(s)[e] else 0
  {
    if s != [] {
      FilterCounts(s[1..], keep);
      assert s == [s[0]] + s[1..];
    }
  }

  lemma {:induction false} FilterIn(s: seq<Entry>, keep: Entry -> bool)
    ensures forall e :: e in Filter(s, keep) <==> e in s && keep(e)
  {
    FilterCounts(s, keep);
    forall e ensures e in Filter(s, keep) <==> e in s && keep(e) {
      assert e in s <==> e in multiset(s);
      assert e in Filter(s, keep) <==> e in multiset(Filter(s, keep));
    }
  }

  lemma {:induction false} FilterSorted(s: seq<Entry>, keep: Entry -> bool)
    requires Sorted(s)
    ensures Sorted(Filter(s, keep))
  {
    if s != [] {
      FilterSorted(s[1..], keep);
      FilterIn(s[1..], keep);
      var rest := Filter(s[1..], keep);
      forall e | e in rest ensures s[0].at <= e.at {
        assert e in s[1..];
      }
    }
  }

  /** Filtering by two tests is filtering by the one after the other. */
  lemma {:induction false} FilterTwice(s: seq<Entry>, first: Entry -> bool, second: Entry -> bool, both: Entry -> bool)
    requires forall e :: both(e) <==> first(e) && second(e)
    ensures Filter(Filter(s, first), second) == Filter(s, both)
  {
    if s != [] {
      FilterTwice(s[1..], first, second, both);
      if first(s[0]) {
        var passed := Filter(s, first);
        assert passed[0] == s[0] && passed[1..] == Filter(s[1..], first);
      } else {
        assert Filter(s, first) == Filter(s[1..], first);
      }
    }
  }

  lemma {:induction false} FilterAll(s: seq<Entry>, keep: Entry -> bool)
    requires forall e :: e in s ==> keep(e)
    ensures Filter(s, keep) == s
  {
    if s != [] {
      FilterAll(s[1..], keep);
    }
  }

  lemma {:induction false} FilterNone(s: seq<Entry>, keep: Entry -> bool)
    requires forall e :: e in s ==> !keep(e)
    ensures Filter(s, keep) == []
  {
    if s != [] {
      FilterNone(s[1..], keep);
    }
  }

  lemma {:induction false} FilterSame(s: seq<Entry>, keep: Entry -> bool, keep': Entry -> bool)
    requires forall e :: e in s ==> (keep(e) <==> keep'(e))
    ensures Filter(s, keep) == Filter(s, keep')
  {
    if s != [] {
      FilterSame(s[1..], keep, keep');
    }
  }

  lemma FilterCutsFront(a: seq<Entry>, b: seq<Entry>, keep: Entry -> bool)
    requires (forall e :: e in a ==> !keep(e)) && (forall e :: e in b ==> keep(e))
    ensures Filter(a + b, keep) == b && Filter(b + a, keep) == b
  {
    FilterNone(a, keep);
    FilterAll(b, keep);
    FilterSplits(a, b, keep);
    FilterSplits(b, a, keep);
  }

  lemma LaterPart(s: seq<Entry>, bound: Timestamp)
    requires Sorted(s)
    ensures s[UpperBound(s, bound)..] == Filter(s, (e: Entry) => bound < e.at)
  {
    var n := UpperBound(s, bound);
    forall e | e in s[n..] ensures bound < e.at {
      var i :| n <= i < |s| && s[i] == e;
    }
    FilterCutsFront(s[..n], s[n..], (e: Entry) => bound < e.at);
    assert s == s[..n] + s[n..];
  }

  lemma EarlierPart(s: seq<Entry>, bound: Timestamp)
    requires Sorted(s)
    ensures s[..LowerBound(s, bound)] == Filter(s, (e: Entry) => e.at < bound)
  {
    var n := LowerBound(s, bound);
    forall e | e in s[n..] ensures bound <= e.at {
      var i :| n <= i < |s| && s[i] == e;
    }
    FilterCutsFront(s[n..], s[..n], (e: Entry) => e.at < bound);
    assert s == s[..n] + s[n..];
  }

  /** A sequence sorted by timestamp and id is determined by its entries. */
  lemma {:induction false} LexSortedIsUnique(a: seq<Entry>, b: seq<Entry>)
    requires LexSorted(a) && LexSorted(b) && multiset(a) == multiset(b)
    ensures a == b
  {
    if a == [] || b == [] {
      assert |multiset(a)| == |a| && |multiset(b)| == |b|;
    } else {
      HeadsAgree(a, b);
      assert a == [a[0]] + a[1..] && b == [b[0]] + b[1..];
      assert multiset(a[1..]) == multiset(a) - multiset{a[0]};
      assert multiset(b[1..]) == multiset(b) - multiset{b[0]};
      LexSortedIsUnique(a[1..], b[1..]);
    }
  }

  lemma HeadsAgree(a: seq<Entry>, b: seq<Entry>)
    requires a != [] && b != [] && LexSorted(a) && LexSorted(b) && multiset(a) == multiset(b)
    ensures a[0] == b[0]
  {
    assert a[0] in multiset(a) && b[0] in multiset(b);
    assert a[0] in b && b[0] in a;
  }

  /** Every two entries that pass are in the order of timestamp and id. */
  ghost predicate PassInOrder(s: seq<Entry>, keep: Entry -> bool) {
    forall i, j :: 0 <= i < j < |s| && keep(s[i]) && keep(s[j]) ==> InOrder(s[i], s[j])
  }

  /** What a filter leaves is sorted by timestamp and id exactly if the entries that pass are. */
  lemma {:induction false} FilterLexSortedIff(s: seq<Entry>, keep: Entry -> bool)
    ensures LexSorted(Filter(s, keep)) <==> PassInOrder(s, keep)
  {
    if s != [] {
      FilterLexSortedIff(s[1..], keep);
      PassInOrderCons(s[0], s[1..], keep);
      assert s == [s[0]] + s[1..];
      FilterIn(s[1..], keep);
      if keep(s[0]) {
        assert Filter(s, keep) == [s[0]] + Filter(s[1..], keep);
        LexSortedCons(s[0], Filter(s[1..], keep));
      } else {
        assert Filter(s, keep) == Filter(s[1..], keep);
      }
    }
  }

  lemma PassInOrderCons(x: Entry, s: seq<Entry>, keep: Entry -> bool)
    ensures PassInOrder([x] + s, keep)
      <==> PassInOrder(s, keep) && (keep(x) ==> forall e :: e in s && keep(e) ==> InOrder(x, e))
  {
    var whole := [x] + s;
    assert forall i :: 0 <= i < |s| ==> whole[i + 1] == s[i];
    if PassInOrder(whole, keep) {
      forall e | keep(x) && e in s && keep(e) ensures InOrder(x, e) {
        var i :| 0 <= i < |s| && s[i] == e;
        assert keep(whole[0]) && keep(whole[i + 1]) && InOrder(whole[0], whole[i + 1]);
      }
      forall i, j | 0 <= i < j < |s| && keep(s[i]) && keep(s[j]) ensures InOrder(s[i], s[j]) {
        assert whole[i + 1] == s[i] && whole[j + 1] == s[j];
      }
    }
  }

  lemma LexSortedCons(x: Entry, s: seq<Entry>)
    ensures LexSorted([x] + s) <==> LexSorted(s) && forall e :: e in s ==> InOrder(x, e)
  {
    var whole := [x] + s;
    assert forall i :: 0 <= i < |s| ==> whole[i + 1] == s[i];
    if LexSorted(whole) {
      forall e | e in s ensures InOrder(x, e) {
        var i :| 0 <= i < |s| && s[i] == e;
        assert InOrder(whole[0], whole[i + 1]);
      }
      forall i, j | 0 <= i < j < |s| ensures InOrder(s[i], s[j]) {
        assert whole[i + 1] == s[i] && whole[j + 1] == s[j];
      }
    }
  }

  // ---- erasing while walking

  /** All entries but the one of visit `id` at time `at`. */
  function Other(at: Timestamp, id: Id): Entry -> bool { (x: Entry) => x != Entry(at, id) }

  /** An erase loop has looked at the first `k` entries of `all`: `entries` is what is left
      and the cursor stands behind the entries that stayed. */
  ghost predicate Walked(all: seq<Entry>, k: nat, keep: Entry -> bool, entries: seq<Entry>, cursor: nat) {
    && k <= |all|
    && entries == Filter(all[..k], keep) + all[k..]
    && cursor == |Filter(all[..k], keep)|
  }

  /** One round: the entry under the cursor stays and is stepped over, or it is erased. */
  lemma WalkOn(all: seq<Entry>, k: nat, keep: Entry -> bool, entries: seq<Entry>, cursor: nat)
    requires Walked(all, k, keep, entries, cursor) && k < |all|
    ensures cursor < |entries| && entries[cursor] == all[k]
    ensures keep(all[k]) ==> Walked(all, k + 1, keep, entries, cursor + 1)
    ensures !keep(all[k]) ==> Walked(all, k + 1, keep, entries[..cursor] + entries[cursor + 1..], cursor)
  {
    assert all[..k + 1] == all[..k] + [all[k]];
    FilterSplits(all[..k], [all[k]], keep);
    var done, tail := Filter(all[..k], keep), all[k + 1..];
    assert Filter([all[k]], keep) == if keep(all[k]) then [all[k]] else [];
    assert all[k..] == [all[k]] + tail;
    assert done + [all[k]] + tail == done + ([all[k]] + tail);
  }

  lemma WalkedAll(all: seq<Entry>, k: nat, keep: Entry -> bool, entries: seq<Entry>, cursor: nat)
    requires Walked(all, k, keep, entries, cursor)
    ensures cursor >= |entries| <==> k == |all|
    ensures k == |all| ==> entries == Filter(all, keep)
  {
    if k == |all| {
      assert all[..k] == all;
    }
  }

  // A walk over the range of one key only has to look at that range.

  lemma FilterLeavesStart(a: seq<Entry>, b: seq<Entry>, keep: Entry -> bool)
    requires forall i :: 0 <= i < |a| ==> keep(a[i])
    ensures Walked(a + b, |a|, keep, a + b, |a|)
  {
    FilterAll(a, keep);
    assert (a + b)[..|a|] == a && (a + b)[|a|..] == b;
  }

  lemma RangeStart(s: seq<Entry>, at: Timestamp, id: Id)
    ensures Walked(s, LowerBound(s, at), Other(at, id), s, LowerBound(s, at))
  {
    var n := LowerBound(s, at);
    assert forall i :: 0 <= i < n ==> s[i].at < at;
    FilterLeavesStart(s[..n], s[n..], Other(at, id));
    assert s == s[..n] + s[n..];
  }

  lemma FilterLeavesEnd(a: seq<Entry>, b: seq<Entry>, keep: Entry -> bool)
    requires forall i :: 0 <= i < |b| ==> keep(b[i])
    ensures Filter(a, keep) + b == Filter(a + b, keep)
  {
    FilterSplits(a, b, keep);
    FilterAll(b, keep);
  }

  lemma RangeEnd(s: seq<Entry>, at: Timestamp, id: Id)
    requires Sorted(s)
    ensures Filter(s[..UpperBound(s, at)], Other(at, id)) + s[UpperBound(s, at)..] == Filter(s, Other(at, id))
  {
    var a, b := s[..UpperBound(s, at)], s[UpperBound(s, at)..];
    assert forall i :: 0 <= i < |b| ==> b[i].at > at by { BoundsInOrder(s, at); }
    FilterLeavesEnd(a, b, Other(at, id));
    assert s == a + b;
  }

  lemma RangeWalked(s: seq<Entry>, at: Timestamp, id: Id, left: seq<Entry>, cursor: nat)
    requires Sorted(s) && Walked(s, UpperBound(s, at), Other(at, id), left, cursor)
    ensures left == Filter(s, Other(at, id)) && Sorted(left)
  {
    RangeEnd(s, at, id);
    FilterSorted(s, Other(at, id));
  }

  /** What an erase loop does with the entry under its cursor. A loop that finds an entry it
      can neither keep nor erase goes round without moving. */
  datatype Verdict = Keep | Erase | Stuck

  datatype Walk = Walk(entries: seq<Entry>, cursor: nat)

  function Advance(judge: Entry -> Verdict, w: Walk): Walk {
    if w.cursor >= |w.entries| then w
    else match judge(w.entries[w.cursor])
      case Keep => w.(cursor := w.cursor + 1)
      case Erase => w.(entries := w.entries[..w.cursor] + w.entries[w.cursor + 1..])
      case Stuck => w
  }

  function Rounds(judge: Entry -> Verdict, w: Walk, n: nat): Walk
    decreases n
  {
    if n == 0 then w else Rounds(judge, Advance(judge, w), n - 1)
  }

  ghost predicate Ends(judge: Entry -> Verdict, w: Walk) {
    exists n: nat :: Rounds(judge, w, n).cursor >= |Rounds(judge, w, n).entries|
  }

  lemma {:induction false} StuckForever(judge: Entry -> Verdict, w: Walk, n: nat)
    requires w.cursor < |w.entries| && judge(w.entries[w.cursor]) == Stuck
    ensures Rounds(judge, w, n) == w
    decreases n
  {
    if n > 0 {
      StuckForever(judge, w, n - 1);
    }
  }

  /** From a cursor in the middle, the loop ends exactly when no entry ahead gets it stuck. */
  lemma {:induction false} WalkEndsIff(judge: Entry -> Verdict, w: Walk)
    requires w.cursor <= |w.entries|
    ensures Ends(judge, w) <==> forall e :: e in w.entries[w.cursor..] ==> judge(e) != Stuck
    decreases |w.entries| - w.cursor
  {
    if w.cursor == |w.entries| {
      assert Rounds(judge, w, 0) == w;
    } else {
      var e := w.entries[w.cursor];
      assert w.entries[w.cursor..] == [e] + w.entries[w.cursor + 1..];
      if judge(e) == Stuck {
        forall n: nat ensures Rounds(judge, w, n) == w { StuckForever(judge, w, n); }
      } else {
        var next := Advance(judge, w);
        assert next.entries[next.cursor..] == w.entries[w.cursor + 1..];
        WalkEndsIff(judge, next);
        OneRoundMore(judge, w);
      }
    }
  }

  /** What a walk that ends leaves behind its start: the entries it keeps, in their order. */
  lemma {:induction false} WalkLeaves(judge: Entry -> Verdict, keep: Entry -> bool, w: Walk, n: nat)
    requires w.cursor <= |w.entries|
    requires forall e :: keep(e) <==> judge(e) == Keep
    requires Rounds(judge, w, n).cursor >= |Rounds(judge, w, n).entries|
    ensures Rounds(judge, w, n).entries == w.entries[..w.cursor] + Filter(w.entries[w.cursor..], keep)
    decreases n
  {
    if n > 0 {
      WalkLeaves(judge, keep, Advance(judge, w), n - 1);
      AdvanceLeaves(judge, keep, w);
    }
  }

  /** One round does not change what the walk would leave. */
  lemma AdvanceLeaves(judge: Entry -> Verdict, keep: Entry -> bool, w: Walk)
    requires w.cursor <= |w.entries|
    requires forall e :: keep(e) <==> judge(e) == Keep
    ensures var next := Advance(judge, w);
            next.cursor <= |next.entries| &&
            next.entries[..next.cursor] + Filter(next.entries[next.cursor..], keep)
              == w.entries[..w.cursor] + Filter(w.entries[w.cursor..], keep)
  {
    if w.cursor < |w.entries| {
      var next, e, tail := Advance(judge, w), w.entries[w.cursor], w.entries[w.cursor + 1..];
      assert w.entries[w.cursor..] == [e] + tail;
      FilterCons(e, tail, keep);
      assert judge(e) != Stuck ==> next.entries[next.cursor..] == tail;
    }
  }

  lemma OneRoundMore(judge: Entry -> Verdict, w: Walk)
    requires w.cursor < |w.entries|
    ensures Ends(judge, w) <==> Ends(judge, Advance(judge, w))
  {
    var next := Advance(judge, w);
    if Ends(judge, w) {
      var n: nat :| Rounds(judge, w, n).cursor >= |Rounds(judge, w, n).entries|;
      assert n > 0 && Rounds(judge, next, n - 1) == Rounds(judge, w, n);
    }
    if Ends(judge, next) {
      var n: nat :| Rounds(judge, next, n).cursor >= |Rounds(judge, next, n).entries|;
      assert Rounds(judge, w, n + 1) == Rounds(judge, next, n);
    }
  }

  // ---- the container the erase loops work on

  class TimestampToId {
    var entries: seq<Entry>

    constructor (contents: seq<Entry>)
      ensures entries == contents
    {
      entries := contents;
    }

    method EraseAt(i: nat)
      requires i < |entries|
      modifies this
      ensures entries == old(entries[..i]) + old(entries[i + 1..])
    {
      entries := entries[..i] + entries[i + 1..];
    }

    /** Erases the keys up to and including `bound`: what is left are the later entries. */
    method EraseLessOrEqualElements(bound: Timestamp)
      requires Sorted(entries)
      modifies this
      ensures entries == Filter(old(entries), (e: Entry) => bound < e.at)
      ensures Sorted(entries)
    {
      LaterPart(entries, bound);
      entries := entries[UpperBound(entries, bound)..];
    }

    /** Erases the keys from `bound` on: what is left are the earlier entries. */
    method EraseGreaterOrEqualElements(bound: Timestamp)
      requires Sorted(entries)
      modifies this
      ensures entries == Filter(old(entries), (e: Entry) => e.at < bound)
      ensures Sorted(entries)
    {
      EarlierPart(entries, bound);
      entries := entries[..LowerBound(entries, bound)];
    }

    /** Looks through the range of `at` and erases the entries of visit `id`. */
    method EraseInRange(at: Timestamp, id: Id)
      requires Sorted(entries)
      modifies this
      ensures entries == Filter(old(entries), Other(at, id))
      ensures Sorted(entries)
    {
      ghost var all, keep := entries, Other(at, id);
      RangeStart(all, at, id);
      BoundsInOrder(all, at);
      var current: nat, end: int := LowerBound(entries, at), UpperBound(entries, at);
      ghost var k: nat, last: nat := current, end;
      while current != end
        invariant Walked(all, k, keep, entries, current)
        invariant end - current == last - k >= 0
        decreases last - k
      {
        WalkOn(all, k, keep, entries, current);
        assert keep(all[k]) <==> all[k].id != id;
        if entries[current].id == id {
          EraseAt(current);
          end := end - 1;
        } else {
          current := current + 1;
        }
        k := k + 1;
      }
      RangeWalked(all, at, id, entries, current);
    }
  }
}
