/**
  Outage intervals and the merge that SLA and statistics both perform.

  Time is an integer number of milliseconds and an interval is half open: it covers
  start, start + 1, ..., end - 1. The merge sorts by start and then folds neighbours that
  overlap or touch into one interval, overwriting the end of the last merged interval.

  The specification is independent of that loop: the merged list is the one canonical list
  (sorted, with a gap between neighbours) that covers the same milliseconds.
*/
module Intervals {
  datatype Interval = Interval(start: int, end: int) {
    predicate NonEmpty() { start < end }

    predicate Contains(t: int) { start <= t < end }

    function Length(): int { end - start }
  }

  predicate AllNonEmpty(s: seq<Interval>) {
    forall i :: 0 <= i < |s| ==> s[i].NonEmpty()
  }

  predicate SortedByStart(s: seq<Interval>) {
    forall i, j :: 0 <= i < j < |s| ==> s[i].start <= s[j].start
  }

  /** Sorted, and every two intervals are separated by at least one uncovered millisecond. */
  predicate Canonical(s: seq<Interval>) {
    && AllNonEmpty(s)
    && forall i, j :: 0 <= i < j < |s| ==> s[i].end < s[j].start
  }

  function Span(iv: Interval): set<int> {
    set t | iv.start <= t < iv.end && iv.Contains(t)
  }

  /** The milliseconds covered by at least one interval of the list; see CoveredMeaning. */
  function Covered(s: seq<Interval>): set<int> {
    if s == [] then {} else Covered(s[..|s| - 1]) + Span(s[|s| - 1])
  }

  ghost predicate CoveredAt(s: seq<Interval>, t: int) {
    exists i :: 0 <= i < |s| && s[i].Contains(t)
  }

  lemma {:induction false} CoveredMeaning(s: seq<Interval>, t: int)
    ensures t in Covered(s) <==> CoveredAt(s, t)
  {
    if s != [] {
      var front := s[..|s| - 1];
      CoveredMeaning(front, t);
      if CoveredAt(front, t) {
        var i :| 0 <= i < |front| && front[i].Contains(t);
        assert s[i].Contains(t);
      }
      if CoveredAt(s, t) {
        var i :| 0 <= i < |s| && s[i].Contains(t);
        assert i < |front| ==> front[i].Contains(t);
      }
    }
  }

  function TotalLength(s: seq<Interval>): int {
    if s == [] then 0 else TotalLength(s[..|s| - 1]) + s[|s| - 1].Length()
  }

  // ---------------------------------------------------------------- the merge, on values

  /** One turn of the merge loop. */
  function Absorb(merged: seq<Interval>, iv: Interval): seq<Interval> {
    if merged == [] || iv.start > merged[|merged| - 1].end then merged + [iv]
    else if iv.end > merged[|merged| - 1].end then
      merged[..|merged| - 1] + [Interval(merged[|merged| - 1].start, iv.end)]
    else merged
  }

  function MergeOrdered(ordered: seq<Interval>): seq<Interval> {
    if ordered == [] then []
    else Absorb(MergeOrdered(ordered[..|ordered| - 1]), ordered[|ordered| - 1])
  }

  function Inserted<T>(s: seq<T>, k: nat, x: T): (r: seq<T>)
    requires k <= |s|
    ensures |r| == |s| + 1
    ensures forall i :: 0 <= i < |r| ==> r[i] == if i < k then s[i] else if i == k then x else s[i - 1]
    ensures multiset(r) == multiset(s) + multiset{x}
  {
    assert s == s[..k] + s[k..];
    s[..k] + [x] + s[k..]
  }

  /** Where an interval that starts at `start` goes: after every interval that starts no later. */
  function Position(s: seq<Interval>, start: int): (k: nat)
    ensures k <= |s|
    ensures k > 0 ==> s[k - 1].start <= start
    ensures forall i :: k <= i < |s| ==> s[i].start > start
  {
    if s == [] then 0
    else if s[|s| - 1].start <= start then |s|
    else Position(s[..|s| - 1], start)
  }

  lemma InsertedIsSorted(s: seq<Interval>, k: nat, iv: Interval)
    requires SortedByStart(s) && k <= |s|
    requires k > 0 ==> s[k - 1].start <= iv.start
    requires forall i :: k <= i < |s| ==> s[i].start > iv.start
    ensures SortedByStart(Inserted(s, k, iv))
  {
    forall i | 0 <= i < k ensures s[i].start <= iv.start {
      if i < k - 1 { assert s[i].start <= s[k - 1].start; }
    }
    var r := Inserted(s, k, iv);
    hide Inserted;
    forall i, j | 0 <= i < j < |r| ensures r[i].start <= r[j].start {
      var x := if i < k then s[i] else if i == k then iv else s[i - 1];
      var y := if j < k then s[j] else if j == k then iv else s[j - 1];
      assert r[i] == x && r[j] == y;
    }
  }

  /** The library sort by start time. */
  function Ordered(s: seq<Interval>): (r: seq<Interval>)
    ensures SortedByStart(r) && multiset(r) == multiset(s)
  {
    if s == [] then []
    else
      var front, last := Ordered(s[..|s| - 1]), s[|s| - 1];
      assert s == s[..|s| - 1] + [last];
      var k := Position(front, last.start);
      InsertedIsSorted(front, k, last);
      Inserted(front, k, last)
  }

  function Merged(s: seq<Interval>): seq<Interval> {
    MergeOrdered(Ordered(s))
  }

  // ---------------------------------------------------------------- what the merge means

  lemma SameElementsSameCoverage(a: seq<Interval>, b: seq<Interval>)
    requires multiset(a) == multiset(b)
    ensures Covered(a) == Covered(b)
    ensures AllNonEmpty(a) <==> AllNonEmpty(b)
  {
    assert forall x :: x in a <==> x in multiset(a);
    assert forall x :: x in b <==> x in multiset(b);
    SubsetCoverage(a, b);
    SubsetCoverage(b, a);
  }

  lemma SubsetCoverage(a: seq<Interval>, b: seq<Interval>)
    requires forall x :: x in a ==> x in b
    ensures Covered(a) <= Covered(b)
    ensures AllNonEmpty(b) ==> AllNonEmpty(a)
  {
    forall t | t in Covered(a) ensures t in Covered(b) {
      CoveredMeaning(a, t);
      CoveredMeaning(b, t);
      var i :| 0 <= i < |a| && a[i].Contains(t);
      assert a[i] in b;
    }
    forall i | AllNonEmpty(b) && 0 <= i < |a| ensures a[i].NonEmpty() {
      assert a[i] in b;
    }
  }

  lemma CoveredAppend(s: seq<Interval>, iv: Interval)
    ensures Covered(s + [iv]) == Covered(s) + Span(iv)
  {
    assert (s + [iv])[..|s|] == s;
  }

  lemma {:induction false} CoveredConcat(a: seq<Interval>, b: seq<Interval>)
    ensures Covered(a + b) == Covered(a) + Covered(b)
  {
    if b == [] {
      assert a + b == a;
    } else {
      var front, last := b[..|b| - 1], b[|b| - 1];
      CoveredConcat(a, front);
      assert a + b == (a + front) + [last];
      CoveredAppend(a + front, last);
    }
  }

  lemma CanonicalAppend(s: seq<Interval>, iv: Interval)
    requires Canonical(s) && iv.NonEmpty()
    requires s != [] ==> s[|s| - 1].end < iv.start
    ensures Canonical(s + [iv])
  {
    var r := s + [iv];
    forall i, j | 0 <= i < j < |r| ensures r[i].end < r[j].start {
      if j == |s| && i < |s| - 1 { assert s[i].end < s[|s| - 1].start; }
    }
  }

  lemma ExtendKeepsCanonical(front: seq<Interval>, last: Interval, iv: Interval)
    requires Canonical(front + [last]) && last.start <= iv.start <= last.end < iv.end
    ensures Canonical(front + [Interval(last.start, iv.end)])
    ensures Covered(front + [Interval(last.start, iv.end)]) == Covered(front + [last]) + Span(iv)
  {
    var longer := Interval(last.start, iv.end);
    assert (front + [last])[|front|] == last;
    assert forall i :: 0 <= i < |front| ==> (front + [last])[i] == front[i];
    CanonicalAppend(front, longer);
    hide Canonical;
    CoveredAppend(front, longer);
    CoveredAppend(front, last);
    assert Span(longer) == Span(last) + Span(iv);
  }

  /** One turn of the loop keeps the list canonical and adds exactly the new interval's milliseconds. */
  lemma AbsorbKeepsCanonical(merged: seq<Interval>, iv: Interval)
    requires Canonical(merged) && iv.NonEmpty()
    requires merged != [] ==> merged[|merged| - 1].start <= iv.start
    ensures Canonical(Absorb(merged, iv))
    ensures Covered(Absorb(merged, iv)) == Covered(merged) + Span(iv)
    ensures Absorb(merged, iv) != []
    ensures Absorb(merged, iv)[|Absorb(merged, iv)| - 1].start <= iv.start
  {
    if merged == [] || iv.start > merged[|merged| - 1].end {
      CanonicalAppend(merged, iv);
      hide Canonical;
      CoveredAppend(merged, iv);
    } else {
      hide Canonical;
      var front, last := merged[..|merged| - 1], merged[|merged| - 1];
      assert merged == front + [last];
      CoveredAppend(front, last);
      if iv.end > last.end {
        ExtendKeepsCanonical(front, last, iv);
      } else {
        assert Span(iv) <= Span(last);
      }
    }
  }

  lemma {:induction false} MergeOrderedIsCanonical(ordered: seq<Interval>)
    requires AllNonEmpty(ordered) && SortedByStart(ordered)
    ensures var m := MergeOrdered(ordered);
      && Canonical(m)
      && Covered(m) == Covered(ordered)
      && (ordered != [] ==> m != [] && m[|m| - 1].start <= ordered[|ordered| - 1].start)
  {
    if ordered != [] {
      var front := ordered[..|ordered| - 1];
      MergeOrderedIsCanonical(front);
      AbsorbKeepsCanonical(MergeOrdered(front), ordered[|ordered| - 1]);
    }
  }

  /** The merge of any list of non-empty intervals is canonical and covers the same milliseconds. */
  lemma MergedIsCanonical(s: seq<Interval>)
    requires AllNonEmpty(s)
    ensures Canonical(Merged(s)) && Covered(Merged(s)) == Covered(s)
  {
    SameElementsSameCoverage(Ordered(s), s);
    MergeOrderedIsCanonical(Ordered(s));
  }

  /** Outside its first interval a canonical list covers nothing up to and including that interval's end. */
  lemma FirstIntervalBounds(a: seq<Interval>, t: int)
    requires Canonical(a) && a != []
    requires t <= a[0].end
    ensures t in Covered(a) <==> a[0].Contains(t)
  {
    CoveredMeaning(a, t);
    assert a[0].Contains(t) ==> CoveredAt(a, t);
  }

  lemma FirstIntervalAgrees(a: seq<Interval>, b: seq<Interval>)
    requires Canonical(a) && Canonical(b) && a != [] && b != []
    requires Covered(a) == Covered(b)
    ensures a[0] == b[0]
  {
    var start := if a[0].start <= b[0].start then a[0].start else b[0].start;
    FirstIntervalBounds(a, start);
    FirstIntervalBounds(b, start);
    var end := if a[0].end <= b[0].end then a[0].end else b[0].end;
    FirstIntervalBounds(a, end);
    FirstIntervalBounds(b, end);
  }

  lemma TailCoverage(a: seq<Interval>)
    requires Canonical(a) && a != []
    ensures Canonical(a[1..]) && Covered(a[1..]) == Covered(a) - Span(a[0])
  {
    assert a == [a[0]] + a[1..];
    CoveredConcat([a[0]], a[1..]);
    assert Covered([a[0]]) == Span(a[0]);
    forall t | t in Covered(a[1..]) ensures t !in Span(a[0]) {
      CoveredMeaning(a[1..], t);
    }
  }

  lemma CoversNothing(a: seq<Interval>)
    requires Canonical(a)
    ensures Covered(a) == {} <==> a == []
  {
    if a != [] { FirstIntervalBounds(a, a[0].start); }
  }

  /** A set of milliseconds has only one canonical list. */
  lemma {:induction false} CanonicalFormIsUnique(a: seq<Interval>, b: seq<Interval>)
    requires Canonical(a) && Canonical(b)
    requires Covered(a) == Covered(b)
    ensures a == b
  {
    hide Canonical, Covered;
    CoversNothing(a);
    CoversNothing(b);
    if a != [] {
      FirstIntervalAgrees(a, b);
      TailCoverage(a);
      TailCoverage(b);
      CanonicalFormIsUnique(a[1..], b[1..]);
      assert a == [a[0]] + a[1..] && b == [b[0]] + b[1..];
    }
  }

  /** Two outage lists merge to the same list exactly when they cover the same milliseconds. */
  lemma MergeDependsOnCoverageOnly(a: seq<Interval>, b: seq<Interval>)
    requires AllNonEmpty(a) && AllNonEmpty(b)
    ensures Merged(a) == Merged(b) <==> Covered(a) == Covered(b)
  {
    MergedIsCanonical(a);
    MergedIsCanonical(b);
    if Covered(a) == Covered(b) {
      CanonicalFormIsUnique(Merged(a), Merged(b));
    }
  }

  /** A canonical list is a fixed point, so merging twice is merging once. */
  lemma MergeIsIdempotent(s: seq<Interval>)
    requires AllNonEmpty(s)
    ensures Merged(Merged(s)) == Merged(s)
    ensures Canonical(s) ==> Merged(s) == s
  {
    MergedIsCanonical(s);
    MergeDependsOnCoverageOnly(Merged(s), s);
    if Canonical(s) { CanonicalFormIsUnique(Merged(s), s); }
  }

  /** Whatever order the sort leaves equal starts in, the loop arrives at the same list. */
  lemma AnyOrderMergesAlike(ordered: seq<Interval>, given: seq<Interval>)
    requires AllNonEmpty(ordered) && SortedByStart(ordered) && AllNonEmpty(given)
    requires Covered(ordered) == Covered(given)
    ensures MergeOrdered(ordered) == Merged(given)
    ensures Canonical(Merged(given)) && Covered(Merged(given)) == Covered(given)
  {
    MergeOrderedIsCanonical(ordered);
    MergedIsCanonical(given);
    CanonicalFormIsUnique(MergeOrdered(ordered), Merged(given));
  }

  // ---------------------------------------------------------------- measure

  lemma SpanGrows(start: int, end: int)
    requires start < end
    ensures Span(Interval(start, end)) == Span(Interval(start, end - 1)) + {end - 1}
    ensures end - 1 !in Span(Interval(start, end - 1))
  {
  }

  lemma {:induction false} SpanSize(iv: Interval)
    requires iv.start <= iv.end
    ensures |Span(iv)| == iv.Length()
    decreases iv.end - iv.start
  {
    if iv.start < iv.end {
      var shorter := Interval(iv.start, iv.end - 1);
      SpanSize(shorter);
      SpanGrows(iv.start, iv.end);
    } else {
      assert Span(iv) == {};
    }
  }

  /** For a canonical list the summed lengths count the covered milliseconds. */
  lemma {:induction false} CanonicalMeasure(s: seq<Interval>)
    requires Canonical(s)
    ensures TotalLength(s) == |Covered(s)|
  {
    if s != [] {
      var front, last := s[..|s| - 1], s[|s| - 1];
      CanonicalMeasure(front);
      SpanSize(last);
      forall t | t in Covered(front) ensures t !in Span(last) {
        CoveredMeaning(front, t);
      }
      assert |Covered(front) + Span(last)| == |Covered(front)| + |Span(last)|;
    }
  }

  /** The merged total counts each covered millisecond once. */
  lemma MergedMeasure(s: seq<Interval>)
    requires AllNonEmpty(s)
    ensures TotalLength(Merged(s)) == |Covered(s)|
  {
    MergedIsCanonical(s);
    CanonicalMeasure(Merged(s));
  }

  // ---------------------------------------------------------------- the merge, on objects

  /** The mutable interval records the services pass around. */
  class DowntimeInterval {
    var start: int
    var end: int

    constructor (start: int, end: int)
      ensures this.start == start && this.end == end
    {
      this.start := start;
      this.end := end;
    }
  }

  function Value(o: DowntimeInterval): Interval
    reads o
  {
    Interval(o.start, o.end)
  }

  function Values(s: seq<DowntimeInterval>): (v: seq<Interval>)
    reads s
    ensures |v| == |s| && forall i :: 0 <= i < |s| ==> v[i] == Value(s[i])
  {
    if s == [] then [] else Values(s[..|s| - 1]) + [Value(s[|s| - 1])]
  }

  lemma ValuesOfPermutation(a: seq<DowntimeInterval>, b: seq<DowntimeInterval>)
    requires multiset(a) == multiset(b)
    ensures Covered(Values(a)) == Covered(Values(b))
    ensures AllNonEmpty(Values(a)) <==> AllNonEmpty(Values(b))
  {
    assert forall x :: x in a <==> x in multiset(a);
    assert forall x :: x in b <==> x in multiset(b);
    ValuesOfSubset(a, b);
    ValuesOfSubset(b, a);
  }

  lemma ValuesOfSubset(a: seq<DowntimeInterval>, b: seq<DowntimeInterval>)
    requires forall x :: x in a ==> x in b
    ensures Covered(Values(a)) <= Covered(Values(b))
    ensures AllNonEmpty(Values(b)) ==> AllNonEmpty(Values(a))
  {
    forall i | 0 <= i < |a| ensures Values(a)[i] in Values(b) {
      assert a[i] in b;
      var j :| 0 <= j < |b| && b[j] == a[i];
      assert Values(b)[j] == Value(b[j]);
    }
    SubsetCoverage(Values(a), Values(b));
  }

  ghost predicate InOrder(s: seq<DowntimeInterval>)
    reads s
  {
    forall i, j :: 0 <= i < j < |s| ==> s[i].start <= s[j].start
  }

  /** The copy-and-sort at the head of the merge. */
  method SortByStart(intervals: seq<DowntimeInterval>) returns (ordered: seq<DowntimeInterval>)
    ensures multiset(ordered) == multiset(intervals)
    ensures SortedByStart(Values(ordered))
  {
    ordered := [];
    for n := 0 to |intervals|
      invariant multiset(ordered) == multiset(intervals[..n])
      invariant InOrder(ordered)
    {
      var k := |ordered|;
      while k > 0 && ordered[k - 1].start > intervals[n].start
        invariant 0 <= k <= |ordered|
        invariant forall i :: k <= i < |ordered| ==> ordered[i].start > intervals[n].start
      {
        k := k - 1;
      }
      assert intervals[..n + 1] == intervals[..n] + [intervals[n]];
      ordered := Inserted(ordered, k, intervals[n]);
    }
    assert intervals[..|intervals|] == intervals;
  }

  ghost predicate Distinct(s: seq<DowntimeInterval>) {
    forall i, j :: 0 <= i < j < |s| ==> s[i] != s[j]
  }

  ghost function LastOf(s: seq<DowntimeInterval>): (r: set<DowntimeInterval>)
    ensures forall x :: x in r ==> s != [] && x == s[|s| - 1]
  {
    if s == [] then {} else {s[|s| - 1]}
  }

  /** One turn of the merge loop: push a copy, or overwrite the end of the last merged record. */
  method AbsorbRecord(merged: seq<DowntimeInterval>, interval: DowntimeInterval)
    returns (longer: seq<DowntimeInterval>)
    requires Distinct(merged) && interval !in merged
    modifies LastOf(merged)
    ensures Values(longer) == Absorb(old(Values(merged)), old(Value(interval)))
    ensures Distinct(longer)
    ensures |merged| <= |longer|
    ensures forall i :: 0 <= i < |merged| ==> longer[i] == merged[i]
    ensures forall i :: |merged| <= i < |longer| ==> fresh(longer[i])
  {
    longer := merged;
    ghost var was := Values(merged);
    if |merged| == 0 || interval.start > merged[|merged| - 1].end {
      var copy := new DowntimeInterval(interval.start, interval.end);
      longer := merged + [copy];
      assert longer[..|merged|] == merged;
    } else {
      var previous := merged[|merged| - 1];
      if interval.end > previous.end {
        previous.end := interval.end;
        assert Values(merged[..|merged| - 1]) == old(Values(merged[..|merged| - 1]));
      }
    }
  }

  /** The merge loop over the sorted copy. */
  method MergeRecords(ordered: seq<DowntimeInterval>) returns (merged: seq<DowntimeInterval>)
    ensures forall i :: 0 <= i < |merged| ==> fresh(merged[i])
    ensures Values(merged) == MergeOrdered(Values(ordered))
  {
    ghost var input := Values(ordered);
    merged := [];
    for n := 0 to |ordered|
      invariant Distinct(merged)
      invariant forall i :: 0 <= i < |merged| ==> fresh(merged[i])
      invariant Values(merged) == MergeOrdered(input[..n])
      invariant forall i :: 0 <= i < |ordered| ==> Value(ordered[i]) == input[i]
    {
      assert input[..n + 1][..n] == input[..n];
      merged := AbsorbRecord(merged, ordered[n]);
    }
    assert input[..|ordered|] == input;
  }

  /**
    Merges outage records. The result is built from fresh copies, so although the loop
    overwrites the end of the last merged record no record of the caller changes.
  */
  method MergeIntervals(intervals: seq<DowntimeInterval>) returns (merged: seq<DowntimeInterval>)
    requires AllNonEmpty(Values(intervals))
    ensures forall i :: 0 <= i < |merged| ==> fresh(merged[i])
    ensures Canonical(Values(merged)) && Covered(Values(merged)) == Covered(Values(intervals))
    ensures Values(merged) == Merged(Values(intervals))
  {
    var ordered := SortByStart(intervals);
    ValuesOfPermutation(ordered, intervals);
    merged := MergeRecords(ordered);
    AnyOrderMergesAlike(Values(ordered), Values(intervals));
  }
}
