/**
  Service level calculation: outages are clipped to a period, merged, and turned into downtime,
  availability, mean time to recovery and mean time between failures.

  Minutes and percentages are exact reals; only the final rounding to hundredths is lossy.
*/
module Sla {
  import opened Arithmetic
  import opened Prelude
  import opened Records
  import opened Intervals

  // ---------------------------------------------------------------- the period

  datatype Period = Period(start: int, end: int) {
    predicate Valid() { start < end }

    function Length(): int { end - start }

    predicate Contains(t: int) { start <= t < end }
  }

  /** A date in the query: left out, not a date, or an instant. */
  datatype DateInput = Absent | Malformed | At(ms: int)

  datatype PeriodResult = Resolved(period: Period) | InvalidPeriod

  const DEFAULT_PERIOD_MS := 30 * 24 * 60 * 60 * 1000

  /** An end in the future is cut back to now; a missing start is thirty days before the end. */
  function ResolvePeriod(now: int, startDate: DateInput, endDate: DateInput): (r: PeriodResult)
    ensures r.Resolved? ==> r.period.Valid() && r.period.end <= now
    ensures r.InvalidPeriod? <==>
      || startDate.Malformed? || endDate.Malformed?
      || (startDate.At? && (startDate.ms >= now || (endDate.At? && startDate.ms >= endDate.ms)))
    ensures r.Resolved? ==> r.period.end == now || (endDate.At? && r.period.end == endDate.ms)
    ensures r.Resolved? && endDate.At? ==> r.period.end <= endDate.ms
    ensures r.Resolved? && startDate.At? ==> r.period.start == startDate.ms
    ensures r.Resolved? && startDate.Absent? ==> r.period.start == r.period.end - 2592000000
  {
    if endDate.Malformed? || startDate.Malformed? then InvalidPeriod
    else
      var requestedEnd := if endDate.At? then endDate.ms else now;
      var end := if requestedEnd > now then now else requestedEnd;
      var start := if startDate.At? then startDate.ms else end - DEFAULT_PERIOD_MS;
      if start >= end then InvalidPeriod else Resolved(Period(start, end))
  }

  // ---------------------------------------------------------------- clipping

  /** An outage from `from` to `until` (still running when None), cut to the period. */
  function Clip(from: int, until: Option<int>, p: Period): seq<Interval> {
    var start := Max(from, p.start);
    var end := Min(until.GetOr(p.end), p.end);
    if end > start then [Interval(start, end)] else []
  }

  /** The outage is in progress at t. */
  predicate InProgress(from: int, until: Option<int>, t: int) {
    from <= t && (until.Some? ==> t < until.value)
  }

  lemma ClipMeaning(from: int, until: Option<int>, p: Period, t: int)
    ensures t in Covered(Clip(from, until, p)) <==> p.Contains(t) && InProgress(from, until, t)
    ensures AllNonEmpty(Clip(from, until, p)) && Covered(Clip(from, until, p)) <= Span(Interval(p.start, p.end))
  {
    var c := Clip(from, until, p);
    if c != [] { assert Covered(c) == Span(c[0]); }
  }

  function IncidentInterval(incident: Incident, p: Period): seq<Interval> {
    Clip(incident.startedAt, incident.resolvedAt, p)
  }

  function CustomerInterval(customer: IncidentCustomer, p: Period): seq<Interval> {
    match customer.affectedFrom
    case None => []
    case Some(from) => Clip(from, customer.restoredAt, p)
  }

  function IncidentIntervals(incidents: seq<Incident>, p: Period): seq<Interval> {
    if incidents == [] then []
    else IncidentIntervals(incidents[..|incidents| - 1], p) + IncidentInterval(incidents[|incidents| - 1], p)
  }

  function CustomerIntervals(customers: seq<IncidentCustomer>, p: Period): seq<Interval> {
    if customers == [] then []
    else CustomerIntervals(customers[..|customers| - 1], p) + CustomerInterval(customers[|customers| - 1], p)
  }

  /** Some incident of the list is an outage in progress at t. */
  ghost predicate DownAt(incidents: seq<Incident>, t: int) {
    exists i :: 0 <= i < |incidents| && InProgress(incidents[i].startedAt, incidents[i].resolvedAt, t)
  }

  /** Some customer record of the list is an outage in progress at t. */
  ghost predicate CustomerDownAt(customers: seq<IncidentCustomer>, t: int) {
    exists i :: 0 <= i < |customers| && DownRecord(customers[i], t)
  }

  predicate DownRecord(customer: IncidentCustomer, t: int) {
    customer.affectedFrom.Some? && InProgress(customer.affectedFrom.value, customer.restoredAt, t)
  }

  lemma {:induction false} IncidentIntervalsMeaning(incidents: seq<Incident>, p: Period, t: int)
    ensures t in Covered(IncidentIntervals(incidents, p)) <==> p.Contains(t) && DownAt(incidents, t)
  {
    if incidents != [] {
      var front, last := incidents[..|incidents| - 1], incidents[|incidents| - 1];
      IncidentIntervalsMeaning(front, p, t);
      ClipMeaning(last.startedAt, last.resolvedAt, p, t);
      CoveredConcat(IncidentIntervals(front, p), IncidentInterval(last, p));
      assert DownAt(incidents, t) <==> DownAt(front, t) || InProgress(last.startedAt, last.resolvedAt, t) by {
        if DownAt(front, t) {
          var i :| 0 <= i < |front| && InProgress(front[i].startedAt, front[i].resolvedAt, t);
          assert incidents[i] == front[i];
        }
      }
    }
  }

  lemma {:induction false} CustomerIntervalsMeaning(customers: seq<IncidentCustomer>, p: Period, t: int)
    ensures t in Covered(CustomerIntervals(customers, p)) <==> p.Contains(t) && CustomerDownAt(customers, t)
  {
    if customers != [] {
      var front, last := customers[..|customers| - 1], customers[|customers| - 1];
      CustomerIntervalsMeaning(front, p, t);
      if last.affectedFrom.Some? { ClipMeaning(last.affectedFrom.value, last.restoredAt, p, t); }
      CoveredConcat(CustomerIntervals(front, p), CustomerInterval(last, p));
      assert CustomerDownAt(front, t) ==> CustomerDownAt(customers, t) by {
        if CustomerDownAt(front, t) {
          var i :| 0 <= i < |front| && DownRecord(front[i], t);
          assert customers[i] == front[i];
        }
      }
    }
  }

  /** Every interval is non-empty and lies inside the period. */
  predicate Clipped(s: seq<Interval>, p: Period) {
    forall i :: 0 <= i < |s| ==> p.start <= s[i].start < s[i].end <= p.end
  }

  lemma {:induction false} IncidentIntervalsClipped(incidents: seq<Incident>, p: Period)
    ensures Clipped(IncidentIntervals(incidents, p), p)
  {
    if incidents != [] { IncidentIntervalsClipped(incidents[..|incidents| - 1], p); }
  }

  lemma {:induction false} CustomerIntervalsClipped(customers: seq<IncidentCustomer>, p: Period)
    ensures Clipped(CustomerIntervals(customers, p), p)
  {
    if customers != [] { CustomerIntervalsClipped(customers[..|customers| - 1], p); }
  }

  // ---------------------------------------------------------------- the calculation

  function Minutes(ms: int): real { ms as real / 60000.0 }

  function TotalMinutes(s: seq<Interval>): real {
    if s == [] then 0.0 else TotalMinutes(s[..|s| - 1]) + Minutes(s[|s| - 1].Length())
  }

  /** To the nearest hundredth, halves upwards. */
  function Round(v: real): real { (v * 100.0 + 0.5).Floor as real / 100.0 }

  predicate ResolvedWithin(incident: Incident, p: Period) {
    incident.resolvedAt.Some? && p.start < incident.resolvedAt.value <= p.end
  }

  function ResolvedIncidents(incidents: seq<Incident>, p: Period): seq<Incident> {
    if incidents == [] then []
    else
      var rest := ResolvedIncidents(incidents[..|incidents| - 1], p);
      var last := incidents[|incidents| - 1];
      if ResolvedWithin(last, p) then rest + [last] else rest
  }

  function RecoveryMinutes(resolved: seq<Incident>, p: Period): real {
    if resolved == [] then 0.0
    else
      var total := RecoveryMinutes(resolved[..|resolved| - 1], p);
      var interval := IncidentInterval(resolved[|resolved| - 1], p);
      if interval == [] then total else total + Minutes(interval[0].Length())
  }

  function MeanRecovery(resolved: seq<Incident>, p: Period): Option<real> {
    if resolved == [] then None else Some(Round(RecoveryMinutes(resolved, p) / |resolved| as real))
  }

  datatype Calculation = Calculation(
    totalMinutes: real,
    downtimeMinutes: real,
    availabilityPercentage: real,
    incidentCount: nat,
    mttrMinutes: Option<real>,
    mtbfMinutes: Option<real>)

  function BuildCalculation(p: Period, incidents: seq<Incident>, intervals: seq<Interval>): Calculation
    requires p.Valid()
  {
    var totalMinutes := Minutes(p.Length());
    var downtimeMinutes := TotalMinutes(Merged(intervals));
    var safeDowntime := if totalMinutes <= downtimeMinutes then totalMinutes else downtimeMinutes;
    Calculation(
      Round(totalMinutes),
      Round(safeDowntime),
      Round(AvailabilityOf(totalMinutes, safeDowntime)),
      |incidents|,
      MeanRecovery(ResolvedIncidents(incidents, p), p),
      if incidents == [] then None else Some(Round(TimeBetween(totalMinutes, safeDowntime, |incidents|))))
  }

  function AvailabilityOf(total: real, down: real): real
    requires total > 0.0
  {
    (total - down) / total * 100.0
  }

  function TimeBetween(total: real, down: real, count: nat): real
    requires count > 0
  {
    (total - down) / count as real
  }

  // ---------------------------------------------------------------- the numbers mean what they say

  /** The figure is a whole number of hundredths, the nearest to q, and the upper one of two. */
  ghost predicate NearestHundredth(figure: real, q: real) {
    && (figure * 100.0).Floor as real == figure * 100.0
    && q * 100.0 - 0.5 < figure * 100.0 <= q * 100.0 + 0.5
  }

  lemma RoundIsNearest(v: real)
    ensures NearestHundredth(Round(v), v)
  {
    var n := (v * 100.0 + 0.5).Floor;
    assert Round(v) * 100.0 == n as real;
  }

  /** The figure is the nearest hundredth of the quotient. */
  ghost predicate PublishesQuotient(figure: real, dividend: real, divisor: real) {
    exists q :: NearestHundredth(figure, q) && q * divisor == dividend
  }

  lemma QuotientIsPublished(q: real, dividend: real, divisor: real)
    requires q * divisor == dividend
    ensures PublishesQuotient(Round(q), dividend, divisor)
  {
    RoundIsNearest(q);
  }

  lemma MinutesArePublished(ms: int)
    ensures PublishesQuotient(Round(Minutes(ms)), ms as real, 60000.0)
  {
    QuotientIsPublished(Minutes(ms), ms as real, 60000.0);
  }

  lemma AvailabilityIsPublished(length: int, down: int)
    requires length > 0
    ensures PublishesQuotient(Round(AvailabilityOf(Minutes(length), Minutes(down))),
                              (length - down) as real * 100.0, length as real)
  {
    hide PublishesQuotient, Round;
    var total, share := Minutes(length), AvailabilityOf(Minutes(length), Minutes(down));
    assert share == (total - Minutes(down)) / total * 100.0;
    assert (total - Minutes(down)) / total * total == total - Minutes(down);
    assert share * total == (total - Minutes(down)) * 100.0;
    assert length as real == total * 60000.0 && (length - down) as real == (total - Minutes(down)) * 60000.0;
    assert share * length as real == share * total * 60000.0;
    QuotientIsPublished(share, (length - down) as real * 100.0, length as real);
  }

  lemma TimeBetweenIsPublished(length: int, down: int, count: nat)
    requires count > 0
    ensures PublishesQuotient(Round(TimeBetween(Minutes(length), Minutes(down), count)),
                              (length - down) as real, count as real * 60000.0)
  {
    hide PublishesQuotient, Round;
    var sum, mean := Minutes(length) - Minutes(down), TimeBetween(Minutes(length), Minutes(down), count);
    assert sum * 60000.0 == (length - down) as real;
    assert mean * count as real == sum;
    assert mean * (count as real * 60000.0) == mean * count as real * 60000.0;
    QuotientIsPublished(mean, (length - down) as real, count as real * 60000.0);
  }

  /**
    Every published figure, computed from the milliseconds alone: the period's length, the number of
    its milliseconds with an outage, and the number of incidents.
  */
  lemma FiguresAreOfCoverage(p: Period, incidents: seq<Incident>, s: seq<Interval>)
    requires p.Valid() && Clipped(s, p)
    ensures var c, length, down := BuildCalculation(p, incidents, s), p.end - p.start, |Covered(s)|;
      && PublishesQuotient(c.totalMinutes, length as real, 60000.0)
      && PublishesQuotient(c.downtimeMinutes, down as real, 60000.0)
      && PublishesQuotient(c.availabilityPercentage, (length - down) as real * 100.0, length as real)
      && c.incidentCount == |incidents|
    ensures var c, length, down := BuildCalculation(p, incidents, s), p.end - p.start, |Covered(s)|;
      && (c.mtbfMinutes.None? <==> incidents == [])
      && (incidents != [] ==>
            PublishesQuotient(c.mtbfMinutes.value, (length - down) as real, |incidents| as real * 60000.0))
  {
    hide Minutes, Round, Merged, TotalMinutes, AvailabilityOf, MeanRecovery, TimeBetween, ResolvedIncidents,
      Covered, Clipped, PublishesQuotient;
    var length, down := p.end - p.start, |Covered(s)|;
    DowntimeCountsMilliseconds(p, s);
    PositiveMinutes(length);
    MinutesArePublished(length);
    MinutesArePublished(down);
    AvailabilityIsPublished(length, down);
    if incidents != [] { TimeBetweenIsPublished(length, down, |incidents|); }
  }

  lemma {:induction false} TotalMinutesIsLength(s: seq<Interval>)
    ensures TotalMinutes(s) == Minutes(TotalLength(s))
  {
    if s != [] { TotalMinutesIsLength(s[..|s| - 1]); }
  }

  lemma RoundIsMonotone(a: real, b: real)
    requires a <= b
    ensures Round(a) <= Round(b)
  {
    assert (a * 100.0 + 0.5).Floor <= (b * 100.0 + 0.5).Floor;
  }

  lemma ClippedCoverage(s: seq<Interval>, p: Period)
    requires p.Valid() && Clipped(s, p)
    ensures AllNonEmpty(s) && Covered(s) <= Span(Interval(p.start, p.end))
    ensures |Covered(s)| <= p.Length()
  {
    forall t | t in Covered(s) ensures t in Span(Interval(p.start, p.end)) {
      CoveredMeaning(s, t);
    }
    SubsetSize(Covered(s), Span(Interval(p.start, p.end)));
    SpanSize(Interval(p.start, p.end));
  }

  /** The downtime of clipped outages counts the covered milliseconds, so the clamp to the period changes nothing. */
  lemma DowntimeCountsMilliseconds(p: Period, s: seq<Interval>)
    requires p.Valid() && Clipped(s, p)
    ensures TotalMinutes(Merged(s)) == Minutes(|Covered(s)|)
    ensures 0.0 <= TotalMinutes(Merged(s)) <= Minutes(p.Length())
  {
    ClippedCoverage(s, p);
    MergedMeasure(s);
    TotalMinutesIsLength(Merged(s));
  }

  lemma DivisionOrder(a: real, b: real, d: real)
    requires d > 0.0 && a <= b
    ensures a / d <= b / d
  {
  }

  lemma AvailabilityIsAntitone(total: real, less: real, more: real)
    requires total > 0.0 && less <= more
    ensures AvailabilityOf(total, more) <= AvailabilityOf(total, less)
  {
    DivisionOrder(total - more, total - less, total);
  }

  lemma AvailabilityRange(total: real, down: real)
    requires total > 0.0 && 0.0 <= down <= total
    ensures 0.0 <= AvailabilityOf(total, down) <= 100.0
  {
    AvailabilityIsAntitone(total, 0.0, down);
    AvailabilityIsAntitone(total, down, total);
    assert total / total == 1.0;
  }

  function Times(n: nat, bound: real): real {
    if n == 0 then 0.0 else Times(n - 1, bound) + bound
  }

  lemma {:induction false} TimesIsProduct(n: nat, bound: real)
    ensures Times(n, bound) == n as real * bound
  {
    if n > 0 {
      TimesIsProduct(n - 1, bound);
      assert n as real * bound == (n - 1) as real * bound + bound;
    }
  }

  lemma IntervalBound(incident: Incident, p: Period)
    requires p.Valid()
    ensures forall i :: 0 <= i < |IncidentInterval(incident, p)| ==>
      0.0 <= Minutes(IncidentInterval(incident, p)[i].Length()) <= Minutes(p.Length())
  {
  }

  lemma {:induction false} RecoveryBound(resolved: seq<Incident>, p: Period)
    requires p.Valid()
    ensures 0.0 <= RecoveryMinutes(resolved, p) <= Times(|resolved|, Minutes(p.Length()))
  {
    if resolved != [] {
      RecoveryBound(resolved[..|resolved| - 1], p);
      IntervalBound(resolved[|resolved| - 1], p);
    }
  }

  lemma MeanBound(sum: real, n: real, bound: real)
    requires n > 0.0 && 0.0 <= sum <= n * bound
    ensures 0.0 <= sum / n <= bound
  {
    DivisionOrder(sum, n * bound, n);
    assert n * bound / n == bound;
  }

  lemma PositiveMinutes(ms: int)
    requires ms > 0
    ensures Minutes(ms) > 0.0
  {
  }

  lemma TimeBetweenIsMean(total: real, down: real, count: nat)
    requires count > 0
    ensures PublishedMean(Round(TimeBetween(total, down, count)), count, total - down)
  {
    MeanIsPublished(total - down, count);
  }

  lemma MeanIsPublished(sum: real, count: nat)
    requires count > 0
    ensures PublishedMean(Round(sum / count as real), count, sum)
  {
    hide Round;
    var mean := sum / count as real;
    assert mean * count as real == sum;
    assert Round(mean) == Round(mean);
  }

  /**
    The published figures, in terms of the set of milliseconds in which some outage is in progress:
    downtime is its size, and availability its complement, between 0 and 100 even after rounding.
  */
  lemma CalculationIsSound(p: Period, incidents: seq<Incident>, s: seq<Interval>)
    requires p.Valid() && Clipped(s, p)
    ensures var c := BuildCalculation(p, incidents, s);
      var total, down := Minutes(p.Length()), Minutes(|Covered(s)|);
      && down <= total
      && c.totalMinutes == Round(total)
      && c.downtimeMinutes == Round(down) <= c.totalMinutes
      && c.availabilityPercentage == Round(AvailabilityOf(total, down))
      && 0.0 <= c.availabilityPercentage <= 100.0
  {
    var total, down := Minutes(p.Length()), Minutes(|Covered(s)|);
    assert total > 0.0;
    DowntimeCountsMilliseconds(p, s);
    hide Minutes, Round, Merged, TotalMinutes, AvailabilityOf, MeanRecovery, TimeBetween, ResolvedIncidents,
      Covered, Clipped;
    DowntimeFigures(total, down);
  }

  /**
    The mean time to recovery is at most the period; and before rounding the mean time between
    failures times the number of incidents plus the downtime is the whole period.
  */
  lemma MeansAreSound(p: Period, incidents: seq<Incident>, s: seq<Interval>)
    requires p.Valid() && Clipped(s, p)
    ensures var c := BuildCalculation(p, incidents, s);
      && (c.mttrMinutes.None? <==> forall i :: 0 <= i < |incidents| ==> !ResolvedWithin(incidents[i], p))
      && (c.mttrMinutes.Some? ==> 0.0 <= c.mttrMinutes.value <= c.totalMinutes)
    ensures var c := BuildCalculation(p, incidents, s);
      && (c.mtbfMinutes.None? <==> incidents == [])
      && (c.mtbfMinutes.Some? ==>
            PublishedMean(c.mtbfMinutes.value, |incidents|, Minutes(p.Length()) - Minutes(|Covered(s)|)))
  {
    hide Minutes, Round, Merged, TotalMinutes, AvailabilityOf, RecoveryMinutes, ResolvedIncidents,
      ResolvedWithin, Covered, Clipped, PublishedMean, TimeBetween, MeanRecovery;
    var total, down := Minutes(p.Length()), Minutes(|Covered(s)|);
    PositiveMinutes(p.Length());
    DowntimeCountsMilliseconds(p, s);
    NothingResolved(incidents, p);
    MeanRecoveryBound(ResolvedIncidents(incidents, p), p);
    if incidents != [] { TimeBetweenIsMean(total, down, |incidents|); }
  }

  /** The figure is the rounding of a number that, taken count times, gives the sum. */
  ghost predicate PublishedMean(figure: real, count: nat, sum: real) {
    exists mean: real {:trigger Round(mean)} :: figure == Round(mean) && mean * count as real == sum
  }

  lemma DowntimeFigures(total: real, down: real)
    requires total > 0.0 && 0.0 <= down <= total
    ensures Round(down) <= Round(total)
    ensures 0.0 <= Round(AvailabilityOf(total, down)) <= 100.0
  {
    RoundIsMonotone(down, total);
    AvailabilityRange(total, down);
    RoundIsMonotone(0.0, AvailabilityOf(total, down));
    RoundIsMonotone(AvailabilityOf(total, down), 100.0);
  }

  lemma MeanRecoveryBound(resolved: seq<Incident>, p: Period)
    requires p.Valid()
    ensures MeanRecovery(resolved, p).None? <==> resolved == []
    ensures MeanRecovery(resolved, p).Some? ==>
      0.0 <= MeanRecovery(resolved, p).value <= Round(Minutes(p.Length()))
  {
    if resolved != [] {
      var sum, n, bound := RecoveryMinutes(resolved, p), |resolved| as real, Minutes(p.Length());
      RecoveryBound(resolved, p);
      TimesIsProduct(|resolved|, bound);
      MeanBound(sum, n, bound);
      RoundIsMonotone(0.0, sum / n);
      RoundIsMonotone(sum / n, bound);
    }
  }

  /** Summed over the incidents resolved in the period: how long each lasted inside the period. */
  function RecoveryMs(incidents: seq<Incident>, p: Period): int {
    if incidents == [] then 0
    else
      var last := incidents[|incidents| - 1];
      RecoveryMs(incidents[..|incidents| - 1], p)
      + if last.resolvedAt.Some? && p.start < last.resolvedAt.value <= p.end
        then Max(0, last.resolvedAt.value - Max(last.startedAt, p.start)) else 0
  }

  lemma {:induction false} RecoveryIsExact(incidents: seq<Incident>, p: Period)
    requires p.Valid()
    ensures RecoveryMinutes(ResolvedIncidents(incidents, p), p) == Minutes(RecoveryMs(incidents, p))
  {
    if incidents != [] {
      var front := incidents[..|incidents| - 1];
      RecoveryIsExact(front, p);
      var rest, last := ResolvedIncidents(front, p), incidents[|incidents| - 1];
      assert (rest + [last])[..|rest|] == rest;
    }
  }

  /** The incidents resolved in the period, by their positions. */
  ghost function ResolvedAtPositions(incidents: seq<Incident>, p: Period): set<int> {
    set i | 0 <= i < |incidents| && incidents[i].resolvedAt.Some? && p.start < incidents[i].resolvedAt.value <= p.end
  }

  lemma {:induction false} ResolvedAreCounted(incidents: seq<Incident>, p: Period)
    ensures |ResolvedIncidents(incidents, p)| == |ResolvedAtPositions(incidents, p)|
  {
    if incidents != [] {
      var front, last := incidents[..|incidents| - 1], incidents[|incidents| - 1];
      ResolvedAreCounted(front, p);
      var before := ResolvedAtPositions(front, p);
      if ResolvedWithin(last, p) {
        assert ResolvedAtPositions(incidents, p) == before + {|front|};
      } else {
        assert ResolvedAtPositions(incidents, p) == before;
      }
    } else {
      assert ResolvedAtPositions(incidents, p) == {};
    }
  }

  /**
    The mean time to recovery is the nearest hundredth of the mean, over the incidents resolved in
    the period, of their time in it; it is missing when there are none.
  */
  lemma MeanRecoveryIsExact(p: Period, incidents: seq<Incident>, s: seq<Interval>)
    requires p.Valid()
    ensures var c, n := BuildCalculation(p, incidents, s), |ResolvedAtPositions(incidents, p)|;
      && (c.mttrMinutes.None? <==> n == 0)
      && (n > 0 ==> PublishesQuotient(c.mttrMinutes.value, RecoveryMs(incidents, p) as real, n as real * 60000.0))
  {
    hide Minutes, Round, RecoveryMinutes, RecoveryMs, ResolvedIncidents, TotalMinutes, Merged, AvailabilityOf,
      TimeBetween, PublishesQuotient, ResolvedAtPositions;
    var resolved := ResolvedIncidents(incidents, p);
    ResolvedAreCounted(incidents, p);
    RecoveryIsExact(incidents, p);
    if resolved != [] { MeanIsPublishedInMinutes(RecoveryMs(incidents, p), |resolved|); }
  }

  lemma MeanIsPublishedInMinutes(sum: int, count: nat)
    requires count > 0
    ensures PublishesQuotient(Round(Minutes(sum) / count as real), sum as real, count as real * 60000.0)
  {
    hide PublishesQuotient, Round;
    var mean := Minutes(sum) / count as real;
    assert mean * count as real == Minutes(sum);
    assert mean * (count as real * 60000.0) == mean * count as real * 60000.0;
    QuotientIsPublished(mean, sum as real, count as real * 60000.0);
  }

  lemma {:induction false} NothingResolved(incidents: seq<Incident>, p: Period)
    ensures ResolvedIncidents(incidents, p) == []
      <==> forall i :: 0 <= i < |incidents| ==> !ResolvedWithin(incidents[i], p)
  {
    if incidents != [] {
      NothingResolved(incidents[..|incidents| - 1], p);
      assert incidents[|incidents| - 1] == incidents[|incidents| - 1];
    }
  }

  /** One more outage never raises the published availability and never lowers the published downtime. */
  lemma AnotherOutageNeverHelps(p: Period, incidents: seq<Incident>, others: seq<Incident>,
                                s: seq<Interval>, outage: Interval)
    requires p.Valid() && Clipped(s, p) && Clipped([outage], p)
    ensures BuildCalculation(p, others, s + [outage]).availabilityPercentage
         <= BuildCalculation(p, incidents, s).availabilityPercentage
    ensures BuildCalculation(p, others, s + [outage]).downtimeMinutes
         >= BuildCalculation(p, incidents, s).downtimeMinutes
  {
    hide Round, Minutes, Merged, TotalMinutes, Covered, MeanRecovery, AvailabilityOf, TimeBetween,
      ResolvedIncidents, Clipped;
    PositiveMinutes(p.Length());
    ClippedAppend(p, s, outage);
    CoveredAppend(s, outage);
    MoreCoverageMoreDowntime(p, s, s + [outage]);
    DowntimeCountsMilliseconds(p, s);
    DowntimeCountsMilliseconds(p, s + [outage]);
    var total := Minutes(p.Length());
    var less, more := TotalMinutes(Merged(s)), TotalMinutes(Merged(s + [outage]));
    AvailabilityIsAntitone(total, less, more);
    RoundIsMonotone(AvailabilityOf(total, more), AvailabilityOf(total, less));
    RoundIsMonotone(less, more);
  }

  lemma ClippedAppend(p: Period, s: seq<Interval>, outage: Interval)
    requires Clipped(s, p) && Clipped([outage], p)
    ensures Clipped(s + [outage], p)
  {
    assert [outage][0] == outage;
  }

  lemma MoreCoverageMoreDowntime(p: Period, s: seq<Interval>, more: seq<Interval>)
    requires p.Valid() && Clipped(s, p) && Clipped(more, p)
    requires Covered(s) <= Covered(more)
    ensures TotalMinutes(Merged(s)) <= TotalMinutes(Merged(more))
  {
    SubsetSize(Covered(s), Covered(more));
    DowntimeCountsMilliseconds(p, s);
    DowntimeCountsMilliseconds(p, more);
  }

  // ---------------------------------------------------------------- splitting a period

  function IncidentDowntime(incidents: seq<Incident>, p: Period): real {
    TotalMinutes(Merged(IncidentIntervals(incidents, p)))
  }

  /** Cutting a period anywhere inside splits its unrounded downtime, unresolved incidents included. */
  lemma DowntimeSplits(incidents: seq<Incident>, p: Period, cut: int)
    requires p.start < cut < p.end
    ensures IncidentDowntime(incidents, p)
         == IncidentDowntime(incidents, Period(p.start, cut)) + IncidentDowntime(incidents, Period(cut, p.end))
  {
    var left, right := Period(p.start, cut), Period(cut, p.end);
    var whole, a, b :=
      Covered(IncidentIntervals(incidents, p)),
      Covered(IncidentIntervals(incidents, left)),
      Covered(IncidentIntervals(incidents, right));
    forall t ensures t in whole <==> t in a + b {
      IncidentIntervalsMeaning(incidents, p, t);
      IncidentIntervalsMeaning(incidents, left, t);
      IncidentIntervalsMeaning(incidents, right, t);
    }
    forall t | t in a ensures t !in b {
      IncidentIntervalsMeaning(incidents, left, t);
      IncidentIntervalsMeaning(incidents, right, t);
    }
    assert whole == a + b;
    assert |a + b| == |a| + |b|;
    IncidentIntervalsClipped(incidents, p);
    IncidentIntervalsClipped(incidents, left);
    IncidentIntervalsClipped(incidents, right);
    DowntimeCountsMilliseconds(p, IncidentIntervals(incidents, p));
    DowntimeCountsMilliseconds(left, IncidentIntervals(incidents, left));
    DowntimeCountsMilliseconds(right, IncidentIntervals(incidents, right));
  }

  // ---------------------------------------------------------------- the database prefilter

  /** The two date filters of the incident query. */
  predicate LiveInPeriod(incident: Incident, p: Period) {
    incident.detectedAt < p.end && (incident.resolvedAt.Some? ==> incident.resolvedAt.value > p.start)
  }

  function SelectLive(incidents: seq<Incident>, p: Period): seq<Incident> {
    if incidents == [] then []
    else
      var rest := SelectLive(incidents[..|incidents| - 1], p);
      var last := incidents[|incidents| - 1];
      if LiveInPeriod(last, p) then rest + [last] else rest
  }

  /**
    Exactly which incidents contribute: those the query selects, minus those that were resolved
    no later than they started. So the filter drops no incident with a part inside the period.
  */
  lemma PrefilterDropsOnlyEmptyIntervals(incident: Incident, p: Period)
    requires p.Valid() && incident.startedAt == incident.detectedAt
    ensures IncidentInterval(incident, p) != [] <==>
      (LiveInPeriod(incident, p) && (incident.resolvedAt.Some? ==> incident.startedAt < incident.resolvedAt.value))
  {
  }

  /** The date filter of the query never changes the downtime. */
  lemma {:induction false} PrefilterKeepsDowntime(incidents: seq<Incident>, p: Period)
    requires p.Valid()
    requires forall i :: 0 <= i < |incidents| ==> incidents[i].startedAt == incidents[i].detectedAt
    ensures IncidentIntervals(SelectLive(incidents, p), p) == IncidentIntervals(incidents, p)
    ensures IncidentDowntime(SelectLive(incidents, p), p) == IncidentDowntime(incidents, p)
  {
    if incidents != [] {
      var front, last := incidents[..|incidents| - 1], incidents[|incidents| - 1];
      PrefilterKeepsDowntime(front, p);
      PrefilterDropsOnlyEmptyIntervals(last, p);
      var rest := SelectLive(front, p);
      if LiveInPeriod(last, p) {
        assert (rest + [last])[..|rest|] == rest;
      }
    }
  }

  // ---------------------------------------------------------------- the customer query

  /** The customer query filters on the record's own dates and on the dates of its incident. */
  predicate CustomerSelected(customer: IncidentCustomer, incident: Incident, p: Period) {
    && customer.affectedFrom.Some? && customer.affectedFrom.value < p.end
    && (customer.restoredAt.Some? ==> customer.restoredAt.value > p.start)
    && LiveInPeriod(incident, p)
  }

  /**
    The customer query loses outage time of a record exactly when the incident behind it was
    detected at or after the end of the period, or resolved at or before its start.
  */
  lemma CustomerQueryLosesExactly(customer: IncidentCustomer, incident: Incident, p: Period)
    requires p.Valid() && CustomerInterval(customer, p) != []
    ensures !CustomerSelected(customer, incident, p) <==>
      (incident.detectedAt >= p.end || (incident.resolvedAt.Some? && incident.resolvedAt.value <= p.start))
  {
  }

  /**
    Such a record exists: the operator resolved the incident at 50 while the customer, affected
    since 0, is not restored; over [100, 200) the customer is down throughout and is not selected.
  */
  lemma CustomerOutageCanBeLost(incident: Incident, customer: IncidentCustomer)
    requires incident.detectedAt == 0 && incident.resolvedAt == Some(50)
    requires customer.affectedFrom == Some(0) && customer.restoredAt == None
    ensures CustomerInterval(customer, Period(100, 200)) == [Interval(100, 200)]
    ensures !CustomerSelected(customer, incident, Period(100, 200))
  {
  }
}
