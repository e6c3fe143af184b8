/**
  Open incidents with the same correlation key are spread out in time. Reopening a resolved
  incident is the one action that can break this, and exactly when it can is stated here.
*/
module Separation {
  import opened Arithmetic
  import opened Prelude
  import opened Calendar
  import opened Records
  import opened Alerts
  import opened Correlation
  import opened Lifecycle
  import opened IncidentEngine

  predicate Apart(a: Incident, b: Incident, windowMs: int) {
    a.detectedAt - b.detectedAt > windowMs || b.detectedAt - a.detectedAt > windowMs
  }

  /** Open since it was created: a reopened incident keeps its resolution time. */
  predicate NeverResolved(incident: Incident) { IsOpen(incident.status) && incident.resolvedAt.None? }

  ghost predicate Spread(incidents: seq<Incident>, windowMs: int) {
    forall i, j :: 0 <= i < j < |incidents|
      && NeverResolved(incidents[i]) && NeverResolved(incidents[j])
      && incidents[i].correlationKey == incidents[j].correlationKey
      ==> Apart(incidents[i], incidents[j], windowMs)
  }

  /** Nothing that Spread looks at becomes true of a row by this update. */
  predicate NoNewPair(before: Incident, after: Incident) {
    && after.detectedAt == before.detectedAt
    && after.correlationKey == before.correlationKey
    && (NeverResolved(after) ==> NeverResolved(before))
  }

  lemma UpdateKeepsSpread(incidents: seq<Incident>, n: nat, after: Incident, windowMs: int)
    requires n < |incidents| && Spread(incidents, windowMs) && NoNewPair(incidents[n], after)
    ensures Spread(incidents[n := after], windowMs)
  {
  }

  predicate OpenWithKey(incident: Incident, key: Option<string>) {
    IsOpen(incident.status) && incident.correlationKey == key
  }

  /** A new incident is created only when no open incident with its key reaches into its window. */
  lemma CreateKeepsSpread(incidents: seq<Incident>, incident: Incident, windowMs: int)
    requires Spread(incidents, windowMs)
    requires forall i :: 0 <= i < |incidents| && OpenWithKey(incidents[i], incident.correlationKey) ==>
      incidents[i].detectedAt < incident.detectedAt - windowMs
    ensures Spread(incidents + [incident], windowMs)
  {
  }

  lemma ProcessKeepsSpread(db: Db, id: nat, rules: seq<Rule>, windowMs: int, pick: Option<nat>)
    requires Spread(db.incidents, windowMs)
    requires forall i :: 0 <= i < |db.incidents| ==> db.incidents[i].correlationKey.Some?
    requires id < |db.alerts| && db.alerts[id].id == id && IsFirst(pick, db, db.alerts[id], windowMs)
    ensures var r := Process(db, id, rules, windowMs, pick);
      r.Committed? ==> Spread(r.db.incidents, windowMs)
  {
    hide Analyze, BuildCorrelationKey, IsRecovery, NextCode, HasCode, Title, InitialCounters, YearOf, Spread;
    var alert := db.alerts[id];
    var d := Analyze(db.alerts, rules, alert, windowMs);
    var r := Process(db, id, rules, windowMs, pick);
    AnalysisKey(db.alerts, rules, alert, windowMs);
    if r.Committed? {
      if r.outcome == CREATED {
        var incident := NewIncident(|db.incidents|, NumberOf(db.sequences, YearOf(alert.detectedAt)) + 1, alert, d);
        CreateKeepsSpread(db.incidents, incident, windowMs);
      } else if r.outcome == CORRELATED {
        UpdateKeepsSpread(db.incidents, pick.value, ApplyDecision(db.incidents[pick.value], d), windowMs);
      } else if r.outcome == RECOVERY_DETECTED {
        UpdateKeepsSpread(db.incidents, pick.value, db.incidents[pick.value].(status := MONITORING), windowMs);
      }
    }
  }

  /** Every step keeps the spread, reopening included, because a reopened incident was resolved. */
  lemma ApplyKeepsSpread(db: Db, s: Step, windowMs: int)
    requires Spread(db.incidents, windowMs) && Enabled(db, s, windowMs)
    requires forall i :: 0 <= i < |db.incidents| ==>
      db.incidents[i].correlationKey.Some? && Consistent(db.incidents[i], db.clock)
    ensures Spread(Apply(db, s, windowMs).incidents, windowMs)
  {
    match s
    case IngestStep(_) =>
    case ProcessStep(id, rules, pick) => ProcessKeepsSpread(db, id, rules, windowMs, pick);
    case ChangeStep(id, change, now) =>
      hide Spread;
      if Transition(db, id, change, now).Changed? {
        UpdateKeepsSpread(db.incidents, id, ChangeStatus(db.incidents[id], change.status, now), windowMs);
      }
    case RefreshStep(id, counters) =>
      hide Spread;
      UpdateKeepsSpread(db.incidents, id, db.incidents[id].(counters := counters), windowMs);
  }

  // ---------------------------------------------------------------- reopening

  /** All open incidents, reopened ones included. */
  ghost predicate OpenSpread(incidents: seq<Incident>, windowMs: int) {
    forall i, j :: 0 <= i < j < |incidents|
      && IsOpen(incidents[i].status) && IsOpen(incidents[j].status)
      && incidents[i].correlationKey == incidents[j].correlationKey
      ==> Apart(incidents[i], incidents[j], windowMs)
  }

  /** An open incident with the same key lies within the window of incident n. */
  ghost predicate Neighbour(incidents: seq<Incident>, n: nat, windowMs: int)
    requires n < |incidents|
  {
    exists i :: 0 <= i < |incidents| && i != n && IsOpen(incidents[i].status)
      && incidents[i].correlationKey == incidents[n].correlationKey && !Apart(incidents[i], incidents[n], windowMs)
  }

  /**
    Reopening a resolved incident keeps all open incidents spread exactly when no open incident
    with its key lies within the window of it, which an operator could look up beforehand.
  */
  lemma ReopenKeepsSpreadExactly(incidents: seq<Incident>, n: nat, now: int, windowMs: int)
    requires n < |incidents| && incidents[n].status == RESOLVED && OpenSpread(incidents, windowMs)
    ensures OpenSpread(incidents[n := ChangeStatus(incidents[n], IN_PROGRESS, now)], windowMs)
      <==> !Neighbour(incidents, n, windowMs)
  {
    var reopened := incidents[n := ChangeStatus(incidents[n], IN_PROGRESS, now)];
    if Neighbour(incidents, n, windowMs) {
      var i :| 0 <= i < |incidents| && i != n && IsOpen(incidents[i].status)
        && incidents[i].correlationKey == incidents[n].correlationKey && !Apart(incidents[i], incidents[n], windowMs);
      assert reopened[i] == incidents[i];
      assert IsOpen(reopened[n].status) && !Apart(reopened[i], reopened[n], windowMs);
      assert i < n || n < i;
    }
  }

  /** The step moves a resolved incident back to work. */
  predicate Reopens(db: Db, s: Step) {
    s.ChangeStep? && s.incidentId < |db.incidents|
    && db.incidents[s.incidentId].status == RESOLVED && s.change.status == IN_PROGRESS
  }

  /** And it does so although an open incident with the same key lies within the window. */
  ghost predicate Collides(db: Db, s: Step, windowMs: int) {
    Reopens(db, s) && Neighbour(db.incidents, s.incidentId, windowMs)
  }

  /** Nothing that OpenSpread looks at becomes true of a row by this update. */
  predicate NoNewOpen(before: Incident, after: Incident) {
    && after.detectedAt == before.detectedAt
    && after.correlationKey == before.correlationKey
    && (IsOpen(after.status) ==> IsOpen(before.status))
  }

  lemma UpdateKeepsOpenSpread(incidents: seq<Incident>, n: nat, after: Incident, windowMs: int)
    requires n < |incidents| && OpenSpread(incidents, windowMs) && NoNewOpen(incidents[n], after)
    ensures OpenSpread(incidents[n := after], windowMs)
  {
  }

  lemma CreateKeepsOpenSpread(incidents: seq<Incident>, incident: Incident, windowMs: int)
    requires OpenSpread(incidents, windowMs)
    requires forall i :: 0 <= i < |incidents| && OpenWithKey(incidents[i], incident.correlationKey) ==>
      incidents[i].detectedAt < incident.detectedAt - windowMs
    ensures OpenSpread(incidents + [incident], windowMs)
  {
  }

  lemma ProcessKeepsOpenSpread(db: Db, id: nat, rules: seq<Rule>, windowMs: int, pick: Option<nat>)
    requires OpenSpread(db.incidents, windowMs)
    requires forall i :: 0 <= i < |db.incidents| ==> db.incidents[i].correlationKey.Some?
    requires id < |db.alerts| && db.alerts[id].id == id && IsFirst(pick, db, db.alerts[id], windowMs)
    ensures var r := Process(db, id, rules, windowMs, pick);
      r.Committed? ==> OpenSpread(r.db.incidents, windowMs)
  {
    hide Analyze, BuildCorrelationKey, IsRecovery, NextCode, HasCode, Title, InitialCounters, YearOf, OpenSpread;
    var alert := db.alerts[id];
    var d := Analyze(db.alerts, rules, alert, windowMs);
    var r := Process(db, id, rules, windowMs, pick);
    AnalysisKey(db.alerts, rules, alert, windowMs);
    if r.Committed? {
      if r.outcome == CREATED {
        var incident := NewIncident(|db.incidents|, NumberOf(db.sequences, YearOf(alert.detectedAt)) + 1, alert, d);
        CreateKeepsOpenSpread(db.incidents, incident, windowMs);
      } else if r.outcome == CORRELATED {
        UpdateKeepsOpenSpread(db.incidents, pick.value, ApplyDecision(db.incidents[pick.value], d), windowMs);
      } else if r.outcome == RECOVERY_DETECTED {
        UpdateKeepsOpenSpread(db.incidents, pick.value, db.incidents[pick.value].(status := MONITORING), windowMs);
      }
    }
  }

  lemma ChangeKeepsOpenSpreadExactly(db: Db, id: nat, change: Change, now: int, windowMs: int)
    requires OpenSpread(db.incidents, windowMs) && Transition(db, id, change, now).Changed?
    ensures OpenSpread(Transition(db, id, change, now).db.incidents, windowMs)
      <==> !Collides(db, ChangeStep(id, change, now), windowMs)
  {
    hide OpenSpread, Neighbour;
    if Reopens(db, ChangeStep(id, change, now)) {
      ReopenKeepsSpreadExactly(db.incidents, id, now, windowMs);
    } else {
      UpdateKeepsOpenSpread(db.incidents, id, ChangeStatus(db.incidents[id], change.status, now), windowMs);
    }
  }

  /** Every step keeps all open incidents spread, except exactly a reopening that collides. */
  lemma ApplyKeepsOpenSpreadExactly(db: Db, s: Step, windowMs: int)
    requires OpenSpread(db.incidents, windowMs) && Enabled(db, s, windowMs)
    requires forall i :: 0 <= i < |db.incidents| ==> db.incidents[i].correlationKey.Some?
    ensures OpenSpread(Apply(db, s, windowMs).incidents, windowMs) <==> !Collides(db, s, windowMs)
  {
    hide OpenSpread, Neighbour, Process;
    match s
    case IngestStep(_) =>
    case ProcessStep(id, rules, pick) => ProcessKeepsOpenSpread(db, id, rules, windowMs, pick);
    case ChangeStep(id, change, now) =>
      if Transition(db, id, change, now).Changed? { ChangeKeepsOpenSpreadExactly(db, id, change, now, windowMs); }
    case RefreshStep(id, counters) =>
      UpdateKeepsOpenSpread(db.incidents, id, db.incidents[id].(counters := counters), windowMs);
  }

  /** An open incident that carries a resolution time. */
  predicate OpenYetResolved(incident: Incident) { IsOpen(incident.status) && incident.resolvedAt.Some? }

  lemma UpdateResolves(incidents: seq<Incident>, n: nat, after: Incident, m: nat)
    requires n < |incidents| && m < |incidents|
    requires OpenYetResolved(after) ==> OpenYetResolved(incidents[n])
    ensures OpenYetResolved(incidents[n := after][m]) ==> OpenYetResolved(incidents[m])
  {
  }

  lemma ProcessResolves(db: Db, id: nat, rules: seq<Rule>, windowMs: int, pick: Option<nat>, m: nat)
    requires id < |db.alerts| && db.alerts[id].id == id && IsFirst(pick, db, db.alerts[id], windowMs)
    ensures var r := Process(db, id, rules, windowMs, pick);
      r.Committed? && m < |r.db.incidents| && OpenYetResolved(r.db.incidents[m]) ==>
        m < |db.incidents| && OpenYetResolved(db.incidents[m])
  {
    hide Analyze, BuildCorrelationKey, IsRecovery, NextCode, HasCode, Title, InitialCounters, YearOf, HasEvent,
      HasResult;
    var d := Analyze(db.alerts, rules, db.alerts[id], windowMs);
    var r := Process(db, id, rules, windowMs, pick);
    if r.Committed? && m < |db.incidents| {
      if r.outcome == CORRELATED {
        UpdateResolves(db.incidents, pick.value, ApplyDecision(db.incidents[pick.value], d), m);
      } else if r.outcome == RECOVERY_DETECTED {
        UpdateResolves(db.incidents, pick.value, db.incidents[pick.value].(status := MONITORING), m);
      }
    }
  }

  /** Only a reopening of the incident itself makes it open and yet resolved. */
  lemma OnlyReopeningResolves(db: Db, s: Step, windowMs: int, m: nat)
    requires Enabled(db, s, windowMs)
    requires m < |Apply(db, s, windowMs).incidents| && OpenYetResolved(Apply(db, s, windowMs).incidents[m])
    ensures m < |db.incidents|
    ensures OpenYetResolved(db.incidents[m]) || (Reopens(db, s) && s.incidentId == m)
  {
    hide Process;
    match s
    case IngestStep(_) =>
    case ProcessStep(id, rules, pick) => ProcessResolves(db, id, rules, windowMs, pick, m);
    case ChangeStep(id, change, now) =>
    case RefreshStep(id, counters) =>
      UpdateResolves(db.incidents, id, db.incidents[id].(counters := counters), m);
  }

  // ---------------------------------------------------------------- how many fit into a span

  /** The named incidents lie pairwise more than the window apart. */
  ghost predicate PairwiseApart(rows: set<nat>, incidents: seq<Incident>, windowMs: int) {
    && (forall n :: n in rows ==> n < |incidents|)
    && forall a, b :: a in rows && b in rows && a != b ==> Apart(incidents[a], incidents[b], windowMs)
  }

  lemma HasMember<T>(s: set<T>)
    requires s != {}
    ensures exists x :: x in s
  {
    if forall x :: x !in s { assert false; }
  }

  lemma {:induction false} Latest(rows: set<nat>, incidents: seq<Incident>) returns (m: nat)
    requires rows != {} && forall n :: n in rows ==> n < |incidents|
    ensures m in rows && forall n :: n in rows ==> incidents[n].detectedAt <= incidents[m].detectedAt
    decreases |rows|
  {
    HasMember(rows);
    var first :| first in rows;
    var rest := rows - {first};
    assert forall n :: n in rows ==> n in rest || n == first;
    m := first;
    if rest != {} {
      var later := Latest(rest, incidents);
      if incidents[later].detectedAt > incidents[first].detectedAt { m := later; }
    }
  }

  lemma LastGap(rows: set<nat>, incidents: seq<Incident>, windowMs: nat) returns (m: nat, p: nat)
    requires |rows| > 1 && PairwiseApart(rows, incidents, windowMs)
    ensures m in rows && p in rows && m < |incidents| && p < |incidents|
    ensures incidents[m].detectedAt - incidents[p].detectedAt > windowMs
    ensures |rows - {m}| == |rows| - 1 && PairwiseApart(rows - {m}, incidents, windowMs)
    ensures forall n :: n in rows - {m} ==> incidents[n].detectedAt <= incidents[p].detectedAt
  {
    m := Latest(rows, incidents);
    var rest := rows - {m};
    assert |rest| == |rows| - 1;
    p := Latest(rest, incidents);
    assert p in rows && p != m;
  }

  ghost predicate DetectedWithin(rows: set<nat>, incidents: seq<Incident>, from: int, span: nat) {
    forall n :: n in rows ==> n < |incidents| && from <= incidents[n].detectedAt <= from + span
  }

  /** So at most span / window + 1 of them were detected in any span of time. */
  lemma {:induction false} FewInASpan(rows: set<nat>, incidents: seq<Incident>, from: int, span: nat, windowMs: nat)
    requires windowMs > 0 && PairwiseApart(rows, incidents, windowMs)
    requires DetectedWithin(rows, incidents, from, span)
    ensures |rows| <= Quotient(span, windowMs) + 1
    decreases |rows|
  {
    if |rows| <= 1 {
      assert Quotient(span, windowMs) >= 0;
    } else {
      hide Quotient;
      var m, p := LastGap(rows, incidents, windowMs);
      hide PairwiseApart;
      var shorter := incidents[p].detectedAt - from;
      assert DetectedWithin(rows - {m}, incidents, from, shorter);
      assert shorter + windowMs <= span;
      hide DetectedWithin;
      FewInASpan(rows - {m}, incidents, from, shorter, windowMs);
      QuotientStep(shorter, span, windowMs);
    }
  }

  lemma QuotientStep(a: nat, b: nat, w: nat)
    requires w > 0 && a + w <= b
    ensures Quotient(a, w) + 1 <= Quotient(b, w)
  {
    var q := a / w;
    assert q * w <= a;
    OneMore(q, w);
    AtMostQuotient(q + 1, b, w);
  }
}
