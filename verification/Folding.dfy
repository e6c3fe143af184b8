/** An incident is a fold of the decisions linked to it. */
module Folding {
  import opened Prelude
  import opened Calendar
  import opened Records
  import opened Alerts
  import opened Correlation
  import opened IncidentEngine

  /** The non-recovery decisions linked to incident n, in commit order. */
  function DecisionsOf(results: seq<ResultRow>, n: nat): seq<Decision> {
    if results == [] then []
    else
      var rest := DecisionsOf(results[..|results| - 1], n);
      var last := results[|results| - 1];
      if last.incidentId == Some(n) && !IsRecovery(last.eventType) then rest + [last.decision] else rest
  }

  datatype Summary = Summary(severity: Severity, confidence: int, incidentType: IncidentType, rootCause: RootCause)

  function SummaryOf(incident: Incident): Summary {
    Summary(incident.severity, incident.rootCauseConfidence, incident.incidentType, incident.rootCause)
  }

  function FromDecision(d: Decision): Summary {
    Summary(d.severity, d.rootCauseConfidence, d.incidentType, d.rootCause)
  }

  function Merge(s: Summary, d: Decision): Summary {
    Summary(
      if IsMoreSevere(d.severity, s.severity) then d.severity else s.severity,
      if d.rootCauseConfidence > s.confidence then d.rootCauseConfidence else s.confidence,
      if d.rootCauseConfidence > s.confidence then d.incidentType else s.incidentType,
      if d.rootCauseConfidence > s.confidence then d.rootCause else s.rootCause)
  }

  function Fold(ds: seq<Decision>): Summary
    requires ds != []
  {
    if |ds| == 1 then FromDecision(ds[0]) else Merge(Fold(ds[..|ds| - 1]), ds[|ds| - 1])
  }

  /** The incident's fields say what its decisions say. */
  ghost predicate IncidentFolded(incident: Incident, ds: seq<Decision>) {
    && ds != []
    && SummaryOf(incident) == Fold(ds)
    && incident.title == Title(incident.oltExternalId, incident.ponIdentifier, incident.incidentType)
    && (forall i :: 0 <= i < |ds| ==> incident.correlationKey == Some(ds[i].correlationKey))
    && incident.startedAt == incident.detectedAt
  }

  ghost predicate Folded(db: Db) {
    forall n :: 0 <= n < |db.incidents| ==> IncidentFolded(db.incidents[n], DecisionsOf(db.results, n))
  }

  /** Results only name incidents that exist. */
  ghost predicate ResultsNameIncidents(db: Db) {
    forall i :: 0 <= i < |db.results| && db.results[i].incidentId.Some? ==>
      db.results[i].incidentId.value < |db.incidents|
  }

  // ---------------------------------------------------------------- what the fold is

  /**
    Severity is the maximum and is attained; confidence is the maximum, and type and root cause
    come from the earliest decision that attains it.
  */
  ghost predicate IsFoldAt(s: Summary, ds: seq<Decision>, best: nat) {
    && best < |ds|
    && (forall i :: 0 <= i < |ds| ==> ds[i].severity.Rank() <= s.severity.Rank())
    && (exists i :: 0 <= i < |ds| && ds[i].severity == s.severity)
    && (forall i :: 0 <= i < |ds| ==> ds[i].rootCauseConfidence <= s.confidence)
    && (forall i :: 0 <= i < best ==> ds[i].rootCauseConfidence < s.confidence)
    && s.confidence == ds[best].rootCauseConfidence
    && s.incidentType == ds[best].incidentType
    && s.rootCause == ds[best].rootCause
  }

  lemma {:induction false} FoldIsMaximum(ds: seq<Decision>) returns (best: nat)
    requires ds != []
    ensures IsFoldAt(Fold(ds), ds, best)
  {
    if |ds| == 1 {
      best := 0;
    } else {
      var front, last := ds[..|ds| - 1], ds[|ds| - 1];
      var earlier := FoldIsMaximum(front);
      assert forall i :: 0 <= i < |front| ==> ds[i] == front[i];
      var k :| 0 <= k < |front| && front[k].severity == Fold(front).severity;
      assert ds[k].severity == Fold(front).severity;
      best := if last.rootCauseConfidence > Fold(front).confidence then |front| else earlier;
    }
  }

  /** A decision that no identifying rule backs changes at most the severity of an incident. */
  lemma UnmatchedDecisionKeepsCause(incident: Incident, alerts: seq<Alert>, rules: seq<Rule>, alert: Alert)
    requires incident.rootCauseConfidence >= 0 && incident.correlationKey == Some(BuildCorrelationKey(alert))
    requires Decide(alerts, rules, alert).matchedRule.None?
    ensures ApplyDecision(incident, Decide(alerts, rules, alert)).(severity := incident.severity) == incident
  {
    hide Title, CountsOf, HighestSeverity, BuildCorrelationKey;
  }

  // ---------------------------------------------------------------- every step keeps the fold

  lemma DecisionsAppend(results: seq<ResultRow>, row: ResultRow, n: nat)
    ensures DecisionsOf(results + [row], n)
         == if row.incidentId == Some(n) && !IsRecovery(row.eventType) then DecisionsOf(results, n) + [row.decision]
            else DecisionsOf(results, n)
  {
    hide IsRecovery;
    assert (results + [row])[..|results|] == results;
  }

  lemma {:induction false} NoDecisionsYet(results: seq<ResultRow>, n: nat)
    requires forall i :: 0 <= i < |results| && results[i].incidentId.Some? ==> results[i].incidentId.value < n
    ensures DecisionsOf(results, n) == []
  {
    if results != [] { NoDecisionsYet(results[..|results| - 1], n); }
  }

  lemma ApplyFolds(incident: Incident, ds: seq<Decision>, d: Decision)
    requires IncidentFolded(incident, ds) && incident.correlationKey == Some(d.correlationKey)
    ensures IncidentFolded(ApplyDecision(incident, d), ds + [d])
  {
    hide Title;
    assert (ds + [d])[..|ds|] == ds;
  }

  lemma NewIsFolded(id: nat, number: nat, alert: Alert, d: Decision)
    ensures IncidentFolded(NewIncident(id, number, alert, d), [d])
  {
    hide Title, InitialCounters, YearOf;
  }

  /** A transaction that changes one incident and appends one result row. */
  lemma UpdateKeepsFold(db: Db, next: Db, n: nat, updated: Incident, row: ResultRow)
    requires Folded(db) && n < |db.incidents|
    requires next.incidents == db.incidents[n := updated] && next.results == db.results + [row]
    requires row.incidentId == Some(n)
    requires IncidentFolded(updated, DecisionsOf(next.results, n))
    ensures Folded(next)
  {
    forall m | 0 <= m < |next.incidents| ensures IncidentFolded(next.incidents[m], DecisionsOf(next.results, m)) {
      DecisionsAppend(db.results, row, m);
      assert IncidentFolded(db.incidents[m], DecisionsOf(db.results, m));
    }
  }

  lemma CorrelateKeepsFold(db: Db, alert: Alert, d: Decision, n: nat)
    requires Folded(db) && n < |db.incidents| && alert.id < |db.alerts|
    requires !IsRecovery(alert.eventType) && db.incidents[n].correlationKey == Some(d.correlationKey)
    ensures Folded(Correlate(db, alert, d, n))
  {
    hide IsRecovery, ApplyDecision, IncidentFolded;
    var row := ResultRow(alert.id, alert.eventType, Some(n), d);
    assert IncidentFolded(db.incidents[n], DecisionsOf(db.results, n));
    ApplyFolds(db.incidents[n], DecisionsOf(db.results, n), d);
    DecisionsAppend(db.results, row, n);
    UpdateKeepsFold(db, Correlate(db, alert, d, n), n, ApplyDecision(db.incidents[n], d), row);
  }

  lemma RecoverKeepsFold(db: Db, alert: Alert, d: Decision, n: nat)
    requires Folded(db) && n < |db.incidents| && alert.id < |db.alerts| && IsRecovery(alert.eventType)
    ensures Folded(Recover(db, alert, d, n))
  {
    hide IsRecovery;
    var row := ResultRow(alert.id, alert.eventType, Some(n), d);
    assert IncidentFolded(db.incidents[n], DecisionsOf(db.results, n));
    DecisionsAppend(db.results, row, n);
    UpdateKeepsFold(db, Recover(db, alert, d, n), n, db.incidents[n].(status := MONITORING), row);
  }

  lemma CreateKeepsFold(db: Db, alert: Alert, d: Decision)
    requires Folded(db) && ResultsNameIncidents(db) && alert.id < |db.alerts| && !IsRecovery(alert.eventType)
    ensures Folded(Create(db, alert, d))
  {
    hide IsRecovery, IncidentFolded, NewIncident;
    var next, n := Create(db, alert, d), |db.incidents|;
    var row := ResultRow(alert.id, alert.eventType, Some(n), d);
    var number := NumberOf(db.sequences, YearOf(alert.detectedAt)) + 1;
    NewIsFolded(n, number, alert, d);
    NoDecisionsYet(db.results, n);
    forall m | 0 <= m < |next.incidents| ensures IncidentFolded(next.incidents[m], DecisionsOf(next.results, m)) {
      DecisionsAppend(db.results, row, m);
      if m < n {
        assert IncidentFolded(db.incidents[m], DecisionsOf(db.results, m));
      } else {
        assert next.incidents[n] == NewIncident(n, number, alert, d);
        assert DecisionsOf(next.results, n) == [d];
      }
    }
  }

  lemma IgnoreKeepsFold(db: Db, alert: Alert, d: Decision)
    requires Folded(db)
    ensures Folded(RecordDecision(db, alert, None, d))
  {
    hide IsRecovery, IncidentFolded;
    assert RecordDecision(db, alert, None, d).incidents == db.incidents;
    forall m | 0 <= m < |db.incidents|
      ensures IncidentFolded(db.incidents[m], DecisionsOf(RecordDecision(db, alert, None, d).results, m))
    {
      DecisionsAppend(db.results, ResultRow(alert.id, alert.eventType, None, d), m);
      assert IncidentFolded(db.incidents[m], DecisionsOf(db.results, m));
    }
  }

  lemma ProcessKeepsFold(db: Db, id: nat, rules: seq<Rule>, windowMs: int, pick: Option<nat>)
    requires Folded(db) && ResultsNameIncidents(db)
    requires id < |db.alerts| && db.alerts[id].id == id && IsFirst(pick, db, db.alerts[id], windowMs)
    ensures var r := Process(db, id, rules, windowMs, pick);
      r.Committed? ==> Folded(r.db)
  {
    hide Analyze, BuildCorrelationKey, IsRecovery, Correlate, Recover, Create, RecordDecision, NextCode, HasCode;
    var alert := db.alerts[id];
    var d := Analyze(db.alerts, rules, alert, windowMs);
    var r := Process(db, id, rules, windowMs, pick);
    AnalysisKey(db.alerts, rules, alert, windowMs);
    if r.Committed? {
      match r.outcome
      case ALREADY_PROCESSED =>
      case IGNORED => IgnoreKeepsFold(db, alert, d);
      case RECOVERY_DETECTED => RecoverKeepsFold(db, alert, d, pick.value);
      case CREATED => CreateKeepsFold(db, alert, d);
      case CORRELATED =>
        assert IncidentFolded(db.incidents[pick.value], DecisionsOf(db.results, pick.value));
        CorrelateKeepsFold(db, alert, d, pick.value);
    }
  }

  lemma ApplyKeepsFold(db: Db, s: Step, windowMs: int)
    requires Folded(db) && ResultsNameIncidents(db) && Enabled(db, s, windowMs)
    ensures Folded(Apply(db, s, windowMs))
  {
    match s
    case IngestStep(_) =>
    case ProcessStep(id, rules, pick) => ProcessKeepsFold(db, id, rules, windowMs, pick);
    case ChangeStep(id, _, _) => StatusAndCountersAreNotFolded(db, s, windowMs);
    case RefreshStep(id, _) => StatusAndCountersAreNotFolded(db, s, windowMs);
  }

  /** Status changes and impact refreshes touch no field the fold is about. */
  lemma StatusAndCountersAreNotFolded(db: Db, s: Step, windowMs: int)
    requires Folded(db) && Enabled(db, s, windowMs) && (s.ChangeStep? || s.RefreshStep?)
    ensures Folded(Apply(db, s, windowMs))
  {
    var next := Apply(db, s, windowMs);
    forall n | 0 <= n < |next.incidents| ensures IncidentFolded(next.incidents[n], DecisionsOf(next.results, n)) {
      assert IncidentFolded(db.incidents[n], DecisionsOf(db.results, n));
    }
  }
}
