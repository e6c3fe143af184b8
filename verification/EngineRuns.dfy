/** The main results about whole runs of the incident engine. */
module EngineRuns {
  import opened Arithmetic
  import opened Prelude
  import opened Calendar
  import opened Records
  import opened Alerts
  import opened Correlation
  import opened Lifecycle
  import opened IncidentEngine
  import opened EngineInvariants
  import opened Numbering
  import opened Folding
  import opened Separation
  import opened Text
  import Sla

  ghost predicate AllConsistent(db: Db) {
    forall n :: 0 <= n < |db.incidents| ==> Consistent(db.incidents[n], db.clock)
  }

  ghost predicate Inv(db: Db, windowMs: int) {
    TablesOk(db) && Numbered(db) && Folded(db) && Spread(db.incidents, windowMs) && AllConsistent(db)
  }

  /** Every incident of `before` is still there, and became what an incident may become. */
  ghost predicate Grows(before: Db, after: Db) {
    && |before.incidents| <= |after.incidents|
    && (forall n :: 0 <= n < |before.incidents| ==> Later(before.incidents[n], after.incidents[n]))
    && |before.events| <= |after.events| && after.events[..|before.events|] == before.events
  }

  lemma FoldedKeys(db: Db)
    requires Folded(db)
    ensures forall n :: 0 <= n < |db.incidents| ==>
      db.incidents[n].correlationKey.Some? && db.incidents[n].startedAt == db.incidents[n].detectedAt
  {
    forall n | 0 <= n < |db.incidents|
      ensures db.incidents[n].correlationKey.Some? && db.incidents[n].startedAt == db.incidents[n].detectedAt
    {
      var ds := DecisionsOf(db.results, n);
      assert IncidentFolded(db.incidents[n], ds);
      assert db.incidents[n].correlationKey == Some(ds[0].correlationKey);
    }
  }

  // ---------------------------------------------------------------- one step

  lemma UpdateGrows(db: Db, next: Db, n: nat, updated: Incident)
    requires n < |db.incidents| && next.incidents == db.incidents[n := updated]
    requires |db.events| <= |next.events| && next.events[..|db.events|] == db.events
    requires Later(db.incidents[n], updated)
    ensures Grows(db, next)
  {
  }

  lemma UpdateIsConsistent(db: Db, next: Db, n: nat, updated: Incident)
    requires n < |db.incidents| && next.incidents == db.incidents[n := updated]
    requires AllConsistent(db) && db.clock <= next.clock && Consistent(updated, next.clock)
    ensures AllConsistent(next)
  {
  }

  lemma MergedDecisionIsLater(incident: Incident, d: Decision, clock: int)
    requires IsOpen(incident.status) && incident.correlationKey == Some(d.correlationKey) && Consistent(incident, clock)
    ensures Later(incident, ApplyDecision(incident, d)) && Consistent(ApplyDecision(incident, d), clock)
  {
    hide Title;
  }

  lemma MonitoringIsLater(incident: Incident, clock: int)
    requires IsOpen(incident.status) && Consistent(incident, clock)
    ensures Later(incident, incident.(status := MONITORING)) && Consistent(incident.(status := MONITORING), clock)
  {
  }

  lemma ProcessGrows(db: Db, id: nat, rules: seq<Rule>, windowMs: int, pick: Option<nat>)
    requires AllConsistent(db) && Folded(db)
    requires id < |db.alerts| && db.alerts[id].id == id && IsFirst(pick, db, db.alerts[id], windowMs)
    ensures var r := Process(db, id, rules, windowMs, pick);
      r.Committed? ==> Grows(db, r.db) && AllConsistent(r.db)
  {
    hide Analyze, BuildCorrelationKey, IsRecovery, NextCode, HasCode, Folded, ApplyDecision, Later, Consistent,
      IncidentCode, Title, InitialCounters, YearOf;
    var alert := db.alerts[id];
    var d := Analyze(db.alerts, rules, alert, windowMs);
    var r := Process(db, id, rules, windowMs, pick);
    AnalysisKey(db.alerts, rules, alert, windowMs);
    FoldedKeys(db);
    if r.Committed? {
      match r.outcome
      case ALREADY_PROCESSED => SelfGrows(db);
      case IGNORED => SelfGrows(db);
      case CREATED =>
        CreateGrows(db, alert, d);
      case RECOVERY_DETECTED =>
        var n := pick.value;
        MonitoringIsLater(db.incidents[n], db.clock);
        UpdateGrows(db, r.db, n, db.incidents[n].(status := MONITORING));
        UpdateIsConsistent(db, r.db, n, db.incidents[n].(status := MONITORING));
      case CORRELATED =>
        var n := pick.value;
        MergedDecisionIsLater(db.incidents[n], d, db.clock);
        UpdateGrows(db, r.db, n, ApplyDecision(db.incidents[n], d));
        UpdateIsConsistent(db, r.db, n, ApplyDecision(db.incidents[n], d));
    }
  }

  lemma SelfGrows(db: Db)
    ensures Grows(db, db)
  {
  }

  lemma CreateGrows(db: Db, alert: Alert, d: Decision)
    requires AllConsistent(db) && alert.id < |db.alerts|
    ensures Grows(db, Create(db, alert, d)) && AllConsistent(Create(db, alert, d))
  {
    hide IncidentCode, Title, InitialCounters, YearOf;
  }

  lemma ApplyGrows(db: Db, s: Step, windowMs: int)
    requires AllConsistent(db) && Folded(db) && Enabled(db, s, windowMs)
    ensures Grows(db, Apply(db, s, windowMs)) && AllConsistent(Apply(db, s, windowMs))
  {
    match s
    case IngestStep(_) => SelfGrows(db);
    case ProcessStep(id, rules, pick) =>
      ProcessGrows(db, id, rules, windowMs, pick);
      SelfGrows(db);
    case ChangeStep(id, change, now) =>
      SelfGrows(db);
      var r := Transition(db, id, change, now);
      if r.Changed? {
        var updated := ChangeStatus(db.incidents[id], change.status, now);
        ChangeStatusIsLater(db.incidents[id], change.status, now);
        ChangeStatusIsConsistent(db.incidents[id], change.status, db.clock, now);
        hide ChangeStatus, Later;
        ClockMayAdvance(db, now);
        UpdateGrows(db, r.db, id, updated);
        UpdateIsConsistent(db.(clock := now), r.db, id, updated);
      }
    case RefreshStep(id, counters) =>
      var updated := db.incidents[id].(counters := counters);
      UpdateGrows(db, RefreshImpact(db, id, counters), id, updated);
      UpdateIsConsistent(db, RefreshImpact(db, id, counters), id, updated);
  }

  lemma ClockMayAdvance(db: Db, now: int)
    requires AllConsistent(db) && db.clock <= now
    ensures AllConsistent(db.(clock := now))
  {
  }

  lemma ApplyKeepsInv(db: Db, s: Step, windowMs: int)
    requires Inv(db, windowMs) && Enabled(db, s, windowMs)
    ensures Inv(Apply(db, s, windowMs), windowMs)
    ensures Grows(db, Apply(db, s, windowMs))
  {
    FoldedKeys(db);
    ReferencesNameIncidents(db);
    hide Apply, TablesOk, Numbered, Folded, Spread, Grows, Enabled;
    ApplyKeepsTables(db, s, windowMs);
    ApplyKeepsNumbering(db, s, windowMs);
    ApplyKeepsFold(db, s, windowMs);
    ApplyKeepsSpread(db, s, windowMs);
    ApplyGrows(db, s, windowMs);
  }

  lemma ReferencesNameIncidents(db: Db)
    requires TablesOk(db)
    ensures ResultsNameIncidents(db)
  {
  }

  // ---------------------------------------------------------------- whole runs

  lemma EmptyIsGood(clock: int, windowMs: int)
    ensures Inv(EmptyDb(clock), windowMs)
  {
    assert Stamps(EmptyDb(clock).incidents) == [];
  }

  /** Every state of every run satisfies the invariant. */
  lemma {:induction false} RunKeepsInv(states: seq<Db>, steps: seq<Step>, windowMs: int, i: nat)
    requires IsRun(states, steps, windowMs) && i <= |steps|
    ensures Inv(states[i], windowMs)
  {
    hide Inv, Apply, Enabled;
    if i == 0 {
      var clock :| states[0] == EmptyDb(clock);
      EmptyIsGood(clock, windowMs);
    } else {
      RunKeepsInv(states, steps, windowMs, i - 1);
      ApplyKeepsInv(states[i - 1], steps[i - 1], windowMs);
    }
  }

  lemma GrowsIsTransitive(a: Db, b: Db, c: Db)
    requires Grows(a, b) && Grows(b, c)
    ensures Grows(a, c)
  {
    hide Later;
    forall n | 0 <= n < |a.incidents| ensures Later(a.incidents[n], c.incidents[n]) {
      LaterIsTransitive(a.incidents[n], b.incidents[n], c.incidents[n]);
    }
    assert c.events[..|a.events|] == c.events[..|b.events|][..|a.events|];
  }

  lemma {:induction false} RunGrows(states: seq<Db>, steps: seq<Step>, windowMs: int, i: nat, j: nat)
    requires IsRun(states, steps, windowMs) && i <= j <= |steps|
    ensures Grows(states[i], states[j])
    decreases j
  {
    hide Inv, Apply, Enabled, Grows;
    if i == j {
      SelfGrows(states[i]);
    } else {
      RunGrows(states, steps, windowMs, i, j - 1);
      RunKeepsInv(states, steps, windowMs, j - 1);
      ApplyKeepsInv(states[j - 1], steps[j - 1], windowMs);
      GrowsIsTransitive(states[i], states[j - 1], states[j]);
    }
  }

  /**
    Status history: over any mix of operator actions, correlated alerts and recovery alerts,
    CLOSED and FALSE_POSITIVE are absorbing and freeze every field but the impact counters; an
    acknowledgement time never changes once set; and an incident that was ever in progress or
    monitored never becomes a false positive.
  */
  lemma StatusHistory(states: seq<Db>, steps: seq<Step>, windowMs: int, i: nat, j: nat, n: nat)
    requires IsRun(states, steps, windowMs) && i <= j <= |steps| && n < |states[i].incidents|
    ensures n < |states[j].incidents|
    ensures states[i].incidents[n].status in {CLOSED, FALSE_POSITIVE} ==>
      states[j].incidents[n].(counters := states[i].incidents[n].counters) == states[i].incidents[n]
    ensures states[i].incidents[n].acknowledgedAt.Some? ==>
      states[j].incidents[n].acknowledgedAt == states[i].incidents[n].acknowledgedAt
    ensures states[i].incidents[n].status in {IN_PROGRESS, MONITORING} ==>
      states[j].incidents[n].status !in {DETECTED, INVESTIGATING, CONFIRMED, FALSE_POSITIVE}
    ensures states[i].incidents[n].severity.Rank() <= states[j].incidents[n].severity.Rank()
  {
    hide Apply, Enabled;
    RunGrows(states, steps, windowMs, i, j);
    assert Later(states[i].incidents[n], states[j].incidents[n]);
  }

  /** What the status of an incident says about its recorded times, at every moment of every run. */
  lemma RecordedTimes(states: seq<Db>, steps: seq<Step>, windowMs: int, i: nat, n: nat)
    requires IsRun(states, steps, windowMs) && i <= |steps| && n < |states[i].incidents|
    ensures var incident := states[i].incidents[n];
      && incident.startedAt == incident.detectedAt
      && (incident.status in {INVESTIGATING, CONFIRMED} ==> incident.acknowledgedAt.Some?)
      && (incident.status in {RESOLVED, CLOSED} ==> incident.resolvedAt.Some?)
      && (incident.status == FALSE_POSITIVE ==> incident.resolvedAt.None?)
      && (incident.closedAt.Some? <==> incident.status == CLOSED)
      && (incident.status == CLOSED ==>
            && incident.resolvedAt.value <= incident.closedAt.value
            && incident.durationSeconds == Max(0, (incident.closedAt.value - incident.startedAt) / 1000))
  {
    hide Apply, Enabled, TablesOk, Numbered, Folded, Spread;
    RunKeepsInv(states, steps, windowMs, i);
    hide IsRun;
    FoldedKeys(states[i]);
    assert Consistent(states[i].incidents[n], states[i].clock);
  }

  /** An incident is a fold of its history, at every moment of every run. */
  lemma IncidentIsFold(states: seq<Db>, steps: seq<Step>, windowMs: int, i: nat, n: nat) returns (best: nat)
    requires IsRun(states, steps, windowMs) && i <= |steps| && n < |states[i].incidents|
    ensures var incident, ds := states[i].incidents[n], DecisionsOf(states[i].results, n);
      && IsFoldAt(SummaryOf(incident), ds, best)
      && incident.title == Title(incident.oltExternalId, incident.ponIdentifier, incident.incidentType)
      && (forall k :: 0 <= k < |ds| ==> incident.correlationKey == Some(ds[k].correlationKey))
  {
    RunKeepsInv(states, steps, windowMs, i);
    hide IsRun, Apply, Enabled, TablesOk, Numbered, Spread, Title, IsFoldAt;
    assert IncidentFolded(states[i].incidents[n], DecisionsOf(states[i].results, n));
    best := FoldIsMaximum(DecisionsOf(states[i].results, n));
  }

  /** The never-resolved open incidents with the key, detected within the span. */
  function OpenInSpan(incidents: seq<Incident>, key: string, from: int, span: nat): set<nat> {
    set n: nat | n < |incidents| && NeverResolved(incidents[n]) && incidents[n].correlationKey == Some(key)
                 && from <= incidents[n].detectedAt <= from + span
  }

  /**
    Open incidents are spread out: at every moment of every run, two open incidents with the same
    key that were never resolved were detected more than the window apart, so at most
    span / window + 1 of them were detected within any span.
  */
  lemma OpenIncidentsAreSpread(states: seq<Db>, steps: seq<Step>, windowMs: nat, i: nat,
                               key: string, from: int, span: nat)
    requires windowMs > 0 && IsRun(states, steps, windowMs) && i <= |steps|
    ensures PairwiseApart(OpenInSpan(states[i].incidents, key, from, span), states[i].incidents, windowMs)
    ensures |OpenInSpan(states[i].incidents, key, from, span)| <= Quotient(span, windowMs) + 1
  {
    RunKeepsInv(states, steps, windowMs, i);
    hide IsRun, Apply, Enabled, TablesOk, Numbered, Folded;
    SpreadRows(states[i].incidents, windowMs, key, from, span);
    hide Spread, PairwiseApart;
    FewInASpan(OpenInSpan(states[i].incidents, key, from, span), states[i].incidents, from, span, windowMs);
  }

  lemma SpreadRows(incidents: seq<Incident>, windowMs: nat, key: string, from: int, span: nat)
    requires Spread(incidents, windowMs)
    ensures PairwiseApart(OpenInSpan(incidents, key, from, span), incidents, windowMs)
  {
    hide NeverResolved, Apart;
    var rows := OpenInSpan(incidents, key, from, span);
    forall a, b | a in rows && b in rows && a < b
      ensures Apart(incidents[a], incidents[b], windowMs) && Apart(incidents[b], incidents[a], windowMs)
    {
      ApartIsSymmetric(incidents[a], incidents[b], windowMs);
    }
  }

  lemma ApartIsSymmetric(a: Incident, b: Incident, windowMs: int)
    ensures Apart(a, b, windowMs) <==> Apart(b, a, windowMs)
  {
  }

  /** Codes: at every moment of every run the numbers issued for a year are 1, 2, ..., nextNumber, each once. */
  lemma CodesAreDenseAndUnique(states: seq<Db>, steps: seq<Step>, windowMs: int, i: nat, year: int, number: nat)
    requires IsRun(states, steps, windowMs) && i <= |steps|
    ensures HasCode(states[i].incidents, IncidentCode(year, number))
      <==> 1 <= number <= NumberOf(states[i].sequences, year)
    ensures forall a, b :: 0 <= a < b < |states[i].incidents| ==>
      states[i].incidents[a].code != states[i].incidents[b].code
  {
    RunKeepsInv(states, steps, windowMs, i);
    hide IsRun, Apply, Enabled, TablesOk, Folded, Spread, IncidentCode;
    NumbersAreDense(states[i], year, number);
    forall a, b | 0 <= a < b < |states[i].incidents|
      ensures states[i].incidents[a].code != states[i].incidents[b].code
    {
      CodesAreUnique(Stamps(states[i].incidents), a, b);
    }
  }

  // ---------------------------------------------------------------- exactly once

  /** When a transaction aborts: exactly for a recovery alert that was already analysed but linked to nothing. */
  lemma AbortsExactly(db: Db, id: nat, rules: seq<Rule>, windowMs: int, pick: Option<nat>)
    requires Inv(db, windowMs) && id < |db.alerts| && IsFirst(pick, db, db.alerts[id], windowMs)
    ensures Process(db, id, rules, windowMs, pick).Aborted?
      <==> IsRecovery(db.alerts[id].eventType) && HasResult(db.results, id) && !HasEvent(db.events, id)
  {
    NextCodeIsFree(db, db.alerts[id]);
    hide Analyze, NextCode, HasCode, Numbered, Folded, Spread, Create, Correlate, Recover;
  }

  lemma EffectLinks(db: Db, id: nat, rules: seq<Rule>, windowMs: int, pick: Option<nat>)
    requires id < |db.alerts| && db.alerts[id].id == id && (pick.Some? ==> pick.value < |db.incidents|)
    ensures var r := Process(db, id, rules, windowMs, pick);
      && (r.Committed? && r.outcome != IGNORED ==> HasEvent(r.db.events, id))
      && (HasEvent(db.events, id) ==> r.Committed? && r.db == db && r.outcome == ALREADY_PROCESSED)
  {
    hide Analyze, NextCode, HasCode, YearOf, Title, IncidentCode, InitialCounters, ApplyDecision;
    var r := Process(db, id, rules, windowMs, pick);
    if r.Committed? && r.outcome != IGNORED && r.outcome != ALREADY_PROCESSED {
      assert r.db.events[|db.events|].alertId == id;
    }
  }

  /** The alert is linked to this incident. */
  predicate LinksAlert(events: seq<EventRow>, id: nat, n: nat) {
    exists k :: 0 <= k < |events| && events[k].alertId == id && events[k].incidentId == n
  }

  /**
    What the answer of a transaction tells: ALREADY_PROCESSED that the alert was linked before, CREATED
    that there is one incident more, the two recovery answers that the alert is a recovery; and the
    incident of the answer, which only IGNORED does not have, is one that the alert is linked to.
  */
  lemma ProcessTells(db: Db, id: nat, rules: seq<Rule>, windowMs: int, pick: Option<nat>)
    requires id < |db.alerts| && db.alerts[id].id == id && (pick.Some? ==> pick.value < |db.incidents|)
    ensures var r := Process(db, id, rules, windowMs, pick);
      r.Committed? ==>
        && (r.outcome == ALREADY_PROCESSED <==> HasEvent(db.events, id))
        && (r.outcome == CREATED <==> |r.db.incidents| == |db.incidents| + 1)
        && (r.outcome != CREATED ==> |r.db.incidents| == |db.incidents|)
        && (r.outcome == CREATED ==> r.incidentId == Some(|db.incidents|))
        && (r.outcome in {RECOVERY_DETECTED, IGNORED}
            <==> IsRecovery(db.alerts[id].eventType) && !HasEvent(db.events, id))
        && (r.outcome == IGNORED <==> r.incidentId.None?)
        && (r.incidentId.Some? ==> LinksAlert(r.db.events, id, r.incidentId.value))
  {
    hide Analyze, NextCode, HasCode, YearOf, Title, IncidentCode, InitialCounters, ApplyDecision, IsRecovery, HasResult;
    var r := Process(db, id, rules, windowMs, pick);
    if r.Committed? && r.incidentId.Some? && r.outcome != ALREADY_PROCESSED {
      assert r.db.events[|db.events|] == EventRow(r.incidentId.value, id, db.alerts[id].eventType,
                                                  db.alerts[id].detectedAt);
    }
  }

  /**
    The incident is open and has the alert's key; and unless the alert is a recovery, it is not detected
    more than a window before it, and may also have no key but the same OLT and PON.
  */
  ghost predicate Reachable(incident: Incident, alert: Alert, windowMs: int) {
    && incident.status in {DETECTED, INVESTIGATING, CONFIRMED, IN_PROGRESS, MONITORING}
    && if IsRecovery(alert.eventType) then incident.correlationKey == Some(BuildCorrelationKey(alert))
       else
         && incident.detectedAt >= alert.detectedAt - windowMs
         && (incident.correlationKey == Some(BuildCorrelationKey(alert))
             || (incident.correlationKey == None
                 && incident.oltExternalId == alert.oltExternalId && incident.ponIdentifier == alert.ponIdentifier))
  }

  lemma ReachableExactly(incident: Incident, alert: Alert, windowMs: int)
    ensures Reachable(incident, alert, windowMs) <==>
      if IsRecovery(alert.eventType) then Recoverable(incident, BuildCorrelationKey(alert))
      else Joinable(incident, alert, BuildCorrelationKey(alert), windowMs)
  {
    hide BuildCorrelationKey, IsRecovery;
    OpenExactly(incident.status);
  }

  lemma OpenExactly(status: IncidentStatus)
    ensures IsOpen(status) <==> status in {DETECTED, INVESTIGATING, CONFIRMED, IN_PROGRESS, MONITORING}
  {
    if IsOpen(status) {
      assert status.DETECTED? || status.INVESTIGATING? || status.CONFIRMED? || status.IN_PROGRESS?
        || status.MONITORING?;
    }
  }

  lemma PickIsExact(db: Db, alert: Alert, windowMs: int, pick: Option<nat>)
    requires IsFirst(pick, db, alert, windowMs)
    ensures pick.None? <==> forall n :: 0 <= n < |db.incidents| ==> !Reachable(db.incidents[n], alert, windowMs)
    ensures pick.Some? ==> pick.value < |db.incidents| && Reachable(db.incidents[pick.value], alert, windowMs)
    ensures pick.Some? ==>
      forall n :: 0 <= n < |db.incidents| && Reachable(db.incidents[n], alert, windowMs) ==>
        if IsRecovery(alert.eventType) then db.incidents[n].detectedAt <= db.incidents[pick.value].detectedAt
        else db.incidents[pick.value].detectedAt <= db.incidents[n].detectedAt
  {
    hide Reachable, Joinable, Recoverable, BuildCorrelationKey, IsRecovery;
    forall n | 0 <= n < |db.incidents|
      ensures Reachable(db.incidents[n], alert, windowMs) <==>
        if IsRecovery(alert.eventType) then Recoverable(db.incidents[n], BuildCorrelationKey(alert))
        else Joinable(db.incidents[n], alert, BuildCorrelationKey(alert), windowMs)
    {
      ReachableExactly(db.incidents[n], alert, windowMs);
    }
  }

  lemma AnswersPick(db: Db, id: nat, rules: seq<Rule>, windowMs: int, pick: Option<nat>)
    requires id < |db.alerts| && db.alerts[id].id == id && (pick.Some? ==> pick.value < |db.incidents|)
    requires !HasEvent(db.events, id)
    ensures var r := Process(db, id, rules, windowMs, pick);
      r.Committed? ==>
        && r.outcome == (if IsRecovery(db.alerts[id].eventType) then (if pick.None? then IGNORED else RECOVERY_DETECTED)
                         else if pick.None? then CREATED else CORRELATED)
        && (pick.Some? ==> r.incidentId == pick)
  {
    hide Analyze, NextCode, HasCode, Create, Correlate, Recover, IsRecovery, HasResult, RecordDecision;
  }

  /**
    Which incident a transaction concerns. A recovery concerns an open incident of its key detected
    last, however long ago. Any other alert joins an open incident of its key detected first, within
    the window, and makes a new one exactly when there is none.
  */
  lemma ConcernsFirstOrLast(db: Db, id: nat, rules: seq<Rule>, windowMs: int, pick: Option<nat>)
    requires id < |db.alerts| && db.alerts[id].id == id && IsFirst(pick, db, db.alerts[id], windowMs)
    requires !HasEvent(db.events, id)
    ensures var r, alert := Process(db, id, rules, windowMs, pick), db.alerts[id];
      r.Committed? ==>
        && (r.outcome in {CREATED, IGNORED}
            <==> forall n :: 0 <= n < |db.incidents| ==> !Reachable(db.incidents[n], alert, windowMs))
        && (r.outcome in {CORRELATED, RECOVERY_DETECTED} ==>
              && r.incidentId.Some? && r.incidentId.value < |db.incidents|
              && Reachable(db.incidents[r.incidentId.value], alert, windowMs))
        && (forall n :: 0 <= n < |db.incidents| && Reachable(db.incidents[n], alert, windowMs) ==>
              && (r.outcome == CORRELATED ==>
                    db.incidents[r.incidentId.value].detectedAt <= db.incidents[n].detectedAt)
              && (r.outcome == RECOVERY_DETECTED ==>
                    db.incidents[n].detectedAt <= db.incidents[r.incidentId.value].detectedAt))
  {
    hide Process, Reachable, HasEvent, IsFirst, IsRecovery;
    PickIsExact(db, db.alerts[id], windowMs, pick);
    AnswersPick(db, id, rules, windowMs, pick);
  }

  /** The row that records an analysis names the rule that applied. */
  predicate AnalysisRow(row: TimelineRow, n: nat, d: Decision) {
    && row.incidentId == n && row.eventType == "CORRELATION_ANALYZED" && row.performedBy == "SYSTEM"
    && row.description == None
    && (d.matchedRule.None? ==> row.title == "No correlation rule matched")
    && (d.matchedRule.Some? ==> row.title == "Correlation rule applied: " + d.matchedRule.value.name)
  }

  /** The row that announces a link carries the alert's message. */
  predicate LinkRow(row: TimelineRow, n: nat, alert: Alert, outcome: Outcome) {
    && row.incidentId == n && row.description == alert.message && row.performedBy == "SYSTEM"
    && (outcome == CREATED ==> row.eventType == "INCIDENT_CREATED" && row.title == "Incident created from alert")
    && (outcome == CORRELATED ==> row.eventType == "ALERT_CORRELATED" && row.title == "Alert correlated")
    && (outcome == RECOVERY_DETECTED ==>
          row.eventType == "RECOVERY_DETECTED"
          && row.title == "Recovery alert received; incident moved to monitoring")
  }

  /** One analysed alert, linked to incident n. */
  predicate RowsAdded(db: Db, next: Db, alert: Alert, n: nat, d: Decision, outcome: Outcome) {
    && next.results == db.results + [ResultRow(alert.id, alert.eventType, Some(n), d)]
    && next.events == db.events + [EventRow(n, alert.id, alert.eventType, alert.detectedAt)]
    && |next.timeline| == |db.timeline| + 2 && db.timeline <= next.timeline
    && LinkRow(next.timeline[|db.timeline|], n, alert, outcome)
    && AnalysisRow(next.timeline[|db.timeline| + 1], n, d)
  }

  lemma CreateAddsRows(db: Db, alert: Alert, d: Decision)
    requires alert.id < |db.alerts|
    ensures RowsAdded(db, Create(db, alert, d), alert, |db.incidents|, d, CREATED)
  {
    hide NewIncident, MarkCorrelated, YearOf;
  }

  lemma CorrelateAddsRows(db: Db, alert: Alert, d: Decision, n: nat)
    requires alert.id < |db.alerts| && n < |db.incidents|
    ensures RowsAdded(db, Correlate(db, alert, d, n), alert, n, d, CORRELATED)
  {
    hide ApplyDecision, MarkCorrelated;
  }

  lemma RecoverAddsRows(db: Db, alert: Alert, d: Decision, n: nat)
    requires alert.id < |db.alerts| && n < |db.incidents|
    ensures RowsAdded(db, Recover(db, alert, d, n), alert, n, d, RECOVERY_DETECTED)
  {
    hide MarkCorrelated;
  }

  /**
    What a transaction adds to the result, link and timeline tables: the analysis, and with a link the
    row that announces it and the row that names the rule that applied.
  */
  lemma ProcessWritesRows(db: Db, id: nat, rules: seq<Rule>, windowMs: int, pick: Option<nat>)
    requires id < |db.alerts| && db.alerts[id].id == id && (pick.Some? ==> pick.value < |db.incidents|)
    ensures var r, alert := Process(db, id, rules, windowMs, pick), db.alerts[id];
      var d := Analyze(db.alerts, rules, alert, windowMs);
      r.Committed? ==>
        && (r.outcome == ALREADY_PROCESSED ==> r.db == db)
        && (r.outcome == IGNORED ==> r.db == db.(results := db.results + [ResultRow(id, alert.eventType, None, d)]))
        && (r.outcome in {CREATED, CORRELATED, RECOVERY_DETECTED} ==>
              r.incidentId.Some? && RowsAdded(db, r.db, alert, r.incidentId.value, d, r.outcome))
  {
    hide Analyze, NextCode, HasCode, HasEvent, HasResult, IsRecovery, Create, Correlate, Recover, RowsAdded;
    var alert := db.alerts[id];
    var d := Analyze(db.alerts, rules, alert, windowMs);
    CreateAddsRows(db, alert, d);
    if pick.Some? {
      CorrelateAddsRows(db, alert, d, pick.value);
      RecoverAddsRows(db, alert, d, pick.value);
    }
    assert db.timeline + [] == db.timeline;
  }

  /** No two statuses have the same name in the timeline. */
  lemma StatusNamesDiffer(s: IncidentStatus, t: IncidentStatus)
    ensures StatusName(s) == StatusName(t) ==> s == t
  {
    assert |StatusName(s)| > 4 && |StatusName(t)| > 4;
  }

  /** The title of an incident names its type, its OLT and its PON. */
  lemma TitleSays(olt: Option<string>, pon: Option<string>, t: IncidentType, name: string)
    requires name == match t
                     case ONU => "ONU"
                     case PON => "PON"
                     case OLT => "OLT"
                     case UPLINK => "UPLINK"
                     case NETWORK => "NETWORK"
                     case UNKNOWN => "UNKNOWN"
    ensures Title(olt, pon, t)
         == name + " incident: " + (if olt.None? then "Unknown OLT" else olt.value)
            + if pon.None? || pon.value == "" then "" else " PON " + pon.value
  {
    assert TypeName(t) == name;
    hide TypeName;
  }

  lemma LinksStay(before: Db, after: Db, id: nat)
    requires Grows(before, after) && HasEvent(before.events, id)
    ensures HasEvent(after.events, id)
  {
    var k :| 0 <= k < |before.events| && before.events[k].alertId == id;
    assert after.events[..|before.events|][k] == after.events[k];
  }

  ghost function ResultAt(states: seq<Db>, steps: seq<Step>, windowMs: int, i: nat): Processed
    requires IsRun(states, steps, windowMs) && i < |steps| && steps[i].ProcessStep?
  {
    Process(states[i], steps[i].alertId, steps[i].rules, windowMs, steps[i].pick)
  }

  lemma AdmittedIsNeverIgnored(db: Db, id: nat, rules: seq<Rule>, windowMs: int, pick: Option<nat>)
    requires id < |db.alerts| && db.alerts[id].id == id && (pick.Some? ==> pick.value < |db.incidents|)
    requires !IsRecovery(db.alerts[id].eventType)
    ensures var r := Process(db, id, rules, windowMs, pick);
      r.Committed? ==> r.outcome in {CREATED, CORRELATED, ALREADY_PROCESSED}
  {
    hide Analyze, NextCode, HasCode, Create, Correlate, Recover;
  }

  /** An attempt on an alert of an admitted type never aborts and leaves the alert linked. */
  lemma AttemptLinks(db: Db, id: nat, rules: seq<Rule>, windowMs: int, pick: Option<nat>)
    requires Inv(db, windowMs) && id < |db.alerts| && IsFirst(pick, db, db.alerts[id], windowMs)
    requires Admitted(db.alerts[id].eventType)
    ensures var r := Process(db, id, rules, windowMs, pick);
      r.Committed? && HasEvent(r.db.events, id)
  {
    AdmittedIsNotRecovery(db.alerts[id].eventType);
    AbortsExactly(db, id, rules, windowMs, pick);
    hide Process, HasEvent, HasResult, IsRecovery, Admitted;
    AdmittedIsNeverIgnored(db, id, rules, windowMs, pick);
    EffectLinks(db, id, rules, windowMs, pick);
  }

  /**
    Over a whole run an alert of an admitted type is processed with effect at most once: after its
    first transaction every further one answers ALREADY_PROCESSED and changes no table, and no
    attempt ever aborts.
  */
  lemma ExactlyOnceEffect(states: seq<Db>, steps: seq<Step>, windowMs: int, i: nat, j: nat)
    requires IsRun(states, steps, windowMs) && i < j < |steps|
    requires steps[i].ProcessStep? && steps[j].ProcessStep? && steps[i].alertId == steps[j].alertId
    requires Admitted(states[i].alerts[steps[i].alertId].eventType)
    ensures ResultAt(states, steps, windowMs, i).Committed?
    ensures ResultAt(states, steps, windowMs, j).Committed?
    ensures ResultAt(states, steps, windowMs, j).outcome == ALREADY_PROCESSED
    ensures states[j + 1] == states[j]
  {
    var id := steps[i].alertId;
    hide Process, Inv, Grows, HasEvent, Admitted, IsFirst, IsRecovery;
    assert Enabled(states[i], steps[i], windowMs) && Enabled(states[j], steps[j], windowMs);
    assert states[i + 1] == Apply(states[i], steps[i], windowMs)
      && states[j + 1] == Apply(states[j], steps[j], windowMs);
    RunKeepsInv(states, steps, windowMs, i);
    AttemptLinks(states[i], id, steps[i].rules, windowMs, steps[i].pick);
    RunGrows(states, steps, windowMs, i + 1, j);
    LinksStay(states[i + 1], states[j], id);
    hide IsRun;
    PicksExist(states[j], steps[j], windowMs);
    EffectLinks(states[j], id, steps[j].rules, windowMs, steps[j].pick);
  }

  lemma PicksExist(db: Db, s: Step, windowMs: int)
    requires Enabled(db, s, windowMs) && s.ProcessStep?
    ensures s.alertId < |db.alerts| && db.alerts[s.alertId].id == s.alertId
    ensures s.pick.Some? ==> s.pick.value < |db.incidents|
  {
  }

  /** Ingesting an event id twice stores one alert, and the second attempt changes nothing. */
  lemma IngestIsIdempotent(db: Db, e: Event, again: Event)
    requires again.eventId == e.eventId
    ensures var first := Ingest(db, e);
      var second := Ingest(first.db, again);
      && second.db == first.db && !second.created
      && (first.created <==> forall k :: 0 <= k < |db.alerts| ==> db.alerts[k].externalEventId != e.eventId)
      && (forall k, m :: 0 <= k < m < |first.db.alerts| && UniqueColumns(db) ==>
            first.db.alerts[k].externalEventId != first.db.alerts[m].externalEventId)
      && first.db.alerts[first.alertId].externalEventId == e.eventId
  {
    var first := Ingest(db, e);
    assert first.db.alerts[first.alertId].externalEventId == e.eventId;
  }

  // ---------------------------------------------------------------- the analytics prefilter, over runs

  /** For the incidents of any run the date filter of the availability query never changes the downtime. */
  lemma AvailabilityQueryIsSound(states: seq<Db>, steps: seq<Step>, windowMs: int, i: nat, p: Sla.Period)
    requires IsRun(states, steps, windowMs) && i <= |steps| && p.Valid()
    ensures Sla.IncidentDowntime(Sla.SelectLive(states[i].incidents, p), p)
         == Sla.IncidentDowntime(states[i].incidents, p)
  {
    RunKeepsInv(states, steps, windowMs, i);
    FoldedKeys(states[i]);
    hide IsRun, Apply, Enabled, TablesOk, Numbered, Folded, Spread;
    Sla.PrefilterKeepsDowntime(states[i].incidents, p);
  }
}
