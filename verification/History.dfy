/**
  The trail an incident leaves: which alerts are linked to it and why, what the status of an alert
  says, what the timeline records, and that none of it is ever taken back.
*/
module History {
  import opened Prelude
  import opened Records
  import opened Alerts
  import opened Correlation
  import opened Lifecycle
  import opened IncidentEngine
  import opened EngineInvariants
  import opened EngineRuns
  import Calendar
  import Folding
  import Numbering
  import Separation

  // ---------------------------------------------------------------- what is kept

  /** The status tells whether a non-recovery alert is linked, and a recovery is resolved from the start. */
  ghost predicate StatusTells(alert: Alert, linked: bool) {
    && (alert.status == ALERT_RESOLVED <==> IsRecovery(alert.eventType))
    && (alert.status == ALERT_CORRELATED <==> !IsRecovery(alert.eventType) && linked)
    && alert.resolvedAt == if IsRecovery(alert.eventType) then Some(alert.detectedAt) else None
  }

  /** The alert belongs to the incident: same key, and not detected later than a window after it. */
  ghost predicate Belongs(alert: Alert, incident: Incident, windowMs: int) {
    && incident.correlationKey == Some(BuildCorrelationKey(alert))
    && (!IsRecovery(alert.eventType) ==> alert.detectedAt <= incident.detectedAt + windowMs)
  }

  ghost predicate LinkOk(db: Db, e: EventRow, windowMs: int) {
    && e.alertId < |db.alerts| && e.incidentId < |db.incidents|
    && e.eventType == db.alerts[e.alertId].eventType && e.occurredAt == db.alerts[e.alertId].detectedAt
    && Belongs(db.alerts[e.alertId], db.incidents[e.incidentId], windowMs)
  }

  /** The incident was made from this alert. */
  ghost predicate MadeFrom(incident: Incident, alert: Alert) {
    && !IsRecovery(alert.eventType)
    && incident.detectedAt == alert.detectedAt
    && incident.oltExternalId == alert.oltExternalId && incident.ponIdentifier == alert.ponIdentifier
    && incident.onuSerial == alert.onuSerial && incident.description == alert.message
  }

  /** The k-th link is the first one of incident n, and the incident was made from its alert. */
  ghost predicate FoundedBy(db: Db, n: nat, k: nat) {
    && n < |db.incidents| && k < |db.events|
    && db.events[k].incidentId == n && (forall j :: 0 <= j < k ==> db.events[j].incidentId != n)
    && db.events[k].alertId < |db.alerts| && MadeFrom(db.incidents[n], db.alerts[db.events[k].alertId])
  }

  ghost predicate Founded(db: Db, n: nat) { exists k: nat :: FoundedBy(db, n, k) }

  function CountLinks(events: seq<EventRow>, n: nat): nat {
    if events == [] then 0
    else CountLinks(events[..|events| - 1], n) + if events[|events| - 1].incidentId == n then 1 else 0
  }

  function CountRows(timeline: seq<TimelineRow>, n: nat, types: set<string>): nat {
    if timeline == [] then 0
    else
      var last := timeline[|timeline| - 1];
      CountRows(timeline[..|timeline| - 1], n, types) + if last.incidentId == n && last.eventType in types then 1 else 0
  }

  const LINK_ROWS := {"INCIDENT_CREATED", "ALERT_CORRELATED", "RECOVERY_DETECTED"}
  const ANALYSIS_ROWS := {"CORRELATION_ANALYZED"}
  const CREATION_ROWS := {"INCIDENT_CREATED"}

  /** One timeline row and one analysis row per link, and one creation row per incident. */
  ghost predicate Recorded(db: Db, n: nat) {
    && CountRows(db.timeline, n, LINK_ROWS) == CountLinks(db.events, n)
    && CountRows(db.timeline, n, ANALYSIS_ROWS) == CountLinks(db.events, n)
    && CountRows(db.timeline, n, CREATION_ROWS) == if n < |db.incidents| then 1 else 0
  }

  ghost predicate StatusesTell(db: Db) {
    forall a :: 0 <= a < |db.alerts| ==> StatusTells(db.alerts[a], HasEvent(db.events, a))
  }

  ghost predicate LinksOk(db: Db, windowMs: int) {
    forall k :: 0 <= k < |db.events| ==> LinkOk(db, db.events[k], windowMs)
  }

  ghost predicate AllFounded(db: Db) { forall n: nat :: n < |db.incidents| ==> Founded(db, n) }

  ghost predicate AllRecorded(db: Db) { forall n: nat :: Recorded(db, n) }

  ghost predicate Trail(db: Db, windowMs: int) {
    StatusesTell(db) && LinksOk(db, windowMs) && AllFounded(db) && AllRecorded(db)
  }

  // ---------------------------------------------------------------- appending

  predicate SameAlert(a: Alert, b: Alert) { a.(status := b.status) == b }

  /** What no transaction changes about an incident. */
  predicate SameOrigin(a: Incident, b: Incident) {
    && a.detectedAt == b.detectedAt && a.correlationKey == b.correlationKey
    && a.oltExternalId == b.oltExternalId && a.ponIdentifier == b.ponIdentifier
    && a.onuSerial == b.onuSerial && a.description == b.description
  }

  /** Rows are only added; an alert changes only its status, an incident nothing of its origin. */
  ghost predicate Appends(before: Db, after: Db) {
    && |before.alerts| <= |after.alerts|
    && (forall a :: 0 <= a < |before.alerts| ==> SameAlert(before.alerts[a], after.alerts[a]))
    && |before.incidents| <= |after.incidents|
    && (forall n :: 0 <= n < |before.incidents| ==> SameOrigin(before.incidents[n], after.incidents[n]))
    && before.events <= after.events && before.results <= after.results && before.timeline <= after.timeline
  }

  lemma SameAlertSameKey(a: Alert, b: Alert)
    requires SameAlert(a, b)
    ensures BuildCorrelationKey(a) == BuildCorrelationKey(b)
  {
  }

  lemma BelongsStays(alert: Alert, incident: Incident, laterAlert: Alert, laterIncident: Incident, windowMs: int)
    requires Belongs(alert, incident, windowMs)
    requires SameAlert(alert, laterAlert) && SameOrigin(incident, laterIncident)
    ensures Belongs(laterAlert, laterIncident, windowMs)
  {
    SameAlertSameKey(alert, laterAlert);
    hide BuildCorrelationKey, IsRecovery;
  }

  lemma LinkStays(before: Db, after: Db, e: EventRow, windowMs: int)
    requires LinkOk(before, e, windowMs) && Appends(before, after)
    ensures LinkOk(after, e, windowMs)
  {
    hide Belongs;
    assert SameAlert(before.alerts[e.alertId], after.alerts[e.alertId]);
    assert SameOrigin(before.incidents[e.incidentId], after.incidents[e.incidentId]);
    BelongsStays(before.alerts[e.alertId], before.incidents[e.incidentId],
                 after.alerts[e.alertId], after.incidents[e.incidentId], windowMs);
  }

  lemma MadeFromStays(incident: Incident, alert: Alert, laterIncident: Incident, laterAlert: Alert)
    requires MadeFrom(incident, alert) && SameAlert(alert, laterAlert) && SameOrigin(incident, laterIncident)
    ensures MadeFrom(laterIncident, laterAlert)
  {
    hide IsRecovery;
  }

  lemma FoundedStays(before: Db, after: Db, n: nat)
    requires Founded(before, n) && Appends(before, after)
    ensures Founded(after, n)
  {
    var k: nat :| FoundedBy(before, n, k);
    var a := before.events[k].alertId;
    MadeFromStays(before.incidents[n], before.alerts[a], after.incidents[n], after.alerts[a]);
    hide MadeFrom, SameAlert, SameOrigin;
    assert FoundedBy(after, n, k);
  }

  lemma {:induction false} AppendLink(events: seq<EventRow>, e: EventRow, n: nat)
    ensures CountLinks(events + [e], n) == CountLinks(events, n) + if e.incidentId == n then 1 else 0
  {
    assert (events + [e])[..|events|] == events;
  }

  lemma {:induction false} AppendRow(timeline: seq<TimelineRow>, row: TimelineRow, n: nat, types: set<string>)
    ensures CountRows(timeline + [row], n, types)
         == CountRows(timeline, n, types) + if row.incidentId == n && row.eventType in types then 1 else 0
  {
    assert (timeline + [row])[..|timeline|] == timeline;
  }

  // ---------------------------------------------------------------- one link

  /** What a linking transaction adds: a link, the row that announces it, and the row of its analysis. */
  ghost predicate LinkAdded(db: Db, next: Db, alert: Alert, n: nat, kind: string) {
    && alert.id < |db.alerts| && db.alerts[alert.id] == alert
    && next.alerts == MarkCorrelated(db.alerts, alert.id)
    && next.events == db.events + [EventRow(n, alert.id, alert.eventType, alert.detectedAt)]
    && db.results <= next.results
    && (exists announced, analysed ::
          TwoRows(announced, analysed, n, kind) && next.timeline == (db.timeline + [announced]) + [analysed])
  }

  predicate TwoRows(announced: TimelineRow, analysed: TimelineRow, n: nat, kind: string) {
    && announced.incidentId == n && announced.eventType == kind
    && analysed.incidentId == n && analysed.eventType == "CORRELATION_ANALYZED"
  }

  lemma TransactionsAddLinks(db: Db, alert: Alert, d: Decision, n: nat)
    requires alert.id < |db.alerts| && db.alerts[alert.id] == alert
    ensures n < |db.incidents| ==> LinkAdded(db, Correlate(db, alert, d, n), alert, n, "ALERT_CORRELATED")
    ensures n < |db.incidents| ==> LinkAdded(db, Recover(db, alert, d, n), alert, n, "RECOVERY_DETECTED")
    ensures LinkAdded(db, Create(db, alert, d), alert, |db.incidents|, "INCIDENT_CREATED")
  {
    hide ApplyDecision, NewIncident, MarkCorrelated;
    if n < |db.incidents| {
      RowsOfLink(db, Correlate(db, alert, d, n), n, "ALERT_CORRELATED");
      RowsOfLink(db, Recover(db, alert, d, n), n, "RECOVERY_DETECTED");
    }
    RowsOfLink(db, Create(db, alert, d), |db.incidents|, "INCIDENT_CREATED");
  }

  lemma RowsOfLink(db: Db, next: Db, n: nat, kind: string)
    requires |next.timeline| == |db.timeline| + 2 && db.timeline <= next.timeline
    requires TwoRows(next.timeline[|db.timeline|], next.timeline[|db.timeline| + 1], n, kind)
    ensures exists announced, analysed ::
      TwoRows(announced, analysed, n, kind) && next.timeline == (db.timeline + [announced]) + [analysed]
  {
    var announced, analysed := next.timeline[|db.timeline|], next.timeline[|db.timeline| + 1];
    assert next.timeline == (db.timeline + [announced]) + [analysed];
  }

  lemma LinkKeepsStatuses(db: Db, next: Db, alert: Alert, n: nat, kind: string)
    requires StatusesTell(db) && LinkAdded(db, next, alert, n, kind)
    ensures StatusesTell(next)
    ensures forall a :: 0 <= a < |db.alerts| ==> SameAlert(db.alerts[a], next.alerts[a])
  {
    hide HasEvent, IsRecovery;
    var e := EventRow(n, alert.id, alert.eventType, alert.detectedAt);
    forall a | 0 <= a < |next.alerts|
      ensures StatusTells(next.alerts[a], HasEvent(next.events, a)) && SameAlert(db.alerts[a], next.alerts[a])
    {
      EventAppended(db.events, e, a);
      assert StatusTells(db.alerts[a], HasEvent(db.events, a));
    }
  }

  lemma LinkKeepsRecords(db: Db, next: Db, alert: Alert, n: nat, kind: string)
    requires AllRecorded(db) && LinkAdded(db, next, alert, n, kind)
    requires kind in LINK_ROWS
    requires if kind == "INCIDENT_CREATED" then n == |db.incidents| && |next.incidents| == n + 1
             else n < |db.incidents| && |next.incidents| == |db.incidents|
    ensures AllRecorded(next)
  {
    var announced, analysed :|
      TwoRows(announced, analysed, n, kind) && next.timeline == (db.timeline + [announced]) + [analysed];
    hide CountRows, CountLinks, MarkCorrelated;
    forall m: nat ensures Recorded(next, m) {
      assert Recorded(db, m);
      AppendLink(db.events, next.events[|db.events|], m);
      AppendRows(db.timeline, announced, analysed, m, LINK_ROWS);
      AppendRows(db.timeline, announced, analysed, m, ANALYSIS_ROWS);
      AppendRows(db.timeline, announced, analysed, m, CREATION_ROWS);
    }
  }

  lemma AppendRows(timeline: seq<TimelineRow>, first: TimelineRow, second: TimelineRow, n: nat, types: set<string>)
    ensures CountRows((timeline + [first]) + [second], n, types)
         == CountRows(timeline, n, types) + (if first.incidentId == n && first.eventType in types then 1 else 0)
            + if second.incidentId == n && second.eventType in types then 1 else 0
  {
    AppendRow(timeline, first, n, types);
    AppendRow(timeline + [first], second, n, types);
  }

  lemma LinkKeepsLinks(db: Db, next: Db, alert: Alert, n: nat, kind: string, windowMs: int)
    requires LinksOk(db, windowMs) && LinkAdded(db, next, alert, n, kind) && Appends(db, next)
    requires n < |next.incidents| && Belongs(next.alerts[alert.id], next.incidents[n], windowMs)
    ensures LinksOk(next, windowMs)
  {
    hide Appends, Belongs;
    forall k | 0 <= k < |next.events| ensures LinkOk(next, next.events[k], windowMs) {
      if k < |db.events| { LinkStays(db, next, db.events[k], windowMs); }
    }
  }

  /** A link to an incident that already exists. */
  lemma JoinKeepsTrail(db: Db, next: Db, alert: Alert, n: nat, updated: Incident, kind: string, windowMs: int)
    requires Trail(db, windowMs) && LinkAdded(db, next, alert, n, kind)
    requires n < |db.incidents| && next.incidents == db.incidents[n := updated]
    requires kind in LINK_ROWS && kind != "INCIDENT_CREATED"
    requires SameOrigin(db.incidents[n], updated) && Belongs(alert, db.incidents[n], windowMs)
    ensures Trail(next, windowMs) && Appends(db, next)
  {
    hide Belongs, Recorded, LinkOk, StatusTells, Founded, CountRows, CountLinks;
    LinkKeepsStatuses(db, next, alert, n, kind);
    LinkKeepsRecords(db, next, alert, n, kind);
    hide AllRecorded, StatusesTell;
    assert Appends(db, next);
    BelongsStays(alert, db.incidents[n], next.alerts[alert.id], updated, windowMs);
    LinkKeepsLinks(db, next, alert, n, kind, windowMs);
    hide Appends, LinksOk, LinkAdded;
    forall m: nat | m < |next.incidents| ensures Founded(next, m) { FoundedStays(db, next, m); }
  }

  lemma NewIsMadeFrom(id: nat, number: nat, alert: Alert, d: Decision, windowMs: nat)
    requires !IsRecovery(alert.eventType) && d.correlationKey == BuildCorrelationKey(alert)
    ensures MadeFrom(NewIncident(id, number, alert, d), alert)
      && Belongs(alert, NewIncident(id, number, alert, d), windowMs)
  {
    hide BuildCorrelationKey, IsRecovery, Title, InitialCounters, Calendar.YearOf;
  }

  lemma NewIsFounded(db: Db, next: Db, alert: Alert)
    requires References(db) && LinkAdded(db, next, alert, |db.incidents|, "INCIDENT_CREATED")
    requires |next.incidents| == |db.incidents| + 1
    requires MadeFrom(next.incidents[|db.incidents|], next.alerts[alert.id])
    ensures Founded(next, |db.incidents|)
  {
    hide MadeFrom;
    assert forall j :: 0 <= j < |db.events| ==> next.events[j] == db.events[j];
    assert FoundedBy(next, |db.incidents|, |db.events|);
  }

  lemma OriginIsOwn(incident: Incident)
    ensures SameOrigin(incident, incident)
  {
  }

  lemma CreateAppends(db: Db, alert: Alert, d: Decision)
    requires alert.id < |db.alerts| && db.alerts[alert.id] == alert
    requires forall a :: 0 <= a < |db.alerts| ==> SameAlert(db.alerts[a], MarkCorrelated(db.alerts, alert.id)[a])
    ensures Appends(db, Create(db, alert, d))
  {
    hide SameAlert, NewIncident;
  }

  lemma CreateKeepsTrail(db: Db, alert: Alert, d: Decision, windowMs: nat)
    requires Trail(db, windowMs) && TablesOk(db)
    requires alert.id < |db.alerts| && db.alerts[alert.id] == alert
    requires !IsRecovery(alert.eventType) && d.correlationKey == BuildCorrelationKey(alert)
    ensures Trail(Create(db, alert, d), windowMs) && Appends(db, Create(db, alert, d))
  {
    hide BuildCorrelationKey, IsRecovery, MadeFrom, Belongs, StatusTells, Founded, Recorded, LinkOk, CountRows,
      CountLinks, NewIncident, LinkAdded, UniqueColumns, LinkedTogether, TwoRows, MarkCorrelated;
    var next, n := Create(db, alert, d), |db.incidents|;
    var number := NumberOf(db.sequences, Calendar.YearOf(alert.detectedAt)) + 1;
    var incident := NewIncident(n, number, alert, d);
    assert next.incidents == db.incidents + [incident];
    TransactionsAddLinks(db, alert, d, n);
    LinkKeepsStatuses(db, next, alert, n, "INCIDENT_CREATED");
    LinkKeepsRecords(db, next, alert, n, "INCIDENT_CREATED");
    hide AllRecorded, StatusesTell;
    CreateAppends(db, alert, d);
    NewIsMadeFrom(n, number, alert, d, windowMs);
    OriginIsOwn(incident);
    hide SameOrigin, Create;
    BelongsStays(alert, incident, next.alerts[alert.id], incident, windowMs);
    MadeFromStays(incident, alert, incident, next.alerts[alert.id]);
    LinkKeepsLinks(db, next, alert, n, "INCIDENT_CREATED", windowMs);
    NewIsFounded(db, next, alert);
    hide Appends, LinksOk, References;
    forall m: nat | m < |next.incidents| ensures Founded(next, m) {
      if m < n { FoundedStays(db, next, m); }
    }
  }

  /** A transaction that adds no link, changes no alert, and at most rewrites one incident. */
  lemma OtherKeepsTrail(db: Db, next: Db, windowMs: int)
    requires Trail(db, windowMs)
    requires next.alerts == db.alerts && next.events == db.events
    requires |next.incidents| == |db.incidents|
    requires forall n :: 0 <= n < |db.incidents| ==> SameOrigin(db.incidents[n], next.incidents[n])
    requires db.results <= next.results
    requires next.timeline == db.timeline || exists row :: PlainRow(row) && next.timeline == db.timeline + [row]
    ensures Trail(next, windowMs) && Appends(db, next)
  {
    hide SameOrigin, LinkOk, Founded, StatusTells, CountRows, CountLinks;
    assert Appends(db, next);
    PlainRowsKeepRecords(db, next);
    hide AllRecorded, Appends;
    forall k | 0 <= k < |next.events| ensures LinkOk(next, next.events[k], windowMs) {
      LinkStays(db, next, db.events[k], windowMs);
    }
    forall m: nat | m < |next.incidents| ensures Founded(next, m) { FoundedStays(db, next, m); }
  }

  /** A row that records neither a link nor an analysis nor a creation. */
  predicate PlainRow(row: TimelineRow) {
    row.eventType !in LINK_ROWS && row.eventType !in ANALYSIS_ROWS && row.eventType !in CREATION_ROWS
  }

  lemma PlainRowsKeepRecords(db: Db, next: Db)
    requires AllRecorded(db) && next.events == db.events && |next.incidents| == |db.incidents|
    requires next.timeline == db.timeline || exists row :: PlainRow(row) && next.timeline == db.timeline + [row]
    ensures AllRecorded(next)
  {
    hide CountRows, CountLinks;
    forall m: nat ensures Recorded(next, m) {
      assert Recorded(db, m);
      if next.timeline != db.timeline {
        var row :| PlainRow(row) && next.timeline == db.timeline + [row];
        AppendRow(db.timeline, row, m, LINK_ROWS);
        AppendRow(db.timeline, row, m, ANALYSIS_ROWS);
        AppendRow(db.timeline, row, m, CREATION_ROWS);
      }
    }
  }

  // ---------------------------------------------------------------- every step

  lemma IngestKeepsTrail(db: Db, e: Event, windowMs: int)
    requires Trail(db, windowMs) && TablesOk(db)
    ensures Trail(Ingest(db, e).db, windowMs) && Appends(db, Ingest(db, e).db)
  {
    var next := Ingest(db, e).db;
    NewAlertTells(db, e);
    hide LinkOk, Founded, SameOrigin, Recorded, NewAlert, StatusTells, UniqueColumns, LinkedTogether, HasEvent;
    assert forall a :: 0 <= a < |db.alerts| ==> next.alerts[a] == db.alerts[a];
    assert Appends(db, next) by {
      forall n | 0 <= n < |db.incidents| ensures SameOrigin(db.incidents[n], db.incidents[n]) {
        OriginIsOwn(db.incidents[n]);
      }
    }
    hide Appends;
    forall k | 0 <= k < |next.events| ensures LinkOk(next, next.events[k], windowMs) {
      LinkStays(db, next, db.events[k], windowMs);
    }
    forall m: nat | m < |next.incidents| ensures Founded(next, m) { FoundedStays(db, next, m); }
    forall m: nat ensures Recorded(next, m) { SameTablesSameRecords(db, next, m); }
  }

  lemma SameTablesSameRecords(db: Db, next: Db, n: nat)
    requires AllRecorded(db)
    requires next.timeline == db.timeline && next.events == db.events && next.incidents == db.incidents
    ensures Recorded(next, n)
  {
    hide CountRows, CountLinks;
    assert Recorded(db, n);
  }

  lemma NewAlertTells(db: Db, e: Event)
    requires References(db)
    ensures !HasEvent(db.events, |db.alerts|)
    ensures StatusTells(NewAlert(|db.alerts|, e), false)
  {
    hide IsRecovery;
  }

  lemma JoinedBelongs(db: Db, alert: Alert, d: Decision, n: nat, windowMs: int)
    requires n < |db.incidents| && db.incidents[n].correlationKey.Some?
    requires d.correlationKey == BuildCorrelationKey(alert)
    requires if IsRecovery(alert.eventType) then Recoverable(db.incidents[n], d.correlationKey)
             else Joinable(db.incidents[n], alert, d.correlationKey, windowMs)
    ensures Belongs(alert, db.incidents[n], windowMs)
    ensures SameOrigin(db.incidents[n], ApplyDecision(db.incidents[n], d))
    ensures SameOrigin(db.incidents[n], db.incidents[n].(status := MONITORING))
  {
    hide BuildCorrelationKey, IsRecovery, Title;
  }

  lemma ProcessKeepsTrail(db: Db, id: nat, rules: seq<Rule>, windowMs: nat, pick: Option<nat>)
    requires Trail(db, windowMs) && TablesOk(db)
    requires forall n :: 0 <= n < |db.incidents| ==> db.incidents[n].correlationKey.Some?
    requires id < |db.alerts| && db.alerts[id].id == id && IsFirst(pick, db, db.alerts[id], windowMs)
    ensures var r := Process(db, id, rules, windowMs, pick);
      r.Committed? ==> Trail(r.db, windowMs) && Appends(db, r.db)
  {
    hide Analyze, BuildCorrelationKey, IsRecovery, NextCode, HasCode, Trail, TablesOk, Appends, Create,
      RecordDecision, Correlate, Recover, ApplyDecision, Joinable, Recoverable, SameOrigin, Belongs, LinkAdded,
      HasEvent, HasResult;
    var alert := db.alerts[id];
    var d := Analyze(db.alerts, rules, alert, windowMs);
    var r := Process(db, id, rules, windowMs, pick);
    AnalysisKey(db.alerts, rules, alert, windowMs);
    if r.Committed? {
      match r.outcome
      case ALREADY_PROCESSED => NothingKeepsTrail(db, db, windowMs);
      case IGNORED => ResultKeepsTrail(db, alert, d, windowMs);
      case CREATED => CreateKeepsTrail(db, alert, d, windowMs);
      case RECOVERY_DETECTED =>
        var n := pick.value;
        TransactionsAddLinks(db, alert, d, n);
        JoinedBelongs(db, alert, d, n, windowMs);
        LinkedIncidents(db, alert, d, n);
        JoinKeepsTrail(db, r.db, alert, n, db.incidents[n].(status := MONITORING), "RECOVERY_DETECTED", windowMs);
      case CORRELATED =>
        var n := pick.value;
        TransactionsAddLinks(db, alert, d, n);
        JoinedBelongs(db, alert, d, n, windowMs);
        LinkedIncidents(db, alert, d, n);
        JoinKeepsTrail(db, r.db, alert, n, ApplyDecision(db.incidents[n], d), "ALERT_CORRELATED", windowMs);
    }
  }

  lemma LinkedIncidents(db: Db, alert: Alert, d: Decision, n: nat)
    requires n < |db.incidents| && alert.id < |db.alerts|
    ensures Correlate(db, alert, d, n).incidents == db.incidents[n := ApplyDecision(db.incidents[n], d)]
    ensures Recover(db, alert, d, n).incidents == db.incidents[n := db.incidents[n].(status := MONITORING)]
  {
  }

  lemma NothingKeepsTrail(db: Db, next: Db, windowMs: int)
    requires Trail(db, windowMs) && next == db
    ensures Trail(next, windowMs) && Appends(db, next)
  {
    OtherKeepsTrail(db, next, windowMs) by {
      forall n | 0 <= n < |db.incidents| ensures SameOrigin(db.incidents[n], next.incidents[n]) {
        OriginIsOwn(db.incidents[n]);
      }
    }
  }

  lemma ResultKeepsTrail(db: Db, alert: Alert, d: Decision, windowMs: int)
    requires Trail(db, windowMs)
    ensures Trail(RecordDecision(db, alert, None, d), windowMs) && Appends(db, RecordDecision(db, alert, None, d))
  {
    hide Trail, Appends;
    OtherKeepsTrail(db, RecordDecision(db, alert, None, d), windowMs);
  }

  lemma ChangeKeepsTrail(db: Db, id: nat, change: Change, now: int, windowMs: int)
    requires Trail(db, windowMs) && OperatorEvent(change.eventType)
    ensures var r := Transition(db, id, change, now);
      r.Changed? ==> Trail(r.db, windowMs) && Appends(db, r.db)
  {
    hide Trail, Appends, CanTransition, StatusName;
    var r := Transition(db, id, change, now);
    if r.Changed? {
      assert PlainRow(r.db.timeline[|db.timeline|]);
      assert r.db.timeline == db.timeline + [r.db.timeline[|db.timeline|]];
      OtherKeepsTrail(db, r.db, windowMs);
    }
  }

  lemma RefreshKeepsTrail(db: Db, id: nat, counters: Counters, windowMs: int)
    requires Trail(db, windowMs) && id < |db.incidents|
    ensures Trail(RefreshImpact(db, id, counters), windowMs) && Appends(db, RefreshImpact(db, id, counters))
  {
    hide Trail, Appends;
    var next := RefreshImpact(db, id, counters);
    assert PlainRow(next.timeline[|db.timeline|]);
    assert next.timeline == db.timeline + [next.timeline[|db.timeline|]];
    OtherKeepsTrail(db, next, windowMs);
  }

  lemma ApplyKeepsTrail(db: Db, s: Step, windowMs: nat)
    requires Trail(db, windowMs) && Inv(db, windowMs) && Enabled(db, s, windowMs)
    ensures Trail(Apply(db, s, windowMs), windowMs) && Appends(db, Apply(db, s, windowMs))
  {
    hide Trail, Appends, TablesOk, Numbering.Numbered, Separation.Spread, AllConsistent, Ingest, Process,
      Transition, RefreshImpact, IsFirst;
    FoldedKeys(db);
    hide Folding.Folded;
    match s
    case IngestStep(e) => IngestKeepsTrail(db, e, windowMs);
    case ProcessStep(id, rules, pick) =>
      PicksExist(db, s, windowMs);
      ProcessKeepsTrail(db, id, rules, windowMs, pick);
      NothingKeepsTrail(db, db, windowMs);
    case ChangeStep(id, change, now) =>
      ChangeKeepsTrail(db, id, change, now, windowMs);
      NothingKeepsTrail(db, db, windowMs);
    case RefreshStep(id, counters) => RefreshKeepsTrail(db, id, counters, windowMs);
  }

  // ---------------------------------------------------------------- whole runs

  /** The trail holds at every moment of every run. */
  lemma {:induction false} RunKeepsTrail(states: seq<Db>, steps: seq<Step>, windowMs: nat, i: nat)
    requires IsRun(states, steps, windowMs) && i <= |steps|
    ensures Trail(states[i], windowMs)
  {
    hide Inv, Apply, Enabled;
    if i > 0 {
      hide Trail;
      RunKeepsTrail(states, steps, windowMs, i - 1);
      RunKeepsInv(states, steps, windowMs, i - 1);
      ApplyKeepsTrail(states[i - 1], steps[i - 1], windowMs);
    }
  }

  lemma AppendsIsTransitive(a: Db, b: Db, c: Db)
    requires Appends(a, b) && Appends(b, c)
    ensures Appends(a, c)
  {
  }

  /**
    Nothing is taken back: between any two moments of a run rows are only added to the link, result
    and timeline tables, an alert changes only its status, and an incident keeps its origin and key.
  */
  lemma {:induction false} HistoryIsKept(states: seq<Db>, steps: seq<Step>, windowMs: nat, i: nat, j: nat)
    requires IsRun(states, steps, windowMs) && i <= j <= |steps|
    ensures Appends(states[i], states[j])
    decreases j
  {
    hide Inv, Apply, Enabled, Trail, Appends;
    if i == j {
      RunKeepsTrail(states, steps, windowMs, i);
      NothingKeepsTrail(states[i], states[j], windowMs);
    } else {
      HistoryIsKept(states, steps, windowMs, i, j - 1);
      RunKeepsTrail(states, steps, windowMs, j - 1);
      RunKeepsInv(states, steps, windowMs, j - 1);
      ApplyKeepsTrail(states[j - 1], steps[j - 1], windowMs);
      AppendsIsTransitive(states[i], states[j - 1], states[j]);
    }
  }

  /**
    Every link joins an alert with an incident of its key; unless it is a recovery, the alert was
    detected no later than a window after the incident (but possibly long before it).
  */
  lemma LinksAreSound(states: seq<Db>, steps: seq<Step>, windowMs: nat, i: nat, k: nat)
    requires IsRun(states, steps, windowMs) && i <= |steps| && k < |states[i].events|
    ensures LinkOk(states[i], states[i].events[k], windowMs)
  {
    hide IsRun, LinkOk, AllFounded, AllRecorded, StatusesTell;
    RunKeepsTrail(states, steps, windowMs, i);
  }

  /** The status of an alert tells whether it is linked, at every moment of every run. */
  lemma StatusIsTruthful(states: seq<Db>, steps: seq<Step>, windowMs: nat, i: nat, a: nat)
    requires IsRun(states, steps, windowMs) && i <= |steps| && a < |states[i].alerts|
    ensures StatusTells(states[i].alerts[a], HasEvent(states[i].events, a))
  {
    hide IsRun, HasEvent, LinksOk, AllFounded, AllRecorded, StatusTells;
    RunKeepsTrail(states, steps, windowMs, i);
  }

  /**
    Every incident was made from the alert of its first link, and its timeline has exactly one
    creation row, one row per link, and one analysis row per link.
  */
  lemma TimelineIsComplete(states: seq<Db>, steps: seq<Step>, windowMs: nat, i: nat, n: nat)
    requires IsRun(states, steps, windowMs) && i <= |steps| && n < |states[i].incidents|
    ensures Founded(states[i], n)
    ensures CountRows(states[i].timeline, n, {"INCIDENT_CREATED"}) == 1
    ensures CountRows(states[i].timeline, n, {"INCIDENT_CREATED", "ALERT_CORRELATED", "RECOVERY_DETECTED"})
         == CountLinks(states[i].events, n)
    ensures CountRows(states[i].timeline, n, {"CORRELATION_ANALYZED"}) == CountLinks(states[i].events, n)
  {
    assert |states| == |steps| + 1;
    hide IsRun, LinksOk, StatusesTell, Founded, CountRows, CountLinks;
    RunKeepsTrail(states, steps, windowMs, i);
    assert Recorded(states[i], n);
  }

  // ---------------------------------------------------------------- what was stored, and one PON per incident

  /** The stored alert was made from this event. */
  predicate StoredFrom(e: Event, id: nat, alert: Alert) { SameAlert(NewAlert(id, e), alert) }

  ghost predicate Stored(db: Db, a: nat) { a < |db.alerts| && exists e :: StoredFrom(e, a, db.alerts[a]) }

  ghost predicate AllStored(db: Db) { forall a: nat :: a < |db.alerts| ==> Stored(db, a) }

  lemma StoredStays(before: Db, after: Db, a: nat)
    requires Stored(before, a) && Appends(before, after)
    ensures Stored(after, a)
  {
    hide NewAlert;
    var e :| StoredFrom(e, a, before.alerts[a]);
    assert StoredFrom(e, a, after.alerts[a]);
  }

  lemma ProcessAddsNoAlert(db: Db, id: nat, rules: seq<Rule>, windowMs: int, pick: Option<nat>)
    requires id < |db.alerts| && db.alerts[id].id == id && (pick.Some? ==> pick.value < |db.incidents|)
    ensures var r := Process(db, id, rules, windowMs, pick);
      r.Committed? ==> |r.db.alerts| == |db.alerts|
  {
    hide Analyze, NextCode, HasCode, IsRecovery, NewIncident, ApplyDecision, HasEvent, HasResult;
  }

  lemma ApplyKeepsStored(db: Db, s: Step, windowMs: nat)
    requires AllStored(db) && Enabled(db, s, windowMs) && Appends(db, Apply(db, s, windowMs))
    ensures AllStored(Apply(db, s, windowMs))
  {
    hide NewAlert, Appends, Process, CanTransition, HasAlert, IsFirst, Stored;
    var next := Apply(db, s, windowMs);
    if s.ProcessStep? {
      PicksExist(db, s, windowMs);
      ProcessAddsNoAlert(db, s.alertId, s.rules, windowMs, s.pick);
    }
    forall a: nat | a < |next.alerts| ensures Stored(next, a) {
      if a < |db.alerts| {
        StoredStays(db, next, a);
      } else {
        IngestStores(db, s.event);
      }
    }
  }

  lemma IngestStores(db: Db, e: Event)
    ensures var next := Ingest(db, e).db;
      |next.alerts| > |db.alerts| ==> |next.alerts| == |db.alerts| + 1 && Stored(next, |db.alerts|)
  {
    hide NewAlert, HasAlert;
    var next := Ingest(db, e).db;
    if |next.alerts| > |db.alerts| { assert StoredFrom(e, |db.alerts|, next.alerts[|db.alerts|]); }
  }

  lemma {:induction false} RunKeepsStored(states: seq<Db>, steps: seq<Step>, windowMs: nat, i: nat)
    requires IsRun(states, steps, windowMs) && i <= |steps|
    ensures AllStored(states[i])
  {
    hide Inv, Apply, Enabled, Trail, Appends;
    if i > 0 {
      hide AllStored;
      RunKeepsStored(states, steps, windowMs, i - 1);
      RunKeepsTrail(states, steps, windowMs, i - 1);
      RunKeepsInv(states, steps, windowMs, i - 1);
      ApplyKeepsTrail(states[i - 1], steps[i - 1], windowMs);
      ApplyKeepsStored(states[i - 1], steps[i - 1], windowMs);
    }
  }

  // ---------------------------------------------------------------- what the channels let through

  /** All channels validate, so every ingested event is of an admitted type. */
  predicate IngestsAdmitted(steps: seq<Step>) {
    forall k :: 0 <= k < |steps| && steps[k].IngestStep? ==> Admitted(steps[k].event.eventType)
  }

  predicate AllAdmitted(db: Db) { forall a :: 0 <= a < |db.alerts| ==> Admitted(db.alerts[a].eventType) }

  lemma ApplyKeepsAdmitted(db: Db, s: Step, windowMs: nat)
    requires AllAdmitted(db) && Enabled(db, s, windowMs) && Appends(db, Apply(db, s, windowMs))
    requires s.IngestStep? ==> Admitted(s.event.eventType)
    ensures AllAdmitted(Apply(db, s, windowMs))
  {
    hide Admitted, Process, CanTransition, HasAlert, IsFirst;
    var next := Apply(db, s, windowMs);
    if s.ProcessStep? {
      PicksExist(db, s, windowMs);
      ProcessAddsNoAlert(db, s.alertId, s.rules, windowMs, s.pick);
    }
    forall a | 0 <= a < |next.alerts| ensures Admitted(next.alerts[a].eventType) {
      if a < |db.alerts| { assert SameAlert(db.alerts[a], next.alerts[a]); }
    }
  }

  lemma {:induction false} RunKeepsAdmitted(states: seq<Db>, steps: seq<Step>, windowMs: nat, i: nat)
    requires IsRun(states, steps, windowMs) && IngestsAdmitted(steps) && i <= |steps|
    ensures AllAdmitted(states[i])
  {
    hide Inv, Apply, Enabled, Trail, Appends, Admitted;
    if i > 0 {
      hide AllAdmitted;
      RunKeepsAdmitted(states, steps, windowMs, i - 1);
      RunKeepsTrail(states, steps, windowMs, i - 1);
      RunKeepsInv(states, steps, windowMs, i - 1);
      ApplyKeepsTrail(states[i - 1], steps[i - 1], windowMs);
      ApplyKeepsAdmitted(states[i - 1], steps[i - 1], windowMs);
    }
  }

  /** So with what the channels let through, no transaction of any run ever aborts. */
  lemma AdmittedRunsNeverAbort(states: seq<Db>, steps: seq<Step>, windowMs: nat, i: nat)
    requires IsRun(states, steps, windowMs) && IngestsAdmitted(steps) && i < |steps| && steps[i].ProcessStep?
    ensures ResultAt(states, steps, windowMs, i).Committed?
    ensures HasEvent(ResultAt(states, steps, windowMs, i).db.events, steps[i].alertId)
  {
    hide Inv, Process, Admitted, HasEvent, IsFirst, Apply;
    RunKeepsAdmitted(states, steps, windowMs, i);
    RunKeepsInv(states, steps, windowMs, i);
    assert Enabled(states[i], steps[i], windowMs);
    AttemptLinks(states[i], steps[i].alertId, steps[i].rules, windowMs, steps[i].pick);
  }

  /**
    In a run with what the channels let through, no decision counts an ONU, and a rule that asks for
    at least one distinct ONU is dead: no decision of the run would differ without it.
  */
  lemma OnuRulesAreDead(states: seq<Db>, steps: seq<Step>, windowMs: nat, i: nat,
                        alert: Alert, a: seq<Rule>, rule: Rule, b: seq<Rule>)
    requires IsRun(states, steps, windowMs) && IngestsAdmitted(steps) && i <= |steps|
    requires rule.minimumDistinctOnus.Some? && rule.minimumDistinctOnus.value >= 1
    ensures Analyze(states[i].alerts, a + b, alert, windowMs).distinctOnuCount == 0
    ensures Analyze(states[i].alerts, a + [rule] + b, alert, windowMs)
         == Analyze(states[i].alerts, a + b, alert, windowMs)
  {
    hide Analyze, Admitted, Apply, Enabled;
    RunKeepsAdmitted(states, steps, windowMs, i);
    forall x | x in states[i].alerts ensures Admitted(x.eventType) {
      var k :| 0 <= k < |states[i].alerts| && states[i].alerts[k] == x;
    }
    OnuRuleIsInert(states[i].alerts, a, rule, b, alert, windowMs);
  }

  /**
    One incident, one PON: at every moment of every run, two alerts of admitted types linked to the
    same incident were made from events about the same OLT, board and PON.
  */
  lemma OnePonPerIncident(states: seq<Db>, steps: seq<Step>, windowMs: nat, i: nat, k: nat, m: nat)
    returns (e: Event, f: Event)
    requires IsRun(states, steps, windowMs) && i <= |steps|
    requires k < |states[i].events| && m < |states[i].events|
    requires states[i].events[k].incidentId == states[i].events[m].incidentId
    ensures var a, b := states[i].events[k].alertId, states[i].events[m].alertId;
      && a < |states[i].alerts| && b < |states[i].alerts|
      && StoredFrom(e, a, states[i].alerts[a]) && StoredFrom(f, b, states[i].alerts[b])
      && (Admitted(e.eventType) && Admitted(f.eventType) ==> e.oltId == f.oltId && e.board == f.board && e.pon == f.pon)
  {
    var db, a, b := states[i], states[i].events[k].alertId, states[i].events[m].alertId;
    RunKeepsStored(states, steps, windowMs, i);
    LinksAreSound(states, steps, windowMs, i, k);
    LinksAreSound(states, steps, windowMs, i, m);
    hide IsRun, BuildCorrelationKey, IsRecovery, NewAlert, Admitted;
    assert Stored(db, a) && Stored(db, b);
    e :| StoredFrom(e, a, db.alerts[a]);
    f :| StoredFrom(f, b, db.alerts[b]);
    SameAlertSameKey(NewAlert(a, e), db.alerts[a]);
    SameAlertSameKey(NewAlert(b, f), db.alerts[b]);
    if Admitted(e.eventType) && Admitted(f.eventType) { KeysEqualExactlyOnSamePon(a, e, b, f); }
  }
}
