/**
  The incident engine over an in-memory image of its tables. Each function is one committed
  transaction; a transaction that would break a unique index is aborted and changes nothing.

  Queries of the form "first row by date" leave ties open, so the row they return is a parameter
  constrained by IsFirst; every result holds for every choice.
*/
module IncidentEngine {
  import opened Prelude
  import opened Records
  import opened Alerts
  import opened Text
  import opened Correlation
  import opened Lifecycle
  import opened Calendar

  datatype EventRow = EventRow(incidentId: nat, alertId: nat, eventType: string, occurredAt: int)

  /** A correlation result, joined with the event type of its alert and the type its rule names. */
  datatype ResultRow = ResultRow(alertId: nat, eventType: string, incidentId: Option<nat>, decision: Decision)

  datatype TimelineRow = TimelineRow(
    incidentId: nat, eventType: string, title: string, description: Option<string>, performedBy: string)

  /** The tables, and the latest server time any status change has used. */
  datatype Db = Db(
    alerts: seq<Alert>,
    incidents: seq<Incident>,
    events: seq<EventRow>,
    results: seq<ResultRow>,
    sequences: map<int, nat>,
    timeline: seq<TimelineRow>,
    clock: int)

  function EmptyDb(clock: int): Db { Db([], [], [], [], map[], [], clock) }

  // ---------------------------------------------------------------- unique-index lookups

  predicate HasAlert(alerts: seq<Alert>, eventId: string) {
    exists i :: 0 <= i < |alerts| && alerts[i].externalEventId == eventId
  }

  predicate HasEvent(events: seq<EventRow>, alertId: nat) {
    exists i :: 0 <= i < |events| && events[i].alertId == alertId
  }

  predicate HasResult(results: seq<ResultRow>, alertId: nat) {
    exists i :: 0 <= i < |results| && results[i].alertId == alertId
  }

  predicate HasCode(incidents: seq<Incident>, code: string) {
    exists i :: 0 <= i < |incidents| && incidents[i].code == code
  }

  function AlertIndex(alerts: seq<Alert>, eventId: string): (i: nat)
    requires HasAlert(alerts, eventId)
    ensures i < |alerts| && alerts[i].externalEventId == eventId
  {
    if alerts[|alerts| - 1].externalEventId == eventId then |alerts| - 1
    else AlertIndex(alerts[..|alerts| - 1], eventId)
  }

  function EventIndex(events: seq<EventRow>, alertId: nat): (i: nat)
    requires HasEvent(events, alertId)
    ensures i < |events| && events[i].alertId == alertId
  {
    if events[|events| - 1].alertId == alertId then |events| - 1
    else EventIndex(events[..|events| - 1], alertId)
  }

  // ---------------------------------------------------------------- ingest

  datatype IngestResult = IngestResult(db: Db, created: bool, alertId: nat)

  /** Insert the alert, or fall back to the existing row when the event id is taken. */
  function Ingest(db: Db, e: Event): IngestResult {
    if HasAlert(db.alerts, e.eventId) then IngestResult(db, false, AlertIndex(db.alerts, e.eventId))
    else IngestResult(db.(alerts := db.alerts + [NewAlert(|db.alerts|, e)]), true, |db.alerts|)
  }

  // ---------------------------------------------------------------- titles, counters, codes

  function TypeName(t: IncidentType): string {
    match t
    case ONU => "ONU"
    case PON => "PON"
    case OLT => "OLT"
    case UPLINK => "UPLINK"
    case NETWORK => "NETWORK"
    case UNKNOWN => "UNKNOWN"
  }

  function Title(olt: Option<string>, pon: Option<string>, t: IncidentType): string {
    TypeName(t) + " incident: " + olt.GetOr("Unknown OLT")
    + if pon.Some? && pon.value != "" then " PON " + pon.value else ""
  }

  function InitialCounters(metrics: Option<Metrics>): Counters {
    match metrics
    case None => Counters(0, 0, 0, 0, 0, 0)
    case Some(m) =>
      var offline := m.onuOffline.GetOr(0);
      var online := m.onuOnline.GetOr(0);
      Counters(m.onuTotal.GetOr(0), offline, online, offline, offline, online)
  }

  function NumberOf(sequences: map<int, nat>, year: int): nat {
    if year in sequences then sequences[year] else 0
  }

  function NewIncident(id: nat, number: nat, alert: Alert, d: Decision): Incident {
    Incident(
      id, IncidentCode(YearOf(alert.detectedAt), number),
      Title(alert.oltExternalId, alert.ponIdentifier, d.incidentType),
      alert.message, d.incidentType, d.severity, DETECTED, d.rootCause, d.rootCauseConfidence,
      alert.oltExternalId, alert.ponIdentifier, alert.onuSerial, Some(d.correlationKey),
      InitialCounters(alert.metrics), alert.detectedAt, alert.detectedAt, None, None, None, 0)
  }

  /** Merging a decision into an open incident: severity only rises, and a more confident cause replaces the cause. */
  function ApplyDecision(incident: Incident, d: Decision): Incident {
    var upgrade := d.rootCauseConfidence > incident.rootCauseConfidence;
    incident.(
      correlationKey := Some(d.correlationKey),
      title := if upgrade then Title(incident.oltExternalId, incident.ponIdentifier, d.incidentType)
        else incident.title,
      incidentType := if upgrade then d.incidentType else incident.incidentType,
      severity := if IsMoreSevere(d.severity, incident.severity) then d.severity else incident.severity,
      rootCause := if upgrade then d.rootCause else incident.rootCause,
      rootCauseConfidence := if upgrade then d.rootCauseConfidence else incident.rootCauseConfidence)
  }

  // ---------------------------------------------------------------- the two incident queries

  /** Open, not detected before the window, and with this key (or no key but the same location). */
  predicate Joinable(incident: Incident, alert: Alert, key: string, windowMs: int) {
    && IsOpen(incident.status)
    && incident.detectedAt >= alert.detectedAt - windowMs
    && (incident.correlationKey == Some(key)
        || (incident.correlationKey.None?
            && incident.oltExternalId == alert.oltExternalId && incident.ponIdentifier == alert.ponIdentifier))
  }

  predicate Recoverable(incident: Incident, key: string) {
    incident.correlationKey == Some(key) && IsOpen(incident.status)
  }

  /** A first row of the query: it qualifies and no qualifying row is detected earlier. */
  ghost predicate FirstJoinable(pick: Option<nat>, incidents: seq<Incident>, alert: Alert, key: string, windowMs: int) {
    match pick
    case None => forall i :: 0 <= i < |incidents| ==> !Joinable(incidents[i], alert, key, windowMs)
    case Some(n) =>
      && n < |incidents| && Joinable(incidents[n], alert, key, windowMs)
      && forall i :: 0 <= i < |incidents| && Joinable(incidents[i], alert, key, windowMs) ==>
           incidents[n].detectedAt <= incidents[i].detectedAt
  }

  /** A latest row of the query. */
  ghost predicate LastRecoverable(pick: Option<nat>, incidents: seq<Incident>, key: string) {
    match pick
    case None => forall i :: 0 <= i < |incidents| ==> !Recoverable(incidents[i], key)
    case Some(n) =>
      && n < |incidents| && Recoverable(incidents[n], key)
      && forall i :: 0 <= i < |incidents| && Recoverable(incidents[i], key) ==>
           incidents[i].detectedAt <= incidents[n].detectedAt
  }

  ghost predicate IsFirst(pick: Option<nat>, db: Db, alert: Alert, windowMs: int) {
    var key := BuildCorrelationKey(alert);
    if IsRecovery(alert.eventType) then LastRecoverable(pick, db.incidents, key)
    else FirstJoinable(pick, db.incidents, alert, key, windowMs)
  }

  // ---------------------------------------------------------------- one alert, one transaction

  datatype Outcome = CREATED | CORRELATED | RECOVERY_DETECTED | ALREADY_PROCESSED | IGNORED

  datatype Processed =
    | Committed(db: Db, outcome: Outcome, incidentId: Option<nat>)
    | Aborted

  function MarkCorrelated(alerts: seq<Alert>, id: nat): seq<Alert>
    requires id < |alerts|
  {
    if alerts[id].status == ALERT_RESOLVED then alerts else alerts[id := alerts[id].(status := ALERT_CORRELATED)]
  }

  function AttachAlert(db: Db, incidentId: nat, alert: Alert, eventType: string, title: string): Db
    requires alert.id < |db.alerts|
  {
    db.(events := db.events + [EventRow(incidentId, alert.id, alert.eventType, alert.detectedAt)],
        alerts := MarkCorrelated(db.alerts, alert.id),
        timeline := db.timeline + [TimelineRow(incidentId, eventType, title, alert.message, "SYSTEM")])
  }

  function RecordDecision(db: Db, alert: Alert, incidentId: Option<nat>, d: Decision): Db {
    db.(results := db.results + [ResultRow(alert.id, alert.eventType, incidentId, d)],
        timeline := db.timeline
          + if incidentId.None? then [] else
              [TimelineRow(incidentId.value, "CORRELATION_ANALYZED",
                           if d.matchedRule.Some? then "Correlation rule applied: " + d.matchedRule.value.name
                           else "No correlation rule matched", None, "SYSTEM")])
  }

  function Correlate(db: Db, alert: Alert, d: Decision, n: nat): Db
    requires n < |db.incidents| && alert.id < |db.alerts|
  {
    var updated := db.(incidents := db.incidents[n := ApplyDecision(db.incidents[n], d)]);
    RecordDecision(AttachAlert(updated, n, alert, "ALERT_CORRELATED", "Alert correlated"), alert, Some(n), d)
  }

  function Recover(db: Db, alert: Alert, d: Decision, n: nat): Db
    requires n < |db.incidents| && alert.id < |db.alerts|
  {
    var updated := db.(incidents := db.incidents[n := db.incidents[n].(status := MONITORING)]);
    var attached := AttachAlert(updated, n, alert, "RECOVERY_DETECTED",
                                "Recovery alert received; incident moved to monitoring");
    RecordDecision(attached, alert, Some(n), d)
  }

  function Create(db: Db, alert: Alert, d: Decision): Db
    requires alert.id < |db.alerts|
  {
    var year := YearOf(alert.detectedAt);
    var number := NumberOf(db.sequences, year) + 1;
    var n := |db.incidents|;
    var updated := db.(sequences := db.sequences[year := number],
                       incidents := db.incidents + [NewIncident(n, number, alert, d)]);
    RecordDecision(AttachAlert(updated, n, alert, "INCIDENT_CREATED", "Incident created from alert"), alert, Some(n), d)
  }

  /** The code the next incident of the alert's year would get. */
  function NextCode(db: Db, alert: Alert): string {
    IncidentCode(YearOf(alert.detectedAt), NumberOf(db.sequences, YearOf(alert.detectedAt)) + 1)
  }

  function Process(db: Db, alertId: nat, rules: seq<Rule>, windowMs: int, pick: Option<nat>): Processed
    requires alertId < |db.alerts| && db.alerts[alertId].id == alertId
    requires pick.Some? ==> pick.value < |db.incidents|
  {
    var alert := db.alerts[alertId];
    if HasEvent(db.events, alertId) then
      Committed(db, ALREADY_PROCESSED, Some(db.events[EventIndex(db.events, alertId)].incidentId))
    else
      var d := Analyze(db.alerts, rules, alert, windowMs);
      if HasResult(db.results, alertId) then Aborted
      else if IsRecovery(alert.eventType) then
        match pick
        case None => Committed(RecordDecision(db, alert, None, d), IGNORED, None)
        case Some(n) => Committed(Recover(db, alert, d, n), RECOVERY_DETECTED, pick)
      else
        match pick
        case Some(n) => Committed(Correlate(db, alert, d, n), CORRELATED, pick)
        case None =>
          if HasCode(db.incidents, NextCode(db, alert)) then Aborted
          else Committed(Create(db, alert, d), CREATED, Some(|db.incidents|))
  }

  // ---------------------------------------------------------------- operator actions and impact refresh

  function StatusName(s: IncidentStatus): string {
    match s
    case DETECTED => "DETECTED"
    case INVESTIGATING => "INVESTIGATING"
    case CONFIRMED => "CONFIRMED"
    case IN_PROGRESS => "IN_PROGRESS"
    case MONITORING => "MONITORING"
    case RESOLVED => "RESOLVED"
    case CLOSED => "CLOSED"
    case FALSE_POSITIVE => "FALSE_POSITIVE"
  }

  datatype Change = Change(status: IncidentStatus, note: Option<string>, performedBy: string, eventType: string)

  /** The timeline event types of the four operator actions. */
  predicate OperatorEvent(eventType: string) {
    || eventType == "INCIDENT_ACKNOWLEDGED" || eventType == "INCIDENT_RESOLVED"
    || eventType == "INCIDENT_CLOSED" || eventType == "INCIDENT_STATUS_CHANGED"
  }

  datatype ChangeResult = Changed(db: Db) | NotFound | InvalidTransition

  function Transition(db: Db, id: nat, change: Change, now: int): ChangeResult {
    if id >= |db.incidents| then NotFound
    else if !CanTransition(db.incidents[id].status, change.status) then InvalidTransition
    else Changed(db.(
      incidents := db.incidents[id := ChangeStatus(db.incidents[id], change.status, now)],
      timeline := db.timeline
        + [TimelineRow(id, change.eventType, "Status changed to " + StatusName(change.status), change.note,
                       change.performedBy)],
      clock := Max(db.clock, now)))
  }

  function RefreshImpact(db: Db, id: nat, counters: Counters): Db
    requires id < |db.incidents|
  {
    db.(incidents := db.incidents[id := db.incidents[id].(counters := counters)],
        timeline := db.timeline
          + [TimelineRow(id, "IMPACT_RECALCULATED", "Customer impact recalculated", None, "SYSTEM")])
  }

  // ---------------------------------------------------------------- runs

  datatype Step =
    | IngestStep(event: Event)
    | ProcessStep(alertId: nat, rules: seq<Rule>, pick: Option<nat>)
    | ChangeStep(incidentId: nat, change: Change, now: int)
    | RefreshStep(refreshed: nat, counters: Counters)

  /** A step that can happen: rows it names exist, queries return first rows, and the clock does not run backwards. */
  ghost predicate Enabled(db: Db, s: Step, windowMs: int) {
    match s
    case IngestStep(_) => true
    case ProcessStep(id, _, pick) =>
      id < |db.alerts| && db.alerts[id].id == id && IsFirst(pick, db, db.alerts[id], windowMs)
    case ChangeStep(_, change, now) => db.clock <= now && OperatorEvent(change.eventType)
    case RefreshStep(id, _) => id < |db.incidents|
  }

  function Apply(db: Db, s: Step, windowMs: int): Db
    requires Enabled(db, s, windowMs)
  {
    match s
    case IngestStep(e) => Ingest(db, e).db
    case ProcessStep(id, rules, pick) =>
      var r := Process(db, id, rules, windowMs, pick);
      if r.Committed? then r.db else db
    case ChangeStep(id, change, now) =>
      var r := Transition(db, id, change, now);
      if r.Changed? then r.db else db
    case RefreshStep(id, counters) => RefreshImpact(db, id, counters)
  }

  /** The states of a run, from an empty database. */
  ghost predicate IsRun(states: seq<Db>, steps: seq<Step>, windowMs: int) {
    && |states| == |steps| + 1
    && (exists clock :: states[0] == EmptyDb(clock))
    && forall i :: 0 <= i < |steps| ==>
         Enabled(states[i], steps[i], windowMs) && states[i + 1] == Apply(states[i], steps[i], windowMs)
  }
}
