/**
  The engine in its own form: the tables are fields that each transaction reads and then writes
  row by row. Every method is proved equal to the transaction function it implements.
*/
module IncidentStore {
  import opened Prelude
  import opened Calendar
  import opened Records
  import opened Alerts
  import opened Correlation
  import opened Lifecycle
  import opened IncidentEngine
  import Text

  class Store {
    var alerts: seq<Alert>
    var incidents: seq<Incident>
    var events: seq<EventRow>
    var results: seq<ResultRow>
    var sequences: map<int, nat>
    var timeline: seq<TimelineRow>
    var clock: int

    function State(): Db
      reads this
    {
      Db(alerts, incidents, events, results, sequences, timeline, clock)
    }

    constructor (now: int)
      ensures State() == EmptyDb(now)
    {
      alerts, incidents, events, results, sequences, timeline, clock := [], [], [], [], map[], [], now;
    }

    // ---------------------------------------------------------------- ingest

    method FindAlert(eventId: string) returns (found: Option<nat>)
      ensures found.Some? <==> HasAlert(alerts, eventId)
      ensures found.Some? ==> found.value == AlertIndex(alerts, eventId)
    {
      var n: nat := |alerts|;
      assert alerts[..n] == alerts;
      while n > 0 && alerts[n - 1].externalEventId != eventId
        invariant 0 <= n <= |alerts|
        invariant forall i :: n <= i < |alerts| ==> alerts[i].externalEventId != eventId
        invariant HasAlert(alerts, eventId) ==>
          HasAlert(alerts[..n], eventId) && AlertIndex(alerts[..n], eventId) == AlertIndex(alerts, eventId)
      {
        assert alerts[..n][..n - 1] == alerts[..n - 1];
        assert HasAlert(alerts[..n], eventId) ==> HasAlert(alerts[..n - 1], eventId);
        n := n - 1;
      }
      found := if n == 0 then None else Some(n - 1);
    }

    /** Inserts the alert; when the event id is taken, reads the row that has it. */
    method IngestEvent(e: Event) returns (created: bool, alertId: nat)
      modifies this`alerts
      ensures State() == Ingest(old(State()), e).db
      ensures created == Ingest(old(State()), e).created && alertId == Ingest(old(State()), e).alertId
    {
      var found := FindAlert(e.eventId);
      if found.Some? {
        created, alertId := false, found.value;
      } else {
        created, alertId := true, |alerts|;
        alerts := alerts + [NewAlert(|alerts|, e)];
      }
    }

    // ---------------------------------------------------------------- queries

    method FindEvent(alertId: nat) returns (found: Option<nat>)
      ensures found.Some? <==> HasEvent(events, alertId)
      ensures found.Some? ==> found.value == EventIndex(events, alertId)
    {
      var n: nat := |events|;
      assert events[..n] == events;
      while n > 0 && events[n - 1].alertId != alertId
        invariant 0 <= n <= |events|
        invariant forall i :: n <= i < |events| ==> events[i].alertId != alertId
        invariant HasEvent(events, alertId) ==>
          HasEvent(events[..n], alertId) && EventIndex(events[..n], alertId) == EventIndex(events, alertId)
      {
        assert events[..n][..n - 1] == events[..n - 1];
        assert HasEvent(events[..n], alertId) ==> HasEvent(events[..n - 1], alertId);
        n := n - 1;
      }
      found := if n == 0 then None else Some(n - 1);
    }

    /** The alerts behind a decision. */
    method SelectWindow(alert: Alert, windowMs: int) returns (selected: seq<Alert>)
      ensures selected == WindowAlerts(alerts, alert, windowMs)
    {
      selected := [];
      for n := 0 to |alerts|
        invariant selected == WindowAlerts(alerts[..n], alert, windowMs)
      {
        assert alerts[..n + 1][..n] == alerts[..n];
        if InWindow(alerts[n], alert, windowMs) { selected := selected + [alerts[n]]; }
      }
      assert alerts[..|alerts|] == alerts;
    }

    method FindJoinable(alert: Alert, key: string, windowMs: int) returns (pick: Option<nat>)
      ensures FirstJoinable(pick, incidents, alert, key, windowMs)
    {
      hide Joinable;
      pick := None;
      for n := 0 to |incidents|
        invariant FirstJoinable(pick, incidents[..n], alert, key, windowMs)
      {
        if Joinable(incidents[n], alert, key, windowMs)
           && (pick.None? || incidents[n].detectedAt < incidents[pick.value].detectedAt) {
          pick := Some(n);
        }
      }
      assert incidents[..|incidents|] == incidents;
    }

    method FindRecoverable(key: string) returns (pick: Option<nat>)
      ensures LastRecoverable(pick, incidents, key)
    {
      hide Recoverable;
      pick := None;
      for n := 0 to |incidents|
        invariant LastRecoverable(pick, incidents[..n], key)
      {
        if Recoverable(incidents[n], key)
           && (pick.None? || incidents[n].detectedAt > incidents[pick.value].detectedAt) {
          pick := Some(n);
        }
      }
      assert incidents[..|incidents|] == incidents;
    }

    // ---------------------------------------------------------------- writes

    method Attach(incidentId: nat, alert: Alert, eventType: string, title: string)
      requires alert.id < |alerts|
      modifies this
      ensures State() == AttachAlert(old(State()), incidentId, alert, eventType, title)
    {
      events := events + [EventRow(incidentId, alert.id, alert.eventType, alert.detectedAt)];
      if alerts[alert.id].status != ALERT_RESOLVED {
        alerts := alerts[alert.id := alerts[alert.id].(status := ALERT_CORRELATED)];
      }
      timeline := timeline + [TimelineRow(incidentId, eventType, title, alert.message, "SYSTEM")];
    }

    /** Inserts the correlation result; refused when the alert already has one. */
    method Record(alert: Alert, incidentId: Option<nat>, d: Decision) returns (ok: bool)
      modifies this
      ensures ok <==> !old(HasResult(results, alert.id))
      ensures State() == if ok then RecordDecision(old(State()), alert, incidentId, d) else old(State())
    {
      ok := !(exists i :: 0 <= i < |results| && results[i].alertId == alert.id);
      if !ok { return; }
      results := results + [ResultRow(alert.id, alert.eventType, incidentId, d)];
      if incidentId.Some? {
        var title := if d.matchedRule.Some? then "Correlation rule applied: " + d.matchedRule.value.name
                     else "No correlation rule matched";
        timeline := timeline + [TimelineRow(incidentId.value, "CORRELATION_ANALYZED", title, None, "SYSTEM")];
      } else {
        assert timeline + [] == timeline;
      }
    }

    /** Gives back every table as it was: the transaction is rolled back. */
    method Rollback(before: Db)
      modifies this
      ensures State() == before
    {
      alerts, incidents, events, results := before.alerts, before.incidents, before.events, before.results;
      sequences, timeline, clock := before.sequences, before.timeline, before.clock;
    }

    method CorrelateInto(n: nat, alert: Alert, d: Decision) returns (ok: bool)
      requires n < |incidents| && alert.id < |alerts|
      modifies this
      ensures ok <==> !old(HasResult(results, alert.id))
      ensures ok ==> State() == Correlate(old(State()), alert, d, n)
    {
      incidents := incidents[n := ApplyDecision(incidents[n], d)];
      Attach(n, alert, "ALERT_CORRELATED", "Alert correlated");
      ok := Record(alert, Some(n), d);
    }

    method RecoverInto(n: nat, alert: Alert, d: Decision) returns (ok: bool)
      requires n < |incidents| && alert.id < |alerts|
      modifies this
      ensures ok <==> !old(HasResult(results, alert.id))
      ensures ok ==> State() == Recover(old(State()), alert, d, n)
    {
      incidents := incidents[n := incidents[n].(status := MONITORING)];
      Attach(n, alert, "RECOVERY_DETECTED", "Recovery alert received; incident moved to monitoring");
      ok := Record(alert, Some(n), d);
    }

    /** Takes the next number of the year, inserts the incident (refused when its code is taken) and links the alert. */
    method CreateFor(alert: Alert, d: Decision) returns (ok: bool, n: nat)
      requires alert.id < |alerts|
      modifies this
      ensures ok <==> !old(HasResult(results, alert.id)) && !old(HasCode(incidents, NextCode(State(), alert)))
      ensures ok ==> State() == Create(old(State()), alert, d) && n == old(|incidents|)
    {
      hide YearOf, NewIncident;
      var year := YearOf(alert.detectedAt);
      sequences := sequences[year := if year in sequences then sequences[year] + 1 else 1];
      n := |incidents|;
      var incident := NewIncident(n, sequences[year], alert, d);
      NewIncidentCode(n, sequences[year], alert, d);
      if exists i :: 0 <= i < |incidents| && incidents[i].code == incident.code {
        ok := false;
        return;
      }
      incidents := incidents + [incident];
      Attach(n, alert, "INCIDENT_CREATED", "Incident created from alert");
      ok := Record(alert, Some(n), d);
    }

    /** Processes one stored alert in one transaction. */
    method ProcessAlert(alertId: nat, rules: seq<Rule>, windowMs: int)
      returns (r: Processed, pick: Option<nat>)
      requires alertId < |alerts| && alerts[alertId].id == alertId
      modifies this
      ensures pick.Some? ==> pick.value < old(|incidents|)
      ensures !old(HasEvent(events, alertId)) ==> IsFirst(pick, old(State()), old(alerts[alertId]), windowMs)
      ensures r == Process(old(State()), alertId, rules, windowMs, pick)
      ensures State() == if r.Committed? then r.db else old(State())
    {
      hide InWindow, Decide, BuildCorrelationKey, IsRecovery, Correlate, Recover, Create, RecordDecision,
        NextCode, FirstJoinable, LastRecoverable, HasCode, HasResult, HasEvent;
      var alert, before := alerts[alertId], State();
      pick := None;
      var linked := FindEvent(alertId);
      if linked.Some? {
        r := Committed(before, ALREADY_PROCESSED, Some(events[linked.value].incidentId));
        return;
      }
      var window := SelectWindow(alert, windowMs);
      var d := Decide(window, rules, alert);
      var key := BuildCorrelationKey(alert);
      var ok: bool;
      if IsRecovery(alert.eventType) {
        pick := FindRecoverable(key);
        PickInRange(pick, before, alert, windowMs);
        if pick.Some? {
          ok := RecoverInto(pick.value, alert, d);
        } else {
          ok := Record(alert, None, d);
        }
        if ok {
          r := Committed(State(), if pick.Some? then RECOVERY_DETECTED else IGNORED, pick);
        }
      } else {
        pick := FindJoinable(alert, key, windowMs);
        PickInRange(pick, before, alert, windowMs);
        if pick.Some? {
          ok := CorrelateInto(pick.value, alert, d);
          if ok { r := Committed(State(), CORRELATED, pick); }
        } else {
          var n: nat;
          ok, n := CreateFor(alert, d);
          if ok { r := Committed(State(), CREATED, Some(n)); }
        }
      }
      if !ok {
        Rollback(before);
        r := Aborted;
      }
    }

    /** The counters and the timeline row that an impact refresh writes. */
    method WriteImpact(id: nat, counters: Counters)
      requires id < |incidents|
      modifies this`incidents, this`timeline
      ensures State() == RefreshImpact(old(State()), id, counters)
    {
      incidents := incidents[id := incidents[id].(counters := counters)];
      timeline := timeline
        + [TimelineRow(id, "IMPACT_RECALCULATED", "Customer impact recalculated", None, "SYSTEM")];
    }

    // ---------------------------------------------------------------- operator actions

    /** A status change by an operator: refused for an unknown incident or a transition the table does not list. */
    method ChangeIncident(id: nat, change: Change, now: int) returns (r: ChangeResult)
      modifies this
      ensures r == Transition(old(State()), id, change, now)
      ensures State() == if r.Changed? then r.db else old(State())
      ensures r.NotFound? <==> id >= old(|incidents|)
      ensures r.InvalidTransition?
        <==> id < old(|incidents|) && !CanTransition(old(incidents[id]).status, change.status)
      ensures r.Changed? ==>
        && |incidents| == old(|incidents|) && ChangedAt(old(incidents[id]), incidents[id], change.status, now)
        && (forall n :: 0 <= n < |incidents| && n != id ==> incidents[n] == old(incidents[n]))
        && timeline == old(timeline) + [
             TimelineRow(id, change.eventType, "Status changed to " + StatusName(change.status), change.note,
                         change.performedBy)]
    {
      if id >= |incidents| { return NotFound; }
      var incident := incidents[id];
      if !CanTransition(incident.status, change.status) { return InvalidTransition; }
      incidents := incidents[id := ChangeStatus(incident, change.status, now)];
      timeline := timeline
        + [TimelineRow(id, change.eventType, "Status changed to " + StatusName(change.status), change.note,
                       change.performedBy)];
      clock := Max(clock, now);
      r := Changed(State());
    }

    method Acknowledge(id: nat, note: Option<string>, performedBy: string, now: int) returns (r: ChangeResult)
      modifies this
      ensures r == Transition(old(State()), id, Change(INVESTIGATING, note, performedBy, "INCIDENT_ACKNOWLEDGED"), now)
      ensures State() == if r.Changed? then r.db else old(State())
      ensures r.Changed? ==>
        |incidents| == old(|incidents|) && ChangedAt(old(incidents[id]), incidents[id], INVESTIGATING, now)
      ensures r.Changed? ==>
        timeline == old(timeline) + [
          TimelineRow(id, "INCIDENT_ACKNOWLEDGED", "Status changed to INVESTIGATING", note, performedBy)]
    {
      r := ChangeIncident(id, Change(INVESTIGATING, note, performedBy, "INCIDENT_ACKNOWLEDGED"), now);
      assert "Status changed to " + StatusName(INVESTIGATING) == "Status changed to INVESTIGATING";
    }

    method Resolve(id: nat, note: Option<string>, performedBy: string, now: int) returns (r: ChangeResult)
      modifies this
      ensures r == Transition(old(State()), id, Change(RESOLVED, note, performedBy, "INCIDENT_RESOLVED"), now)
      ensures State() == if r.Changed? then r.db else old(State())
      ensures r.Changed? ==>
        |incidents| == old(|incidents|) && ChangedAt(old(incidents[id]), incidents[id], RESOLVED, now)
      ensures r.Changed? ==>
        timeline == old(timeline) + [
          TimelineRow(id, "INCIDENT_RESOLVED", "Status changed to RESOLVED", note, performedBy)]
    {
      r := ChangeIncident(id, Change(RESOLVED, note, performedBy, "INCIDENT_RESOLVED"), now);
      assert "Status changed to " + StatusName(RESOLVED) == "Status changed to RESOLVED";
    }

    method Close(id: nat, note: Option<string>, performedBy: string, now: int) returns (r: ChangeResult)
      modifies this
      ensures r == Transition(old(State()), id, Change(CLOSED, note, performedBy, "INCIDENT_CLOSED"), now)
      ensures State() == if r.Changed? then r.db else old(State())
      ensures r.Changed? ==>
        |incidents| == old(|incidents|) && ChangedAt(old(incidents[id]), incidents[id], CLOSED, now)
      ensures r.Changed? ==>
        timeline == old(timeline) + [
          TimelineRow(id, "INCIDENT_CLOSED", "Status changed to CLOSED", note, performedBy)]
    {
      r := ChangeIncident(id, Change(CLOSED, note, performedBy, "INCIDENT_CLOSED"), now);
      assert "Status changed to " + StatusName(CLOSED) == "Status changed to CLOSED";
    }
  }

  /** The incident after a status change at this time: nothing else about it changes. */
  predicate ChangedAt(before: Incident, after: Incident, status: IncidentStatus, now: int) {
    && after.status == status
    && after.resolvedAt == (if status == RESOLVED then Some(now) else before.resolvedAt)
    && after.closedAt == (if status == CLOSED then Some(now) else before.closedAt)
    && after.acknowledgedAt
       == (if status == INVESTIGATING && before.acknowledgedAt.None? then Some(now) else before.acknowledgedAt)
    && after.durationSeconds
       == (if status in {RESOLVED, CLOSED} then Max(0, (now - before.startedAt) / 1000) else before.durationSeconds)
    && after == before.(status := after.status, resolvedAt := after.resolvedAt, closedAt := after.closedAt,
                        acknowledgedAt := after.acknowledgedAt, durationSeconds := after.durationSeconds)
  }

  lemma NewIncidentCode(n: nat, number: nat, alert: Alert, d: Decision)
    ensures NewIncident(n, number, alert, d).code == Text.IncidentCode(YearOf(alert.detectedAt), number)
  {
    hide YearOf, Title, InitialCounters;
  }

  lemma PickInRange(pick: Option<nat>, db: Db, alert: Alert, windowMs: int)
    requires IsFirst(pick, db, alert, windowMs)
    ensures pick.Some? ==> pick.value < |db.incidents|
  {
  }
}
