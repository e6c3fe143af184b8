/**
  What every run of the incident engine keeps, from an empty database and with transactions
  committed one at a time: alerts, operator actions and impact refreshes in any order.
*/
module EngineInvariants {
  import opened Prelude
  import opened Records
  import opened Alerts
  import opened Correlation
  import opened IncidentEngine

  // ---------------------------------------------------------------- rows refer to rows, unique columns are unique

  ghost predicate IdsMatch(db: Db) {
    && (forall i :: 0 <= i < |db.alerts| ==> db.alerts[i].id == i)
    && (forall i :: 0 <= i < |db.incidents| ==> db.incidents[i].id == i)
  }

  ghost predicate UniqueColumns(db: Db) {
    && (forall i, j :: 0 <= i < j < |db.alerts| ==> db.alerts[i].externalEventId != db.alerts[j].externalEventId)
    && (forall i, j :: 0 <= i < j < |db.events| ==> db.events[i].alertId != db.events[j].alertId)
    && (forall i, j :: 0 <= i < j < |db.results| ==> db.results[i].alertId != db.results[j].alertId)
  }

  ghost predicate References(db: Db) {
    && (forall i :: 0 <= i < |db.events| ==>
          db.events[i].alertId < |db.alerts| && db.events[i].incidentId < |db.incidents|)
    && (forall i :: 0 <= i < |db.results| ==>
          && db.results[i].alertId < |db.alerts|
          && db.results[i].eventType == db.alerts[db.results[i].alertId].eventType
          && (db.results[i].incidentId.Some? ==> db.results[i].incidentId.value < |db.incidents|))
  }

  /** An alert has an incident event exactly when it has a correlation result, recoveries aside. */
  ghost predicate LinkedTogether(db: Db) {
    && (forall a: nat :: HasEvent(db.events, a) ==> HasResult(db.results, a))
    && (forall a: nat :: a < |db.alerts| && !IsRecovery(db.alerts[a].eventType) ==>
          (HasEvent(db.events, a) <==> HasResult(db.results, a)))
  }

  ghost predicate TablesOk(db: Db) {
    IdsMatch(db) && UniqueColumns(db) && References(db) && LinkedTogether(db)
  }

  /** A transaction that links alert `a` to incident `n`: what it does to the event and result tables. */
  ghost predicate Links(db: Db, next: Db, a: nat, n: nat) {
    && a < |db.alerts| && n < |next.incidents|
    && |db.incidents| <= |next.incidents|
    && (forall i :: 0 <= i < |next.incidents| ==> next.incidents[i].id == i)
    && next.alerts == MarkCorrelated(db.alerts, a)
    && |next.events| == |db.events| + 1 && next.events[..|db.events|] == db.events
    && next.events[|db.events|].alertId == a && next.events[|db.events|].incidentId == n
    && |next.results| == |db.results| + 1 && next.results[..|db.results|] == db.results
    && next.results[|db.results|].alertId == a && next.results[|db.results|].incidentId == Some(n)
    && next.results[|db.results|].eventType == db.alerts[a].eventType
  }

  lemma EventAppended(events: seq<EventRow>, e: EventRow, a: nat)
    ensures HasEvent(events + [e], a) <==> HasEvent(events, a) || e.alertId == a
  {
    var more := events + [e];
    assert more[|events|] == e;
    assert forall i :: 0 <= i < |events| ==> more[i] == events[i];
  }

  lemma ResultAppended(results: seq<ResultRow>, r: ResultRow, a: nat)
    ensures HasResult(results + [r], a) <==> HasResult(results, a) || r.alertId == a
  {
    var more := results + [r];
    assert more[|results|] == r;
    assert forall i :: 0 <= i < |results| ==> more[i] == results[i];
  }

  lemma LinkKeepsReferences(db: Db, next: Db, a: nat, n: nat)
    requires IdsMatch(db) && UniqueColumns(db) && References(db)
    requires Links(db, next, a, n)
    requires !HasEvent(db.events, a) && !HasResult(db.results, a)
    ensures IdsMatch(next) && UniqueColumns(next) && References(next)
  {
    assert forall i :: 0 <= i < |db.events| ==> next.events[i] == db.events[i];
    assert forall i :: 0 <= i < |db.results| ==> next.results[i] == db.results[i];
  }

  lemma LinkKeepsLinkedTogether(db: Db, next: Db, a: nat, n: nat)
    requires LinkedTogether(db)
    requires Links(db, next, a, n)
    ensures LinkedTogether(next)
  {
    var e, r := next.events[|db.events|], next.results[|db.results|];
    assert next.events == db.events + [e];
    assert next.results == db.results + [r];
    forall b: nat
      ensures HasEvent(next.events, b) <==> HasEvent(db.events, b) || b == a
      ensures HasResult(next.results, b) <==> HasResult(db.results, b) || b == a
    {
      EventAppended(db.events, e, b);
      ResultAppended(db.results, r, b);
    }
  }

  lemma TransactionsLink(db: Db, alert: Alert, d: Decision, n: nat)
    requires IdsMatch(db) && alert.id < |db.alerts| && db.alerts[alert.id] == alert
    ensures n < |db.incidents| ==> Links(db, Correlate(db, alert, d, n), alert.id, n)
    ensures n < |db.incidents| ==> Links(db, Recover(db, alert, d, n), alert.id, n)
    ensures Links(db, Create(db, alert, d), alert.id, |db.incidents|)
  {
  }

  lemma IgnoredKeepsTables(db: Db, alert: Alert, d: Decision)
    requires TablesOk(db) && alert.id < |db.alerts| && db.alerts[alert.id] == alert
    requires IsRecovery(alert.eventType) && !HasResult(db.results, alert.id)
    ensures TablesOk(RecordDecision(db, alert, None, d))
  {
    var next := RecordDecision(db, alert, None, d);
    var r := next.results[|db.results|];
    forall b: nat ensures HasResult(next.results, b) <==> HasResult(db.results, b) || b == alert.id {
      ResultAppended(db.results, r, b);
    }
  }

  lemma ProcessKeepsTables(db: Db, id: nat, rules: seq<Rule>, windowMs: int, pick: Option<nat>)
    requires TablesOk(db) && id < |db.alerts| && (pick.Some? ==> pick.value < |db.incidents|)
    ensures var r := Process(db, id, rules, windowMs, pick);
      r.Committed? ==> TablesOk(r.db)
  {
    hide Analyze, IsRecovery, Correlate, Recover, Create, RecordDecision, NextCode, HasCode, Links;
    var alert := db.alerts[id];
    var d := Analyze(db.alerts, rules, alert, windowMs);
    var r := Process(db, id, rules, windowMs, pick);
    if r.Committed? && r.outcome != ALREADY_PROCESSED {
      if r.outcome == IGNORED {
        IgnoredKeepsTables(db, alert, d);
      } else {
        TransactionsLink(db, alert, d, if pick.Some? then pick.value else 0);
        LinkKeepsReferences(db, r.db, id, r.incidentId.value);
        LinkKeepsLinkedTogether(db, r.db, id, r.incidentId.value);
      }
    }
  }

  lemma IngestKeepsTables(db: Db, e: Event)
    requires TablesOk(db)
    ensures TablesOk(Ingest(db, e).db)
  {
    var next := Ingest(db, e).db;
    if !HasAlert(db.alerts, e.eventId) {
      assert forall i :: 0 <= i < |db.alerts| ==> next.alerts[i] == db.alerts[i];
      assert !HasEvent(db.events, |db.alerts|) && !HasResult(db.results, |db.alerts|);
    }
  }

  lemma ApplyKeepsTables(db: Db, s: Step, windowMs: int)
    requires TablesOk(db) && Enabled(db, s, windowMs)
    ensures TablesOk(Apply(db, s, windowMs))
  {
    match s
    case IngestStep(e) => IngestKeepsTables(db, e);
    case ProcessStep(id, rules, pick) => ProcessKeepsTables(db, id, rules, windowMs, pick);
    case ChangeStep(_, _, _) =>
    case RefreshStep(_, _) =>
  }
}
