/**
  What reopening a resolved incident does over whole runs: when it puts two open incidents into one
  window, and how the service level calculation sees an incident that is open again.
*/
module Reopening {
  import opened Prelude
  import opened Records
  import opened Alerts
  import opened Correlation
  import opened Lifecycle
  import opened IncidentEngine
  import opened EngineInvariants
  import opened Separation
  import opened EngineRuns
  import Folding
  import Numbering
  import Sla

  // ---------------------------------------------------------------- open incidents with one key

  ghost predicate SpreadUpTo(states: seq<Db>, windowMs: int, i: nat)
    requires i < |states|
  {
    forall m :: 0 <= m <= i ==> OpenSpread(states[m].incidents, windowMs)
  }

  ghost predicate NoCollision(states: seq<Db>, steps: seq<Step>, windowMs: int, i: nat)
    requires i <= |steps| && |states| == |steps| + 1
  {
    forall k :: 0 <= k < i ==> !Collides(states[k], steps[k], windowMs)
  }

  /**
    All open incidents with the same key are spread out at every moment up to the i-th exactly when
    no reopening before it had an open neighbour; every other reopening is harmless.
  */
  lemma {:induction false} AllOpenAreSpread(states: seq<Db>, steps: seq<Step>, windowMs: int, i: nat)
    requires IsRun(states, steps, windowMs) && i <= |steps|
    ensures SpreadUpTo(states, windowMs, i) <==> NoCollision(states, steps, windowMs, i)
  {
    hide Apply, Enabled, Collides, OpenSpread, Inv;
    if i == 0 {
      StartIsSpread(states[0], windowMs);
    } else {
      AllOpenAreSpread(states, steps, windowMs, i - 1);
      RunKeepsInv(states, steps, windowMs, i - 1);
      InvGivesKeys(states[i - 1], windowMs);
      assert SpreadUpTo(states, windowMs, i)
          <==> SpreadUpTo(states, windowMs, i - 1) && OpenSpread(states[i].incidents, windowMs);
      assert NoCollision(states, steps, windowMs, i)
          <==> NoCollision(states, steps, windowMs, i - 1) && !Collides(states[i - 1], steps[i - 1], windowMs);
      if OpenSpread(states[i - 1].incidents, windowMs) {
        ApplyKeepsOpenSpreadExactly(states[i - 1], steps[i - 1], windowMs);
        assert states[i] == Apply(states[i - 1], steps[i - 1], windowMs);
      }
    }
  }

  lemma StartIsSpread(db: Db, windowMs: int)
    requires exists clock :: db == EmptyDb(clock)
    ensures OpenSpread(db.incidents, windowMs)
  {
  }

  lemma InvGivesKeys(db: Db, windowMs: int)
    requires Inv(db, windowMs)
    ensures forall n :: 0 <= n < |db.incidents| ==> db.incidents[n].correlationKey.Some?
  {
    hide TablesOk, Numbering.Numbered, Folding.Folded, Separation.Spread, AllConsistent;
    FoldedKeys(db);
  }

  // ---------------------------------------------------------------- the service level view of an open incident

  ghost predicate ReopenedBefore(states: seq<Db>, steps: seq<Step>, i: nat, n: nat)
    requires i <= |steps| && |states| == |steps| + 1
  {
    exists k :: 0 <= k < i && Reopens(states[k], steps[k]) && steps[k].incidentId == n
  }

  lemma {:induction false} ResolvedWhileOpenWasReopened(states: seq<Db>, steps: seq<Step>, windowMs: int,
                                                        i: nat, n: nat)
    requires IsRun(states, steps, windowMs) && i <= |steps|
    requires n < |states[i].incidents| && OpenYetResolved(states[i].incidents[n])
    ensures ReopenedBefore(states, steps, i, n)
  {
    hide Apply, Enabled, OpenYetResolved, Reopens;
    if i > 0 {
      OnlyReopeningResolves(states[i - 1], steps[i - 1], windowMs, n);
      if OpenYetResolved(states[i - 1].incidents[n]) {
        ResolvedWhileOpenWasReopened(states, steps, windowMs, i - 1, n);
      }
    }
  }

  lemma ReopenedStaysResolved(states: seq<Db>, steps: seq<Step>, windowMs: int, i: nat, n: nat)
    requires IsRun(states, steps, windowMs) && i <= |steps| && ReopenedBefore(states, steps, i, n)
    ensures n < |states[i].incidents| && states[i].incidents[n].resolvedAt.Some?
  {
    var k :| 0 <= k < i && Reopens(states[k], steps[k]) && steps[k].incidentId == n;
    hide Apply, Enabled, TablesOk, Numbering.Numbered, Folding.Folded, Separation.Spread;
    RunKeepsInv(states, steps, windowMs, k);
    RunGrows(states, steps, windowMs, k, i);
    hide IsRun;
    assert Consistent(states[k].incidents[n], states[k].clock);
    assert Later(states[k].incidents[n], states[i].incidents[n]);
  }

  lemma InvGivesTimes(db: Db, windowMs: int, n: nat)
    requires Inv(db, windowMs) && n < |db.incidents|
    ensures Consistent(db.incidents[n], db.clock)
  {
    hide TablesOk, Numbering.Numbered, Folding.Folded, Separation.Spread, Consistent;
  }

  /**
    At every moment of every run, an open incident is an outage in progress for the service level
    calculation exactly when it was never reopened: a reopened one keeps its resolution time and
    counts as recovered although it is open.
  */
  lemma OpenOutageExactly(states: seq<Db>, steps: seq<Step>, windowMs: int, i: nat, n: nat, now: int)
    requires IsRun(states, steps, windowMs) && i <= |steps|
    requires n < |states[i].incidents| && IsOpen(states[i].incidents[n].status)
    requires now >= states[i].clock && now >= states[i].incidents[n].startedAt
    ensures Sla.InProgress(states[i].incidents[n].startedAt, states[i].incidents[n].resolvedAt, now)
      <==> !ReopenedBefore(states, steps, i, n)
  {
    RunKeepsInv(states, steps, windowMs, i);
    InvGivesTimes(states[i], windowMs, n);
    hide Inv, Apply, Enabled, ReopenedBefore;
    if states[i].incidents[n].resolvedAt.Some? {
      ResolvedWhileOpenWasReopened(states, steps, windowMs, i, n);
    } else if ReopenedBefore(states, steps, i, n) {
      ReopenedStaysResolved(states, steps, windowMs, i, n);
    }
  }

  // ---------------------------------------------------------------- such a run

  function Last(states: seq<Db>): Db
    requires states != []
  {
    states[|states| - 1]
  }

  lemma Extend(states: seq<Db>, steps: seq<Step>, windowMs: int, s: Step) returns (more: seq<Db>, moreSteps: seq<Step>)
    requires IsRun(states, steps, windowMs) && Enabled(Last(states), s, windowMs)
    ensures more == states + [Apply(Last(states), s, windowMs)] && moreSteps == steps + [s]
    ensures IsRun(more, moreSteps, windowMs)
  {
    hide Apply, Enabled;
    more, moreSteps := states + [Apply(Last(states), s, windowMs)], steps + [s];
    forall i | 0 <= i < |moreSteps|
      ensures Enabled(more[i], moreSteps[i], windowMs) && more[i + 1] == Apply(more[i], moreSteps[i], windowMs)
    {
      if i < |steps| { assert more[i] == states[i] && more[i + 1] == states[i + 1] && moreSteps[i] == steps[i]; }
    }
  }

  lemma LastKeepsInv(states: seq<Db>, steps: seq<Step>, windowMs: int)
    requires IsRun(states, steps, windowMs)
    ensures states != [] && Inv(Last(states), windowMs)
  {
    hide Inv;
    RunKeepsInv(states, steps, windowMs, |steps|);
  }

  lemma AddIngest(states: seq<Db>, steps: seq<Step>, windowMs: int, e: Event)
    returns (more: seq<Db>, moreSteps: seq<Step>)
    requires IsRun(states, steps, windowMs) && states != [] && !HasAlert(Last(states).alerts, e.eventId)
    ensures IsRun(more, moreSteps, windowMs) && more != []
    ensures Last(more) == Last(states).(alerts := Last(states).alerts + [NewAlert(|Last(states).alerts|, e)])
  {
    hide IsRun, HasAlert, NewAlert;
    more, moreSteps := Extend(states, steps, windowMs, IngestStep(e));
  }

  lemma ProcessCreates(db: Db, id: nat, windowMs: int)
    requires Inv(db, windowMs) && id < |db.alerts| && Admitted(db.alerts[id].eventType)
    requires !HasEvent(db.events, id)
    requires FirstJoinable(None, db.incidents, db.alerts[id], BuildCorrelationKey(db.alerts[id]), windowMs)
    ensures db.alerts[id].id == id && IsFirst(None, db, db.alerts[id], windowMs)
    ensures Process(db, id, [], windowMs, None)
         == Committed(Create(db, db.alerts[id], Analyze(db.alerts, [], db.alerts[id], windowMs)), CREATED,
                      Some(|db.incidents|))
  {
    AdmittedIsNotRecovery(db.alerts[id].eventType);
    AlertIds(db, id, windowMs);
    hide Inv, Analyze, BuildCorrelationKey, FirstJoinable, Admitted, IsRecovery, Create, HasEvent, HasResult,
      NextCode, HasCode;
    AttemptLinks(db, id, [], windowMs, None);
  }

  lemma AlertIds(db: Db, id: nat, windowMs: int)
    requires Inv(db, windowMs) && id < |db.alerts|
    ensures db.alerts[id].id == id
  {
    hide Numbering.Numbered, Folding.Folded, Separation.Spread, AllConsistent, UniqueColumns, References,
      LinkedTogether;
  }

  /** An admitted alert that joins no incident creates one. */
  lemma AddCreate(states: seq<Db>, steps: seq<Step>, windowMs: int, id: nat)
    returns (more: seq<Db>, moreSteps: seq<Step>)
    requires IsRun(states, steps, windowMs) && states != []
    requires id < |Last(states).alerts| && Admitted(Last(states).alerts[id].eventType)
      && !HasEvent(Last(states).events, id)
    requires FirstJoinable(None, Last(states).incidents, Last(states).alerts[id],
                           BuildCorrelationKey(Last(states).alerts[id]), windowMs)
    ensures IsRun(more, moreSteps, windowMs) && more != []
    ensures var db, next, alert := Last(states), Last(more), Last(states).alerts[id];
      && next.alerts == MarkCorrelated(db.alerts, id)
      && |next.incidents| == |db.incidents| + 1 && db.incidents <= next.incidents
      && next.incidents[|db.incidents|].status == DETECTED
      && next.incidents[|db.incidents|].detectedAt == alert.detectedAt
      && next.incidents[|db.incidents|].correlationKey == Some(BuildCorrelationKey(alert))
  {
    var db := Last(states);
    LastKeepsInv(states, steps, windowMs);
    ProcessCreates(db, id, windowMs);
    AnalysisKey(db.alerts, [], db.alerts[id], windowMs);
    hide IsRun, Inv, Process, Analyze, BuildCorrelationKey, FirstJoinable, Admitted, HasEvent, MarkCorrelated, IsFirst;
    more, moreSteps := Extend(states, steps, windowMs, ProcessStep(id, [], None));
  }

  lemma AddChange(states: seq<Db>, steps: seq<Step>, windowMs: int, n: nat, status: IncidentStatus)
    returns (more: seq<Db>, moreSteps: seq<Step>)
    requires IsRun(states, steps, windowMs) && states != []
    requires n < |Last(states).incidents| && CanTransition(Last(states).incidents[n].status, status)
    ensures IsRun(more, moreSteps, windowMs) && more == states + [Last(more)]
    ensures moreSteps == steps
      + [ChangeStep(n, Change(status, None, "operator", "INCIDENT_STATUS_CHANGED"), Last(states).clock)]
    ensures Last(more).alerts == Last(states).alerts && |Last(more).incidents| == |Last(states).incidents|
    ensures Last(more).incidents[n].status == status
    ensures Last(more).incidents[n].detectedAt == Last(states).incidents[n].detectedAt
    ensures Last(more).incidents[n].correlationKey == Last(states).incidents[n].correlationKey
    ensures forall m :: 0 <= m < |Last(states).incidents| && m != n ==>
      Last(more).incidents[m] == Last(states).incidents[m]
  {
    hide IsRun, CanTransition, StatusName;
    more, moreSteps := Extend(states, steps, windowMs,
      ChangeStep(n, Change(status, None, "operator", "INCIDENT_STATUS_CHANGED"), Last(states).clock));
  }

  /** An operator takes the only incident from detection to resolution. */
  lemma AddResolution(states: seq<Db>, steps: seq<Step>, windowMs: int) returns (more: seq<Db>, moreSteps: seq<Step>)
    requires IsRun(states, steps, windowMs) && states != []
    requires |Last(states).incidents| == 1 && Last(states).incidents[0].status == DETECTED
    ensures IsRun(more, moreSteps, windowMs) && more != []
    ensures Last(more).alerts == Last(states).alerts && |Last(more).incidents| == 1
    ensures Last(more).incidents[0].status == RESOLVED
    ensures Last(more).incidents[0].detectedAt == Last(states).incidents[0].detectedAt
    ensures Last(more).incidents[0].correlationKey == Last(states).incidents[0].correlationKey
  {
    hide IsRun;
    more, moreSteps := AddChange(states, steps, windowMs, 0, INVESTIGATING);
    more, moreSteps := AddChange(more, moreSteps, windowMs, 0, CONFIRMED);
    more, moreSteps := AddChange(more, moreSteps, windowMs, 0, IN_PROGRESS);
    more, moreSteps := AddChange(more, moreSteps, windowMs, 0, RESOLVED);
  }

  lemma OneResolved(e: Event, windowMs: int) returns (states: seq<Db>, steps: seq<Step>)
    requires Admitted(e.eventType)
    ensures IsRun(states, steps, windowMs) && states != []
    ensures |Last(states).alerts| == 1 && Last(states).alerts == MarkCorrelated([NewAlert(0, e)], 0)
    ensures |Last(states).incidents| == 1 && Last(states).incidents[0].status == RESOLVED
    ensures Last(states).incidents[0].detectedAt == e.timestamp
    ensures Last(states).incidents[0].correlationKey == Some(BuildCorrelationKey(NewAlert(0, e)))
  {
    hide BuildCorrelationKey, Admitted, Apply, Enabled, IsRecovery;
    states, steps := [EmptyDb(0)], [];
    assert IsRun(states, steps, windowMs);
    assert Last(states) == EmptyDb(0);
    hide IsRun;
    states, steps := AddIngest(states, steps, windowMs, e);
    assert Last(states).alerts == [NewAlert(0, e)];
    states, steps := AddCreate(states, steps, windowMs, 0);
    states, steps := AddResolution(states, steps, windowMs);
  }

  /** The same outage, reported again under another event id. */
  function ReportedAgain(e: Event): Event { e.(eventId := e.eventId + "-2") }

  lemma SecondIsNew(e: Event)
    ensures !HasAlert(MarkCorrelated([NewAlert(0, e)], 0), ReportedAgain(e).eventId)
  {
    assert |ReportedAgain(e).eventId| != |e.eventId|;
  }

  lemma NotLinkedYet(db: Db, a: nat, windowMs: int)
    requires Inv(db, windowMs) && a >= |db.alerts|
    ensures !HasEvent(db.events, a)
  {
    hide Numbering.Numbered, Folding.Folded, Separation.Spread, AllConsistent, UniqueColumns, LinkedTogether, IdsMatch;
  }

  lemma NothingOpenToJoin(incidents: seq<Incident>, alert: Alert, key: string, windowMs: int)
    requires |incidents| == 1 && incidents[0].status == RESOLVED
    ensures FirstJoinable(None, incidents, alert, key, windowMs)
  {
  }

  /** While the first incident is resolved, the second report creates another one at the same time. */
  lemma OneResolvedOneOpen(e: Event, windowMs: int) returns (states: seq<Db>, steps: seq<Step>)
    requires Admitted(e.eventType)
    ensures IsRun(states, steps, windowMs) && states != [] && |Last(states).incidents| == 2
    ensures Last(states).incidents[0].status == RESOLVED && Last(states).incidents[1].status == DETECTED
    ensures Last(states).incidents[0].detectedAt == Last(states).incidents[1].detectedAt
    ensures Last(states).incidents[0].correlationKey == Last(states).incidents[1].correlationKey
  {
    hide BuildCorrelationKey, Admitted, MarkCorrelated, IsRecovery, FirstJoinable, HasAlert, HasEvent, IsRun, Inv;
    states, steps := OneResolved(e, windowMs);
    var first := Last(states).incidents;
    LastKeepsInv(states, steps, windowMs);
    NotLinkedYet(Last(states), 1, windowMs);
    SecondIsNew(e);
    states, steps := AddIngest(states, steps, windowMs, ReportedAgain(e));
    var alert := NewAlert(1, ReportedAgain(e));
    assert Last(states).alerts[1] == alert;
    KeysEqualExactlyOnSamePon(0, e, 1, ReportedAgain(e));
    NothingOpenToJoin(Last(states).incidents, alert, BuildCorrelationKey(alert), windowMs);
    states, steps := AddCreate(states, steps, windowMs, 1);
    assert Last(states).incidents[0] == first[0];
  }

  /**
    A collision is reached by a run: report, resolve, report again, reopen. Before the last step all
    open incidents are spread, and after it they are not.
  */
  lemma ReopeningCanBreakSpread(e: Event, windowMs: nat) returns (states: seq<Db>, steps: seq<Step>)
    requires Admitted(e.eventType)
    ensures IsRun(states, steps, windowMs) && |states| == |steps| + 1 && steps != []
    ensures Collides(states[|steps| - 1], steps[|steps| - 1], windowMs)
    ensures steps[|steps| - 1].ChangeStep? && steps[|steps| - 1].incidentId == 0
    ensures OpenSpread(states[|steps| - 1].incidents, windowMs) && !OpenSpread(states[|steps|].incidents, windowMs)
    ensures |states[|steps|].incidents| == 2 && IsOpen(states[|steps|].incidents[0].status)
  {
    hide Admitted;
    states, steps := OneResolvedOneOpen(e, windowMs);
    var db := Last(states);
    assert |states| == |steps| + 1 && db == states[|steps|];
    assert Neighbour(db.incidents, 0, windowMs);
    assert OpenSpread(db.incidents, windowMs);
    LastKeepsInv(states, steps, windowMs);
    InvGivesKeys(db, windowMs);
    hide IsRun, Neighbour, OpenSpread, Inv;
    var n := |steps|;
    states, steps := AddChange(states, steps, windowMs, 0, IN_PROGRESS);
    assert states[n] == db;
    assert Collides(db, steps[n], windowMs);
    assert states[n + 1] == Last(states);
    LastStep(states, steps, windowMs);
    ApplyKeepsOpenSpreadExactly(db, steps[n], windowMs);
  }

  lemma LastStep(states: seq<Db>, steps: seq<Step>, windowMs: int)
    requires IsRun(states, steps, windowMs) && steps != []
    ensures |states| == |steps| + 1 && Enabled(states[|steps| - 1], steps[|steps| - 1], windowMs)
    ensures states[|steps|] == Apply(states[|steps| - 1], steps[|steps| - 1], windowMs)
  {
    hide Apply, Enabled;
    assert states[|steps| - 1 + 1] == Apply(states[|steps| - 1], steps[|steps| - 1], windowMs);
  }

  lemma CollisionReopens(db: Db, s: Step, windowMs: int)
    requires Collides(db, s, windowMs)
    ensures Reopens(db, s)
  {
  }

  /** In that run the reopened incident is open, and yet no outage for the service level calculation. */
  lemma ReopenedCountsAsRecovered(e: Event, windowMs: nat, now: int) returns (states: seq<Db>, steps: seq<Step>)
    requires Admitted(e.eventType)
    ensures IsRun(states, steps, windowMs) && |states| == |steps| + 1 && |states[|steps|].incidents| == 2
    ensures var reopened := states[|steps|].incidents[0];
      && IsOpen(reopened.status)
      && (now >= states[|steps|].clock && now >= reopened.startedAt ==>
            !Sla.InProgress(reopened.startedAt, reopened.resolvedAt, now))
  {
    hide IsRun, OpenSpread, Admitted, Collides, Reopens;
    states, steps := ReopeningCanBreakSpread(e, windowMs);
    var n := |steps|;
    CollisionReopens(states[n - 1], steps[n - 1], windowMs);
    assert ReopenedBefore(states, steps, n, 0);
    if now >= states[n].clock && now >= states[n].incidents[0].startedAt {
      OpenOutageExactly(states, steps, windowMs, n, 0, now);
    }
  }
}
