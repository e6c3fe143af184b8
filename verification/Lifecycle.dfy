/** The incident state machine and the fields a status change writes. */
module Lifecycle {
  import opened Prelude
  import opened Records

  function NextStatuses(from: IncidentStatus): set<IncidentStatus> {
    match from
    case DETECTED => {INVESTIGATING, FALSE_POSITIVE}
    case INVESTIGATING => {CONFIRMED, FALSE_POSITIVE}
    case CONFIRMED => {IN_PROGRESS, FALSE_POSITIVE}
    case IN_PROGRESS => {MONITORING, RESOLVED}
    case MONITORING => {IN_PROGRESS, RESOLVED}
    case RESOLVED => {IN_PROGRESS, CLOSED}
    case CLOSED => {}
    case FALSE_POSITIVE => {}
  }

  predicate CanTransition(from: IncidentStatus, to: IncidentStatus) { to in NextStatuses(from) }

  predicate IsOpen(status: IncidentStatus) { status !in {RESOLVED, CLOSED, FALSE_POSITIVE} }

  /** Work on the incident has started: it left triage and can no longer be called a false positive. */
  predicate Progressed(status: IncidentStatus) { status in {IN_PROGRESS, MONITORING, RESOLVED, CLOSED} }

  /** Whole seconds between the start and now, never negative. */
  function ElapsedSeconds(startedAt: int, now: int): int { Max(0, (now - startedAt) / 1000) }

  /** The update a status change performs; fields the source leaves undefined keep their value. */
  function ChangeStatus(incident: Incident, status: IncidentStatus, now: int): Incident {
    incident.(
      status := status,
      acknowledgedAt :=
        if status == INVESTIGATING && incident.acknowledgedAt.None? then Some(now) else incident.acknowledgedAt,
      resolvedAt := if status == RESOLVED then Some(now) else incident.resolvedAt,
      closedAt := if status == CLOSED then Some(now) else incident.closedAt,
      durationSeconds :=
        if status in {RESOLVED, CLOSED} then ElapsedSeconds(incident.startedAt, now) else incident.durationSeconds)
  }

  // ---------------------------------------------------------------- what every incident satisfies

  /** What the status says about the recorded times, when no recorded time lies after `clock`. */
  predicate Consistent(incident: Incident, clock: int) {
    && (incident.status in {INVESTIGATING, CONFIRMED} ==> incident.acknowledgedAt.Some?)
    && (!Progressed(incident.status) ==> incident.resolvedAt.None?)
    && (incident.status in {RESOLVED, CLOSED} ==> incident.resolvedAt.Some?)
    && (incident.resolvedAt.Some? ==> incident.resolvedAt.value <= clock)
    && (incident.closedAt.Some? <==> incident.status == CLOSED)
    && (incident.status == CLOSED ==>
          && incident.resolvedAt.value <= incident.closedAt.value
          && incident.durationSeconds == ElapsedSeconds(incident.startedAt, incident.closedAt.value))
  }

  /** What one incident row may become: the relation is reflexive and transitive. */
  predicate Later(before: Incident, after: Incident) {
    && after.id == before.id && after.code == before.code
    && after.detectedAt == before.detectedAt && after.startedAt == before.startedAt
    && after.correlationKey == before.correlationKey
    && after.oltExternalId == before.oltExternalId && after.ponIdentifier == before.ponIdentifier
    && before.severity.Rank() <= after.severity.Rank()
    && before.rootCauseConfidence <= after.rootCauseConfidence
    && (before.status in {CLOSED, FALSE_POSITIVE} ==> after.(counters := before.counters) == before)
    && (before.acknowledgedAt.Some? ==> after.acknowledgedAt == before.acknowledgedAt)
    && (before.resolvedAt.Some? ==> after.resolvedAt.Some?)
    && (Progressed(before.status) ==> Progressed(after.status))
  }

  lemma LaterIsTransitive(a: Incident, b: Incident, c: Incident)
    requires Later(a, b) && Later(b, c)
    ensures Later(a, c)
  {
    if a.status in {CLOSED, FALSE_POSITIVE} {
      assert b.status == a.status;
      assert c.(counters := a.counters) == b.(counters := a.counters);
    }
  }

  lemma ChangeStatusIsLater(incident: Incident, status: IncidentStatus, now: int)
    requires CanTransition(incident.status, status)
    ensures Later(incident, ChangeStatus(incident, status, now))
  {
  }

  lemma ChangeStatusIsConsistent(incident: Incident, status: IncidentStatus, clock: int, now: int)
    requires Consistent(incident, clock) && CanTransition(incident.status, status) && clock <= now
    ensures Consistent(ChangeStatus(incident, status, now), now)
  {
  }

  // ---------------------------------------------------------------- what operators can reach

  predicate InTriage(status: IncidentStatus) { status in {DETECTED, INVESTIGATING, CONFIRMED} }

  /** How far the work has come. */
  function Stage(status: IncidentStatus): nat {
    match status
    case DETECTED => 0
    case INVESTIGATING => 1
    case CONFIRMED => 2
    case IN_PROGRESS => 3
    case MONITORING => 3
    case RESOLVED => 4
    case CLOSED => 5
    case FALSE_POSITIVE => 5
  }

  /**
    One operator action moves an incident to the next stage, between the two working statuses, from
    resolved back to work, or out of triage as a false positive, and never anything else.
  */
  lemma OneAction(from: IncidentStatus, to: IncidentStatus)
    ensures CanTransition(from, to) <==>
      (|| (InTriage(from) && to == FALSE_POSITIVE)
       || (Stage(to) == Stage(from) + 1 && to != FALSE_POSITIVE && to != MONITORING)
       || (Stage(from) == Stage(to) == 3 && from != to)
       || (from == RESOLVED && to == IN_PROGRESS))
  {
    assert Stage(from) <= 5 && Stage(to) <= 5;
  }

  /** Statuses an operator can move an incident through, one after the other. */
  ghost predicate IsPath(path: seq<IncidentStatus>) {
    path != [] && forall i :: 0 <= i < |path| - 1 ==> CanTransition(path[i], path[i + 1])
  }

  /**
    What is reachable: triage only moves forward, one can leave it for a false positive or for the
    working statuses, and those reach each other and the end, but never triage again.
  */
  predicate MayReach(from: IncidentStatus, to: IncidentStatus) {
    || from == to
    || (InTriage(from) && (to == FALSE_POSITIVE || Progressed(to) || (InTriage(to) && Stage(from) < Stage(to))))
    || (Progressed(from) && from != CLOSED && Progressed(to))
  }

  lemma {:induction false} PathsStayInReach(path: seq<IncidentStatus>)
    requires IsPath(path)
    ensures MayReach(path[0], path[|path| - 1])
  {
    if |path| > 1 {
      var front := path[..|path| - 1];
      assert forall i :: 0 <= i < |front| ==> front[i] == path[i];
      PathsStayInReach(front);
      assert CanTransition(path[|path| - 2], path[|path| - 2 + 1]);
    }
  }

  /** The status to go to next. */
  function Toward(from: IncidentStatus, to: IncidentStatus): (next: IncidentStatus)
    requires MayReach(from, to) && from != to
    ensures CanTransition(from, next) && MayReach(next, to)
    ensures next == to || Remaining(next, to) < Remaining(from, to)
  {
    if CanTransition(from, to) then to
    else
      match from
      case DETECTED => INVESTIGATING
      case INVESTIGATING => CONFIRMED
      case CONFIRMED => IN_PROGRESS
      case IN_PROGRESS => RESOLVED
      case MONITORING => RESOLVED
      case RESOLVED => IN_PROGRESS
  }

  function Remaining(from: IncidentStatus, to: IncidentStatus): nat {
    if CanTransition(from, to) then 1 else if from == RESOLVED then 2 else 10 - Stage(from)
  }

  lemma {:induction false} Route(from: IncidentStatus, to: IncidentStatus) returns (path: seq<IncidentStatus>)
    requires MayReach(from, to)
    ensures IsPath(path) && path[0] == from && path[|path| - 1] == to
    decreases if from == to then 0 else Remaining(from, to)
  {
    if from == to {
      path := [from];
    } else {
      var next := Toward(from, to);
      var rest := Route(next, to);
      path := [from] + rest;
      assert forall i :: 1 <= i < |path| ==> path[i] == rest[i - 1];
      hide MayReach, CanTransition;
    }
  }

  /** The state machine reaches exactly that: nothing more, and every bit of it. */
  lemma ReachableExactly(from: IncidentStatus, to: IncidentStatus)
    ensures MayReach(from, to) <==> exists path :: IsPath(path) && path[0] == from && path[|path| - 1] == to
  {
    if MayReach(from, to) {
      var path := Route(from, to);
      assert IsPath(path) && path[0] == from && path[|path| - 1] == to;
    }
    if path :| IsPath(path) && path[0] == from && path[|path| - 1] == to {
      PathsStayInReach(path);
    }
  }

  /** No triage stage is skipped: on the way from detection to work an operator passes through all of them. */
  lemma {:induction false} StagesAreNotSkipped(path: seq<IncidentStatus>, stage: nat)
    requires IsPath(path) && path[|path| - 1] != FALSE_POSITIVE
    requires Stage(path[0]) <= stage <= Stage(path[|path| - 1])
    ensures exists i :: 0 <= i < |path| && Stage(path[i]) == stage
  {
    var last := |path| - 1;
    if Stage(path[last]) != stage {
      var front := path[..last];
      assert forall i :: 0 <= i < |front| ==> front[i] == path[i];
      assert CanTransition(path[last - 1], path[last - 1 + 1]);
      StagesAreNotSkipped(front, stage);
      var i :| 0 <= i < |front| && Stage(front[i]) == stage;
      assert Stage(path[i]) == stage;
    }
  }
}
