/**
  Where the status, the recorded times and the counters of an incident come from: each is computed
  here from the steps of the run alone, and shown to be what the incident says.
*/
module StatusTimes {
  import opened Prelude
  import opened Records
  import opened Alerts
  import opened Calendar
  import opened Correlation
  import opened Lifecycle
  import opened IncidentEngine
  import opened EngineRuns

  /** The step is an operator's change of incident n to one of the statuses, and it is carried out. */
  predicate Commits(db: Db, s: Step, n: nat, statuses: set<IncidentStatus>) {
    && s.ChangeStep? && s.incidentId == n && n < |db.incidents|
    && CanTransition(db.incidents[n].status, s.change.status) && s.change.status in statuses
  }

  /** The step processes a recovery alert, for the first time, with incident n as the one to recover. */
  predicate Recovers(db: Db, s: Step, n: nat) {
    && s.ProcessStep? && s.alertId < |db.alerts| && IsRecovery(db.alerts[s.alertId].eventType) && s.pick == Some(n)
    && !HasEvent(db.events, s.alertId) && !HasResult(db.results, s.alertId)
  }

  const ANY_STATUS := {INVESTIGATING, CONFIRMED, IN_PROGRESS, MONITORING, RESOLVED, CLOSED, FALSE_POSITIVE}

  // ---------------------------------------------------------------- one step

  /** What the step makes of the status and the times of an incident; `before` is None for one that it creates. */
  ghost predicate StepWrites(db: Db, s: Step, n: nat, before: Option<Incident>, after: Incident) {
    && after.status == (
         if Commits(db, s, n, ANY_STATUS) then s.change.status
         else if Recovers(db, s, n) then MONITORING
         else if before.Some? then before.value.status
         else DETECTED)
    && after.resolvedAt == (
         if Commits(db, s, n, {RESOLVED}) then Some(s.now)
         else if before.Some? then before.value.resolvedAt else None)
    && after.closedAt == (
         if Commits(db, s, n, {CLOSED}) then Some(s.now) else if before.Some? then before.value.closedAt else None)
    && after.acknowledgedAt == (
         if before.Some? && before.value.acknowledgedAt.Some? then before.value.acknowledgedAt
         else if Commits(db, s, n, {INVESTIGATING}) then Some(s.now) else None)
    && after.durationSeconds == (
         if Commits(db, s, n, {RESOLVED, CLOSED}) then Max(0, (s.now - after.startedAt) / 1000)
         else if before.Some? then before.value.durationSeconds else 0)
  }

  function RowOf(db: Db, n: nat): Option<Incident> { if n < |db.incidents| then Some(db.incidents[n]) else None }

  /** Which processing steps recover, and what each kind of outcome makes of the incident table. */
  lemma ProcessByOutcome(db: Db, id: nat, rules: seq<Rule>, windowMs: int, pick: Option<nat>, n: nat)
    requires id < |db.alerts| && db.alerts[id].id == id && (pick.Some? ==> pick.value < |db.incidents|)
    ensures var r, d := Process(db, id, rules, windowMs, pick), Analyze(db.alerts, rules, db.alerts[id], windowMs);
      && (Recovers(db, ProcessStep(id, rules, pick), n)
          <==> r.Committed? && r.outcome == RECOVERY_DETECTED && pick == Some(n))
      && (r.Committed? ==>
            match r.outcome
            case CREATED => r.db == Create(db, db.alerts[id], d)
            case CORRELATED =>
              pick.Some? && r.db.incidents == db.incidents[pick.value := ApplyDecision(db.incidents[pick.value], d)]
            case RECOVERY_DETECTED =>
              pick.Some?
              && r.db.incidents == db.incidents[pick.value := db.incidents[pick.value].(status := MONITORING)]
            case ALREADY_PROCESSED => r.db.incidents == db.incidents
            case IGNORED => r.db.incidents == db.incidents)
  {
    hide Analyze, IsRecovery, NextCode, HasCode, Create, ApplyDecision, HasEvent, HasResult, MarkCorrelated;
  }

  lemma CreateWrites(db: Db, s: Step, d: Decision, n: nat)
    requires s.ProcessStep? && s.alertId < |db.alerts| && db.alerts[s.alertId].id == s.alertId
    requires !Recovers(db, s, n) && n <= |db.incidents|
    ensures var next := Create(db, db.alerts[s.alertId], d);
      n < |next.incidents| && StepWrites(db, s, n, RowOf(db, n), next.incidents[n])
  {
    hide IsRecovery, Title, InitialCounters, YearOf, Recovers, MarkCorrelated;
  }

  lemma ProcessWrites(db: Db, s: Step, windowMs: int, n: nat)
    requires Enabled(db, s, windowMs) && s.ProcessStep? && n < |Apply(db, s, windowMs).incidents|
    ensures StepWrites(db, s, n, RowOf(db, n), Apply(db, s, windowMs).incidents[n])
  {
    hide Analyze, Process, Title, Recovers, Create, IsFirst, HasEvent;
    PicksExist(db, s, windowMs);
    ProcessByOutcome(db, s.alertId, s.rules, windowMs, s.pick, n);
    var d := Analyze(db.alerts, s.rules, db.alerts[s.alertId], windowMs);
    var r := Process(db, s.alertId, s.rules, windowMs, s.pick);
    if r.Committed? && r.outcome == CREATED {
      CreateSize(db, db.alerts[s.alertId], d);
      CreateWrites(db, s, d, n);
    }
  }

  lemma CreateSize(db: Db, alert: Alert, d: Decision)
    requires alert.id < |db.alerts|
    ensures |Create(db, alert, d).incidents| == |db.incidents| + 1
  {
    hide NewIncident, MarkCorrelated;
  }

  lemma ChangeWrites(db: Db, s: Step, windowMs: int, n: nat)
    requires Enabled(db, s, windowMs) && s.ChangeStep? && n < |Apply(db, s, windowMs).incidents|
    ensures StepWrites(db, s, n, RowOf(db, n), Apply(db, s, windowMs).incidents[n])
  {
  }

  /** Every step writes exactly this. */
  lemma ApplyWrites(db: Db, s: Step, windowMs: int, n: nat)
    requires Enabled(db, s, windowMs) && n < |Apply(db, s, windowMs).incidents|
    ensures StepWrites(db, s, n, RowOf(db, n), Apply(db, s, windowMs).incidents[n])
  {
    match s
    case IngestStep(_) =>
    case ProcessStep(_, _, _) => ProcessWrites(db, s, windowMs, n);
    case ChangeStep(_, _, _) => ChangeWrites(db, s, windowMs, n);
    case RefreshStep(_, _) =>
  }

  // ---------------------------------------------------------------- whole runs

  /** When an operator last changed incident n to one of the statuses, before moment i. */
  ghost function LastChange(states: seq<Db>, steps: seq<Step>, i: nat, n: nat,
                            statuses: set<IncidentStatus>): Option<int>
    requires i <= |steps| && |states| == |steps| + 1
  {
    if i == 0 then None
    else if Commits(states[i - 1], steps[i - 1], n, statuses) then Some(steps[i - 1].now)
    else LastChange(states, steps, i - 1, n, statuses)
  }

  /** When an operator first did. */
  ghost function FirstChange(states: seq<Db>, steps: seq<Step>, i: nat, n: nat,
                             statuses: set<IncidentStatus>): Option<int>
    requires i <= |steps| && |states| == |steps| + 1
  {
    if i == 0 then None
    else
      var earlier := FirstChange(states, steps, i - 1, n, statuses);
      if earlier.Some? then earlier
      else if Commits(states[i - 1], steps[i - 1], n, statuses) then Some(steps[i - 1].now) else None
  }

  /** The status that the last change or recovery of incident n gave it. */
  ghost function LastStatus(states: seq<Db>, steps: seq<Step>, i: nat, n: nat): IncidentStatus
    requires i <= |steps| && |states| == |steps| + 1
  {
    if i == 0 then DETECTED
    else if Commits(states[i - 1], steps[i - 1], n, ANY_STATUS) then steps[i - 1].change.status
    else if Recovers(states[i - 1], steps[i - 1], n) then MONITORING
    else LastStatus(states, steps, i - 1, n)
  }

  ghost predicate SaysItsSteps(states: seq<Db>, steps: seq<Step>, i: nat, n: nat)
    requires i <= |steps| && |states| == |steps| + 1 && n < |states[i].incidents|
  {
    var incident := states[i].incidents[n];
    var completed := LastChange(states, steps, i, n, {RESOLVED, CLOSED});
    && incident.status == LastStatus(states, steps, i, n)
    && incident.resolvedAt == LastChange(states, steps, i, n, {RESOLVED})
    && incident.closedAt == LastChange(states, steps, i, n, {CLOSED})
    && incident.acknowledgedAt == FirstChange(states, steps, i, n, {INVESTIGATING})
    && incident.durationSeconds == (
         match completed
         case None => 0
         case Some(t) => Max(0, (t - incident.startedAt) / 1000))
  }

  /** Before an incident exists no step concerns it. */
  lemma {:induction false} NothingBeforeCreation(states: seq<Db>, steps: seq<Step>, windowMs: int, i: nat, n: nat,
                                                 statuses: set<IncidentStatus>)
    requires IsRun(states, steps, windowMs) && i <= |steps| && n >= |states[i].incidents|
    ensures LastChange(states, steps, i, n, statuses) == FirstChange(states, steps, i, n, statuses) == None
    ensures LastStatus(states, steps, i, n) == DETECTED
  {
    hide Apply;
    if i > 0 {
      assert Enabled(states[i - 1], steps[i - 1], windowMs);
      RunGrows(states, steps, windowMs, i - 1, i);
      NoPickBeyond(states[i - 1], steps[i - 1], windowMs, n);
      hide Enabled, Recovers;
      NothingBeforeCreation(states, steps, windowMs, i - 1, n, statuses);
    }
  }

  lemma NoPickBeyond(db: Db, s: Step, windowMs: int, n: nat)
    requires Enabled(db, s, windowMs) && n >= |db.incidents|
    ensures !Recovers(db, s, n)
  {
    if s.ProcessStep? { PicksExist(db, s, windowMs); }
  }

  /**
    At every moment of every run the status of an incident is the one that the last change or recovery
    gave it; resolvedAt is the time of its last change to RESOLVED, closedAt of its change to CLOSED,
    acknowledgedAt of its first change to INVESTIGATING; and the duration is the whole seconds from its
    start to its last change to RESOLVED or CLOSED, never negative, or 0 before that.
  */
  lemma {:induction false} TimesAreOfTheirSteps(states: seq<Db>, steps: seq<Step>, windowMs: int, i: nat, n: nat)
    requires IsRun(states, steps, windowMs) && i <= |steps| && n < |states[i].incidents|
    ensures SaysItsSteps(states, steps, i, n)
  {
    hide Apply, Enabled, Commits, Recovers;
    if i > 0 {
      assert Enabled(states[i - 1], steps[i - 1], windowMs);
      assert states[i - 1 + 1] == Apply(states[i - 1], steps[i - 1], windowMs);
      ApplyWrites(states[i - 1], steps[i - 1], windowMs, n);
      if n < |states[i - 1].incidents| {
        TimesAreOfTheirSteps(states, steps, windowMs, i - 1, n);
        RunGrows(states, steps, windowMs, i - 1, i);
        hide IsRun;
        SaysLater(states, steps, i, n);
      } else {
        SaysFirst(states, steps, windowMs, i, n);
      }
    }
  }

  lemma SaysLater(states: seq<Db>, steps: seq<Step>, i: nat, n: nat)
    requires 0 < i <= |steps| && |states| == |steps| + 1
    requires n < |states[i - 1].incidents| && n < |states[i].incidents| && SaysItsSteps(states, steps, i - 1, n)
    requires states[i].incidents[n].startedAt == states[i - 1].incidents[n].startedAt
    requires StepWrites(states[i - 1], steps[i - 1], n, Some(states[i - 1].incidents[n]), states[i].incidents[n])
    ensures SaysItsSteps(states, steps, i, n)
  {
    hide Commits, Recovers;
  }

  lemma SaysFirst(states: seq<Db>, steps: seq<Step>, windowMs: int, i: nat, n: nat)
    requires IsRun(states, steps, windowMs) && 0 < i <= |steps|
    requires n >= |states[i - 1].incidents| && n < |states[i].incidents|
    requires StepWrites(states[i - 1], steps[i - 1], n, None, states[i].incidents[n])
    ensures SaysItsSteps(states, steps, i, n)
  {
    hide Commits, Recovers, Apply, Enabled;
    NothingBeforeCreation(states, steps, windowMs, i - 1, n, {RESOLVED});
    NothingBeforeCreation(states, steps, windowMs, i - 1, n, {CLOSED});
    NothingBeforeCreation(states, steps, windowMs, i - 1, n, {RESOLVED, CLOSED});
    NothingBeforeCreation(states, steps, windowMs, i - 1, n, {INVESTIGATING});
  }

  // ---------------------------------------------------------------- where the counters come from

  /** The counters that the metrics of an alert give: what is missing counts as nobody. */
  ghost predicate CountedFrom(c: Counters, metrics: Option<Metrics>) {
    var offline := if metrics.Some? && metrics.value.onuOffline.Some? then metrics.value.onuOffline.value else 0;
    var online := if metrics.Some? && metrics.value.onuOnline.Some? then metrics.value.onuOnline.value else 0;
    && c.confirmed == c.affected == c.offlineOnus == offline
    && c.online == c.onlineOnus == online
    && c.potential == if metrics.Some? && metrics.value.onuTotal.Some? then metrics.value.onuTotal.value else 0
  }

  /** What the step makes of the counters of an incident; `before` is None for one that it creates. */
  ghost predicate StepCounts(db: Db, s: Step, before: Option<Incident>, n: nat, after: Incident) {
    if s.RefreshStep? && s.refreshed == n then after.counters == s.counters
    else if before.Some? then after.counters == before.value.counters
    else s.ProcessStep? && s.alertId < |db.alerts| && CountedFrom(after.counters, db.alerts[s.alertId].metrics)
  }

  lemma CreateCounts(db: Db, s: Step, d: Decision, n: nat)
    requires s.ProcessStep? && s.alertId < |db.alerts| && db.alerts[s.alertId].id == s.alertId && n <= |db.incidents|
    ensures var next := Create(db, db.alerts[s.alertId], d);
      n < |next.incidents| && StepCounts(db, s, RowOf(db, n), n, next.incidents[n])
  {
    hide Title, YearOf, MarkCorrelated;
  }

  /** Every step does exactly this. */
  lemma ApplyCounts(db: Db, s: Step, windowMs: int, n: nat)
    requires Enabled(db, s, windowMs) && n < |Apply(db, s, windowMs).incidents|
    ensures StepCounts(db, s, RowOf(db, n), n, Apply(db, s, windowMs).incidents[n])
  {
    hide Analyze, Process, Title, Create, IsFirst, HasEvent, CountedFrom;
    if s.ProcessStep? {
      PicksExist(db, s, windowMs);
      ProcessByOutcome(db, s.alertId, s.rules, windowMs, s.pick, n);
      var d := Analyze(db.alerts, s.rules, db.alerts[s.alertId], windowMs);
      var r := Process(db, s.alertId, s.rules, windowMs, s.pick);
      if r.Committed? && r.outcome == CREATED {
        CreateSize(db, db.alerts[s.alertId], d);
        CreateCounts(db, s, d, n);
      }
    }
  }

  /** The last refresh of incident n before moment i. */
  ghost function LastRefresh(steps: seq<Step>, i: nat, n: nat): Option<Counters>
    requires i <= |steps|
  {
    if i == 0 then None
    else if steps[i - 1].RefreshStep? && steps[i - 1].refreshed == n then Some(steps[i - 1].counters)
    else LastRefresh(steps, i - 1, n)
  }

  /** The step at moment j created incident n, from an alert with these metrics. */
  ghost predicate CreatedAt(states: seq<Db>, steps: seq<Step>, j: nat, n: nat, metrics: Option<Metrics>)
    requires |states| == |steps| + 1
  {
    && j < |steps| && |states[j].incidents| <= n < |states[j + 1].incidents|
    && steps[j].ProcessStep? && steps[j].alertId < |states[j].alerts|
    && states[j].alerts[steps[j].alertId].metrics == metrics
  }

  /**
    At every moment of every run the counters of an incident are those of its last impact refresh, or,
    before the first one, those that the metrics of the alert gave that it was created from.
  */
  lemma {:induction false} CountersAreOfLastRefresh(states: seq<Db>, steps: seq<Step>, windowMs: int, i: nat, n: nat)
    returns (j: nat, metrics: Option<Metrics>)
    requires IsRun(states, steps, windowMs) && i <= |steps| && n < |states[i].incidents|
    ensures CreatedAt(states, steps, j, n, metrics) && j < i
    ensures match LastRefresh(steps, i, n)
            case Some(c) => states[i].incidents[n].counters == c
            case None => CountedFrom(states[i].incidents[n].counters, metrics)
  {
    hide Apply, Enabled, CountedFrom;
    assert Enabled(states[i - 1], steps[i - 1], windowMs);
    assert states[i - 1 + 1] == Apply(states[i - 1], steps[i - 1], windowMs);
    ApplyCounts(states[i - 1], steps[i - 1], windowMs, n);
    if n < |states[i - 1].incidents| {
      j, metrics := CountersAreOfLastRefresh(states, steps, windowMs, i - 1, n);
    } else {
      NoRefreshBeyond(states, steps, windowMs, i - 1, n);
      NotRefreshed(states[i - 1], steps[i - 1], windowMs, n);
      j, metrics := i - 1, states[i - 1].alerts[steps[i - 1].alertId].metrics;
    }
  }

  lemma NotRefreshed(db: Db, s: Step, windowMs: int, n: nat)
    requires Enabled(db, s, windowMs) && n >= |db.incidents|
    ensures !(s.RefreshStep? && s.refreshed == n)
  {
  }

  lemma {:induction false} NoRefreshBeyond(states: seq<Db>, steps: seq<Step>, windowMs: int, i: nat, n: nat)
    requires IsRun(states, steps, windowMs) && i <= |steps| && n >= |states[i].incidents|
    ensures LastRefresh(steps, i, n) == None
  {
    hide Apply, Enabled;
    if i > 0 {
      assert Enabled(states[i - 1], steps[i - 1], windowMs);
      RunGrows(states, steps, windowMs, i - 1, i);
      NotRefreshed(states[i - 1], steps[i - 1], windowMs, n);
      NoRefreshBeyond(states, steps, windowMs, i - 1, n);
    }
  }
}
