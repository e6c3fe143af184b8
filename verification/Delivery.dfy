/**
  Exactly-once effect under interleaving. HTTP requests, broker deliveries and pulled events all
  run the same sequence of separately committed steps: insert the alert or read the existing one;
  look for a link; in one transaction insert the link and the correlation result; refresh impact;
  dispatch a notification. Any number of attempts interleave, and any of them may stop anywhere.

  The transaction looked for a link before it inserts one, so by then the answer may be stale; only
  the unique indexes protect the insert. Which incident is chosen plays no part here, so the
  decision of a transaction is left open.
*/
module Delivery {
  import opened Prelude
  import opened IncidentEngine

  datatype Phase =
    | Started
    | Ingested(alert: nat)
    | Unlinked(alert: nat)
    | Processed(outcome: Outcome)
    | Refreshed(outcome: Outcome)
    | Finished
    | Stopped

  /** One attempt for an event, and the link row it inserted, if it did. */
  datatype Attempt = Attempt(eventId: string, phase: Phase, effect: Option<nat>)

  /** Tables with unique columns: alerts by event id, links and results by alert; and the dispatches made. */
  datatype State = State(
    alerts: seq<string>,
    links: seq<nat>,
    results: seq<nat>,
    attempts: seq<Attempt>,
    dispatched: seq<nat>)

  datatype Step =
    | Begin(eventId: string)
    | InsertAlert(k: nat)
    | LookForLink(k: nat)
    | Commit(k: nat, outcome: Outcome)
    | Refresh(k: nat)
    | Dispatch(k: nat)
    | Stop(k: nat)

  predicate Enabled(s: State, t: Step) {
    match t
    case Begin(_) => true
    case InsertAlert(k) => k < |s.attempts| && s.attempts[k].phase.Started?
    case LookForLink(k) => k < |s.attempts| && s.attempts[k].phase.Ingested?
    case Commit(k, outcome) =>
      k < |s.attempts| && s.attempts[k].phase.Unlinked? && outcome in {CREATED, CORRELATED}
    case Refresh(k) => k < |s.attempts| && s.attempts[k].phase.Processed?
    case Dispatch(k) => k < |s.attempts| && s.attempts[k].phase.Refreshed?
    case Stop(k) => k < |s.attempts| && !s.attempts[k].phase.Finished?
  }

  function To(s: State, k: nat, phase: Phase): seq<Attempt>
    requires k < |s.attempts|
  {
    s.attempts[k := s.attempts[k].(phase := phase)]
  }

  function RowOf(alerts: seq<string>, eventId: string): (i: nat)
    requires eventId in alerts
    ensures i < |alerts| && alerts[i] == eventId
  {
    if alerts[|alerts| - 1] == eventId then |alerts| - 1 else RowOf(alerts[..|alerts| - 1], eventId)
  }

  function Apply(s: State, t: Step): State
    requires Enabled(s, t)
  {
    match t
    case Begin(eventId) => s.(attempts := s.attempts + [Attempt(eventId, Started, None)])
    case InsertAlert(k) =>
      var eventId := s.attempts[k].eventId;
      if eventId in s.alerts then s.(attempts := To(s, k, Ingested(RowOf(s.alerts, eventId))))
      else s.(alerts := s.alerts + [eventId], attempts := To(s, k, Ingested(|s.alerts|)))
    case LookForLink(k) =>
      var a := s.attempts[k].phase.alert;
      s.(attempts := To(s, k, if a in s.links then Processed(ALREADY_PROCESSED) else Unlinked(a)))
    case Commit(k, outcome) =>
      var a := s.attempts[k].phase.alert;
      if a in s.links || a in s.results then s.(attempts := To(s, k, Stopped))
      else
        s.(links := s.links + [a], results := s.results + [a],
           attempts := s.attempts[k := s.attempts[k].(phase := Processed(outcome), effect := Some(|s.links|))])
    case Refresh(k) => s.(attempts := To(s, k, Refreshed(s.attempts[k].phase.outcome)))
    case Dispatch(k) =>
      s.(attempts := To(s, k, Finished),
         dispatched := if s.attempts[k].phase.outcome in {CREATED, CORRELATED} then s.dispatched + [k]
           else s.dispatched)
    case Stop(k) => s.(attempts := To(s, k, Stopped))
  }

  const EMPTY := State([], [], [], [], [])

  ghost predicate IsRun(states: seq<State>, steps: seq<Step>) {
    && |states| == |steps| + 1 && states[0] == EMPTY
    && forall i :: 0 <= i < |steps| ==> Enabled(states[i], steps[i]) && states[i + 1] == Apply(states[i], steps[i])
  }

  // ---------------------------------------------------------------- the invariant

  ghost predicate Distinct<T>(s: seq<T>) { forall i, j :: 0 <= i < j < |s| ==> s[i] != s[j] }

  ghost predicate TablesUnique(s: State) {
    && Distinct(s.alerts) && Distinct(s.links) && s.results == s.links
    && forall i :: 0 <= i < |s.links| ==> s.links[i] < |s.alerts|
  }

  /** An attempt works on the alert of its own event, and a link it inserted is for that alert. */
  ghost predicate AttemptOk(s: State, a: Attempt) {
    && (a.phase.Ingested? || a.phase.Unlinked? ==> a.phase.alert < |s.alerts| && s.alerts[a.phase.alert] == a.eventId)
    && (a.effect.Some? ==>
          a.effect.value < |s.links| && s.links[a.effect.value] < |s.alerts|
          && s.alerts[s.links[a.effect.value]] == a.eventId)
    && (a.effect.Some? ==> !a.phase.Started? && !a.phase.Ingested? && !a.phase.Unlinked?)
    && (a.phase.Processed? || a.phase.Refreshed? ==>
          (a.effect.Some? <==> a.phase.outcome in {CREATED, CORRELATED}))
  }

  ghost predicate AttemptsOk(s: State) {
    && (forall k :: 0 <= k < |s.attempts| ==> AttemptOk(s, s.attempts[k]))
    && (forall k, m :: 0 <= k < m < |s.attempts| && s.attempts[k].effect.Some? ==>
          s.attempts[k].effect != s.attempts[m].effect)
  }

  /** A dispatch was made by an attempt that inserted a link and then finished or stopped. */
  ghost predicate DispatchesOk(s: State) {
    && Distinct(s.dispatched)
    && forall i :: 0 <= i < |s.dispatched| ==>
         && s.dispatched[i] < |s.attempts|
         && s.attempts[s.dispatched[i]].effect.Some?
         && s.attempts[s.dispatched[i]].phase.Finished?
  }

  /** And no other way round: an attempt that inserted a link and finished has dispatched. */
  ghost predicate FinishedDispatched(s: State) {
    forall k: nat :: k < |s.attempts| && s.attempts[k].effect.Some? && s.attempts[k].phase.Finished? ==>
      k in s.dispatched
  }

  ghost predicate Inv(s: State) { TablesUnique(s) && AttemptsOk(s) && DispatchesOk(s) && FinishedDispatched(s) }

  // ---------------------------------------------------------------- every step keeps it

  /** A step that rewrites one attempt and neither table. */
  lemma MoveKeepsInv(s: State, k: nat, a: Attempt)
    requires Inv(s) && k < |s.attempts| && AttemptOk(s, a) && !s.attempts[k].phase.Finished?
    requires a.effect == s.attempts[k].effect && !a.phase.Finished?
    ensures Inv(s.(attempts := s.attempts[k := a]))
  {
    var next := s.(attempts := s.attempts[k := a]);
    forall m | 0 <= m < |next.attempts| ensures AttemptOk(next, next.attempts[m]) {
      assert AttemptOk(s, s.attempts[m]);
    }
  }

  lemma AlertsGrow(s: State, eventId: string)
    requires Inv(s) && eventId !in s.alerts
    ensures Inv(s.(alerts := s.alerts + [eventId]))
  {
    var next := s.(alerts := s.alerts + [eventId]);
    forall m | 0 <= m < |next.attempts| ensures AttemptOk(next, next.attempts[m]) {
      assert AttemptOk(s, s.attempts[m]);
    }
  }

  lemma CommitKeepsInv(s: State, k: nat, outcome: Outcome)
    requires Inv(s) && Enabled(s, Commit(k, outcome)) && s.attempts[k].phase.alert !in s.links
    ensures Inv(Apply(s, Commit(k, outcome)))
  {
    var next := Apply(s, Commit(k, outcome));
    assert AttemptOk(s, s.attempts[k]);
    assert forall i :: 0 <= i < |s.links| ==> next.links[i] == s.links[i];
    forall m | 0 <= m < |next.attempts| ensures AttemptOk(next, next.attempts[m]) {
      assert AttemptOk(s, s.attempts[m]);
    }
    CommitKeepsDispatches(s, k, outcome);
  }

  lemma CommitKeepsDispatches(s: State, k: nat, outcome: Outcome)
    requires DispatchesOk(s) && Enabled(s, Commit(k, outcome)) && s.attempts[k].phase.alert !in s.links
    ensures DispatchesOk(Apply(s, Commit(k, outcome)))
  {
  }

  lemma DispatchKeepsInv(s: State, k: nat)
    requires Inv(s) && Enabled(s, Dispatch(k))
    ensures Inv(Apply(s, Dispatch(k)))
  {
    assert AttemptOk(s, s.attempts[k]);
    var next := Apply(s, Dispatch(k));
    forall m | 0 <= m < |next.attempts| ensures AttemptOk(next, next.attempts[m]) {
      assert AttemptOk(s, s.attempts[m]);
    }
    hide AttemptOk;
    assert forall i :: 0 <= i < |s.dispatched| ==> s.dispatched[i] != k;
    DispatchIsRecorded(s, k);
  }

  lemma DispatchIsRecorded(s: State, k: nat)
    requires FinishedDispatched(s) && Enabled(s, Dispatch(k))
    requires s.attempts[k].effect.Some? ==> s.attempts[k].phase.outcome in {CREATED, CORRELATED}
    ensures FinishedDispatched(Apply(s, Dispatch(k)))
  {
    var next := Apply(s, Dispatch(k));
    forall m: nat | m < |next.attempts| && next.attempts[m].effect.Some? && next.attempts[m].phase.Finished?
      ensures m in next.dispatched
    {
      if m == k {
        assert next.dispatched[|s.dispatched|] == k;
      } else {
        assert m in s.dispatched;
      }
    }
  }

  lemma BeginKeepsInv(s: State, eventId: string)
    requires Inv(s)
    ensures Inv(Apply(s, Begin(eventId)))
  {
    var next := Apply(s, Begin(eventId));
    forall m | 0 <= m < |next.attempts| ensures AttemptOk(next, next.attempts[m]) {
      if m < |s.attempts| { assert AttemptOk(s, s.attempts[m]); }
    }
  }

  lemma ApplyKeepsInv(s: State, t: Step)
    requires Inv(s) && Enabled(s, t)
    ensures Inv(Apply(s, t))
  {
    if t.Begin? {
      BeginKeepsInv(s, t.eventId);
    } else {
      var k := t.k;
      var a := s.attempts[k];
      assert AttemptOk(s, a);
      assert t.Commit? ==> s.results == s.links;
      hide Inv;
      match t
      case InsertAlert(_) =>
        if a.eventId in s.alerts {
          MoveKeepsInv(s, k, a.(phase := Ingested(RowOf(s.alerts, a.eventId))));
        } else {
          AlertsGrow(s, a.eventId);
          MoveKeepsInv(s.(alerts := s.alerts + [a.eventId]), k, a.(phase := Ingested(|s.alerts|)));
        }
      case LookForLink(_) =>
        var linked := a.phase.alert in s.links;
        MoveKeepsInv(s, k, a.(phase := if linked then Processed(ALREADY_PROCESSED) else Unlinked(a.phase.alert)));
      case Commit(_, outcome) =>
        if a.phase.alert in s.links {
          MoveKeepsInv(s, k, a.(phase := Stopped));
        } else {
          CommitKeepsInv(s, k, outcome);
        }
      case Refresh(_) => MoveKeepsInv(s, k, a.(phase := Refreshed(a.phase.outcome)));
      case Dispatch(_) => DispatchKeepsInv(s, k);
      case Stop(_) => MoveKeepsInv(s, k, a.(phase := Stopped));
    }
  }

  lemma {:induction false} RunKeepsInv(states: seq<State>, steps: seq<Step>, i: nat)
    requires IsRun(states, steps) && i <= |steps|
    ensures Inv(states[i])
  {
    if i > 0 {
      hide Inv, Apply;
      RunKeepsInv(states, steps, i - 1);
      assert Enabled(states[i - 1], steps[i - 1]);
      ApplyKeepsInv(states[i - 1], steps[i - 1]);
      assert states[i] == Apply(states[i - 1], steps[i - 1]);
    }
  }

  // ---------------------------------------------------------------- main results

  /** The attempt created or correlated: its transaction inserted the link. */
  predicate Won(s: State, k: nat)
    requires k < |s.attempts|
  {
    s.attempts[k].effect.Some?
  }

  lemma SameEventSameEffect(s: State, k: nat, m: nat)
    requires Inv(s) && k < |s.attempts| && m < |s.attempts|
    requires s.attempts[k].effect.Some? && s.attempts[m].effect.Some?
    requires s.attempts[k].eventId == s.attempts[m].eventId
    ensures k == m
  {
    assert AttemptOk(s, s.attempts[k]) && AttemptOk(s, s.attempts[m]);
    var r, q := s.attempts[k].effect.value, s.attempts[m].effect.value;
    assert s.links[r] == s.links[q];
    assert r == q;
  }

  /**
    At every moment of every interleaving there is one alert row per event id, one link and one
    result per alert; of all the attempts for an event at most one created or correlated; and at
    most one notification was dispatched for it.
  */
  lemma ExactlyOnce(states: seq<State>, steps: seq<Step>, i: nat)
    requires IsRun(states, steps) && i <= |steps|
    ensures Distinct(states[i].alerts) && Distinct(states[i].links) && states[i].results == states[i].links
    ensures forall k, m :: 0 <= k < m < |states[i].attempts| && Won(states[i], k) && Won(states[i], m) ==>
      states[i].attempts[k].eventId != states[i].attempts[m].eventId
    ensures forall p, q :: 0 <= p < q < |states[i].dispatched| ==>
      && states[i].dispatched[p] < |states[i].attempts| && states[i].dispatched[q] < |states[i].attempts|
      && states[i].attempts[states[i].dispatched[p]].eventId != states[i].attempts[states[i].dispatched[q]].eventId
  {
    var s := states[i];
    RunKeepsInv(states, steps, i);
    hide IsRun, AttemptsOk;
    forall k, m | 0 <= k < m < |s.attempts| && Won(s, k) && Won(s, m)
      ensures s.attempts[k].eventId != s.attempts[m].eventId
    {
      if s.attempts[k].eventId == s.attempts[m].eventId { SameEventSameEffect(s, k, m); }
    }
  }

  /** Once an event is linked, no step of an attempt for it changes the alert, link or result table. */
  lemma ReplayChangesNoTable(s: State, t: Step)
    requires Inv(s) && Enabled(s, t) && !t.Begin?
    requires exists r :: 0 <= r < |s.links| && s.alerts[s.links[r]] == s.attempts[t.k].eventId
    ensures Apply(s, t).alerts == s.alerts && Apply(s, t).links == s.links && Apply(s, t).results == s.results
  {
    var r :| 0 <= r < |s.links| && s.alerts[s.links[r]] == s.attempts[t.k].eventId;
    assert AttemptOk(s, s.attempts[t.k]);
    if t.Commit? {
      assert s.attempts[t.k].phase.alert == s.links[r];
    }
  }

  // ---------------------------------------------------------------- lost notifications

  /** Some attempt for the event has dispatched. */
  ghost predicate Notified(s: State, eventId: string) {
    exists p :: 0 <= p < |s.dispatched| && s.dispatched[p] < |s.attempts|
      && s.attempts[s.dispatched[p]].eventId == eventId
  }

  /**
    At every moment of every interleaving: once an event is linked, a notification was dispatched
    for it exactly when the attempt that linked it has finished, whatever the other attempts did.
  */
  lemma NotifiedExactly(states: seq<State>, steps: seq<Step>, i: nat, k: nat)
    requires IsRun(states, steps) && i <= |steps| && k < |states[i].attempts| && Won(states[i], k)
    ensures Notified(states[i], states[i].attempts[k].eventId) <==> states[i].attempts[k].phase.Finished?
  {
    var s := states[i];
    RunKeepsInv(states, steps, i);
    hide IsRun, AttemptsOk, TablesUnique;
    if Notified(s, s.attempts[k].eventId) {
      var p :| 0 <= p < |s.dispatched| && s.dispatched[p] < |s.attempts|
        && s.attempts[s.dispatched[p]].eventId == s.attempts[k].eventId;
      SameEventSameEffect(s, k, s.dispatched[p]);
    }
    if s.attempts[k].phase.Finished? {
      assert k in s.dispatched;
      var p :| 0 <= p < |s.dispatched| && s.dispatched[p] == k;
    }
  }

  /** An attempt that stopped stays stopped. */
  lemma StepKeepsStopped(s: State, t: Step, k: nat)
    requires Enabled(s, t) && k < |s.attempts| && s.attempts[k].phase.Stopped?
    ensures k < |Apply(s, t).attempts| && Apply(s, t).attempts[k] == s.attempts[k]
  {
  }

  lemma {:induction false} RunKeepsStopped(states: seq<State>, steps: seq<Step>, i: nat, j: nat, k: nat)
    requires IsRun(states, steps) && i <= j <= |steps|
    requires k < |states[i].attempts| && states[i].attempts[k].phase.Stopped?
    ensures k < |states[j].attempts| && states[j].attempts[k] == states[i].attempts[k]
    decreases j
  {
    hide Apply, Enabled;
    if i < j {
      RunKeepsStopped(states, steps, i, j - 1, k);
      StepKeepsStopped(states[j - 1], steps[j - 1], k);
    }
  }

  /** A run that begins with this one. */
  ghost predicate Continues(more: seq<State>, moreSteps: seq<Step>, states: seq<State>, steps: seq<Step>) {
    IsRun(more, moreSteps) && states <= more && steps <= moreSteps
  }

  lemma ContinuesLater(more: seq<State>, moreSteps: seq<Step>, states: seq<State>, steps: seq<Step>)
    requires IsRun(states, steps) && Continues(more, moreSteps, states, steps)
    ensures |states| == |steps| + 1 && |more| == |moreSteps| + 1 && |steps| <= |moreSteps|
    ensures more[|steps|] == states[|steps|]
  {
  }

  /** An attempt that linked its event and has neither stopped nor finished can still dispatch. */
  lemma CanStillNotify(states: seq<State>, steps: seq<Step>, k: nat)
    returns (more: seq<State>, moreSteps: seq<Step>)
    requires IsRun(states, steps) && k < |states[|steps|].attempts| && Won(states[|steps|], k)
    requires !states[|steps|].attempts[k].phase.Stopped? && !states[|steps|].attempts[k].phase.Finished?
    ensures Continues(more, moreSteps, states, steps)
    ensures Notified(more[|moreSteps|], states[|steps|].attempts[k].eventId)
  {
    var s := states[|steps|];
    RunKeepsInv(states, steps, |steps|);
    assert AttemptOk(s, s.attempts[k]);
    LengthOfRun(states, steps);
    more, moreSteps := states, steps;
    hide IsRun, Inv, AttemptOk;
    if s.attempts[k].phase.Processed? {
      Extend(more, moreSteps, Refresh(k), Apply(s, Refresh(k)));
      more, moreSteps := more + [Apply(s, Refresh(k))], moreSteps + [Refresh(k)];
    }
    var ready := more[|moreSteps|];
    Extend(more, moreSteps, Dispatch(k), Apply(ready, Dispatch(k)));
    more, moreSteps := more + [Apply(ready, Dispatch(k))], moreSteps + [Dispatch(k)];
    var last := more[|moreSteps|];
    assert last.dispatched[|ready.dispatched|] == k;
  }

  /**
    Once an event is linked, its notification is lost for good, in every continuation, exactly when
    the attempt that linked it has stopped: a retry finds the event linked and does not dispatch.
  */
  lemma LossIsFinalExactly(states: seq<State>, steps: seq<Step>, k: nat)
    requires IsRun(states, steps) && k < |states[|steps|].attempts| && Won(states[|steps|], k)
    ensures states[|steps|].attempts[k].phase.Stopped? <==> forall more, moreSteps ::
      Continues(more, moreSteps, states, steps) ==> !Notified(more[|moreSteps|], states[|steps|].attempts[k].eventId)
  {
    var a := states[|steps|].attempts[k];
    hide Apply, Enabled;
    if a.phase.Stopped? {
      forall more, moreSteps | Continues(more, moreSteps, states, steps)
        ensures !Notified(more[|moreSteps|], a.eventId)
      {
        ContinuesLater(more, moreSteps, states, steps);
        RunKeepsStopped(more, moreSteps, |steps|, |moreSteps|, k);
        NotifiedExactly(more, moreSteps, |moreSteps|, k);
      }
    } else if a.phase.Finished? {
      NotifiedExactly(states, steps, |steps|, k);
      assert Continues(states, steps, states, steps);
    } else {
      var more, moreSteps := CanStillNotify(states, steps, k);
      assert Continues(more, moreSteps, states, steps);
    }
  }

  /** The state after: insert, look, commit, failed refresh; then a retry that inserts, looks and refreshes. */
  function Linked(e: string): State {
    State([e], [0], [0], [Attempt(e, Stopped, Some(0)), Attempt(e, Refreshed(ALREADY_PROCESSED), None)], [])
  }

  lemma Extend(states: seq<State>, steps: seq<Step>, t: Step, next: State)
    requires IsRun(states, steps) && Enabled(states[|steps|], t) && Apply(states[|steps|], t) == next
    ensures IsRun(states + [next], steps + [t])
  {
    hide Apply, Enabled;
    var more, all := states + [next], steps + [t];
    forall i | 0 <= i < |all| ensures Enabled(more[i], all[i]) && more[i + 1] == Apply(more[i], all[i]) {
      if i < |steps| { assert more[i] == states[i] && more[i + 1] == states[i + 1] && all[i] == steps[i]; }
    }
  }

  /** The attempt in first place inserts the alert, commits, and then stops. */
  lemma FirstAttemptStops(e: string) returns (states: seq<State>, steps: seq<Step>)
    ensures IsRun(states, steps)
    ensures states[|steps|] == State([e], [0], [0], [Attempt(e, Stopped, Some(0))], [])
  {
    states, steps := [EMPTY], [];
    assert IsRun(states, steps);
    hide IsRun;
    var next := State([], [], [], [Attempt(e, Started, None)], []);
    Extend(states, steps, Begin(e), next);
    states, steps := states + [next], steps + [Begin(e)];
    next := State([e], [], [], [Attempt(e, Ingested(0), None)], []);
    Extend(states, steps, InsertAlert(0), next);
    states, steps := states + [next], steps + [InsertAlert(0)];
    next := State([e], [], [], [Attempt(e, Unlinked(0), None)], []);
    Extend(states, steps, LookForLink(0), next);
    states, steps := states + [next], steps + [LookForLink(0)];
    next := State([e], [0], [0], [Attempt(e, Processed(CREATED), Some(0))], []);
    Extend(states, steps, Commit(0, CREATED), next);
    states, steps := states + [next], steps + [Commit(0, CREATED)];
    next := State([e], [0], [0], [Attempt(e, Stopped, Some(0))], []);
    Extend(states, steps, Stop(0), next);
    states, steps := states + [next], steps + [Stop(0)];
  }

  /** A run to that state. */
  lemma LostNotificationIsReachable(e: string) returns (states: seq<State>, steps: seq<Step>)
    ensures IsRun(states, steps) && states[|steps|] == Linked(e)
  {
    var done := Attempt(e, Stopped, Some(0));
    states, steps := FirstAttemptStops(e);
    LengthOfRun(states, steps);
    hide IsRun;
    var next := State([e], [0], [0], [done, Attempt(e, Started, None)], []);
    Extend(states, steps, Begin(e), next);
    states, steps := states + [next], steps + [Begin(e)];
    next := State([e], [0], [0], [done, Attempt(e, Ingested(0), None)], []);
    Extend(states, steps, InsertAlert(1), next);
    states, steps := states + [next], steps + [InsertAlert(1)];
    next := State([e], [0], [0], [done, Attempt(e, Processed(ALREADY_PROCESSED), None)], []);
    Extend(states, steps, LookForLink(1), next);
    states, steps := states + [next], steps + [LookForLink(1)];
    next := Linked(e);
    Extend(states, steps, Refresh(1), next);
    states, steps := states + [next], steps + [Refresh(1)];
  }

  /**
    At most once is not exactly once: when the attempt that created the incident stops before it
    dispatches, the retry finds the event linked, and no continuation ever dispatches for it.
  */
  lemma NotificationCanBeLost(e: string) returns (states: seq<State>, steps: seq<Step>)
    ensures IsRun(states, steps) && states[|steps|].alerts == [e] && states[|steps|].links == [0]
    ensures forall more, moreSteps :: Continues(more, moreSteps, states, steps) ==> !Notified(more[|moreSteps|], e)
  {
    states, steps := LostNotificationIsReachable(e);
    LossIsFinalExactly(states, steps, 0);
  }

  lemma LengthOfRun(states: seq<State>, steps: seq<Step>)
    requires IsRun(states, steps)
    ensures |states| == |steps| + 1
  {
  }
}
