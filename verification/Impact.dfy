/**
  Customer impact: each refresh of an incident observes the customers behind its PON and updates
  one affected/restored record per customer.
*/
module Impact {
  import opened Prelude
  import opened Records
  import IncidentEngine
  import Sla

  datatype ExternalCustomer = ExternalCustomer(
    externalCustomerId: string,
    customerCode: Option<string>,
    customerName: Option<string>,
    status: ConnectionStatus,
    rxPower: Option<real>)

  /** One column of an update: left out, or written (possibly with null). */
  datatype Column<T> = Untouched | Write(value: T) {
    function Over(current: T): T { if Untouched? then current else value }
  }

  /** An optional field of the observation: absent leaves the column alone. */
  function Given<T>(o: Option<T>): Column<Option<T>> { if o.None? then Untouched else Write(o) }

  function NewAffectedFrom(previous: Option<IncidentCustomer>, offline: bool, detectedAt: int): Column<Option<int>> {
    if offline then
      Write(Some(if previous.Some? then previous.value.affectedFrom.GetOr(detectedAt) else detectedAt))
    else if previous.Some? then Write(previous.value.affectedFrom)
    else Untouched
  }

  function NewRestoredAt(previous: Option<IncidentCustomer>, offline: bool, now: int): Column<Option<int>> {
    if previous.None? then Untouched
    else if !offline && previous.value.affectedFrom.Some? && previous.value.restoredAt.None? then Write(Some(now))
    else Write(previous.value.restoredAt)
  }

  function NewDuration(previous: Option<IncidentCustomer>, affectedFrom: Column<Option<int>>,
                       restoredAt: Column<Option<int>>): int {
    if restoredAt.Write? && restoredAt.value.Some? && affectedFrom.Write? && affectedFrom.value.Some? then
      Max(0, (restoredAt.value.value - affectedFrom.value.value) / 1000)
    else if previous.Some? then previous.value.impactDurationSeconds
    else 0
  }

  function BlankRow(incidentId: nat, externalCustomerId: string): IncidentCustomer {
    IncidentCustomer(incidentId, externalCustomerId, None, None, UNKNOWN_CONNECTION, None, None, None, None, 0, false)
  }

  /**
    The stored row after an upsert. `previous` is the row read before the transaction, `current`
    the row the upsert finds; they differ only when one list names a customer twice.
  */
  function UpsertCustomer(current: Option<IncidentCustomer>, previous: Option<IncidentCustomer>,
                          incidentId: nat, detectedAt: int, c: ExternalCustomer, now: int): IncidentCustomer
  {
    var offline := c.status == OFFLINE;
    var base := current.GetOr(BlankRow(incidentId, c.externalCustomerId));
    var affectedFrom := NewAffectedFrom(previous, offline, detectedAt);
    var restoredAt := NewRestoredAt(previous, offline, now);
    base.(
      customerCode := Given(c.customerCode).Over(base.customerCode),
      customerName := Given(c.customerName).Over(base.customerName),
      currentStatus := c.status,
      rxPowerDuring :=
        (if offline then Given(c.rxPower) else if previous.Some? then Write(previous.value.rxPowerDuring)
          else Untouched)
          .Over(base.rxPowerDuring),
      rxPowerAfter :=
        (if !offline then Given(c.rxPower) else if previous.Some? then Write(previous.value.rxPowerAfter)
          else Untouched)
          .Over(base.rxPowerAfter),
      affectedFrom := affectedFrom.Over(base.affectedFrom),
      restoredAt := restoredAt.Over(base.restoredAt),
      impactDurationSeconds := NewDuration(previous, affectedFrom, restoredAt),
      confirmedAffected := offline)
  }

  // ---------------------------------------------------------------- one refresh

  /** The customer records of one incident, by external customer id. */
  type Rows = map<string, IncidentCustomer>

  function Lookup(rows: Rows, id: string): Option<IncidentCustomer> {
    if id in rows then Some(rows[id]) else None
  }

  function UpsertInto(rows: Rows, snapshot: Rows, incidentId: nat, detectedAt: int, c: ExternalCustomer,
                      now: int): Rows {
    var id := c.externalCustomerId;
    rows[id := UpsertCustomer(Lookup(rows, id), Lookup(snapshot, id), incidentId, detectedAt, c, now)]
  }

  function Refreshed(snapshot: Rows, incidentId: nat, detectedAt: int, customers: seq<ExternalCustomer>,
                     now: int): Rows {
    if customers == [] then snapshot
    else
      UpsertInto(Refreshed(snapshot, incidentId, detectedAt, customers[..|customers| - 1], now), snapshot,
                 incidentId, detectedAt, customers[|customers| - 1], now)
  }

  predicate NamedOnce(customers: seq<ExternalCustomer>) {
    forall i, j :: 0 <= i < j < |customers| ==> customers[i].externalCustomerId != customers[j].externalCustomerId
  }

  /** The observation of the customer in the list, if there is one. */
  function SeenIn(customers: seq<ExternalCustomer>, id: string): Option<ExternalCustomer> {
    if customers == [] then None
    else if customers[|customers| - 1].externalCustomerId == id then Some(customers[|customers| - 1])
    else SeenIn(customers[..|customers| - 1], id)
  }

  /** The part of a row that the outage history is about. */
  datatype Impact = Impact(affectedFrom: Option<int>, restoredAt: Option<int>, seconds: int,
                           status: ConnectionStatus, confirmed: bool)

  function ImpactOf(row: IncidentCustomer): Impact {
    Impact(row.affectedFrom, row.restoredAt, row.impactDurationSeconds, row.currentStatus, row.confirmedAffected)
  }

  lemma {:induction false} UnnamedIsUntouched(rows: Rows, incidentId: nat, detectedAt: int,
                                              customers: seq<ExternalCustomer>, now: int, id: string)
    requires SeenIn(customers, id).None?
    ensures Lookup(Refreshed(rows, incidentId, detectedAt, customers, now), id) == Lookup(rows, id)
  {
    hide UpsertCustomer;
    if customers != [] {
      UnnamedIsUntouched(rows, incidentId, detectedAt, customers[..|customers| - 1], now, id);
    }
  }

  /** A refresh that names a customer once upserts that observation over the customer's own row. */
  lemma {:induction false} NamedIsUpserted(rows: Rows, incidentId: nat, detectedAt: int,
                                           customers: seq<ExternalCustomer>, now: int, id: string)
    requires NamedOnce(customers) && SeenIn(customers, id).Some?
    ensures Lookup(Refreshed(rows, incidentId, detectedAt, customers, now), id)
         == Some(UpsertCustomer(Lookup(rows, id), Lookup(rows, id), incidentId, detectedAt,
                                SeenIn(customers, id).value, now))
  {
    hide UpsertCustomer;
    var front, last := customers[..|customers| - 1], customers[|customers| - 1];
    if last.externalCustomerId == id {
      NotNamed(front, id);
      UnnamedIsUntouched(rows, incidentId, detectedAt, front, now, id);
    } else {
      NamedIsUpserted(rows, incidentId, detectedAt, front, now, id);
    }
  }

  lemma {:induction false} NotNamed(customers: seq<ExternalCustomer>, id: string)
    requires forall i :: 0 <= i < |customers| ==> customers[i].externalCustomerId != id
    ensures SeenIn(customers, id).None?
  {
    if customers != [] { NotNamed(customers[..|customers| - 1], id); }
  }

  lemma UpsertObserves(row: Option<IncidentCustomer>, incidentId: nat, detectedAt: int, c: ExternalCustomer, now: int)
    ensures ImpactOf(UpsertCustomer(row, row, incidentId, detectedAt, c, now))
         == Observe(row, detectedAt, c.status, now)
  {
  }

  // ---------------------------------------------------------------- the history of one customer

  function Observe(row: Option<IncidentCustomer>, detectedAt: int, status: ConnectionStatus, now: int): Impact {
    var before := if row.None? then Impact(None, None, 0, UNKNOWN_CONNECTION, false) else ImpactOf(row.value);
    var affectedFrom := if status == OFFLINE then Some(before.affectedFrom.GetOr(detectedAt)) else before.affectedFrom;
    var restoredAt :=
      if status != OFFLINE && before.affectedFrom.Some? && before.restoredAt.None? then Some(now)
        else before.restoredAt;
    var seconds :=
      if restoredAt.Some? && affectedFrom.Some? then Max(0, (restoredAt.value - affectedFrom.value) / 1000)
      else before.seconds;
    Impact(affectedFrom, restoredAt, seconds, status, status == OFFLINE)
  }

  datatype Refresh = Refresh(customers: seq<ExternalCustomer>, now: int)

  /** The rows of an incident after a sequence of refreshes. */
  function RowsAfter(incidentId: nat, detectedAt: int, refreshes: seq<Refresh>): Rows {
    if refreshes == [] then map[]
    else
      var last := refreshes[|refreshes| - 1];
      Refreshed(RowsAfter(incidentId, detectedAt, refreshes[..|refreshes| - 1]), incidentId, detectedAt,
                last.customers, last.now)
  }

  datatype Observation = Observation(seen: ExternalCustomer, at: int) {
    predicate Offline() { seen.status == OFFLINE }
  }

  /** What the refreshes said about one customer, in order. */
  function ObservationsOf(refreshes: seq<Refresh>, id: string): seq<Observation> {
    if refreshes == [] then []
    else
      var rest := ObservationsOf(refreshes[..|refreshes| - 1], id);
      var last := refreshes[|refreshes| - 1];
      var seen := SeenIn(last.customers, id);
      if seen.Some? then rest + [Observation(seen.value, last.now)] else rest
  }

  /** Position of the first OFFLINE observation, or the length. */
  function FirstOffline(obs: seq<Observation>): (n: nat)
    ensures n <= |obs|
    ensures n < |obs| ==> obs[n].Offline()
    ensures forall i :: 0 <= i < n ==> !obs[i].Offline()
  {
    if obs == [] then 0
    else
      var n := FirstOffline(obs[..|obs| - 1]);
      if n < |obs| - 1 || obs[|obs| - 1].Offline() then n else n + 1
  }

  /** Position of the first observation after the first OFFLINE one that is not OFFLINE. */
  function FirstRestored(obs: seq<Observation>): (n: nat)
    ensures n <= |obs|
    ensures n < |obs| ==> FirstOffline(obs) < n && !obs[n].Offline()
    ensures forall i :: FirstOffline(obs) <= i < n ==> obs[i].Offline()
  {
    if obs == [] then 0
    else
      var front := obs[..|obs| - 1];
      var n := FirstRestored(front);
      if n < |front| then n
      else if FirstOffline(front) < |front| && !obs[|obs| - 1].Offline() then n
      else |obs|
  }

  /** The closed form of a customer's record. */
  predicate ClosedForm(impact: Impact, obs: seq<Observation>, detectedAt: int) {
    && obs != []
    && impact.affectedFrom == (if FirstOffline(obs) < |obs| then Some(detectedAt) else None)
    && impact.restoredAt == (if FirstRestored(obs) < |obs| then Some(obs[FirstRestored(obs)].at) else None)
    && impact.seconds
       == (if FirstRestored(obs) < |obs| then Max(0, (obs[FirstRestored(obs)].at - detectedAt) / 1000) else 0)
    && impact.status == obs[|obs| - 1].seen.status
    && (impact.confirmed <==> impact.status == OFFLINE)
  }

  lemma ObserveKeepsClosedForm(row: Option<IncidentCustomer>, obs: seq<Observation>, o: Observation, detectedAt: int)
    requires if row.None? then obs == [] else ClosedForm(ImpactOf(row.value), obs, detectedAt)
    ensures ClosedForm(Observe(row, detectedAt, o.seen.status, o.at), obs + [o], detectedAt)
  {
    var more := obs + [o];
    assert more[..|obs|] == obs && more[|obs|] == o;
    assert FirstRestored(obs) < |obs| ==> more[FirstRestored(obs)] == obs[FirstRestored(obs)];
    hide ImpactOf;
  }

  /** The last reading among the OFFLINE observations, or among the others. */
  function LastReading(obs: seq<Observation>, offline: bool): Option<real> {
    if obs == [] then None
    else
      var last := obs[|obs| - 1];
      if last.Offline() == offline && last.seen.rxPower.Some? then last.seen.rxPower
      else LastReading(obs[..|obs| - 1], offline)
  }

  function LastName(obs: seq<Observation>): Option<string> {
    if obs == [] then None
    else if obs[|obs| - 1].seen.customerName.Some? then obs[|obs| - 1].seen.customerName
    else LastName(obs[..|obs| - 1])
  }

  function LastCode(obs: seq<Observation>): Option<string> {
    if obs == [] then None
    else if obs[|obs| - 1].seen.customerCode.Some? then obs[|obs| - 1].seen.customerCode
    else LastCode(obs[..|obs| - 1])
  }

  /** The other columns: whose record it is, the last names given, and the last readings during and after the outage. */
  predicate ColumnsOf(row: IncidentCustomer, incidentId: nat, id: string, obs: seq<Observation>) {
    && row.incidentId == incidentId && row.externalCustomerId == id
    && row.customerName == LastName(obs) && row.customerCode == LastCode(obs)
    && row.rxPowerDuring == LastReading(obs, true) && row.rxPowerAfter == LastReading(obs, false)
  }

  lemma UpsertKeepsColumns(row: Option<IncidentCustomer>, incidentId: nat, id: string, detectedAt: int,
                           obs: seq<Observation>, o: Observation)
    requires if row.None? then obs == [] else ColumnsOf(row.value, incidentId, id, obs)
    requires o.seen.externalCustomerId == id
    ensures ColumnsOf(UpsertCustomer(row, row, incidentId, detectedAt, o.seen, o.at), incidentId, id, obs + [o])
  {
    hide NewAffectedFrom, NewRestoredAt, NewDuration;
    assert (obs + [o])[..|obs|] == obs && (obs + [o])[|obs|] == o;
    assert row.None? ==> LastName(obs) == LastCode(obs) == None;
    assert row.None? ==> LastReading(obs, true) == LastReading(obs, false) == None;
  }

  lemma {:induction false} SeenIsNamed(customers: seq<ExternalCustomer>, id: string)
    ensures SeenIn(customers, id).Some? ==> SeenIn(customers, id).value.externalCustomerId == id
  {
    if customers != [] { SeenIsNamed(customers[..|customers| - 1], id); }
  }

  /**
    After any sequence of refreshes that name each customer at most once per list, a customer has
    a record exactly when it was observed; the record's affectedFrom is the incident's detection
    time exactly when some observation was OFFLINE; restoredAt is the time of the first
    observation after the first OFFLINE one that was not OFFLINE, whatever came later; the
    duration is their difference in whole seconds, or 0 when not restored; and every other column
    is the last value that was observed for it.
  */
  lemma {:induction false} ImpactHasClosedForm(incidentId: nat, detectedAt: int, refreshes: seq<Refresh>, id: string)
    requires forall i :: 0 <= i < |refreshes| ==> NamedOnce(refreshes[i].customers)
    ensures var row := Lookup(RowsAfter(incidentId, detectedAt, refreshes), id);
      var obs := ObservationsOf(refreshes, id);
      if row.None? then obs == []
      else ClosedForm(ImpactOf(row.value), obs, detectedAt) && ColumnsOf(row.value, incidentId, id, obs)
  {
    if refreshes != [] {
      hide ClosedForm, ImpactOf, Observe, Refreshed, UpsertCustomer, ColumnsOf;
      var front, last := refreshes[..|refreshes| - 1], refreshes[|refreshes| - 1];
      ImpactHasClosedForm(incidentId, detectedAt, front, id);
      var rows := RowsAfter(incidentId, detectedAt, front);
      var seen := SeenIn(last.customers, id);
      if seen.None? {
        UnnamedIsUntouched(rows, incidentId, detectedAt, last.customers, last.now, id);
      } else {
        var row, obs, o := Lookup(rows, id), ObservationsOf(front, id), Observation(seen.value, last.now);
        NamedIsUpserted(rows, incidentId, detectedAt, last.customers, last.now, id);
        SeenIsNamed(last.customers, id);
        UpsertObserves(row, incidentId, detectedAt, o.seen, o.at);
        ObserveKeepsClosedForm(row, obs, o, detectedAt);
        UpsertKeepsColumns(row, incidentId, id, detectedAt, obs, o);
      }
    }
  }

  lemma FirstRestoredIsFinal(obs: seq<Observation>, later: seq<Observation>)
    requires FirstRestored(obs) < |obs|
    ensures FirstRestored(obs + later) == FirstRestored(obs) && FirstOffline(obs + later) == FirstOffline(obs)
  {
    var all := obs + later;
    assert forall i :: 0 <= i < |obs| ==> all[i] == obs[i];
  }

  lemma {:induction false} ObservationsConcat(refreshes: seq<Refresh>, later: seq<Refresh>, id: string)
    ensures ObservationsOf(refreshes + later, id) == ObservationsOf(refreshes, id) + ObservationsOf(later, id)
  {
    if later == [] {
      assert refreshes + later == refreshes;
    } else {
      var front := later[..|later| - 1];
      ObservationsConcat(refreshes, front, id);
      assert (refreshes + later)[..|refreshes + later| - 1] == refreshes + front;
    }
  }

  lemma SameClosedForm(a: Impact, b: Impact, obs: seq<Observation>, later: seq<Observation>, detectedAt: int)
    requires ClosedForm(a, obs, detectedAt) && ClosedForm(b, obs + later, detectedAt) && a.restoredAt.Some?
    ensures b.restoredAt == a.restoredAt && b.affectedFrom == a.affectedFrom && b.seconds == a.seconds
  {
    FirstRestoredIsFinal(obs, later);
  }

  /**
    Once a customer's record has a restoration time, every later refresh keeps it, together with the
    start and the duration of the outage, even when the customer goes offline again.
  */
  lemma RestorationIsFinal(incidentId: nat, detectedAt: int, refreshes: seq<Refresh>, later: seq<Refresh>, id: string)
    requires forall i :: 0 <= i < |refreshes| ==> NamedOnce(refreshes[i].customers)
    requires forall i :: 0 <= i < |later| ==> NamedOnce(later[i].customers)
    requires var row := Lookup(RowsAfter(incidentId, detectedAt, refreshes), id);
      row.Some? && row.value.restoredAt.Some?
    ensures var before := Lookup(RowsAfter(incidentId, detectedAt, refreshes), id).value;
      var after := Lookup(RowsAfter(incidentId, detectedAt, refreshes + later), id);
      && after.Some? && after.value.restoredAt == before.restoredAt
      && after.value.affectedFrom == before.affectedFrom
      && after.value.impactDurationSeconds == before.impactDurationSeconds
  {
    hide RowsAfter, ClosedForm, ColumnsOf, NamedOnce;
    var obs, more := ObservationsOf(refreshes, id), ObservationsOf(later, id);
    ImpactHasClosedForm(incidentId, detectedAt, refreshes, id);
    AllNamedOnce(refreshes, later);
    ImpactHasClosedForm(incidentId, detectedAt, refreshes + later, id);
    ObservationsConcat(refreshes, later, id);
    ObservedOnce(Lookup(RowsAfter(incidentId, detectedAt, refreshes), id).value, obs, detectedAt);
    hide ObservationsOf;
    SameClosedForm(ImpactOf(Lookup(RowsAfter(incidentId, detectedAt, refreshes), id).value),
                   ImpactOf(Lookup(RowsAfter(incidentId, detectedAt, refreshes + later), id).value),
                   obs, more, detectedAt);
  }

  lemma AllNamedOnce(refreshes: seq<Refresh>, later: seq<Refresh>)
    requires forall i :: 0 <= i < |refreshes| ==> NamedOnce(refreshes[i].customers)
    requires forall i :: 0 <= i < |later| ==> NamedOnce(later[i].customers)
    ensures forall i :: 0 <= i < |refreshes + later| ==> NamedOnce((refreshes + later)[i].customers)
  {
    hide NamedOnce;
  }

  lemma ObservedOnce(row: IncidentCustomer, obs: seq<Observation>, detectedAt: int)
    requires ClosedForm(ImpactOf(row), obs, detectedAt)
    ensures obs != []
  {
  }

  // ---------------------------------------------------------------- overlapping refreshes

  /**
    A refresh reads the rows before its transaction, so by the time it writes they may be stale. When
    it finds a row with restoration time t, it keeps t in these cases and no other: it had read no row,
    it had read t, or it had read an outage without an end and now writes t itself.
  */
  predicate KeepsRestoration(previous: Option<IncidentCustomer>, seen: ExternalCustomer, now: int, t: int) {
    || previous.None?
    || previous.value.restoredAt == Some(t)
    || (previous.value.restoredAt.None? && previous.value.affectedFrom.Some? && seen.status != OFFLINE && now == t)
  }

  lemma StaleRefreshKeepsRestorationExactly(current: IncidentCustomer, previous: Option<IncidentCustomer>,
                                            incidentId: nat, detectedAt: int, c: ExternalCustomer, now: int, t: int)
    requires current.restoredAt == Some(t)
    ensures UpsertCustomer(Some(current), previous, incidentId, detectedAt, c, now).restoredAt == Some(t)
      <==> KeepsRestoration(previous, c, now, t)
  {
    hide NewAffectedFrom, NewDuration;
  }

  /**
    Two refreshes that both read the customer as affected and not restored. The first to write
    records the restoration; the second one erases it when it saw the customer offline, and otherwise
    replaces it by its own time, which may be earlier.
  */
  lemma OverlapReplacesRestoration(row: IncidentCustomer, incidentId: nat, detectedAt: int,
                                   a: ExternalCustomer, at: int, b: ExternalCustomer, bt: int)
    requires row.affectedFrom.Some? && row.restoredAt.None? && a.status != OFFLINE
    ensures var first := UpsertCustomer(Some(row), Some(row), incidentId, detectedAt, a, at);
      var second := UpsertCustomer(Some(first), Some(row), incidentId, detectedAt, b, bt);
      && first.restoredAt == Some(at)
      && second.restoredAt == if b.status == OFFLINE then None else Some(bt)
  {
    hide NewAffectedFrom, NewDuration;
  }

  /** One customer's row, and what each refresh so far has read of it. */
  datatype Shared = Shared(row: Option<IncidentCustomer>, taken: seq<Option<IncidentCustomer>>)

  /** A refresh reads the row; later, or never, it writes what it makes of what it read and what it saw. */
  datatype Access = TakeRow | PutRow(refresh: nat, seen: ExternalCustomer, now: int)

  predicate CanAccess(s: Shared, a: Access) { a.PutRow? ==> a.refresh < |s.taken| }

  function AfterAccess(s: Shared, a: Access, incidentId: nat, detectedAt: int): Shared
    requires CanAccess(s, a)
  {
    match a
    case TakeRow => s.(taken := s.taken + [s.row])
    case PutRow(k, seen, now) => s.(row := Some(UpsertCustomer(s.row, s.taken[k], incidentId, detectedAt, seen, now)))
  }

  ghost predicate IsInterleaving(states: seq<Shared>, accesses: seq<Access>, incidentId: nat, detectedAt: int) {
    && |states| == |accesses| + 1
    && forall i :: 0 <= i < |accesses| ==>
         CanAccess(states[i], accesses[i])
         && states[i + 1] == AfterAccess(states[i], accesses[i], incidentId, detectedAt)
  }

  predicate RestoredAt(s: Shared, t: int) { s.row.Some? && s.row.value.restoredAt == Some(t) }

  /** A read changes nothing; a write keeps the restoration time exactly as said above. */
  predicate AccessKeeps(s: Shared, a: Access, t: int)
    requires CanAccess(s, a)
  {
    a.PutRow? ==> KeepsRestoration(s.taken[a.refresh], a.seen, a.now, t)
  }

  lemma AccessKeepsExactly(s: Shared, a: Access, incidentId: nat, detectedAt: int, t: int)
    requires CanAccess(s, a) && RestoredAt(s, t)
    ensures RestoredAt(AfterAccess(s, a, incidentId, detectedAt), t) <==> AccessKeeps(s, a, t)
  {
    hide UpsertCustomer, KeepsRestoration;
    if a.PutRow? {
      StaleRefreshKeepsRestorationExactly(s.row.value, s.taken[a.refresh], incidentId, detectedAt, a.seen, a.now, t);
    }
  }

  ghost predicate AllKeep(states: seq<Shared>, accesses: seq<Access>, i: nat, j: nat, t: int)
    requires i <= j <= |accesses| && |states| == |accesses| + 1
    requires forall m :: 0 <= m < |accesses| ==> CanAccess(states[m], accesses[m])
  {
    forall m :: i <= m < j ==> AccessKeeps(states[m], accesses[m], t)
  }

  ghost predicate RestoredThroughout(states: seq<Shared>, i: nat, j: nat, t: int)
    requires i <= j < |states|
  {
    forall m :: i <= m <= j ==> RestoredAt(states[m], t)
  }

  /**
    For any interleaving of any number of refreshes: a stored restoration time survives from one moment
    to a later one exactly when every write in between keeps it by what its refresh had read.
  */
  lemma {:induction false} RestorationSurvivesExactly(states: seq<Shared>, accesses: seq<Access>, incidentId: nat,
                                                      detectedAt: int, i: nat, j: nat, t: int)
    requires IsInterleaving(states, accesses, incidentId, detectedAt) && i <= j <= |accesses|
    requires RestoredAt(states[i], t)
    ensures RestoredThroughout(states, i, j, t) <==> AllKeep(states, accesses, i, j, t)
    decreases j
  {
    hide RestoredAt, AccessKeeps, AfterAccess;
    if i < j {
      RestorationSurvivesExactly(states, accesses, incidentId, detectedAt, i, j - 1, t);
      assert RestoredThroughout(states, i, j, t)
          <==> RestoredThroughout(states, i, j - 1, t) && RestoredAt(states[j], t);
      assert AllKeep(states, accesses, i, j, t)
          <==> AllKeep(states, accesses, i, j - 1, t) && AccessKeeps(states[j - 1], accesses[j - 1], t);
      assert CanAccess(states[j - 1], accesses[j - 1]);
      assert states[j - 1 + 1] == AfterAccess(states[j - 1], accesses[j - 1], incidentId, detectedAt);
      if RestoredAt(states[j - 1], t) {
        AccessKeepsExactly(states[j - 1], accesses[j - 1], incidentId, detectedAt, t);
      }
    }
  }

  /** Whatever was read at moment i or later had the restoration time. */
  ghost predicate FreshReads(s: Shared, before: nat, t: int) {
    forall k :: before <= k < |s.taken| ==> s.taken[k].Some? && s.taken[k].value.restoredAt == Some(t)
  }

  lemma FreshAccess(s: Shared, a: Access, incidentId: nat, detectedAt: int, before: nat, t: int)
    requires CanAccess(s, a) && RestoredAt(s, t) && FreshReads(s, before, t) && before <= |s.taken|
    requires a.PutRow? ==> a.refresh >= before
    ensures var next := AfterAccess(s, a, incidentId, detectedAt);
      RestoredAt(next, t) && FreshReads(next, before, t) && before <= |next.taken|
  {
    AccessKeepsExactly(s, a, incidentId, detectedAt, t);
    hide UpsertCustomer;
  }

  /** In particular it survives as long as no refresh that read before the restoration writes after it. */
  lemma {:induction false} FreshRefreshesKeepRestoration(states: seq<Shared>, accesses: seq<Access>, incidentId: nat,
                                                         detectedAt: int, i: nat, j: nat, t: int)
    requires IsInterleaving(states, accesses, incidentId, detectedAt) && i <= j <= |accesses|
    requires RestoredAt(states[i], t)
    requires forall m :: i <= m < j && accesses[m].PutRow? ==> accesses[m].refresh >= |states[i].taken|
    ensures RestoredAt(states[j], t) && FreshReads(states[j], |states[i].taken|, t)
      && |states[i].taken| <= |states[j].taken|
    decreases j
  {
    hide RestoredAt, AfterAccess, FreshReads;
    if i == j {
      NoReadsYet(states[i], t);
    } else {
      FreshRefreshesKeepRestoration(states, accesses, incidentId, detectedAt, i, j - 1, t);
      assert CanAccess(states[j - 1], accesses[j - 1]);
      assert states[j - 1 + 1] == AfterAccess(states[j - 1], accesses[j - 1], incidentId, detectedAt);
      FreshAccess(states[j - 1], accesses[j - 1], incidentId, detectedAt, |states[i].taken|, t);
    }
  }

  lemma NoReadsYet(s: Shared, t: int)
    ensures FreshReads(s, |s.taken|, t)
  {
  }

  // ---------------------------------------------------------------- the summary

  function CountStatus(customers: seq<ExternalCustomer>, status: ConnectionStatus): nat {
    if customers == [] then 0
    else
      CountStatus(customers[..|customers| - 1], status) + if customers[|customers| - 1].status == status then 1 else 0
  }

  datatype Summary = Summary(total: nat, offline: nat, online: nat, percentage: real)

  function CalculateSummary(customers: seq<ExternalCustomer>): Summary {
    var offline := CountStatus(customers, OFFLINE);
    Summary(|customers|, offline, CountStatus(customers, ONLINE),
            if |customers| == 0 then 0.0 else Sla.Round(offline as real / |customers| as real * 100.0))
  }

  /** The positions of the customers with the status. */
  ghost function PositionsOf(customers: seq<ExternalCustomer>, status: ConnectionStatus): set<int> {
    set i | 0 <= i < |customers| && customers[i].status == status
  }

  lemma {:induction false} CountIsOfPositions(customers: seq<ExternalCustomer>, status: ConnectionStatus)
    ensures CountStatus(customers, status) == |PositionsOf(customers, status)|
  {
    if customers == [] {
      assert PositionsOf(customers, status) == {};
    } else {
      var front := customers[..|customers| - 1];
      CountIsOfPositions(front, status);
      var before := PositionsOf(front, status);
      if customers[|front|].status == status {
        assert PositionsOf(customers, status) == before + {|front|};
      } else {
        assert PositionsOf(customers, status) == before;
      }
    }
  }

  lemma {:induction false} StatusesPartition(customers: seq<ExternalCustomer>)
    ensures CountStatus(customers, OFFLINE) + CountStatus(customers, ONLINE)
            + CountStatus(customers, UNKNOWN_CONNECTION)
         == |customers|
  {
    if customers != [] { StatusesPartition(customers[..|customers| - 1]); }
  }

  lemma Share(part: nat, whole: nat)
    requires part <= whole && whole > 0
    ensures 0.0 <= Sla.Round(part as real / whole as real * 100.0) <= 100.0
    ensures part == 0 ==> Sla.Round(part as real / whole as real * 100.0) == 0.0
    ensures part == whole ==> Sla.Round(part as real / whole as real * 100.0) == 100.0
  {
    var q := part as real / whole as real;
    assert 0.0 <= q <= 1.0;
    assert part == whole ==> q == 1.0;
    var v := q * 100.0;
    assert 0 <= (v * 100.0 + 0.5).Floor <= 10000;
  }

  /**
    What the summary says: how many customers there are, how many of them are OFFLINE and how many
    ONLINE, and the nearest hundredth of the share that is OFFLINE, or 0 for no customers.
  */
  lemma SummaryIsExact(customers: seq<ExternalCustomer>)
    ensures var s := CalculateSummary(customers);
      && s.total == |customers|
      && s.offline == |set i | 0 <= i < |customers| && customers[i].status == OFFLINE|
      && s.online == |set i | 0 <= i < |customers| && customers[i].status == ONLINE|
      && (customers == [] ==> s.percentage == 0.0)
      && (customers != [] ==>
            Sla.PublishesQuotient(s.percentage, s.offline as real * 100.0, |customers| as real))
  {
    CountIsOfPositions(customers, OFFLINE);
    CountIsOfPositions(customers, ONLINE);
    assert PositionsOf(customers, OFFLINE) == set i | 0 <= i < |customers| && customers[i].status == OFFLINE;
    assert PositionsOf(customers, ONLINE) == set i | 0 <= i < |customers| && customers[i].status == ONLINE;
    hide PositionsOf, CountStatus, Sla.PublishesQuotient, Sla.Round;
    if customers != [] { ShareIsPublished(CountStatus(customers, OFFLINE), |customers|); }
  }

  lemma ShareIsPublished(part: nat, whole: nat)
    requires whole > 0
    ensures Sla.PublishesQuotient(Sla.Round(part as real / whole as real * 100.0), part as real * 100.0, whole as real)
  {
    hide Sla.PublishesQuotient, Sla.Round;
    var q := part as real / whole as real;
    assert q * whole as real == part as real;
    assert q * 100.0 * whole as real == part as real * 100.0;
    Sla.QuotientIsPublished(q * 100.0, part as real * 100.0, whole as real);
  }

  /** So the counters add up, and the percentage is one, also after rounding. */
  lemma SummaryAddsUp(customers: seq<ExternalCustomer>)
    ensures var s := CalculateSummary(customers);
      && s.offline == |set i | 0 <= i < |customers| && customers[i].status == OFFLINE|
      && s.online == |set i | 0 <= i < |customers| && customers[i].status == ONLINE|
      && s.offline + s.online <= s.total == |customers|
      && 0.0 <= s.percentage <= 100.0
      && (s.offline == 0 ==> s.percentage == 0.0)
      && (s.offline == s.total > 0 ==> s.percentage == 100.0)
  {
    SummaryIsExact(customers);
    StatusesPartition(customers);
    if |customers| > 0 {
      Share(CountStatus(customers, OFFLINE), |customers|);
    }
  }

  // ---------------------------------------------------------------- the refresh, on the tables

  /** The counters a refresh writes to the incident. */
  function CountersOf(s: Summary): Counters {
    Counters(s.total, s.offline, s.online, s.offline, s.offline, s.online)
  }

  /**
    The counters an incident is created with, from the metrics of its alert, are those a refresh
    writes as soon as the metrics count the customers that the refresh then sees.
  */
  lemma CreationAndRefreshAgree(m: Metrics, customers: seq<ExternalCustomer>)
    requires m.onuTotal == Some(|customers|)
    requires m.onuOnline == Some(|set i | 0 <= i < |customers| && customers[i].status == ONLINE|)
    requires m.onuOffline == Some(|set i | 0 <= i < |customers| && customers[i].status == OFFLINE|)
    ensures IncidentEngine.InitialCounters(Some(m)) == CountersOf(CalculateSummary(customers))
  {
    SummaryIsExact(customers);
    hide CalculateSummary;
  }

  /** An alert without metrics, or without one of them, counts nobody there. */
  lemma MissingMetricsCountNobody(m: Metrics)
    ensures IncidentEngine.InitialCounters(None) == Counters(0, 0, 0, 0, 0, 0)
    ensures m.onuTotal.None? ==> IncidentEngine.InitialCounters(Some(m)).potential == 0
    ensures m.onuOffline.None? ==> IncidentEngine.InitialCounters(Some(m)).affected == 0
    ensures m.onuOnline.None? ==> IncidentEngine.InitialCounters(Some(m)).online == 0
  {
  }

  predicate HasLocation(incident: Incident) {
    incident.oltExternalId.GetOr("") != "" && incident.ponIdentifier.GetOr("") != ""
  }

  /** The rows one incident's refresh reads and writes. */
  class CustomerTable {
    var rows: Rows
    var incident: Incident

    /** Refreshes the records of the incident from the observed customers, against the rows read beforehand. */
    method RefreshIncident(customers: seq<ExternalCustomer>, now: int) returns (summary: Summary)
      modifies this
      ensures old(incident).oltExternalId in {None, Some("")} || old(incident).ponIdentifier in {None, Some("")} ==>
        summary == Summary(0, 0, 0, 0.0) && rows == old(rows) && incident == old(incident)
      ensures old(incident).oltExternalId !in {None, Some("")} && old(incident).ponIdentifier !in {None, Some("")} ==>
        && summary == CalculateSummary(customers)
        && rows == Refreshed(old(rows), old(incident).id, old(incident).detectedAt, customers, now)
        && incident == old(incident).(
             counters := Counters(summary.total, summary.offline, summary.online, summary.offline, summary.offline,
                                  summary.online))
    {
      if !HasLocation(incident) { return Summary(0, 0, 0, 0.0); }
      var previous := rows;
      summary := CalculateSummary(customers);
      for n := 0 to |customers|
        invariant incident == old(incident)
        invariant rows == Refreshed(previous, incident.id, incident.detectedAt, customers[..n], now)
      {
        assert customers[..n + 1][..n] == customers[..n];
        rows := UpsertInto(rows, previous, incident.id, incident.detectedAt, customers[n], now);
      }
      assert customers[..|customers|] == customers;
      incident := incident.(counters := CountersOf(summary));
    }
  }
}
