/**
  The cursor puller over the incident store. The process may die, and any call may fail, at every
  await: a method then returns early with the state it has at that point, so what its contract
  promises holds at every such point. Other channels may write to the same store meanwhile.
*/
module Puller {
  import opened Prelude
  import opened Records
  import opened Alerts
  import opened IncidentEngine
  import opened EngineInvariants
  import opened EngineRuns
  import opened IncidentStore
  import Correlation
  import Folding
  import History
  import Impact
  import Numbering
  import Separation

  /** One row of the source's outbox; None is an event that does not have the contract's shape. */
  datatype Item = Item(cursor: int, event: Option<Event>)

  predicate Valid(item: Item) { item.event.Some? && Admitted(item.event.value.eventType) }

  lemma ValidExactly(item: Item)
    ensures Valid(item) <==> item.event.Some? && item.event.value.eventType in {"pon.loss", "pon.los", "fiber.cut"}
  {
  }

  /** The event id has an alert row, and that alert is linked to an incident. */
  predicate Linked(db: Db, eventId: string) {
    exists a: nat :: a < |db.alerts| && db.alerts[a].externalEventId == eventId && HasEvent(db.events, a)
  }

  /** Row k of the link table joins the alert of the event to incident n. */
  ghost predicate LinkAt(db: Db, eventId: string, n: nat, k: nat) {
    && k < |db.events| && db.events[k].incidentId == n && db.events[k].alertId < |db.alerts|
    && db.alerts[db.events[k].alertId].externalEventId == eventId
  }

  ghost predicate LinkedTo(db: Db, eventId: string, n: nat) { exists k: nat :: LinkAt(db, eventId, n, k) }

  /** The timeline tells of a refresh of incident n since row `from`; without a location there is nothing to tell. */
  ghost predicate RefreshSeen(db: Db, n: nat, from: nat) {
    && n < |db.incidents|
    && (Impact.HasLocation(db.incidents[n]) ==>
          exists k :: from <= k < |db.timeline|
                      && db.timeline[k].incidentId == n && db.timeline[k].eventType == "IMPACT_RECALCULATED")
  }

  /** The event is linked to an incident whose customer impact has been refreshed since. */
  ghost predicate Refreshed(db: Db, eventId: string, from: nat) {
    exists n: nat :: LinkedTo(db, eventId, n) && RefreshSeen(db, n, from)
  }

  /** Rejected as invalid, or stored and linked to an incident whose impact was refreshed since row `from`. */
  ghost predicate HandledSince(db: Db, item: Item, from: nat) {
    item.event.Some? && item.event.value.eventType in {"pon.loss", "pon.los", "fiber.cut"} ==>
      Refreshed(db, item.event.value.eventId, from)
  }

  ghost predicate Handled(db: Db, item: Item) { HandledSince(db, item, 0) }

  /** Cursors are positive and ascending. */
  predicate Ascending(outbox: seq<Item>) {
    && (forall i :: 0 <= i < |outbox| ==> outbox[i].cursor > 0)
    && (forall i, j :: 0 <= i < j < |outbox| ==> outbox[i].cursor < outbox[j].cursor)
  }

  /** Every event at or below the cursor has been handled, apart from those already known to be lost. */
  ghost predicate NoneSkipped(db: Db, outbox: seq<Item>, cursor: int, lost: set<Item>) {
    forall i :: 0 <= i < |outbox| && outbox[i].cursor <= cursor ==> outbox[i] in lost || Handled(db, outbox[i])
  }

  /** The alerts of the store are of admitted types, and the engine's invariants hold. */
  ghost predicate GoodDb(db: Db, windowMs: nat) {
    Inv(db, windowMs) && History.Trail(db, windowMs) && History.AllAdmitted(db)
  }

  /** What other channels may do to the store meanwhile: rows are only added. */
  ghost predicate Advances(before: Db, after: Db) { History.Appends(before, after) }

  lemma LinkedToStays(before: Db, after: Db, eventId: string, n: nat)
    requires Advances(before, after) && LinkedTo(before, eventId, n)
    ensures LinkedTo(after, eventId, n)
  {
    var k: nat :| LinkAt(before, eventId, n, k);
    assert History.SameAlert(before.alerts[before.events[k].alertId], after.alerts[before.events[k].alertId]);
    assert LinkAt(after, eventId, n, k);
  }

  lemma RefreshSeenStays(before: Db, after: Db, n: nat, from: nat)
    requires Advances(before, after) && RefreshSeen(before, n, from)
    ensures RefreshSeen(after, n, from)
  {
    assert History.SameOrigin(before.incidents[n], after.incidents[n]);
    if Impact.HasLocation(before.incidents[n]) {
      var k :| from <= k < |before.timeline|
        && before.timeline[k].incidentId == n && before.timeline[k].eventType == "IMPACT_RECALCULATED";
      assert after.timeline[k] == before.timeline[k];
    }
  }

  /** What is handled stays handled, and what has happened lately has happened. */
  lemma HandledItemStays(before: Db, after: Db, item: Item, from: nat, earlier: nat)
    requires Advances(before, after) && HandledSince(before, item, from) && earlier <= from
    ensures HandledSince(after, item, from) && HandledSince(after, item, earlier)
  {
    hide Advances, LinkedTo, RefreshSeen;
    if item.event.Some? && item.event.value.eventType in {"pon.loss", "pon.los", "fiber.cut"} {
      var e := item.event.value.eventId;
      var n: nat :| LinkedTo(before, e, n) && RefreshSeen(before, n, from);
      LinkedToStays(before, after, e, n);
      RefreshSeenStays(before, after, n, from);
      SeenEarlier(after, n, from, earlier);
    }
  }

  lemma SeenEarlier(db: Db, n: nat, from: nat, earlier: nat)
    requires RefreshSeen(db, n, from) && earlier <= from
    ensures RefreshSeen(db, n, earlier)
  {
    hide Impact.HasLocation;
  }

  lemma HandledStays(before: Db, after: Db, outbox: seq<Item>, cursor: int, lost: set<Item>)
    requires NoneSkipped(before, outbox, cursor, lost) && Advances(before, after)
    ensures NoneSkipped(after, outbox, cursor, lost)
  {
    hide HandledSince, Advances;
    forall i | 0 <= i < |outbox| && outbox[i].cursor <= cursor ensures outbox[i] in lost || Handled(after, outbox[i]) {
      if outbox[i] !in lost { HandledItemStays(before, after, outbox[i], 0, 0); }
    }
  }

  // ---------------------------------------------------------------- pages

  /** How many rows of the outbox lie at or below the cursor. */
  function CountUpTo(outbox: seq<Item>, cursor: int): (n: nat)
    ensures n <= |outbox|
    ensures n < |outbox| ==> outbox[n].cursor > cursor
    ensures forall i :: 0 <= i < n ==> outbox[i].cursor <= cursor
  {
    if outbox == [] || outbox[0].cursor > cursor then 0
    else
      var n := CountUpTo(outbox[1..], cursor);
      assert forall i :: 1 <= i < |outbox| ==> outbox[i] == outbox[1..][i - 1];
      n + 1
  }

  function LatestCursor(outbox: seq<Item>): int { if outbox == [] then 0 else outbox[|outbox| - 1].cursor }

  datatype Page = Page(data: seq<Item>, hasMore: bool, latestCursor: Option<int>)

  /**
    A page is the next rows after the cursor, without a gap; it is empty only when there are none,
    and it says that there are no more only when it ends with the last row.
  */
  ghost predicate IsPage(page: Page, outbox: seq<Item>, after: int) {
    var from := CountUpTo(outbox, after);
    && from + |page.data| <= |outbox|
    && page.data == outbox[from..from + |page.data|]
    && (page.data == [] || !page.hasMore ==> from + |page.data| == |outbox|)
    && (page.latestCursor.Some? ==> page.latestCursor.value == LatestCursor(outbox))
  }

  /** The check the puller makes on an empty page. */
  predicate SeesReset(page: Page, cursor: int) {
    page.data == [] && page.latestCursor.Some? && page.latestCursor.value < cursor
  }

  /**
    A restored source is noticed exactly when the page reports the latest cursor and that cursor is
    below the stored one. A source that has already caught up is not, nor is one that reports none.
  */
  lemma ResetIsSeenExactly(page: Page, outbox: seq<Item>, cursor: int)
    requires Ascending(outbox) && IsPage(page, outbox, cursor)
    ensures SeesReset(page, cursor) <==> page.latestCursor.Some? && LatestCursor(outbox) < cursor
  {
    var from := CountUpTo(outbox, cursor);
    if from < |outbox| { LatestIsLargest(outbox, from); }
  }

  lemma LatestIsLargest(outbox: seq<Item>, i: nat)
    requires Ascending(outbox) && i < |outbox|
    ensures outbox[i].cursor <= LatestCursor(outbox)
  {
  }

  lemma AppendKeepsAscending(outbox: seq<Item>, item: Item)
    requires Ascending(outbox) && item.cursor > LatestCursor(outbox) && item.cursor > 0
    ensures Ascending(outbox + [item])
  {
    var longer := outbox + [item];
    forall i, j | 0 <= i < j < |longer| ensures longer[i].cursor < longer[j].cursor {
      if j == |outbox| { LatestIsLargest(outbox, i); }
    }
  }

  lemma LatestIsNatural(outbox: seq<Item>)
    requires Ascending(outbox)
    ensures LatestCursor(outbox) >= 0
  {
  }

  /** The cursor of a row counts the rows up to it. */
  lemma CountAtRow(outbox: seq<Item>, k: nat)
    requires Ascending(outbox) && k < |outbox|
    ensures CountUpTo(outbox, outbox[k].cursor) == k + 1
  {
    hide CountUpTo;
    assert forall i :: 0 <= i <= k ==> outbox[i].cursor <= outbox[k].cursor;
    assert k + 1 < |outbox| ==> outbox[k].cursor < outbox[k + 1].cursor;
  }

  /** The row after a prefix of a page is the only one that its cursor adds. */
  lemma NextRow(outbox: seq<Item>, k: nat, cursor: int)
    requires Ascending(outbox) && k < |outbox|
    requires (k == CountUpTo(outbox, cursor)) || (k > 0 && cursor == outbox[k - 1].cursor)
    ensures cursor <= outbox[k].cursor
    ensures OnlyAdds(outbox, cursor, outbox[k])
  {
  }

  lemma RowOfPage(data: seq<Item>, outbox: seq<Item>, from: nat, k: nat, cursor: int)
    requires Ascending(outbox) && from + |data| <= |outbox| && data == outbox[from..from + |data|] && k < |data|
    requires if k == 0 then from == CountUpTo(outbox, cursor) else cursor == data[k - 1].cursor
    ensures cursor <= data[k].cursor <= LatestCursor(outbox) && OnlyAdds(outbox, cursor, data[k])
  {
    hide Ascending, OnlyAdds, LatestCursor;
    assert data[k] == outbox[from + k];
    assert k > 0 ==> data[k - 1] == outbox[from + k - 1];
    NextRow(outbox, from + k, cursor);
    LatestIsLargest(outbox, from + k);
  }

  /** Every row up to the item's cursor is the item or lies at or below the given cursor. */
  ghost predicate OnlyAdds(outbox: seq<Item>, cursor: int, item: Item) {
    forall i :: 0 <= i < |outbox| && outbox[i].cursor <= item.cursor ==> outbox[i] == item || outbox[i].cursor <= cursor
  }

  lemma ToIsLinked(db: Db, eventId: string, n: nat)
    requires LinkedTo(db, eventId, n)
    ensures Linked(db, eventId)
  {
    var k: nat :| LinkAt(db, eventId, n, k);
    assert HasEvent(db.events, db.events[k].alertId);
  }

  /** Such a source: one new event with the cursor already stored. It is neither seen as a reset nor delivered. */
  lemma ResetCanBeMissed(db: Db, item: Item)
    requires item.cursor == 1 && Valid(item) && !Linked(db, item.event.value.eventId)
    ensures IsPage(Page([], false, Some(1)), [item], 1) && !SeesReset(Page([], false, Some(1)), 1)
    ensures !NoneSkipped(db, [item], 1, {})
  {
    assert CountUpTo([item], 1) == 1 by {
      assert [item][1..] == [];
    }
    assert [item][0] == item;
    if Handled(db, item) {
      ValidExactly(item);
      var n: nat :| LinkedTo(db, item.event.value.eventId, n) && RefreshSeen(db, n, 0);
      ToIsLinked(db, item.event.value.eventId, n);
    }
  }

  // ---------------------------------------------------------------- effects on the store

  /** Any step of the engine keeps its invariants and only adds rows. */
  lemma StepIsGood(db: Db, s: Step, windowMs: nat)
    requires GoodDb(db, windowMs) && Enabled(db, s, windowMs)
    requires s.IngestStep? ==> Admitted(s.event.eventType)
    ensures GoodDb(Apply(db, s, windowMs), windowMs) && Advances(db, Apply(db, s, windowMs))
  {
    hide Inv, Enabled, Apply, History.Trail, History.AllAdmitted, History.Appends, Admitted;
    ApplyKeepsInv(db, s, windowMs);
    History.ApplyKeepsTrail(db, s, windowMs);
    History.ApplyKeepsAdmitted(db, s, windowMs);
  }

  /** So every state of every run of admitted events is one that the puller may find. */
  lemma RunsAreGood(states: seq<Db>, steps: seq<Step>, windowMs: nat, i: nat)
    requires IsRun(states, steps, windowMs) && History.IngestsAdmitted(steps) && i <= |steps|
    ensures GoodDb(states[i], windowMs)
  {
    assert |states| == |steps| + 1;
    hide IsRun, Inv, History.Trail, History.AllAdmitted, History.IngestsAdmitted;
    RunKeepsInv(states, steps, windowMs, i);
    History.RunKeepsTrail(states, steps, windowMs, i);
    History.RunKeepsAdmitted(states, steps, windowMs, i);
  }

  lemma IngestIsGood(db: Db, e: Event, windowMs: nat)
    requires GoodDb(db, windowMs) && Admitted(e.eventType)
    ensures var r := Ingest(db, e);
      && GoodDb(r.db, windowMs) && Advances(db, r.db)
      && r.alertId < |r.db.alerts| && r.db.alerts[r.alertId].externalEventId == e.eventId
      && |r.db.timeline| == |db.timeline| && |r.db.incidents| == |db.incidents|
  {
    hide GoodDb, Admitted, AlertIndex, HasAlert, Advances;
    StepIsGood(db, IngestStep(e), windowMs);
  }

  /** The ingested alert is linked exactly if the event was linked before. */
  lemma IngestFindsLink(db: Db, e: Event, windowMs: nat)
    requires GoodDb(db, windowMs)
    ensures var r := Ingest(db, e); HasEvent(r.db.events, r.alertId) <==> Linked(db, e.eventId)
  {
    hide Numbering.Numbered, Folding.Folded, Separation.Spread, AllConsistent, History.Trail, History.AllAdmitted;
  }

  /** Processing a stored alert commits, and afterwards its event is linked to the incident of the answer. */
  lemma ProcessIsGood(db: Db, id: nat, rules: seq<Correlation.Rule>, windowMs: nat, pick: Option<nat>)
    requires GoodDb(db, windowMs) && id < |db.alerts| && db.alerts[id].id == id
    requires pick.Some? ==> pick.value < |db.incidents|
    requires !HasEvent(db.events, id) ==> IsFirst(pick, db, db.alerts[id], windowMs)
    ensures var r := Process(db, id, rules, windowMs, pick);
      && r.Committed? && GoodDb(r.db, windowMs) && Advances(db, r.db)
      && r.incidentId.Some? && LinkedTo(r.db, db.alerts[id].externalEventId, r.incidentId.value)
      && r.outcome == (if HasEvent(db.events, id) then ALREADY_PROCESSED
                       else if r.incidentId.value < |db.incidents| then CORRELATED else CREATED)
  {
    hide Process, GoodDb, Admitted, HasEvent, Advances, IsFirst, LinksAlert, LinkedTo, IsRecovery;
    var r := Process(db, id, rules, windowMs, pick);
    if HasEvent(db.events, id) {
      EffectLinks(db, id, rules, windowMs, pick);
      AdvancesSelf(db);
    } else {
      ProcessCommits(db, id, rules, windowMs, pick);
    }
    ProcessAnswers(db, id, rules, windowMs, pick);
    AlertLinksEvent(db, r.db, id, r.incidentId.value);
  }

  lemma ProcessCommits(db: Db, id: nat, rules: seq<Correlation.Rule>, windowMs: nat, pick: Option<nat>)
    requires GoodDb(db, windowMs) && id < |db.alerts| && db.alerts[id].id == id
    requires pick.Some? ==> pick.value < |db.incidents|
    requires IsFirst(pick, db, db.alerts[id], windowMs)
    ensures var r := Process(db, id, rules, windowMs, pick);
      r.Committed? && GoodDb(r.db, windowMs) && Advances(db, r.db)
  {
    hide Process, GoodDb, Admitted, HasEvent, Advances, IsFirst;
    AlertIsAdmitted(db, id, windowMs);
    GoodIsInv(db, windowMs);
    hide Inv;
    AttemptLinks(db, id, rules, windowMs, pick);
    StepIsGood(db, ProcessStep(id, rules, pick), windowMs);
  }

  lemma ProcessAnswers(db: Db, id: nat, rules: seq<Correlation.Rule>, windowMs: nat, pick: Option<nat>)
    requires GoodDb(db, windowMs) && id < |db.alerts| && db.alerts[id].id == id
    requires pick.Some? ==> pick.value < |db.incidents|
    ensures var r := Process(db, id, rules, windowMs, pick);
      r.Committed? && GoodDb(r.db, windowMs) ==>
        && r.incidentId.Some? && LinksAlert(r.db.events, id, r.incidentId.value)
        && r.outcome == (if HasEvent(db.events, id) then ALREADY_PROCESSED
                         else if r.incidentId.value < |db.incidents| then CORRELATED else CREATED)
  {
    hide Process, GoodDb, Admitted, HasEvent, IsRecovery;
    var r := Process(db, id, rules, windowMs, pick);
    AlertIsAdmitted(db, id, windowMs);
    AdmittedIsNotRecovery(db.alerts[id].eventType);
    ProcessTells(db, id, rules, windowMs, pick);
    if r.Committed? && GoodDb(r.db, windowMs) {
      GoodReferences(r.db, windowMs);
    }
  }

  lemma AlertIsAdmitted(db: Db, id: nat, windowMs: nat)
    requires GoodDb(db, windowMs) && id < |db.alerts|
    ensures Admitted(db.alerts[id].eventType)
  {
    hide Inv, History.Trail, Admitted;
  }

  lemma GoodIsInv(db: Db, windowMs: nat)
    requires GoodDb(db, windowMs)
    ensures Inv(db, windowMs)
  {
    hide Inv, History.Trail, History.AllAdmitted;
  }

  /** Every link names a stored incident. */
  lemma GoodReferences(db: Db, windowMs: nat)
    requires GoodDb(db, windowMs)
    ensures forall k :: 0 <= k < |db.events| ==> db.events[k].incidentId < |db.incidents|
  {
    hide Numbering.Numbered, Folding.Folded, Separation.Spread, AllConsistent, History.Trail, History.AllAdmitted;
  }

  lemma AlertLinksEvent(before: Db, after: Db, id: nat, n: nat)
    requires Advances(before, after) && id < |before.alerts| && LinksAlert(after.events, id, n)
    ensures LinkedTo(after, before.alerts[id].externalEventId, n)
  {
    var k :| 0 <= k < |after.events| && after.events[k].alertId == id && after.events[k].incidentId == n;
    assert History.SameAlert(before.alerts[id], after.alerts[id]);
    assert LinkAt(after, before.alerts[id].externalEventId, n, k);
  }

  lemma LinkedIncidentIsStored(db: Db, eventId: string, n: nat, windowMs: nat)
    requires GoodDb(db, windowMs) && LinkedTo(db, eventId, n)
    ensures n < |db.incidents|
  {
    hide GoodDb;
    GoodReferences(db, windowMs);
    var k: nat :| LinkAt(db, eventId, n, k);
  }

  /** What the impact refresh after a processed alert does to the engine's tables. */
  function AfterRefresh(db: Db, n: nat, counters: Counters): Db
    requires n < |db.incidents|
  {
    if Impact.HasLocation(db.incidents[n]) then RefreshImpact(db, n, counters) else db
  }

  /**
    Replaying an event that is already linked: ingesting and processing it change no table at all,
    and the impact refresh that follows changes nothing but the counters of the linked incident and
    adds one timeline row, if the incident has a location.
  */
  lemma ReplayAddsNothing(db: Db, e: Event, rules: seq<Correlation.Rule>, windowMs: nat, pick: Option<nat>,
                          counters: Counters)
    requires GoodDb(db, windowMs) && Linked(db, e.eventId)
    requires pick.Some? ==> pick.value < |db.incidents|
    ensures Ingest(db, e) == IngestResult(db, false, AlertIndex(db.alerts, e.eventId))
    ensures var id := AlertIndex(db.alerts, e.eventId);
      && id < |db.alerts| && db.alerts[id].id == id && HasEvent(db.events, id)
      && Process(db, id, rules, windowMs, pick)
      == Committed(db, ALREADY_PROCESSED, Some(db.events[EventIndex(db.events, id)].incidentId))
    ensures var n := db.events[EventIndex(db.events, AlertIndex(db.alerts, e.eventId))].incidentId;
      n < |db.incidents| && RefreshOnlyCounts(db, AfterRefresh(db, n, counters), n, counters)
  {
    hide Numbering.Numbered, Folding.Folded, Separation.Spread, AllConsistent, History.Trail, History.AllAdmitted,
      Process;
    var a: nat :| a < |db.alerts| && db.alerts[a].externalEventId == e.eventId && HasEvent(db.events, a);
    var id := AlertIndex(db.alerts, e.eventId);
    assert id == a by {
      assert UniqueColumns(db);
    }
    assert db.events[EventIndex(db.events, id)].incidentId < |db.incidents|;
    LinkedAnswersSo(db, id, rules, windowMs, pick);
    hide Linked, GoodDb;
    RefreshOnlyCountsExactly(db, db.events[EventIndex(db.events, id)].incidentId, counters);
  }

  lemma LinkedAnswersSo(db: Db, id: nat, rules: seq<Correlation.Rule>, windowMs: nat, pick: Option<nat>)
    requires id < |db.alerts| && db.alerts[id].id == id && (pick.Some? ==> pick.value < |db.incidents|)
    requires HasEvent(db.events, id)
    ensures Process(db, id, rules, windowMs, pick)
         == Committed(db, ALREADY_PROCESSED, Some(db.events[EventIndex(db.events, id)].incidentId))
  {
  }

  /**
    Incident n has these counters and nothing else of it differs, and the timeline has one more row; or
    it has no location and nothing differs.
  */
  ghost predicate RefreshOnlyCounts(db: Db, after: Db, n: nat, counters: Counters) {
    && after.alerts == db.alerts && after.events == db.events && after.results == db.results
    && after.sequences == db.sequences
    && n < |db.incidents| && |after.incidents| == |db.incidents|
    && after.incidents[n] == (if Impact.HasLocation(db.incidents[n]) then db.incidents[n].(counters := counters)
                              else db.incidents[n])
    && (forall m :: 0 <= m < |db.incidents| && m != n ==> after.incidents[m] == db.incidents[m])
    && db.timeline <= after.timeline
    && |after.timeline| == |db.timeline| + (if Impact.HasLocation(db.incidents[n]) then 1 else 0)
    && (forall k :: |db.timeline| <= k < |after.timeline| ==>
          after.timeline[k].incidentId == n && after.timeline[k].eventType == "IMPACT_RECALCULATED")
  }

  lemma RefreshOnlyCountsExactly(db: Db, n: nat, counters: Counters)
    requires n < |db.incidents|
    ensures RefreshOnlyCounts(db, AfterRefresh(db, n, counters), n, counters)
  {
    hide Impact.HasLocation;
  }

  /** A refresh keeps every invariant and only adds rows. */
  lemma RefreshIsGood(db: Db, n: nat, counters: Counters, windowMs: nat)
    requires GoodDb(db, windowMs) && n < |db.incidents|
    ensures GoodDb(RefreshImpact(db, n, counters), windowMs) && Advances(db, RefreshImpact(db, n, counters))
  {
    hide GoodDb, Advances;
    StepIsGood(db, RefreshStep(n, counters), windowMs);
  }

  /** So does an operator's status change. */
  lemma ChangeIsGood(db: Db, id: nat, change: Change, now: int, windowMs: nat)
    requires GoodDb(db, windowMs) && db.clock <= now && OperatorEvent(change.eventType)
    ensures var r := Transition(db, id, change, now);
      r.Changed? ==> GoodDb(r.db, windowMs) && Advances(db, r.db)
  {
    hide GoodDb, Advances, OperatorEvent;
    StepIsGood(db, ChangeStep(id, change, now), windowMs);
  }

  ghost predicate AllHandledSince(db: Db, rows: seq<Item>, from: nat) {
    forall k :: 0 <= k < |rows| ==> HandledSince(db, rows[k], from)
  }

  lemma OneMoreHandled(before: Db, after: Db, rows: seq<Item>, k: nat, latest: nat, from: nat)
    requires k < |rows| && AllHandledSince(before, rows[..k], from) && Advances(before, after)
    requires HandledSince(after, rows[k], latest) && from <= latest
    ensures AllHandledSince(after, rows[..k + 1], from)
  {
    hide HandledSince, Advances;
    AdvancesSelf(after);
    var upTo := rows[..k + 1];
    forall j | 0 <= j < |upTo| ensures HandledSince(after, upTo[j], from) {
      if j < k {
        assert rows[..k][j] == rows[j];
        HandledItemStays(before, after, rows[j], from, from);
      } else {
        HandledItemStays(after, after, rows[j], latest, from);
      }
    }
  }

  /** The counters that the customers fetched for a refresh give. */
  function Counted(customers: seq<Impact.ExternalCustomer>): Counters {
    Impact.CountersOf(Impact.CalculateSummary(customers))
  }

  lemma ValidOrHandled(db: Db, item: Item, from: nat)
    ensures Valid(item) || HandledSince(db, item, from)
  {
    hide Refreshed;
    ValidExactly(item);
  }

  lemma EventIsHandled(db: Db, item: Item, n: nat, from: nat)
    requires Valid(item) && LinkedTo(db, item.event.value.eventId, n) && RefreshSeen(db, n, from)
    ensures HandledSince(db, item, from)
  {
    hide LinkedTo, RefreshSeen, Admitted;
  }

  /** A notice for the outcome, if it has one, is all that is due. */
  lemma EventIsNoticed(before: Db, after: Db, eventId: string, outcome: Outcome, n: nat, was: seq<Notice>)
    requires LinkedTo(after, eventId, n)
    requires outcome == if Linked(before, eventId) then ALREADY_PROCESSED
                        else if n < |before.incidents| then CORRELATED else CREATED
    ensures var kind := NotificationEventFor(outcome);
      NoticedOnce(before, after, eventId, was, if kind.Some? then was + [Notice(kind.value, n, eventId)] else was)
  {
    hide LinkedTo, Linked;
  }

  lemma AdvancesCounts(before: Db, after: Db)
    requires Advances(before, after)
    ensures |before.timeline| <= |after.timeline| && |before.incidents| <= |after.incidents|
  {
  }

  // ---------------------------------------------------------------- safe cursors

  /**
    What holds of a stored cursor: nothing at or below it was skipped but what is lost; or the source
    was restored and lies below the cursor, so that the next page that reports its latest cursor
    shows the reset.
  */
  ghost predicate Safe(db: Db, outbox: seq<Item>, cursor: int, lost: set<Item>) {
    NoneSkipped(db, outbox, cursor, lost) || LatestCursor(outbox) < cursor
  }

  lemma SafeStays(before: Db, after: Db, outbox: seq<Item>, cursor: int, lost: set<Item>)
    requires Safe(before, outbox, cursor, lost) && Advances(before, after)
    ensures Safe(after, outbox, cursor, lost)
    ensures NoneSkipped(before, outbox, cursor, lost) ==> NoneSkipped(after, outbox, cursor, lost)
  {
    if NoneSkipped(before, outbox, cursor, lost) { HandledStays(before, after, outbox, cursor, lost); }
  }

  lemma ZeroIsSafe(db: Db, outbox: seq<Item>, lost: set<Item>)
    requires Ascending(outbox)
    ensures NoneSkipped(db, outbox, 0, lost) && Safe(db, outbox, 0, lost) && LatestCursor(outbox) >= 0
  {
    hide Handled;
  }

  /** A page with rows shows that the source is not below the cursor. */
  lemma RowsShowNoReset(page: Page, db: Db, outbox: seq<Item>, cursor: int, lost: set<Item>)
    requires Ascending(outbox) && IsPage(page, outbox, cursor) && page.data != []
    requires Safe(db, outbox, cursor, lost)
    ensures NoneSkipped(db, outbox, cursor, lost) && cursor < LatestCursor(outbox)
  {
    hide NoneSkipped;
    LatestIsLargest(outbox, CountUpTo(outbox, cursor));
  }

  /** So does an empty page that reports a latest cursor no lower than the stored one. */
  lemma ReportShowsNoReset(page: Page, db: Db, outbox: seq<Item>, cursor: int, lost: set<Item>)
    requires Ascending(outbox) && IsPage(page, outbox, cursor) && page.latestCursor.Some?
    requires Safe(db, outbox, cursor, lost) && !SeesReset(page, cursor)
    ensures NoneSkipped(db, outbox, cursor, lost)
  {
    hide NoneSkipped, IsPage, Ascending;
    ResetIsSeenExactly(page, outbox, cursor);
  }

  // ---------------------------------------------------------------- what a change of the source can lose

  /** The rows that will not be pulled although they are not handled: the source has reached a cursor above them. */
  ghost function LostBy(db: Db, rows: seq<Item>, cursor: int): set<Item> {
    if LatestCursor(rows) < cursor then {}
    else set i | 0 <= i < |rows| && rows[i].cursor <= cursor && !Handled(db, rows[i]) :: rows[i]
  }

  lemma RestIsSafe(db: Db, rows: seq<Item>, cursor: int, lost: set<Item>)
    requires LostBy(db, rows, cursor) <= lost
    ensures Safe(db, rows, cursor, lost)
  {
    hide Handled;
    if LatestCursor(rows) >= cursor {
      forall i | 0 <= i < |rows| && rows[i].cursor <= cursor ensures rows[i] in lost || Handled(db, rows[i]) {
        if !Handled(db, rows[i]) { assert rows[i] in LostBy(db, rows, cursor); }
      }
    }
  }

  /** A restored outbox that has reached the cursor, with a row up to there that is not handled. */
  ghost predicate RestoreBreaks(db: Db, rows: seq<Item>, cursor: int) {
    LatestCursor(rows) >= cursor
    && exists i :: 0 <= i < |rows| && rows[i].cursor <= cursor && !Handled(db, rows[i])
  }

  /** Exactly when a restored outbox makes a stored cursor unsafe, and that is exactly when a row is lost. */
  lemma RestoreBreaksExactly(db: Db, rows: seq<Item>, cursor: int)
    ensures RestoreBreaks(db, rows, cursor) <==> LostBy(db, rows, cursor) != {}
    ensures RestoreBreaks(db, rows, cursor) <==> !Safe(db, rows, cursor, {})
  {
    hide Handled;
    if RestoreBreaks(db, rows, cursor) {
      var i :| 0 <= i < |rows| && rows[i].cursor <= cursor && !Handled(db, rows[i]);
      assert rows[i] in LostBy(db, rows, cursor);
    } else {
      NothingLost(db, rows, cursor);
      RestIsSafe(db, rows, cursor, {});
    }
  }

  lemma NothingLost(db: Db, rows: seq<Item>, cursor: int)
    requires !RestoreBreaks(db, rows, cursor)
    ensures LostBy(db, rows, cursor) == {}
  {
    hide Handled;
  }

  /**
    A new row with which the source reaches the cursor while a row up to there, perhaps the new one,
    is not handled.
  */
  ghost predicate AppendBreaks(db: Db, outbox: seq<Item>, item: Item, cursor: int) {
    && item.cursor >= cursor
    && ((item.cursor == cursor && !Handled(db, item))
        || exists i :: 0 <= i < |outbox| && outbox[i].cursor <= cursor && !Handled(db, outbox[i]))
  }

  /** Exactly which new row makes a stored cursor unsafe, when the cursor has not been passed by the source before. */
  lemma AppendBreaksExactly(db: Db, outbox: seq<Item>, item: Item, cursor: int)
    requires Ascending(outbox) && item.cursor > LatestCursor(outbox) && Safe(db, outbox, cursor, {})
    ensures AppendBreaks(db, outbox, item, cursor) <==> LostBy(db, outbox + [item], cursor) != {}
    ensures AppendBreaks(db, outbox, item, cursor) <==> !Safe(db, outbox + [item], cursor, {})
  {
    hide Handled;
    var longer := outbox + [item];
    assert longer[|outbox|] == item;
    assert forall i :: 0 <= i < |outbox| ==> longer[i] == outbox[i];
    forall i | 0 <= i < |outbox| ensures outbox[i].cursor < item.cursor { LatestIsLargest(outbox, i); }
    RestoreBreaksExactly(db, longer, cursor);
    hide Ascending, LostBy, Safe;
    if RestoreBreaks(db, longer, cursor) {
      var i :| 0 <= i < |longer| && longer[i].cursor <= cursor && !Handled(db, longer[i]);
    }
    if AppendBreaks(db, outbox, item, cursor) { AppendBreaksLonger(db, outbox, item, cursor); }
  }

  lemma AppendBreaksLonger(db: Db, outbox: seq<Item>, item: Item, cursor: int)
    requires AppendBreaks(db, outbox, item, cursor)
    ensures RestoreBreaks(db, outbox + [item], cursor)
  {
    hide Handled;
    var longer := outbox + [item];
    if item.cursor == cursor && !Handled(db, item) {
      assert longer[|outbox|] == item;
    } else {
      var i :| 0 <= i < |outbox| && outbox[i].cursor <= cursor && !Handled(db, outbox[i]);
      assert longer[i] == outbox[i];
    }
  }

  /** A row above a cursor that the source had reached before loses nothing. */
  lemma HigherRowsLoseNothing(db: Db, outbox: seq<Item>, item: Item, cursor: int)
    requires Ascending(outbox) && item.cursor > LatestCursor(outbox) && cursor <= LatestCursor(outbox)
    requires NoneSkipped(db, outbox, cursor, {})
    ensures LostBy(db, outbox + [item], cursor) == {}
  {
    hide Handled;
    assert (outbox + [item])[|outbox|] == item;
    assert forall i :: 0 <= i < |outbox| ==> (outbox + [item])[i] == outbox[i];
  }

  /** Once the item itself is handled, nothing up to its cursor is skipped. */
  lemma HandledItemIsNext(db: Db, outbox: seq<Item>, cursor: int, item: Item, lost: set<Item>)
    requires NoneSkipped(db, outbox, cursor, lost) && OnlyAdds(outbox, cursor, item) && Handled(db, item)
    ensures NoneSkipped(db, outbox, item.cursor, lost)
  {
    hide Handled;
  }

  /** At the end of the outbox everything is handled. */
  lemma EndIsHandled(page: Page, db: Db, outbox: seq<Item>, cursor: int, lost: set<Item>)
    requires Ascending(outbox) && IsPage(page, outbox, cursor) && page.data == []
    requires NoneSkipped(db, outbox, cursor, lost)
    ensures forall i :: 0 <= i < |outbox| ==> outbox[i] in lost || Handled(db, outbox[i])
  {
    hide Handled;
  }

  lemma LastRowIsTheEnd(db: Db, outbox: seq<Item>, lost: set<Item>)
    requires Ascending(outbox) && NoneSkipped(db, outbox, LatestCursor(outbox), lost)
    ensures forall i :: 0 <= i < |outbox| ==> outbox[i] in lost || Handled(db, outbox[i])
  {
    hide Handled;
    forall i | 0 <= i < |outbox| ensures outbox[i].cursor <= LatestCursor(outbox) { LatestIsLargest(outbox, i); }
  }

  // ---------------------------------------------------------------- the puller

  datatype Answer = Ok | Threw | Died

  datatype NotificationEvent = NOTIFY_CREATED | NOTIFY_CORRELATED | NOTIFY_RECOVERY_DETECTED

  /** The notification, if any, that goes out for the outcome of a transaction. */
  function NotificationEventFor(outcome: Outcome): Option<NotificationEvent> {
    match outcome
    case CREATED => Some(NOTIFY_CREATED)
    case CORRELATED => Some(NOTIFY_CORRELATED)
    case RECOVERY_DETECTED => Some(NOTIFY_RECOVERY_DETECTED)
    case ALREADY_PROCESSED => None
    case IGNORED => None
  }

  /** One call of the dispatcher. */
  datatype Notice = Notice(kind: NotificationEvent, incidentId: nat, eventId: string)

  /**
    The dispatches of one handled event: none when it was linked before, and otherwise one, about the
    incident that it is linked to, which says whether that incident is new.
  */
  ghost predicate NoticedOnce(before: Db, after: Db, eventId: string, was: seq<Notice>, sent: seq<Notice>) {
    if Linked(before, eventId) then sent == was
    else
      exists n: nat :: LinkedTo(after, eventId, n)
        && sent == was + [Notice(if n < |before.incidents| then NOTIFY_CORRELATED else NOTIFY_CREATED, n, eventId)]
  }

  /** Every dispatch was about a linked event, and no two about the same one. */
  ghost predicate NotifiedOnce(db: Db, sent: seq<Notice>) {
    && (forall i :: 0 <= i < |sent| ==> Linked(db, sent[i].eventId))
    && (forall i, j :: 0 <= i < j < |sent| ==> sent[i].eventId != sent[j].eventId)
  }

  lemma NotifiedStays(before: Db, after: Db, sent: seq<Notice>)
    requires NotifiedOnce(before, sent) && Advances(before, after)
    ensures NotifiedOnce(after, sent)
  {
    hide Advances, Linked;
    forall i | 0 <= i < |sent| ensures Linked(after, sent[i].eventId) { LinkedStays(before, after, sent[i].eventId); }
  }

  lemma LinkedStays(before: Db, after: Db, eventId: string)
    requires Advances(before, after) && Linked(before, eventId)
    ensures Linked(after, eventId)
  {
    var a: nat :| a < |before.alerts| && before.alerts[a].externalEventId == eventId && HasEvent(before.events, a);
    var k :| 0 <= k < |before.events| && before.events[k].alertId == a;
    assert History.SameAlert(before.alerts[a], after.alerts[a]);
    assert after.events[k] == before.events[k];
  }

  lemma NoticeKeepsOnce(before: Db, after: Db, eventId: string, was: seq<Notice>, sent: seq<Notice>)
    requires NotifiedOnce(before, was) && Advances(before, after) && NoticedOnce(before, after, eventId, was, sent)
    ensures NotifiedOnce(after, sent)
  {
    hide Advances, Linked, LinkedTo;
    NotifiedStays(before, after, was);
    if !Linked(before, eventId) {
      var n: nat :| LinkedTo(after, eventId, n)
        && sent == was + [Notice(if n < |before.incidents| then NOTIFY_CORRELATED else NOTIFY_CREATED, n, eventId)];
      ToIsLinked(after, eventId, n);
    }
  }

  class EventPuller {
    const store: Store
    const windowMs: nat
    var cursor: int
    var persisted: Option<int>
    var polling: bool
    var outbox: seq<Item>

    /** The dispatches made. */
    var sent: seq<Notice>

    /**
      No call fails at present, the process does not die, and the source reports its latest cursor.
      Otherwise each of them may happen at any await.
    */
    var healthy: bool

    /** How many pages the source was asked for. */
    ghost var requested: nat

    /** Rows of the present outbox that a change of the source has put below a stored cursor unhandled. */
    ghost var lost: set<Item>

    /**
      Both cursors, the one in memory and the one in the database, are safe, and no event was dispatched
      twice. Within one epoch of the source neither cursor is ahead of the source and nothing is lost.
    */
    ghost predicate Kept(oneEpoch: bool)
      reads this`cursor, this`persisted, this`outbox, this`sent, this`lost, store
    {
      && GoodDb(store.State(), windowMs)
      && NotifiedOnce(store.State(), sent)
      && Ascending(outbox)
      && cursor >= 0
      && Safe(store.State(), outbox, cursor, lost)
      && (persisted.Some? ==> Safe(store.State(), outbox, persisted.value, lost))
      && (oneEpoch ==> WithinEpoch())
    }

    ghost predicate WithinEpoch()
      reads this`cursor, this`persisted, this`outbox, this`lost
    {
      && lost == {}
      && cursor <= LatestCursor(outbox)
      && (persisted.Some? ==> persisted.value <= LatestCursor(outbox))
    }

    /** Every event at or below the cursor in memory was rejected, is handled, or is lost. */
    ghost predicate CaughtUp()
      reads this`cursor, this`outbox, this`lost, store
    {
      NoneSkipped(store.State(), outbox, cursor, lost)
    }

    /** So was every event of the outbox. */
    ghost predicate AllHandled()
      reads this`outbox, this`lost, store
    {
      forall i :: 0 <= i < |outbox| ==> outbox[i] in lost || Handled(store.State(), outbox[i])
    }

    constructor (store: Store, windowMs: nat, healthy: bool)
      requires GoodDb(store.State(), windowMs)
      ensures Kept(true) && this.store == store && this.windowMs == windowMs && this.healthy == healthy
      ensures cursor == 0 && persisted == None && outbox == [] && sent == [] && !polling
    {
      this.store, this.windowMs, this.healthy := store, windowMs, healthy;
      cursor, persisted, polling, outbox, sent, lost, requested := 0, None, false, [], [], {}, 0;
    }

    /** The answer of a call to something else. */
    method Await() returns (r: Answer)
      ensures healthy ==> r == Ok
    {
      r := Ok;
      if !healthy { r := *; }
    }

    /** The persisted cursor, if it can be read; a failed read leaves the cursor where it is. */
    method RestoreCursor(ghost oneEpoch: bool)
      requires Kept(oneEpoch)
      modifies this`cursor
      ensures Kept(oneEpoch)
      ensures cursor == old(cursor) || persisted == Some(cursor)
      ensures healthy && persisted.Some? && persisted.value >= 0 ==> cursor == persisted.value
    {
      hide GoodDb, NotifiedOnce, Ascending, Safe;
      var read := Await();
      if read == Ok && persisted.Some? && persisted.value >= 0 { cursor := persisted.value; }
    }

    /** A new process: nothing is kept but the database and the source. */
    method Restart(ghost oneEpoch: bool)
      requires Kept(oneEpoch)
      modifies this`cursor, this`polling
      ensures Kept(oneEpoch) && !polling
      ensures cursor == 0 || persisted == Some(cursor)
      ensures healthy && persisted.Some? && persisted.value >= 0 ==> cursor == persisted.value
    {
      hide NoneSkipped, Ascending, GoodDb, NotifiedOnce, Safe, LatestCursor;
      ZeroIsSafe(store.State(), outbox, lost);
      cursor, polling := 0, false;
      RestoreCursor(oneEpoch);
    }

    /** Moves the cursor in memory, then in the database. */
    method AdvanceCursor(to: int, ghost oneEpoch: bool) returns (r: Answer)
      requires Kept(oneEpoch) && CaughtUp()
      requires NoneSkipped(store.State(), outbox, to, lost) && to <= LatestCursor(outbox)
      modifies this`cursor, this`persisted
      ensures Kept(oneEpoch) && CaughtUp()
      ensures to < old(cursor) ==> r == Threw && cursor == old(cursor) && persisted == old(persisted)
      ensures to >= old(cursor) ==> cursor == to
      ensures r == Ok ==> cursor == to && persisted == Some(to)
      ensures healthy && to >= old(cursor) ==> r == Ok
    {
      hide NoneSkipped, Ascending, GoodDb, NotifiedOnce, LatestCursor;
      if to < cursor { return Threw; }
      cursor := to;
      r := Await();
      if r == Ok {
        persisted := Some(to);
      } else {
        var committed: bool := *;
        if committed { persisted := Some(to); }
      }
    }

    /** Other channels ingest and process admitted events, and operators change incidents. */
    method OtherTraffic()
      requires GoodDb(store.State(), windowMs)
      modifies store
      ensures GoodDb(store.State(), windowMs)
      ensures Advances(old(store.State()), store.State())
    {
      hide GoodDb, NotifiedOnce, Advances, Admitted;
      AdvancesSelf(store.State());
      var n: nat :| 0 <= n;
      for i := 0 to n
        invariant GoodDb(store.State(), windowMs)
        invariant Advances(old(store.State()), store.State())
      {
        ghost var before := store.State();
        var operator: bool := *;
        if operator {
          OperatorActs();
        } else {
          var e: Event := *;
          if Admitted(e.eventType) {
            var r, outcome, n := IngestAndProcess(e);
          } else {
            AdvancesSelf(before);
          }
        }
        AdvancesThrough(old(store.State()), before, store.State());
      }
    }

    /** One operator action, on the server's clock. */
    method OperatorActs()
      requires GoodDb(store.State(), windowMs)
      modifies store
      ensures GoodDb(store.State(), windowMs)
      ensures Advances(old(store.State()), store.State())
    {
      hide GoodDb, NotifiedOnce, Advances, OperatorEvent, Transition;
      AdvancesSelf(store.State());
      var id: nat :| 0 <= id;
      var change: Change, now: int := *, *;
      if OperatorEvent(change.eventType) && store.clock <= now {
        ChangeIsGood(store.State(), id, change, now, windowMs);
        var r := store.ChangeIncident(id, change, now);
      }
    }

    /**
      Ingest, process in one transaction, refresh the impact; each may fail without effect, and the
      process may die in between. When all is well the event is linked to incident n, the outcome says
      how, and the impact of that incident has been refreshed in this very attempt.
    */
    method IngestAndProcess(e: Event) returns (r: Answer, outcome: Outcome, n: nat)
      requires GoodDb(store.State(), windowMs) && Admitted(e.eventType)
      modifies store
      ensures GoodDb(store.State(), windowMs)
      ensures Advances(old(store.State()), store.State())
      ensures healthy ==> r == Ok
      ensures r == Ok ==> LinkedTo(store.State(), e.eventId, n)
      ensures r == Ok ==> RefreshSeen(store.State(), n, old(|store.timeline|))
      ensures r == Ok ==>
        outcome == if old(Linked(store.State(), e.eventId)) then ALREADY_PROCESSED
                   else if n < old(|store.incidents|) then CORRELATED else CREATED
    {
      hide GoodDb, NotifiedOnce, Advances, Linked, LinkedTo, RefreshSeen, Admitted, Ingest, Process, HasEvent;
      AdvancesSelf(store.State());
      outcome, n := IGNORED, 0;
      r := Await();
      if r != Ok { return; }
      ghost var start := store.State();
      var created, id := store.IngestEvent(e);
      IngestIsGood(start, e, windowMs);
      IngestFindsLink(start, e, windowMs);
      ghost var stored := store.State();
      r := Await();
      if r != Ok { return; }
      GoodIds(stored, id, windowMs);
      var rules: seq<Correlation.Rule> := *;
      var p, pick := store.ProcessAlert(id, rules, windowMs);
      ProcessIsGood(stored, id, rules, windowMs, pick);
      AdvancesThrough(start, stored, store.State());
      LinkedIncidentIsStored(p.db, e.eventId, p.incidentId.value, windowMs);
      r := Await();
      if r != Ok { return; }
      outcome, n := p.outcome, p.incidentId.value;
      ghost var written;
      r, written := RefreshImpactOf(n);
      AdvancesThrough(start, p.db, store.State());
      LinkedToStays(p.db, store.State(), e.eventId, n);
      if r == Ok {
        AdvancesCounts(start, p.db);
        SeenEarlier(store.State(), n, |p.db.timeline|, |start.timeline|);
      }
    }

    /** Fetches the customers of the incident and writes its counters, unless it has no location. */
    method RefreshImpactOf(n: nat) returns (r: Answer, ghost written: Option<seq<Impact.ExternalCustomer>>)
      requires GoodDb(store.State(), windowMs) && n < |store.incidents|
      modifies store
      ensures GoodDb(store.State(), windowMs)
      ensures Advances(old(store.State()), store.State())
      ensures healthy ==> r == Ok
      ensures r == Ok ==> RefreshSeen(store.State(), n, old(|store.timeline|))
      ensures r == Ok ==> (written.Some? <==> Impact.HasLocation(old(store.incidents[n])))
      ensures store.State()
           == if written.Some? then AfterRefresh(old(store.State()), n, Counted(written.value)) else old(store.State())
    {
      hide GoodDb, NotifiedOnce, Advances, Impact.HasLocation, Impact.CalculateSummary;
      AdvancesSelf(store.State());
      written := None;
      r := Await();
      if r != Ok || !Impact.HasLocation(store.incidents[n]) { return; }
      var customers: seq<Impact.ExternalCustomer> := *;
      var counters := Impact.CountersOf(Impact.CalculateSummary(customers));
      RefreshIsGood(store.State(), n, counters, windowMs);
      written := Some(customers);
      store.WriteImpact(n, counters);
      assert store.timeline[old(|store.timeline|)].eventType == "IMPACT_RECALCULATED";
      r := Await();
    }

    /** One pulled event: reject it or store, process, refresh and notify; then advance the cursor. */
    method ProcessItem(item: Item, ghost oneEpoch: bool) returns (r: Answer)
      requires Kept(oneEpoch) && CaughtUp() && cursor <= item.cursor <= LatestCursor(outbox)
      requires OnlyAdds(outbox, cursor, item)
      modifies this`cursor, this`persisted, this`sent, store
      ensures Kept(oneEpoch) && CaughtUp()
      ensures Advances(old(store.State()), store.State())
      ensures healthy ==> r == Ok
      ensures r == Ok ==> cursor == item.cursor && persisted == Some(item.cursor)
      ensures cursor == old(cursor) || cursor == item.cursor
      ensures r == Ok ==> HandledSince(store.State(), item, old(|store.timeline|))
      ensures r == Ok && Valid(item) ==>
        NoticedOnce(old(store.State()), store.State(), item.event.value.eventId, old(sent), sent)
      ensures old(sent) <= sent && (!Valid(item) ==> sent == old(sent) && store.State() == old(store.State()))
    {
      hide GoodDb, NotifiedOnce, Advances, Linked, LinkedTo, RefreshSeen, Admitted, Ascending, Safe, OnlyAdds,
        NoneSkipped, LatestCursor, HandledSince, NoticedOnce;
      ghost var before := store.State();
      ValidOrHandled(before, item, |before.timeline|);
      AdvancesSelf(before);
      if Valid(item) {
        var outcome, n;
        r, outcome, n := IngestAndProcess(item.event.value);
        KeptAfter(before, store.State());
        if r != Ok { return; }
        ghost var processed := store.State();
        OtherTraffic();
        KeptAfter(processed, store.State());
        AdvancesThrough(before, processed, store.State());
        LinkedToStays(processed, store.State(), item.event.value.eventId, n);
        RefreshSeenStays(processed, store.State(), n, |before.timeline|);
        EventIsHandled(store.State(), item, n, |before.timeline|);
        EventIsNoticed(before, store.State(), item.event.value.eventId, outcome, n, sent);
        NotifiedStays(before, store.State(), sent);
        var kind := NotificationEventFor(outcome);
        if kind.Some? {
          sent := sent + [Notice(kind.value, n, item.event.value.eventId)];
          NoticeKeepsOnce(before, store.State(), item.event.value.eventId, old(sent), sent);
          r := Await();
          if r != Ok { return; }
        }
      }
      AdvancesSelf(store.State());
      HandledItemStays(store.State(), store.State(), item, |before.timeline|, 0);
      HandledItemIsNext(store.State(), outbox, cursor, item, lost);
      r := AdvanceCursor(item.cursor, oneEpoch);
    }

    /** What the cursors promised of one state of the store they promise of a later one. */
    lemma KeptAfter(before: Db, after: Db)
      requires Safe(before, outbox, cursor, lost) && Advances(before, after)
      requires persisted.Some? ==> Safe(before, outbox, persisted.value, lost)
      requires NotifiedOnce(before, sent)
      ensures NotifiedOnce(after, sent)
      ensures Safe(after, outbox, cursor, lost)
      ensures NoneSkipped(before, outbox, cursor, lost) ==> NoneSkipped(after, outbox, cursor, lost)
      ensures persisted.Some? ==> Safe(after, outbox, persisted.value, lost)
    {
      hide Safe, NoneSkipped, Advances, NotifiedOnce;
      NotifiedStays(before, after, sent);
      SafeStays(before, after, outbox, cursor, lost);
      if persisted.Some? { SafeStays(before, after, outbox, persisted.value, lost); }
    }

    /** A page of the source, as it is now. */
    method ListEvents(after: int) returns (page: Page)
      modifies this`requested
      ensures IsPage(page, outbox, after) && requested == old(requested) + 1
      ensures healthy ==> page.latestCursor == Some(LatestCursor(outbox))
    {
      requested := requested + 1;
      var from := CountUpTo(outbox, after);
      var size: nat :| 0 <= size;
      var count := if from + size <= |outbox| then size else |outbox| - from;
      if count == 0 && from < |outbox| { count := 1; }
      var hasMore, told: bool := *, *;
      page := Page(outbox[from..from + count], hasMore || from + count < |outbox|,
                   if healthy || told then Some(LatestCursor(outbox)) else None);
    }

    /**
      Back to zero, in memory first; from there every row is pulled again. Once neither cursor is
      above zero, no row is lost any more.
    */
    method AdvanceCursorAfterSourceReset(ghost oneEpoch: bool) returns (r: Answer)
      requires Kept(oneEpoch)
      modifies this`cursor, this`persisted, this`lost
      ensures Kept(oneEpoch) && CaughtUp() && cursor == 0
      ensures r == Ok ==> persisted == Some(0)
      ensures healthy ==> r == Ok
      ensures persisted == old(persisted) || persisted == Some(0)
      ensures lost == if persisted.Some? && persisted.value != 0 then old(lost) else {}
    {
      hide NoneSkipped, Ascending, GoodDb, NotifiedOnce, LatestCursor, Safe;
      ZeroIsSafe(store.State(), outbox, lost);
      ZeroIsSafe(store.State(), outbox, {});
      cursor := 0;
      r := Await();
      if r == Ok {
        persisted := Some(0);
      } else {
        var committed: bool := *;
        if committed { persisted := Some(0); }
      }
      if persisted.None? || persisted.value == 0 { lost := {}; }
    }

    /**
      An empty page. If it reports a latest cursor below ours, the source was restored and the cursor
      goes back to zero; otherwise nothing changes. Once the page has reported, nothing at or below
      the cursor is skipped, even when writing the reset fails.
    */
    method HandleEmptyPage(page: Page, ghost oneEpoch: bool) returns (reset: bool, r: Answer)
      requires Kept(oneEpoch) && IsPage(page, outbox, cursor) && page.data == []
      modifies this`cursor, this`persisted, this`lost
      ensures Kept(oneEpoch) && (old(CaughtUp()) ==> CaughtUp())
      ensures page.latestCursor.Some? ==> CaughtUp()
      ensures reset <==> page.latestCursor.Some? && LatestCursor(outbox) < old(cursor)
      ensures reset ==> cursor == 0 && (r == Ok ==> persisted == Some(0) && lost == {})
      ensures lost == old(lost) || lost == {}
      ensures !reset ==> r == Ok && cursor == old(cursor) && persisted == old(persisted) && lost == old(lost)
      ensures healthy ==> r == Ok
    {
      ResetIsSeenExactly(page, outbox, cursor);
      if page.latestCursor.Some? && !SeesReset(page, cursor) {
        ReportShowsNoReset(page, store.State(), outbox, cursor, lost);
      }
      hide GoodDb, NotifiedOnce, NoneSkipped, IsPage, Ascending, Safe, Kept, LatestCursor;
      reset, r := SeesReset(page, cursor), Ok;
      if reset { r := AdvanceCursorAfterSourceReset(oneEpoch); }
    }

    /** The rows of one page, in order. When none fails, each has been handled since the page was begun. */
    method ProcessPage(page: Page, ghost oneEpoch: bool) returns (r: Answer)
      requires Kept(oneEpoch) && CaughtUp() && IsPage(page, outbox, cursor)
      modifies this`cursor, this`persisted, this`sent, store
      ensures Kept(oneEpoch) && CaughtUp()
      ensures Advances(old(store.State()), store.State()) && old(sent) <= sent
      ensures healthy ==> r == Ok
      ensures r == Ok ==> page.data == [] || cursor == page.data[|page.data| - 1].cursor
      ensures r == Ok ==> forall k :: 0 <= k < |page.data| ==>
        HandledSince(store.State(), page.data[k], old(|store.timeline|))
    {
      ghost var from := CountUpTo(outbox, cursor);
      hide GoodDb, NotifiedOnce, NoneSkipped, Ascending, OnlyAdds, LatestCursor, Safe, HandledSince, Handled, Advances,
        NoticedOnce, Valid, CountUpTo;
      ghost var start := store.State();
      AdvancesSelf(start);
      r := Ok;
      for k := 0 to |page.data|
        invariant Kept(oneEpoch) && CaughtUp() && r == Ok
        invariant from + |page.data| <= |outbox| && page.data == outbox[from..from + |page.data|]
        invariant k == 0 ==> from == CountUpTo(outbox, cursor)
        invariant k > 0 ==> cursor == page.data[k - 1].cursor
        invariant Advances(start, store.State()) && old(sent) <= sent
        invariant AllHandledSince(store.State(), page.data[..k], |start.timeline|)
      {
        RowOfPage(page.data, outbox, from, k, cursor);
        ghost var before := store.State();
        r := ProcessItem(page.data[k], oneEpoch);
        AdvancesThrough(start, before, store.State());
        if r != Ok { return; }
        AdvancesCounts(start, before);
        OneMoreHandled(before, store.State(), page.data, k, |before.timeline|, |start.timeline|);
      }
      assert page.data[..|page.data|] == page.data;
    }

    lemma PageShowsCaughtUp(page: Page, oneEpoch: bool)
      requires Kept(oneEpoch) && IsPage(page, outbox, cursor) && page.data != []
      ensures CaughtUp()
    {
      hide GoodDb, NotifiedOnce, NoneSkipped, IsPage, Ascending, Safe, LatestCursor;
      RowsShowNoReset(page, store.State(), outbox, cursor, lost);
    }

    /** After a whole page the cursor counts its rows; after the last page everything is handled. */
    lemma PageIsDone(page: Page, before: int, oneEpoch: bool)
      requires Kept(oneEpoch) && CaughtUp() && IsPage(page, outbox, before) && page.data != []
      requires cursor == page.data[|page.data| - 1].cursor
      ensures cursor <= LatestCursor(outbox) && CountUpTo(outbox, cursor) > CountUpTo(outbox, before)
      ensures !page.hasMore ==> AllHandled()
    {
      hide GoodDb, NotifiedOnce, NoneSkipped, Ascending, Safe, Handled;
      var k := CountUpTo(outbox, before) + |page.data| - 1;
      assert outbox[k] == page.data[|page.data| - 1];
      CountAtRow(outbox, k);
      LatestIsLargest(outbox, k);
      if !page.hasMore { LastRowIsTheEnd(store.State(), outbox, lost); }
    }

    lemma EmptyPageIsTheEnd(page: Page, oneEpoch: bool)
      requires Kept(oneEpoch) && CaughtUp() && IsPage(page, outbox, cursor) && page.data == []
      ensures AllHandled()
    {
      hide GoodDb, NotifiedOnce, NoneSkipped, Ascending, Safe, Handled, IsPage, LatestCursor;
      EndIsHandled(page, store.State(), outbox, cursor, lost);
    }

    /**
      One turn of the polling loop: list a page and handle it. It asks for another page after a reset
      and after a page with more to come; otherwise, once nothing is skipped, everything is handled.
    */
    method PullPage(ghost oneEpoch: bool)
      returns (r: Answer, told: bool, more: bool, ghost reset: bool, ghost listed: Page)
      requires Kept(oneEpoch)
      modifies this`cursor, this`persisted, this`sent, this`requested, this`lost, store
      ensures Kept(oneEpoch) && (old(CaughtUp()) || told ==> CaughtUp())
      ensures r == Ok && !more && CaughtUp() ==> AllHandled()
      ensures r == Ok && more ==> told
      ensures r == Ok ==> IsPage(listed, outbox, old(cursor))
      ensures r == Ok ==> (more <==> reset || (listed.data != [] && listed.hasMore))
      ensures r == Ok ==> (told <==> listed.data != [] || listed.latestCursor.Some?)
      ensures healthy ==> r == Ok && told
      ensures requested <= old(requested) + 1 && (r == Ok ==> requested == old(requested) + 1)
      ensures reset ==> LatestCursor(outbox) < old(cursor) && cursor == 0 && (r == Ok ==> lost == {} && more)
      ensures !reset ==> lost == old(lost)
      ensures lost == old(lost) || lost == {}
      ensures r == Ok && told && LatestCursor(outbox) < old(cursor) ==> reset
      ensures r == Ok && more && !reset ==> CountUpTo(outbox, cursor) > old(CountUpTo(outbox, cursor))
      ensures r == Ok && more ==> cursor <= LatestCursor(outbox)
    {
      hide GoodDb, NotifiedOnce, Kept, CaughtUp, AllHandled, LatestCursor, HandledSince, Advances;
      told, more, reset, listed := false, false, false, Page([], false, None);
      r := Await();
      if r != Ok { return; }
      var page := ListEvents(cursor);
      listed := page;
      told := page.data != [] || page.latestCursor.Some?;
      if page.data == [] {
        more, r := HandleEmptyPage(page, oneEpoch);
        reset := more;
        LatestAtLeastZero(oneEpoch);
        if !reset && CaughtUp() { EmptyPageIsTheEnd(page, oneEpoch); }
      } else {
        PageShowsCaughtUp(page, oneEpoch);
        PageIsNotBehind(page, oneEpoch);
        ghost var before := cursor;
        r := ProcessPage(page, oneEpoch);
        if r == Ok { PageIsDone(page, before, oneEpoch); }
        more := page.hasMore;
      }
    }

    lemma LatestAtLeastZero(oneEpoch: bool)
      requires Kept(oneEpoch)
      ensures LatestCursor(outbox) >= 0
    {
      LatestIsNatural(outbox);
    }

    lemma PageIsNotBehind(page: Page, oneEpoch: bool)
      requires Kept(oneEpoch) && IsPage(page, outbox, cursor) && page.data != []
      ensures LatestCursor(outbox) > cursor
    {
      hide GoodDb, NotifiedOnce, NoneSkipped, IsPage, Ascending, Safe, LatestCursor;
      RowsShowNoReset(page, store.State(), outbox, cursor, lost);
    }

    /**
      At most five pages per run; a failure ends the run, and the next run continues from the cursor.
      As soon as the first page has rows or reports the latest cursor of the source (`told`), nothing
      at or below the cursor in memory is skipped, however the run goes on and ends. A run that ends
      with nothing more to come has handled the whole outbox (`drained`), and after a reset has been
      written nothing is lost; a run that ends for its five pages alone has moved on.
    */
    method Poll(ghost oneEpoch: bool) returns (r: Answer, told: bool, drained: bool, ghost reset: bool)
      requires Kept(oneEpoch)
      modifies this`cursor, this`persisted, this`polling, this`sent, this`requested, this`lost, store
      ensures Kept(oneEpoch) && (old(CaughtUp()) || told ==> CaughtUp())
      ensures r != Died && !old(polling) ==> !polling
      ensures drained ==> r == Ok && AllHandled()
      ensures lost == old(lost) || lost == {}
      ensures reset && r == Ok ==> lost == {}
      ensures r == Ok && told && LatestCursor(outbox) < old(cursor) ==> reset
      ensures r == Ok && told && !drained ==> Progress(old(cursor)) && requested == old(requested) + 5
      ensures requested <= old(requested) + 5
      ensures healthy && !old(polling) ==> r == Ok && told
    {
      hide GoodDb, NotifiedOnce, Kept, CaughtUp, AllHandled, LatestCursor;
      r, told, drained, reset := Ok, false, false, false;
      if polling { return; }
      polling := true;
      ghost var start := cursor;
      for pageNumber := 0 to 5
        invariant Kept(oneEpoch) && r == Ok && !drained
        invariant old(CaughtUp()) || told ==> CaughtUp()
        invariant lost == old(lost) || lost == {}
        invariant reset ==> lost == {}
        invariant pageNumber == 0 ==> cursor == start && !told
        invariant requested == old(requested) + pageNumber
        invariant pageNumber > 0 ==> told && cursor <= LatestCursor(outbox)
        invariant pageNumber > 0 && LatestCursor(outbox) < start ==> reset
        invariant pageNumber > 0 ==> CountUpTo(outbox, cursor) + 1 >= pageNumber
        invariant start <= LatestCursor(outbox) ==> CountUpTo(outbox, cursor) >= CountUpTo(outbox, start) + pageNumber
      {
        var pageTold, more: bool;
        ghost var seen: bool, listed: Page;
        r, pageTold, more, seen, listed := PullPage(oneEpoch);
        if pageNumber == 0 { told := pageTold; }
        reset := reset || seen;
        if r != Ok { break; }
        if !more {
          drained := told;
          break;
        }
      }
      if r != Died { polling := false; }
    }

    /**
      The cursor is at a row of the source, at least five rows further, or, if it was ahead of the source
      before, at least four rows from the start.
    */
    ghost predicate Progress(before: int)
      reads this`cursor, this`outbox
    {
      && cursor <= LatestCursor(outbox)
      && CountUpTo(outbox, cursor) >= 4
      && (before <= LatestCursor(outbox) ==> CountUpTo(outbox, cursor) >= CountUpTo(outbox, before) + 5)
    }

    // ---------------------------------------------------------------- replay

    /**
      Polling until the outbox is drained. As long as no poll fails and each is told something by its
      first page, five pages a poll, one for each row and two more, are enough, whatever happened before:
      then every event of the outbox was rejected or is handled. If the source had been restored below
      our cursor, that includes the events that were lost.
    */
    method PollUntilDrained(times: nat) returns (ghost quiet: bool)
      requires Kept(false) && !polling && 5 * times > |outbox| + 1
      modifies this`cursor, this`persisted, this`polling, this`sent, this`requested, this`lost, store
      ensures Kept(false)
      ensures quiet ==> AllHandled()
      ensures healthy ==> quiet
      ensures quiet && LatestCursor(outbox) < old(cursor) ==>
        forall i :: 0 <= i < |outbox| ==> Handled(store.State(), outbox[i])
    {
      hide GoodDb, NotifiedOnce, Kept, CaughtUp, LatestCursor, Handled;
      quiet := true;
      ghost var start := cursor;
      for i := 0 to times
        invariant Kept(false) && !polling && quiet
        invariant i == 0 ==> cursor == start
        invariant i > 0 ==> cursor <= LatestCursor(outbox) && CountUpTo(outbox, cursor) >= 5 * i - 1
        invariant i > 0 && LatestCursor(outbox) < start ==> lost == {}
      {
        var r, told, drained;
        ghost var reset;
        r, told, drained, reset := Poll(false);
        if r != Ok || !told {
          quiet := false;
          return;
        }
        if drained { return; }
      }
    }

    // ---------------------------------------------------------------- the source

    /** What a change to this outbox loses, by either cursor. */
    ghost function LostWith(rows: seq<Item>): set<Item>
      reads this`cursor, this`persisted, store
    {
      LostBy(store.State(), rows, cursor)
      + if persisted.Some? then LostBy(store.State(), rows, persisted.value) else {}
    }

    /** The source appends any row above its last one. Within one epoch this loses nothing. */
    method SourceAppends(item: Item, ghost oneEpoch: bool)
      requires Kept(oneEpoch) && item.cursor > LatestCursor(outbox) && item.cursor > 0
      modifies this`outbox, this`lost
      ensures Kept(oneEpoch) && outbox == old(outbox) + [item]
      ensures lost == old(lost) + old(LostWith(outbox + [item]))
    {
      hide Ascending, Safe, GoodDb, LatestCursor, NoneSkipped, LostBy;
      AppendKeepsAscending(outbox, item);
      AppendIsSafe(item, oneEpoch);
      ghost var more := LostWith(outbox + [item]);
      hide LostWith;
      outbox := outbox + [item];
      lost := lost + more;
    }

    lemma AppendIsSafe(item: Item, oneEpoch: bool)
      requires Kept(oneEpoch) && item.cursor > LatestCursor(outbox)
      ensures Safe(store.State(), outbox + [item], cursor, lost + LostWith(outbox + [item]))
      ensures persisted.Some? ==>
        Safe(store.State(), outbox + [item], persisted.value, lost + LostWith(outbox + [item]))
      ensures oneEpoch ==> LostWith(outbox + [item]) == {}
      ensures LatestCursor(outbox + [item]) == item.cursor
    {
      assert LatestCursor(outbox + [item]) == item.cursor;
      hide GoodDb, NotifiedOnce, Ascending, LostBy, NoneSkipped, LatestCursor;
      var db, rows, all := store.State(), outbox + [item], lost + LostWith(outbox + [item]);
      RestIsSafe(db, rows, cursor, all);
      if oneEpoch { HigherRowsLoseNothing(db, outbox, item, cursor); }
      if persisted.Some? {
        RestIsSafe(db, rows, persisted.value, all);
        if oneEpoch { HigherRowsLoseNothing(db, outbox, item, persisted.value); }
      }
    }

    /** The source is restored from elsewhere: any other outbox, with cursors from one again. */
    method SourceRestored(rows: seq<Item>)
      requires Kept(false) && Ascending(rows)
      modifies this`outbox, this`lost
      ensures Kept(false) && outbox == rows && lost == old(LostWith(rows))
    {
      hide GoodDb, NotifiedOnce, Ascending, LostBy, NoneSkipped, LatestCursor, Safe;
      RestIsSafe(store.State(), rows, cursor, LostWith(rows));
      if persisted.Some? { RestIsSafe(store.State(), rows, persisted.value, LostWith(rows)); }
      ghost var all := LostWith(rows);
      hide LostWith;
      outbox := rows;
      lost := all;
    }

    /** The new row breaks one of the two cursors. */
    ghost predicate AppendBreaksOne(item: Item)
      reads this`cursor, this`persisted, this`outbox, store
    {
      AppendBreaks(store.State(), outbox, item, cursor)
      || (persisted.Some? && AppendBreaks(store.State(), outbox, item, persisted.value))
    }

    /** The restored outbox breaks one of the two cursors. */
    ghost predicate RestoreBreaksOne(rows: seq<Item>)
      reads this`cursor, this`persisted, store
    {
      RestoreBreaks(store.State(), rows, cursor)
      || (persisted.Some? && RestoreBreaks(store.State(), rows, persisted.value))
    }

    lemma AppendLosesExactly(item: Item)
      requires Kept(false) && lost == {} && item.cursor > LatestCursor(outbox)
      ensures LostWith(outbox + [item]) != {} <==> AppendBreaksOne(item)
    {
      hide GoodDb, NotifiedOnce, Ascending, LostBy, Safe, AppendBreaks, LatestCursor;
      AppendBreaksExactly(store.State(), outbox, item, cursor);
      if persisted.Some? { AppendBreaksExactly(store.State(), outbox, item, persisted.value); }
    }

    lemma RestoreLosesExactly(rows: seq<Item>)
      ensures LostWith(rows) != {} <==> RestoreBreaksOne(rows)
    {
      hide LostBy, RestoreBreaks;
      RestoreBreaksExactly(store.State(), rows, cursor);
      if persisted.Some? { RestoreBreaksExactly(store.State(), rows, persisted.value); }
    }

    // ---------------------------------------------------------------- whole lives

    /**
      Any life of the puller within one source epoch: polls, crashes, restarts, the traffic of other
      channels and any new source rows, in any order. Nothing at or below either cursor is skipped.
    */
    method Life(turns: nat)
      requires Kept(true)
      modifies this, store
      ensures Kept(true)
      ensures forall i :: 0 <= i < |outbox| && outbox[i].cursor <= cursor ==> Handled(store.State(), outbox[i])
      ensures forall i :: 0 <= i < |outbox| && persisted.Some? && outbox[i].cursor <= persisted.value ==>
        Handled(store.State(), outbox[i])
    {
      hide Kept, LatestCursor, LostWith;
      for i := 0 to turns
        invariant Kept(true)
      {
        healthy := *;
        var choice: nat :| 0 <= choice;
        if choice == 0 {
          PollOrDie(true);
        } else if choice == 1 {
          Restart(true);
        } else if choice == 2 {
          Wait(true);
        } else {
          var item: Item := *;
          if item.cursor > LatestCursor(outbox) && item.cursor > 0 { SourceAppends(item, true); }
        }
      }
      EpochIsCaughtUp();
    }

    /**
      Any life across restores of the source, too, by any outbox and with any appended rows. Each row at
      or below a cursor that the source has reached is handled or lost; and as long as no append and no
      restore has put an unhandled row below a cursor that the source has reached (`broke`), none is lost.
      However often rows are pulled again, no event is dispatched twice.
    */
    method LifeAcrossRestores(turns: nat) returns (ghost broke: bool)
      requires Kept(false) && lost == {}
      modifies this, store
      ensures Kept(false)
      ensures !broke ==> lost == {}
      ensures forall i, j :: 0 <= i < j < |sent| ==> sent[i].eventId != sent[j].eventId
    {
      hide Kept, LatestCursor, LostWith, AppendBreaksOne, RestoreBreaksOne, Ascending;
      broke := false;
      for i := 0 to turns
        invariant Kept(false)
        invariant !broke ==> lost == {}
      {
        healthy := *;
        var choice: nat :| 0 <= choice;
        if choice == 0 {
          PollOrDie(false);
        } else if choice == 1 {
          Restart(false);
        } else if choice == 2 {
          Wait(false);
        } else if choice == 3 {
          var item: Item := *;
          if item.cursor > LatestCursor(outbox) && item.cursor > 0 {
            if lost == {} { AppendLosesExactly(item); }
            broke := broke || AppendBreaksOne(item);
            SourceAppends(item, false);
          }
        } else {
          var rows: seq<Item> := *;
          if Ascending(rows) {
            RestoreLosesExactly(rows);
            broke := broke || RestoreBreaksOne(rows);
            SourceRestored(rows);
          }
        }
      }
      NoEventTwice();
    }

    lemma NoEventTwice()
      requires Kept(false)
      ensures forall i, j :: 0 <= i < j < |sent| ==> sent[i].eventId != sent[j].eventId
    {
      hide GoodDb, Linked, Ascending, Safe, LatestCursor;
    }

    method PollOrDie(ghost oneEpoch: bool)
      requires Kept(oneEpoch)
      modifies this`cursor, this`persisted, this`polling, this`sent, this`requested, this`lost, store
      ensures Kept(oneEpoch) && (lost == old(lost) || lost == {})
    {
      hide Kept, CaughtUp, AllHandled, LatestCursor;
      var r, told, drained;
      ghost var reset;
      r, told, drained, reset := Poll(oneEpoch);
      if r == Died { Restart(oneEpoch); }
    }

    /** Between two polls the other channels and the operators go on. */
    method Wait(ghost oneEpoch: bool)
      requires Kept(oneEpoch)
      modifies store
      ensures Kept(oneEpoch)
    {
      hide GoodDb, NotifiedOnce, Ascending, Safe, Advances, LatestCursor;
      ghost var before := store.State();
      OtherTraffic();
      KeptAfter(before, store.State());
    }

    lemma EpochIsCaughtUp()
      requires Kept(true)
      ensures forall i :: 0 <= i < |outbox| && outbox[i].cursor <= cursor ==> Handled(store.State(), outbox[i])
      ensures forall i :: 0 <= i < |outbox| && persisted.Some? && outbox[i].cursor <= persisted.value ==>
        Handled(store.State(), outbox[i])
    {
      hide GoodDb, NotifiedOnce, Handled, Ascending, LatestCursor;
    }
  }

  lemma AdvancesSelf(db: Db)
    ensures Advances(db, db)
  {
  }

  lemma AdvancesThrough(a: Db, b: Db, c: Db)
    requires Advances(a, b) && Advances(b, c)
    ensures Advances(a, c)
  {
    hide History.Appends;
    History.AppendsIsTransitive(a, b, c);
  }


  lemma GoodIds(db: Db, id: nat, windowMs: nat)
    requires GoodDb(db, windowMs) && id < |db.alerts|
    ensures db.alerts[id].id == id
  {
    hide Numbering.Numbered, Folding.Folded, Separation.Spread, History.Trail, History.AllAdmitted;
  }
}
