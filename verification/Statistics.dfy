/**
  Customer and location statistics. The customer grouping is a second, separately written outage
  pipeline; the main results compare it with the service level calculation.
*/
module Statistics {
  import opened Arithmetic
  import opened Prelude
  import opened Records
  import opened Intervals
  import opened Sla

  /** An insertion-ordered map from keys to aggregates. */
  datatype Groups<A> = Groups(order: seq<string>, byKey: map<string, A>) {
    ghost predicate Valid() {
      && (forall k :: k in order <==> k in byKey)
      && (forall i, j :: 0 <= i < j < |order| ==> order[i] != order[j])
    }

    /** Overwriting keeps a key's place; a new key goes to the end. */
    function Set(key: string, a: A): Groups<A> {
      Groups(if key in byKey then order else order + [key], byKey[key := a])
    }
  }

  // ---------------------------------------------------------------- customers

  datatype CustomerAggregate = CustomerAggregate(
    customerCode: string,
    customerName: Option<string>,
    incidentIds: set<nat>,
    intervals: seq<Interval>,
    currentlyOffline: bool)

  function KeyOf(customer: IncidentCustomer): string {
    customer.customerCode.GetOr(customer.externalCustomerId)
  }

  function EmptyAggregate(customer: IncidentCustomer): CustomerAggregate {
    CustomerAggregate(KeyOf(customer), customer.customerName, {}, [], false)
  }

  function WithRow(a: CustomerAggregate, customer: IncidentCustomer, p: Period): CustomerAggregate {
    a.(incidentIds := a.incidentIds + {customer.incidentId},
       currentlyOffline := a.currentlyOffline || customer.currentStatus == OFFLINE,
       intervals := a.intervals + CustomerInterval(customer, p))
  }

  /** The records of one group, in query order. */
  function RowsOf(customers: seq<IncidentCustomer>, key: string): seq<IncidentCustomer> {
    if customers == [] then []
    else
      var rest := RowsOf(customers[..|customers| - 1], key);
      var last := customers[|customers| - 1];
      if KeyOf(last) == key then rest + [last] else rest
  }

  function IncidentIds(rows: seq<IncidentCustomer>): set<nat> {
    if rows == [] then {} else IncidentIds(rows[..|rows| - 1]) + {rows[|rows| - 1].incidentId}
  }

  /** The position of the first record with the key, or the length. */
  function FirstRow(customers: seq<IncidentCustomer>, key: string): (n: nat)
    ensures n <= |customers|
    ensures n < |customers| ==> KeyOf(customers[n]) == key
    ensures forall i :: 0 <= i < n ==> KeyOf(customers[i]) != key
  {
    if customers == [] then 0
    else
      var front := customers[..|customers| - 1];
      var n := FirstRow(front, key);
      if n < |front| || KeyOf(customers[|front|]) == key then n else |customers|
  }

  /** Groups stand in the order in which their keys first appear. */
  ghost predicate ByFirstRow(order: seq<string>, customers: seq<IncidentCustomer>) {
    && (forall i :: 0 <= i < |order| ==> Appears(customers, order[i]) < |customers|)
    && (forall i, j :: 0 <= i < j < |order| ==> Appears(customers, order[i]) < Appears(customers, order[j]))
  }

  /** Where the key appears first. */
  function Appears(customers: seq<IncidentCustomer>, key: string): int { FirstRow(customers, key) }

  lemma FirstRowAppend(customers: seq<IncidentCustomer>, customer: IncidentCustomer, key: string)
    ensures FirstRow(customers, key) < |customers| ==> FirstRow(customers + [customer], key) == FirstRow(customers, key)
    ensures FirstRow(customers, key) == |customers| && key == KeyOf(customer) ==>
      FirstRow(customers + [customer], key) == |customers|
  {
    assert (customers + [customer])[..|customers|] == customers;
  }

  lemma {:induction false} RowsFromFirstRow(customers: seq<IncidentCustomer>, key: string)
    ensures FirstRow(customers, key) < |customers| <==> RowsOf(customers, key) != []
  {
    if customers != [] { RowsFromFirstRow(customers[..|customers| - 1], key); }
  }

  lemma SetKeepsFirstRows(g: Groups<CustomerAggregate>, customers: seq<IncidentCustomer>, customer: IncidentCustomer,
                          a: CustomerAggregate)
    requires ByFirstRow(g.order, customers)
    requires KeyOf(customer) in g.byKey || Appears(customers, KeyOf(customer)) == |customers|
    ensures ByFirstRow(g.Set(KeyOf(customer), a).order, customers + [customer])
  {
    hide FirstRow, Appears, KeyOf;
    var longer, more := customers + [customer], g.Set(KeyOf(customer), a).order;
    assert |longer| == |customers| + 1;
    forall i | 0 <= i < |g.order| ensures Appears(longer, g.order[i]) == Appears(customers, g.order[i]) {
      OneMoreRecord(customers, customer, g.order[i]);
    }
    OneMoreRecord(customers, customer, KeyOf(customer));
    if KeyOf(customer) !in g.byKey { NewKeyIsLast(g.order, customers, longer, KeyOf(customer)); }
  }

  lemma OneMoreRecord(customers: seq<IncidentCustomer>, customer: IncidentCustomer, key: string)
    ensures Appears(customers, key) < |customers| ==> Appears(customers + [customer], key) == Appears(customers, key)
    ensures Appears(customers, key) == |customers| && key == KeyOf(customer) ==>
      Appears(customers + [customer], key) == |customers|
  {
    FirstRowAppend(customers, customer, key);
  }

  lemma NewKeyIsLast(order: seq<string>, customers: seq<IncidentCustomer>, longer: seq<IncidentCustomer>, key: string)
    requires ByFirstRow(order, customers) && |longer| > |customers| && Appears(longer, key) == |customers|
    requires forall i :: 0 <= i < |order| ==> Appears(longer, order[i]) == Appears(customers, order[i])
    ensures ByFirstRow(order + [key], longer)
  {
    hide Appears;
    var more := order + [key];
    assert forall i :: 0 <= i < |order| ==> more[i] == order[i];
  }

  /** What the aggregate of a group says about the records of that group. */
  ghost predicate Summarises(a: CustomerAggregate, rows: seq<IncidentCustomer>, p: Period) {
    && rows != []
    && a.customerCode == KeyOf(rows[0])
    && a.customerName == rows[0].customerName
    && a.incidentIds == IncidentIds(rows)
    && a.intervals == CustomerIntervals(rows, p)
    && (a.currentlyOffline <==> exists i :: 0 <= i < |rows| && rows[i].currentStatus == OFFLINE)
  }

  ghost predicate GroupsRows(g: Groups<CustomerAggregate>, customers: seq<IncidentCustomer>, p: Period) {
    g.Valid() && ByFirstRow(g.order, customers) && forall k :: GroupMatches(g, customers, p, k)
  }

  /** The key has a group exactly when some record has that key, and the group summarises those records. */
  ghost predicate GroupMatches(g: Groups<CustomerAggregate>, customers: seq<IncidentCustomer>, p: Period, key: string) {
    if RowsOf(customers, key) == [] then key !in g.byKey
    else key in g.byKey && Summarises(g.byKey[key], RowsOf(customers, key), p)
  }

  lemma SummaryGrows(a: CustomerAggregate, rows: seq<IncidentCustomer>, customer: IncidentCustomer, p: Period)
    requires if rows == [] then a == EmptyAggregate(customer) else Summarises(a, rows, p)
    ensures Summarises(WithRow(a, customer, p), rows + [customer], p)
  {
    var more := rows + [customer];
    assert more[..|rows|] == rows && more[|rows|] == customer;
    assert CustomerIntervals(more, p) == CustomerIntervals(rows, p) + CustomerInterval(customer, p);
    if rows != [] {
      assert more[0] == rows[0];
      if a.currentlyOffline {
        var i :| 0 <= i < |rows| && rows[i].currentStatus == OFFLINE;
        assert more[i].currentStatus == OFFLINE;
      }
    }
    if exists i :: 0 <= i < |more| && more[i].currentStatus == OFFLINE {
      var i :| 0 <= i < |more| && more[i].currentStatus == OFFLINE;
      if i < |rows| { assert rows[i].currentStatus == OFFLINE; }
    }
    if customer.currentStatus == OFFLINE { assert more[|rows|].currentStatus == OFFLINE; }
  }

  lemma SetKeepsOrder<A>(g: Groups<A>, key: string, a: A)
    requires g.Valid()
    ensures g.Set(key, a).Valid()
  {
  }

  function AddRow(g: Groups<CustomerAggregate>, customer: IncidentCustomer, p: Period): Groups<CustomerAggregate> {
    var key := KeyOf(customer);
    g.Set(key, WithRow(if key in g.byKey then g.byKey[key] else EmptyAggregate(customer), customer, p))
  }

  lemma GroupingStepAt(g: Groups<CustomerAggregate>, customers: seq<IncidentCustomer>, customer: IncidentCustomer,
                       p: Period, k: string)
    requires GroupMatches(g, customers, p, k)
    ensures GroupMatches(AddRow(g, customer, p), customers + [customer], p, k)
  {
    assert (customers + [customer])[..|customers|] == customers;
    if k == KeyOf(customer) {
      var a := if k in g.byKey then g.byKey[k] else EmptyAggregate(customer);
      SummaryGrows(a, RowsOf(customers, k), customer, p);
    }
  }

  lemma GroupingStep(g: Groups<CustomerAggregate>, customers: seq<IncidentCustomer>,
                     customer: IncidentCustomer, p: Period)
    requires GroupsRows(g, customers, p)
    ensures GroupsRows(AddRow(g, customer, p), customers + [customer], p)
  {
    var key := KeyOf(customer);
    var a := WithRow(if key in g.byKey then g.byKey[key] else EmptyAggregate(customer), customer, p);
    SetKeepsOrder(g, key, a);
    assert GroupMatches(g, customers, p, key);
    RowsFromFirstRow(customers, key);
    SetKeepsFirstRows(g, customers, customer, a);
    hide ByFirstRow, GroupMatches;
    forall k ensures GroupMatches(AddRow(g, customer, p), customers + [customer], p, k) {
      GroupingStepAt(g, customers, customer, p, k);
    }
  }

  lemma NothingGrouped(p: Period)
    ensures GroupsRows(Groups([], map[]), [], p)
  {
  }

  /** One record enters its aggregate; the outage is clipped here by code of its own. */
  method AddRecord(a: CustomerAggregate, customer: IncidentCustomer, p: Period) returns (aggregate: CustomerAggregate)
    ensures aggregate == WithRow(a, customer, p)
  {
    aggregate := a.(incidentIds := a.incidentIds + {customer.incidentId});
    aggregate := aggregate.(currentlyOffline := aggregate.currentlyOffline || customer.currentStatus == OFFLINE);
    if customer.affectedFrom.Some? {
      var start := Max(customer.affectedFrom.value, p.start);
      var end := Min(customer.restoredAt.GetOr(p.end), p.end);
      if end > start {
        aggregate := aggregate.(intervals := aggregate.intervals + [Interval(start, end)]);
      }
    }
  }

  /** Groups the affected-customer records by customer code, or by external id when there is no code. */
  method GroupCustomers(customers: seq<IncidentCustomer>, p: Period) returns (grouped: Groups<CustomerAggregate>)
    ensures GroupsRows(grouped, customers, p)
  {
    hide GroupsRows, KeyOf;
    grouped := Groups([], map[]);
    NothingGrouped(p);
    for n := 0 to |customers|
      invariant GroupsRows(grouped, customers[..n], p)
    {
      var customer := customers[n];
      var key := KeyOf(customer);
      var aggregate := if key in grouped.byKey then grouped.byKey[key] else EmptyAggregate(customer);
      GroupingStep(grouped, customers[..n], customer, p);
      assert customers[..n + 1] == customers[..n] + [customer];
      aggregate := AddRecord(aggregate, customer, p);
      grouped := grouped.Set(key, aggregate);
    }
    assert customers[..|customers|] == customers;
  }

  /** The accumulated downtime: the merged total of every group, summed in insertion order. */
  function AccumulatedMinutes(order: seq<string>, byKey: map<string, CustomerAggregate>): real
    requires forall k :: k in order ==> k in byKey
  {
    if order == [] then 0.0
    else
      assert order[|order| - 1] in order;
      AccumulatedMinutes(order[..|order| - 1], byKey) + TotalMinutes(Merged(byKey[order[|order| - 1]].intervals))
  }

  /** One turn of the second merge loop. */
  method AbsorbOwn(merged: seq<Interval>, interval: Interval) returns (longer: seq<Interval>)
    ensures longer == Absorb(merged, interval)
  {
    longer := merged;
    if |merged| == 0 || interval.start > merged[|merged| - 1].end {
      longer := merged + [interval];
    } else if interval.end > merged[|merged| - 1].end {
      var last := |merged| - 1;
      longer := merged[last := Interval(merged[last].start, interval.end)];
      assert longer == merged[..last] + [Interval(merged[last].start, interval.end)];
    }
  }

  /** The second merge: the same loop, written again, over intervals of its own. */
  method MergeOwnIntervals(intervals: seq<Interval>) returns (merged: seq<Interval>)
    ensures merged == Merged(intervals)
  {
    hide Ordered, Absorb;
    var ordered := Ordered(intervals);
    merged := [];
    for n := 0 to |ordered|
      invariant merged == MergeOrdered(ordered[..n])
    {
      assert ordered[..n + 1][..n] == ordered[..n];
      merged := AbsorbOwn(merged, ordered[n]);
    }
    assert ordered[..|ordered|] == ordered;
  }

  /** The second sum. */
  method SumOwnMinutes(intervals: seq<Interval>) returns (total: real)
    ensures total == TotalMinutes(intervals)
  {
    total := 0.0;
    for n := 0 to |intervals|
      invariant total == TotalMinutes(intervals[..n])
    {
      assert intervals[..n + 1][..n] == intervals[..n];
      total := total + (intervals[n].end - intervals[n].start) as real / 60000.0;
    }
    assert intervals[..|intervals|] == intervals;
  }

  /** The accumulated total that the customer statistics publish: merged and summed group by group. */
  method Accumulate(g: Groups<CustomerAggregate>) returns (total: real)
    requires g.Valid()
    ensures total == AccumulatedMinutes(g.order, g.byKey)
  {
    hide Merged, TotalMinutes;
    total := 0.0;
    for n := 0 to |g.order|
      invariant total == AccumulatedMinutes(g.order[..n], g.byKey)
    {
      assert g.order[n] in g.order;
      var merged := MergeOwnIntervals(g.byKey[g.order[n]].intervals);
      var minutes := SumOwnMinutes(merged);
      assert g.order[..n + 1][..n] == g.order[..n];
      total := total + minutes;
    }
    assert g.order[..|g.order|] == g.order;
  }

  // ---------------------------------------------------------------- what a group says

  /** The record belongs to the group: by its customer code, or by its external id when it has no code. */
  predicate BelongsTo(customer: IncidentCustomer, key: string) {
    customer.customerCode == Some(key) || (customer.customerCode == None && customer.externalCustomerId == key)
  }

  ghost predicate InGroup(customers: seq<IncidentCustomer>, i: int, key: string) {
    0 <= i < |customers| && BelongsTo(customers[i], key)
  }

  lemma {:induction false} RowsOfMembers(customers: seq<IncidentCustomer>, key: string, x: IncidentCustomer)
    ensures x in RowsOf(customers, key) <==> x in customers && BelongsTo(x, key)
  {
    if customers != [] {
      var front, last := customers[..|customers| - 1], customers[|customers| - 1];
      RowsOfMembers(front, key, x);
      assert customers == front + [last];
      assert KeyOf(last) == key <==> BelongsTo(last, key);
    }
  }

  lemma {:induction false} RowsOfFirst(customers: seq<IncidentCustomer>, key: string, i: nat)
    requires InGroup(customers, i, key) && forall j :: 0 <= j < i ==> !InGroup(customers, j, key)
    ensures RowsOf(customers, key) != [] && RowsOf(customers, key)[0] == customers[i]
  {
    var front, last := customers[..|customers| - 1], customers[|customers| - 1];
    if i < |front| {
      forall j | 0 <= j < i ensures !InGroup(front, j, key) { assert !InGroup(customers, j, key); }
      RowsOfFirst(front, key, i);
    } else {
      if RowsOf(front, key) != [] {
        RowsOfMembers(front, key, RowsOf(front, key)[0]);
        var j :| 0 <= j < |front| && front[j] == RowsOf(front, key)[0];
        assert InGroup(customers, j, key);
        assert false;
      }
    }
  }

  lemma {:induction false} IdsOfRows(rows: seq<IncidentCustomer>, id: nat)
    ensures id in IncidentIds(rows) <==> exists x :: x in rows && x.incidentId == id
  {
    if rows != [] {
      var front, last := rows[..|rows| - 1], rows[|rows| - 1];
      IdsOfRows(front, id);
      assert rows == front + [last];
      assert last in rows;
    }
  }

  /** The aggregate says all this about the records of its group. */
  ghost predicate SaysOf(a: CustomerAggregate, customers: seq<IncidentCustomer>, key: string, p: Period) {
    && a.customerCode == key
    && (forall id :: id in a.incidentIds <==> exists i :: InGroup(customers, i, key) && customers[i].incidentId == id)
    && (a.currentlyOffline <==> exists i :: InGroup(customers, i, key) && customers[i].currentStatus == OFFLINE)
    && (forall i :: InGroup(customers, i, key) && (forall j :: 0 <= j < i ==> !InGroup(customers, j, key)) ==>
          a.customerName == customers[i].customerName)
    && (forall t :: t in Covered(a.intervals) <==>
          p.Contains(t) && exists i :: InGroup(customers, i, key) && DownRecord(customers[i], t))
  }

  /**
    What a group says: there is one for a key exactly if some record belongs to it; and it has the
    incidents of those records, whether one of them is offline, the name of the first, and the
    milliseconds of the period in which one of them was affected.
  */
  lemma GroupSays(g: Groups<CustomerAggregate>, customers: seq<IncidentCustomer>, p: Period, key: string)
    requires GroupsRows(g, customers, p)
    ensures key in g.byKey <==> exists i :: InGroup(customers, i, key)
    ensures key in g.byKey ==> SaysOf(g.byKey[key], customers, key, p)
  {
    assert GroupMatches(g, customers, p, key);
    hide GroupsRows, RowsOf, InGroup, IncidentIds, CustomerIntervals, DownRecord, SaysOf, Summarises;
    NoRowsNoGroup(customers, key);
    if key in g.byKey { SummarySays(g.byKey[key], customers, key, p); }
  }

  lemma SummarySays(a: CustomerAggregate, customers: seq<IncidentCustomer>, key: string, p: Period)
    requires Summarises(a, RowsOf(customers, key), p)
    ensures SaysOf(a, customers, key, p)
  {
    hide RowsOf, InGroup, IncidentIds, CustomerIntervals, DownRecord, Covered, KeyOf;
    var rows := RowsOf(customers, key);
    assert rows[0] in rows;
    MembersAreInGroup(customers, key);
    IdsSay(customers, key);
    OfflineSays(customers, key);
    CoverageSays(customers, key, p);
    NameSays(customers, key);
  }

  lemma NameSays(customers: seq<IncidentCustomer>, key: string)
    ensures forall i :: InGroup(customers, i, key) && (forall j :: 0 <= j < i ==> !InGroup(customers, j, key)) ==>
      RowsOf(customers, key) != [] && RowsOf(customers, key)[0].customerName == customers[i].customerName
  {
    hide RowsOf, BelongsTo;
    forall i | InGroup(customers, i, key) && forall j :: 0 <= j < i ==> !InGroup(customers, j, key)
      ensures RowsOf(customers, key) != [] && RowsOf(customers, key)[0].customerName == customers[i].customerName
    {
      RowsOfFirst(customers, key, i);
    }
  }

  lemma MembersAreInGroup(customers: seq<IncidentCustomer>, key: string)
    ensures forall x :: x in RowsOf(customers, key) ==> KeyOf(x) == key && x in customers && BelongsTo(x, key)
  {
    forall x | x in RowsOf(customers, key) ensures KeyOf(x) == key && x in customers && BelongsTo(x, key) {
      RowsOfMembers(customers, key, x);
    }
  }

  lemma NoRowsNoGroup(customers: seq<IncidentCustomer>, key: string)
    ensures RowsOf(customers, key) == [] <==> !exists i :: InGroup(customers, i, key)
  {
    hide RowsOf;
    if i :| InGroup(customers, i, key) { RowsOfMembers(customers, key, customers[i]); }
    if RowsOf(customers, key) != [] {
      RowsOfMembers(customers, key, RowsOf(customers, key)[0]);
      var i :| 0 <= i < |customers| && customers[i] == RowsOf(customers, key)[0];
      assert InGroup(customers, i, key);
    }
  }

  lemma IdsSay(customers: seq<IncidentCustomer>, key: string)
    ensures forall id :: id in IncidentIds(RowsOf(customers, key)) <==>
      exists i :: InGroup(customers, i, key) && customers[i].incidentId == id
  {
    hide RowsOf, BelongsTo;
    forall id
      ensures id in IncidentIds(RowsOf(customers, key)) <==>
        exists i :: InGroup(customers, i, key) && customers[i].incidentId == id
    {
      IdsOfRows(RowsOf(customers, key), id);
      if x :| x in RowsOf(customers, key) && x.incidentId == id {
        RowsOfMembers(customers, key, x);
        var i :| 0 <= i < |customers| && customers[i] == x;
        assert InGroup(customers, i, key);
      }
      if i :| InGroup(customers, i, key) && customers[i].incidentId == id {
        RowsOfMembers(customers, key, customers[i]);
      }
    }
  }

  lemma OfflineSays(customers: seq<IncidentCustomer>, key: string)
    ensures (exists k :: 0 <= k < |RowsOf(customers, key)| && RowsOf(customers, key)[k].currentStatus == OFFLINE)
      <==> exists i :: InGroup(customers, i, key) && customers[i].currentStatus == OFFLINE
  {
    hide RowsOf, BelongsTo;
    var rows := RowsOf(customers, key);
    if k :| 0 <= k < |rows| && rows[k].currentStatus == OFFLINE {
      RowsOfMembers(customers, key, rows[k]);
      var i :| 0 <= i < |customers| && customers[i] == rows[k];
      assert InGroup(customers, i, key);
    }
    if i :| InGroup(customers, i, key) && customers[i].currentStatus == OFFLINE {
      RowsOfMembers(customers, key, customers[i]);
      var k :| 0 <= k < |rows| && rows[k] == customers[i];
    }
  }

  lemma CoverageSays(customers: seq<IncidentCustomer>, key: string, p: Period)
    ensures forall t :: t in Covered(CustomerIntervals(RowsOf(customers, key), p)) <==>
      p.Contains(t) && exists i :: InGroup(customers, i, key) && DownRecord(customers[i], t)
  {
    hide RowsOf, BelongsTo, DownRecord, CustomerIntervals;
    var rows := RowsOf(customers, key);
    forall t
      ensures t in Covered(CustomerIntervals(rows, p)) <==>
        p.Contains(t) && exists i :: InGroup(customers, i, key) && DownRecord(customers[i], t)
    {
      CustomerIntervalsMeaning(rows, p, t);
      if k :| 0 <= k < |rows| && DownRecord(rows[k], t) {
        RowsOfMembers(customers, key, rows[k]);
        var i :| 0 <= i < |customers| && customers[i] == rows[k];
        assert InGroup(customers, i, key);
      }
      if i :| InGroup(customers, i, key) && DownRecord(customers[i], t) {
        RowsOfMembers(customers, key, customers[i]);
        var k :| 0 <= k < |rows| && rows[k] == customers[i];
      }
    }
  }

  /** Milliseconds of downtime, counted once for each group they concern. */
  ghost function DownInGroups(order: seq<string>, byKey: map<string, CustomerAggregate>): int
    requires forall k :: k in order ==> k in byKey
  {
    if order == [] then 0
    else
      assert order[|order| - 1] in order;
      DownInGroups(order[..|order| - 1], byKey) + |Covered(byKey[order[|order| - 1]].intervals)|
  }

  lemma {:induction false} AccumulatedCounts(order: seq<string>, byKey: map<string, CustomerAggregate>, p: Period)
    requires p.Valid() && forall k :: k in order ==> k in byKey && Clipped(byKey[k].intervals, p)
    ensures AccumulatedMinutes(order, byKey) * 60000.0 == DownInGroups(order, byKey) as real
  {
    hide Clipped, Merged, TotalMinutes, Covered;
    if order != [] {
      var front, key := order[..|order| - 1], order[|order| - 1];
      assert key in order;
      AccumulatedCounts(front, byKey, p);
      DowntimeCountsMilliseconds(p, byKey[key].intervals);
    }
  }

  /** The accumulated downtime is the number of milliseconds that each group was affected, summed over the groups. */
  lemma AccumulatedIsExact(g: Groups<CustomerAggregate>, customers: seq<IncidentCustomer>, p: Period)
    requires p.Valid() && GroupsRows(g, customers, p)
    ensures AccumulatedMinutes(g.order, g.byKey) * 60000.0 == DownInGroups(g.order, g.byKey) as real
  {
    forall k | k in g.order ensures Clipped(g.byKey[k].intervals, p) {
      assert GroupMatches(g, customers, p, k);
      CustomerIntervalsClipped(RowsOf(customers, k), p);
    }
    AccumulatedCounts(g.order, g.byKey, p);
  }

  // ---------------------------------------------------------------- the two pipelines agree

  lemma {:induction false} SameKeyRows(customers: seq<IncidentCustomer>, key: string)
    requires forall i :: 0 <= i < |customers| ==> KeyOf(customers[i]) == key
    ensures RowsOf(customers, key) == customers
    ensures forall k :: k != key ==> RowsOf(customers, k) == []
  {
    if customers != [] {
      var front, last := customers[..|customers| - 1], customers[|customers| - 1];
      SameKeyRows(front, key);
      assert customers == front + [last];
    }
  }

  lemma FirstKey(g: Groups<CustomerAggregate>)
    requires g.Valid()
    ensures g.order != [] ==> g.order[0] in g.byKey
  {
    assert g.order != [] ==> g.order[0] in g.order;
  }

  lemma TwoKeys(g: Groups<CustomerAggregate>)
    requires g.Valid() && |g.order| > 1
    ensures g.order[0] in g.byKey && g.order[1] in g.byKey && g.order[0] != g.order[1]
  {
    assert g.order[0] in g.order && g.order[1] in g.order;
  }

  lemma OnlyKey(g: Groups<CustomerAggregate>, key: string)
    requires g.Valid() && key in g.byKey && forall k :: k in g.byKey ==> k == key
    ensures g.order == [key]
  {
    assert key in g.order;
    if |g.order| > 1 {
      TwoKeys(g);
    }
  }

  /** The ids of the incidents, in order. */
  function IdsOf(incidents: seq<Incident>): (ids: seq<nat>)
    ensures |ids| == |incidents|
  {
    if incidents == [] then [] else IdsOf(incidents[..|incidents| - 1]) + [incidents[|incidents| - 1].id]
  }

  /**
    For one customer code both services publish the same figures: there is one group, and the
    accumulated downtime and its incident count are those of the service level calculation over
    the incidents behind the records, after its clamp and rounding.
  */
  lemma PipelinesAgree(g: Groups<CustomerAggregate>, customers: seq<IncidentCustomer>, code: string, p: Period,
                       incidents: seq<Incident>)
    requires p.Valid() && GroupsRows(g, customers, p)
    requires forall i :: 0 <= i < |customers| ==> customers[i].customerCode == Some(code)
    requires IdsOf(incidents) == UniqueIncidents(customers)
    ensures |g.order| == if customers == [] then 0 else 1
    ensures var sla := BuildCalculation(p, incidents, CustomerIntervals(customers, p));
      && Round(AccumulatedMinutes(g.order, g.byKey)) == sla.downtimeMinutes
      && (customers != [] ==> code in g.byKey && |g.byKey[code].incidentIds| == sla.incidentCount)
  {
    hide GroupsRows, Round, Merged, TotalMinutes, Minutes, Clipped, AccumulatedMinutes, MeanRecovery,
      AvailabilityOf, TimeBetween, ResolvedIncidents, Covered, CustomerIntervals, UniqueIncidents;
    OneGroup(g, customers, code, p);
    CustomerIntervalsClipped(customers, p);
    DowntimeCountsMilliseconds(p, CustomerIntervals(customers, p));
  }

  lemma OneGroup(g: Groups<CustomerAggregate>, customers: seq<IncidentCustomer>, code: string, p: Period)
    requires p.Valid() && GroupsRows(g, customers, p)
    requires forall i :: 0 <= i < |customers| ==> customers[i].customerCode == Some(code)
    ensures |g.order| == if customers == [] then 0 else 1
    ensures AccumulatedMinutes(g.order, g.byKey) == TotalMinutes(Merged(CustomerIntervals(customers, p)))
    ensures customers != [] ==>
      code in g.byKey && |g.byKey[code].incidentIds| == |UniqueIncidents(customers)|
  {
    SameKeyRows(customers, code);
    UniqueIncidentsAreDistinct(customers);
    if customers == [] {
      forall k ensures k !in g.byKey { assert GroupMatches(g, customers, p, k); }
      FirstKey(g);
    } else {
      assert GroupMatches(g, customers, p, code);
      forall k | k in g.byKey ensures k == code { assert GroupMatches(g, customers, p, k); }
      OnlyKey(g, code);
      assert g.order[..0] == [];
      DistinctCount(UniqueIncidents(customers), g.byKey[code].incidentIds);
    }
  }

  /** The incident ids behind the records, each once, in order of first appearance. */
  function UniqueIncidents(customers: seq<IncidentCustomer>): seq<nat> {
    if customers == [] then []
    else
      var rest := UniqueIncidents(customers[..|customers| - 1]);
      var id := customers[|customers| - 1].incidentId;
      if id in rest then rest else rest + [id]
  }

  lemma {:induction false} UniqueIncidentsAreDistinct(customers: seq<IncidentCustomer>)
    ensures var u := UniqueIncidents(customers);
      && (forall i, j :: 0 <= i < j < |u| ==> u[i] != u[j])
      && (forall id :: id in u <==> id in IncidentIds(customers))
  {
    if customers != [] {
      var front, id := customers[..|customers| - 1], customers[|customers| - 1].incidentId;
      UniqueIncidentsAreDistinct(front);
      assert UniqueIncidents(customers)
          == if id in UniqueIncidents(front) then UniqueIncidents(front) else UniqueIncidents(front) + [id];
      assert IncidentIds(customers) == IncidentIds(front) + {id};
    }
  }

  lemma {:induction false} DistinctCount(u: seq<nat>, s: set<nat>)
    requires forall i, j :: 0 <= i < j < |u| ==> u[i] != u[j]
    requires forall x :: x in u <==> x in s
    ensures |u| == |s|
  {
    if u == [] {
      assert s == {};
    } else {
      var last := u[|u| - 1];
      assert last in s;
      DistinctCount(u[..|u| - 1], s - {last});
    }
  }

  // ---------------------------------------------------------------- the general inequality

  lemma DownAppend(rows: seq<IncidentCustomer>, last: IncidentCustomer, t: int)
    ensures CustomerDownAt(rows + [last], t) <==> CustomerDownAt(rows, t) || DownRecord(last, t)
  {
    var more := rows + [last];
    assert more[|rows|] == last;
    assert forall i :: 0 <= i < |rows| ==> more[i] == rows[i];
  }

  lemma {:induction false} RowsOfKeepsRecord(customers: seq<IncidentCustomer>, i: nat, t: int)
    requires i < |customers| && DownRecord(customers[i], t)
    ensures CustomerDownAt(RowsOf(customers, KeyOf(customers[i])), t)
  {
    var front, last, key := customers[..|customers| - 1], customers[|customers| - 1], KeyOf(customers[i]);
    DownAppend(RowsOf(front, key), last, t);
    if i < |front| { RowsOfKeepsRecord(front, i, t); }
  }

  /** Milliseconds covered by the groups named in `order`. */
  function GroupsCovered(order: seq<string>, byKey: map<string, CustomerAggregate>): set<int>
    requires forall k :: k in order ==> k in byKey
  {
    if order == [] then {}
    else
      assert order[|order| - 1] in order;
      GroupsCovered(order[..|order| - 1], byKey) + Covered(byKey[order[|order| - 1]].intervals)
  }

  lemma {:induction false} GroupsCoveredMember(order: seq<string>, byKey: map<string, CustomerAggregate>, key: string)
    requires forall k :: k in order ==> k in byKey
    requires key in order
    ensures Covered(byKey[key].intervals) <= GroupsCovered(order, byKey)
  {
    if key != order[|order| - 1] {
      GroupsCoveredMember(order[..|order| - 1], byKey, key);
    }
  }

  lemma {:induction false} AccumulatedBoundsCoverage(order: seq<string>,
                                                     byKey: map<string, CustomerAggregate>, p: Period)
    requires p.Valid() && forall k :: k in order ==> k in byKey && Clipped(byKey[k].intervals, p)
    ensures AccumulatedMinutes(order, byKey) >= Minutes(|GroupsCovered(order, byKey)|)
  {
    if order != [] {
      var front, key := order[..|order| - 1], order[|order| - 1];
      assert key in order;
      AccumulatedBoundsCoverage(front, byKey, p);
      DowntimeCountsMilliseconds(p, byKey[key].intervals);
      UnionSize(GroupsCovered(front, byKey), Covered(byKey[key].intervals));
    }
  }

  lemma UnionSize(a: set<int>, b: set<int>)
    ensures |a + b| <= |a| + |b|
  {
    assert a + b == a + (b - a);
    assert |a + (b - a)| == |a| + |b - a|;
    SubsetSize(b - a, b);
  }

  /** Whatever the grouping, accumulated downtime is at least the merged downtime of all the records. */
  lemma AccumulatedAtLeastMerged(g: Groups<CustomerAggregate>, customers: seq<IncidentCustomer>, p: Period)
    requires p.Valid() && GroupsRows(g, customers, p)
    ensures AccumulatedMinutes(g.order, g.byKey) >= TotalMinutes(Merged(CustomerIntervals(customers, p)))
  {
    forall k | k in g.order ensures Clipped(g.byKey[k].intervals, p) {
      assert GroupMatches(g, customers, p, k);
      CustomerIntervalsClipped(RowsOf(customers, k), p);
    }
    AccumulatedBoundsCoverage(g.order, g.byKey, p);
    CustomerIntervalsClipped(customers, p);
    DowntimeCountsMilliseconds(p, CustomerIntervals(customers, p));
    forall t | t in Covered(CustomerIntervals(customers, p)) ensures t in GroupsCovered(g.order, g.byKey) {
      CustomerIntervalsMeaning(customers, p, t);
      var i :| 0 <= i < |customers| && DownRecord(customers[i], t);
      var key := KeyOf(customers[i]);
      RowsOfKeepsRecord(customers, i, t);
      CustomerIntervalsMeaning(RowsOf(customers, key), p, t);
      assert GroupMatches(g, customers, p, key);
      GroupsCoveredMember(g.order, g.byKey, key);
    }
    SubsetSize(Covered(CustomerIntervals(customers, p)), GroupsCovered(g.order, g.byKey));
  }

  // ---------------------------------------------------------------- two recovery averages

  /** The date filter of the overview's incident query, beside LiveInPeriod of the service level query. */
  predicate DetectedInPeriod(incident: Incident, p: Period) { p.start <= incident.detectedAt <= p.end }

  function SelectDetected(table: seq<Incident>, p: Period): seq<Incident> {
    if table == [] then []
    else
      var rest := SelectDetected(table[..|table| - 1], p);
      var last := table[|table| - 1];
      if DetectedInPeriod(last, p) then rest + [last] else rest
  }

  function Resolved(incidents: seq<Incident>): seq<Incident> {
    if incidents == [] then []
    else
      var rest := Resolved(incidents[..|incidents| - 1]);
      var last := incidents[|incidents| - 1];
      if last.resolvedAt.Some? then rest + [last] else rest
  }

  /** Summed over the incidents: the time of each in the period, never negative. */
  function RecoveredMinutes(resolved: seq<Incident>, p: Period): real {
    if resolved == [] then 0.0
    else
      var last := resolved[|resolved| - 1];
      RecoveredMinutes(resolved[..|resolved| - 1], p)
      + Minutes(Max(0, Min(last.resolvedAt.GetOr(p.end), p.end) - Max(last.startedAt, p.start)))
  }

  function AverageRecovery(incidents: seq<Incident>, p: Period): Option<real> {
    var resolved := Resolved(incidents);
    if resolved == [] then None else Some(Round(RecoveredMinutes(resolved, p) / |resolved| as real))
  }

  /** What the overview publishes about the incident table. */
  function OverviewRecovery(table: seq<Incident>, p: Period): Option<real> {
    AverageRecovery(SelectDetected(table, p), p)
  }

  /** What the service level calculation publishes about the same table. */
  function SlaRecovery(table: seq<Incident>, p: Period): Option<real>
    requires p.Valid()
  {
    var incidents := SelectLive(table, p);
    BuildCalculation(p, incidents, IncidentIntervals(incidents, p)).mttrMinutes
  }

  /**
    The incident counts for both averages or for neither: if it was detected in the period and is
    resolved, it was detected before the end and resolved inside the period; and if it was detected
    earlier, it was not resolved inside the period.
  */
  predicate CountsAlike(incident: Incident, p: Period) {
    && (p.start <= incident.detectedAt <= p.end && incident.resolvedAt.Some? ==>
          incident.detectedAt < p.end && p.start < incident.resolvedAt.value <= p.end)
    && (incident.detectedAt < p.start && incident.resolvedAt.Some? ==>
          !(p.start < incident.resolvedAt.value <= p.end))
  }

  lemma {:induction false} AveragedMembers(table: seq<Incident>, p: Period, x: Incident)
    ensures x in Resolved(SelectDetected(table, p)) <==> x in table && DetectedInPeriod(x, p) && x.resolvedAt.Some?
    ensures x in ResolvedIncidents(SelectLive(table, p), p)
      <==> x in table && LiveInPeriod(x, p) && ResolvedWithin(x, p)
  {
    if table != [] {
      var front, last := table[..|table| - 1], table[|table| - 1];
      AveragedMembers(front, p, x);
      assert table == front + [last];
      AveragedAppend(front, last, p);
    }
  }

  /** Whether one more row is averaged, for each of the two services. */
  lemma AveragedAppend(front: seq<Incident>, last: Incident, p: Period)
    ensures Resolved(SelectDetected(front + [last], p)) == Resolved(SelectDetected(front, p))
      + if DetectedInPeriod(last, p) && last.resolvedAt.Some? then [last] else []
    ensures ResolvedIncidents(SelectLive(front + [last], p), p) == ResolvedIncidents(SelectLive(front, p), p)
      + if LiveInPeriod(last, p) && ResolvedWithin(last, p) then [last] else []
  {
    var table, detected, live := front + [last], SelectDetected(front, p), SelectLive(front, p);
    assert table[..|front|] == front && table[|front|] == last;
    assert (detected + [last])[..|detected|] == detected;
    assert (live + [last])[..|live|] == live;
  }

  /** The two services average the same incidents exactly when every incident of the table counts alike. */
  lemma {:induction false} SameIncidentsAveraged(table: seq<Incident>, p: Period)
    ensures Resolved(SelectDetected(table, p)) == ResolvedIncidents(SelectLive(table, p), p)
      <==> forall i :: 0 <= i < |table| ==> CountsAlike(table[i], p)
  {
    if table != [] {
      var front, last := table[..|table| - 1], table[|table| - 1];
      SameIncidentsAveraged(front, p);
      assert table == front + [last];
      AveragedAppend(front, last, p);
      hide Resolved, SelectDetected, ResolvedIncidents, SelectLive;
      if Resolved(SelectDetected(table, p)) == ResolvedIncidents(SelectLive(table, p), p) {
        forall i | 0 <= i < |table| ensures CountsAlike(table[i], p) {
          AveragedMembers(table, p, table[i]);
        }
      } else if CountsAlike(last, p) {
        AlikeBothOrNeither(last, p);
        hide CountsAlike;
        assert forall i :: 0 <= i < |front| ==> front[i] == table[i];
      }
    }
  }

  lemma AlikeBothOrNeither(incident: Incident, p: Period)
    requires CountsAlike(incident, p)
    ensures DetectedInPeriod(incident, p) && incident.resolvedAt.Some?
      <==> LiveInPeriod(incident, p) && ResolvedWithin(incident, p)
  {
  }

  lemma {:induction false} SameRecoveries(resolved: seq<Incident>, p: Period)
    requires forall i :: 0 <= i < |resolved| ==> ResolvedWithin(resolved[i], p)
    ensures RecoveredMinutes(resolved, p) == RecoveryMinutes(resolved, p)
  {
    if resolved != [] { SameRecoveries(resolved[..|resolved| - 1], p); }
  }

  /** How long an incident lasted inside the period, if it was detected in it and is resolved. */
  function OverviewPart(incident: Incident, p: Period): int {
    if p.start <= incident.detectedAt <= p.end && incident.resolvedAt.Some?
    then Max(0, Min(incident.resolvedAt.value, p.end) - Max(incident.startedAt, p.start)) else 0
  }

  /** Summed over the incidents. */
  function OverviewMs(table: seq<Incident>, p: Period): int {
    if table == [] then 0
    else OverviewMs(table[..|table| - 1], p) + OverviewPart(table[|table| - 1], p)
  }

  ghost function OverviewPositions(table: seq<Incident>, p: Period): set<int> {
    set i | 0 <= i < |table| && p.start <= table[i].detectedAt <= p.end && table[i].resolvedAt.Some?
  }

  lemma OverviewStep(front: seq<Incident>, last: Incident, p: Period)
    ensures RecoveredMinutes(Resolved(SelectDetected(front + [last], p)), p)
         == RecoveredMinutes(Resolved(SelectDetected(front, p)), p) + Minutes(OverviewPart(last, p))
    ensures |Resolved(SelectDetected(front + [last], p))|
         == |Resolved(SelectDetected(front, p))|
            + if p.start <= last.detectedAt <= p.end && last.resolvedAt.Some? then 1 else 0
  {
    hide Resolved, SelectDetected, RecoveredMinutes, OverviewPart;
    AveragedAppend(front, last, p);
    var rest := Resolved(SelectDetected(front, p));
    if DetectedInPeriod(last, p) && last.resolvedAt.Some? {
      OneMoreRecovered(rest, last, p);
    } else {
      assert rest + [] == rest;
      NotRecovered(last, p);
    }
  }

  lemma OneMoreRecovered(rest: seq<Incident>, last: Incident, p: Period)
    requires p.start <= last.detectedAt <= p.end && last.resolvedAt.Some?
    ensures RecoveredMinutes(rest + [last], p) == RecoveredMinutes(rest, p) + Minutes(OverviewPart(last, p))
  {
    hide Minutes;
    assert (rest + [last])[..|rest|] == rest;
  }

  lemma NotRecovered(last: Incident, p: Period)
    requires !(p.start <= last.detectedAt <= p.end && last.resolvedAt.Some?)
    ensures Minutes(OverviewPart(last, p)) == 0.0
  {
  }

  lemma {:induction false} OverviewSums(table: seq<Incident>, p: Period)
    ensures RecoveredMinutes(Resolved(SelectDetected(table, p)), p) == Minutes(OverviewMs(table, p))
  {
    if table != [] {
      hide Resolved, SelectDetected, OverviewPart, RecoveredMinutes;
      var front, last := table[..|table| - 1], table[|table| - 1];
      OverviewSums(front, p);
      OverviewStep(front, last, p);
      assert table == front + [last];
    }
  }

  lemma PositionsStep(front: seq<Incident>, last: Incident, p: Period)
    ensures OverviewPositions(front + [last], p) == OverviewPositions(front, p)
      + if p.start <= last.detectedAt <= p.end && last.resolvedAt.Some? then {|front|} else {}
    ensures |front| !in OverviewPositions(front, p)
  {
    var table := front + [last];
    assert table[|front|] == last;
    assert forall i :: 0 <= i < |front| ==> table[i] == front[i];
  }

  lemma {:induction false} OverviewCounts(table: seq<Incident>, p: Period)
    ensures |Resolved(SelectDetected(table, p))| == |OverviewPositions(table, p)|
  {
    hide OverviewPositions, Resolved, SelectDetected;
    if table == [] {
      NoRows(p);
      EmptyPositions(p);
    } else {
      var front, last := table[..|table| - 1], table[|table| - 1];
      assert table == front + [last];
      OverviewCounts(front, p);
      OneMoreCounts(front, last, p);
    }
  }

  lemma OneMoreCounts(front: seq<Incident>, last: Incident, p: Period)
    requires |Resolved(SelectDetected(front, p))| == |OverviewPositions(front, p)|
    ensures |Resolved(SelectDetected(front + [last], p))| == |OverviewPositions(front + [last], p)|
  {
    hide OverviewPositions, Resolved, SelectDetected;
    OverviewStep(front, last, p);
    PositionsStep(front, last, p);
  }

  lemma EmptyPositions(p: Period)
    ensures OverviewPositions([], p) == {}
  {
  }

  /**
    The overview's average recovery is the nearest hundredth of the mean, over the incidents detected in
    the period and resolved, of their time in it; it is missing when there are none.
  */
  lemma OverviewIsExact(table: seq<Incident>, p: Period)
    ensures var r, n := OverviewRecovery(table, p), |OverviewPositions(table, p)|;
      && (r.None? <==> n == 0)
      && (n > 0 ==> PublishesQuotient(r.value, OverviewMs(table, p) as real, n as real * 60000.0))
  {
    hide RecoveredMinutes, Resolved, SelectDetected, Minutes, Round, PublishesQuotient, OverviewPositions, OverviewMs;
    OverviewSums(table, p);
    OverviewCounts(table, p);
    var resolved := Resolved(SelectDetected(table, p));
    if resolved != [] { MeanIsPublishedInMinutes(OverviewMs(table, p), |resolved|); }
  }

  /** Then the overview's average recovery is the mean time to recovery of the service level calculation. */
  lemma RecoveryAveragesAgree(table: seq<Incident>, p: Period)
    requires p.Valid() && forall i :: 0 <= i < |table| ==> CountsAlike(table[i], p)
    ensures OverviewRecovery(table, p) == SlaRecovery(table, p)
  {
    SlaRecoveryIs(table, p);
    hide SlaRecovery, RecoveredMinutes, RecoveryMinutes, Round;
    SameIncidentsAveraged(table, p);
    var resolved := ResolvedIncidents(SelectLive(table, p), p);
    forall i | 0 <= i < |resolved| ensures ResolvedWithin(resolved[i], p) {
      AveragedMembers(table, p, resolved[i]);
    }
    SameRecoveries(resolved, p);
  }

  lemma SlaRecoveryIs(table: seq<Incident>, p: Period)
    requires p.Valid()
    ensures SlaRecovery(table, p) == MeanRecovery(ResolvedIncidents(SelectLive(table, p), p), p)
  {
    hide Minutes, Round, Merged, TotalMinutes, AvailabilityOf, MeanRecovery, TimeBetween, ResolvedIncidents, SelectLive;
  }

  /** An incident resolved after the period counts for the overview, with its part inside, and not for the other. */
  lemma LateResolutionDiffers(incident: Incident)
    requires incident.detectedAt == incident.startedAt == 0 && incident.resolvedAt == Some(120000)
    ensures OverviewRecovery([incident], Period(0, 60000)) == Some(1.0)
    ensures SlaRecovery([incident], Period(0, 60000)) == None
  {
    hide Round, OverviewRecovery, SlaRecovery, RecoveredMinutes, RecoveryMinutes;
    OnlyRow(incident, Period(0, 60000));
    OneMinute(incident);
  }

  /** An incident detected before the period and resolved in it counts for the other and not for the overview. */
  lemma EarlyDetectionDiffers(incident: Incident)
    requires incident.detectedAt == incident.startedAt == -60000 && incident.resolvedAt == Some(60000)
    ensures OverviewRecovery([incident], Period(0, 60000)) == None
    ensures SlaRecovery([incident], Period(0, 60000)) == Some(1.0)
  {
    hide Round, OverviewRecovery, SlaRecovery, RecoveredMinutes, RecoveryMinutes;
    OnlyRow(incident, Period(0, 60000));
    OneMinute(incident);
  }

  /** The averages over a table with one row. */
  lemma OnlyRow(incident: Incident, p: Period)
    requires p.Valid()
    ensures OverviewRecovery([incident], p) ==
      if DetectedInPeriod(incident, p) && incident.resolvedAt.Some? then Some(Round(RecoveredMinutes([incident], p)))
      else None
    ensures SlaRecovery([incident], p) ==
      if LiveInPeriod(incident, p) && ResolvedWithin(incident, p) then Some(Round(RecoveryMinutes([incident], p)))
      else None
  {
    hide SlaRecovery, RecoveredMinutes, RecoveryMinutes, Round, SelectDetected, SelectLive, Resolved, ResolvedIncidents;
    AveragedAppend([], incident, p);
    NoRows(p);
    assert [incident] == [] + [incident];
    SlaRecoveryIs([incident], p);
    DividedByOne(RecoveredMinutes([incident], p));
    DividedByOne(RecoveryMinutes([incident], p));
  }

  lemma NoRows(p: Period)
    ensures Resolved(SelectDetected([], p)) == [] == ResolvedIncidents(SelectLive([], p), p)
  {
  }

  lemma DividedByOne(x: real)
    ensures x / 1 as real == x
  {
  }

  lemma OneMinute(incident: Incident)
    requires incident.startedAt <= 0 && incident.resolvedAt.Some? && incident.resolvedAt.value >= 60000
    ensures RecoveredMinutes([incident], Period(0, 60000)) == RecoveryMinutes([incident], Period(0, 60000)) == 1.0
    ensures Round(1.0) == 1.0
  {
    assert [incident][..0] == [];
    assert Minutes(60000) == 1.0;
  }
}
