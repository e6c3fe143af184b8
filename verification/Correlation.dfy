/**
  Correlation: the key that groups alerts, the window of alerts behind a decision, and the rules
  that turn the counts over that window into a type, a root cause and a severity.
*/
module Correlation {
  import opened Arithmetic
  import opened Prelude
  import opened Records
  import opened Alerts
  import opened Text

  datatype Rule = Rule(
    id: nat,
    name: string,
    priority: int,
    eventPattern: string,
    minimumEventCount: Option<int>,
    minimumDistinctOnus: Option<int>,
    minimumAffectedCustomers: Option<int>,
    incidentType: Option<IncidentType>,
    rootCause: Option<RootCause>,
    rootCauseConfidence: Option<int>,
    severity: Option<Severity>)

  datatype Decision = Decision(
    correlationKey: string,
    eventCount: nat,
    distinctOnuCount: nat,
    affectedCustomerCount: int,
    incidentType: IncidentType,
    rootCause: RootCause,
    rootCauseConfidence: int,
    severity: Severity,
    matchedRule: Option<Rule>)

  predicate IsMoreSevere(candidate: Severity, current: Severity) { candidate.Rank() > current.Rank() }

  /** The severities in ascending order; the comparison is that order and no more. */
  lemma SeveritiesAscend(a: Severity, b: Severity, c: Severity)
    ensures IsMoreSevere(WARNING, INFO) && IsMoreSevere(MINOR, WARNING) && IsMoreSevere(MAJOR, MINOR)
    ensures IsMoreSevere(CRITICAL, MAJOR) && IsMoreSevere(DISASTER, CRITICAL)
    ensures IsMoreSevere(a, b) && IsMoreSevere(b, c) ==> IsMoreSevere(a, c)
    ensures !(IsMoreSevere(a, b) && IsMoreSevere(b, a)) && !IsMoreSevere(a, a)
  {
  }

  predicate StartsWith(s: string, prefix: string) { |prefix| <= |s| && s[..|prefix|] == prefix }

  predicate EndsWith(s: string, suffix: string) { |suffix| <= |s| && s[|s| - |suffix|..] == suffix }

  // ---------------------------------------------------------------- keys and scopes

  function BuildCorrelationKey(alert: Alert): string {
    var olt := alert.oltExternalId.GetOr("unknown-olt");
    if StartsWith(alert.eventType, "olt.") then "olt:" + olt
    else if StartsWith(alert.eventType, "uplink.") then "uplink:" + olt
    else if alert.ponIdentifier.Some? && alert.ponIdentifier.value != "" then
      "pon:" + olt + ":" + alert.ponIdentifier.value
    else if alert.onuSerial.Some? && alert.onuSerial.value != "" then
      "onu:" + olt + ":" + alert.onuSerial.value
    else "alert:" + Decimal(alert.id)
  }

  /** The query scope chosen from the prefix of the key. */
  predicate InScope(candidate: Alert, alert: Alert, correlationKey: string) {
    if StartsWith(correlationKey, "pon:") then
      candidate.oltExternalId == alert.oltExternalId && candidate.ponIdentifier == alert.ponIdentifier
    else if StartsWith(correlationKey, "olt:") || StartsWith(correlationKey, "uplink:") then
      candidate.oltExternalId == alert.oltExternalId
    else if StartsWith(correlationKey, "onu:") then
      candidate.oltExternalId == alert.oltExternalId && candidate.onuSerial == alert.onuSerial
    else candidate.id == alert.id
  }

  lemma AdmittedKey(id: nat, e: Event)
    requires Admitted(e.eventType)
    ensures BuildCorrelationKey(NewAlert(id, e)) == "pon:" + e.oltId + ":" + PonIdentifier(e.board, e.pon)
    ensures StartsWith(BuildCorrelationKey(NewAlert(id, e)), "pon:")
  {
    assert e.eventType[0] == 'p' || e.eventType[0] == 'f';
    var key := BuildCorrelationKey(NewAlert(id, e));
    assert key[..4] == "pon:";
  }

  lemma NoColon(board: nat, pon: nat)
    ensures ':' !in PonIdentifier(board, pon)
  {
    NotADigit(Decimal(board), ':');
    NotADigit(Decimal(pon), ':');
  }

  /**
    Two ingested alerts of admitted types share a key exactly when OLT, board and PON agree,
    also when an OLT id contains colons.
  */
  lemma KeysEqualExactlyOnSamePon(id: nat, e: Event, otherId: nat, other: Event)
    requires Admitted(e.eventType) && Admitted(other.eventType)
    ensures BuildCorrelationKey(NewAlert(id, e)) == BuildCorrelationKey(NewAlert(otherId, other))
      <==> e.oltId == other.oltId && e.board == other.board && e.pon == other.pon
  {
    var key, otherKey := BuildCorrelationKey(NewAlert(id, e)), BuildCorrelationKey(NewAlert(otherId, other));
    var pon, otherPon := PonIdentifier(e.board, e.pon), PonIdentifier(other.board, other.pon);
    AdmittedKey(id, e);
    AdmittedKey(otherId, other);
    if key == otherKey {
      NoColon(e.board, e.pon);
      NoColon(other.board, other.pon);
      LastSeparatorSplits("pon:" + e.oltId, "pon:" + other.oltId, pon, otherPon, ':');
      assert e.oltId == ("pon:" + e.oltId)[4..] && other.oltId == ("pon:" + other.oltId)[4..];
      PonIdentifierIsInjective(e.board, e.pon, other.board, other.pon);
    }
  }

  /** So for admitted alerts the query scope is exactly the set of alerts with the same key. */
  lemma ScopeIsKeyClass(id: nat, e: Event, otherId: nat, other: Event)
    requires Admitted(e.eventType) && Admitted(other.eventType)
    ensures var alert, candidate := NewAlert(id, e), NewAlert(otherId, other);
      InScope(candidate, alert, BuildCorrelationKey(alert)) <==>
      BuildCorrelationKey(candidate) == BuildCorrelationKey(alert)
  {
    AdmittedKey(id, e);
    KeysEqualExactlyOnSamePon(otherId, other, id, e);
    PonIdentifierIsInjective(other.board, other.pon, e.board, e.pon);
  }

  /** The alert is of this OLT or uplink, or else of this PON, or else of this ONU, or else it is this alert. */
  predicate Concerns(candidate: Alert, alert: Alert) {
    if StartsWith(alert.eventType, "olt.") || StartsWith(alert.eventType, "uplink.") then
      candidate.oltExternalId == alert.oltExternalId
    else if alert.ponIdentifier.GetOr("") != "" then
      candidate.oltExternalId == alert.oltExternalId && candidate.ponIdentifier == alert.ponIdentifier
    else if alert.onuSerial.GetOr("") != "" then
      candidate.oltExternalId == alert.oltExternalId && candidate.onuSerial == alert.onuSerial
    else candidate.id == alert.id
  }

  /**
    The scope goes by the prefix of the key, but it is the one meant for the kind of the alert:
    its OLT for OLT and uplink alerts, otherwise its PON, its ONU, or only the alert itself.
  */
  lemma ScopeFollowsKind(alert: Alert, candidate: Alert)
    ensures InScope(candidate, alert, BuildCorrelationKey(alert)) <==> Concerns(candidate, alert)
  {
    KeyTellsKind(alert);
    hide BuildCorrelationKey, StartsWith;
  }

  /** The prefix of the key tells what kind of alert it is. */
  lemma KeyTellsKind(alert: Alert)
    ensures var key := BuildCorrelationKey(alert);
      && (StartsWith(key, "olt:") <==> StartsWith(alert.eventType, "olt."))
      && (StartsWith(key, "uplink:") <==> StartsWith(alert.eventType, "uplink."))
      && (StartsWith(key, "pon:") <==>
            (!StartsWith(alert.eventType, "olt.") && !StartsWith(alert.eventType, "uplink.")
             && alert.ponIdentifier.GetOr("") != ""))
      && (StartsWith(key, "onu:") <==>
            (!StartsWith(alert.eventType, "olt.") && !StartsWith(alert.eventType, "uplink.")
             && alert.ponIdentifier.GetOr("") == "" && alert.onuSerial.GetOr("") != ""))
  {
    PrefixesDiffer(alert.eventType);
    KeyStart(alert);
  }

  lemma PrefixesDiffer(eventType: string)
    ensures !(StartsWith(eventType, "olt.") && StartsWith(eventType, "uplink."))
  {
    if StartsWith(eventType, "olt.") { assert eventType[0] == 'o'; }
    if StartsWith(eventType, "uplink.") { assert eventType[0] == 'u'; }
  }

  /** Which of the five forms the key has, by its first characters. */
  lemma KeyStart(alert: Alert)
    ensures var key := BuildCorrelationKey(alert);
      |key| >= 4 && key[..4] ==
        if StartsWith(alert.eventType, "olt.") then "olt:"
        else if StartsWith(alert.eventType, "uplink.") then "upli"
        else if alert.ponIdentifier.GetOr("") != "" then "pon:"
        else if alert.onuSerial.GetOr("") != "" then "onu:"
        else "aler"
  {
  }

  /**
    Within each kind: the keys of OLT alerts are equal exactly for equal OLTs, and so are those of uplink
    alerts; those of alerts about an ONU exactly when OLT and serial make the same text around a colon,
    so that a colon in the ids can confuse two ONUs; and those of other alerts for no two alerts.
  */
  lemma KeysOfOneKind(a: Alert, b: Alert)
    ensures StartsWith(a.eventType, "olt.") && StartsWith(b.eventType, "olt.") ==>
      (BuildCorrelationKey(a) == BuildCorrelationKey(b) <==> OltOf(a) == OltOf(b))
    ensures StartsWith(a.eventType, "uplink.") && StartsWith(b.eventType, "uplink.") ==>
      (BuildCorrelationKey(a) == BuildCorrelationKey(b) <==> OltOf(a) == OltOf(b))
    ensures LocatedByOnu(a) && LocatedByOnu(b) ==>
      (BuildCorrelationKey(a) == BuildCorrelationKey(b)
       <==> OltOf(a) + ":" + a.onuSerial.value == OltOf(b) + ":" + b.onuSerial.value)
    ensures NotLocated(a) && NotLocated(b) ==>
      (BuildCorrelationKey(a) == BuildCorrelationKey(b) <==> a.id == b.id)
  {
    PrefixesDiffer(a.eventType);
    PrefixesDiffer(b.eventType);
    var key, other := BuildCorrelationKey(a), BuildCorrelationKey(b);
    if StartsWith(a.eventType, "olt.") && StartsWith(b.eventType, "olt.") {
      assert key[4..] == OltOf(a) && other[4..] == OltOf(b);
    } else if StartsWith(a.eventType, "uplink.") && StartsWith(b.eventType, "uplink.") {
      assert key[7..] == OltOf(a) && other[7..] == OltOf(b);
    } else if LocatedByOnu(a) && LocatedByOnu(b) {
      OnuKey(a);
      OnuKey(b);
    } else if NotLocated(a) && NotLocated(b) {
      assert key[6..] == Decimal(a.id) && other[6..] == Decimal(b.id);
      DecimalRoundTrip(a.id);
      DecimalRoundTrip(b.id);
    }
  }

  function OltOf(alert: Alert): string { alert.oltExternalId.GetOr("unknown-olt") }

  predicate LocatedByOnu(alert: Alert) {
    && !StartsWith(alert.eventType, "olt.") && !StartsWith(alert.eventType, "uplink.")
    && alert.ponIdentifier.GetOr("") == "" && alert.onuSerial.GetOr("") != ""
  }

  predicate NotLocated(alert: Alert) {
    && !StartsWith(alert.eventType, "olt.") && !StartsWith(alert.eventType, "uplink.")
    && alert.ponIdentifier.GetOr("") == alert.onuSerial.GetOr("") == ""
  }

  lemma OnuKey(alert: Alert)
    requires LocatedByOnu(alert)
    ensures BuildCorrelationKey(alert) == "onu:" + (OltOf(alert) + ":" + alert.onuSerial.value)
    ensures BuildCorrelationKey(alert)[4..] == OltOf(alert) + ":" + alert.onuSerial.value
  {
  }

  // ---------------------------------------------------------------- counts over the window

  predicate InWindow(candidate: Alert, alert: Alert, windowMs: int) {
    && InScope(candidate, alert, BuildCorrelationKey(alert))
    && candidate.detectedAt >= alert.detectedAt - windowMs
    && !IsRecovery(candidate.eventType)
  }

  function WindowAlerts(rows: seq<Alert>, alert: Alert, windowMs: int): seq<Alert> {
    if rows == [] then []
    else
      var rest := WindowAlerts(rows[..|rows| - 1], alert, windowMs);
      var last := rows[|rows| - 1];
      if InWindow(last, alert, windowMs) then rest + [last] else rest
  }

  function OfflineSerials(alerts: seq<Alert>): set<string> {
    if alerts == [] then {}
    else
      var last := alerts[|alerts| - 1];
      OfflineSerials(alerts[..|alerts| - 1])
      + if last.eventType == "onu.offline" && last.onuSerial.Some? && last.onuSerial.value != ""
        then {last.onuSerial.value} else {}
  }

  function OfflineCustomers(alert: Alert): int {
    match alert.metrics
    case None => 0
    case Some(m) => Max(0, m.onuOffline.GetOr(0))
  }

  function MostOfflineCustomers(alerts: seq<Alert>): int {
    if alerts == [] then 0
    else Max(MostOfflineCustomers(alerts[..|alerts| - 1]), OfflineCustomers(alerts[|alerts| - 1]))
  }

  datatype Counts = Counts(eventCount: nat, distinctOnuCount: nat, affectedCustomerCount: int)

  function CountsOf(alerts: seq<Alert>): Counts {
    Counts(if |alerts| == 0 then 1 else |alerts|, |OfflineSerials(alerts)|, MostOfflineCustomers(alerts))
  }

  /**
    The window selects exactly the rows it should, each as often as it is stored: those that concern
    what the alert is about, are not older than the window, and are not recoveries.
  */
  lemma WindowMeaning(rows: seq<Alert>, alert: Alert, windowMs: int, candidate: Alert)
    ensures multiset(WindowAlerts(rows, alert, windowMs))[candidate]
         == if Concerns(candidate, alert) && candidate.detectedAt >= alert.detectedAt - windowMs
               && candidate.eventType !in {"onu.online", "pon.up", "olt.up", "uplink.up", "zabbix.problem.resolved"}
            then multiset(rows)[candidate] else 0
  {
    hide BuildCorrelationKey, InScope, WindowAlerts, Concerns;
    WindowCounts(rows, alert, windowMs, candidate);
    ScopeFollowsKind(alert, candidate);
    AdmittedIsNotRecovery(candidate.eventType);
  }

  lemma {:induction false} WindowCounts(rows: seq<Alert>, alert: Alert, windowMs: int, candidate: Alert)
    ensures multiset(WindowAlerts(rows, alert, windowMs))[candidate]
         == if InWindow(candidate, alert, windowMs) then multiset(rows)[candidate] else 0
  {
    hide InWindow;
    if rows != [] {
      var front, last := rows[..|rows| - 1], rows[|rows| - 1];
      WindowCounts(front, alert, windowMs, candidate);
      assert rows == front + [last];
    }
  }

  /**
    For alerts of admitted types, whatever their status by now: a stored alert is counted exactly
    when it is about the same PON and not older than the window, however much newer it is.
  */
  lemma AdmittedWindow(rows: seq<Alert>, id: nat, e: Event, status: AlertStatus,
                       otherId: nat, other: Event, otherStatus: AlertStatus, windowMs: int)
    requires Admitted(e.eventType) && Admitted(other.eventType)
    ensures var alert := NewAlert(id, e).(status := status);
      var candidate := NewAlert(otherId, other).(status := otherStatus);
      multiset(WindowAlerts(rows, alert, windowMs))[candidate]
      == if other.oltId == e.oltId && other.board == e.board && other.pon == e.pon
            && other.timestamp >= e.timestamp - windowMs
         then multiset(rows)[candidate] else 0
  {
    var alert, candidate := NewAlert(id, e).(status := status), NewAlert(otherId, other).(status := otherStatus);
    WindowCounts(rows, alert, windowMs, candidate);
    assert BuildCorrelationKey(alert) == BuildCorrelationKey(NewAlert(id, e));
    AdmittedKey(id, e);
    PonIdentifierIsInjective(other.board, other.pon, e.board, e.pon);
    AdmittedIsNotRecovery(other.eventType);
    hide WindowAlerts, Admitted, BuildCorrelationKey, IsRecovery, PonIdentifier;
  }

  // ---------------------------------------------------------------- rules

  predicate MatchesEventPattern(pattern: string, eventType: string) {
    if pattern == "*" then true
    else if EndsWith(pattern, ".*") then StartsWith(eventType, pattern[..|pattern| - 1])
    else pattern == eventType
  }

  /** The pattern is a stem followed by `.*` and the event type lies under that stem. */
  ghost predicate Under(pattern: string, eventType: string, stem: string, rest: string) {
    pattern == stem + ".*" && eventType == stem + "." + rest
  }

  /** What a pattern matches: everything, itself, or whatever lies under its stem. */
  lemma PatternMeaning(pattern: string, eventType: string)
    ensures MatchesEventPattern(pattern, eventType)
      <==> pattern == "*" || pattern == eventType || exists stem, rest :: Under(pattern, eventType, stem, rest)
  {
    if EndsWith(pattern, ".*") {
      var stem := pattern[..|pattern| - 2];
      assert pattern == stem + ".*";
      assert pattern[..|pattern| - 1] == stem + ".";
      if StartsWith(eventType, stem + ".") {
        assert Under(pattern, eventType, stem, eventType[|stem| + 1..]);
      }
      if s, rest :| Under(pattern, eventType, s, rest) {
        assert s == stem;
        assert StartsWith(eventType, stem + ".");
      }
    } else {
      if s, rest :| Under(pattern, eventType, s, rest) { StemEnds(pattern, eventType, s, rest); }
    }
  }

  lemma StemEnds(pattern: string, eventType: string, stem: string, rest: string)
    requires Under(pattern, eventType, stem, rest)
    ensures EndsWith(pattern, ".*")
  {
    assert pattern[|stem|..] == ".*";
  }

  predicate Reaches(minimum: Option<int>, count: int) { minimum.None? || count >= minimum.value }

  predicate Matches(rule: Rule, alert: Alert, counts: Counts) {
    && MatchesEventPattern(rule.eventPattern, alert.eventType)
    && Reaches(rule.minimumEventCount, counts.eventCount)
    && Reaches(rule.minimumDistinctOnus, counts.distinctOnuCount)
    && Reaches(rule.minimumAffectedCustomers, counts.affectedCustomerCount)
  }

  predicate Identifies(rule: Rule) { rule.incidentType.Some? || rule.rootCause.Some? }

  function HighestSeverity(rules: seq<Rule>, alert: Alert, counts: Counts): Severity {
    if rules == [] then alert.severity
    else
      var highest := HighestSeverity(rules[..|rules| - 1], alert, counts);
      var rule := rules[|rules| - 1];
      if Matches(rule, alert, counts) && rule.severity.Some? && IsMoreSevere(rule.severity.value, highest)
      then rule.severity.value else highest
  }

  /** Position of the first matching rule that names a type or a root cause, or the length. */
  function FirstIdentifying(rules: seq<Rule>, alert: Alert, counts: Counts): (n: nat)
    ensures n <= |rules|
    ensures n < |rules| ==> Matches(rules[n], alert, counts) && Identifies(rules[n])
    ensures forall i :: 0 <= i < n ==> !(Matches(rules[i], alert, counts) && Identifies(rules[i]))
  {
    if rules == [] then 0
    else if Matches(rules[0], alert, counts) && Identifies(rules[0]) then 0
    else
      var n := FirstIdentifying(rules[1..], alert, counts);
      assert forall i :: 0 < i < n + 1 ==> rules[i] == rules[1..][i - 1];
      n + 1
  }

  function MatchedRule(rules: seq<Rule>, alert: Alert, counts: Counts): Option<Rule> {
    var n := FirstIdentifying(rules, alert, counts);
    if n < |rules| then Some(rules[n]) else None
  }

  /** The decision, from the window's alerts and the enabled rules in query order. */
  function Decide(alerts: seq<Alert>, rules: seq<Rule>, alert: Alert): Decision {
    var counts := CountsOf(alerts);
    var matched := MatchedRule(rules, alert, counts);
    Decision(
      BuildCorrelationKey(alert), counts.eventCount, counts.distinctOnuCount, counts.affectedCustomerCount,
      if matched.Some? then matched.value.incidentType.GetOr(IncidentType.UNKNOWN) else IncidentType.UNKNOWN,
      if matched.Some? then matched.value.rootCause.GetOr(UNKNOWN_CAUSE) else UNKNOWN_CAUSE,
      if matched.Some? then matched.value.rootCauseConfidence.GetOr(0) else 0,
      HighestSeverity(rules, alert, counts),
      matched)
  }

  function Analyze(rows: seq<Alert>, rules: seq<Rule>, alert: Alert, windowMs: int): Decision {
    Decide(WindowAlerts(rows, alert, windowMs), rules, alert)
  }

  lemma AnalysisKey(rows: seq<Alert>, rules: seq<Rule>, alert: Alert, windowMs: int)
    ensures Analyze(rows, rules, alert, windowMs).correlationKey == BuildCorrelationKey(alert)
  {
  }

  // ---------------------------------------------------------------- severity is a maximum

  /** The severity is the alert's or a matching rule's, and none of those is more severe. */
  ghost predicate IsHighest(s: Severity, rules: seq<Rule>, alert: Alert, counts: Counts) {
    && alert.severity.Rank() <= s.Rank()
    && (forall i :: 0 <= i < |rules| && Matches(rules[i], alert, counts) && rules[i].severity.Some? ==>
          rules[i].severity.value.Rank() <= s.Rank())
    && (s == alert.severity
        || exists i :: 0 <= i < |rules| && Matches(rules[i], alert, counts) && rules[i].severity == Some(s))
  }

  lemma {:induction false} SeverityIsMaximum(rules: seq<Rule>, alert: Alert, counts: Counts)
    ensures IsHighest(HighestSeverity(rules, alert, counts), rules, alert, counts)
  {
    if rules != [] {
      var front := rules[..|rules| - 1];
      SeverityIsMaximum(front, alert, counts);
      var highest := HighestSeverity(front, alert, counts);
      assert forall i :: 0 <= i < |front| ==> front[i] == rules[i];
      if HighestSeverity(rules, alert, counts) == highest && highest != alert.severity {
        var i :| 0 <= i < |front| && Matches(front[i], alert, counts) && front[i].severity == Some(highest);
        assert rules[i].severity == Some(highest);
      }
    }
  }

  lemma HighestIsUnique(s: Severity, t: Severity, a: seq<Rule>, b: seq<Rule>, alert: Alert, counts: Counts)
    requires forall r :: r in a <==> r in b
    requires IsHighest(s, a, alert, counts) && IsHighest(t, b, alert, counts)
    ensures s == t
  {
    NotAbove(s, t, a, b, alert, counts);
    NotAbove(t, s, b, a, alert, counts);
    RankIsInjective(s, t);
  }

  lemma RankIsInjective(s: Severity, t: Severity)
    ensures s.Rank() == t.Rank() <==> s == t
  {
  }

  lemma NotAbove(s: Severity, t: Severity, a: seq<Rule>, b: seq<Rule>, alert: Alert, counts: Counts)
    requires forall r :: r in a ==> r in b
    requires IsHighest(s, a, alert, counts) && IsHighest(t, b, alert, counts)
    ensures s.Rank() <= t.Rank()
  {
    if s != alert.severity {
      var i :| 0 <= i < |a| && Matches(a[i], alert, counts) && a[i].severity == Some(s);
      assert a[i] in b;
      var j :| 0 <= j < |b| && b[j] == a[i];
    }
  }

  // ---------------------------------------------------------------- the order of the rules

  predicate NameBefore(a: string, b: string) {
    if b == "" then false
    else if a == "" then true
    else a[0] < b[0] || (a[0] == b[0] && NameBefore(a[1..], b[1..]))
  }

  lemma {:induction false} NamesAreOrdered(a: string, b: string)
    ensures a == b || NameBefore(a, b) || NameBefore(b, a)
  {
    if a != "" && b != "" && a[0] == b[0] {
      NamesAreOrdered(a[1..], b[1..]);
      assert a == [a[0]] + a[1..] && b == [b[0]] + b[1..];
    }
  }

  /** The names agree up to position k, where the first ends or has the smaller character. */
  ghost predicate DiffersAt(a: string, b: string, k: nat) {
    && k <= |a| && k < |b| && a[..k] == b[..k]
    && (k == |a| || a[k] < b[k])
  }

  lemma {:induction false} NameOrder(a: string, b: string)
    ensures NameBefore(a, b) <==> exists k: nat :: DiffersAt(a, b, k)
  {
    if a != "" && b != "" && a[0] == b[0] {
      NameOrder(a[1..], b[1..]);
      assert a == [a[0]] + a[1..] && b == [b[0]] + b[1..];
      if k: nat :| DiffersAt(a[1..], b[1..], k) { assert DiffersAt(a, b, k + 1); }
      if k: nat :| DiffersAt(a, b, k) {
        assert k > 0 && a[1..][..k - 1] == a[..k][1..] && b[1..][..k - 1] == b[..k][1..];
        assert DiffersAt(a[1..], b[1..], k - 1);
      }
    } else if b != "" {
      if NameBefore(a, b) { assert DiffersAt(a, b, 0); }
      if k: nat :| DiffersAt(a, b, k) { SameStart(a, b, k); }
    }
  }

  lemma SameStart(a: string, b: string, k: nat)
    requires DiffersAt(a, b, k)
    ensures k > 0 ==> a[0] == b[0]
  {
    if k > 0 { assert a[0] == a[..k][0] && b[0] == b[..k][0]; }
  }

  predicate RuleBefore(a: Rule, b: Rule) {
    a.priority < b.priority || (a.priority == b.priority && NameBefore(a.name, b.name))
  }

  /** What the query returns: ascending by priority and then name; names are unique. */
  ghost predicate QueryOrder(rules: seq<Rule>) {
    && (forall i, j :: 0 <= i < j < |rules| ==> !RuleBefore(rules[j], rules[i]))
    && (forall i, j :: 0 <= i < j < |rules| ==> rules[i].name != rules[j].name)
  }

  /** The matched rule is the least matching identifying rule. */
  ghost predicate IsLeast(n: nat, rules: seq<Rule>, alert: Alert, counts: Counts) {
    n < |rules| && Matches(rules[n], alert, counts) && Identifies(rules[n])
    && forall i :: 0 <= i < |rules| && Matches(rules[i], alert, counts) && Identifies(rules[i]) ==>
         i == n || !RuleBefore(rules[i], rules[n])
  }

  /**
    Type, root cause and confidence are those of the least matching identifying rule; when there is
    none they are unknown, with confidence zero.
  */
  lemma CauseIsOfLeastRule(alerts: seq<Alert>, rules: seq<Rule>, alert: Alert)
    requires QueryOrder(rules)
    ensures var d, counts := Decide(alerts, rules, alert), CountsOf(alerts);
      match d.matchedRule
      case None =>
        && (forall i :: 0 <= i < |rules| ==> !(Matches(rules[i], alert, counts) && Identifies(rules[i])))
        && d.incidentType == IncidentType.UNKNOWN && d.rootCause == UNKNOWN_CAUSE && d.rootCauseConfidence == 0
      case Some(r) =>
        && (exists n: nat :: IsLeast(n, rules, alert, counts) && rules[n] == r)
        && (forall i :: 0 <= i < |rules| && Matches(rules[i], alert, counts) && Identifies(rules[i]) ==>
              r.priority <= rules[i].priority)
        && (r.incidentType.Some? ==> d.incidentType == r.incidentType.value)
        && (r.rootCause.Some? ==> d.rootCause == r.rootCause.value)
        && (r.rootCauseConfidence.Some? ==> d.rootCauseConfidence == r.rootCauseConfidence.value)
  {
    hide Matches, Identifies, CountsOf, HighestSeverity, BuildCorrelationKey;
    var n := FirstIdentifying(rules, alert, CountsOf(alerts));
    if n < |rules| { assert IsLeast(n, rules, alert, CountsOf(alerts)); }
  }

  lemma FirstIsFound(a: seq<Rule>, r: Rule, alert: Alert, counts: Counts) returns (j: nat)
    requires r in a && Matches(r, alert, counts) && Identifies(r)
    ensures j < |a| && a[j] == r && FirstIdentifying(a, alert, counts) <= j
  {
    j :| 0 <= j < |a| && a[j] == r;
  }

  lemma NotBefore(rules: seq<Rule>, i: nat, j: nat)
    requires QueryOrder(rules) && i <= j < |rules|
    ensures !RuleBefore(rules[j], rules[i])
    ensures i < j ==> RuleBefore(rules[i], rules[j])
  {
    NotBeforeItself(rules[i].name);
    NamesAreOrdered(rules[i].name, rules[j].name);
  }

  lemma {:induction false} NotBeforeItself(name: string)
    ensures !NameBefore(name, name)
  {
    if name != "" { NotBeforeItself(name[1..]); }
  }

  /** A type or a root cause, which is what a decision needs. */
  predicate NamesCause(rule: Rule) { rule.incidentType != None || rule.rootCause != None }

  lemma MatchesExactly(rule: Rule, alert: Alert, counts: Counts)
    ensures Matches(rule, alert, counts) <==> !FallsShort(rule, alert, counts)
    ensures Identifies(rule) <==> NamesCause(rule)
  {
    hide MatchesEventPattern;
  }

  /** Of the rules, in whatever order, the one that matches and names a cause and has no such rule before it. */
  ghost predicate LeastOf(r: Rule, rules: seq<Rule>, alert: Alert, counts: Counts) {
    && r in rules && !FallsShort(r, alert, counts) && NamesCause(r)
    && forall q :: q in rules && !FallsShort(q, alert, counts) && NamesCause(q) ==>
         q.priority > r.priority || (q.priority == r.priority && !NameBefore(q.name, r.name))
  }

  lemma FirstIsLeast(rules: seq<Rule>, b: seq<Rule>, alert: Alert, counts: Counts, r: Rule)
    requires QueryOrder(rules) && (forall q :: q in rules <==> q in b)
    ensures LeastOf(r, b, alert, counts) <==> MatchedRule(rules, alert, counts) == Some(r)
  {
    forall q ensures Matches(q, alert, counts) <==> !FallsShort(q, alert, counts) { MatchesExactly(q, alert, counts); }
    forall q ensures Identifies(q) <==> NamesCause(q) { MatchesExactly(q, alert, counts); }
    forall q ensures RuleBefore(q, r)
      <==> !(q.priority > r.priority || (q.priority == r.priority && !NameBefore(q.name, r.name)))
    {
    }
    hide Matches, Identifies, RuleBefore, QueryOrder, FallsShort, NamesCause;
    var n := FirstIdentifying(rules, alert, counts);
    if MatchedRule(rules, alert, counts) == Some(r) {
      forall q | q in b && Matches(q, alert, counts) && Identifies(q) ensures !RuleBefore(q, r) {
        var j := FirstIsFound(rules, q, alert, counts);
        NotBefore(rules, n, j);
      }
    }
    if LeastOf(r, b, alert, counts) {
      var j := FirstIsFound(rules, r, alert, counts);
      assert rules[n] in rules;
      NotBefore(rules, n, j);
    }
  }

  /**
    The decision is one of the set of enabled rules. Given the set in any order, the matched rule is
    its one least matching rule that names a cause; type, root cause and confidence are that rule's,
    and unknown with confidence zero when there is none; and the severity is that of any order.
  */
  lemma DecisionIsOrderFree(alerts: seq<Alert>, queried: seq<Rule>, b: seq<Rule>, alert: Alert, r: Rule)
    requires QueryOrder(queried) && (forall q :: q in queried <==> q in b)
    ensures var d, counts := Decide(alerts, queried, alert), CountsOf(alerts);
      && (LeastOf(r, b, alert, counts) <==> d.matchedRule == Some(r))
      && (LeastOf(r, b, alert, counts) ==>
            && d.incidentType == r.incidentType.GetOr(IncidentType.UNKNOWN)
            && d.rootCause == r.rootCause.GetOr(UNKNOWN_CAUSE)
            && d.rootCauseConfidence == r.rootCauseConfidence.GetOr(0))
    ensures var d, counts := Decide(alerts, queried, alert), CountsOf(alerts);
      && (d.matchedRule.None? <==> forall q :: q in b ==> FallsShort(q, alert, counts) || !NamesCause(q))
      && (d.matchedRule.None? ==>
            d.incidentType == IncidentType.UNKNOWN && d.rootCause == UNKNOWN_CAUSE && d.rootCauseConfidence == 0)
    ensures Decide(alerts, queried, alert).severity == Decide(alerts, b, alert).severity
  {
    var counts := CountsOf(alerts);
    FirstIsLeast(queried, b, alert, counts, r);
    NoneIdentifies(queried, b, alert, counts);
    SeverityIsOrderFree(alerts, queried, b, alert);
    hide LeastOf, Matches, Identifies, CountsOf, HighestSeverity, BuildCorrelationKey, FirstIdentifying, QueryOrder,
      FallsShort, NamesCause;
  }

  lemma NoneIdentifies(rules: seq<Rule>, b: seq<Rule>, alert: Alert, counts: Counts)
    requires forall q :: q in rules <==> q in b
    ensures MatchedRule(rules, alert, counts).None?
      <==> forall q :: q in b ==> FallsShort(q, alert, counts) || !NamesCause(q)
  {
    forall q ensures Matches(q, alert, counts) <==> !FallsShort(q, alert, counts) { MatchesExactly(q, alert, counts); }
    forall q ensures Identifies(q) <==> NamesCause(q) { MatchesExactly(q, alert, counts); }
    hide Matches, Identifies, FallsShort, NamesCause;
    var n := FirstIdentifying(rules, alert, counts);
    if n < |rules| {
      assert rules[n] in b;
    } else {
      forall q | q in b ensures !(Matches(q, alert, counts) && Identifies(q)) {
        var i :| 0 <= i < |rules| && rules[i] == q;
      }
    }
  }

  /** The severity alone needs no order at all. */
  lemma SeverityIsOrderFree(alerts: seq<Alert>, a: seq<Rule>, b: seq<Rule>, alert: Alert)
    requires forall r :: r in a <==> r in b
    ensures Decide(alerts, a, alert).severity == Decide(alerts, b, alert).severity
  {
    var counts := CountsOf(alerts);
    SeverityIsMaximum(a, alert, counts);
    SeverityIsMaximum(b, alert, counts);
    HighestIsUnique(HighestSeverity(a, alert, counts), HighestSeverity(b, alert, counts), a, b, alert, counts);
  }

  // ---------------------------------------------------------------- rules that do not apply

  /** The pattern does not cover the alert, or some minimum the rule names is not reached. */
  predicate FallsShort(rule: Rule, alert: Alert, counts: Counts) {
    || !MatchesEventPattern(rule.eventPattern, alert.eventType)
    || (rule.minimumEventCount.Some? && counts.eventCount < rule.minimumEventCount.value)
    || (rule.minimumDistinctOnus.Some? && counts.distinctOnuCount < rule.minimumDistinctOnus.value)
    || (rule.minimumAffectedCustomers.Some? && counts.affectedCustomerCount < rule.minimumAffectedCustomers.value)
  }

  lemma {:induction false} SkippedInSeverity(a: seq<Rule>, rule: Rule, b: seq<Rule>, alert: Alert, counts: Counts)
    requires !Matches(rule, alert, counts)
    ensures HighestSeverity(a + [rule] + b, alert, counts) == HighestSeverity(a + b, alert, counts)
  {
    hide Matches;
    if b == [] {
      assert (a + [rule] + b)[..|a|] == a == a + b;
    } else {
      var front := b[..|b| - 1];
      SkippedInSeverity(a, rule, front, alert, counts);
      assert (a + [rule] + b)[..|a| + |b|] == a + [rule] + front;
      assert (a + b)[..|a| + |b| - 1] == a + front;
    }
  }

  lemma {:induction false} SkippedInSearch(a: seq<Rule>, rule: Rule, b: seq<Rule>, alert: Alert, counts: Counts)
    requires !Matches(rule, alert, counts)
    ensures MatchedRule(a + [rule] + b, alert, counts) == MatchedRule(a + b, alert, counts)
  {
    hide Matches, Identifies;
    if a == [] {
      assert ([] + [rule] + b)[1..] == b == [] + b;
    } else {
      SkippedInSearch(a[1..], rule, b, alert, counts);
      assert (a + [rule] + b)[1..] == a[1..] + [rule] + b;
      assert (a + b)[1..] == a[1..] + b;
    }
  }

  /**
    A rule that falls short is inert, wherever it stands: the decision is the one without it. And
    every rule that does not fall short bounds the severity from below.
  */
  lemma RuleFallingShortIsInert(alerts: seq<Alert>, a: seq<Rule>, rule: Rule, b: seq<Rule>, alert: Alert)
    ensures FallsShort(rule, alert, CountsOf(alerts)) ==>
      Decide(alerts, a + [rule] + b, alert) == Decide(alerts, a + b, alert)
    ensures !FallsShort(rule, alert, CountsOf(alerts)) && rule.severity.Some? ==>
      rule.severity.value.Rank() <= Decide(alerts, a + [rule] + b, alert).severity.Rank()
  {
    var counts, rules := CountsOf(alerts), a + [rule] + b;
    assert Matches(rule, alert, counts) <==> !FallsShort(rule, alert, counts);
    hide Matches, FallsShort, CountsOf;
    if FallsShort(rule, alert, counts) {
      SkippedInSeverity(a, rule, b, alert, counts);
      SkippedInSearch(a, rule, b, alert, counts);
      hide HighestSeverity, FirstIdentifying, BuildCorrelationKey;
    } else {
      SeverityIsMaximum(rules, alert, counts);
      hide HighestSeverity, FirstIdentifying, BuildCorrelationKey;
      assert rules[|a|] == rule;
    }
  }

  // ---------------------------------------------------------------- rules about ONUs

  lemma {:induction false} WindowIsOfRows(rows: seq<Alert>, alert: Alert, windowMs: int)
    ensures forall x :: x in WindowAlerts(rows, alert, windowMs) ==> x in rows
  {
    hide InWindow;
    if rows != [] { WindowIsOfRows(rows[..|rows| - 1], alert, windowMs); }
  }

  lemma {:induction false} AdmittedCountsNoOnu(alerts: seq<Alert>)
    requires forall x :: x in alerts ==> Admitted(x.eventType)
    ensures OfflineSerials(alerts) == {}
  {
    if alerts != [] {
      var last := alerts[|alerts| - 1];
      assert last in alerts;
      AdmittedCountsNoOnu(alerts[..|alerts| - 1]);
    }
  }

  /**
    Over admitted alerts no ONU is ever counted, so a rule that asks for at least one changes no
    decision, wherever it stands.
  */
  lemma OnuRuleIsInert(rows: seq<Alert>, a: seq<Rule>, rule: Rule, b: seq<Rule>, alert: Alert, windowMs: int)
    requires forall x :: x in rows ==> Admitted(x.eventType)
    requires rule.minimumDistinctOnus.Some? && rule.minimumDistinctOnus.value >= 1
    ensures Analyze(rows, a + b, alert, windowMs).distinctOnuCount == 0
    ensures Analyze(rows, a + [rule] + b, alert, windowMs) == Analyze(rows, a + b, alert, windowMs)
  {
    var alerts := WindowAlerts(rows, alert, windowMs);
    hide Admitted, MatchesEventPattern, BuildCorrelationKey, HighestSeverity, FirstIdentifying;
    WindowIsOfRows(rows, alert, windowMs);
    AdmittedCountsNoOnu(alerts);
    RuleFallingShortIsInert(alerts, a, rule, b, alert);
  }

  // ---------------------------------------------------------------- more alerts never lower a decision

  predicate AtMost(a: Counts, b: Counts) {
    && a.eventCount <= b.eventCount
    && a.distinctOnuCount <= b.distinctOnuCount
    && a.affectedCustomerCount <= b.affectedCustomerCount
  }

  /** Some alert reports this ONU as offline. */
  ghost predicate ReportedOffline(alerts: seq<Alert>, serial: string) {
    && serial != ""
    && exists i :: 0 <= i < |alerts| && alerts[i].eventType == "onu.offline" && alerts[i].onuSerial == Some(serial)
  }

  lemma {:induction false} SerialsMeaning(alerts: seq<Alert>, serial: string)
    ensures serial in OfflineSerials(alerts) <==> ReportedOffline(alerts, serial)
  {
    if alerts != [] {
      var front := alerts[..|alerts| - 1];
      SerialsMeaning(front, serial);
      assert forall i :: 0 <= i < |front| ==> front[i] == alerts[i];
    }
  }

  lemma {:induction false} MostOfflineMeaning(alerts: seq<Alert>)
    ensures MostOfflineCustomers(alerts) >= 0
    ensures forall i :: 0 <= i < |alerts| ==> OfflineCustomers(alerts[i]) <= MostOfflineCustomers(alerts)
    ensures MostOfflineCustomers(alerts) == 0
         || exists i :: 0 <= i < |alerts| && OfflineCustomers(alerts[i]) == MostOfflineCustomers(alerts)
  {
    if alerts != [] {
      var front := alerts[..|alerts| - 1];
      MostOfflineMeaning(front);
      assert forall i :: 0 <= i < |front| ==> front[i] == alerts[i];
      if MostOfflineCustomers(alerts) == MostOfflineCustomers(front) > 0 {
        var i :| 0 <= i < |front| && OfflineCustomers(front[i]) == MostOfflineCustomers(front);
        assert OfflineCustomers(alerts[i]) == MostOfflineCustomers(alerts);
      }
    }
  }

  predicate Reports(alert: Alert, offline: int) {
    alert.metrics.Some? && alert.metrics.value.onuOffline == Some(offline)
  }

  /**
    What the counts of a decision are: at least one event and otherwise all of them, the size of the
    set of ONUs reported offline, and the largest number of customers any alert reported offline.
  */
  lemma CountsMeaning(alerts: seq<Alert>, serials: set<string>, rules: seq<Rule>, alert: Alert)
    requires forall serial :: serial in serials <==> ReportedOffline(alerts, serial)
    ensures var c := Decide(alerts, rules, alert);
      && c.eventCount == Max(1, |alerts|)
      && c.distinctOnuCount == |serials|
      && c.affectedCustomerCount >= 0
      && (forall i, n :: 0 <= i < |alerts| && Reports(alerts[i], n) ==> n <= c.affectedCustomerCount)
      && (c.affectedCustomerCount == 0 || exists i :: 0 <= i < |alerts| && Reports(alerts[i], c.affectedCustomerCount))
  {
    forall serial ensures serial in serials <==> serial in OfflineSerials(alerts) { SerialsMeaning(alerts, serial); }
    assert serials == OfflineSerials(alerts);
    hide OfflineSerials, ReportedOffline, BuildCorrelationKey, HighestSeverity, FirstIdentifying;
    LargestReport(alerts);
  }

  lemma LargestReport(alerts: seq<Alert>)
    ensures var most := MostOfflineCustomers(alerts);
      && most >= 0
      && (forall i, n :: 0 <= i < |alerts| && Reports(alerts[i], n) ==> n <= most)
      && (most == 0 || exists i :: 0 <= i < |alerts| && Reports(alerts[i], most))
  {
    MostOfflineMeaning(alerts);
    var most := MostOfflineCustomers(alerts);
    forall i, n | 0 <= i < |alerts| && Reports(alerts[i], n) ensures n <= most {
      assert OfflineCustomers(alerts[i]) <= most;
    }
    if most > 0 {
      var i :| 0 <= i < |alerts| && OfflineCustomers(alerts[i]) == most;
      assert Reports(alerts[i], most);
    }
  }

  lemma CountsAreMonotone(a: seq<Alert>, b: seq<Alert>)
    requires multiset(a) <= multiset(b)
    ensures AtMost(CountsOf(a), CountsOf(b))
  {
    assert forall x :: x in a ==> x in multiset(a);
    assert forall x :: x in a ==> x in b;
    SizeMonotone(a, b);
    forall serial | serial in OfflineSerials(a) ensures serial in OfflineSerials(b) {
      SerialsMeaning(a, serial);
      SerialsMeaning(b, serial);
      var i :| 0 <= i < |a| && a[i].eventType == "onu.offline" && a[i].onuSerial == Some(serial);
      assert a[i] in b;
    }
    SubsetSize(OfflineSerials(a), OfflineSerials(b));
    MostOfflineMeaning(a);
    MostOfflineMeaning(b);
    if MostOfflineCustomers(a) > 0 {
      var i :| 0 <= i < |a| && OfflineCustomers(a[i]) == MostOfflineCustomers(a);
      assert a[i] in b;
    }
  }

  lemma SizeMonotone(a: seq<Alert>, b: seq<Alert>)
    requires multiset(a) <= multiset(b)
    ensures |a| <= |b|
  {
    assert |multiset(a)| == |a| && |multiset(b)| == |b|;
    assert multiset(b) == multiset(a) + (multiset(b) - multiset(a));
  }

  /**
    Adding alerts to the window never lowers a count or the severity, and the matched rule stays
    or moves earlier in query order.
  */
  lemma MoreAlertsNeverLowerADecision(a: seq<Alert>, b: seq<Alert>, rules: seq<Rule>, alert: Alert)
    requires multiset(a) <= multiset(b)
    ensures var before, after := Decide(a, rules, alert), Decide(b, rules, alert);
      && before.eventCount <= after.eventCount
      && before.distinctOnuCount <= after.distinctOnuCount
      && before.affectedCustomerCount <= after.affectedCustomerCount
      && before.severity.Rank() <= after.severity.Rank()
      && FirstIdentifying(rules, alert, CountsOf(b)) <= FirstIdentifying(rules, alert, CountsOf(a))
      && (before.matchedRule.Some? ==> after.matchedRule.Some?)
  {
    CountsAreMonotone(a, b);
    SeverityMonotone(rules, alert, CountsOf(a), CountsOf(b));
    var n := FirstIdentifying(rules, alert, CountsOf(a));
    assert n < |rules| ==> Matches(rules[n], alert, CountsOf(b));
  }

  lemma SeverityMonotone(rules: seq<Rule>, alert: Alert, a: Counts, b: Counts)
    requires AtMost(a, b)
    ensures HighestSeverity(rules, alert, a).Rank() <= HighestSeverity(rules, alert, b).Rank()
  {
    SeverityIsMaximum(rules, alert, a);
    SeverityIsMaximum(rules, alert, b);
    var s := HighestSeverity(rules, alert, a);
    if s != alert.severity {
      var i :| 0 <= i < |rules| && Matches(rules[i], alert, a) && rules[i].severity == Some(s);
      assert Matches(rules[i], alert, b);
    }
  }

  /** An admitted alert that is stored is in its own window, so its event count counts it. */
  lemma {:induction false} OwnAlertIsInWindow(rows: seq<Alert>, alert: Alert, windowMs: int)
    requires alert in rows && windowMs >= 0 && !IsRecovery(alert.eventType)
    ensures alert in WindowAlerts(rows, alert, windowMs)
    ensures CountsOf(WindowAlerts(rows, alert, windowMs)).eventCount == |WindowAlerts(rows, alert, windowMs)|
  {
    if rows[|rows| - 1] != alert { OwnAlertIsInWindow(rows[..|rows| - 1], alert, windowMs); }
  }
}
