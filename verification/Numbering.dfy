/** Incident codes: numbered per year in creation order, without gaps and without repeats. */
module Numbering {
  import opened Prelude
  import opened Calendar
  import opened Records
  import opened Alerts
  import opened Text
  import opened Correlation
  import opened IncidentEngine

  /** What numbering looks at: the calendar year of detection and the code. */
  datatype Stamp = Stamp(year: int, code: string)

  function Stamps(incidents: seq<Incident>): (s: seq<Stamp>)
    ensures |s| == |incidents|
    ensures forall i :: 0 <= i < |s| ==> s[i] == Stamp(YearOf(incidents[i].detectedAt), incidents[i].code)
  {
    if incidents == [] then []
    else
      var last := incidents[|incidents| - 1];
      Stamps(incidents[..|incidents| - 1]) + [Stamp(YearOf(last.detectedAt), last.code)]
  }

  /** How many of the incidents were detected in the year. */
  function CountYear(stamps: seq<Stamp>, year: int): nat {
    if stamps == [] then 0
    else CountYear(stamps[..|stamps| - 1], year) + if stamps[|stamps| - 1].year == year then 1 else 0
  }

  /** Incident i is number so-and-so of its own year. */
  function OrdinalOf(stamps: seq<Stamp>, i: nat): nat
    requires i < |stamps|
  {
    CountYear(stamps[..i + 1], stamps[i].year)
  }

  /** The k-th incident of a year, in creation order, carries number k of that year. */
  ghost predicate InOrder(stamps: seq<Stamp>) {
    forall i :: 0 <= i < |stamps| ==> stamps[i].code == IncidentCode(stamps[i].year, OrdinalOf(stamps, i))
  }

  ghost predicate Numbered(db: Db) {
    && InOrder(Stamps(db.incidents))
    && forall year :: NumberOf(db.sequences, year) == CountYear(Stamps(db.incidents), year)
  }

  // ---------------------------------------------------------------- every step keeps the numbering

  lemma OrdinalsAppend(stamps: seq<Stamp>, stamp: Stamp)
    ensures forall i :: 0 <= i < |stamps| ==> OrdinalOf(stamps + [stamp], i) == OrdinalOf(stamps, i)
    ensures OrdinalOf(stamps + [stamp], |stamps|) == CountYear(stamps, stamp.year) + 1
  {
    var more := stamps + [stamp];
    forall i | 0 <= i < |stamps| ensures OrdinalOf(more, i) == OrdinalOf(stamps, i) {
      assert more[..i + 1] == stamps[..i + 1];
    }
    assert more[..|stamps| + 1] == more && more[..|stamps|] == stamps;
  }

  lemma InOrderAppend(stamps: seq<Stamp>, year: int)
    requires InOrder(stamps)
    ensures InOrder(stamps + [Stamp(year, IncidentCode(year, CountYear(stamps, year) + 1))])
  {
    hide IncidentCode, CountYear;
    OrdinalsAppend(stamps, Stamp(year, IncidentCode(year, CountYear(stamps, year) + 1)));
    hide OrdinalOf;
  }

  lemma StampsAppend(incidents: seq<Incident>, incident: Incident)
    ensures Stamps(incidents + [incident]) == Stamps(incidents) + [Stamp(YearOf(incident.detectedAt), incident.code)]
  {
    hide YearOf;
    assert (incidents + [incident])[..|incidents|] == incidents;
  }

  lemma CountsAppend(sequences: map<int, nat>, stamps: seq<Stamp>, stamp: Stamp)
    requires forall year :: NumberOf(sequences, year) == CountYear(stamps, year)
    ensures forall year ::
      NumberOf(sequences[stamp.year := NumberOf(sequences, stamp.year) + 1], year) == CountYear(stamps + [stamp], year)
  {
    assert (stamps + [stamp])[..|stamps|] == stamps;
    forall year
      ensures NumberOf(sequences[stamp.year := NumberOf(sequences, stamp.year) + 1], year)
           == CountYear(stamps + [stamp], year)
    {
      assert NumberOf(sequences, year) == CountYear(stamps, year);
    }
  }

  lemma CreateKeepsNumbering(db: Db, alert: Alert, d: Decision)
    requires Numbered(db) && alert.id < |db.alerts|
    ensures Numbered(Create(db, alert, d))
  {
    hide IncidentCode, YearOf, Title, InitialCounters, InOrder, CountYear, Stamps;
    var stamps := Stamps(db.incidents);
    var year := YearOf(alert.detectedAt);
    var number := NumberOf(db.sequences, year) + 1;
    var incident := NewIncident(|db.incidents|, number, alert, d);
    StampsAppend(db.incidents, incident);
    assert number == CountYear(stamps, year) + 1;
    InOrderAppend(stamps, year);
    CountsAppend(db.sequences, stamps, Stamp(year, incident.code));
    assert Create(db, alert, d).incidents == db.incidents + [incident];
  }

  /** Same codes and detection times, row by row. */
  ghost predicate SameOrigins(a: seq<Incident>, b: seq<Incident>) {
    |a| == |b| && forall i :: 0 <= i < |a| ==> a[i].code == b[i].code && a[i].detectedAt == b[i].detectedAt
  }

  lemma SameOriginsKeepNumbering(db: Db, next: Db)
    requires Numbered(db) && SameOrigins(db.incidents, next.incidents) && next.sequences == db.sequences
    ensures Numbered(next)
  {
    assert Stamps(db.incidents) == Stamps(next.incidents);
  }

  lemma ProcessKeepsOrigins(db: Db, id: nat, rules: seq<Rule>, windowMs: int, pick: Option<nat>)
    requires id < |db.alerts| && db.alerts[id].id == id && (pick.Some? ==> pick.value < |db.incidents|)
    ensures var r := Process(db, id, rules, windowMs, pick);
      r.Committed? && r.outcome != CREATED ==>
        SameOrigins(db.incidents, r.db.incidents) && r.db.sequences == db.sequences
  {
    hide Analyze, Title, NextCode, Create, BuildCorrelationKey, IsRecovery;
  }

  lemma ApplyKeepsNumbering(db: Db, s: Step, windowMs: int)
    requires Numbered(db) && Enabled(db, s, windowMs)
    ensures Numbered(Apply(db, s, windowMs))
  {
    hide IncidentCode, YearOf, Analyze, Numbered, Create, Correlate, Recover, RecordDecision, NextCode;
    match s
    case IngestStep(e) => SameOriginsKeepNumbering(db, Ingest(db, e).db);
    case ProcessStep(id, rules, pick) =>
      var r := Process(db, id, rules, windowMs, pick);
      if r.Committed? {
        if r.outcome == CREATED {
          CreateKeepsNumbering(db, db.alerts[id], Analyze(db.alerts, rules, db.alerts[id], windowMs));
        } else {
          ProcessKeepsOrigins(db, id, rules, windowMs, pick);
          SameOriginsKeepNumbering(db, r.db);
        }
      }
    case ChangeStep(id, change, now) =>
      var r := Transition(db, id, change, now);
      if r.Changed? { SameOriginsKeepNumbering(db, r.db); }
    case RefreshStep(id, counters) => SameOriginsKeepNumbering(db, RefreshImpact(db, id, counters));
  }

  // ---------------------------------------------------------------- what the numbering gives

  lemma {:induction false} CountGrows(stamps: seq<Stamp>, year: int, i: nat, j: nat)
    requires i <= j <= |stamps|
    ensures CountYear(stamps[..i], year) <= CountYear(stamps[..j], year)
    ensures i < j && stamps[j - 1].year == year ==> CountYear(stamps[..i], year) < CountYear(stamps[..j], year)
  {
    if i < j {
      assert stamps[..j][..j - 1] == stamps[..j - 1];
      CountGrows(stamps, year, i, j - 1);
    }
  }

  /** No two incidents share a code. */
  lemma CodesAreUnique(stamps: seq<Stamp>, i: nat, j: nat)
    requires InOrder(stamps) && i < j < |stamps|
    ensures stamps[i].code != stamps[j].code
  {
    hide IncidentCode;
    IncidentCodeIsInjective(stamps[i].year, OrdinalOf(stamps, i), stamps[j].year, OrdinalOf(stamps, j));
    CountGrows(stamps, stamps[j].year, i + 1, j + 1);
  }

  lemma OrdinalRange(stamps: seq<Stamp>, i: nat)
    requires i < |stamps|
    ensures 1 <= OrdinalOf(stamps, i) <= CountYear(stamps, stamps[i].year)
  {
    CountGrows(stamps, stamps[i].year, i, i + 1);
    CountGrows(stamps, stamps[i].year, i + 1, |stamps|);
    assert stamps[..|stamps|] == stamps;
  }

  /** The code about to be issued is unused, so the unique index on codes never aborts a creation. */
  lemma NextCodeIsFree(db: Db, alert: Alert)
    requires Numbered(db)
    ensures !HasCode(db.incidents, NextCode(db, alert))
  {
    hide IncidentCode, YearOf;
    var stamps := Stamps(db.incidents);
    var year := YearOf(alert.detectedAt);
    var number := NumberOf(db.sequences, year) + 1;
    forall i | 0 <= i < |db.incidents| ensures db.incidents[i].code != IncidentCode(year, number) {
      assert stamps[i].code == db.incidents[i].code;
      IncidentCodeIsInjective(stamps[i].year, OrdinalOf(stamps, i), year, number);
      OrdinalRange(stamps, i);
    }
  }

  lemma {:induction false} OrdinalIsReached(stamps: seq<Stamp>, year: int, number: nat) returns (i: nat)
    requires 1 <= number <= CountYear(stamps, year)
    ensures i < |stamps| && stamps[i].year == year && OrdinalOf(stamps, i) == number
  {
    var last := |stamps| - 1;
    var front := stamps[..last];
    if number <= CountYear(front, year) {
      i := OrdinalIsReached(front, year, number);
      assert stamps[..i + 1] == front[..i + 1];
    } else {
      i := last;
      assert stamps[..i + 1] == stamps;
    }
  }

  /** The numbers issued for a year are exactly 1, 2, ..., nextNumber: none is skipped. */
  lemma NumbersAreDense(db: Db, year: int, number: nat)
    requires Numbered(db)
    ensures HasCode(db.incidents, IncidentCode(year, number)) <==> 1 <= number <= NumberOf(db.sequences, year)
  {
    var stamps := Stamps(db.incidents);
    assert NumberOf(db.sequences, year) == CountYear(stamps, year);
    if 1 <= number <= NumberOf(db.sequences, year) {
      var i := OrdinalIsReached(stamps, year, number);
      assert stamps[i].code == db.incidents[i].code;
    }
    if HasCode(db.incidents, IncidentCode(year, number)) {
      var i :| 0 <= i < |db.incidents| && db.incidents[i].code == IncidentCode(year, number);
      assert stamps[i].code == db.incidents[i].code;
      IncidentCodeIsInjective(stamps[i].year, OrdinalOf(stamps, i), year, number);
      OrdinalRange(stamps, i);
    }
  }
}
