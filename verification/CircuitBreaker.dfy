/**
  The circuit breaker of the upstream adapter. Times are milliseconds of a clock that does not run
  backwards, and requests are made one at a time.
*/
module CircuitBreaker {
  import opened Arithmetic
  import opened Prelude

  datatype Config = Config(threshold: nat, resetMs: nat) {
    predicate Valid() { threshold >= 1 && resetMs >= 1 }
  }

  datatype State = State(consecutiveFailures: nat, circuitOpenUntil: int)

  /** One call: when it is made, when its fetch ends, and whether the fetch succeeds. */
  datatype Call = Call(start: int, end: int, succeeds: bool) {
    predicate Valid() { start <= end }
  }

  datatype Answer = CircuitOpen | Unavailable | Success

  predicate Admits(s: State, start: int) { start >= s.circuitOpenUntil }

  function After(s: State, c: Call, config: Config): State {
    if !Admits(s, c.start) then s
    else if c.succeeds then s.(consecutiveFailures := 0)
    else
      var failures := s.consecutiveFailures + 1;
      State(failures, if failures >= config.threshold then c.end + config.resetMs else s.circuitOpenUntil)
  }

  /** The breaker as the adapter keeps it. */
  class Breaker {
    const config: Config
    var consecutiveFailures: nat
    var circuitOpenUntil: int

    function Current(): State
      reads this
    {
      State(consecutiveFailures, circuitOpenUntil)
    }

    constructor (config: Config)
      ensures this.config == config && Current() == State(0, 0)
    {
      this.config := config;
      consecutiveFailures, circuitOpenUntil := 0, 0;
    }

    /** A request; the call says what the clock and the upstream do. */
    method Request(c: Call) returns (answer: Answer)
      requires c.Valid()
      modifies this
      ensures Current() == After(old(Current()), c, config)
      ensures answer == CircuitOpen <==> c.start < old(circuitOpenUntil)
      ensures c.start >= old(circuitOpenUntil) ==> answer == if c.succeeds then Success else Unavailable
      ensures answer == CircuitOpen ==> Current() == old(Current())
      ensures answer == Success ==> consecutiveFailures == 0 && circuitOpenUntil == old(circuitOpenUntil)
      ensures answer == Unavailable ==>
        && consecutiveFailures == old(consecutiveFailures) + 1
        && circuitOpenUntil
           == if consecutiveFailures >= config.threshold then c.end + config.resetMs else old(circuitOpenUntil)
    {
      if c.start < circuitOpenUntil { return CircuitOpen; }
      if c.succeeds {
        consecutiveFailures := 0;
        return Success;
      }
      consecutiveFailures := consecutiveFailures + 1;
      if consecutiveFailures >= config.threshold {
        circuitOpenUntil := c.end + config.resetMs;
      }
      answer := Unavailable;
    }
  }

  // ---------------------------------------------------------------- runs

  /** One at a time, on a clock that does not run backwards. */
  predicate OneAtATime(calls: seq<Call>) {
    && (forall i :: 0 <= i < |calls| ==> calls[i].Valid())
    && (forall i, j :: 0 <= i < j < |calls| ==> calls[i].end <= calls[j].start)
  }

  function StateAfter(s: State, calls: seq<Call>, config: Config): State {
    if calls == [] then s else After(StateAfter(s, calls[..|calls| - 1], config), calls[|calls| - 1], config)
  }

  /** The calls whose fetch was started, in order. */
  function Started(s: State, calls: seq<Call>, config: Config): seq<Call> {
    if calls == [] then []
    else
      var before := StateAfter(s, calls[..|calls| - 1], config);
      var rest := Started(s, calls[..|calls| - 1], config);
      var last := calls[|calls| - 1];
      if Admits(before, last.start) then rest + [last] else rest
  }

  /** Every fetch that was started failed. */
  predicate AllFail(calls: seq<Call>) { forall i :: 0 <= i < |calls| ==> !calls[i].succeeds }

  /** The breaker cannot be open beyond one reset time after the last call ended. */
  predicate Bounded(s: State, now: int, config: Config) { s.circuitOpenUntil <= now + config.resetMs }

  /** circuitOpenUntil never decreases. */
  lemma {:induction false} OpenUntilNeverDecreases(s: State, calls: seq<Call>, config: Config, now: int)
    requires OneAtATime(calls) && Bounded(s, now, config)
    requires calls != [] ==> now <= calls[0].start
    ensures StateAfter(s, calls, config).circuitOpenUntil >= s.circuitOpenUntil
    ensures calls != [] ==> Bounded(StateAfter(s, calls, config), calls[|calls| - 1].end, config)
    ensures forall i :: 0 <= i < |calls| ==> now <= calls[i].start
  {
    if calls != [] {
      OpenUntilNeverDecreases(s, calls[..|calls| - 1], config, now);
      if |calls| > 1 { assert calls[|calls| - 2].end <= calls[|calls| - 1].start; }
    }
  }

  /**
    What a fresh breaker has seen after n failed fetches, when all of them failed: it counts them,
    and once there are `threshold` it stays closed to requests until a reset time after the last.
  */
  lemma {:induction false} FailuresAreCounted(calls: seq<Call>, config: Config)
    requires config.Valid() && OneAtATime(calls) && AllFail(calls)
    ensures var s, started := StateAfter(State(0, 0), calls, config), Started(State(0, 0), calls, config);
      && s.consecutiveFailures == |started| <= |calls|
      && (|started| >= config.threshold ==> s.circuitOpenUntil == started[|started| - 1].end + config.resetMs)
      && (|started| < config.threshold ==> s.circuitOpenUntil == 0)
      && (started != [] ==> started[|started| - 1] in calls)
  {
    if calls != [] { FailuresAreCounted(calls[..|calls| - 1], config); }
  }

  lemma {:induction false} StartedAreCalls(s: State, calls: seq<Call>, config: Config)
    ensures forall i :: 0 <= i < |Started(s, calls, config)| ==> Started(s, calls, config)[i] in calls
  {
    if calls != [] { StartedAreCalls(s, calls[..|calls| - 1], config); }
  }

  /** From the threshold on, consecutive fetches start at least one reset time apart. */
  lemma {:induction false} StartsAreSpaced(calls: seq<Call>, config: Config, k: nat)
    requires config.Valid() && OneAtATime(calls) && AllFail(calls)
    requires config.threshold <= k < |Started(State(0, 0), calls, config)|
    ensures var started := Started(State(0, 0), calls, config);
      started[k].start >= started[k - 1].end + config.resetMs && started[k - 1].start <= started[k - 1].end
  {
    var front := calls[..|calls| - 1];
    var rest := Started(State(0, 0), front, config);
    FailuresAreCounted(front, config);
    StartedAreCalls(State(0, 0), front, config);
    if k < |rest| { StartsAreSpaced(front, config, k); }
  }

  lemma {:induction false} LateStarts(calls: seq<Call>, config: Config, a: nat, k: nat)
    requires config.Valid() && OneAtATime(calls) && AllFail(calls)
    requires config.threshold <= a + 1 && a <= k < |Started(State(0, 0), calls, config)|
    ensures var started := Started(State(0, 0), calls, config);
      started[k].start >= started[a].start + (k - a) * config.resetMs
  {
    if k > a {
      StartsAreSpaced(calls, config, k);
      LateStarts(calls, config, a, k - 1);
      hide Started, OneAtATime, AllFail;
      OneMore(k - 1 - a, config.resetMs);
    }
  }

  /** The fetches numbered a, a + 1, ..., b - 1 all start within the span. */
  predicate StartWithin(started: seq<Call>, a: nat, b: nat, from: int, span: nat)
    requires a <= b <= |started|
  {
    forall i :: a <= i < b ==> from <= started[i].start <= from + span
  }

  lemma ExtraFetches(calls: seq<Call>, config: Config, a: nat, b: nat, from: int, span: nat)
    requires config.Valid() && OneAtATime(calls) && AllFail(calls)
    requires config.threshold <= a + 1 && a < b <= |Started(State(0, 0), calls, config)|
    requires StartWithin(Started(State(0, 0), calls, config), a, b, from, span)
    ensures b - 1 - a <= Quotient(span, config.resetMs)
  {
    var started := Started(State(0, 0), calls, config);
    LateStarts(calls, config, a, b - 1);
    hide Started, OneAtATime, AllFail, Quotient;
    assert from <= started[a].start && started[b - 1].start <= from + span;
    AtMostQuotient(b - 1 - a, span, config.resetMs);
  }

  /**
    The bound: on a breaker that was fresh once, if every fetch fails, at most threshold + span / reset
    of them start within any `span` milliseconds, early or late in the run.
  */
  lemma FetchesAreBounded(calls: seq<Call>, config: Config, a: nat, b: nat, from: int, span: nat)
    requires config.Valid() && OneAtATime(calls) && AllFail(calls)
    requires a <= b <= |Started(State(0, 0), calls, config)|
    requires StartWithin(Started(State(0, 0), calls, config), a, b, from, span)
    ensures b - a <= config.threshold + Quotient(span, config.resetMs)
  {
    hide Started, Quotient, OneAtATime, AllFail;
    var first := Max(a, config.threshold - 1);
    if first < b { ExtraFetches(calls, config, first, b, from, span); }
  }

  // ---------------------------------------------------------------- exactly which calls are rejected

  /** How many fetches in a row have failed, counting back from the end. */
  function FailuresAtEnd(started: seq<Call>): nat {
    if started == [] || started[|started| - 1].succeeds then 0 else FailuresAtEnd(started[..|started| - 1]) + 1
  }

  /** Fetch j failed and was at least the threshold-th failure in a row. */
  predicate Trips(started: seq<Call>, j: nat, config: Config) {
    j < |started| && !started[j].succeeds && FailuresAtEnd(started[..j + 1]) >= config.threshold
  }

  /** Some fetch that tripped the breaker ended less than a reset time before this moment. */
  ghost predicate StillOpen(started: seq<Call>, config: Config, at: int) {
    exists j: nat :: Trips(started, j, config) && at < started[j].end + config.resetMs
  }

  ghost predicate Remembers(s: State, started: seq<Call>, config: Config) {
    && s.consecutiveFailures == FailuresAtEnd(started)
    && (forall at :: at >= 0 ==> (at < s.circuitOpenUntil <==> StillOpen(started, config, at)))
  }

  lemma TripsAppend(started: seq<Call>, c: Call, j: nat, config: Config)
    ensures j < |started| ==> (Trips(started + [c], j, config) <==> Trips(started, j, config))
    ensures Trips(started + [c], |started|, config)
      <==> !c.succeeds && FailuresAtEnd(started) + 1 >= config.threshold
  {
    var more := started + [c];
    assert more[..|started| + 1] == more && more[..|started|] == started;
    if j < |started| { assert more[..j + 1] == started[..j + 1]; }
  }

  lemma StillOpenAppend(started: seq<Call>, c: Call, config: Config, at: int)
    ensures StillOpen(started + [c], config, at)
      <==> StillOpen(started, config, at)
           || (!c.succeeds && FailuresAtEnd(started) + 1 >= config.threshold && at < c.end + config.resetMs)
  {
    hide FailuresAtEnd;
    if StillOpen(started, config, at) { StaysOpen(started, c, config, at); }
    if StillOpen(started + [c], config, at) { OpenedBy(started, c, config, at); }
    TripsAppend(started, c, 0, config);
    if !c.succeeds && FailuresAtEnd(started) + 1 >= config.threshold && at < c.end + config.resetMs {
      assert (started + [c])[|started|] == c && Trips(started + [c], |started|, config);
    }
  }

  lemma StaysOpen(started: seq<Call>, c: Call, config: Config, at: int)
    requires StillOpen(started, config, at)
    ensures StillOpen(started + [c], config, at)
  {
    hide FailuresAtEnd;
    var j: nat :| Trips(started, j, config) && at < started[j].end + config.resetMs;
    TripsAppend(started, c, j, config);
    assert (started + [c])[j] == started[j];
    assert Trips(started + [c], j, config);
  }

  lemma OpenedBy(started: seq<Call>, c: Call, config: Config, at: int)
    requires StillOpen(started + [c], config, at)
    ensures StillOpen(started, config, at)
      || (!c.succeeds && FailuresAtEnd(started) + 1 >= config.threshold && at < c.end + config.resetMs)
  {
    hide FailuresAtEnd;
    var more := started + [c];
    var j: nat :| Trips(more, j, config) && at < more[j].end + config.resetMs;
    TripsAppend(started, c, j, config);
    if j < |started| {
      assert more[j] == started[j];
      assert Trips(started, j, config);
    } else {
      assert j == |started| && more[j] == c;
    }
  }

  lemma FailuresAppend(started: seq<Call>, c: Call)
    ensures FailuresAtEnd(started + [c]) == if c.succeeds then 0 else FailuresAtEnd(started) + 1
  {
    assert (started + [c])[..|started|] == started;
  }

  /** One admitted call; everything that was started before ended before it started. */
  lemma CallIsRemembered(s: State, started: seq<Call>, c: Call, config: Config)
    requires Remembers(s, started, config) && 0 <= s.circuitOpenUntil <= c.start <= c.end
    ensures Remembers(After(s, c, config), started + [c], config)
  {
    FailuresAppend(started, c);
    var next := After(s, c, config);
    hide FailuresAtEnd, StillOpen;
    forall at | at >= 0 ensures at < next.circuitOpenUntil <==> StillOpen(started + [c], config, at) {
      StillOpenAppend(started, c, config, at);
      assert at < s.circuitOpenUntil <==> StillOpen(started, config, at);
    }
  }

  lemma NothingRemembered(config: Config)
    ensures Remembers(State(0, 0), [], config)
  {
  }

  /** The state of a breaker that was fresh once says what the fetches it started did, and nothing else. */
  lemma {:induction false} StateRemembers(calls: seq<Call>, config: Config)
    requires OneAtATime(calls) && (forall i :: 0 <= i < |calls| ==> calls[i].start >= 0)
    ensures Remembers(StateAfter(State(0, 0), calls, config), Started(State(0, 0), calls, config), config)
    ensures StateAfter(State(0, 0), calls, config).circuitOpenUntil >= 0
  {
    hide Remembers;
    if calls == [] {
      NothingRemembered(config);
    } else {
      var front, last := calls[..|calls| - 1], calls[|calls| - 1];
      StateRemembers(front, config);
      var s := StateAfter(State(0, 0), front, config);
      if last.start >= s.circuitOpenUntil {
        CallIsRemembered(s, Started(State(0, 0), front, config), last, config);
      }
    }
  }

  /**
    On a breaker that was fresh once, a call is rejected exactly when some fetch started before it was
    at least the threshold-th failure in a row and ended less than a reset time ago. So a circuit that
    opened closes again, and successes count as much as failures.
  */
  lemma RejectsExactly(calls: seq<Call>, config: Config, c: Call)
    requires OneAtATime(calls + [c]) && forall i :: 0 <= i < |calls + [c]| ==> (calls + [c])[i].start >= 0
    ensures var started := Started(State(0, 0), calls, config);
      Started(State(0, 0), calls + [c], config)
      == if StillOpen(started, config, c.start) then started else started + [c]
  {
    var all := calls + [c];
    assert all[|calls|] == c && all[..|calls|] == calls;
    forall i | 0 <= i < |calls| ensures calls[i] == all[i] {}
    hide StillOpen;
    StateRemembers(calls, config);
  }

  /** A call that starts at least a reset time after the end of the last fetch is let through. */
  lemma ClosesAgain(calls: seq<Call>, config: Config, c: Call)
    requires OneAtATime(calls + [c]) && forall i :: 0 <= i < |calls + [c]| ==> (calls + [c])[i].start >= 0
    requires var started := Started(State(0, 0), calls, config);
      started != [] ==> c.start >= started[|started| - 1].end + config.resetMs
    ensures Started(State(0, 0), calls + [c], config) == Started(State(0, 0), calls, config) + [c]
  {
    var started := Started(State(0, 0), calls, config);
    RejectsExactly(calls, config, c);
    if StillOpen(started, config, c.start) {
      var j: nat :| Trips(started, j, config) && c.start < started[j].end + config.resetMs;
      assert calls == (calls + [c])[..|calls|];
      Prefix(calls + [c], |calls|);
      StartedInOrder(calls, config, j);
    }
  }

  /** One more call at the end. */
  lemma OneMoreCall(calls: seq<Call>, c: Call, config: Config)
    ensures var s, started := StateAfter(State(0, 0), calls, config), Started(State(0, 0), calls, config);
      && StateAfter(State(0, 0), calls + [c], config) == After(s, c, config)
      && Started(State(0, 0), calls + [c], config)
      == if c.start >= s.circuitOpenUntil then started + [c] else started
  {
    assert (calls + [c])[..|calls|] == calls && (calls + [c])[|calls|] == c;
  }

  lemma {:induction false} StartedInOrder(calls: seq<Call>, config: Config, j: nat)
    requires OneAtATime(calls) && j < |Started(State(0, 0), calls, config)|
    ensures var started := Started(State(0, 0), calls, config); started[j].end <= started[|started| - 1].end
  {
    assert calls != [];
    hide StateAfter, Started, OneAtATime, After;
    var front, last := calls[..|calls| - 1], calls[|calls| - 1];
    assert calls == front + [last];
    OneMoreCall(front, last, config);
    Prefix(calls, |front|);
    var rest, started := Started(State(0, 0), front, config), Started(State(0, 0), calls, config);
    if started == rest {
      StartedInOrder(front, config, j);
    } else if j < |rest| {
      StartedAreCalls(State(0, 0), front, config);
      EarlierEnds(calls, rest[j]);
      assert started[j] == rest[j];
    }
  }

  lemma EarlierEnds(calls: seq<Call>, c: Call)
    requires OneAtATime(calls) && calls != [] && c in calls[..|calls| - 1]
    ensures c.end <= calls[|calls| - 1].end
  {
    var k :| 0 <= k < |calls| - 1 && calls[..|calls| - 1][k] == c;
    assert calls[k].end <= calls[|calls| - 1].start && calls[|calls| - 1].Valid();
  }

  lemma Prefix(all: seq<Call>, n: nat)
    requires OneAtATime(all) && n <= |all|
    ensures OneAtATime(all[..n])
  {
  }

  lemma LaterStarts(all: seq<Call>, i: nat, j: nat)
    requires OneAtATime(all) && i <= j < |all|
    ensures all[i].start <= all[j].start
  {
    assert all[i].Valid();
  }

  /** A failing fetch that is let through: the circuit opens only at the threshold. */
  lemma FailureCounts(s: State, c: Call, config: Config)
    requires c.start >= s.circuitOpenUntil && !c.succeeds
    ensures var next := After(s, c, config);
      && next.consecutiveFailures == s.consecutiveFailures + 1
      && (next.consecutiveFailures < config.threshold ==> next.circuitOpenUntil == s.circuitOpenUntil)
  {
  }

  /** One more failing fetch below the threshold. */
  lemma ThresholdStep(before: seq<Call>, last: Call, config: Config, base: seq<Call>, front: seq<Call>)
    requires Started(State(0, 0), before, config) == base + front
    requires var s := StateAfter(State(0, 0), before, config);
      s.consecutiveFailures == |front| && s.circuitOpenUntil <= last.start && !last.succeeds
    ensures Started(State(0, 0), before + [last], config) == base + (front + [last])
    ensures var s, next := StateAfter(State(0, 0), before, config), StateAfter(State(0, 0), before + [last], config);
      && next.consecutiveFailures == |front| + 1
      && (|front| + 1 < config.threshold ==> next.circuitOpenUntil == s.circuitOpenUntil)
  {
    hide StateAfter, Started, After;
    OneMoreCall(before, last, config);
    FailureCounts(StateAfter(State(0, 0), before, config), last, config);
    assert base + front + [last] == base + (front + [last]);
  }

  lemma AfterSuccess(calls: seq<Call>, ok: Call, config: Config)
    requires ok.succeeds && ok.start >= StateAfter(State(0, 0), calls, config).circuitOpenUntil
    ensures StateAfter(State(0, 0), calls + [ok], config)
         == StateAfter(State(0, 0), calls, config).(consecutiveFailures := 0)
  {
    hide StateAfter, Started;
    OneMoreCall(calls, ok, config);
  }

  /** After a success the next `threshold` fetches are all let through, even if all of them fail. */
  lemma {:induction false} SuccessGivesThreshold(calls: seq<Call>, ok: Call, fails: seq<Call>, config: Config)
    requires OneAtATime(calls + [ok] + fails) && AllFail(fails) && |fails| <= config.threshold
    requires ok.succeeds && ok.start >= StateAfter(State(0, 0), calls, config).circuitOpenUntil
    ensures Started(State(0, 0), calls + [ok] + fails, config)
         == Started(State(0, 0), calls + [ok], config) + fails
    ensures var s := StateAfter(State(0, 0), calls + [ok] + fails, config);
      && s.consecutiveFailures == |fails|
      && (|fails| < config.threshold ==>
            s.circuitOpenUntil == StateAfter(State(0, 0), calls, config).circuitOpenUntil)
  {
    hide StateAfter, Started, OneAtATime, After;
    var all, base := calls + [ok] + fails, Started(State(0, 0), calls + [ok], config);
    AfterSuccess(calls, ok, config);
    if fails == [] {
      assert all == calls + [ok] && base + fails == base;
    } else {
      var front, last := fails[..|fails| - 1], fails[|fails| - 1];
      var before := calls + [ok] + front;
      assert all == before + [last] && fails == front + [last];
      assert all[|calls|] == ok && all[|all| - 1] == last && all[..|all| - 1] == before;
      Prefix(all, |all| - 1);
      LaterStarts(all, |calls|, |all| - 1);
      SuccessGivesThreshold(calls, ok, front, config);
      ThresholdStep(before, last, config, base, front);
    }
  }
}
