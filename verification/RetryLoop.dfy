/**
  The retry and dead-letter loop of the alert consumer, for the copies of one message. A copy is
  its retry count; the broker keeps it in the alert queue, unacknowledged at the consumer, in the
  retry queue until its delay expires, or in the dead-letter queue.
*/
module RetryLoop {
  import opened Prelude

  datatype Config = Config(maxRetries: nat, baseDelayMs: nat)

  const MAX_DELAY_MS := 300000

  datatype Broker = Broker(
    ready: multiset<nat>,
    held: multiset<nat>,
    delayed: multiset<nat>,
    dead: multiset<nat>,
    done: multiset<nat>,
    handled: nat,
    delays: seq<int>)

  /** How many copies exist, wherever they are. */
  function Copies(b: Broker): nat { |b.ready| + |b.held| + |b.delayed| + |b.dead| + |b.done| }

  function Pow2(n: nat): nat { if n == 0 then 1 else 2 * Pow2(n - 1) }

  function Delay(n: nat, config: Config): int { Min(config.baseDelayMs * Pow2(n), MAX_DELAY_MS) }

  /** How the processing of one delivery ends. */
  datatype Processing = Succeeds | InvalidMessage | Fails

  // ---------------------------------------------------------------- the consumer over its channel

  class Channel {
    var broker: Broker

    method Ack(n: nat)
      requires n in broker.held
      modifies this
      ensures broker == old(broker).(held := old(broker).held - multiset{n}, done := old(broker).done + multiset{n})
    {
      broker := broker.(held := broker.held - multiset{n}, done := broker.done + multiset{n});
    }

    /** Acknowledges a delivery whose successor copy is already in the retry queue. */
    method AckReplaced(n: nat)
      requires n in broker.held
      modifies this
      ensures broker == old(broker).(held := old(broker).held - multiset{n})
    {
      broker := broker.(held := broker.held - multiset{n});
    }

    /** Refuses a delivery without requeueing: the alert queue dead-letters it. */
    method Nack(n: nat)
      requires n in broker.held
      modifies this
      ensures broker == old(broker).(held := old(broker).held - multiset{n}, dead := old(broker).dead + multiset{n})
    {
      broker := broker.(held := broker.held - multiset{n}, dead := broker.dead + multiset{n});
    }

    method SendToRetryQueue(n: nat, expiration: int)
      modifies this
      ensures broker
           == old(broker).(delayed := old(broker).delayed + multiset{n}, delays := old(broker).delays + [expiration])
    {
      broker := broker.(delayed := broker.delayed + multiset{n}, delays := broker.delays + [expiration]);
    }
  }

  /** Whether the process dies while it ends a delivery: before it does anything, or between its two sends. */
  datatype Fate = Lives | DiesAtOnce | DiesAfterPublish

  /**
    Publish with the next count and a doubled delay, then acknowledge; at the limit, dead-letter. When
    the process dies, the broker keeps what was done so far.
  */
  method RetryOrDeadLetter(channel: Channel, currentAttempt: nat, fate: Fate, config: Config) returns (died: bool)
    requires currentAttempt in channel.broker.held
    modifies channel
    ensures died <==> fate == DiesAtOnce || (fate == DiesAfterPublish && currentAttempt < config.maxRetries)
    ensures fate == DiesAtOnce ==> channel.broker == old(channel.broker)
    ensures fate != DiesAtOnce && currentAttempt >= config.maxRetries ==>
      channel.broker == old(channel.broker).(held := old(channel.broker).held - multiset{currentAttempt},
                                             dead := old(channel.broker).dead + multiset{currentAttempt})
    ensures fate == DiesAfterPublish && currentAttempt < config.maxRetries ==>
      channel.broker == old(channel.broker).(
        delayed := old(channel.broker).delayed + multiset{currentAttempt + 1},
        delays := old(channel.broker).delays + [Delay(currentAttempt, config)])
    ensures fate == Lives && currentAttempt < config.maxRetries ==>
      channel.broker == old(channel.broker).(
        held := old(channel.broker).held - multiset{currentAttempt},
        delayed := old(channel.broker).delayed + multiset{currentAttempt + 1},
        delays := old(channel.broker).delays + [Delay(currentAttempt, config)])
  {
    hide Delay;
    if fate == DiesAtOnce { return true; }
    if currentAttempt >= config.maxRetries {
      channel.Nack(currentAttempt);
      return false;
    }
    var retryDelay := Delay(currentAttempt, config);
    channel.SendToRetryQueue(currentAttempt + 1, retryDelay);
    if fate == DiesAfterPublish { return true; }
    channel.AckReplaced(currentAttempt);
    died := false;
  }

  /** The end of one delivery, or the death of the process somewhere in it. */
  method HandleMessage(channel: Channel, attempt: nat, processing: Processing, fate: Fate, config: Config)
    returns (died: bool)
    requires attempt in channel.broker.held
    modifies channel
    ensures died <==>
      fate == DiesAtOnce || (fate == DiesAfterPublish && processing == Fails && attempt < config.maxRetries)
    ensures !died ==> channel.broker == Settle(old(channel.broker), attempt, processing, config)
    ensures !died && processing == Succeeds ==>
      channel.broker == old(channel.broker).(held := old(channel.broker).held - multiset{attempt},
                                             done := old(channel.broker).done + multiset{attempt})
    ensures !died && (processing == InvalidMessage || (processing == Fails && attempt >= config.maxRetries)) ==>
      channel.broker == old(channel.broker).(held := old(channel.broker).held - multiset{attempt},
                                             dead := old(channel.broker).dead + multiset{attempt})
    ensures died ==>
      channel.broker == if fate == DiesAtOnce then old(channel.broker)
                        else Republish(old(channel.broker), attempt, config)
  {
    hide Delay;
    if fate == DiesAtOnce { return true; }
    died := false;
    match processing
    case Succeeds => channel.Ack(attempt);
    case InvalidMessage => channel.Nack(attempt);
    case Fails => died := RetryOrDeadLetter(channel, attempt, fate, config);
  }

  /** The next copy is in the retry queue and the delivery is still unacknowledged. */
  function Republish(b: Broker, n: nat, config: Config): Broker {
    b.(delayed := b.delayed + multiset{n + 1}, delays := b.delays + [Delay(n, config)])
  }

  /** What the end of a delivery does to the broker. */
  function Settle(b: Broker, n: nat, processing: Processing, config: Config): Broker
    requires n in b.held
  {
    var rest := b.(held := b.held - multiset{n});
    match processing
    case Succeeds => rest.(done := b.done + multiset{n})
    case InvalidMessage => rest.(dead := b.dead + multiset{n})
    case Fails =>
      if n >= config.maxRetries then rest.(dead := b.dead + multiset{n})
      else rest.(delayed := b.delayed + multiset{n + 1}, delays := b.delays + [Delay(n, config)])
  }

  // ---------------------------------------------------------------- runs

  datatype Step =
    | Deliver(n: nat)
    | Finish(n: nat, processing: Processing)
    | Expire(n: nat)
    | CrashIdle
    | CrashAfterPublish(n: nat)

  predicate Enabled(b: Broker, s: Step, config: Config) {
    match s
    case Deliver(n) => n in b.ready
    case Finish(n, _) => n in b.held
    case Expire(n) => n in b.delayed
    case CrashIdle => true
    case CrashAfterPublish(n) => n in b.held && n < config.maxRetries
  }

  /** A lost connection returns every unacknowledged copy to the alert queue. */
  function Disconnect(b: Broker): Broker { b.(ready := b.ready + b.held, held := multiset{}) }

  /** One step; a crash leaves the broker as the consumer's method left it, and then disconnects. */
  function Apply(b: Broker, s: Step, config: Config): Broker
    requires Enabled(b, s, config)
  {
    match s
    case Deliver(n) =>
      b.(ready := b.ready - multiset{n}, held := b.held + multiset{n}, handled := b.handled + 1)
    case Finish(n, processing) => Settle(b, n, processing, config)
    case Expire(n) => b.(delayed := b.delayed - multiset{n}, ready := b.ready + multiset{n})
    case CrashIdle => Disconnect(b)
    case CrashAfterPublish(n) => Disconnect(Republish(b, n, config))
  }

  function Published(start: nat): Broker {
    Broker(multiset{start}, multiset{}, multiset{}, multiset{}, multiset{}, 0, [])
  }

  ghost predicate IsRun(states: seq<Broker>, steps: seq<Step>, start: nat, config: Config) {
    && |states| == |steps| + 1 && states[0] == Published(start)
    && forall i :: 0 <= i < |steps| ==>
         Enabled(states[i], steps[i], config) && states[i + 1] == Apply(states[i], steps[i], config)
  }

  predicate NoCrash(steps: seq<Step>) {
    forall i :: 0 <= i < |steps| ==> !steps[i].CrashIdle? && !steps[i].CrashAfterPublish?
  }

  // ---------------------------------------------------------------- never lost

  lemma SettleKeepsCopies(b: Broker, n: nat, processing: Processing, config: Config)
    requires n in b.held
    ensures Copies(Settle(b, n, processing, config)) == Copies(b)
  {
    hide Delay;
  }

  lemma CopiesNeverVanish(b: Broker, s: Step, config: Config)
    requires Enabled(b, s, config)
    ensures Copies(Apply(b, s, config)) >= Copies(b)
    ensures !s.CrashAfterPublish? ==> Copies(Apply(b, s, config)) == Copies(b)
  {
    hide Delay, Settle;
    if s.Finish? { SettleKeepsCopies(b, s.n, s.processing, config); }
  }

  /** Crashes included, the message is always somewhere: queued, held, delayed, dead-lettered or done. */
  lemma {:induction false} NeverLost(states: seq<Broker>, steps: seq<Step>, start: nat, config: Config, i: nat)
    requires IsRun(states, steps, start, config) && i <= |steps|
    ensures Copies(states[i]) >= 1
  {
    if i > 0 {
      NeverLost(states, steps, start, config, i - 1);
      assert Enabled(states[i - 1], steps[i - 1], config);
      CopiesNeverVanish(states[i - 1], steps[i - 1], config);
      assert states[i] == Apply(states[i - 1], steps[i - 1], config);
    }
  }

  // ---------------------------------------------------------------- without crashes

  datatype Place = InQueue | AtConsumer | InRetryQueue | InDeadLetterQueue | Acknowledged

  /** The only copy is in one place with retry count n. */
  predicate OnlyCopy(b: Broker, place: Place, n: nat) {
    && b.ready == (if place == InQueue then multiset{n} else multiset{})
    && b.held == (if place == AtConsumer then multiset{n} else multiset{})
    && b.delayed == (if place == InRetryQueue then multiset{n} else multiset{})
    && b.dead == (if place == InDeadLetterQueue then multiset{n} else multiset{})
    && b.done == (if place == Acknowledged then multiset{n} else multiset{})
  }

  function DelaysFrom(start: nat, n: nat, config: Config): seq<int>
    requires start <= n
  {
    if n == start then [] else DelaysFrom(start, n - 1, config) + [Delay(n - 1, config)]
  }

  /** Everything about a crash-free message that has been retried up to count n. */
  predicate Tracked(b: Broker, place: Place, n: nat, start: nat, config: Config) {
    && OnlyCopy(b, place, n)
    && start <= n <= Max(start, config.maxRetries)
    && b.handled == n - start + (if place in {InQueue, InRetryQueue} then 0 else 1)
    && b.delays == DelaysFrom(start, n, config)
  }

  lemma MoveIsTracked(b: Broker, s: Step, place: Place, n: nat, start: nat, config: Config) returns (to: Place)
    requires Tracked(b, place, n, start, config) && Enabled(b, s, config) && (s.Deliver? || s.Expire?)
    ensures Tracked(Apply(b, s, config), to, n, start, config)
  {
    hide DelaysFrom;
    to := if s.Deliver? then AtConsumer else InQueue;
    assert s.n == n;
  }

  lemma RetryIsTracked(b: Broker, n: nat, start: nat, config: Config)
    requires Tracked(b, AtConsumer, n, start, config) && n < config.maxRetries
    ensures Tracked(Settle(b, n, Fails, config), InRetryQueue, n + 1, start, config)
  {
    hide Delay;
  }

  lemma EndIsTracked(b: Broker, n: nat, processing: Processing, start: nat, config: Config)
    requires Tracked(b, AtConsumer, n, start, config) && (processing == Fails ==> n >= config.maxRetries)
    ensures Tracked(Settle(b, n, processing, config),
                    if processing == Succeeds then Acknowledged else InDeadLetterQueue,
                    n, start, config)
  {
    hide Delay, DelaysFrom;
  }

  lemma FinishIsTracked(b: Broker, k: nat, processing: Processing, place: Place, n: nat, start: nat, config: Config)
    returns (to: Place, m: nat)
    requires Tracked(b, place, n, start, config) && k in b.held
    ensures Tracked(Settle(b, k, processing, config), to, m, start, config)
  {
    hide Settle, DelaysFrom;
    assert place == AtConsumer && k == n;
    hide Tracked, OnlyCopy;
    to, m := if processing == Succeeds then Acknowledged else InDeadLetterQueue, n;
    if processing == Fails && n < config.maxRetries {
      to, m := InRetryQueue, n + 1;
      RetryIsTracked(b, n, start, config);
    } else {
      EndIsTracked(b, n, processing, start, config);
    }
  }

  lemma StepIsTracked(b: Broker, s: Step, place: Place, n: nat, start: nat, config: Config) returns (to: Place, m: nat)
    requires Tracked(b, place, n, start, config) && Enabled(b, s, config)
    requires !s.CrashIdle? && !s.CrashAfterPublish?
    ensures Tracked(Apply(b, s, config), to, m, start, config)
  {
    hide Tracked, Settle;
    if s.Finish? {
      to, m := FinishIsTracked(b, s.n, s.processing, place, n, start, config);
    } else {
      to := MoveIsTracked(b, s, place, n, start, config);
      m := n;
    }
  }

  lemma {:induction false} RunIsTracked(states: seq<Broker>, steps: seq<Step>, start: nat, config: Config, i: nat)
    returns (place: Place, n: nat)
    requires IsRun(states, steps, start, config) && NoCrash(steps) && i <= |steps|
    ensures Tracked(states[i], place, n, start, config)
  {
    if i == 0 {
      place, n := InQueue, start;
    } else {
      var before, k := RunIsTracked(states, steps, start, config, i - 1);
      hide Tracked, Apply;
      assert Enabled(states[i - 1], steps[i - 1], config);
      place, n := StepIsTracked(states[i - 1], steps[i - 1], before, k, start, config);
      assert states[i] == Apply(states[i - 1], steps[i - 1], config);
    }
  }

  /**
    Without crashes, at every moment the message is in exactly one place. Published without a
    retry header it is handled at most maxRetries + 1 times, with delays that are exactly
    min(base * 2^k, 300000) for k = 0, 1, 2, ...; so the first is the base delay and each is twice the
    one before, up to five minutes.
  */
  lemma BoundedRetries(states: seq<Broker>, steps: seq<Step>, config: Config, i: nat)
    returns (place: Place, n: nat)
    requires IsRun(states, steps, 0, config) && NoCrash(steps) && i <= |steps|
    ensures OnlyCopy(states[i], place, n) && Copies(states[i]) == 1
    ensures states[i].handled <= config.maxRetries + 1
    ensures |states[i].delays| == n <= config.maxRetries
    ensures forall k :: 0 <= k < n ==> states[i].delays[k] == Min(config.baseDelayMs * Pow2(k), 300000)
    ensures n > 0 ==> states[i].delays[0] == Min(config.baseDelayMs, 300000)
    ensures forall k :: 0 < k < n ==> states[i].delays[k] == Min(2 * states[i].delays[k - 1], 300000)
  {
    place, n := RunIsTracked(states, steps, 0, config, i);
    DelaysAre(0, n, config);
    hide IsRun, DelaysFrom, OnlyCopy;
    forall k | 0 < k < n ensures states[i].delays[k] == Min(2 * states[i].delays[k - 1], 300000) {
      DelayDoubles(k - 1, config);
      assert states[i].delays[k - 1] == Delay(k - 1, config);
    }
  }

  lemma DelayDoubles(n: nat, config: Config)
    ensures Delay(n + 1, config) == Min(2 * Delay(n, config), 300000)
  {
    var base, p := config.baseDelayMs, Pow2(n);
    assert base * Pow2(n + 1) == 2 * (base * p);
  }

  /**
    A message without a retry header reaches the dead-letter queue only as invalid or after
    maxRetries + 1 failed deliveries: a failure before that always reschedules it.
  */
  lemma ExhaustedOnlyAtTheLimit(states: seq<Broker>, steps: seq<Step>, config: Config, i: nat)
    requires IsRun(states, steps, 0, config) && NoCrash(steps) && i < |steps|
    requires steps[i].Finish? && steps[i].processing == Fails
    ensures states[i + 1].dead != multiset{} <==> states[i].handled == config.maxRetries + 1
  {
    var place, n := RunIsTracked(states, steps, 0, config, i);
    assert Enabled(states[i], steps[i], config);
    assert states[i + 1] == Apply(states[i], steps[i], config);
    hide Delay, DelaysFrom;
    assert steps[i].n == n;
    if n >= config.maxRetries { assert n in states[i + 1].dead; }
  }

  lemma {:induction false} DelaysAre(start: nat, n: nat, config: Config)
    requires start <= n
    ensures |DelaysFrom(start, n, config)| == n - start
    ensures forall k :: 0 <= k < n - start ==> DelaysFrom(start, n, config)[k] == Delay(start + k, config)
  {
    hide Delay;
    if n > start { DelaysAre(start, n - 1, config); }
  }

  /** Delays never shrink and never exceed five minutes. */
  lemma {:induction false} DelaysNeverShrink(n: nat, m: nat, config: Config)
    requires n <= m
    ensures Delay(n, config) <= Delay(m, config) <= MAX_DELAY_MS
  {
    if n < m {
      DelaysNeverShrink(n, m - 1, config);
      Doubling(config.baseDelayMs, Pow2(m - 1));
    }
  }

  lemma Doubling(base: nat, p: nat)
    ensures base * p <= base * (2 * p)
  {
    assert base * (2 * p) == base * p + base * p;
  }
}
