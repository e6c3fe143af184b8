# Verified model of the incident service

A Dafny model of the decision-making parts of a network incident service: alerts come in over HTTP,
a message broker and a pulled outbox; they are stored, correlated and linked to incidents; operators
move incidents through a state machine; customer impact is refreshed from an upstream system; and
outages are turned into service level and statistics figures.

`dafny verify dfyconfig.toml` verifies the whole project.

## How it is built

| module | what it models |
|---|---|
| `Prelude`, `Arithmetic`, `Records` | optional values; products, quotients and sizes; the database rows as far as the modelled services read or write them |
| `Calendar`, `Text` | UTC calendar years; decimal numbers, incident codes, `board/pon` identifiers |
| `Intervals` | outage intervals and the merge loop that SLA and statistics share, on values and on mutable records |
| `Sla`, `Statistics` | clipping, downtime, availability, MTTR, MTBF, query filters; the second, separately written pipeline |
| `Alerts`, `Correlation` | the stored alert; correlation keys, query scope, window, rules, decision |
| `Lifecycle` | the incident state machine and what a status change writes |
| `IncidentEngine` | every transaction as a function on an image of the tables, and runs of such transactions |
| `EngineInvariants`, `Numbering`, `Folding`, `Separation`, `EngineRuns`, `History`, `Reopening` | what every run keeps, and what reopening an incident breaks |
| `StatusTimes` | the status, the recorded times and the counters of an incident, computed from the steps of a run alone |
| `IncidentStore` | the same transactions as methods that update the tables row by row, proved equal to the functions |
| `Delivery` | many attempts for the same events, interleaved, with separately committed steps |
| `Puller` | the cursor puller as an object over the store, with a crash or a failure possible at every await unless all is `healthy` |
| `RetryLoop`, `CircuitBreaker` | retry and dead-letter queues; the breaker of the upstream adapter |
| `Impact` | the affected/restored record of each customer |
| `Csv` | the dashboard's CSV writer, and a reader for section 2 of RFC 4180 |

The service works by transactions that update rows. The specification of each one is a function on the
tables; the class `IncidentStore.Store` performs it step by step and is proved equal to it; and the
run-wide theorems are about the functions. Time is an integer number of milliseconds, and minutes and
percentages are exact reals, rounded only where the service rounds. Queries of the form "first by date"
leave ties open, so the row they return is a parameter constrained by a predicate, and every theorem
holds for every choice.

The main results: the merge computes the unique canonical form of a set of milliseconds; every published
figure is the nearest hundredth of a quotient of numbers of milliseconds, and downtime splits additively; the
two outage pipelines agree; over every run an alert takes effect once, codes are dense and unique, an incident
is a fold of its decisions, its status, times and counters are those that its steps wrote, open incidents are
spread out, all admitted alerts of an incident are about one PON, and the timeline is complete; the puller
skips no event, refreshes the impact of each one's incident before it moves on, dispatches for none twice and
drains its source, and across restores loses exactly the events it cannot see; a message is never lost and
retried a bounded number of times; a failing upstream is called a bounded number of times, and a call is
rejected exactly within a reset time of the fetch that tripped the circuit; a customer's record has a closed
form; and the CSV download reads back.

## What turned out false of the code

Each of these has an exact condition and a witness.

- The repository's README promises that a customer's SLA uses the real affected/restored intervals. The
  customer query also filters on the incident's own dates, so intervals are lost: exactly those whose
  incident was resolved at or before the period's start or detected at or after its end
  (`Sla.CustomerQueryLosesExactly`, `Sla.CustomerOutageCanBeLost`).
- A restored source is not always noticed: exactly when an empty page reports a latest cursor below the
  stored one. An event is lost exactly when the source reaches a stored cursor with an unhandled row up to
  there, by being restored or by growing (`Puller.ResetIsSeenExactly`, `Puller.RestoreBreaksExactly`,
  `Puller.AppendBreaksExactly`, `Puller.ResetCanBeMissed`).
- Reopening a resolved incident can put two open incidents with one key into the same window, exactly
  when a neighbour is open (`Separation.ApplyKeepsOpenSpreadExactly`, `Reopening.AllOpenAreSpread`,
  `Reopening.ReopeningCanBreakSpread`).
- A reopened incident keeps its resolution time, so the SLA counts it as recovered while it is open:
  exactly the open incidents that were reopened (`Reopening.OpenOutageExactly`,
  `Reopening.ReopenedCountsAsRecovered`).
- A notification can be lost: at most one is dispatched per event, and it is lost for good exactly when
  the attempt that linked the event stops before it finishes (`Delivery.NotifiedExactly`,
  `Delivery.LossIsFinalExactly`, `Delivery.NotificationCanBeLost`).
- A customer's restoration time can move back or vanish when two refreshes overlap, because each reads the
  rows before its transaction: over any interleaving, exactly when a write does not keep it by what its
  refresh had read (`Impact.RestorationSurvivesExactly`, `Impact.OverlapReplacesRestoration`).
- The seeded rule for ten distinct ONUs is dead, like every rule that asks for at least one: the channels
  admit no event that counts an ONU (`History.OnuRulesAreDead`). A smaller minimum is always reached.
- The formula guard of the CSV writer makes two different texts equal, exactly a formula-like one and the
  same with an apostrophe in front (`Csv.GuardConfusesExactly`, `Csv.GuardIsNotInjective`).
- The overview's average recovery time and the SLA's mean time to recovery are taken over different
  incidents. `Statistics.SameIncidentsAveraged` says exactly when they are the same ones, and then the
  figures are equal (`Statistics.RecoveryAveragesAgree`); `Statistics.LateResolutionDiffers` and
  `Statistics.EarlyDetectionDiffers` show both ways in which they differ.

A recovery alert that was analysed without an open incident could never be processed again
(`EngineRuns.AbortsExactly`). No channel can store such an alert today, because the contract admits no
recovery type, and so nothing ever aborts (`History.AdmittedRunsNeverAbort`).

## Model

| member | source | states |
|---|---|---|
| `Intervals.SortByStart` | src/sla/sla.service.ts:276-278 | the sort at the head of the merge returns the same records, each as often, in ascending order of start |
| `Intervals.AbsorbRecord` | src/sla/sla.service.ts:280-287 | one turn of the loop on records: it pushes a fresh copy or overwrites the end of the last merged record, and nothing else changes |
| `Intervals.MergeRecords` | src/sla/sla.service.ts:279-288 | the loop over the sorted records builds fresh records only, equal to the merge on values |
| `Intervals.MergeIntervals` | src/sla/sla.service.ts:275-289 | the merge returns fresh records in canonical form that cover the same milliseconds, and no record of the caller changes |
| `Intervals.CoveredMeaning` | src/sla/sla.service.ts:275-289 | a millisecond is covered exactly when some interval contains it |
| `Intervals.AbsorbKeepsCanonical` | src/sla/sla.service.ts:280-287 | one turn keeps the list sorted with gaps between neighbours and adds exactly the milliseconds of the new interval |
| `Intervals.MergedIsCanonical` | src/sla/sla.service.ts:275-289 | for any non-empty intervals in any order the merge is sorted, strictly separated, and covers the same milliseconds |
| `Intervals.CanonicalFormIsUnique` | src/sla/sla.service.ts:275-289 | two canonical lists that cover the same milliseconds are equal |
| `Intervals.MergeDependsOnCoverageOnly` | src/statistics/statistics.service.ts:308-324 | two outage lists merge to the same list if and only if they cover the same milliseconds, whatever their order and multiplicity |
| `Intervals.MergeIsIdempotent` | src/sla/sla.service.ts:275-289 | merging twice is merging once, and a canonical list is left as it is |
| `Intervals.AnyOrderMergesAlike` | src/sla/sla.service.ts:276-278 | however the sort orders equal starts, the loop arrives at the same list |
| `Intervals.CanonicalMeasure` | src/statistics/statistics.service.ts:326-332 | for separated intervals the summed lengths are the number of covered milliseconds |
| `Intervals.MergedMeasure` | src/sla/sla.service.ts:186-193 | the merged total counts each covered millisecond once |
| `Sla.ResolvePeriod` | src/sla/sla.service.ts:100-120 | the period is non-empty and ends no later than now or the requested end; it is refused exactly for a malformed date or a start at or after the effective end; the default is thirty days |
| `Sla.ClipMeaning` | src/sla/sla.service.ts:246-260 | clipping keeps exactly the milliseconds of the period in which the outage is in progress, an unresolved one included |
| `Sla.IncidentIntervalsMeaning` | src/sla/sla.service.ts:246-260 | the clipped incidents cover exactly the milliseconds of the period in which some incident is in progress |
| `Sla.CustomerIntervalsMeaning` | src/sla/sla.service.ts:262-273 | the clipped customer records cover exactly the milliseconds of the period in which some record is an outage |
| `Sla.DowntimeCountsMilliseconds` | src/sla/sla.service.ts:186-206 | downtime is the number of covered milliseconds in minutes, so the clamp to the period never changes it |
| `Sla.CalculationIsSound` | src/sla/sla.service.ts:179-227 | the clamp never changes the downtime, which is that of the covered milliseconds, and availability lies in [0, 100] even after rounding |
| `Sla.FiguresAreOfCoverage` | src/sla/sla.service.ts:179-227 | every figure from the milliseconds alone: the length of the period, the covered part, the percentage of it that is not covered, and the uncovered part per incident, each to the nearest hundredth; MTBF is missing exactly without incidents |
| `Sla.RoundIsNearest` | src/sla/sla.service.ts:291-293 | a figure is a whole number of hundredths, the nearest to the exact value, and the upper one of two |
| `Sla.MeansAreSound` | src/sla/sla.service.ts:194-226 | MTTR is missing exactly when nothing was resolved in the period and is at most the period; MTBF times the count plus the downtime is the whole period before rounding |
| `Sla.MeanRecoveryIsExact` | src/sla/sla.service.ts:194-205 | MTTR is the nearest hundredth of the mean, over the incidents resolved in the period, of the part of each that lies in the period, and missing exactly when there are none |
| `Sla.MeanRecoveryBound` | src/sla/sla.service.ts:194-205 | the mean time to recovery lies between 0 and the length of the period, also after rounding |
| `Sla.AnotherOutageNeverHelps` | src/sla/sla.service.ts:179-227 | one more outage never raises the published availability and never lowers the published downtime |
| `Sla.DowntimeSplits` | src/sla/sla.service.ts:246-260 | cutting a period at any interior instant splits its unrounded downtime additively, unresolved incidents included |
| `Sla.PrefilterDropsOnlyEmptyIntervals` | src/sla/sla.service.ts:126-139 | an incident contributes an interval exactly when the query selects it and it was not resolved as soon as it started |
| `Sla.PrefilterKeepsDowntime` | src/sla/sla.service.ts:122-139 | the date filter of the incident query never changes the intervals or the downtime |
| `Sla.CustomerQueryLosesExactly` | src/sla/sla.service.ts:152-165 | a record with outage time in the period is lost by the customer query exactly when its incident was detected at or after the end or resolved at or before the start |
| `Sla.CustomerOutageCanBeLost` | src/sla/sla.service.ts:156-162 | such a record: the customer is down throughout the period and is not selected |
| `Statistics.GroupCustomers` | src/statistics/statistics.service.ts:251-283 | the groups are exactly the keys that occur, in order of first appearance, and each summarises exactly the records of its key |
| `Statistics.GroupingStep` | src/statistics/statistics.service.ts:256-281 | adding one record to the map keeps every group the summary of its records |
| `Statistics.GroupSays` | src/statistics/statistics.service.ts:256-281 | a group exists for a key exactly if some record has it as its customer code, or as its external id without a code; it has the incidents of those records, whether one is offline, the name of the first, and the milliseconds in which one was affected |
| `Statistics.AddRecord` | src/statistics/statistics.service.ts:265-279 | one record enters its aggregate, its outage clipped to the period by the code of this service |
| `Statistics.MergeOwnIntervals` | src/statistics/statistics.service.ts:308-324 | the second merge computes the same canonical list |
| `Statistics.SumOwnMinutes` | src/statistics/statistics.service.ts:326-332 | the second sum is the total of the interval lengths in minutes |
| `Statistics.Accumulate` | src/statistics/statistics.service.ts:143-150 | the accumulated total is the sum over the groups of their merged downtime |
| `Statistics.AccumulatedIsExact` | src/statistics/statistics.service.ts:143-150 | the accumulated downtime is the number of milliseconds that each group was affected, summed over the groups |
| `Statistics.PipelinesAgree` | src/statistics/statistics.service.ts:106-154 | for one customer code both services publish the same figures: one group, and the same rounded downtime and number of incidents |
| `Statistics.UniqueIncidentsAreDistinct` | src/sla/sla.service.ts:166-170 | the incidents behind the customer records are listed once each and none is missing |
| `Statistics.AccumulatedAtLeastMerged` | src/statistics/statistics.service.ts:143-150 | however the records are grouped, accumulated downtime is at least the merged downtime of all of them |
| `Statistics.SameIncidentsAveraged` | src/statistics/statistics.service.ts:160-173 | the two services average the same incidents of a table exactly when every resolved one detected in the period was detected before its end and resolved inside it, and none detected earlier was resolved inside it |
| `Statistics.RecoveryAveragesAgree` | src/statistics/statistics.service.ts:285-306 | in that case the overview's average recovery over its own query is the SLA's MTTR over its own |
| `Statistics.OverviewIsExact` | src/statistics/statistics.service.ts:285-306 | the overview average is the nearest hundredth of the mean, over the incidents detected in the period and resolved, of the part of each in the period, and missing exactly when there are none |
| `Statistics.LateResolutionDiffers` | src/statistics/statistics.service.ts:285-306 | an incident resolved after the period counts for the overview only |
| `Statistics.EarlyDetectionDiffers` | src/statistics/statistics.service.ts:165-170 | an incident detected before the period and resolved in it counts for the SLA only |
| `Calendar.YearOf` | src/incidents/incident-engine.service.ts:145-152 | the UTC year of an instant is the one between whose first days it lies |
| `Calendar.YearLength` | src/incidents/incident-engine.service.ts:145-152 | years follow each other without a gap, with the leap years of the Gregorian calendar |
| `Calendar.YearIsExact` | src/incidents/incident-engine.service.ts:145-152 | an instant belongs to one year only, the one whose first day it has reached and not the next |
| `Text.DecimalRoundTrip` | src/incidents/incident-engine.service.ts:152 | a printed number reads back as the same number |
| `Text.PaddingKeepsValue` | src/incidents/incident-engine.service.ts:152 | padding with zeros never changes the value |
| `Text.IncidentCodeIsInjective` | src/incidents/incident-engine.service.ts:152 | two incident codes are equal exactly when year and number are, also beyond six digits |
| `Text.CodeSays` | src/incidents/incident-engine.service.ts:152 | a code holds the year and the number in decimal, the number with leading zeros up to six digits and never cut |
| `Text.PonIdentifierRoundTrip` | src/alerts/alerts.service.ts:34 | splitting a printed board/pon identifier returns both parts as digits, and they read back as the same numbers |
| `Text.PonIdentifierIsInjective` | src/alerts/alerts.service.ts:34 | two identifiers are equal exactly when board and PON are |
| `Text.ParseAcceptsExactly` | src/integrations/zasmaolt/http-zasmaolt.adapter.ts:37-43 | exactly the texts accepted as identifiers: two digit runs around a slash, optionally followed by a slash and anything |
| `Alerts.AdmittedIsNotRecovery` | src/alerts/constants/network-event-types.ts:1-5 | which event types the contract admits, which are recoveries, and that none is both |
| `Alerts.IngestLosesNothing` | src/alerts/alerts.service.ts:23-43 | the event can be read back from the stored alert, whatever happened to its status |
| `Correlation.KeysEqualExactlyOnSamePon` | src/correlation/correlation-engine.service.ts:163-170 | two ingested alerts share a key exactly when OLT, board and PON agree, also when OLT ids contain colons |
| `Correlation.KeysOfOneKind` | src/correlation/correlation-engine.service.ts:163-170 | the keys of OLT alerts, and of uplink alerts, are equal exactly for equal OLTs; those about ONUs exactly when OLT, colon and serial make the same text; those of other alerts never |
| `Correlation.ScopeIsKeyClass` | src/correlation/correlation-engine.service.ts:172-193 | the query scope of an admitted alert is exactly the set of alerts with its key |
| `Correlation.KeyTellsKind` | src/correlation/correlation-engine.service.ts:163-170 | the prefix of a key tells the kind of its alert, whatever the ids contain |
| `Correlation.ScopeFollowsKind` | src/correlation/correlation-engine.service.ts:163-193 | the query scope, chosen by the prefix of the key, is the one of the alert's kind: its OLT, its PON, its ONU, or the alert alone |
| `Correlation.WindowMeaning` | src/correlation/correlation-engine.service.ts:57-72 | the window selects exactly the rows about the same OLT, PON or ONU, by the kind of the alert, recent enough and of none of the five recovery types, each as often as it is stored |
| `Correlation.AdmittedWindow` | src/correlation/correlation-engine.service.ts:57-72 | for admitted alerts: a stored alert is counted exactly when it is about the same PON and not older than the window, however much newer |
| `Correlation.OwnAlertIsInWindow` | src/correlation/correlation-engine.service.ts:57-73 | an alert counts itself, so the event count is the size of the window |
| `Correlation.CountsMeaning` | src/correlation/correlation-engine.service.ts:73-117 | the counts of a decision are the number of alerts but at least one, the size of the set of ONUs some alert reports offline, and the largest reported number of offline customers |
| `Correlation.PatternMeaning` | src/correlation/correlation-engine.service.ts:215-220 | a pattern matches everything, itself, or whatever lies under its stem, and nothing else |
| `Correlation.SeverityIsMaximum` | src/correlation/correlation-engine.service.ts:100-106 | the decision's severity is attained by the alert or a matching rule and exceeded by none |
| `Correlation.SeveritiesAscend` | src/correlation/correlation-engine.service.ts:33-46 | the six severities in ascending order, and the comparison is that order |
| `Correlation.NameOrder` | src/correlation/correlation-engine.service.ts:86-89 | names are ordered by their first difference, a prefix before the longer name |
| `Correlation.CauseIsOfLeastRule` | src/correlation/correlation-engine.service.ts:86-117 | type, root cause and confidence are those of the least matching rule in (priority, name) order that names a cause, or unknown with confidence zero |
| `Correlation.DecisionIsOrderFree` | src/correlation/correlation-engine.service.ts:86-117 | given the enabled rules in any order: the matched rule is the one least matching rule that names a cause, the cause is its cause, and the severity is the same |
| `Correlation.SeverityIsOrderFree` | src/correlation/correlation-engine.service.ts:100-106 | the severity does not depend on the order of the rules at all |
| `Correlation.RuleFallingShortIsInert` | src/correlation/correlation-engine.service.ts:195-213 | a rule whose pattern does not match or one of whose minima is not reached changes no decision, wherever it stands; every other one bounds the severity from below |
| `Correlation.OnuRuleIsInert` | src/correlation/correlation-engine.service.ts:74-79 | over admitted alerts no ONU is counted, and a rule that asks for one changes no decision |
| `Correlation.CountsAreMonotone` | src/correlation/correlation-engine.service.ts:73-85 | more alerts never lower a count |
| `Correlation.MoreAlertsNeverLowerADecision` | src/correlation/correlation-engine.service.ts:73-106 | more alerts in the window never lower the severity and only move the matched rule earlier |
| `Lifecycle.OneAction` | src/incidents/incident-state-machine.ts:4-13 | one action moves to the next stage, between the working statuses, from resolved back to work, or out of triage as a false positive, and never anything else |
| `Lifecycle.ReachableExactly` | src/incidents/incident-state-machine.ts:4-28 | exactly which statuses sequences of operator actions can reach from which |
| `Lifecycle.StagesAreNotSkipped` | src/incidents/incident-state-machine.ts:4-28 | on the way to a later stage an incident passes through every stage in between |
| `Lifecycle.ChangeStatusIsLater` | src/incidents/incidents.service.ts:133-160 | a status change keeps identity and origin, never reopens a closed incident, and never changes an acknowledgement time |
| `Lifecycle.ChangeStatusIsConsistent` | src/incidents/incidents.service.ts:133-160 | after a status change the recorded times still fit the status, and none of them lies after the clock; which step wrote them is said by `StatusTimes.TimesAreOfTheirSteps` |
| `Lifecycle.LaterIsTransitive` | src/incidents/incidents.service.ts:126-175 | what an incident may become by several changes is again what it may become |
| `EngineInvariants.ApplyKeepsTables` | prisma/schema.prisma:445 | every transaction keeps rows referring to rows, the unique columns unique, and links and results together |
| `EngineInvariants.ProcessKeepsTables` | src/incidents/incident-engine.service.ts:60-178 | processing an alert keeps one link and one result per alert, and for non-recoveries the one exactly when the other |
| `EngineInvariants.IngestKeepsTables` | src/alerts/alerts.service.ts:21-57 | ingesting keeps one row per event id |
| `Numbering.ApplyKeepsNumbering` | src/incidents/incident-engine.service.ts:145-152 | after every transaction the k-th incident of a year carries number k, and the sequence holds the count |
| `Numbering.CodesAreUnique` | src/incidents/incident-engine.service.ts:145-152 | no two incidents share a code |
| `Numbering.NextCodeIsFree` | src/incidents/incident-engine.service.ts:145-152 | the next code is always unused, so its unique index never aborts a creation |
| `Numbering.NumbersAreDense` | src/incidents/incident-engine.service.ts:145-152 | the numbers issued for a year are exactly 1 to nextNumber |
| `Folding.FoldIsMaximum` | src/incidents/incident-engine.service.ts:218-260 | severity and confidence are maxima over the decisions, and type and root cause come from the earliest decision that attains the confidence |
| `Folding.ApplyKeepsFold` | src/incidents/incident-engine.service.ts:145-178 | every transaction keeps every incident the fold of its linked non-recovery decisions, title and key included |
| `Folding.UnmatchedDecisionKeepsCause` | src/incidents/incident-engine.service.ts:218-260 | a decision without a matched rule changes at most the severity of an incident |
| `Separation.ApplyKeepsSpread` | src/incidents/incident-engine.service.ts:96-168 | every transaction keeps never-resolved open incidents with one key more than a window apart |
| `Separation.CreateKeepsSpread` | src/incidents/incident-engine.service.ts:106-168 | an incident is created only when no open one with its key reaches into its window |
| `Separation.ReopenKeepsSpreadExactly` | src/incidents/incidents.service.ts:133-160 | reopening keeps all open incidents spread exactly when no open one with its key lies within the window of it |
| `Separation.ApplyKeepsOpenSpreadExactly` | src/incidents/incidents.service.ts:126-175 | every step keeps all open incidents with one key more than a window apart, except exactly a reopening with an open neighbour |
| `Separation.OnlyReopeningResolves` | src/incidents/incidents.service.ts:133-160 | only a reopening of the incident itself makes it open and yet resolved |
| `Separation.FewInASpan` | src/incidents/incident-engine.service.ts:106-127 | at most span / window + 1 incidents that are pairwise apart were detected in any span |
| `EngineRuns.ApplyKeepsInv` | src/incidents/incident-engine.service.ts:60-301 | every step keeps all engine invariants together and lets rows only grow |
| `EngineRuns.RunKeepsInv` | src/incidents/incident-engine.service.ts:60-301 | every state of every run from an empty database satisfies them |
| `EngineRuns.RunGrows` | src/incidents/incident-engine.service.ts:60-301 | between any two moments of a run no incident or link disappears, and incidents become only what they may become |
| `EngineRuns.StatusHistory` | src/incidents/incidents.service.ts:126-175 | CLOSED and FALSE_POSITIVE are absorbing, an acknowledgement time is set once, an incident that was worked on never becomes a false positive, and severity never falls |
| `EngineRuns.RecordedTimes` | src/incidents/incidents.service.ts:133-160 | at every moment of every run the recorded times and the duration fit the status and each other; `StatusTimes.TimesAreOfTheirSteps` says which steps they come from |
| `StatusTimes.ApplyWrites` | src/incidents/incidents.service.ts:126-175 | what each step makes of the status and the times of an incident: a change to RESOLVED writes now to resolvedAt, one to CLOSED to closedAt, the first to INVESTIGATING to acknowledgedAt, the first two also the elapsed seconds, a recovery MONITORING, and nothing else anything |
| `StatusTimes.TimesAreOfTheirSteps` | src/incidents/incidents.service.ts:133-160 | at every moment of every run, computed from the steps alone: the status is that of the last change or recovery, resolvedAt the time of the last change to RESOLVED, closedAt of that to CLOSED, acknowledgedAt of the first to INVESTIGATING, and the duration the whole seconds from the start to the last of the first two |
| `StatusTimes.CountersAreOfLastRefresh` | src/impact/impact-engine.service.ts:72-83 | at every moment of every run the counters of an incident are those of its last impact refresh, or before one those that the metrics of the alert gave that it was created from |
| `EngineRuns.IncidentIsFold` | src/incidents/incident-engine.service.ts:218-260 | at every moment of every run an incident is the fold of its decisions, and its title renders its location and current type |
| `EngineRuns.OpenIncidentsAreSpread` | src/incidents/incident-engine.service.ts:96-168 | at every moment of every run never-resolved open incidents with one key are more than a window apart, so at most span / window + 1 lie in a span |
| `Reopening.AllOpenAreSpread` | src/incidents/incident-engine.service.ts:96-168 | all open incidents with one key are spread out at every moment up to some point exactly when no reopening before it had an open neighbour |
| `Reopening.ReopeningCanBreakSpread` | src/incidents/incident-state-machine.ts:10 | a run to such a reopening: report, resolve, report again, reopen |
| `Reopening.OpenOutageExactly` | src/sla/sla.service.ts:246-260 | at every moment of every run an open incident is an outage in progress for the SLA exactly when it was never reopened |
| `Reopening.ReopenedCountsAsRecovered` | src/incidents/incidents.service.ts:155-156 | a run after which an incident is open and no outage for the SLA |
| `EngineRuns.CodesAreDenseAndUnique` | src/incidents/incident-engine.service.ts:145-152 | at every moment of every run the numbers of a year are 1 to nextNumber, each once |
| `EngineRuns.AbortsExactly` | src/incidents/incident-engine.service.ts:64-91 | a transaction aborts exactly for a recovery alert that was analysed before and linked to nothing, a row no channel can insert today |
| `EngineRuns.AttemptLinks` | src/incidents/incident-engine.service.ts:60-178 | an attempt on an admitted alert never aborts and leaves it linked |
| `EngineRuns.ConcernsFirstOrLast` | src/incidents/incident-engine.service.ts:104-200 | a recovery concerns an open incident of its key detected last; any other alert joins an open one detected first within the window, of its key or without a key at its OLT and PON, and makes a new one exactly when there is none |
| `EngineRuns.ProcessTells` | src/incidents/incident-engine.service.ts:60-178 | ALREADY_PROCESSED says that the alert was linked before, CREATED that there is one incident more, the recovery answers that the alert is a recovery, and the incident of the answer is one the alert is linked to |
| `EngineRuns.ProcessWritesRows` | src/incidents/incident-engine.service.ts:262-301 | which rows a transaction adds: its analysis, the link, the row that announces the link with the message of the alert, and the row that names the rule |
| `EngineRuns.TitleSays` | src/incidents/incident-engine.service.ts:303-328 | a title names the type, the OLT or that it is unknown, and the PON if there is one |
| `EngineRuns.ExactlyOnceEffect` | src/incidents/incident-engine.service.ts:64-72 | over a run an admitted alert takes effect once: every further attempt answers ALREADY_PROCESSED and changes no table |
| `EngineRuns.IngestIsIdempotent` | src/alerts/alerts.service.ts:21-57 | an event is stored exactly if its id is new, and a second ingest of the id stores nothing and returns the first row |
| `EngineRuns.AvailabilityQueryIsSound` | src/sla/sla.service.ts:122-139 | for the incidents of any run the date filter never changes the downtime, because startedAt is detectedAt at creation |
| `History.ApplyKeepsTrail` | src/incidents/incident-engine.service.ts:262-301 | every transaction keeps the whole trail: truthful alert statuses, sound links, founded incidents, complete timelines |
| `History.RunKeepsTrail` | src/incidents/incident-engine.service.ts:262-301 | the trail holds at every moment of every run |
| `History.HistoryIsKept` | src/incidents/incident-engine.service.ts:262-301 | between any two moments of a run rows are only appended; an alert changes only its status and an incident nothing of its origin |
| `History.LinksAreSound` | src/incidents/incident-engine.service.ts:104-127 | every link joins an alert with an incident of its key, detected at most a window before the alert unless it is a recovery |
| `History.StatusIsTruthful` | src/incidents/incident-engine.service.ts:281-286 | an alert is CORRELATED exactly when it is linked and no recovery, and RESOLVED exactly when it is a recovery |
| `History.TimelineIsComplete` | src/correlation/correlation-engine.service.ts:121-160 | every incident was made from the alert of its first link, and has one creation row, one row per link and one analysis row per link |
| `History.OnePonPerIncident` | src/incidents/incident-engine.service.ts:104-127 | all admitted alerts linked to one incident are about the same OLT, board and PON |
| `History.AdmittedRunsNeverAbort` | src/alerts/constants/network-event-types.ts:1-5 | with the event types the channels let through, no transaction of any run aborts, and each leaves its alert linked |
| `History.OnuRulesAreDead` | prisma/migrations/20260909050000_phase_6_correlation/migration.sql:50-53 | in a run with what the channels let through, a rule that asks for at least one distinct ONU changes no decision |
| `IncidentStore.Store.FindAlert` | src/alerts/alerts.service.ts:48-50 | the row with the event id, if there is one |
| `IncidentStore.Store.IngestEvent` | src/alerts/alerts.service.ts:21-57 | inserts the alert or returns the existing row, and changes no other table |
| `IncidentStore.Store.FindEvent` | src/incidents/incident-engine.service.ts:64-72 | the link of the alert, if there is one |
| `IncidentStore.Store.SelectWindow` | src/correlation/correlation-engine.service.ts:57-72 | exactly the window's alerts, in table order |
| `IncidentStore.Store.FindJoinable` | src/incidents/incident-engine.service.ts:109-133 | an earliest open incident with the key that reaches into the window, if there is one |
| `IncidentStore.Store.FindRecoverable` | src/incidents/incident-engine.service.ts:185-200 | a latest open incident with the key, if there is one |
| `IncidentStore.Store.Attach` | src/incidents/incident-engine.service.ts:262-301 | adds the link, marks the alert unless it is resolved, and adds the timeline row |
| `IncidentStore.Store.Record` | src/correlation/correlation-engine.service.ts:121-160 | inserts the correlation result and its timeline row, refused exactly when the alert has a result |
| `IncidentStore.Store.Rollback` | src/incidents/incident-engine.service.ts:45-58 | gives every table back as it was |
| `IncidentStore.Store.CorrelateInto` | src/incidents/incident-engine.service.ts:135-143 | merges the decision, links the alert and records the decision |
| `IncidentStore.Store.RecoverInto` | src/incidents/incident-engine.service.ts:202-216 | moves the incident to monitoring, links the alert and records the decision |
| `IncidentStore.Store.CreateFor` | src/incidents/incident-engine.service.ts:145-177 | takes the next number, inserts the incident, links the alert; refused exactly when a unique index is hit |
| `IncidentStore.Store.ProcessAlert` | src/incidents/incident-engine.service.ts:60-178 | processes one alert in one transaction exactly as the specification says, and changes nothing when it aborts |
| `IncidentStore.Store.ChangeIncident` | src/incidents/incidents.service.ts:120-175 | a status change: refused for an unknown incident or a transition that is not listed; otherwise exactly the status, the time that belongs to it and the elapsed seconds of that incident change, and one timeline row is added |
| `IncidentStore.Store.Acknowledge` | src/incidents/incidents.service.ts:81-92 | acknowledging is the change to INVESTIGATING, with its own timeline type |
| `IncidentStore.Store.Resolve` | src/incidents/incidents.service.ts:94-105 | resolving is the change to RESOLVED: it writes now to resolvedAt and the elapsed seconds, with its own timeline type |
| `IncidentStore.Store.Close` | src/incidents/incidents.service.ts:107-118 | closing is the change to CLOSED, with its own timeline type |
| `IncidentStore.Store.WriteImpact` | src/impact/impact-engine.service.ts:72-94 | an impact refresh writes the counters of one incident and one timeline row |
| `Impact.NamedIsUpserted` | src/impact/impact-engine.service.ts:52-71 | a refresh that names a customer once updates that customer from its own earlier row only |
| `Impact.ImpactHasClosedForm` | src/impact/impact-engine.service.ts:136-189 | after any refreshes: affectedFrom is detectedAt exactly when some observation was OFFLINE, restoredAt the time of the first later one that was not, the duration their difference, and every other column the last value observed for it |
| `Impact.RestorationIsFinal` | src/impact/impact-engine.service.ts:146-149 | once a record has a restoration time, every later refresh keeps it, with the start and the duration of the outage |
| `Impact.StaleRefreshKeepsRestorationExactly` | src/impact/impact-engine.service.ts:50-71 | exactly when a refresh that read stale rows keeps the restoration time of the row it finds |
| `Impact.RestorationSurvivesExactly` | src/impact/impact-engine.service.ts:50-71 | for any interleaving of any number of refreshes, a stored restoration time survives exactly when every write in between keeps it by what its refresh had read |
| `Impact.FreshRefreshesKeepRestoration` | src/impact/impact-engine.service.ts:50-71 | in particular it survives as long as no refresh that read before the restoration writes after it |
| `Impact.OverlapReplacesRestoration` | src/impact/impact-engine.service.ts:50-71 | of two overlapping refreshes the second erases the restoration time or replaces it by its own, possibly earlier one |
| `Impact.SummaryAddsUp` | src/impact/impact-engine.service.ts:191-217 | offline and online count the customers with that status and are at most all, and the percentage is one also after rounding |
| `Impact.SummaryIsExact` | src/impact/impact-engine.service.ts:191-217 | the summary is the number of customers, of those OFFLINE, of those ONLINE, and the nearest hundredth of the share that is OFFLINE, or 0 for none |
| `Impact.MissingMetricsCountNobody` | src/incidents/incident-engine.service.ts:330-353 | an alert without metrics, or without one of them, counts nobody there |
| `Impact.CreationAndRefreshAgree` | src/incidents/incident-engine.service.ts:330-353 | the counters of a new incident are those a refresh writes when the metrics say how many customers there are, are online and are offline |
| `Impact.CustomerTable.RefreshIncident` | src/impact/impact-engine.service.ts:40-96 | one refresh upserts every customer against the rows read beforehand and writes the six counters; an incident without an OLT or a PON is left alone |
| `CircuitBreaker.Breaker.Request` | src/integrations/zasmaolt/http-zasmaolt.adapter.ts:135-204 | a request is rejected exactly if it is made before circuitOpenUntil, and then nothing changes; success clears the failures, failure adds one and opens the circuit at the threshold for a reset time |
| `CircuitBreaker.OpenUntilNeverDecreases` | src/integrations/zasmaolt/http-zasmaolt.adapter.ts:175-187 | circuitOpenUntil never decreases |
| `CircuitBreaker.FailuresAreCounted` | src/integrations/zasmaolt/http-zasmaolt.adapter.ts:168-187 | when every fetch fails the failures count the fetches that were started, and from the threshold on the circuit is open for a reset time after the last |
| `CircuitBreaker.StateRemembers` | src/integrations/zasmaolt/http-zasmaolt.adapter.ts:135-204 | over any run the failures are those since the last success, and the open time is a reset time after the last started fetch that tripped the circuit |
| `CircuitBreaker.RejectsExactly` | src/integrations/zasmaolt/http-zasmaolt.adapter.ts:135-204 | over any run a call is rejected exactly when it starts within a reset time of the end of the last fetch that tripped the circuit |
| `CircuitBreaker.ClosesAgain` | src/integrations/zasmaolt/http-zasmaolt.adapter.ts:197-198 | a call that starts at least a reset time after the end of the last started fetch is started itself |
| `CircuitBreaker.SuccessGivesThreshold` | src/integrations/zasmaolt/http-zasmaolt.adapter.ts:168-187 | after a success the next calls are all started until as many as the threshold have failed |
| `CircuitBreaker.StartsAreSpaced` | src/integrations/zasmaolt/http-zasmaolt.adapter.ts:175-204 | from the threshold on fetches start at least a reset time apart |
| `CircuitBreaker.FetchesAreBounded` | src/integrations/zasmaolt/http-zasmaolt.adapter.ts:135-204 | on a breaker that was fresh once, when every fetch fails, at most threshold + span / reset of them start within any span of the run |
| `RetryLoop.RetryOrDeadLetter` | src/alerts/alert-consumer.service.ts:141-183 | at the limit the message is dead-lettered; before it a copy with the next count is delayed and then the delivery acknowledged; dying before leaves everything as it was, dying in between leaves both copies |
| `RetryLoop.HandleMessage` | src/alerts/alert-consumer.service.ts:68-118 | success acknowledges, an invalid message or the last failure dead-letters, any other failure is retried; dying leaves the delivery, and at most the next copy beside it |
| `RetryLoop.NeverLost` | src/alerts/alert-consumer.service.ts:141-183 | crashes included, a copy of the message always exists somewhere |
| `RetryLoop.BoundedRetries` | src/alerts/alert-consumer.service.ts:141-183 | without crashes the message is in exactly one place, is handled at most maxRetries + 1 times, and its delays are exactly min(base * 2^k, 300000), the base delay first and each twice the one before, up to five minutes |
| `RetryLoop.ExhaustedOnlyAtTheLimit` | src/alerts/alert-consumer.service.ts:144-159 | a failed delivery dead-letters the message exactly when it was the last one allowed |
| `RetryLoop.DelaysNeverShrink` | src/alerts/alert-consumer.service.ts:164 | delays never shrink and never exceed five minutes |
| `Csv.RowsRoundTrip` | client/dashboard/app.ts:244 | joining rows and cells and reading them back gives the matrix of guarded cells |
| `Csv.DownloadRoundTrip` | client/dashboard/app.ts:228-244 | the whole file after its byte order mark reads back as the guarded cells, whatever commas, quotes and line breaks they hold |
| `Csv.IncidentDownloadRoundTrip` | client/dashboard/app.ts:234-244 | what a reader gets from an incident download: the header, then one line per customer in order with the best available name, or one line without |
| `Csv.GuardIsSafe` | client/dashboard/app.ts:229-233 | a guarded cell never reads as a formula, guarding again changes nothing, and nothing changes but for an apostrophe in front of a text that would read as one |
| `Csv.FormulaLikeExactly` | client/dashboard/app.ts:231 | a text reads as a formula exactly if after nothing but white space it has one of = + - @ |
| `Csv.GuardConfusesExactly` | client/dashboard/app.ts:229-233 | exactly which pairs of texts the guard makes equal |
| `Csv.GuardIsNotInjective` | client/dashboard/app.ts:229-233 | two texts that it makes equal |
| `Delivery.ExactlyOnce` | src/incidents/incident-engine.service.ts:64-72 | at every moment of every interleaving: one alert per event id, one link and one result per alert, at most one effective attempt and at most one notification per event |
| `Delivery.ApplyKeepsInv` | prisma/schema.prisma:276 | every step of any attempt keeps the tables unique and attempts tied to the links they inserted |
| `Delivery.RunKeepsInv` | src/alerts/alert-consumer.service.ts:68-84 | the invariant holds at every moment of every interleaving |
| `Delivery.ReplayChangesNoTable` | src/alerts/alerts.service.ts:46-52 | once an event is linked no attempt for it changes the alert, link or result table |
| `Delivery.NotifiedExactly` | src/alerts/alert-consumer.service.ts:74-83 | once an event is linked, a notification was dispatched for it exactly when the attempt that linked it has finished |
| `Delivery.LossIsFinalExactly` | src/alerts/alert-consumer.service.ts:74-83 | the notification of a linked event is lost in every continuation exactly when the attempt that linked it has stopped |
| `Delivery.NotificationCanBeLost` | src/alerts/zasmaolt-event-puller.service.ts:158-171 | a run after which an event is linked and no continuation ever dispatches for it |
| `Delivery.LostNotificationIsReachable` | src/alerts/zasmaolt-event-puller.service.ts:158-171 | that run, in which the attempt that linked the event stopped and a retry found it linked |
| `Puller.ResetIsSeenExactly` | src/alerts/zasmaolt-event-puller.service.ts:102-110 | a restored source is noticed exactly when the page reports the latest cursor and it lies below the stored one |
| `Puller.ResetCanBeMissed` | src/alerts/zasmaolt-event-puller.service.ts:102-110 | a restored source with a new event that is neither noticed nor delivered |
| `Puller.ReplayAddsNothing` | src/alerts/zasmaolt-event-puller.service.ts:157-162 | replaying a linked event changes no table when it is ingested and processed; the refresh after it changes only counters and adds one timeline row, if the incident has a location |
| `Puller.IngestIsGood` | src/alerts/zasmaolt-event-puller.service.ts:157 | storing an admitted event keeps every invariant and only adds rows |
| `Puller.ProcessIsGood` | src/alerts/zasmaolt-event-puller.service.ts:158-160 | processing a stored alert commits, leaves its event linked to the incident of the answer, and the outcome says whether it was linked before and whether the incident is new |
| `Puller.RefreshIsGood` | src/alerts/zasmaolt-event-puller.service.ts:162 | an impact refresh keeps every invariant and only adds rows |
| `Puller.ChangeIsGood` | src/incidents/incidents.service.ts:126-175 | so does an operator's status change |
| `Puller.RunsAreGood` | src/alerts/zasmaolt-event-puller.service.ts:156-171 | every state of every run of admitted events is one that the puller may find |
| `Puller.HigherRowsLoseNothing` | src/alerts/zasmaolt-event-puller.service.ts:103-106 | a row above a cursor that the source had reached before loses nothing |
| `Puller.RestoreBreaksExactly` | src/alerts/zasmaolt-event-puller.service.ts:103-106 | a restored outbox makes a stored cursor unsafe, and loses a row, exactly when it reaches the cursor with an unhandled row up to there |
| `Puller.AppendBreaksExactly` | src/alerts/zasmaolt-event-puller.service.ts:103-106 | exactly which new source row makes a safe cursor unsafe, and loses a row: one with which the source reaches the cursor while a row up to there is not handled |
| `Puller.EventPuller.RestoreCursor` | src/alerts/zasmaolt-event-puller.service.ts:74-87 | the cursor becomes the persisted one, unless the read fails, and stays safe |
| `Puller.EventPuller.Restart` | src/alerts/zasmaolt-event-puller.service.ts:55-72 | after a crash at any point the cursor is zero or the persisted one, the latter unless the read fails, and both cursors are safe |
| `Puller.EventPuller.IngestAndProcess` | src/alerts/zasmaolt-event-puller.service.ts:156-171 | success means that the event is linked, that the outcome says how, and that the impact of its incident was refreshed in this attempt, or it has no location; stopping at any await keeps the invariants, and it only fails if a call does |
| `Puller.EventPuller.RefreshImpactOf` | src/alerts/zasmaolt-event-puller.service.ts:162 | success means a new IMPACT_RECALCULATED row and the counters of the customers fetched, exactly if the incident has a location; it may fail before or after its write |
| `Puller.EventPuller.ProcessItem` | src/alerts/zasmaolt-event-puller.service.ts:137-195 | before the cursor moves past an item it was rejected, or is stored and linked with the impact of its incident refreshed since the item was begun, and dispatched exactly once if it was not linked before, as created or correlated |
| `Puller.EventPuller.AdvanceCursor` | src/alerts/zasmaolt-event-puller.service.ts:212-222 | a lower cursor is refused; otherwise memory moves first and the row after, and a failure in between is safe |
| `Puller.EventPuller.ProcessPage` | src/alerts/zasmaolt-event-puller.service.ts:123 | the items of a page are handled in order, stopping anywhere skips none, and success means that each valid row had the impact of its incident refreshed since the page was begun |
| `Puller.EventPuller.Poll` | src/alerts/zasmaolt-event-puller.service.ts:89-135 | a run of at most five pages keeps both cursors safe however it ends; once its first page has rows or reports, nothing at or below the cursor is skipped; a run that ends with nothing more to come has handled the whole outbox; and one that ends for its five pages alone is at least five rows further, or four from the start after a reset |
| `Puller.EventPuller.PollUntilDrained` | src/alerts/zasmaolt-event-puller.service.ts:89-135 | while no poll fails, five pages a poll, one for each row and two more, handle every event of the outbox; after a source restored below our cursor that includes everything |
| `Puller.EventPuller.AdvanceCursorAfterSourceReset` | src/alerts/zasmaolt-event-puller.service.ts:224-231 | the cursor returns to zero whether or not the row is written, and both cursors stay safe |
| `Puller.EventPuller.HandleEmptyPage` | src/alerts/zasmaolt-event-puller.service.ts:102-121 | a reported cursor below ours resets the cursor and nothing else does; once the page has reported, nothing at or below the cursor is skipped, even when writing the reset fails |
| `Puller.EventPuller.PullPage` | src/alerts/zasmaolt-event-puller.service.ts:95-124 | one turn of the polling loop: it resets, or moves past the whole page, or ends with everything handled, unless it fails or is told nothing |
| `Puller.EventPuller.SourceAppends` | src/alerts/zasmaolt-event-puller.service.ts:103-106 | any new row above the last one keeps both cursors safe, apart from the rows that the source thereby puts unhandled below a cursor; within one epoch there are none |
| `Puller.EventPuller.SourceRestored` | src/alerts/zasmaolt-event-puller.service.ts:103-106 | any other outbox does so too, and loses exactly its unhandled rows up to a cursor it has reached |
| `Puller.EventPuller.Life` | src/alerts/zasmaolt-event-puller.service.ts:55-231 | within one source epoch, any mix of polls, crashes, restarts, other traffic, operator actions and any new rows skips no event: each one at or below either cursor was rejected, or is stored and linked and its incident had its impact refreshed |
| `Puller.EventPuller.LifeAcrossRestores` | src/alerts/zasmaolt-event-puller.service.ts:55-231 | with any restores and appends and failing reset writes in the mix, every row up to a cursor the source has reached is handled or lost, none is lost as long as no append and no restore breaks a cursor, and no event is dispatched twice |

## Left out

- Impact.ImpactHasClosedForm: speaks of refreshes that follow one another and name each customer at most once per list; `Impact.RestorationSurvivesExactly` says what overlaps do to the restoration time, and `Impact.UpsertCustomer` models a repeated name, but neither has a closed form.
- Impact.RestorationIsFinal: likewise for refreshes that follow one another.
- EngineRuns.OpenIncidentsAreSpread: speaks of open incidents that were never resolved; `Reopening.AllOpenAreSpread` says it of all, exactly until a reopening has an open neighbour.
- Statistics.PipelinesAgree: compares the two pipelines on the same customer records and period; both services select those records with the same query.
- Statistics.RecoveryAveragesAgree: for a query without a customer code, as the two services filter by customer differently; the filters they share (approved types, status, severity, location) are not modelled.
- Puller.EventPuller.LifeAcrossRestores: a row that is lost may still be handled later, by another channel or after a restart from zero; the model does not take it off the list of lost rows then.
- Puller.EventPuller.Poll: the source does not change during one run of at most five pages, and a page that says there are no more rows is trusted.
- Puller.EventPuller.IngestAndProcess: other channels write to the store before and after, not between storing the alert and processing it; `Delivery` covers that interleaving.
- Puller.EventPuller.RefreshImpactOf: the customers fetched are arbitrary, and of what the refresh writes only the counters and the timeline row are in the store; their own records are those of `Impact`.
- Puller.EventPuller.ProcessItem: a dispatch is one entry of a log, written when the call is made; the alert and the text it carries are not modelled.
- CircuitBreaker.FetchesAreBounded: requests one at a time, because overlapping ones may all be admitted while the circuit is closed; a body that fails to parse counts as a success, as in the code, which does not await it inside the protected block.
- RetryLoop.BoundedRetries: without crashes, which can add copies, and for a message without a retry header; a header that is not a non-negative integer is not modelled.
- Concurrent database transactions, except in `Delivery`, where the look-up and the insert are separate steps: everywhere else they commit one at a time.
- PostgreSQL's collation of rule names: names are compared character by character.
- Column length limits, and the JSON payload copies and descriptive customer columns (ONU serial, plan, NAP) that no modelled decision reads.
- Board and PON numbers of 10^21 or more, which JavaScript prints with an exponent.
- Floating point, including the epsilon added before rounding: minutes, percentages and readings are exact reals.
- Incidents without a correlation key: the join query's clause for them is modelled (`EngineRuns.ConcernsFirstOrLast`), but none arises from an empty database.
- `byDay`, `byLocation`, the enum counts and the ranking of the twenty most affected customers: sums and a sort that would add only easy members.
- SLA snapshots, list and detail queries, pagination.
- Validation of request and event bodies beyond the admitted event types.
- Notification delivery, notification and correlation rule maintenance, metrics and logs; a dispatch is one step of an attempt.
- Users, authentication, report files, health checks and the rest of the dashboard, including how it prints dates and titles.
- Timers: when polls, retries and deliveries happen is left open, and the puller's `polling` flag is the only guard between overlapping polls.
