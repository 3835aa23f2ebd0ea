# A verified model of the platform's stateful core

The repository is a self-hosted assistant platform on Cloudflare Workers. This project models the
parts of it that keep state over time or do real arithmetic, and proves what they keep over every
run. `dafny verify dfyconfig.toml` checks all of it with Dafny 4.11.

| modules | what they model |
|---|---|
| AiSpendLedger, AiSpendSafety, AiSpendAnswers | the Workers AI spend ledger: free and paid neurons, the monthly cap, the true bill |
| QuotaLedger, QuotaSafety, QuotaAnswers | the ledger of other metered resources with its hard limits |
| Calendar, Schedule, NextRuns | Gregorian days, wall times in a zone, the next run of a recurring rule |
| TaskAlarms, TaskSafety, TaskEdits, TaskRepeats, TaskOneOff, TaskBacklog, TaskRuns | the scheduled work of a conversation and the single alarm that runs it |
| Approvals, DecisionSteps, GatekeeperSteps, ApprovalProtocol, ApprovalTimes | approvals, execution leases, gatekeepers and the assistant between them |
| Plugins, PluginSafety | installing, updating, approving, rolling back, enabling and removing plugins, one handler at a time |
| PluginGrants, PluginHandlers, PluginOverlap, PluginApprovals, PluginRuns | the same statement by statement, with handlers that overlap or stop |
| AuditLedger, AuditSafety | the audit hash chain, its daily segments, checkpoints and retention |
| AuditClosing, AuditConservation | closing segments statement by statement, as the alarm does, and what becomes of events |
| Octal, TarFormat, Ustar, UstarReader | two writers of ustar archives, against a reader after IEEE Std 1003.1 |
| Utf8, ModelContext, ConversationContext | the byte budget of source text and the character budget of a conversation |
| Base64Url, InvocationTokens | plugin invocation tokens, their texts, used once and two at a time |
| Common, OrderedMap | options, results, sums, and maps in insertion order |

Code that changes objects in place is a class here, too. Its methods take the branches of the source
in their order and are proved equal to functions on values; the properties are lemmas about these
functions and about all sequences of them. What an operation answers and leaves is also stated in
figures, in its contract or in a lemma about every reachable state, so that it does not rest on those
functions alone. Where requests overlap, the model is a machine over single database statements:
statements of any number of requests interleave, and since nothing obliges a request to take its next
step, every crash between two statements is a run of the machine. Database batches are one step, as D1
runs them in one transaction.

## What the proofs found

Some properties that one would expect hold only under a condition. Each has a lemma with the exact
condition or with the run that breaks it.

- Both ledgers lose track of a reserved amount when a reservation is accepted under the id of an active
  one, and only then (`TotalsAreConservedWhen`). The AI ledger still never undercounts, and its cap holds
  up to settle overruns, whatever ids are used.
- A quota key used again charges nothing, but returns the reservation of another key if one was made
  under the id of its own since then, and only then (`ReplayReturnsTheFirstWhen`, `ReplayReturnsAnother`).
- Four rounds of refinement resolve every wall time around one change of offset, but can oscillate
  and miss one around two changes (`ResolveIsExact`, `OscillationMissesAWallTime`).
- An edit made while scheduled work is running can be overwritten when the run ends: disabled work is
  enabled again (`DisabledTaskIsEnabledAgain`). Edits stand if and only if the alarm under way does not
  have the row ahead with what it read before (`EditStandsWhen`, `DisabledTaskStaysWhen`).
- Work that was executing when its alarm stopped can be executed for the same time again
  (`StoppedRunIsRepeated`). It is if and only if the row was neither edited nor finished before the next
  alarm read it (`RunIsRepeatedWhen`).
- A comment in the audit ledger says that a late event goes to the current segment so that the
  checkpoint of its own stays verifiable. If the current segment was closed as well, the late event
  breaks the checkpoint of that one instead (`AppendKeepsMatchingWhen`, `ClosingTodayBreaksACheckpoint`).
- The alarm closes segments without keeping appends out. An event of yesterday that arrives while it
  awaits storage is missing from a checkpoint for ever (`LateArrivalIsNotInTheCheckpoint`). A
  checkpoint is right if and only if no event reached its segment between the reading and the marking
  (`CheckpointMatchesWhenMarkedInTime`), and once segments are deleted, only checkpoints and such late
  events together account for all that was stored (`AuditConservation.NoEventIsLost`). Requests to
  close do keep appends out; when only they close segments, of past days, checkpoints are always right
  (`CheckpointsStayVerifiable`).
- A replayed lease is answered like a failed write, so an approval can be recorded as failed although
  another request with its lease was carried out (`ReplayIsRecordedAsFailure`). A recorded failure is
  false in this case only (`RecordedFailureIsFalseWhen`).
- An approval of an update shows the capabilities that were missing when the update was added. After a
  rollback in between it also brings back others, which it does not show
  (`ApprovalAddsWhatItDoesNotShow`). It shows all it adds if and only if the version activated last in
  between requests the rest (`ApprovalShowsAllItAddsWhen`).
- Plugin handlers that overlap break what the active version promises, even if all of them finish: a
  removed installation can keep an active version (`RemovalDuringRollback`), and an installation can
  name a superseded version and have no active one (`UpdatesDuringEachOther`). What is left is in
  PluginOverlap: an active version is the named one or its update is unfinished, the named version is
  active unless its batch came too late, and a removed installation stays without versions unless a
  handler under way has still to write one. The claim about grants holds in every case.
- A consumed invocation token is forgotten after ten minutes. Its text cannot be used twice as long as
  it is acquired within five minutes of its check, or eight for the tokens that are issued
  (`CheckedTokenIsAcquiredOnce`, `IssuedTokenIsAcquiredOnce`). The bound is exact to the millisecond
  (`TextsAreAcquiredOnceWhen`).
- The tables of tokens know texts, and every token can be spelled in several ways, so its nonce can be
  acquired more than once (`IssuedTokenHasOtherSpellings`, `TwoSpellingsAreAcquired`). It is acquired
  once if and only if one text of it is presented (`ClaimsAreAcquiredOnceWhen`).

## Hypotheses

- SHA-256 and the digests of canonical JSON are injective, and signatures cannot be forged: hashes and
  digests are terms over what they are taken from, and a lease verifies only if it was signed.
- Fresh identifiers (crypto.randomUUID) differ from those in use. Where the source takes an identifier
  from its caller, no such thing is assumed.
- Clocks do not go back within a run of the audit ledger, the scheduler or the token coordinator.
- A time zone is a function from the minute of UTC to an offset in minutes.

## Model

| member | source | states |
|---|---|---|
| AiSpendLedger.InMemoryAiSpendLedger.constructor | packages/cost-control/src/index.ts:238-248 | A new ledger is empty; a cap in dollars is kept in micros, rounded to the nearest. |
| AiSpendLedger.InMemoryAiSpendLedger.ReleaseRow | packages/cost-control/src/index.ts:354-367 | Ending a row changes exactly its day, its month and its status, and keeps all look-ups valid. |
| AiSpendLedger.InMemoryAiSpendLedger.ReapExpired | packages/cost-control/src/index.ts:328-340 | The loop over the live map releases every row that has expired, and returns how many there were. |
| AiSpendLedger.InMemoryAiSpendLedger.Reserve | packages/cost-control/src/index.ts:250-267 | Reaps first, even when the call then fails; a known key returns its row or is refused; the result and the whole new state are those of ReserveStep. |
| AiSpendLedger.InMemoryAiSpendLedger.ReserveNew | packages/cost-control/src/index.ts:271-302 | Refuses exactly when used, reserved and new overage together pass the cap; otherwise records the split into free and paid neurons. |
| AiSpendLedger.InMemoryAiSpendLedger.Settle | packages/cost-control/src/index.ts:305-322 | Every error case leaves the ledger alone; otherwise the actual use moves from reserved to used. |
| AiSpendLedger.InMemoryAiSpendLedger.Release | packages/cost-control/src/index.ts:324-326 | Releases an active row; an unknown or ended one is an error without effect. |
| AiSpendSafety.EveryRunIsSafe | packages/cost-control/src/index.ts:250-340 | The strengthened invariant over days, months and rows holds after every sequence of operations, with any ids, keys, amounts and clocks. |
| AiSpendSafety.FreeAllocationIsNeverExceeded | packages/cost-control/src/index.ts:271-278 | In every run the free neurons held by active rows plus those used up by settled ones are at most 10,000 a day, so what is recorded as paid is at least the excess of the day over 10,000. |
| AiSpendSafety.RecordIsExactWhen | packages/cost-control/src/index.ts:319-320 | The record equals the bill if and only if the settled rows used up the free allocation or nothing was charged. |
| AiSpendSafety.MonthIsNeverUndercounted | packages/cost-control/src/index.ts:305-322 | A month's usedMicros is at least the true bill summed over any distinct days filed under that month. |
| AiSpendSafety.CapHoldsUpToOverrun | packages/cost-control/src/index.ts:279-289 | Used plus reserved micros of a month stay within the cap plus 11 times the neurons by which settlements exceeded their reservations. |
| AiSpendSafety.TrueBillIsWithinCap | packages/cost-control/src/index.ts:279-289 | When no settlement exceeds its reservation, the true bill of a month never passes the cap. |
| AiSpendSafety.ClampsNeverBite | packages/cost-control/src/index.ts:313-318 | In every safe state the totals hold at least what each active row holds, so Math.max(0, …) never changes a value. |
| AiSpendSafety.AcceptIsExactUnlessItOverwrites | packages/cost-control/src/index.ts:296-301 | Reserving keeps the totals equal to the sums over active rows if and only if its id is not that of an active row. |
| AiSpendSafety.TotalsAreConserved | packages/cost-control/src/index.ts:296-318 | Over every run in which no accepted reservation takes the id of an active one, reserved totals equal the sums over active rows for every day and month. |
| AiSpendSafety.TotalsAreConservedWhen | packages/cost-control/src/index.ts:296-318 | The converse as well: after a run the totals are exact if and only if no reservation was accepted under the id of one active at that moment. |
| AiSpendSafety.ReapingIsComplete | packages/cost-control/src/index.ts:328-340 | After reaping no expired row is active, and every other row is as it was. |
| AiSpendSafety.KeyIsChargedOnce | packages/cost-control/src/index.ts:259-267 | A key once charged stays known in every later state; using it again only reaps, returns the stored row if the request agrees with it, and is refused as reused otherwise. |
| AiSpendAnswers.ReserveAnswers | packages/cost-control/src/index.ts:268-302 | In every reachable state, for a key that is not known: refused for an amount that is not positive; refused for its price exactly when a cap is set and used, reserved and eleven micros for each neuron beyond what 10,000 free ones leave pass it; otherwise made, with every field of the row and both totals in figures. |
| AiSpendAnswers.SettleAnswers | packages/cost-control/src/index.ts:305-322 | In every reachable state settling succeeds exactly for an amount that is not negative and an active row; the day then uses the amount, the month pays eleven micros for each neuron beyond the free ones, and both give back in full what the row had reserved. |
| AiSpendAnswers.ReleaseAnswers | packages/cost-control/src/index.ts:324-326 | Likewise for releasing, which uses and pays nothing. |
| AiSpendAnswers.ReapAnswers | packages/cost-control/src/index.ts:328-340 | Exactly the active rows whose expiry is at or before now expire. |
| QuotaLedger.InMemoryQuotaLedger.constructor | packages/cost-control/src/index.ts:107-115 | A new ledger is empty. |
| QuotaLedger.InMemoryQuotaLedger.EndRow | packages/cost-control/src/index.ts:155-172 | Settling or releasing a row changes exactly its rollup and its status. |
| QuotaLedger.InMemoryQuotaLedger.ReapExpired | packages/cost-control/src/index.ts:174-186 | Releases every expired row and returns their number. |
| QuotaLedger.InMemoryQuotaLedger.Reserve | packages/cost-control/src/index.ts:117-153 | Input is checked by the whole schema before anything is reaped; replay, wrong resource, hard limit and acceptance give the state and result of ReserveStep. |
| QuotaLedger.InMemoryQuotaLedger.Settle | packages/cost-control/src/index.ts:155-167 | Every error leaves the ledger alone; otherwise the actual amount moves to used. |
| QuotaLedger.InMemoryQuotaLedger.Release | packages/cost-control/src/index.ts:169-172 | Releases an active row; otherwise an error without effect. |
| QuotaSafety.EveryRunIsSafe | packages/cost-control/src/index.ts:117-224 | The invariant over all resources and periods holds after every sequence of operations. |
| QuotaSafety.HardLimitHoldsUpToOverrun | packages/cost-control/src/index.ts:134-143 | Used plus reserved stay within the fraction of what is included plus the total settle overrun, for every resource and period. |
| QuotaSafety.AcceptIsExactUnlessItOverwrites | packages/cost-control/src/index.ts:145-151 | Reserved totals stay exact if and only if no active row is overwritten by the new id. |
| QuotaSafety.TotalsAreConserved | packages/cost-control/src/index.ts:145-167 | Over every run in which no accepted reservation takes the id of an active one, reserved totals equal the sums over active rows. |
| QuotaSafety.TotalsAreConservedWhen | packages/cost-control/src/index.ts:145-167 | After a run the totals are exact if and only if no reservation was accepted under the id of one active at that moment. |
| QuotaSafety.ReplayReturnsTheFirstWhen | packages/cost-control/src/index.ts:120-128 | In every later state of every run a key that was charged is not charged again: using it only reaps. With another resource, period, amount or task it is refused; with the same ones it returns the input first accepted if and only if no reservation was accepted under its id since then. |
| QuotaSafety.ReplayReturnsAnother | packages/cost-control/src/index.ts:120-151 | The run that breaks it: two reservations under one id, then the first key again, which returns the second. |
| QuotaSafety.ReapingIsComplete | packages/cost-control/src/index.ts:174-186 | After reaping expired active rows are released with their input, none is active, and all other rows are unchanged. |
| QuotaAnswers.ReserveAnswers | packages/cost-control/src/index.ts:130-152 | In every reachable state, for a valid request with a new key: refused for neurons; refused exactly when the policy has a fraction and used, reserved and asked amount pass that fraction of what is included, storage with its own error; otherwise made, with row, key and total in figures. |
| QuotaAnswers.InvalidIsRefused | packages/cost-control/src/index.ts:117-118 | Which requests the schema refuses, before anything is reaped. |
| QuotaAnswers.SettleAnswers | packages/cost-control/src/index.ts:155-167 | In every reachable state settling succeeds exactly for an amount that is not negative and an active row, and gives back in full what the row had reserved. |
| QuotaAnswers.ReleaseAnswers | packages/cost-control/src/index.ts:169-172 | Likewise for releasing, which uses nothing. |
| QuotaAnswers.ReapAnswers | packages/cost-control/src/index.ts:174-186 | Exactly the active rows whose expiry is at or before now expire. |
| Calendar.YearLength | apps/conversation-agent/src/schedule.ts:73-77 | The day-number arithmetic behind Date.UTC gives each year its length, leap years included. |
| Calendar.DateOf | apps/conversation-agent/src/schedule.ts:88-91 | Every day number has a valid date, and the date has that number. |
| Calendar.DateIsUnique | apps/conversation-agent/src/schedule.ts:88-91 | Every valid date comes back from its day number: dates and day numbers are in bijection. |
| Calendar.LocalIsUnique | apps/conversation-agent/src/schedule.ts:68-73 | The same for wall times to the minute, so comparing fields is comparing instants of Date.UTC. |
| Calendar.DayOfMonthRecurs | apps/conversation-agent/src/schedule.ts:102-109 | Each day of the month from 1 to 31 occurs again within 93 days, far inside the window of 800. |
| Calendar.CalendarIsGregorian | apps/conversation-agent/src/schedule.ts:88-91 | Day 0 is 1 January 1970, years have 365 or 366 days and months their Gregorian lengths, and the dates of a month follow each other. |
| Schedule.LocalToEpoch | apps/conversation-agent/src/schedule.ts:72-81 | For any zone, a returned instant shows the wall time that was asked for; the loop computes Resolve. |
| Schedule.ResolveIsExact | apps/conversation-agent/src/schedule.ts:72-81 | If the offset changes at most once around it, a wall time resolves if and only if some instant shows it; it does not exactly when it falls in the gap. |
| Schedule.OscillationMissesAWallTime | apps/conversation-agent/src/schedule.ts:75-80 | In a zone with two changes five minutes apart four rounds miss a wall time that an instant shows: the premise above is needed. |
| Schedule.NextTaskRunAt | apps/conversation-agent/src/schedule.ts:93-114 | Nothing without a schedule; the given instant if it is later; and for a rule the search over local dates computes the specification NextRun, for every valid schedule and zone. |
| NextRuns.NextRunIsARunTime | apps/conversation-agent/src/schedule.ts:93-114 | For schedules of every kind, in any zone, a next run is strictly later than the given time and an instant at which the schedule runs: the one given, or one at which the zone's clock shows the scheduled time on a matching day. |
| NextRuns.OneOffRunsAtItsTime | apps/conversation-agent/src/schedule.ts:94-98 | Without a rule there is a next run if and only if the schedule runs at some later instant, and it is the first of these. |
| NextRuns.RecurringRulesAlwaysRunAgain | apps/conversation-agent/src/schedule.ts:102-113 | In a fixed-offset zone the windows of 3, 15 and 800 days always contain a run of a valid daily, weekly or monthly rule. |
| NextRuns.NextRunIsTheLeast | apps/conversation-agent/src/schedule.ts:93-114 | In a fixed-offset zone the next run is the least of all run times after the given time. |
| TaskAlarms.ConversationAgent.constructor | apps/conversation-agent/src/index.ts:184-192 | A new agent has no scheduled work, no alarm, no replies and an empty outbox. |
| TaskAlarms.ConversationAgent.CreateTask | apps/conversation-agent/src/index.ts:507-554 | A known key replays its reply without effect; a schedule without a future run is refused; otherwise row, audit event, reply and alarm are written. |
| TaskAlarms.ConversationAgent.ApplyChange | apps/conversation-agent/src/index.ts:708-718 | Field by field, given values replace stored ones; the next run is computed afresh for work that is enabled and not completed, and the results of the last run stay. |
| TaskAlarms.ConversationAgent.UpdateTask | apps/conversation-agent/src/index.ts:694-746 | Replay, unknown id, refusal and success, each with the whole state that follows. |
| TaskAlarms.ConversationAgent.DeleteTask | apps/conversation-agent/src/index.ts:748-761 | Replay, unknown id and success, each with the whole state that follows. |
| TaskAlarms.ConversationAgent.RescheduleAlarm | apps/conversation-agent/src/index.ts:907-918 | No alarm if and only if nothing waits; otherwise the earliest next run, or now if that has passed. |
| TaskAlarms.ConversationAgent.SelectDue | apps/conversation-agent/src/index.ts:852-861 | At most twenty distinct rows, all enabled, not completed and due, in the order of their next runs; what is left out when there are twenty comes no earlier. |
| TaskAlarms.ConversationAgent.FinishRun | apps/conversation-agent/src/index.ts:880-902 | Every field of the row after a run, with the schedule that was read before it, its outcome and the error code, and the audit event of the run. |
| TaskAlarms.ConversationAgent.RunAll | apps/conversation-agent/src/index.ts:863-903 | The loop over the due rows updates exactly these rows and adds one event for each to the outbox, in order. |
| TaskAlarms.ConversationAgent.Alarm | apps/conversation-agent/src/index.ts:843-905 | A whole alarm: due rows run and updated, then re-scheduling; without a conversation only the latter. |
| TaskAlarms.FirstFewAre | apps/conversation-agent/src/index.ts:858-861 | The rows that the query selects are distinct and due. |
| TaskSafety.EveryRunIsSafe | apps/conversation-agent/src/index.ts:843-918 | The invariant over rows, due list, clock and history holds when edits interleave with a running alarm and alarms stop halfway. |
| TaskSafety.NextRunMeansActive | apps/conversation-agent/src/index.ts:709-724 | In every such state a set next_run_at implies enabled and not completed. |
| TaskSafety.AlarmIsTheFirstRun | apps/conversation-agent/src/index.ts:907-918 | Whenever no alarm is under way, unless the last one stopped and no edit came since, the alarm is set if and only if something waits, and for the earliest next run or the time it was set, whichever is later. |
| TaskSafety.RunsOfATaskIncrease | apps/conversation-agent/src/index.ts:858-895 | The times for which one row is executed strictly increase across edits, overlapping or not; only an execution that was under way when its alarm stopped may be repeated for the same time. |
| TaskRepeats.RunIsRepeatedWhen | apps/conversation-agent/src/index.ts:852-895 | Of two executions of one row, in any run, the second is for the same time as the first if and only if between the queries of their alarms the row was not edited and no execution of it ended. |
| TaskRepeats.ReadsOnlyOnce | apps/conversation-agent/src/index.ts:852-863 | The two executions belong to different alarms: one alarm executes a row at most once. |
| TaskSafety.NoRunIsEarly | apps/conversation-agent/src/index.ts:858-861 | Nothing is executed before its scheduled time. |
| TaskOneOff.OneOffIsExecutedForItsInstant | apps/conversation-agent/src/index.ts:867-895 | Over every run: work that was created for one instant and never edited is executed for exactly this instant, not before it, and again only if an alarm stopped during the earlier execution. |
| TaskEdits.EditStandsWhen | apps/conversation-agent/src/index.ts:863-895 | From every reachable state: until the next edit of it a row follows from what it is now, whatever else happens, if and only if the alarm under way does not have it ahead with a stale schedule, or although it does not wait. |
| TaskEdits.DisabledTaskStaysWhen | apps/conversation-agent/src/index.ts:880-895 | A disabled row stays as it is until the next edit if and only if the alarm under way does not have it ahead. |
| TaskEdits.StandsOverRun | apps/conversation-agent/src/index.ts:863-895 | The invariant behind this, over every run without an edit of the row. |
| TaskEdits.Overwriting | apps/conversation-agent/src/index.ts:863-895 | The run that overwrites the row: the alarm under way comes to it. |
| TaskRuns.DisabledTaskIsEnabledAgain | apps/conversation-agent/src/index.ts:867-895 | A run from the empty agent: daily work is disabled while the runner is at it, and enabled again when the runner returns. |
| TaskRuns.StoppedRunIsRepeated | apps/conversation-agent/src/index.ts:858-895 | A run from the empty agent in which an alarm stops during an execution and the next alarm repeats it for the same time. |
| TaskBacklog.FirstFewAreOverdue | apps/conversation-agent/src/index.ts:858-861 | Taking the earliest n rows takes from the backlog of any earlier instant min(n, its size). |
| TaskBacklog.AlarmShrinksBacklog | apps/conversation-agent/src/index.ts:843-905 | Every alarm at or after an instant shrinks the backlog of that instant by exactly min(20, its size). |
| TaskBacklog.EditAddsNoBacklog | apps/conversation-agent/src/index.ts:709-724 | No edit adds to the backlog of an instant that has passed. |
| TaskBacklog.BacklogDrains | apps/conversation-agent/src/index.ts:843-918 | Over every run, with edits before, between and during alarms and alarms that stop, the backlog of an instant is at most what it was less 20 for each later alarm that ends. |
| Approvals.PolicyControl.CreateApproval | apps/policy-control-worker/src/index.ts:487-515 | Created if and only if the gatekeeper is the one of the capability and the digest that of the request; then with these fields, pending and open for 900,000 milliseconds. |
| Approvals.PolicyControl.DecideApproval | apps/policy-control-worker/src/index.ts:691-822 | Answers the owner only and repeats the answer to the request that decided; otherwise decides if and only if the row is pending and now is strictly before its expiry, also when the audit then fails; only an approved operation gets a lease, with the terms of the row and 300 seconds to live. |
| Approvals.PolicyControl.RecordApprovalExecution | apps/policy-control-worker/src/index.ts:824-859 | Changes the row if and only if it is the owner's, approved and still pending execution. |
| Approvals.PolicyControl.ReconcileApprovalExecution | apps/policy-control-worker/src/index.ts:861-895 | Changes the row if and only if its outcome is unknown. |
| Approvals.Gatekeeper.Write | apps/google-gatekeeper/src/index.ts:255-323 | Refuses a lease of another principal, capability, gatekeeper or input and one that has expired; otherwise at most one call, for a nonce never consumed before, with this capability and input, and none without a connection; nonces, records and response say what happened in every case. Both gatekeepers run this. |
| DecisionSteps.StepKeeps | apps/policy-control-worker/src/index.ts:691-895 | Every single statement keeps the invariant on rows, winners, deciders and leases, whatever interleaves. |
| DecisionSteps.OneLeasePerApproval | apps/policy-control-worker/src/index.ts:727-738 | At most one lease is ever signed for an approval: the guarded UPDATE has one winner. |
| DecisionSteps.StepKeepsDecision | apps/policy-control-worker/src/index.ts:727-738 | No statement changes a decision or its terms; execution moves only from pending to an outcome, and from unknown to the one that the owner gives. |
| DecisionSteps.DecideIsItsSteps | apps/policy-control-worker/src/index.ts:691-822 | The statements of a decision that nothing interrupts leave what the handler leaves. |
| GatekeeperSteps.StepKeeps | apps/google-gatekeeper/src/index.ts:267-323 | Every single statement of the gatekeepers keeps the invariant on nonces, records, requests and calls. |
| GatekeeperSteps.OneCallPerLease | apps/github-gatekeeper/src/index.ts:374-379 | However often a lease is presented, it leads to at most one call. |
| GatekeeperSteps.CallMatchesLease | packages/approval/src/index.ts:127-148 | A call has the capability of its lease, and an input with the lease's digest. |
| GatekeeperSteps.ResponseTellsTheCall | apps/google-gatekeeper/src/index.ts:288-322 | A response says whether there was a call and, unless unknown, how the provider took it. |
| ApprovalProtocol.EveryRunIsSafe | apps/assistant-worker/src/index.ts:2799-3023 | The invariant of the whole protocol holds in every run of interleaved, replayed and stopped requests. |
| ApprovalProtocol.AtMostOneCallPerApproval | apps/google-gatekeeper/src/index.ts:275-280 | In every run an approval leads to at most one provider call. |
| ApprovalProtocol.CallIsWhatWasApproved | apps/policy-control-worker/src/index.ts:804-821 | That call is for an approved row, with its very request, capability, principal and gatekeeper. |
| ApprovalProtocol.DecisionIsFinal | apps/policy-control-worker/src/index.ts:714-738 | Over every run a decision, its key and its terms never change; succeeded and failed are final. |
| ApprovalProtocol.RecordedSuccessIsReal | apps/assistant-worker/src/index.ts:3016-3023 | An approval recorded as succeeded has a call that its provider accepted, unless the owner resolved an unknown outcome. |
| ApprovalProtocol.RecordedFailureIsFalseWhen | apps/assistant-worker/src/index.ts:3016-3023 | A recorded failure is false if and only if the response it was recorded from refused a replay and the request that had taken the nonce made a call which was not refused. |
| ApprovalProtocol.RecordedFailureIsReal | apps/assistant-worker/src/index.ts:3019-3023 | If that response did not refuse a replay, every call for the approval was refused by its provider. |
| ApprovalProtocol.ReplayIsRecordedAsFailure | apps/assistant-worker/src/index.ts:3016-3023 | A run from the empty state in which an approval is recorded as failed although its request was carried out. |
| ApprovalProtocol.ApprovedOperationCanSucceed | apps/policy-control-worker/src/index.ts:691-822 | From every safe state a pending, unexpired approval has a run that carries it out by one call and records the success. |
| ApprovalTimes.DecisionWasInTime | apps/policy-control-worker/src/index.ts:714-738 | Over every run, a row that is decided was read as pending strictly before its expiry by a request of its owner, with the decision and the key that it shows. |
| ApprovalTimes.StaysPendingWhen | apps/policy-control-worker/src/index.ts:719-738 | A pending row stays pending in every continuation whose reads come at some time or later, if and only if it has expired by then and no request that read it before is under way. |
| ApprovalTimes.CallWasInTime | packages/approval/src/index.ts:127-148 | Over every run, each provider call was made by a request that presented its lease within 300 seconds of its signing, as the principal, for the capability and to the gatekeeper of the lease. |
| Plugins.PluginControl.InstallPlugin | apps/policy-control-worker/src/index.ts:1351-1436 | An expired inspection is refused, a used key returns its installation, and otherwise the version is active at once or waits for an approval of all it requests. |
| Plugins.PluginControl.AddPluginVersion | apps/policy-control-worker/src/index.ts:1438-1522 | The four refusals; an update without added capabilities switches versions, any other waits for an approval of exactly what is added. |
| Plugins.PluginControl.DecideGrant | apps/policy-control-worker/src/index.ts:691-800 | Decides if and only if the row is the owner's, pending and not expired; an approval takes effect if and only if its version still waits, and then this version alone is active and the installation shows it, holds what it requests and is enabled. |
| Plugins.PluginControl.RollbackPlugin | apps/policy-control-worker/src/index.ts:1524-1564 | Rolls back to an active or superseded version of the installation and to no other. |
| Plugins.PluginControl.MutatePlugin | apps/policy-control-worker/src/index.ts:1566-1603 | Enabling leads to enabled and disabling to disabled, unless removed; removing revokes all versions; nothing else changes. |
| PluginSafety.EveryRunIsSafe | apps/policy-control-worker/src/index.ts:1351-1603 | When handlers do not overlap, the invariant on versions and installations holds after every sequence of them. |
| PluginSafety.ActiveVersionIsTheNamedOne | apps/policy-control-worker/src/index.ts:777-792 | When handlers do not overlap, a version of an installation that is not removed is active if and only if active_version_id names it, so there is at most one. |
| PluginSafety.ActiveVersionIsShownAndGranted | apps/policy-control-worker/src/index.ts:1481-1491 | When handlers do not overlap, the stored artifact and manifest are those of the active version, and all it requests is granted. |
| PluginSafety.RemovedIsForever | apps/policy-control-worker/src/index.ts:1576-1594 | When handlers do not overlap, a removed installation never changes again and has only revoked versions. |
| PluginSafety.ActivationGrantsExactly | apps/policy-control-worker/src/index.ts:777-797 | After an approval or a rollback the grants are exactly what the version requests, and it alone is active. |
| PluginGrants.EveryRunIsSafe | apps/policy-control-worker/src/index.ts:1351-1603 | The provenance invariant holds when single statements of all handlers interleave and handlers stop anywhere. |
| PluginGrants.EveryGrantWasAccepted | apps/policy-control-worker/src/index.ts:1466-1513 | In every such state each capability an installation holds was among the addedCapabilityIds of an approval for it that the owner accepted. |
| PluginGrants.AcceptedGrantCovers | apps/policy-control-worker/src/index.ts:769-776 | When an accepted approval finds its version waiting, all that the version requests was accepted. |
| PluginHandlers.InstallIsItsSteps | apps/policy-control-worker/src/index.ts:1351-1436 | The statements of an installation that nothing interrupts leave what the handler leaves. |
| PluginHandlers.AddIsItsSteps | apps/policy-control-worker/src/index.ts:1438-1522 | Likewise for an update. |
| PluginHandlers.DecideIsItsSteps | apps/policy-control-worker/src/index.ts:691-800 | Likewise for a decision, but for the note of its execution. |
| PluginHandlers.RollbackIsItsSteps | apps/policy-control-worker/src/index.ts:1524-1564 | Likewise for a rollback, which is possible in the same cases. |
| PluginHandlers.RemoveIsItsSteps | apps/policy-control-worker/src/index.ts:1576-1594 | Likewise for a removal. |
| PluginOverlap.EveryRunIsSound | apps/policy-control-worker/src/index.ts:1351-1603 | What versions, installations and handlers know of each other holds when single statements of all handlers interleave and handlers stop anywhere. |
| PluginOverlap.ActiveVersionIsNamedUnlessUnfinished | apps/policy-control-worker/src/index.ts:1470-1491 | In every such state an active version belongs to a removed installation, or active_version_id names it, or an update that inserted it has still to run its batch. |
| PluginOverlap.TwoActiveMeansUnfinished | apps/policy-control-worker/src/index.ts:1470-1491 | Two active versions of one installation that is not removed mean that an update of one of them is not finished. |
| PluginOverlap.NamedVersionIsActiveWhen | apps/policy-control-worker/src/index.ts:1480-1491 | The version named by an installation that is not removed is what it shows; it is active if and only if the batch that named it did not come after another handler had superseded it, and all it requests is granted if and only if that batch did not come after another handler had taken some of it away. |
| PluginOverlap.VersionIsNotRevokedWhen | apps/policy-control-worker/src/index.ts:1583-1594 | A version is not revoked if and only if it was inserted or activated since the last removal of its installation. |
| PluginOverlap.RemovedStaysGoneWhen | apps/policy-control-worker/src/index.ts:1566-1603 | Of a removed installation all versions stay revoked in every continuation if and only if no handler under way has still to insert or to activate one of them. |
| PluginRuns.RemovalDuringRollback | apps/policy-control-worker/src/index.ts:1546-1548 | A run from the empty database, all handlers finished, after which a removed installation has an active version. |
| PluginRuns.UpdatesDuringEachOther | apps/policy-control-worker/src/index.ts:1480-1491 | A run from the empty database, all handlers finished, after which an installation names a superseded version and has no active one. |
| PluginRuns.StoppedUpdate | apps/policy-control-worker/src/index.ts:1470-1491 | A run from the empty database in which an update stops between its two writes and leaves two active versions. |
| PluginApprovals.ApprovalShowsAllItAddsWhen | apps/policy-control-worker/src/index.ts:1462-1467 | Over every run, from the reading of the installation to the activation of the approved version: the approval shows all that it adds if and only if the version activated last in between, if any, requests all that the new one needs of what was held when it was read. |
| PluginApprovals.ShowsWhatWasMissing | apps/policy-control-worker/src/index.ts:1462-1467 | What an approval shows is, for ever, what the version requests beyond what was held when the installation was read. |
| PluginApprovals.HoldsTheLastReplacement | apps/policy-control-worker/src/index.ts:784-792 | An installation holds exactly what the version activated last requests. |
| PluginRuns.ApprovalAddsWhatItDoesNotShow | apps/policy-control-worker/src/index.ts:1540-1556 | A run from the empty database in which a rollback between asking and approving lets an approval that shows one capability add two. |
| AuditLedger.AuditLedgerObject.AppendEvent | apps/audit-ledger-worker/src/index.ts:129-187 | A known event id changes nothing; otherwise the event is filed under its date, or under today if that is closed, chained to the last one and counted if the segment is active. |
| AuditLedger.AuditLedgerObject.CloseSegments | apps/audit-ledger-worker/src/index.ts:193-243 | Run without interruption, as for a request, it closes exactly the active segments with events up to a date, in order, each with checkpoint object and row. |
| AuditLedger.AuditLedgerObject.DeleteClosedSegments | apps/audit-ledger-worker/src/index.ts:245-264 | A segment is deleted if and only if it is dated before the given day, closed, has events, and has its checkpoint on record and in storage; all others keep their rows and events. |
| AuditLedger.AuditLedgerObject.Alarm | apps/audit-ledger-worker/src/index.ts:121-127 | When nothing comes in between: segments of the last 180 days are kept, none with events before today stays open, and older ones that can be deleted are. |
| AuditSafety.RecentSegmentsAreKept | apps/audit-ledger-worker/src/index.ts:121-125 | Over every run whose deletions leave the last k days alone, a segment dated from k days ago on is still there with all its events. |
| AuditClosing.RecentSegmentsStay | apps/audit-ledger-worker/src/index.ts:121-125 | The same when statements of closes, appends and deletions interleave. |
| AuditSafety.AppendKeepsMatchingWhen | apps/audit-ledger-worker/src/index.ts:146-187 | An append keeps every segment in step with its checkpoint if and only if the event is known, or its segment is open, or today's is. |
| AuditSafety.ClosingTodayBreaksACheckpoint | apps/audit-ledger-worker/src/index.ts:150-154 | With today's segment closed a late event does break a checkpoint, against the comment in the source. |
| AuditSafety.CheckpointsStayVerifiable | apps/audit-ledger-worker/src/index.ts:102-110 | In every run whose closes are serialised, as requests to close are, and only close past days, each closed segment's count, first and last hash match its events, late events included. |
| AuditSafety.StepLeavesClosedSegments | apps/audit-ledger-worker/src/index.ts:146-187 | No operation changes a closed segment, its checkpoint object or row, other than deleting it whole. |
| AuditSafety.ClosedSegmentNeverChanges | apps/audit-ledger-worker/src/index.ts:102-110 | In such a run a closed segment has the same events and checkpoint for as long as it is kept. |
| AuditClosing.CheckpointMatchesWhen | apps/audit-ledger-worker/src/index.ts:193-243 | Over every run in which statements of any number of closes interleave with appends and deletions: a closed segment has its checkpoint in storage and on record, and each matches the segment's events if and only if no event reached the segment since that checkpoint was read. |
| AuditClosing.CheckpointMatchesWhenMarkedInTime | apps/audit-ledger-worker/src/index.ts:121-127 | When only past days are closed, as by the alarm: each checkpoint matches for as long as the segment is kept if and only if no event reached the segment between the reading of the checkpoint and the marking. |
| AuditClosing.ClosedSegmentKeepsItsEvents | apps/audit-ledger-worker/src/index.ts:150-154 | Then also, however closes and appends interleave, a closed segment keeps its events. |
| AuditClosing.ActiveSegmentsMatch | apps/audit-ledger-worker/src/index.ts:176-183 | In every such run the stored summary of an active segment is that of its events. |
| AuditClosing.LateArrivalIsNotInTheCheckpoint | apps/audit-ledger-worker/src/index.ts:121-127 | A run in which an event of yesterday arrives while the alarm awaits storage: the closed segment has two events and its checkpoint counts one. |
| AuditSafety.NoEventIsLost | apps/audit-ledger-worker/src/index.ts:245-261 | When closes are serialised, events stored are live or counted by the checkpoint their segment had when it was deleted. |
| AuditConservation.NoEventIsLost | apps/audit-ledger-worker/src/index.ts:193-261 | Over every run in which statements of closes, appends and deletions interleave, events stored are live, or counted by the checkpoint of a deleted segment, or reached that segment after its checkpoint was read. |
| AuditConservation.CheckpointsAccountForAllWhen | apps/audit-ledger-worker/src/index.ts:193-261 | Live events and checkpoints alone account for all if and only if no event reached a deleted segment after its checkpoint was read. |
| AuditSafety.RecordsAccountForDeleted | apps/audit-ledger-worker/src/index.ts:222-261 | When closes are serialised and nothing arrives for a deleted date, the checkpoints on record account for all that was deleted. |
| AuditSafety.ChainGrowsBetweenDeletions | apps/audit-ledger-worker/src/index.ts:135-145 | Between deletions the chain only grows, and each new event carries the hash of the one before it. |
| AuditSafety.ChainIsTamperEvident | packages/provenance/src/index.ts:137-150 | Two chains with the same last hash have the same events throughout. |
| AuditSafety.HashesAreRight | apps/audit-ledger-worker/src/index.ts:141-145 | In every run each live event carries the hash over itself and its previous hash. |
| AuditSafety.HeadDeterminesHistory | apps/audit-ledger-worker/src/index.ts:135-145 | Two ledgers without deletions that end in the same hash have the same events in the same order. |
| Octal.OctalFieldReadsBackWhen | scripts/build-deployment-bundle.ts:32-36 | A field of n bytes reads back as the number if and only if the number is below 8 to the power n - 1. |
| Octal.CutFieldReadsBackWhen | examples/dynamic-plugin-text-utilities/build.ts:61 | The same bound for the size field of the plugin archive, which is cut at twelve bytes. |
| Octal.SixDigitsReadBack | examples/dynamic-plugin-text-utilities/build.ts:65 | The other checksum layout, six digits, NUL and space, reads back. |
| Ustar.WriteOctal | scripts/build-deployment-bundle.ts:32-36 | Writes exactly the field's bytes into the buffer and leaves all others. |
| Ustar.TarEntry | scripts/build-deployment-bundle.ts:38-49 | Refuses exactly names over 100 bytes; otherwise header, content and padding. |
| Ustar.BundleArchive | scripts/build-deployment-bundle.ts:62-74 | Succeeds if and only if all names fit; then the archive of the manifest and the files, in order. |
| Ustar.PluginHeader | examples/dynamic-plugin-text-utilities/build.ts:58-65 | The header that the second writer builds, with its own checksum layout. |
| Ustar.PluginTar | examples/dynamic-plugin-text-utilities/build.ts:54-71 | The blocks copied into one array are the archive of the files. |
| UstarReader.ChecksumIsValid | scripts/build-deployment-bundle.ts:44-46 | Every header of either writer passes a reader's checksum and magic tests. |
| UstarReader.HeaderReadsBack | scripts/build-deployment-bundle.ts:40-46 | The path reads back, and the size if and only if it is below 8 to the power 11. |
| UstarReader.ModeReadsBack | scripts/build-deployment-bundle.ts:42-43 | Mode 0644 and zeros for owner, group and time read back. |
| UstarReader.EntryFillsBlocks | scripts/build-deployment-bundle.ts:47-48 | Every entry is 512 bytes for the header and the content filled up with zeros to a multiple of 512. |
| UstarReader.ArchiveReadsBack | scripts/build-deployment-bundle.ts:62-74 | A reader after the standard, which shares nothing with the writers, finds exactly the files put in, in order, under the names stored. |
| UstarReader.NameSurvivesWhen | scripts/build-deployment-bundle.ts:41 | A name is stored unchanged by the bundle if and only if it has no backslash, and by the plugin example if and only if it has at most 100 bytes; otherwise with slashes for backslashes, and cut. |
| UstarReader.RoundTrip | examples/dynamic-plugin-text-utilities/build.ts:54-71 | For such names without NUL and sizes below 8 to the power 11, reading undoes writing for both writers. |
| Utf8.DecodeOne | apps/public-agent-api/src/index.ts:158 | The decoder takes the bytes of one character to that character, whatever follows. |
| Utf8.DecodePartial | apps/public-agent-api/src/index.ts:158 | A character cut short decodes to one replacement character. |
| Utf8.CutDecodes | apps/public-agent-api/src/index.ts:158 | A text cut at any byte decodes to its whole characters and at most one replacement character. |
| Utf8.CutSize | apps/public-agent-api/src/index.ts:158-159 | The exact size of the decoded cut, for every place of the cut. |
| Utf8.RoundTrip | apps/public-agent-api/src/index.ts:158 | Decoding undoes encoding, but for a byte order mark at the start. |
| ModelContext.CutExceedsWhen | apps/public-agent-api/src/index.ts:158-159 | A cut exceeds its allowance if and only if it leaves one or two bytes of a character, and then by at most two bytes. |
| ModelContext.BuildModelRequest | apps/public-agent-api/src/index.ts:150-161 | The budget is the given number between 1,000 and 32,768. Source text exceeds it by at most 2 bytes; each text is the decoded start of its chunk cut to what was left; of the first five, chunks are dropped only when nothing is left. |
| ModelContext.ModelRequest | apps/delegated-agent-api/src/index.ts:155-163 | The same for the delegated API, which charges the bytes before decoding. |
| ConversationContext.NormalConversationContext | apps/assistant-worker/src/index.ts:330-351 | The walk over the reversed messages computes Fitting of the last eight eligible ones. |
| ConversationContext.FittingIsTheTail | apps/assistant-worker/src/index.ts:345-350 | The kept contents joined in order are exactly the last characters of the joined messages that the room allows. |
| ConversationContext.ContextIsTheLastCharacters | apps/assistant-worker/src/index.ts:330-351 | For all stored rows: the last min(12,000, total) characters of the last eight normal-sensitivity messages. |
| ConversationContext.LeavesOutOnlyWhenFull | apps/assistant-worker/src/index.ts:346 | A message is left out only when the room is used up. |
| ConversationContext.FittingKeepsTheLast | apps/assistant-worker/src/index.ts:347-350 | Kept messages are the last ones, in order, with their roles, and only the first may be cut. |
| ConversationContext.ContextComesFromRows | apps/assistant-worker/src/index.ts:330-351 | Every kept message comes from a stored row of normal sensitivity by user or assistant: the last rows of this kind, eight at most, in order, with their roles and contents; only the first may be cut, at its start. |
| ConversationContext.SourceRowsAreSources | apps/assistant-worker/src/index.ts:330-340 | The rows meant are of normal sensitivity, by user or assistant, and in order. |
| ConversationContext.SourcesAreListed | apps/assistant-worker/src/index.ts:330-340 | All rows of this kind are among them. |
| InvocationTokens.PluginCoordinator.Acquire | apps/plugin-runtime-worker/src/index.ts:321-352 | Concurrency limit, replay and acquisition by the text of the token, each with the rows that follow, the pruning included. |
| InvocationTokens.PluginCoordinator.Release | apps/plugin-runtime-worker/src/index.ts:353-361 | Removes exactly the invocation of that text. |
| InvocationTokens.PluginCoordinator.Broker | apps/plugin-runtime-worker/src/index.ts:362-381 | Lets a capability through if and only if a running invocation of that installation allows it. |
| InvocationTokens.LetsThroughWhen | apps/plugin-runtime-worker/src/index.ts:362-381 | Over every run a capability is let through for a text and an installation if and only if an invocation of that text for that installation which allows the capability was acquired and not released since. |
| InvocationTokens.AtMostTwoAreActive | apps/plugin-runtime-worker/src/index.ts:333-336 | In every run at most two invocations are active. |
| InvocationTokens.AcquisitionIsRemembered | apps/plugin-runtime-worker/src/index.ts:338-341 | An acquired text stays in the consumed table for ten minutes, through every operation. |
| InvocationTokens.IssuedTokenVerifiesWhen | apps/assistant-worker/src/index.ts:75-86 | A token that was issued, encoded and decoded passes the check if and only if it is presented for what it was issued for, within two minutes. |
| InvocationTokens.TokenIsAcquiredOnce | apps/plugin-runtime-worker/src/index.ts:338-341 | Over any run, however long, no text is acquired twice, if its lifetime and the delay from check to acquisition are at most ten minutes and two milliseconds together. |
| InvocationTokens.CheckedTokenIsAcquiredOnce | apps/plugin-runtime-worker/src/index.ts:98-112 | The check bounds the lifetime by five minutes, so five minutes of delay are safe for every text. |
| InvocationTokens.IssuedTokenIsAcquiredOnce | apps/assistant-worker/src/index.ts:75-86 | The tokens that are issued live for two minutes, so eight minutes of delay are safe. |
| InvocationTokens.LongDelayAllowsASecondUse | apps/plugin-runtime-worker/src/index.ts:338-341 | Beyond that bound, for every lifetime and delay, a run in which the same text is acquired twice. |
| InvocationTokens.TextsAreAcquiredOnceWhen | apps/plugin-runtime-worker/src/index.ts:328-347 | The bound is exact: all runs with such lifetimes and delays acquire each text at most once if and only if the two do not exceed ten minutes and two milliseconds together, the lifetime counted up to the five minutes that the check allows. |
| InvocationTokens.IssuedTokenHasOtherSpellings | apps/plugin-runtime-worker/src/index.ts:93-112 | Every issued token has other texts with the same claims that pass the check: with padding, with a dot at the end, and with two dots and anything after them. |
| InvocationTokens.TwoSpellingsAreAcquired | apps/plugin-runtime-worker/src/index.ts:328-347 | A run in which two texts of the same claims are acquired one after the other. |
| InvocationTokens.ClaimsAreAcquiredOnceWhen | apps/plugin-runtime-worker/src/index.ts:328-347 | All runs that present some texts acquire all claims, and so every nonce, at most once if and only if no two of the texts that pass the check spell the same claims. |
| Base64Url.RoundTrip | apps/assistant-worker/src/index.ts:68-69 | The decoder undoes the encoder on all bytes. |
| Base64Url.AlphabetIs | apps/assistant-worker/src/index.ts:68-69 | Digits follow the alphabet of RFC 4648, section 5; the decoder takes plus and slash as well. |
| Base64Url.PaddingIsOptional | apps/plugin-runtime-worker/src/index.ts:93-96 | A text decodes with and without its padding alike, and the two texts differ unless there is none. |
| Base64Url.LastDigitHasFourSpellings | apps/plugin-runtime-worker/src/index.ts:93-96 | The last of 4n + 3 digits can be written in four ways that decode alike. |

## Left out

- Numbers are reals or unbounded integers: rounding of floating point, NaN and Infinity are not modelled, and reservation amounts are finite.
- Date strings: instants are integers. A date that fails to parse, the two-digit years of Date.UTC, and the comparison of next_run_at as text outside the years 1970 to 9999 are not modelled.
- A time zone's offsets are whole minutes; seconds of historical offsets are not.
- NextRuns.NextRunIsTheLeast: stated for fixed-offset zones. In a zone with a fold a wall time that occurs twice has one run only, so the least matching instant may be skipped.
- AiSpendLedger.InMemoryAiSpendLedger.Reserve: returns the row by value; that a caller could change the ledger through the returned object is not modelled.
- `budgetFor` soft limits, `usage`, `monthlyUsageMicros`, the pricing catalogue and the sandbox estimate only compute from these totals.
- TaskAlarms.ConversationAgent.SelectDue: ties between equal next runs, which the database may order at will, go by identifier.
- TaskAlarms.ConversationAgent.CreateTask: lengths of titles and descriptions and the storage limit are not modelled, nor are the delivery of the outbox and the deletion of a whole conversation.
- Approvals.Gatekeeper.Write: the input is what writeInput lets through; its patterns and length limits are not modelled. A write of the record that fails after an accepted call is the parameter `stored`.
- The Discord gatekeeper and the transfer of connector results to a model, which use the same approvals, and the audit events that handlers send beside their writes: a handler that ends because its audit event could not be sent is one that stops there.
- InMemoryApprovalStore is not used by the workers, and keeps no more than the decision modelled here.
- Plugins.PluginControl.DecideGrant: approvals of plugin capabilities are those that the plugin handlers insert; creating one through the general route, which no caller does, would not be tied to a version.
- Plugins.PluginControl.InstallPlugin: requested capabilities are a set; the order in which they are listed, the plugin artifacts in storage and the inspection itself are not modelled.
- PluginSafety.EveryRunIsSafe: takes each handler as one step; what holds when handlers overlap is PluginOverlap.EveryRunIsSound.
- PluginSafety.ActiveVersionIsTheNamedOne: takes each handler as one step; it fails for handlers that overlap (PluginRuns), for which PluginOverlap has the exact conditions.
- PluginSafety.ActiveVersionIsShownAndGranted: takes each handler as one step; PluginOverlap.NamedVersionIsActiveWhen has the exact condition when they overlap.
- PluginSafety.RemovedIsForever: takes each handler as one step; PluginOverlap.RemovedStaysGoneWhen has the exact condition when they overlap.
- AuditLedger.AuditLedgerObject.CloseSegments: one operation without interruption, as for a request; the close of the alarm is in AuditClosing. A ledger serves one deployment, so the MIN over deployment ids is that one.
- AuditSafety.CheckpointsStayVerifiable: for serialised closes; AuditClosing has the exact condition for those of the alarm.
- AuditSafety.ClosedSegmentNeverChanges: for serialised closes; AuditClosing.ClosedSegmentKeepsItsEvents is about all.
- AuditClosing.CheckpointMatchesWhen: a deletion looks up checkpoints and deletes in one step, so two deletions of one segment at the same time are not modelled.
- PluginHandlers.DecideIsItsSteps: in the machine of statements the batch that activates a version does not note the execution of its approval, which nothing there depends on.
- AuditSafety.RecordsAccountForDeleted: for serialised closes; what the records do not account for otherwise is in AuditConservation.NoEventIsLost.
- AuditSafety.NoEventIsLost: for serialised closes; AuditConservation.NoEventIsLost is about all. It counts events that were stored; an event id that arrives again after its segment was deleted is stored and counted again.
- Ustar.BundleArchive: the JSON text of the manifest and the sorted list of files are inputs; gzip is not modelled.
- Ustar.PluginTar: paths are given as bytes, in the order of the object's entries.
- ModelContext.BuildModelRequest: texts are sequences of Unicode scalar values; a lone surrogate, which TextEncoder replaces, is not modelled, nor are the headings around the texts.
- ConversationContext.NormalConversationContext: a character is a UTF-16 code unit, and rows have been checked to have the fields that the source tests for.
- InvocationTokens.PluginCoordinator.Acquire: a token is its claims and all that follows the first dot of its text. Two payloads with the same claims would have to be signed apart, so the text of the payload is that of its claims; HMAC is a function from claims to bytes.
- HTTP routing, OAuth, provider APIs, Discord, the user interfaces, setup and release scripts, and the quota Durable Object.
