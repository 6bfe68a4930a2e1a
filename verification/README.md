# AgentLens: verified models

AgentLens takes agent trace events from a Redis Stream into Postgres under at-least-once delivery and
shows them, guarded and graded, on a dashboard. This project models the parts whose correctness does not
show in any one function: what survives redelivery, reordering, batching, crashes and concurrency, and
the algorithms whose specification is much simpler than their code.

Check everything with `dafny verify dfyconfig.toml` (Dafny 4.11).

## How it is organised

| file | what it models |
|---|---|
| Ids, Wrappers, Events | identifiers in string order, options, the event record |
| TraceMerge, MergeSchedules | the merge of a trace row, and exactly when it does not depend on the schedule |
| Sums, Rollups, Store, Interleaving, RunTotals | the ingestion store as atomic transactions on maps: what any run of batches means, down to the single column and sum |
| Writers | the storage writer and the guardrail scanner as classes over a database, tied to those transactions |
| ConcurrentWriters, ConcurrentSpans | the same transactions statement by statement, with row locks and read-committed visibility |
| SpanDeadlocks, ConcurrentBatches | when such transactions block one another; the transaction of a batch of events, alone and against others |
| LostUpdates | one trace row that is read before it is locked: exactly when an update is lost |
| GuardrailFlags | the summary that accumulates over scans |
| Delivery, Consumer | the pending list, reclaim, retries and dead letters as a protocol, and the consumer class that performs it |
| EvalBuffer, Budget, Judge | the buffer of deliberately unacknowledged messages, the spend cap, the judge's input and output |
| Digits, Verhoeff, Iban, Luhn, Redaction | check digits and the splicing of masks |
| SpanTree, RunTable, Publisher, RateLimit, Paging | the span order, the framework run table, the buffered publisher, the limiter, keyset paging |

Code that changes state step by step is written as methods and classes and proved against specification
functions; the lemmas are about those functions. Protocols with several participants are state machines
over their steps, and their theorems quantify over every run.

Conventions: an identifier is its place in the string order; instants and durations are integers; a JSON
object is a map from key to rendered value; scores are real numbers. Answers of foreign code (the judge,
regular expressions, Unicode's table of digits, the price table, the sampling hash, Redis and SQL failures,
clocks and the choice of the next step) are parameters, so every theorem holds for all of them.

## Where code and documentation differ

The models follow the code.

- The docstring of `order_spans` says orphans come at the end at depth 0. In the code a span whose parent
  is unknown is a root and comes in preorder; only spans on or below a parent cycle come at the end
  (packages/obs-platform/src/obs_platform/api/serializers.py:151-173).
- The docstring of `flush` promises to wait for the batch in the air. It does so only once the batch has
  been taken completely; `FlushIsRightIff` states exactly when its answer is right
  (packages/obs-sdk/src/obs_sdk/publisher.py:211-227, 311-314).
- `_merge_trace` calls itself convergent by construction. Status, instants, output, schema version and
  evaluation status are; for the other columns `ColumnSettlesIff`, `LatencySettlesIff` and
  `AttributesSettleIff` state exactly which sets of events make them so
  (packages/obs-platform/src/obs_platform/workers/storage_writer.py:290-397).
- `process` sorts its rows so that two workers that upsert in arrival order do not deadlock. It sorts the
  starts and the ends separately, so two batches can still block one another: `TwoWritersBlockIff` states
  exactly when, and `AscendingNeverStuck` what would rule it out for any number of them
  (packages/obs-platform/src/obs_platform/workers/storage_writer.py:132-157).
- `_merge_trace` is given a row that was read without a lock and is locked when it is written, so events
  committed in between can be lost from it; `NothingLostIff` is the exact condition
  (packages/obs-platform/src/obs_platform/workers/storage_writer.py:163-192).
- The eval scorer means every acknowledged message's trace to carry a final status. A trace without a row
  gets none, since its UPDATE matches nothing; `AckedWithoutRowIff` is the exact condition
  (packages/obs-platform/src/obs_platform/workers/eval_scorer.py:235-252).

## Model

| member | source | states |
|---|---|---|
| TraceMerge.BatchDescribes | packages/obs-platform/src/obs_platform/workers/storage_writer.py:290-397 | Merging one more batch, in any order and with any repetition, extends the set of events the trace row describes by exactly that batch: earliest start, latest end, error if any event failed, newest schema version, the end's output, a latency the end carries or that was computed from events seen with it, one of the values that may stand in each of name, service, environment, input, session, user and model, every attribute key, the evaluation status the sampling rule asks for |
| TraceMerge.DescriptionsAgree | packages/obs-platform/src/obs_platform/workers/storage_writer.py:290-397 | Two rows that describe the same events agree on status, both instants, schema version, output, evaluation status and attribute keys; on `latency_ms`, on each attribute value and on each of the seven one-event columns whenever the events determine them |
| TraceMerge.ColumnsFollow | packages/obs-platform/src/obs_platform/workers/storage_writer.py:331-367 | One event changes service, environment, session and user whenever it has a value, model only while none is stored, name and input while none is stored or when the event is an envelope, and finishing a trace changes none of the seven |
| MergeSchedules.ColumnSettlesIff | packages/obs-platform/src/obs_platform/workers/storage_writer.py:331-367 | For every column that follows such a rule, so for each of the seven: every schedule that delivers a set of events fills the column alike if and only if all events whose value may stand in it have the same value |
| MergeSchedules.InputSettlesIff | packages/obs-platform/src/obs_platform/workers/storage_writer.py:354-367 | All schedules that deliver a set of events give one `input` if and only if the envelopes that carry an input carry the same one or, when none does, the spans that carry one do |
| MergeSchedules.LatencySettlesIff | packages/obs-platform/src/obs_platform/workers/storage_writer.py:371-385 | All schedules that deliver a set of events with at most one trace.end give one `latency_ms` if and only if there is no end, or it carries its latency, or its own instants span exactly the time from the earliest start to the latest end of all the events, none counting as none |
| MergeSchedules.AttributesSettleIff | packages/obs-platform/src/obs_platform/workers/storage_writer.py:351-352 | All schedules give the same attributes if and only if for every key its carriers agree on the value |
| MergeSchedules.RowSettlesIff | packages/obs-platform/src/obs_platform/workers/storage_writer.py:290-397 | The whole trace row depends on the delivered events alone, whatever their order, batching and repetition, if and only if they determine the seven one-event columns, the latency and the attributes |
| TraceMerge.SortIsStable | packages/obs-platform/src/obs_platform/workers/storage_writer.py:328 | The batch is merged by time and, at one instant, in the order it came: every place of the batch occurs, and the places follow one another by (time, position) |
| TraceMerge.LastServiceWins | packages/obs-platform/src/obs_platform/workers/storage_writer.py:331-332 | After a batch the service is that of the event that is last by (time, position) among those that name one; so it depends on the batching |
| TraceMerge.LastSessionWins | packages/obs-platform/src/obs_platform/workers/storage_writer.py:335-336 | After a batch the session is that of the event that is last by (time, position) among those that carry one |
| TraceMerge.FirstModelWins | packages/obs-platform/src/obs_platform/workers/storage_writer.py:339-340 | After a batch that found no model, the model is that of the event that is first by (time, position) among those that have one |
| TraceMerge.StoredModelStays | packages/obs-platform/src/obs_platform/workers/storage_writer.py:339-340 | No batch replaces a stored model |
| TraceMerge.LastAttributeWins | packages/obs-platform/src/obs_platform/workers/storage_writer.py:351-352 | After a batch each attribute has the value of the event that is last by (time, position) among those that carry its key |
| TraceMerge.GradeKept | packages/obs-platform/src/obs_platform/workers/storage_writer.py:388-394 | Merging never takes back a status the eval scorer has set |
| TraceMerge.SamplingDecides | packages/obs-platform/src/obs_platform/workers/storage_writer.py:388-394 | Until then every batch with a trace.end takes the sampling decision anew, and no other batch changes the status |
| Store.StubLooksAbsent | packages/obs-platform/src/obs_platform/workers/storage_writer.py:302-325 | When a scan creates the row of a trace, the row shows what a missing one does, and any later batch merges to the same columns as without the stub |
| Store.SpansStep | packages/obs-platform/src/obs_platform/workers/storage_writer.py:111-150 | After any batch the spans table shows, for every span, the end event if one was ever delivered and otherwise the start: insert-ignore and upsert make redelivery and reordering harmless |
| Store.RunMeans | packages/obs-platform/src/obs_platform/workers/storage_writer.py:106-160 | In every run of storage and scanner batches every trace row and span row describes exactly the events delivered so far |
| Store.Convergence | packages/obs-platform/src/obs_platform/workers/storage_writer.py:106-160 | Two runs that delivered the same events, in any order, batching and repetition and with any scanner batches in between, hold identical span rows, agree on every trace row in the sense above, and carry as rollups the exact aggregate of the spans |
| Store.TenantOfRow | packages/obs-platform/src/obs_platform/workers/storage_writer.py:328-329 | A new trace row is of the tenant that the last event by (time, position) names; a stored row keeps its tenant |
| Store.EventsOfKeepOrder | packages/obs-platform/src/obs_platform/workers/storage_writer.py:115-119 | The events of a trace are all those of the batch that name it, in the order of the batch |
| Store.ScansOfKeepOrder | packages/obs-platform/src/obs_platform/workers/guardrail_scanner.py:62-73 | The scans of a trace are all those of the batch that name it, in the order of the batch |
| Store.SpanTenantStays | packages/obs-platform/src/obs_platform/workers/storage_writer.py:139-150 | No batch changes the tenant of a stored span |
| RunTotals.SpanRowsTell | packages/obs-platform/src/obs_platform/workers/storage_writer.py:260-287 | In every run the row of a span shows, column by column, what its deciding event says, its end or else its start: parent, kind, status, the name cut to 200 characters, both instants, the reported duration or else the whole milliseconds between the instants, payloads, error, attributes, each token figure in its own column, and the price of its tokens |
| RunTotals.RunAddsUp | packages/obs-platform/src/obs_platform/workers/storage_writer.py:194-251 | In every run the token and cost columns of every trace are the sums of what the deciding events of its spans report, one for each span however often anything was delivered |
| RunTotals.RunCounts | packages/obs-platform/src/obs_platform/workers/storage_writer.py:210-243 | In every run the counters of every trace are the numbers of its deciding events, of those that report a model call, of those that report a tool call and of those that report a failure |
| Rollups.TotalCounts | packages/obs-platform/src/obs_platform/workers/storage_writer.py:214-227 | The four counters of the aggregate are the numbers of all, LLM, tool and failed spans |
| Rollups.TotalSums | packages/obs-platform/src/obs_platform/workers/storage_writer.py:213-216 | Each of the three token figures and the cost of the aggregate is the sum of the column of that name over the spans |
| Interleaving.StorageReadsItsOwnColumns | packages/obs-platform/src/obs_platform/workers/storage_writer.py:81-98 | What a storage batch writes depends on the storage columns only and leaves the scanner's columns alone |
| Interleaving.ScanReadsItsOwnColumns | packages/obs-platform/src/obs_platform/workers/guardrail_scanner.py:131-155 | What a scanner batch writes depends on the scanner's columns only and leaves the storage columns alone |
| Interleaving.GroupsAreIndependent | packages/obs-platform/src/obs_platform/workers/guardrail_scanner.py:129-155 | Erasing the other consumer group's batches from a run changes nothing in a group's own columns, and the rows are those either group creates |
| Interleaving.InterleavingIrrelevant | packages/obs-platform/src/obs_platform/workers/guardrail_scanner.py:129-155 | With one tenant per trace, every interleaving of the same storage batches and the same scanner batches ends in the same database |
| Interleaving.FlaggedIffFinding | packages/obs-platform/src/obs_platform/workers/guardrail_scanner.py:101-127 | In every run a trace is flagged exactly when a findings row exists for it, and its risk and severity columns are those of its flags |
| Interleaving.RunGuards | packages/obs-platform/src/obs_platform/workers/guardrail_scanner.py:101-127 | In every run a trace's flags are the merge of the flags of all its scans one by one, its status, risk and severity are the ones those flags imply, and an unscanned trace shows the defaults: neither the batching of the scans nor the storage batches in between matter |
| Interleaving.RunFindings | packages/obs-platform/src/obs_platform/workers/guardrail_scanner.py:102-115 | In every run the findings table holds a row exactly for every trace, span, detector, type, field and offset at which some scan had a hit |
| Interleaving.ScanOrderIrrelevant | packages/obs-platform/src/obs_platform/workers/guardrail_scanner.py:101-127 | Two runs that scanned the same events of a trace, in any order, batching and repetition, show the same status, risk, severity, PII types and PII fields on it |
| Writers.SumRows | packages/obs-platform/src/obs_platform/workers/storage_writer.py:210-229 | The loop over one group of spans, in any order, gives the aggregate |
| Writers.StorageWriter.Process | packages/obs-platform/src/obs_platform/workers/storage_writer.py:106-160 | The imperative handler, from the start/end/trace dictionaries to the last rollup, performs exactly the transaction the convergence results are about, and touches no findings |
| Writers.StorageWriter.Collect | packages/obs-platform/src/obs_platform/workers/storage_writer.py:111-130 | Bucketing in one pass and popping finished starts gives the last end per span, the last start of each unfinished span, and each trace's events in order |
| Writers.StorageWriter.WriteTraceRows | packages/obs-platform/src/obs_platform/workers/storage_writer.py:163-192 | Every trace of the batch gets its merged row, every other row is untouched |
| Writers.StorageWriter.MergeTrace | packages/obs-platform/src/obs_platform/workers/storage_writer.py:290-397 | The loop over the time-sorted events merges exactly the batch and keeps the last tenant |
| Writers.StorageWriter.RecomputeRollups | packages/obs-platform/src/obs_platform/workers/storage_writer.py:194-251 | Every listed trace ends with the aggregate of its spans as rollup, and nothing else changes |
| Writers.GuardrailScanner.Process | packages/obs-platform/src/obs_platform/workers/guardrail_scanner.py:54-89 | Grouping by trace and persisting in key order performs exactly the scanner transaction the interleaving results are about |
| Writers.GuardrailScanner.GroupByTrace | packages/obs-platform/src/obs_platform/workers/guardrail_scanner.py:62-73 | Each trace's results are grouped in arrival order, and only traces with a result have a group |
| Writers.GuardrailScanner.Combine | packages/obs-platform/src/obs_platform/workers/guardrail_scanner.py:101-106 | The accumulated flags are the merge of all outcomes; the accumulated risk and severity are the flags' own |
| Writers.GuardrailScanner.Persist | packages/obs-platform/src/obs_platform/workers/guardrail_scanner.py:92-157 | One trace's row gets the merged flags, the larger risk and severity and the status they imply; findings are added once; storage columns stay |
| ConcurrentWriters.RollupsAlwaysExact | packages/obs-platform/src/obs_platform/workers/storage_writer.py:136-251 | With any number of writer and scanner transactions interleaved statement by statement, reads seeing committed rows and own writes, every committed rollup equals the aggregate of the committed spans of its trace in every reachable state |
| ConcurrentWriters.CommitConsistent | packages/obs-platform/src/obs_platform/workers/storage_writer.py:152-157 | A commit publishes rollups that match the spans it publishes, because it has held those trace rows since before it read the spans |
| ConcurrentSpans.SpansShowCommittedEvents | packages/obs-platform/src/obs_platform/workers/storage_writer.py:136-154 | With transactions interleaved statement by statement and any of them aborted, the spans table holds a span exactly when a committed batch carried one of its events, and shows its end row exactly when one carried the end |
| ConcurrentSpans.InterleavingsConverge | packages/obs-platform/src/obs_platform/workers/storage_writer.py:136-157 | Two interleavings that committed the same events end with the same spans, and with the same rollup on every trace both have a row for |
| ConcurrentBatches.AloneIsAtomic | packages/obs-platform/src/obs_platform/workers/storage_writer.py:136-157 | Every run in which only the transaction of one batch begins, its writes the sorted starts and then the sorted ends and its rows the sorted trace ids, and which ends with its commit, leaves the spans and rollups of the atomic transaction the convergence results are about |
| ConcurrentBatches.CanCommitAlone | packages/obs-platform/src/obs_platform/workers/storage_writer.py:136-157 | From any consistent tables there is such a run: a batch alone is never blocked |
| ConcurrentBatches.EffectOfBatch | packages/obs-platform/src/obs_platform/workers/storage_writer.py:136-150 | The statements of a batch, the inserts that ignore and then the upserts, one after another, give the spans of the atomic transaction |
| ConcurrentWriters.NoWaitCycle | packages/obs-platform/src/obs_platform/workers/storage_writer.py:132-135 | With trace rows locked in ascending key order no set of transactions waits for one another in a circle |
| ConcurrentWriters.StepBeyondSpans | packages/obs-platform/src/obs_platform/workers/guardrail_scanner.py:78-86 | In every state that keeps the invariant and the key order, while some active transaction is past its span writes, some transaction can take its next step: trace rows alone never block everybody |
| SpanDeadlocks.AscendingNeverStuck | packages/obs-platform/src/obs_platform/workers/storage_writer.py:132-157 | In every run of any number of writers and scanners in which every batch names its span rows in strictly ascending order and its trace rows in key order, no state is stuck: while a transaction is active some step other than an arrival or an abort is possible |
| SpanDeadlocks.TwoWritersBlockIff | packages/obs-platform/src/obs_platform/workers/storage_writer.py:136-150 | From any consistent tables, two batches can come to block one another, in some interleaving, if and only if their writes cross: one write of each, neither an insert that a committed row makes void, wants a row that the writes of the other before that place hold, while those before both places have no row in common |
| ConcurrentBatches.AscendsIff | packages/obs-platform/src/obs_platform/workers/storage_writer.py:136-150 | The writes of a batch ascend if and only if every span it starts comes before every span it ends, in key order: the starts and the ends are two separately sorted statements |
| ConcurrentBatches.StartsAndEndsCanBlock | packages/obs-platform/src/obs_platform/workers/storage_writer.py:136-150 | It happens: a batch that starts one new span and ends another, and a batch that starts the second and ends the first, can block one another |
| LostUpdates.RowDescribesKept | packages/obs-platform/src/obs_platform/workers/storage_writer.py:163-192 | With storage transactions that read a trace row before they lock it, in any interleaving and with any of them aborted, the committed row describes exactly the events its last writer read or brought, all of them committed |
| LostUpdates.NothingLostIff | packages/obs-platform/src/obs_platform/workers/storage_writer.py:163-192 | A run never loses an event of the row if and only if every event committed by the time of a commit was committed when its committer read the row or is in its own batch |
| LostUpdates.UndisturbedRunsConverge | packages/obs-platform/src/obs_platform/workers/storage_writer.py:163-192 | If nobody commits the trace between a committer's read and its commit, the row describes exactly the committed events at every moment |
| LostUpdates.OneHolder | packages/obs-platform/src/obs_platform/workers/storage_writer.py:181-192 | At most one transaction holds the row at any moment, so between a lock and its commit nobody else commits: only the time between read and lock can lose events |
| LostUpdates.FailureIsLost | packages/obs-platform/src/obs_platform/workers/storage_writer.py:163-192 | It happens: for any failed event and any unfailed one, some run commits both and ends with a row that describes the second only |
| ConcurrentWriters.StepUsesUpWork | packages/obs-platform/src/obs_platform/workers/storage_writer.py:136-157 | Every step except a new arrival lowers the total remaining work, so the transactions present cannot run for ever |
| ConcurrentWriters.ArrivalOrderDeadlocks | packages/obs-platform/src/obs_platform/workers/storage_writer.py:132-135 | Locking in arrival order instead reaches a wait cycle with two batches over two traces |
| GuardrailFlags.TenIsSmallest | packages/obs-platform/src/obs_platform/guardrails/engine.py:258-290 | The kept list of fields is ascending and holds exactly the members with fewer than ten members below them |
| GuardrailFlags.TruncateEarly | packages/obs-platform/src/obs_platform/guardrails/engine.py:258-290 | Truncating one side to ten before a merge loses none of the ten smallest of the union |
| GuardrailFlags.MergeFlags | packages/obs-platform/src/obs_platform/guardrails/engine.py:258-290 | The key-by-key code on a copied dictionary computes the merge the lemmas are about |
| GuardrailFlags.BestInjectionStays | packages/obs-platform/src/obs_platform/guardrails/engine.py:286-289 | The accumulated flags show an injection exactly when some scan reported one: one of the highest score of all, and of those the one reported last |
| GuardrailFlags.InjectionScoreIsOrderFree | packages/obs-platform/src/obs_platform/guardrails/engine.py:286-289 | Neither order nor repetition of the scans changes the score of the injection shown |
| GuardrailFlags.CountersAddUp | packages/obs-platform/src/obs_platform/guardrails/engine.py:266-277 | The finding count and the PII count are the sums over the scans, and the engines are those of the last scan that names any |
| GuardrailFlags.MergeAssociative | packages/obs-platform/src/obs_platform/guardrails/engine.py:258-290 | Merging is associative, with the ten-field truncation at every step |
| GuardrailFlags.MergeIdentity | packages/obs-platform/src/obs_platform/guardrails/engine.py:258-290 | The empty flags are neutral |
| GuardrailFlags.BatchingIrrelevant | packages/obs-platform/src/obs_platform/guardrails/engine.py:258-290 | Splitting a trace's scans into batches in any way gives the same flags |
| GuardrailFlags.OrderAndRedeliveryIrrelevant | packages/obs-platform/src/obs_platform/guardrails/engine.py:258-290 | Risk, severity, PII types and PII fields depend only on which scans happened, not on order or repetition, and the fields are the ten smallest of every field any scan reported |
| GuardrailFlags.SummarizeConcat | packages/obs-platform/src/obs_platform/guardrails/engine.py:216-255 | Scanning two events and merging reports the count, severity and PII part of scanning their findings together |
| GuardrailFlags.WorstIsMax | packages/obs-platform/src/obs_platform/guardrails/engine.py:220-247 | The severity of a summary, and that of its PII part, is the highest among the findings it is about |
| GuardrailFlags.WorstInjectionIsFirstBest | packages/obs-platform/src/obs_platform/guardrails/engine.py:243-251 | The injection of a summary is the first of those with the highest score, and there is none exactly when every finding is PII |
| GuardrailFlags.CountPiiCounts | packages/obs-platform/src/obs_platform/guardrails/engine.py:236-237 | The PII count of a summary is the number of its PII findings |
| GuardrailFlags.RiskOfOne | packages/obs-platform/src/obs_platform/guardrails/engine.py:221-225 | One finding has the risk of its severity: 0, 15, 35, 70 or 95 |
| GuardrailFlags.RiskOfOneMore | packages/obs-platform/src/obs_platform/guardrails/engine.py:221-225 | A further finding no worse than the worst adds 5 if its detector and type are new and nothing if they are not, and never beyond 100 |
| GuardrailFlags.RiskGrows | packages/obs-platform/src/obs_platform/guardrails/engine.py:221-225 | The risk depends on the set of findings only, and more findings never lower it |
| Delivery.StepKeepsInv | packages/obs-platform/src/obs_platform/workers/base.py:285-414 | Every read, claim, call, acknowledgement, dead-letter, crash and late acknowledgement keeps the pending counts equal to the deliveries made |
| Delivery.AnsweredLeaves | packages/obs-platform/src/obs_platform/workers/base.py:353-396 | Once a reply decides a batch, every pending message it acknowledges or gives up on leaves the pending list with that reason, if the acknowledgement succeeds, and every message given up on has its dead-letter row with its delivery count, if the insert does; every other entry, exit and row is as before, and the calls made are counted |
| Delivery.GivenUpStays | packages/obs-platform/src/obs_platform/workers/base.py:362-385 | When the handler fails otherwise, or four times with a lock conflict, nothing changes but the count of calls |
| Delivery.SomeReplyDecides | packages/obs-platform/src/obs_platform/workers/base.py:356-385 | Of any replies one decides: the first that is no lock conflict, or the fourth |
| Delivery.ReclaimedIs | packages/obs-platform/src/obs_platform/workers/base.py:313-350 | A reclaim pass, message by message: out of attempts, it leaves as poison if the acknowledgement succeeds and has its row with its count if the insert does; otherwise, idle long enough, its count rises by one and its idle time starts anew; otherwise nothing about it changes |
| Delivery.ReclaimHandsOver | packages/obs-platform/src/obs_platform/workers/base.py:313-350 | Such a pass hands over exactly the messages it claims, as one batch in id order, or no batch when there are none |
| Delivery.ReadDelivers | packages/obs-platform/src/obs_platform/workers/base.py:267-283 | A read hands over what it read as one batch, each message for the first time and as of now, and changes nothing else |
| Delivery.AckOrCrash | packages/obs-platform/src/obs_platform/workers/base.py:386-396 | A late acknowledgement takes its pending messages off the list if it succeeds; a crash only loses the batch in hand |
| Delivery.HandledIsDone | packages/obs-platform/src/obs_platform/workers/base.py:386-396 | In every run, what a handler has acknowledged or given up on, the acknowledgement succeeding, is never pending and never delivered again |
| Delivery.NotClaimedTooSoon | packages/obs-platform/src/obs_platform/workers/base.py:320-332 | In every run a message is delivered again only by a reclaim pass, and only once its last delivery is as long ago as the minimum idle time |
| Delivery.DeliveriesAreBounded | packages/obs-platform/src/obs_platform/workers/base.py:319-331 | In every run a message is delivered at most `max_delivery_attempts` + 1 times and handed to the handler at most four times per delivery |
| Delivery.NothingIsLost | packages/obs-platform/src/obs_platform/workers/base.py:353-414 | Whatever was delivered is pending or has left for a stated reason, never both; one that left recorded has its dead-letter row; a poison exit happens after exactly max + 1 deliveries |
| Delivery.DeadLetteredIsRecorded | packages/obs-platform/src/obs_platform/workers/base.py:511-535 | An exit by dead-lettering has its row unless the insert of that very step failed |
| Delivery.SeenIsProgress | packages/obs-platform/src/obs_platform/workers/base.py:322-332 | A reclaim pass whose window holds a message that is out of attempts and gets acknowledged, or that has been idle long enough, removes it as poison or raises its count by one |
| Delivery.PoisonDrains | packages/obs-platform/src/obs_platform/workers/base.py:285-350 | A message whose handler never succeeds is gone once passes have seen it max + 1 times, whatever happened in between |
| Delivery.OldestIsSeen | packages/obs-platform/src/obs_platform/workers/base.py:298-305 | The window of the smallest pending ids always contains the oldest pending message |
| Delivery.EverythingDrains | packages/obs-platform/src/obs_platform/workers/base.py:285-350 | Once nothing new is read, and passes find their windows idle and can acknowledge their poison, the pending list is empty after max + 1 passes for each message it held, whatever the handlers do in between |
| Consumer.StreamConsumer.ReclaimPending | packages/obs-platform/src/obs_platform/workers/base.py:285-350 | The timed pass performs exactly the protocol's reclaim step and returns the messages it claimed |
| Consumer.StreamConsumer.ProcessDelivery | packages/obs-platform/src/obs_platform/workers/base.py:353-414 | The retry loop makes exactly the calls, outcome, dead letters, acknowledgements and counters of the protocol's process step |
| Consumer.StreamConsumer.WriteDeadLetters | packages/obs-platform/src/obs_platform/workers/base.py:511-535 | One row per message, an existing row winning; a failing insert changes nothing |
| Consumer.StreamConsumer.DeadLetterIds | packages/obs-platform/src/obs_platform/workers/base.py:465-509 | Poison is recorded, if the insert succeeds, and leaves the pending list, if the acknowledgement does |
| Consumer.Parse | packages/obs-platform/src/obs_platform/workers/base.py:421-439 | Every message of a batch is parsed or dead-lettered, exactly once |
| EvalBuffer.EvalScorer.Ingest | packages/obs-platform/src/obs_platform/workers/eval_scorer.py:143-161 | The held ids stay exactly the buffered messages with none twice; sampled trace.ends are held, all else is acknowledged, and nobody's first sighting changes |
| EvalBuffer.EvalScorer.ProcessBatch | packages/obs-platform/src/obs_platform/workers/eval_scorer.py:134-166 | Nothing is flushed below the batch size; the acknowledgements are the ignored events plus what the flush answered |
| EvalBuffer.EvalScorer.MaybeFlush | packages/obs-platform/src/obs_platform/workers/eval_scorer.py:168-185 | The buffer is flushed exactly when full, when the interval has passed, or when the shorter poll period has passed and an entry was deferred before |
| EvalBuffer.EvalScorer.Flush | packages/obs-platform/src/obs_platform/workers/eval_scorer.py:188-222 | Against the table before: every entry of a tenant whose pass raises is neither held nor answered; of every other entry whose row no second tenant's entry names, the flush decides held or answered and the exact status left on the row, skipped_budget over budget and else scored, error, not_scorable or unchanged; rows nobody named are untouched and no row appears |
| EvalBuffer.EvalScorer.ScoreTenant | packages/obs-platform/src/obs_platform/workers/eval_scorer.py:224-301 | Per tenant: fails exactly when the pass raises; else all skipped over budget, or each trace scored, error, not_scorable or left, with only young waiting entries deferred |
| EvalBuffer.EvalScorer.Readiness | packages/obs-platform/src/obs_platform/workers/eval_scorer.py:303-335 | Each trace is gradable, waiting or hopeless, by its row, its sample and its status |
| EvalBuffer.EvalScorer.RecordVerdicts | packages/obs-platform/src/obs_platform/workers/eval_scorer.py:337-386 | Graded traces end as scored and a trace with any failed verdict ends as error |
| EvalBuffer.OneFateEach | packages/obs-platform/src/obs_platform/workers/eval_scorer.py:188-222 | For every entry of a flushed batch: it is held, or acknowledged, or neither exactly by its tenant's pass, the table before and its age; a row it leaves has skipped_budget over budget and else the status the pass implies, and an acknowledged one is final; what is held is inside its time window, so a pass after every window empties the buffer |
| EvalBuffer.FlushLeaves | packages/obs-platform/src/obs_platform/workers/eval_scorer.py:224-301 | What a flush leaves on a row that one tenant's entries name: over budget it is skipped; a gradable trace is error if a verdict on it failed and else scored; an ungradable one whose envelope was not sampled out or already decided is not scorable; one that may still become gradable is left, and its young entries held, until some entry of it has waited its full window |
| EvalBuffer.HeldCountAttempts | packages/obs-platform/src/obs_platform/workers/eval_scorer.py:188-222 | What a flush keeps is an entry it was given, with its first sighting and one more attempt counted |
| EvalBuffer.AckedWithoutRowIff | packages/obs-platform/src/obs_platform/workers/eval_scorer.py:235-252 | Unless its tenant's pass raises, an entry is acknowledged with no row to carry its status if and only if its trace had none before the flush and the tenant is over budget or the entry's time window is over |
| EvalBuffer.AckWithoutRow | packages/obs-platform/src/obs_platform/workers/eval_scorer.py:238-252 | It happens: a new scorer that takes in one sampled trace.end and flushes over budget acknowledges it, and its trace has no row |
| Budget.TotalsAreExact | packages/obs-platform/src/obs_platform/evals/budget.py:161-185 | With any number of replicas checking and recording statement by statement under row locks, every stored total is exactly the sum of the committed runs of its tenant and period, also when a run is recorded in a later period than it was checked in |
| Budget.FiguresAreSums | packages/obs-platform/src/obs_platform/evals/budget.py:161-185 | In every reachable state each stored figure, prompt, completion and total tokens, cost and calls, is the sum of that figure over the committed runs of its tenant and period |
| Budget.CommitRecords | packages/obs-platform/src/obs_platform/evals/budget.py:131-185 | In every reachable state a commit raises each figure of the run's day and month by what the run spent and no other row |
| Budget.BookedWhenRecorded | packages/obs-platform/src/obs_platform/evals/budget.py:141-142 | A run is booked on the day and month in which it is recorded, not those in which it was admitted |
| Budget.AdmittedIff | packages/obs-platform/src/obs_platform/evals/budget.py:90-128 | A replica goes on to the judge exactly when the totals it read are below all three caps |
| Budget.OvershootIsBounded | packages/obs-platform/src/obs_platform/evals/budget.py:90-128 | Daily cost, monthly cost and daily tokens never exceed cap - 1 + n * M for n replicas and runs of at most M; under a cap of zero nothing is recorded |
| Budget.SomebodyCanGoOn | packages/obs-platform/src/obs_platform/evals/budget.py:131-158 | Recording locks the day row before the month row, so replicas never block one another for good |
| Budget.UsageTable.CheckBudget | packages/obs-platform/src/obs_platform/evals/budget.py:90-128 | Allowed exactly when all three totals are below their caps, with the first failing cap as the reason |
| Budget.UsageTable.RecordSpend | packages/obs-platform/src/obs_platform/evals/budget.py:131-185 | Each of the five figures of the tenant's day and month rows grows by exactly its argument, the total by prompt and completion together, and no other row changes |
| Budget.CostShares | packages/obs-platform/src/obs_platform/workers/eval_scorer.py:343-369 | The nested loop writes one share per score of every usable verdict |
| Budget.SharesStayWithinRun | packages/obs-platform/src/obs_platform/workers/eval_scorer.py:351-369 | The cost shares of one run's rows never add up to more than the run cost |
| Budget.ShareIsQuotient | packages/obs-platform/src/obs_platform/workers/eval_scorer.py:343-369 | Every score of a usable verdict gets one row, in order, with the run cost divided by the number of verdicts times that verdict's scores, rounded down |
| Judge.TruncateContexts | packages/obs-platform/src/obs_platform/evals/judge.py:62-76 | The kept context is exactly the first `max_context_chars` characters of all chunks together, every chunk but the last kept one whole |
| Judge.LastForIsLast | packages/obs-platform/src/obs_platform/evals/judge.py:412-419 | A position's answer is the last result that names it, and there is none exactly when no result does |
| Judge.ParseVerdicts | packages/obs-platform/src/obs_platform/evals/judge.py:412-445 | One verdict per sample in order, with the scores of its answer; a skipped or unreadable sample is an error, never dropped |
| Digits.CollectDigits | packages/obs-platform/src/obs_platform/guardrails/patterns.py:97 | The decimal values of the characters that are decimal digits, in order, for any table of decimal digits |
| Verhoeff.TableIsDihedral | packages/obs-platform/src/obs_platform/guardrails/patterns.py:139-150 | The multiplication table is the dihedral group of order ten |
| Verhoeff.Associative | packages/obs-platform/src/obs_platform/guardrails/patterns.py:139-150 | The table is associative |
| Verhoeff.PowerStep | packages/obs-platform/src/obs_platform/guardrails/patterns.py:151-160 | Each permutation row is row one applied to the row before, the wrap from row seven to row zero included |
| Verhoeff.RowCondition | packages/obs-platform/src/obs_platform/guardrails/patterns.py:139-160 | x * p(y) and y * p(x) differ for distinct digits |
| Verhoeff.OneDigitChangesChecksum | packages/obs-platform/src/obs_platform/guardrails/patterns.py:163-176 | Changing one digit of a sequence of any length changes the checksum |
| Verhoeff.SwapChangesChecksum | packages/obs-platform/src/obs_platform/guardrails/patterns.py:163-176 | Swapping two distinct neighbours of a sequence of any length changes the checksum |
| Verhoeff.AadhaarValid | packages/obs-platform/src/obs_platform/guardrails/patterns.py:163-176 | The loop over the reversed digits decides twelve digits, first not 0 or 1, checksum zero |
| Verhoeff.CheckDigitDecides | packages/obs-platform/src/obs_platform/guardrails/patterns.py:163-176 | A sequence passes if and only if its last digit is the inverse of the product of the others, each permuted by its place |
| Verhoeff.CheckDigitCompletes | packages/obs-platform/src/obs_platform/guardrails/patterns.py:163-176 | Eleven digits, the first neither 0 nor 1, are completed to a passing number by exactly that one digit |
| Verhoeff.KnownChecksum | packages/obs-platform/src/obs_platform/guardrails/patterns.py:139-176 | The check digit of 236 is 3 |
| Verhoeff.MistypedAadhaarFails | packages/obs-platform/src/obs_platform/guardrails/patterns.py:163-176 | A text that passes fails once one digit is mistyped |
| Verhoeff.SwappedAadhaarFails | packages/obs-platform/src/obs_platform/guardrails/patterns.py:163-176 | A text that passes fails once two distinct neighbouring digits are swapped, with or without separators between them |
| Iban.PowerIsNotOne | packages/obs-platform/src/obs_platform/guardrails/patterns.py:111-121 | No power of ten an IBAN can reach is 1 modulo 97 |
| Iban.CheckDigitsDecide | packages/obs-platform/src/obs_platform/guardrails/patterns.py:111-121 | Of the check digits 02 to 98 exactly 98 less the remainder, modulo 97, of account, country and two zeros makes an IBAN valid |
| Iban.KnownIban | packages/obs-platform/src/obs_platform/guardrails/patterns.py:111-121 | GB82 WEST 1234 5698 7654 32 is valid and is not with its check digits exchanged |
| Iban.CaseIsIgnored | packages/obs-platform/src/obs_platform/guardrails/patterns.py:113 | Texts that differ in case only are both valid or both not |
| Iban.OneSymbolDetected | packages/obs-platform/src/obs_platform/guardrails/patterns.py:111-121 | Replacing one digit by another or one letter by another, before or after the fourth place, makes a valid IBAN fail |
| Iban.SwapDetected | packages/obs-platform/src/obs_platform/guardrails/patterns.py:111-121 | Swapping two distinct neighbouring digits makes a valid IBAN fail, also when the rearrangement carries them to opposite ends |
| Iban.MistypedIbanFails | packages/obs-platform/src/obs_platform/guardrails/patterns.py:111-121 | The same for a mistyped digit or letter in the text as given |
| Iban.SwappedIbanFails | packages/obs-platform/src/obs_platform/guardrails/patterns.py:111-121 | The same for swapped digits in the text as given, separators or not |
| Luhn.SumFromLeft | packages/obs-platform/src/obs_platform/guardrails/patterns.py:100-107 | The left-to-right parity loop computes the right-to-left definition for every length |
| Luhn.LuhnValid | packages/obs-platform/src/obs_platform/guardrails/patterns.py:95-108 | Valid exactly for 12 to 19 digits whose sum ends in zero |
| Luhn.CheckDigitDecides | packages/obs-platform/src/obs_platform/guardrails/patterns.py:100-108 | A number passes if and only if its last digit is the one that brings the sum of the others, every second one doubled from the last of them on, to the next multiple of ten |
| Luhn.KnownCard | packages/obs-platform/src/obs_platform/guardrails/patterns.py:95-108 | 4111 1111 1111 1111 is valid and 4111 1111 1111 1112 is not |
| Luhn.OneDigitChangesSum | packages/obs-platform/src/obs_platform/guardrails/patterns.py:100-107 | Every change of one digit, at any place of a number of any length, changes the last digit of the sum |
| Luhn.SwapMissedIffZeroNine | packages/obs-platform/src/obs_platform/guardrails/patterns.py:100-107 | A swap of neighbours goes unnoticed exactly when they are equal or are 0 and 9 |
| Luhn.MistypedCardFails | packages/obs-platform/src/obs_platform/guardrails/patterns.py:95-108 | A text that passes fails once one digit is mistyped |
| Luhn.SwappedCardFailsUnlessZeroNine | packages/obs-platform/src/obs_platform/guardrails/patterns.py:95-108 | A text that passes still passes after a swap of distinct neighbouring digits exactly when they are 0 and 9 |
| Redaction.ResolvedKeepsTheStrongest | packages/obs-platform/src/obs_platform/guardrails/patterns.py:398-410 | The kept matches are disjoint and in text order, come from the candidates, and every candidate overlaps a kept one that is at least as strong: by severity, then score, then the earlier start, then the greater length |
| Redaction.ResolveOverlaps | packages/obs-platform/src/obs_platform/guardrails/patterns.py:398-410 | Sort, greedy loop and re-sort compute that selection |
| Redaction.Splice | packages/obs-platform/src/obs_platform/guardrails/patterns.py:413-425 | The cursor loop yields, character by character, the mask where a kept match starts, nothing inside one, and the original character everywhere else |
| Redaction.RedactText | packages/obs-platform/src/obs_platform/guardrails/patterns.py:413-425 | On any non-empty matches: the splice of the resolved ones, with every match covered |
| Redaction.RenderIsSpliced | packages/obs-platform/src/obs_platform/guardrails/patterns.py:413-425 | The same text results from putting the last mask in place of its interval and treating the text before it likewise |
| Redaction.CollectHits | packages/obs-platform/src/obs_platform/guardrails/patterns.py:367-395 | Nothing valid is left out if and only if every pattern has at most one valid hit or still fits within the limit with all of its hits after those of the patterns before it; whatever is left out, every pattern contributes its first valid hit, so at most limit plus the number of patterns are kept, all of them valid |
| Redaction.LimitIsExceeded | packages/obs-platform/src/obs_platform/guardrails/patterns.py:367-395 | The limit is not exact: two patterns with one valid hit each give two matches under a limit of one |
| SpanTree.TreeWalk.Walk | packages/obs-platform/src/obs_platform/api/serializers.py:162-168 | What one recursive call appends is a well-nested stretch with siblings in key order, holding every span below its parent once |
| SpanTree.TreeWalk.WalkChild | packages/obs-platform/src/obs_platform/api/serializers.py:163-168 | One turn of the loop; the visited test never skips a span |
| SpanTree.GroupByParent | packages/obs-platform/src/obs_platform/api/serializers.py:151-157 | Each parent's children, unknown parents counting as none, sorted by (no start, start, id) |
| SpanTree.OrderSpans | packages/obs-platform/src/obs_platform/api/serializers.py:143-174 | The result is a permutation: first the spans whose parent chain ends, as a depth-first forest with contiguous subtrees, ordered siblings and chain length as depth; then the rest at depth 0 in input order |
| SpanTree.SiblingsByTime | packages/obs-platform/src/obs_platform/api/serializers.py:158-160 | Of two siblings the one shown first started no later, spans without a start come last, and ids decide ties |
| SpanTree.WalkFindsRooted | packages/obs-platform/src/obs_platform/api/serializers.py:170-173 | The walk reaches exactly the spans whose parent chain ends |
| SpanTree.RootlessGoesOn | packages/obs-platform/src/obs_platform/api/serializers.py:164 | A span has no root exactly when its parent is among the spans and has none either |
| SpanTree.RootlessIffCycle | packages/obs-platform/src/obs_platform/api/serializers.py:143-174 | A span has no root exactly when going up from it reaches a span that is its own ancestor: the spans shown at the end are those on a parent cycle or below one |
| SpanTree.OneDepth | packages/obs-platform/src/obs_platform/api/serializers.py:162-168 | A span's depth is unique |
| RunTable.FirstKeptAncestor | packages/obs-sdk/src/obs_sdk/langchain.py:517-543 | The recorded parent is the first ancestor that was not skipped |
| RunTable.StartedRunMatches | packages/obs-sdk/src/obs_sdk/langchain.py:517-543 | The row computed from the table alone is the one the whole history implies: nearest kept ancestor, the root's trace and tenant, however many ancestors have ended or been evicted |
| RunTable.RunIsTrue | packages/obs-sdk/src/obs_sdk/langchain.py:495-707 | After any sequence of start and end calls with fresh span ids, all invariants hold of the history of runs those calls started |
| RunTable.Handler.StartRun | packages/obs-sdk/src/obs_sdk/langchain.py:495-603 | The new state is the specification's; a start adds one run to the history, below its parent if tracked and else as a root, and emits the trace start of a root and the span start of an unskipped run with the nearest kept ancestor, trace and tenant of its root; all table and event invariants hold on |
| RunTable.Handler.EndRun | packages/obs-sdk/src/obs_sdk/langchain.py:605-700 | The new state is the specification's; an end of a tracked run forgets it, and the stream then has exactly one end of its span, if it has one, where it had none, and one more end of its trace exactly when the run is a root and the trace open; an unknown end changes nothing; all invariants hold on |
| RunTable.Handler.Register | packages/obs-sdk/src/obs_sdk/langchain.py:702-707 | The table keeps the newest runs within its bound |
| RunTable.Handler.OnChainStart | packages/obs-sdk/src/obs_sdk/langchain.py:302-332 | A chain run emits its span start as an agent when it has no parent id and as a chain otherwise; a nested chain that is no graph node is skipped exactly when chains are not captured or its name is ignored |
| RunTable.SpanKeeps | packages/obs-sdk/src/obs_sdk/langchain.py:593-603 | Starting a span keeps: every tracked run knows its nearest kept ancestor whatever ended or was evicted, every span has one start, no end before it, and the trace counters equal the tally of emitted starts |
| RunTable.EndKeeps | packages/obs-sdk/src/obs_sdk/langchain.py:605-653 | Ending a span keeps them: at most one end, after its start, with the parent, trace and tenant of the start |
| RunTable.CloseKeeps | packages/obs-sdk/src/obs_sdk/langchain.py:655-700 | A trace end reports exactly the span, LLM and tool starts emitted for the trace since it was opened |
| RunTable.EndMatchesStart | packages/obs-sdk/src/obs_sdk/langchain.py:627-640 | After any sequence of calls, a span end in the stream is the only one of its span and comes after the one start of it, with the same parent, trace and tenant |
| RunTable.TraceEndReportsTally | packages/obs-sdk/src/obs_sdk/langchain.py:655-700 | After any sequence of calls, a trace end in the stream carries the numbers of span starts, of those of model calls and of those of tool calls that the stream shows in the trace since it was begun |
| RunTable.EndIsEmitted | packages/obs-sdk/src/obs_sdk/langchain.py:605-700 | After any sequence of calls, ending a tracked run adds to the stream the one end of its span, if it has one, and of no other, and one end of its trace exactly when it is a root and the stream shows the trace open |
| RunTable.StartIsEmitted | packages/obs-sdk/src/obs_sdk/langchain.py:580-603 | After any sequence of calls, a start that is not skipped adds the one start of its span, with its kind, and of no other; one without a tracked parent begins its trace, and no other begins |
| RunTable.OthersEmitNothing | packages/obs-sdk/src/obs_sdk/langchain.py:509-511 | A call without a run id and the end of an untracked run change nothing |
| RunTable.OpenTraces | packages/obs-sdk/src/obs_sdk/langchain.py:565-585 | After any sequence of calls, the traces counted for are exactly those the stream has begun and not ended since |
| RunTable.RecentIsTracked | packages/obs-sdk/src/obs_sdk/langchain.py:702-707 | After any calls that start no run twice, the table holds at most its bound, and every unfinished run with fewer runs started since than the bound is still in it: the oldest go first |
| Publisher.EveryEventIsAccountedFor | packages/obs-sdk/src/obs_sdk/publisher.py:188-209 | For every interleaving of producers, drain thread and failures: calls = queued + refused and queued = published + dropped + queue + batch, exact whenever no producer is between its put and its counter; the queue never exceeds its size |
| Publisher.PutIsAcceptedIff | packages/obs-sdk/src/obs_sdk/publisher.py:188-209 | A put joins the end of the queue unless the queue has a bound and has reached it; then it is refused and the queue stays |
| Publisher.BatchIsSettled | packages/obs-sdk/src/obs_sdk/publisher.py:316-346 | A write that succeeds puts the whole batch on the stream in order; any failure counts the whole batch as dropped |
| Publisher.StreamIsInOrder | packages/obs-sdk/src/obs_sdk/publisher.py:296-346 | The stream is an in-order selection of the accepted events, without repetition, and the rest is dropped or on its way |
| Publisher.ExitLeavesNothing | packages/obs-sdk/src/obs_sdk/publisher.py:309-310 | When the drain loop exits, everything accepted so far is written or counted as dropped |
| Publisher.FlushIsRightIff | packages/obs-sdk/src/obs_sdk/publisher.py:211-227 | When `flush` sees an empty queue and nothing in flight, everything is settled unless the drain thread is still filling a non-empty batch |
| Publisher.FlushMayAnswerEarly | packages/obs-sdk/src/obs_sdk/publisher.py:311-314 | Such a moment is reachable with one event |
| Publisher.RedisStreamPublisher.Publish | packages/obs-sdk/src/obs_sdk/publisher.py:188-209 | A call adds the event at the end of the queue and counts it as queued, or, exactly when a bounded queue is full, counts it as dropped; it is a put and a count of the protocol |
| Publisher.RedisStreamPublisher.DrainBatch | packages/obs-sdk/src/obs_sdk/publisher.py:296-307 | A batch is a prefix of the queue within the batch size, and short only when the queue ran empty or the time was up |
| Publisher.RedisStreamPublisher.RunOnce | packages/obs-sdk/src/obs_sdk/publisher.py:309-346 | One turn writes its batch in order or counts all of it as dropped, and exits only when stopped with an empty queue |
| RateLimit.InProcessCounter.Incr | packages/obs-platform/src/obs_platform/security/ratelimit.py:63-71 | The answer is the number of increments since the bucket last expired, whatever lifetimes the keys have and despite eviction of others; it is the number of all its increments for every caller whose buckets of one window length are counted up no later than in the bucket after them |
| RateLimit.InProcessCounter.Get | packages/obs-platform/src/obs_platform/security/ratelimit.py:73-76 | The answer is the number of increments since the bucket last expired, and zero once it has |
| RateLimit.InProcessCounter.Evict | packages/obs-platform/src/obs_platform/security/ratelimit.py:78-81 | Eviction forgets nothing that has not expired |
| RateLimit.PreviousAlive | packages/obs-platform/src/obs_platform/security/ratelimit.py:97-120 | No increment of a bucket expires before the next bucket ends |
| RateLimit.InProcessCounter.CheckRateLimit | packages/obs-platform/src/obs_platform/security/ratelimit.py:97-128 | On a counter shared by callers with any limits and windows, a request is allowed exactly when the unexpired counts of its bucket and of the previous one, the latter weighted by its overlap, are within the limit. As long as the counter holds one caller's requests in time, it goes on to, and the request is decided by the true counts of that caller's requests, except that one answered after its bucket is over counts the previous bucket as zero if that has expired by then |
| RateLimit.OthersKeep | packages/obs-platform/src/obs_platform/security/ratelimit.py:42-81 | A request of another caller, whatever its window and lifetime, leaves the counts of this one true |
| RateLimit.AtMostLimitPerBucket | packages/obs-platform/src/obs_platform/security/ratelimit.py:115-124 | At most `limit` of a caller's requests are allowed in a bucket, also when answers come after their bucket is over |
| RateLimit.OneWindowIsBounded | packages/obs-platform/src/obs_platform/security/ratelimit.py:115-124 | With any request allowed at fraction e of its bucket, at most limit * (1 + e) of the caller's requests have been allowed in a span of one window length that contains it, when each was answered within its bucket |
| RateLimit.AnyWindowIsBounded | packages/obs-platform/src/obs_platform/security/ratelimit.py:115-124 | Wherever a span of one window length is laid, fewer than twice the limit are allowed in it, when each was answered within its bucket |
| RateLimit.LateAnswersAreBounded | packages/obs-platform/src/obs_platform/security/ratelimit.py:115-124 | In whatever order the requests are answered and however late, at most twice the limit are allowed in a span of one window length |
| RateLimit.SlidingWindow | packages/obs-platform/src/obs_platform/security/ratelimit.py:115-124 | When the requests of the previous bucket came evenly spread, a request is allowed only if the window of one length up to now holds at most the limit, this one included, and refused only if it holds at least the limit |
| Paging.ClampLimit | packages/obs-platform/src/obs_platform/api/pagination.py:53-57 | A missing limit is the default; a given one is cut to the range 1 to maximum and kept when it lies in it |
| Paging.PageMeans | packages/obs-platform/src/obs_platform/api/pagination.py:60-69 | A page is in order below its cursor and passes over no matching row, its next cursor is its last row, and there is one exactly when matching rows are left |
| Paging.PageIsNewestFirst | packages/obs-platform/src/obs_platform/api/routers/traces.py:84-97 | A page goes from the newest row down, ids breaking ties downwards; what it leaves out below the cursor is not newer than what it shows |
| Paging.NeverTwice | packages/obs-platform/src/obs_platform/api/routers/traces.py:84-97 | Whatever is inserted or deleted between requests, no row is returned twice in a walk |
| Paging.ReturnedExactlyOnce | packages/obs-platform/src/obs_platform/api/routers/traces.py:84-97 | Every row present throughout a finished walk is returned in exactly one place |

## Left out

- Redis, the SQL engine, the HTTP layer, authentication, the judge's client, the embedding and PII libraries and all regular expressions are foreign code; their effects are abstract steps or parameters.
- `created_at`, `updated_at` and `last_error` style columns, log lines and alerts are not part of the states.
- Lost updates: `LostUpdates` follows one trace row; the other rows of a batch, its spans and its rollups are not part of that model, and the results about runs of whole batches are about atomic transactions.
- SpanDeadlocks.AscendingNeverStuck: for more than two transactions only a sufficient condition, because starts and ends are two separately sorted statements and any of them may have committed or rolled back before the others meet; the exact condition is proved for two.
- Deadlock freedom of the eval scorer's UPDATE ... IN statements and of findings rows is not claimed.
- GuardrailFlags.WorstInjectionIsFirstBest: an injection's score is not rounded to four places.
- Finding counts and injection details of flags grow with redelivery and are not claimed stable.
- Column widths, unknown severity strings and the JSON, base64url and timestamp encodings are not modelled; identifiers and cursors are values.
- Reclaim passes and acknowledgements are single steps; messages trimmed from the stream, XCLAIM losing a race to another consumer, and the `delivery_count` column of handler dead letters are not modelled.
- Consumer.StreamConsumer.ReclaimPending: the window of pending entries and the success of insert and acknowledgement are inputs, because the server decides them.
- A handler's dead letter can be lost when its insert fails and the acknowledgement succeeds, as in the code; DeadLetteredIsRecorded is conditional on the insert.
- EvalBuffer.EvalScorer.Flush: one tenant's pass is one atomic step on the trace table; the storage writer does not run in its middle.
- EvalBuffer.EvalScorer.Ingest: a message id occurs with one event; the clock is one reading per batch.
- Budget.OvershootIsBounded: money spent by a run that crashes before it is recorded is not in the recorded total; caps are integers in micro-dollars, so float rounding of the comparison is not modelled.
- The token columns of score rows, which repeat the batch share for every score of a verdict, have no bound like that of the cost column.
- Judge prompts, JSON extraction and clamping of scores to [0, 1] would only add easy members.
- `ssn_valid`, `phone_valid` and the maskers would only add easy members; a mask is an input of the splice.
- RunTable.Handler.StartRun: span ids are taken to be fresh, since they are random; a start or an end with its emissions is one step, while the code emits after it releases its lock.
- Payloads, usage, models, attributes and error counts of runs and traces are left out of the run table; aggregates of evicted roots stay open, as in the code.
- Publisher.EveryEventIsAccountedFor: a counter increment is one step and a pipeline writes all of its events or none; re-initialisation after a fork is not modelled.
- RateLimit.InProcessCounter.CheckRateLimit: the clock never goes back, and one caller keeps one window length and limit; the Redis path, `reset_after` and rounding of the shown value are not modelled.
- RateLimit.InProcessCounter.Incr: the clock never goes back.
- Retention, drift statistics, percentiles, scheduling, settings and the dashboard would only add easy members.
