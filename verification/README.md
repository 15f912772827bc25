# Verified model of the benchmark sweep engine

This project models the sweep engine of the vLLM gRPC benchmark harness and the components around it,
and proves what they guarantee for every input, every run and every schedule.

- **Sweep, checkpoint, resume** (`Cells`, `Prompts`, `Retry`, `Sweep`, `Resume`, `Codec`, `LogLines`,
  `Checkpoint`, `CrashResume`, `TornLog`, `Rounds`, `Discipline`). A sweep walks a fixed block order,
  gives each block the prompt of its iteration index, appends every result to a log and skips logged blocks after a restart.
  The log is a sequence of characters. Records are written by a small concrete codec that keeps the
  two facts the loader depends on: no newline inside a record, and no proper prefix of a record reads
  back as one. The end-to-end results are `CrashResume.CrashAnywhereThenResume` for one crash and
  `Rounds.LastRoundCoversAll` for any number.
- **Preemption recovery** (`Errors`, `Recovery`, `BlockDispatch`). The dispatcher is a class with a
  budget and a streak counter; what the network and the restarted server do is an arbitrary `World`.
- **Protocols as step systems** (`SemaphoreGather`, `WorkerPool`, `Handshake`, `Startup`). Runs are
  arbitrary interleavings; results hold at every instant of every run.
- **Decisions** (`Sorting`, `Percentile`, `RestCohort`, `Tables`, `Crossover`, `Drift`,
  `Placeholders`), over real numbers.
- **Streaming** (`Mock`, `Streaming`, `ServerSentEvents`): engine outputs, gRPC chunks, server-sent
  events, client text.
- **Progress log** (`Progress`, `Monitor`): printing, parsing, and the monitor's snapshot.

`Common`, `Arithmetic` and `Numerals` hold shared vocabulary. `dafny verify dfyconfig.toml` checks everything.

Where the code and its documentation differ, the model follows the code:

- The documentation says that an exhausted recovery budget, or a failed recovery, ends the sweep
  (`validate.py:436-448`). The retry wrapper catches every exception (`sweep.py:317`), so in a block it
  becomes a failed row and the sweep goes on: `BlockDispatch.ExhaustedBlocksBecomeFailedRows`.
- A comment says that per-RPC seeds derive from the iteration index (`sweep.py:641`). The dispatcher
  seeds RPC `i` with `base_seed + i` (`validate.py:633`); only prompts depend on the iteration index.
- `prompts.py:68-72` describes symmetric prompts across cohorts at one iteration index. Within one run
  every block has an iteration index of its own, so the cohorts of a group get consecutive prompts.
- The placeholder documentation counts 72 measured and 72 filled rows (`reporter.py:495-497`). The
  matrix has 22 blocks for each cap, so the counts are 66 and 66.
- Appending does not repair a torn tail (`resume.py:129`). The next record is glued to it, and the load
  after that loses both: `Checkpoint.AppendAfterTornTail`.
- The retry wrapper decides by exception class, or by the reason of a block's first failed RPC. The
  shipped drivers catch gRPC and httpx errors and give free text as the reason (`rpc_driver.py:343`),
  which is never among the retried reasons, so with them no block is ever retried:
  `BlockDispatch.NeverRetriedWithShippedDrivers`. Labels arise for exceptions a driver lets through, and
  they disagree with the classes: `BlockDispatch.RetriedByLabelIff`.
- The monitor splits fields at white space, and failure reasons are free text. The block count is still
  right unless such a text holds a word `i=...`: `Monitor.MonitorShowsMeasurements`.
- A checkpoint with holes resumes to full coverage, but with other iteration indices
  (`Resume.OrderKeptIffPrefix`), and passes the discipline check only under the condition of
  `Discipline.PassesDisciplineIff`.
- After a refresh no URL of the dead server is left, unless its clear lost a pop of a URL key
  (`Handshake.SafeIffUrlsCleared`); the URLs of two new servers may mix (`Handshake.BundleMixedIff`).
- The harness clears the Dict after it has spawned the server. A clear that comes late fails a
  deployment that serves: `Startup.ReadyConnectsIff`.

## Model

| member | source | states |
|---|---|---|
| Cells.IterMainSweepTuples | tools/benchmark/src/vllm_grpc_bench/sweep.py:130-142 | The tuple loops yield every cell with every cap, cells outermost. |
| Cells.IterBlockDispatchOrder | tools/benchmark/src/vllm_grpc_bench/sweep.py:145-157 | The block loops yield the flat dispatch order the other theorems speak of. |
| Cells.CohortsDistinct | tools/benchmark/src/vllm_grpc_bench/types.py:78-89 | For every concurrency the cohorts run are distinct and belong to the canonical four. |
| Cells.CellIdsDistinct | tools/benchmark/src/vllm_grpc_bench/types.py:155-162 | The six cells have six different printed identifiers. |
| Cells.DispatchOrderSound | tools/benchmark/src/vllm_grpc_bench/sweep.py:145-157 | For a duplicate-free axis no block occurs twice and each (cell, cap) group is one contiguous stretch. |
| Cells.DispatchOrderSize | tools/benchmark/src/vllm_grpc_bench/sweep.py:260-280 | 6 tuples and 22 blocks for every cap of any axis. |
| Cells.TupleAt | tools/benchmark/src/vllm_grpc_bench/sweep.py:130-142 | The tuple of cell c and cap i stands at place c times the axis length plus i. |
| Cells.BlockAt | tools/benchmark/src/vllm_grpc_bench/sweep.py:145-157 | Behind the blocks of earlier tuples a tuple's blocks come in the order of its cohorts. |
| Sweep.CountBlocks | tools/benchmark/src/vllm_grpc_bench/sweep.py:260-272 | The expected-block loop counts exactly the blocks of the dispatch order. |
| Prompts.ResolvesExactlyPublishedCaps | tools/benchmark/src/vllm_grpc_bench/prompts.py:185-285 | With loaded corpora, inputs resolve for a cell of the matrix if and only if the cap is on the published axis. |
| Prompts.PromptRegimes | tools/benchmark/src/vllm_grpc_bench/prompts.py:209-285 | Inputs are the same for every cohort; null-anchor caps get the prompt seeded by the iteration, other caps the corpus entry of the iteration counted round, with the unreduced index recorded. |
| Prompts.InputsByKind | tools/benchmark/src/vllm_grpc_bench/prompts.py:185-285 | A chat block always has a prompt and no tensor, an embed block no prompt and a tensor exactly in the corpus regime; the source label of each of the four cases; and exactly when cell, cap or corpus is refused. |
| Prompts.PromptsDiffer | tools/benchmark/src/vllm_grpc_bench/prompts.py:57-60 | Different seeds give different synthetic prompts. |
| Prompts.FirstUserIs | tools/benchmark/src/vllm_grpc_bench/prompts.py:261-263 | The corpus prompt is the first user message, and an error if and only if there is none. |
| Retry.RunBlockWithRetry | tools/benchmark/src/vllm_grpc_bench/sweep.py:283-392 | The wrapper never raises; its row is what its last dispatch came to, for every sequence of outcomes. |
| Retry.Dispatches | tools/benchmark/src/vllm_grpc_bench/sweep.py:308-392 | One to three dispatches; three if and only if the first raised a transient error and the second returned a transient reason; one if and only if the first ended non-transiently. |
| Retry.RowGuarantees | tools/benchmark/src/vllm_grpc_bench/sweep.py:283-392 | The retry flag is set if and only if there were two dispatches or more, the row is the last dispatch's result or the label of its exception, and a transient failure stands only if it was retried. |
| Sweep.MeasureBlock | tools/benchmark/src/vllm_grpc_bench/sweep.py:733-769 | One block: inputs resolved for the iteration index, dispatched with retry, recorded under its own key; input errors escape. |
| Sweep.RowRecords | tools/benchmark/src/vllm_grpc_bench/sweep.py:1071-1147 | A row has the summary's latencies if and only if the block has timings and no failure, otherwise the failure's own text or the stock one; its retry flag says whether it was dispatched twice; it records its iteration's corpus index and prompt source. |
| Sweep.RunIterations | tools/benchmark/src/vllm_grpc_bench/sweep.py:733-769 | Row j of any run is its block dispatched with the inputs resolved for iteration j, which it records in the corpus regime. |
| Sweep.RunSweep | tools/benchmark/src/vllm_grpc_bench/sweep.py:622-864 | The nested loops measure what the flat specification says, row j at iteration j; memory and log grow by the same records one line each; the opening anchors are captured exactly when none were carried over and all later batches follow in order; the `BLOCK_DONE` marks count from the preloaded number to the final one. |
| Sweep.CaptureAnchors | tools/benchmark/src/vllm_grpc_bench/sweep.py:1162-1187 | Exactly the batch's snapshots reach memory and log, in order, leaving the measurements alone. |
| Resume.ResumeEquivalence | tools/benchmark/src/vllm_grpc_bench/sweep.py:643-777 | Preloaded with the first k measurements of the uninterrupted run, a sweep ends with the same measurements and the same outcome under any clock, for every k and every duplicate-free axis. |
| Resume.ClockIrrelevant | tools/benchmark/src/vllm_grpc_bench/sweep.py:701-777 | Two runs that differ only in the clock differ only in their stamps. |
| Resume.PrefixKeys | tools/benchmark/src/vllm_grpc_bench/resume.py:419-427 | The skip set of the first k measurements is exactly the first k keys of the order. |
| Resume.CoverageFromAnyCheckpoint | tools/benchmark/src/vllm_grpc_bench/sweep.py:716-770 | From any distinct checkpointed blocks, holes allowed, a completed sweep holds each block exactly once, 22 for every cap, and keeps the preloaded rows. |
| Resume.OrderKeptIffPrefix | tools/benchmark/src/vllm_grpc_bench/sweep.py:716-737 | A completed resumed sweep lists the blocks in dispatch order (so with the indices of an uninterrupted one) if and only if the checkpoint's keys are a prefix of that order. |
| Resume.PublishedAxesComplete | tools/benchmark/src/vllm_grpc_bench/sweep.py:733-745 | With loaded corpora and caps of the published axis no sweep stops early, from any checkpoint. |
| Codec.RoundTrip | tools/benchmark/src/vllm_grpc_bench/resume.py:120-133 | Every record text reads back as its own fields. |
| Codec.ProperPrefixNeverParses | tools/benchmark/src/vllm_grpc_bench/resume.py:228-240 | No proper prefix of a record reads back as any record. |
| Codec.GluedNeverParses | tools/benchmark/src/vllm_grpc_bench/resume.py:120-133 | A beginning of a record, or all of it, with any number of beginnings of other records behind it on one line reads back as nothing. |
| Checkpoint.HeaderRoundTrip | tools/benchmark/src/vllm_grpc_bench/resume.py:261-291 | A header of the current schema loads field for field. |
| Checkpoint.MeasurementRoundTrip | tools/benchmark/src/vllm_grpc_bench/resume.py:294-326 | A measurement loads field for field, absent values included. |
| Checkpoint.LoadCheckpoint | tools/benchmark/src/vllm_grpc_bench/resume.py:198-258 | The line loop computes the loader's fold: blank, torn and unknown lines skipped, malformed records and missing header or file reported. |
| Checkpoint.LoadsIffHeader | tools/benchmark/src/vllm_grpc_bench/resume.py:250-258 | A log of records loads if and only if one of them is a header. |
| Checkpoint.OtherSchemaRefused | tools/benchmark/src/vllm_grpc_bench/resume.py:261-270 | A header of another schema ends the load, whatever stands before and after it. |
| Checkpoint.WrongFieldCountRefused | tools/benchmark/src/vllm_grpc_bench/resume.py:294-347 | A measurement or anchor line with a field too many or too few is refused. |
| Checkpoint.OtherKindSkipped | tools/benchmark/src/vllm_grpc_bench/resume.py:228-258 | A record of another kind changes nothing. |
| Checkpoint.CrashConsistency | tools/benchmark/src/vllm_grpc_bench/resume.py:120-182 | On a terminated log, stopping the next append after any number of characters loads exactly the records whose text is complete, in order and field for field. |
| Checkpoint.AppendAfterTornTail | tools/benchmark/src/vllm_grpc_bench/resume.py:120-133 | A measurement appended after a torn tail survives the next load if and only if the tail is empty; otherwise both records are lost and nothing else. |
| CrashResume.MemoryAheadByAtMostOne | tools/benchmark/src/vllm_grpc_bench/sweep.py:770-777 | In every state of every run of the writer, loading the disk gives all of memory, or all but the one record being written. |
| CrashResume.CutLogLoads | tools/benchmark/src/vllm_grpc_bench/resume.py:198-258 | A log cut anywhere after its header loads as exactly its first j records, j being the number whose text is complete. |
| CrashResume.CrashAnywhereThenResume | tools/benchmark/src/vllm_grpc_bench/sweep.py:643-777 | For the first crash of a sweep: cut its log at any character after the header, load it and resume, and the final measurements are those of the uninterrupted sweep. |
| CrashResume.CrashKeepsAnchors | tools/benchmark/src/vllm_grpc_bench/resume.py:171-258 | Wherever the log is cut after its header, what loads of each cohort's anchors is an initial stretch of those captured. |
| TornLog.LoadLog | tools/benchmark/src/vllm_grpc_bench/resume.py:198-258 | A log whose lines and tail are any glued pieces of records loads as exactly the records that stand alone and whole on a line. |
| TornLog.CutLog | tools/benchmark/src/vllm_grpc_bench/resume.py:120-133 | Such a log cut anywhere behind its header is such a log again. |
| TornLog.CutAppended | tools/benchmark/src/vllm_grpc_bench/resume.py:120-182 | However much of what is appended to such a log reaches the disk, what loads is what stood on whole lines before and a stretch of the appended records. |
| Rounds.EveryLoadSound | tools/benchmark/src/vllm_grpc_bench/sweep.py:643-777 | After any number of crash and resume rounds, each with its own environment and clock and cut anywhere behind the header, the log loads, and what loads are distinct blocks of the dispatch order. |
| Rounds.LastRoundCoversAll | tools/benchmark/src/vllm_grpc_bench/sweep.py:643-864 | The round that completes holds every block of the dispatch order exactly once, 22 for every cap. |
| Discipline.VerifyIterationDiscipline | tools/benchmark/src/vllm_grpc_bench/sweep.py:160-186 | The one-pass scan answers true if and only if, in stable start order, no group reappears after another intervened. |
| Discipline.SweepPassesDiscipline | tools/benchmark/src/vllm_grpc_bench/sweep.py:701-770 | Every fresh or prefix-resumed sweep with non-decreasing start stamps, ties allowed, passes the check. |
| Discipline.PassesDisciplineIff | tools/benchmark/src/vllm_grpc_bench/sweep.py:160-186 | A completed sweep resumed from anything passes if and only if the preloaded groups are contiguous and each group they touch is complete, but possibly the last, which then is the first incomplete group of the order. |
| Discipline.LostBlockPassesIff | tools/benchmark/src/vllm_grpc_bench/sweep.py:716-770 | When one block was lost to a glued line, the resumed sweep passes if and only if that block's group is also the group of the last block loaded. |
| Discipline.HoleBreaksDiscipline | tools/benchmark/src/vllm_grpc_bench/sweep.py:716-770 | An instance: preloading the first block and one of another group makes a completed sweep fail the check. |
| Recovery.Dispatcher.Call | tools/benchmark/src/vllm_grpc_bench/validate.py:648-761 | The loop ends and counts as specified for every world; a first round that reports a death in every slot makes it attempt a refresh while budget is left, and one that reports none is handed back slot by slot. |
| Recovery.Dispatcher.GatherBlock | tools/benchmark/src/vllm_grpc_bench/validate.py:614-646 | One gather consumes one round and touches nothing else. |
| Errors.DeathExactly | tools/benchmark/src/vllm_grpc_bench/validate.py:283-324 | The exceptions that mean a dead endpoint: connect errors always, read errors and unavailable or cancelled calls with a fragment, nothing else. |
| Errors.DeathFragmentIff | tools/benchmark/src/vllm_grpc_bench/validate.py:327-343 | A text holds a fragment if and only if one stands somewhere in it, upper and lower case apart. |
| Errors.TransientExactly | tools/benchmark/src/vllm_grpc_bench/validate.py:218-237 | The transient exceptions are five gRPC statuses and the httpx transport errors. |
| Errors.EscapedLabels | tools/benchmark/src/vllm_grpc_bench/sweep.py:395-413 | Which label an escaped exception gets, the first sign that applies deciding. |
| Recovery.DeathResultIff | tools/benchmark/src/vllm_grpc_bench/validate.py:346-354 | A result reports a death if and only if it is a failed answer whose reason holds a fragment, or such an exception; a success never does. |
| Recovery.KindExactly | tools/benchmark/src/vllm_grpc_bench/validate.py:357-394 | A round is a whole death if all slots of a non-empty block report one, and clean if none does. |
| Recovery.DeadRoundRefreshes | tools/benchmark/src/vllm_grpc_bench/validate.py:671-761 | A call whose first round is dead in every slot attempts a refresh while a driver can be made and budget is left. |
| Recovery.CleanRoundReturns | tools/benchmark/src/vllm_grpc_bench/validate.py:671-695 | A call whose first round reports no death refreshes nothing and returns that round. |
| Recovery.ShippedDeathText | tools/benchmark/src/vllm_grpc_bench/rpc_driver.py:481-488 | The text the shipped REST driver gives for a dead server is such a report. |
| Recovery.DispatchKeepsInv | tools/benchmark/src/vllm_grpc_bench/validate.py:671-761 | Every call keeps the counter invariant, is counted once, reports an exhausted budget only when it is, and never hands back a wholly dead block. |
| Recovery.ObserveRound | tools/benchmark/src/vllm_grpc_bench/validate.py:671-695 | A round triggers a refresh if and only if the history ends in a whole death or completes another threshold of consecutive partial deaths. |
| Recovery.RecoveryOverRuns | tools/benchmark/src/vllm_grpc_bench/validate.py:608-761 | For any sequence of calls and any world: events equal successful refreshes and stay within the budget, gathers are calls plus events, the streak is the trailing partial deaths modulo the threshold, and attempts are exactly what the history calls for. |
| BlockDispatch.Aggregate | tools/benchmark/src/vllm_grpc_bench/validate.py:763-813 | One timing for each successful slot and one payload for each that has one, in slot order; without a success the reason of slot 0. |
| BlockDispatch.ReasonExactly | tools/benchmark/src/vllm_grpc_bench/validate.py:800-844 | What that reason is for each kind of exception and answer. |
| Common.WhereExact | tools/benchmark/src/vllm_grpc_bench/validate.py:766-802 | The positions these statements speak of ascend, and are exactly those where the predicate holds. |
| BlockDispatch.FailsIffNoneSucceeded | tools/benchmark/src/vllm_grpc_bench/validate.py:763-813 | A block has no failure reason if and only if some RPC succeeded. |
| BlockDispatch.AtMostTwoDispatches | tools/benchmark/src/vllm_grpc_bench/sweep.py:283-392 | Over the recovering dispatcher the wrapper dispatches at most twice, twice if and only if the first returned a transient reason. |
| BlockDispatch.BlocksAlwaysGiveRows | tools/benchmark/src/vllm_grpc_bench/sweep.py:283-392 | For any blocks and any world: one row for each block, gathers are dispatches plus recoveries, recoveries within budget. |
| BlockDispatch.ExhaustedBlocksBecomeFailedRows | tools/benchmark/src/vllm_grpc_bench/sweep.py:308-330 | With a dead endpoint and the budget spent, each further block becomes a failed row after one dispatch and the sweep goes on. |
| BlockDispatch.RetriedByLabelIff | tools/benchmark/src/vllm_grpc_bench/validate.py:830-844 | For every exception, all gRPC statuses included: its label is retried if and only if it is one of four gRPC statuses or its class bears a retried name; aborted gRPC calls and httpx transport errors are transient only when they escape. |
| BlockDispatch.EscapedLabelRetriedIff | tools/benchmark/src/vllm_grpc_bench/sweep.py:381-413 | The label of an escaped exception is a retried reason if and only if it is not an unexpected one. |
| BlockDispatch.DriverTextNeverRetried | tools/benchmark/src/vllm_grpc_bench/rpc_driver.py:337-344 | No reason of the shipped drivers' forms is among the retried ones. |
| BlockDispatch.NeverRetriedWithShippedDrivers | tools/benchmark/src/vllm_grpc_bench/sweep.py:338-377 | With drivers that report failures this way every block is dispatched exactly once, in any world of answers and restarts. |
| BlockDispatch.DeathsNotTransient | tools/benchmark/src/vllm_grpc_bench/validate.py:283-324 | Endpoint deaths that are not transient errors are exactly the cancelled gRPC calls with a death message. |
| SemaphoreGather.RunInvariant | tools/benchmark/src/vllm_grpc_bench/validate.py:614-646 | In every state of every interleaving: permits conserved, at most `concurrency` in flight, finished slots hold the outcome of their own seed, and each step uses up one of 2n. |
| SemaphoreGather.NoDeadlock | tools/benchmark/src/vllm_grpc_bench/validate.py:614-646 | An unfinished slot always leaves some step possible. |
| SemaphoreGather.ScheduleIndependent | tools/benchmark/src/vllm_grpc_bench/validate.py:614-646 | Every maximal run takes 2n steps and ends with slot i holding the outcome for seed `base + i`, all permits back. |
| WorkerPool.Conservation | tools/benchmark/src/vllm_grpc_bench/rest_cohort.py:471-492 | At every step of every schedule, crashes included, each index below the count is queued, held or collected exactly once, and at most `concurrency` are in flight. |
| WorkerPool.StepsRunOut | tools/benchmark/src/vllm_grpc_bench/rest_cohort.py:478-492 | Every step decreases a measure, one without an exception by exactly one, and a worker still at work always has a step without an exception. |
| WorkerPool.FinishedPoolCollectedEverything | tools/benchmark/src/vllm_grpc_bench/rest_cohort.py:490-492 | When all workers have returned, the collected indices are a permutation of all of them. |
| WorkerPool.CleanRunFinishes | tools/benchmark/src/vllm_grpc_bench/rest_cohort.py:471-492 | Without exceptions every schedule that cannot go on has taken two steps for each request and one for each worker, all workers have returned, and every request is collected once. |
| RestCohort.AggregateOrderIrrelevant | tools/benchmark/src/vllm_grpc_bench/rest_cohort.py:540-565 | The record depends on the multiset of samples only. |
| RestCohort.MedianBelowP95 | tools/benchmark/src/vllm_grpc_bench/rest_cohort.py:540-565 | In every column the median is at most the 95th percentile. |
| RestCohort.ColumnsApart | tools/benchmark/src/vllm_grpc_bench/rest_cohort.py:540-565 | Each column reports its own numbers, and opened and reused connections make up the larger of requests and workers. |
| RestCohort.RecordScheduleIndependent | tools/benchmark/src/vllm_grpc_bench/rest_cohort.py:471-565 | Two finished pools with the same requests report the same record, whatever their schedules. |
| Handshake.RunKeepsInv | scripts/python/modal_bench_rest_grpc_server.py:365-378 | For any set of keys whose clearing pops may be lost: at every instant the values under the other keys are of one generation, the latest in the Dict, and a publishing server finds none of them older than itself. |
| Handshake.ReadsNeverGoBack | scripts/python/modal_bench_rest_grpc_server.py:495-502 | After any value of generation g, what is read under a key whose clearing pops arrive is of generation g or later, and of g itself while no restart has happened. |
| Handshake.RefreshUrls | tools/benchmark/src/vllm_grpc_bench/modal_endpoint.py:387-421 | The poll loop returns the first fresh poll before its deadline, and nothing if and only if there is none. |
| Handshake.NoDeadGeneration | tools/benchmark/src/vllm_grpc_bench/modal_endpoint.py:387-421 | Over every interleaving with any number of restarts a returned bundle holds no URL of the cached generation or an older one, whatever pops are lost other than the clearing pops of the three URL keys read after gRPC. |
| Handshake.BundleMixedIff | tools/benchmark/src/vllm_grpc_bench/modal_endpoint.py:387-421 | Each URL of a bundle is of another generation than the gRPC one if and only if a server newer than the gRPC URL's was publishing at some instant up to the URL's read. |
| Handshake.OneGenerationWithoutRestart | tools/benchmark/src/vllm_grpc_bench/modal_endpoint.py:387-421 | In particular, without a restart between its reads a bundle is the work of one generation. |
| Handshake.NewGenerationsMayMix | tools/benchmark/src/vllm_grpc_bench/modal_endpoint.py:387-421 | The condition is met by real runs: with no pop lost, a second restart between two reads pairs two new generations. |
| Handshake.SafeIffUrlsCleared | scripts/python/modal_bench_rest_grpc_server.py:365-378 | The guarantee holds for all runs if and only if none of those three pops can be lost. |
| Handshake.LostPopLeaksDeadUrl | scripts/python/modal_bench_rest_grpc_server.py:365-378 | For each of the three keys a run in which only its clearing pops are lost and a bundle holds the dead server's URL under it. |
| Startup.WaitForHandshake | tools/benchmark/src/vllm_grpc_bench/modal_endpoint.py:425-482 | The first poll that finds `ready` decides; without one before the deadline the deployment fails. |
| Startup.ReadyConnectsIff | tools/benchmark/src/vllm_grpc_bench/modal_endpoint.py:445-477 | From the end of the harness's clear on: a poll that sees `ready` while one server publishes connects to that server if and only if it echoes the expected token and none of the five keys read had been put and popped before; otherwise it fails the deployment. |
| Startup.LateClearFailsDeployment | tools/benchmark/src/vllm_grpc_bench/modal_endpoint.py:306-335 | The failing half occurs: a run in which the clear pops a key just published, and the wait reports failure although the server serves. |
| Sorting.SortCorrect | tools/benchmark/src/vllm_grpc_bench/sweep.py:172-186 | Sorting orders by the key and is a permutation. |
| Sorting.SortStable | tools/benchmark/src/vllm_grpc_bench/sweep.py:172-186 | Elements with equal keys keep their order. |
| Percentile.FormsAgree | tools/benchmark/src/vllm_grpc_bench/anchor_trajectory.py:104-115 | The three percentile functions of the code agree on all samples, but for the empty set, which one of them refuses. |
| Percentile.WithinRange | tools/benchmark/src/vllm_grpc_bench/sweep.py:1150-1159 | A percentile lies between two of the samples. |
| Percentile.MonotoneInP | tools/benchmark/src/vllm_grpc_bench/sweep.py:1150-1159 | It is monotone in p on sorted samples. |
| Percentile.AtWholeRank | tools/benchmark/src/vllm_grpc_bench/sweep.py:1150-1159 | At a whole rank it is the sample of that rank. |
| Percentile.LinearBetweenRanks | tools/benchmark/src/vllm_grpc_bench/sweep.py:1150-1159 | Between two ranks it is linear. |
| Percentile.EndsOfRange | tools/benchmark/src/vllm_grpc_bench/rest_cohort.py:224-234 | 0 gives the least sample and 100 the greatest. |
| Percentile.P50P95P99 | tools/benchmark/src/vllm_grpc_bench/sweep.py:947-1068 | Every block reports p50, p95 and p99 in ascending order. |
| Percentile.OrderIrrelevant | tools/benchmark/src/vllm_grpc_bench/rest_cohort.py:224-234 | It is the same for every permutation of the samples. |
| Percentile.MovesAtMost | tools/benchmark/src/vllm_grpc_bench/rest_cohort.py:224-234 | Moving each sample by at most d, reordering included, moves every percentile by at most d. |
| Percentile.MedianIsP50 | tools/benchmark/src/vllm_grpc_bench/rest_cohort.py:237-250 | The library median equals the 50th percentile for every sample count. |
| Crossover.WinnerAndSecondLead | tools/benchmark/src/vllm_grpc_bench/crossover.py:91-105 | With two cohorts or more the winner precedes all others in (latency, name) order and the second all but the winner. |
| Crossover.NameBeforeIff | tools/benchmark/src/vllm_grpc_bench/crossover.py:104-105 | Names compare by their first difference, a beginning before the whole. |
| Crossover.InconclusiveIff | tools/benchmark/src/vllm_grpc_bench/crossover.py:82-88 | A verdict is inconclusive if and only if it begins so. |
| Crossover.OverlapIsDistance | tools/benchmark/src/vllm_grpc_bench/crossover.py:108-126 | Rows overlap if and only if both are measured and their distance is at most the wider interval; the rule is symmetric. |
| Crossover.OverlapAtIff | tools/benchmark/src/vllm_grpc_bench/crossover.py:192-203 | Two cohorts overlap at a cap if and only if the table has both rows, both measured, no further apart than the wider interval. |
| Crossover.WalkAxis | tools/benchmark/src/vllm_grpc_bench/crossover.py:197-225 | The search loop with its skips and break finds the first axis point with an overlap. |
| Crossover.FirstIsLeast | tools/benchmark/src/vllm_grpc_bench/crossover.py:196-239 | On an ascending axis the crossover is the least point with an overlap, and absent if and only if no point overlaps. |
| Crossover.ComputePerCellCrossover | tools/benchmark/src/vllm_grpc_bench/crossover.py:129-239 | One record for each verdict, in order: for a conclusive one with two cohorts or more it names the fastest and the next, smaller name first among equals, and the least axis point with an overlap of these two; evidence says first point, later point or none; other verdicts name nobody. |
| Crossover.PublishNeverLater | tools/benchmark/src/vllm_grpc_bench/crossover.py:129-239 | On the same rows the publishing axis never reports a later crossover than the validating one, and both find the base verdict not robust together. |
| Crossover.WideningNeverLater | tools/benchmark/src/vllm_grpc_bench/crossover.py:108-126 | Wider intervals never delay or remove a crossover. |
| Drift.PassesWithinAnyBound | tools/benchmark/src/vllm_grpc_bench/null_anchor.py:72-132 | PASS if and only if the drift is within 10 ms, or either interval, or 2.5 % of the baseline. |
| Drift.WideningNeverWorsens | tools/benchmark/src/vllm_grpc_bench/null_anchor.py:72-132 | Wider intervals on either side never worsen a verdict. |
| Drift.VerdictMatchesFraction | tools/benchmark/src/vllm_grpc_bench/null_anchor.py:135-188 | For every measured anchor PASS, WARN and FAIL are exactly the fractions up to 1, up to 3 and above; a failed block is FAIL without a fraction. |
| Drift.MakeNullAnchorValidation | tools/benchmark/src/vllm_grpc_bench/validate.py:1204-1278 | 48 anchors, each built from the last point measured under its key and the matching baseline. |
| Drift.AnchorExactly | tools/benchmark/src/vllm_grpc_bench/validate.py:1239-1277 | An anchor carries its key and its point's latency, is checked against the published baseline of its own cell and cohort, and its verdict and fraction are those of these numbers. |
| Drift.LastPointIff | tools/benchmark/src/vllm_grpc_bench/validate.py:1226-1230 | The point of a key is the last one measured under it. |
| Drift.DriftedIff | tools/benchmark/src/vllm_grpc_bench/null_anchor.py:216-230 | The anchors that count are those with a reference that did not pass. |
| Drift.AnchorKeysDistinct | tools/benchmark/src/vllm_grpc_bench/validate.py:1233-1278 | No (cell, cohort, cap) key occurs twice among the 48. |
| Drift.KeysAll | tools/benchmark/src/vllm_grpc_bench/validate.py:1233-1238 | Every cell, cohort and cap of the pool has its anchor. |
| Drift.OneCapCrossCheckable | tools/benchmark/src/vllm_grpc_bench/validate.py:1193-1278 | Of a cohort's two anchors exactly the cap matching the cell type is cross-checkable, if its baseline was published with a positive interval; otherwise neither. |
| Drift.FiresIffTwoDrifted | tools/benchmark/src/vllm_grpc_bench/null_anchor.py:216-230 | The header fires if and only if two different cross-checkable anchors drifted. |
| Drift.HeaderIgnoresNewBaselines | tools/benchmark/src/vllm_grpc_bench/null_anchor.py:216-230 | Whatever was measured at keys without a baseline, the header is the same. |
| Placeholders.FillValidateModePlaceholders | tools/benchmark/src/vllm_grpc_bench/reporter.py:485-544 | The nested loops fill exactly the missing interior caps and do nothing in a publishing sweep. |
| Placeholders.FilledRow | tools/benchmark/src/vllm_grpc_bench/reporter.py:506-544 | Measured rows stay as they are; new rows are placeholders at the unmeasured interior caps of cohorts present, and nothing else appears. |
| Placeholders.PlaceholderHoldsNothing | tools/benchmark/src/vllm_grpc_bench/reporter.py:516-543 | A placeholder is marked, holds no measurement, and names the corpus of its cell's kind. |
| Placeholders.FillIdempotent | tools/benchmark/src/vllm_grpc_bench/reporter.py:485-544 | Filling twice, with any stamps, is filling once. |
| Placeholders.AxisComplete | tools/benchmark/src/vllm_grpc_bench/reporter.py:493-499 | A cohort measured on the validating axis ends with exactly the caps of the publishing one. |
| Placeholders.TallyFailureSummary | tools/benchmark/src/vllm_grpc_bench/validate.py:1484-1496 | The tally counts each failure reason other than the placeholder marker. |
| Placeholders.FailureHeaderFired | tools/benchmark/src/vllm_grpc_bench/sweep.py:464-485 | The header fires if and only if three blocks failed or all blocks of some (cell, cap) did. |
| Placeholders.TallyIsCount | tools/benchmark/src/vllm_grpc_bench/validate.py:1484-1496 | A tally is the number of rows that failed for the reason. |
| Placeholders.FailedIsCount | tools/benchmark/src/vllm_grpc_bench/sweep.py:475-478 | The header counts the failed rows. |
| Placeholders.ClockFractionExactly | tools/benchmark/src/vllm_grpc_bench/reporter.py:547-557 | The fraction is flagged rows over rows that carried traffic, and zero without any. |
| Placeholders.FillingIsInvisible | tools/benchmark/src/vllm_grpc_bench/reporter.py:584-612 | Filling changes no failure tally, failure header, clock-anomaly fraction or crossover record, for any order of the flattened rows. |
| Placeholders.UnfilteredHeaderMisfires | tools/benchmark/src/vllm_grpc_bench/reporter.py:594-597 | Without the filter on placeholders the failure header would fire on a filled table. |
| Mock.DeriveTokenCount | tools/benchmark/src/vllm_grpc_bench/mock_engine.py:133-152 | The digit scan computes the hint-aware token count. |
| Mock.HintHonoured | tools/benchmark/src/vllm_grpc_bench/mock_engine.py:133-152 | A number printed after the first hint marker of a prompt is read back, whatever surrounds it. |
| Mock.CountFollowsHint | tools/benchmark/src/vllm_grpc_bench/mock_engine.py:133-152 | The count is the request's limit, raised to a larger hint, never above the cap. |
| Mock.NoHintWithoutMarker | tools/benchmark/src/vllm_grpc_bench/mock_engine.py:138-141 | There is no hint if and only if the marker stands nowhere in the prompt. |
| Mock.AtLeastOneToken | tools/benchmark/src/vllm_grpc_bench/mock_engine.py:181-186 | Every stream has at least one token and at most 64 times the configured length. |
| Mock.StreamEnds | tools/benchmark/src/vllm_grpc_bench/mock_engine.py:197-217 | The last output counts every token and finishes for length exactly when the stream is as long as configured; no output before it finishes. |
| Mock.MockEngine.Begin | tools/benchmark/src/vllm_grpc_bench/mock_engine.py:175-179 | Empty prompts and ids in flight are refused without touching the set; otherwise exactly the id is added. |
| Mock.MockEngine.Run | tools/benchmark/src/vllm_grpc_bench/mock_engine.py:180-217 | The token loop yields the cumulative texts, token counts and finish reason of the specification. |
| Mock.MockEngine.Generate | tools/benchmark/src/vllm_grpc_bench/mock_engine.py:164-219 | A stream's outputs depend on prompt and limit only, whatever else is in flight, and the in-flight set is as before. |
| Streaming.PromptText | tools/benchmark/src/vllm_grpc_bench/grpc_servicers.py:139-141 | The prompt text of a request is never empty. |
| Streaming.PromptTextBy | tools/benchmark/src/vllm_grpc_bench/grpc_servicers.py:139-141 | One message's text as it is, several on lines of their own, silent ones left out, a stock text for none. |
| Streaming.Complete | tools/benchmark/src/vllm_grpc_bench/grpc_servicers.py:49-67 | The unary call answers with the last output's text, reason and token count. |
| Streaming.CompleteStream | packages/frontend/src/vllm_grpc_frontend/chat.py:100-224 | The output loop yields the specified chunks and aborts if and only if the engine raised before any finish reason. |
| Streaming.Reassembles | packages/frontend/src/vllm_grpc_frontend/chat_translate.py:33-42 | For prefix-growing outputs the deltas concatenate to the last text consumed. |
| Streaming.ReassemblyNeedsGrowth | packages/frontend/src/vllm_grpc_frontend/chat_translate.py:33-42 | Every stretch of an unfinished stream is reassembled if and only if each text extends the one before. |
| Streaming.StreamShape | tools/benchmark/src/vllm_grpc_bench/grpc_servicers.py:69-94 | For any outputs: indices without gaps, content in all chunks but a finish chunk, which is last and there if and only if an output had a finish reason. |
| Streaming.StreamEqualsUnary | tools/benchmark/src/vllm_grpc_bench/grpc_servicers.py:49-94 | For every prompt and limit the streamed text is the unary text, and the finish chunk has the unary reason. |
| Streaming.OneChunkPerToken | tools/benchmark/src/vllm_grpc_bench/grpc_servicers.py:69-94 | Chunk i carries exactly the text of token i, and one finish chunk follows. |
| ServerSentEvents.StreamSse | packages/proxy/src/vllm_grpc_proxy/chat_router.py:25-39 | Role, one event for each chunk, and one closing event; a client that left before chunk k gets exactly the first k and no closing event. |
| ServerSentEvents.ClosingSays | packages/proxy/src/vllm_grpc_proxy/chat_router.py:37-39 | `Done` exactly without a failure, otherwise the failure's details or a stock text. |
| ServerSentEvents.TextSurvivesIff | packages/proxy/src/vllm_grpc_proxy/chat_translate.py:62-75 | The text survives translation if and only if no finish chunk carries content. |
| ServerSentEvents.ClientHoldsEngineText | packages/proxy/src/vllm_grpc_proxy/chat_router.py:25-39 | A client of a prefix-growing engine holds exactly the last text consumed, and sees the closing mark if and only if the frontend did not abort. |
| ServerSentEvents.LeavingClientHoldsBeginning | packages/proxy/src/vllm_grpc_proxy/chat_router.py:33-36 | A client that leaves early holds a beginning of the text. |
| ServerSentEvents.ClientHoldsUnaryAnswer | packages/proxy/src/vllm_grpc_proxy/chat_router.py:25-39 | From mock engine to client: the unary text, and one finish event with the unary reason just before the closing mark. |
| Progress.ParseProgressEvents | scripts/python/monitor_m6_2_sweep.py:64-87 | One event for each line in the format, in their order. |
| Progress.LineParses | scripts/python/monitor_m6_2_sweep.py:64-87 | A printed head is read back whatever text follows it. |
| Progress.ProgressRoundTrip | tools/benchmark/src/vllm_grpc_bench/sweep.py:245-257 | What is printed parses back to the same timestamp and tag, and to exactly the same fields if and only if no value holds white space. |
| Progress.LastWordCounts | scripts/python/monitor_m6_2_sweep.py:79-85 | A field keeps its value if and only if no later word sets it; otherwise the last such word counts. |
| Monitor.DeriveSweepState | scripts/python/monitor_m6_2_sweep.py:250-304 | The event loop's block count is the largest one reported, whatever the order, its last timestamp that of the last event, and its snapshot the fold. |
| Monitor.LatestTupleCounts | scripts/python/monitor_m6_2_sweep.py:278-284 | The current cell, cap and tuple number are those of the latest tuple start. |
| Monitor.LatestStartCounts | scripts/python/monitor_m6_2_sweep.py:270-277 | Mode, start time and expected counts are those of the latest sweep start. |
| Monitor.LatestEndCounts | scripts/python/monitor_m6_2_sweep.py:302-303 | The end time is that of the latest sweep end. |
| Monitor.SubprobeFollows | scripts/python/monitor_m6_2_sweep.py:298-301 | The sub-probe is pending before its first event and then as its latest event says. |
| Monitor.BlocksDoneIsMax | scripts/python/monitor_m6_2_sweep.py:285-293 | The block count is the largest one reported. |
| Monitor.BlocksDoneOrderFree | scripts/python/monitor_m6_2_sweep.py:250-253 | It depends on which events occur, not on their order or number. |
| Monitor.BlocksDoneOfSweep | tools/benchmark/src/vllm_grpc_bench/sweep.py:779-791 | For the marks of any sweep it is the final number of measurements if a block was new, and zero otherwise. |
| Monitor.MonitorShowsMeasurements | tools/benchmark/src/vllm_grpc_bench/sweep.py:779-791 | From the printed text of any sweep, free failure texts, repetitions and noise included: the count shown is the final number of measurements if and only if no later word `i=...` of a block line exceeds it and the final count is not overridden everywhere. |
| Monitor.MonitorRightWithoutOverrides | tools/benchmark/src/vllm_grpc_bench/sweep.py:779-791 | Without such words it is right, whatever failures are reported. |
| Monitor.FailureTextMisleads | tools/benchmark/src/vllm_grpc_bench/sweep.py:779-791 | With a failure text that ends in `i=99/132` the monitor shows 99 blocks after one. |

## Left out

- Sweep.RunSweep: the topology probe, `checkpoint_path=None` and progress lines other than `BLOCK_DONE` are not modelled; when anchors are captured is an arbitrary input, because it depends on the wall clock.
- Sweep.MeasureBlock: a dispatch is a function of the block, its inputs and the attempt number; how the dispatcher's own counters evolve is in `BlockDispatch`. Exceptions of the anchor dispatcher, which escape the sweep, are left out.
- Sweep.CaptureAnchors: the snapshots themselves are inputs, not computed.
- Codec.RoundTrip: stands for the JSON text of the source; latencies are carried as printed text, so float printing is not modelled.
- Checkpoint.LoadCheckpoint: lines end in `\n` only, and integers are read without the spaces, signs and underscores Python also accepts. File-system errors are left out.
- Checkpoint.WrongFieldCountRefused: stands for a missing or ill-typed field of a JSON object; additional JSON fields, which the source ignores, have no counterpart in the codec.
- CrashResume.CrashAnywhereThenResume: equality with the uninterrupted run is for the first crash; after more of them, records lost to glued lines are measured again, and `Rounds.LastRoundCoversAll` gives coverage. Anchor cadence after a resume depends on the clock.
- Recovery.Dispatcher.Call: exception texts are abbreviated, and the driver object is represented by the gather round it serves.
- BlockDispatch.Aggregate: timing metadata is an opaque map.
- SemaphoreGather.ScheduleIndependent: an RPC's outcome is determined by its seed; cancellation of the gather is left out.
- Handshake.NoDeadGeneration: one server at a time; different generations may publish any targets.
- Startup.ReadyConnectsIff: no clearing pop of the server is lost; token echoes of another deployment appear only through `tokens`.
- Percentile.WithinRange: real arithmetic; floating-point rounding and NaN are left out.
- Mock.DeriveTokenCount: ASCII digits only; Python's `isdigit` also accepts characters that `int` refuses.
- Mock.MockEngine.Generate: the seeded draw of token fragments is an arbitrary function of prompt, count and position, and pacing is left out. Streams are run one call at a time; interleaving shows only through `Begin` and `End`.
- Streaming.CompleteStream: engine metrics and trailing metadata are left out; the frontend and the bench servicer share the model because their chunk logic is the same.
- ServerSentEvents.StreamSse: event payloads are their kinds and texts, without ids and JSON; the upstream fails with an RPC error or not at all.
- Placeholders.FailureHeaderFired: a group is kept as whether all its blocks failed instead of the list of its blocks.
- Progress.ProgressRoundTrip: ASCII white space. Splitting the file into lines is not modelled; a failure text with a line break makes two lines.
- Monitor.DeriveSweepState: the last block latency (a float) and the time estimate are left out.
- Deployment, transport, request and response field copying, Markdown, CSV and JSON rendering, command lines and corpus files: plumbing without deep properties.
- The REST shim's own event body, which sends cumulative text, so that reassembly does not apply to it.
- Anchor-trajectory spread headers, KV-pressure inference, checkpoint/run identity checks and the assembly of the warning list: they would add easy members only.
