# Verification of Versipellis

Versipellis collects data on a schedule, or receives it, and sends it elsewhere, without losing, duplicating or
over-counting anything, not even while it shuts down. This project models the parts on which that promise rests, and
proves properties of the model for all inputs and all runs:

- **Cron** (`Durations`, `Calendar`, `MinuteScan`, `CronTimes`, `CronNext`, `CronHorizon`, `Text`, `CronParse`, `CronMeaning`):
  a schedule's `Next` jumps by month, day, hour and minute. It finds exactly what looking at every single minute of the
  proleptic Gregorian calendar would find, and its horizon of 8 years and a day is always enough. The parser accepts
  exactly the valid cronspecs, and gives them their documented meaning, from the text up to the resulting UTC times.
- **Dead-Letter Queue** (`MapSums`, `DlqAccounts`, `DlqFiles`, `DlqProtocol`, `DlqSnapshot`, `DlqCounting`, `DlqLimit`,
  `DlqWaiting`, `DlqAdmission`, `DlqMonitor`): writers reserve space, write and release, while a walk of the directory
  measures its size without holding the lock. The measurement is a consistent snapshot, the size limit is kept, and
  nothing that fits is discarded.
- **Batcher** (`Batches`, `Batching`, `BatcherRuns`): cuts a stream of items into batches. Its choices are optimal, do
  not depend on how the items arrive, and late timers do no harm.
- **Sender** (`Gathering`, `SenderRetries`, `SenderSteps`, `SenderOutcomes`, `SenderLifecycle`, `SenderRuns`,
  `SenderAnswers`, `SenderPayloads`): callers, timers, workers and closing, interleaved in any way. Each item has exactly
  one outcome, and the answers to the attempts explain which one it is.
- **SQL collector and shutdown** (`SqlCollector`, `Shutdown`): what a collector promises when it signals that it's done,
  and why the closing order of the whole pipeline is safe.
- **Caches** (`CacheSpec`, `LeanCache`, `LeanCacheRaces`, `FastCache`, `FastCacheRaces`, `Windows`, `FastCacheOrder`,
  `FastCacheCleanup`, `FastCacheRemovals`): two caches do the same. In the one with a lock, every call takes effect at a
  single moment, so nobody can tell what the background cleanup already removed. In the one without a lock, calls on a key
  follow a sequential order under an exact condition on their readings of the clock, the cleanup adds no results that
  wouldn't be possible without it, and concurrent additions always have a single winner.
- **Codec** (`ColumnNames`, `Json`, `JsonTheory`, `JsonRoundTrip`, `JsonTokens`, `JsonGrammar`, `JsonCodec`,
  `JsonStreams`, `JsonLines`, `JsonMeaning`): unique column names; a parser of exactly the texts of a separate JSON
  grammar; and payloads with exactly the values that they encode, whose encoding and decoding undo each other.
- **Retries** (`RetryIntervals`): a closed form of exponential backoff, and its limits.

Code that changes objects or variables step by step is written as classes and methods, each proved against a
specification function; the lemmas are about those functions. Concurrent protocols are state machines: an event is one
step of one goroutine, `Enabled` says when it may happen, `Apply` what it does, `IsRun` and `After` extend them to whole
runs, and a run may interleave the events in any order. Where an update happens under a mutex, it is a single event.

`dafny verify dfyconfig.toml` checks everything.

Clocks, random numbers, files, network connections and parsers of durations are parameters, or events with any result.

## Where the code and its promises differ

- `Time.Truncate` works on the absolute time, so in a zone whose offset isn't in whole minutes `Next` differs from a scan
  of that zone's minutes. `CronTimes.NextIsScanIffWholeMinutes` gives the exact condition.
- A failed write leaves the total size exact if and only if its temporary file is removed
  (`DlqSnapshot.FailedWriteIsExactIfRemoved`); otherwise the directory may exceed it (`DlqLimit.LeftoversExceedTotal`).
- Greedy batching isn't optimal for every stream: an empty item may get a batch of its own, right after a batch that
  was completed when it reached the byte limit exactly (`Batches.EmptyItemsMayWasteABatch`). With sizes that aren't
  negative, batching is optimal for all streams if and only if there are no empty items, or items never fill a batch
  exactly while it still has room for another one (`Batches.AlwaysOptimalIff`, `BatcherRuns.QuietRunsAreOptimalIff`).
- The cache without a lock loads an item and reads the clock separately, so it isn't linearizable: a call may miss a key
  that was live all the time (`FastCacheOrder.LateReadingMissesLiveKey`). The results, in the order of the effects, are
  those of a sequential run with readings of the clock in that order too, if and only if no call's window for reading the
  clock begins after that of a later effect ends (`FastCacheOrder.ExplainedInOrderIff`). A window is the time of the call,
  but after the expiration of an item that the call found expired, and not after that of an item that it found live.
- In the cache without a lock, the background cleanup isn't invisible to calls in progress: a replacement that already
  found a live item fails if the cleanup removes that item before the swap, and succeeds otherwise
  (`FastCacheRemovals.CleanupFailsReplacement`). This is the only such case: removing an expired item makes no difference
  to any result if and only if no such replacement is in progress (`FastCacheRemovals.RemovalIsHarmlessIff`). Over whole
  runs, the cleanup adds no results that calls couldn't have at the same times without it
  (`FastCacheCleanup.CleanupAddsNoResults`).
- Items that expire exactly now are live, but not in the views of the whole cache
  (`CacheSpec.ViewsDifferAtExpiration`).
- The 90 percent minimum of the jitter is exact if and only if the interval is divisible by 10 nanoseconds
  (`RetryIntervals.JitterIsExactIff`).

## Model

| member | source | states |
|---|---|---|
| Calendar.DateOfIsReal | pkg/cron/cron.go:230-265 | Every day number is a real date of the proleptic Gregorian calendar, which has that same number |
| Calendar.DateOfDayNumber | pkg/cron/cron.go:237-248 | The inverse: a real date is the date of its own day number, so the normalisation of overflowing months and days is unambiguous |
| Calendar.WeekdaysFollow | pkg/cron/cron.go:268-281 | The days of the week follow each other, and the day on which Unix time begins is a Thursday |
| Calendar.KnownDays | pkg/cron/cron.go:230-265 | Days are counted from the first one of year 1, and century years have a leap day only every 400 years |
| Calendar.KnownMonths | pkg/cron/cron.go:237-248 | Every month has its known number of days |
| MinuteScan.ScanIsLeast | pkg/cron/cron.go:214-218 | The reference scan returns the least minute before the limit which satisfies the predicate, or nothing if and only if there's none |
| MinuteScan.ScanSkips | pkg/cron/cron.go:234-263 | Starting a scan later makes no difference if nothing matches before |
| CronTimes.FirstTrue | pkg/cron/cron.go:254 | The index of the first true element, or -1 if and only if there's none |
| CronTimes.JumpSkips | pkg/cron/cron.go:236-259 | One pass of the loop moves to a later whole minute, and skips none that matches |
| CronTimes.JumpAdvances | pkg/cron/cron.go:234-263 | Every pass moves forward, from any time, so the distance to the limit is a termination measure |
| CronTimes.LoopIsScan | pkg/cron/cron.go:234-265 | All the jumps together find exactly what the minute-by-minute scan finds |
| CronTimes.FirstCandidateIsNextMinute | pkg/cron/cron.go:230-231 | The first candidate is the least whole minute strictly after the given time |
| CronTimes.NextIsLeastMatch | pkg/cron/cron.go:214-265 | With an offset in whole minutes, the result is the least matching whole minute strictly after the given time and before the limit, and there's no result only if there's no such minute |
| CronTimes.FractionalOffsetsDiffer | pkg/cron/cron.go:231-237 | With any other offset, a schedule and a time for which the loop and the scan differ |
| CronTimes.NextIsScanIffWholeMinutes | pkg/cron/cron.go:230-265 | The loop equals the scan for all schedules and times if and only if the offset is in whole minutes |
| CronNext.Schedule.Next | pkg/cron/cron.go:218-266 | Intervals; the one-time schedule, which its first call consumes; and tables: the result is strictly later and its time in the zone matches, with an offset in whole minutes no whole minute before it does, and there is none if and only if no date matches |
| CronNext.NextUtcIsNext | pkg/cron/cron.go:214-266 | The same for the specification of the result as a UTC time, for every offset |
| CronNext.FindMatch | pkg/cron/cron.go:234-265 | The loop computes the specification of all the jumps |
| CronHorizon.DayRule | pkg/cron/cron.go:268-281 | If both day fields are restricted then either of them decides, otherwise only the restricted one does |
| CronHorizon.LeapYearWithinEight | pkg/cron/cron.go:232 | Any 8 consecutive years have a leap year, also across a century without one |
| CronHorizon.MatchWithinHorizon | pkg/cron/cron.go:232-265 | If any date ever matches the fields of a parsed schedule, then some date within 8 years and a day matches too |
| CronHorizon.JumpStopsAtMatch | pkg/cron/cron.go:236-259 | No jump goes past a matching minute |
| CronHorizon.LoopFinds | pkg/cron/cron.go:234-265 | The loop finds something whenever there's a match before the limit |
| CronHorizon.HorizonIsComplete | pkg/cron/cron.go:232-265 | The zero time is returned if and only if no date ever matches the schedule |
| CronParse.ParsedSpanIsIn | pkg/cron/cron.go:128-172 | An accepted part selects at least one value, and only values of its field |
| CronParse.ParsePart | pkg/cron/cron.go:128-179 | Exactly the selected elements of the table are set, all others keep their values, and nothing changes if the part is invalid |
| CronParse.SetSpan | pkg/cron/cron.go:174-176 | The loop sets every step-th element of the range, with day 7 wrapping around to Sunday, and nothing else |
| CronParse.ParseField | pkg/cron/cron.go:119-126 | A list selects the union of its parts, and fails with the error of its first invalid part |
| CronParse.ParseFields | pkg/cron/cron.go:84-108 | The tables of the five fields, with their order, sizes and restrictions, or the first error |
| CronParse.Parse | pkg/cron/cron.go:61-117 | The schedule object represents what the specification says for the text, in the given zone or else in UTC |
| CronMeaning.ValueParses | pkg/cron/cron.go:181-206 | A number is accepted if and only if it's in range (7 is Sunday too), and a name only in its own field, where it means its position |
| CronMeaning.ItemParses | pkg/cron/cron.go:128-172 | Every notation (any value, value, range, with or without a step, of numbers or names) is accepted if and only if it's valid |
| CronMeaning.ItemSelects | pkg/cron/cron.go:164-176 | An accepted notation selects exactly the values that it means, including ranges that end on Sunday |
| CronMeaning.ListParses | pkg/cron/cron.go:119-126 | A list is accepted if and only if all its notations are valid, and means their union |
| CronMeaning.ParsedTablesAreUsable | pkg/cron/cron.go:84-116 | Every field of any accepted cronspec selects something in range, and an unrestricted field selects everything |
| CronMeaning.NextGivesUpOnlyWithoutDates | pkg/cron/cron.go:61-265 | For any text that parses to tables, the zero time is returned if and only if no real date matches |
| CronMeaning.WrittenSpecParses | pkg/cron/cron.go:61-117 | A written cronspec, with numbers and names, is accepted if and only if all its values, ranges and steps are valid |
| CronMeaning.WrittenSpecMatches | pkg/cron/cron.go:61-117 | The parsed schedule matches exactly the times that the written cronspec means |
| CronMeaning.AcceptedIffWritten | pkg/cron/cron.go:61-206 | Five fields are accepted if and only if they are a valid cronspec in the written notation: nothing else is |
| CronMeaning.NextOfWritten | pkg/cron/cron.go:61-266 | For a valid written cronspec, the result is the first minute strictly later at which the clocks of its zone show what the cronspec means, or nothing if and only if it never does |
| CronMeaning.CaseAndSpacesDontMatter | pkg/cron/cron.go:62-67 | Letters in upper case, and any white space around and between the fields, make no difference |
| CronMeaning.PredefinedMatches | pkg/cron/cron.go:25-34 | Each predefined schedule matches exactly the beginnings of minutes, hours, days, weeks, months or years that its name says |
| CronMeaning.OtherSchedules | pkg/cron/cron.go:36-81 | Exactly three names mean a one-time schedule, and intervals need a duration of at least a second, which is truncated to whole seconds |
| DlqAccounts.DeadLetterQueue.WarnIfNeeded | pkg/dest/dlq_size.go:223-232 | Warns once, when the threshold is reached |
| DlqAccounts.DeadLetterQueue.Reserve | pkg/dest/dlq_size.go:180-197 | Succeeds if and only if there is no maximal size, or the total and the size together are within it; then it adds the size, tracks the file, and may warn; otherwise nothing changes |
| DlqAccounts.DeadLetterQueue.Release | pkg/dest/dlq_size.go:202-219 | Undoes a reservation after a failure, and after a success tracks the file until a current measurement ends |
| DlqAccounts.DeadLetterQueue.AsyncWriteFile | pkg/dest/dlq.go:322-364 | Without interference, a write is discarded exactly when it exceeds the maximal size, is retried when the file system fails, and otherwise adds its size; it leaves no file tracked unless a measurement is in progress |
| DlqAccounts.DeadLetterQueue.SendFile | pkg/dest/dlq.go:142-151 | The file is written if and only if it is within the maximal size and one of three attempts succeeds, and then its size is accounted for once |
| DlqAccounts.DeadLetterQueue.BeginMeasure | pkg/dest/dlq_size.go:85-87 | Only marks the measurement |
| DlqAccounts.DeadLetterQueue.IsTracked | pkg/dest/dlq_size.go:171-176 | Finds a file under both of its names, the final one and the one with the suffix of incomplete files, and no other |
| DlqAccounts.DeadLetterQueue.EndMeasure | pkg/dest/dlq_size.go:103-123 | The new total is the walk's size and the sizes of all the tracked files, and only after a successful walk |
| DlqAccounts.DeadLetterQueue.TakeNewFiles | pkg/dest/dlq_size.go:106-111 | Sums up all the tracked files and keeps exactly those in progress |
| DlqFiles.TruthIgnoresTracked | pkg/dest/dlq_size.go:147-148 | Changes of tracked files don't change what the total size should be |
| DlqFiles.DiskIsWithinTruth | pkg/dest/dlq_size.go:178-197 | If tracked files don't exceed their reserved sizes, the directory doesn't exceed what the total should be |
| DlqFiles.UntrackComplete | pkg/dest/dlq_size.go:106-111 | Completely written files may be untracked together without changing what the total should be |
| DlqProtocol.InvStep | pkg/dest/dlq.go:322-364 | Every step keeps the correspondence between writers, tracked files and the files in the directory |
| DlqProtocol.InvRun | pkg/dest/dlq_size.go:84-219 | ... and so does every run |
| DlqSnapshot.StepConserves | pkg/dest/dlq_size.go:180-219 | None of the queue's own steps changes the difference between the total size and the files, except for bytes that a failed writer couldn't remove |
| DlqSnapshot.FailedWriteIsExactIfRemoved | pkg/dest/dlq.go:345-349 | After a failed write, the total size remains exact if and only if nothing was left behind |
| DlqSnapshot.MeasureIsExact | pkg/dest/dlq_size.go:89-117 | A walk that ends counted exactly the untracked files, so the total size becomes exact |
| DlqSnapshot.SnapshotStep | pkg/dest/dlq_size.go:138-158 | Each step of the walk and of the writers keeps what makes the walk a snapshot |
| DlqSnapshot.QuietRunsAreExact | pkg/dest/dlq_size.go:84-219 | If nobody else changes the directory, failed writers remove their files, and no untracked file is skipped, an exact total size remains exact in every run, in which any number of measurements interleave with the writers |
| DlqSnapshot.MeasurementRepairs | pkg/dest/dlq_size.go:84-123 | Whatever happened to the directory before, a successful measurement makes the total size exact, even if it skipped entries, as long as they hide no untracked file |
| DlqSnapshot.KeptIffWithinMaximum | pkg/dest/dlq_size.go:180-197 | In every state, a write gets its space if and only if there is no maximal size, or the total size and its own are within it |
| DlqSnapshot.DiscardedIffFull | pkg/dest/dlq_size.go:180-197 | After a successful measurement, in every quiet run, a write is discarded if and only if its size and those of all the files in the directory together exceed the maximal size |
| DlqCounting.EachFileCountsOnce | pkg/dest/dlq_size.go:138-158 | Whatever others do meanwhile, the total is the sum of the tracked files' reserved sizes and of the counted sizes; tracked files aren't counted, other names are counted at most once and only if they were listed, and those that were there all along are counted, unless they were skipped or left behind by a failed writer |
| DlqCounting.CountedSizesAreReal | pkg/dest/dlq_size.go:151-156 | Each size that was counted is one that the file really had in some state of the walk |
| DlqWaiting.WritesWait | pkg/dest/dlq.go:155-175 | With a maximal size, a write proceeds only after the first measurement ended, and never if it was interrupted; nothing is discarded before the closing |
| DlqWaiting.MeasuredWritesAreKept | pkg/dest/dlq.go:162-167 | A write that was admitted and doesn't have to wait isn't discarded, even if the queue is closing too |
| DlqWaiting.FailuresBlockWrites | pkg/dest/dlq_size.go:39-49 | If the first measurement fails while the queue is closing, no write ever gets to reserve space |
| DlqWaiting.SuccessUnblocksWrites | pkg/dest/dlq_size.go:39-49 | A first measurement that succeeds is never taken for an interrupted one, even while closing |
| DlqWaiting.ClosingAdmitsNothing | pkg/dest/dlq.go:128-160 | A write that was not admitted before the closing never is, however it interleaves |
| DlqAdmission.AdmittedRunsAreQueueRuns | pkg/dest/dlq.go:128-175 | In every run of the whole queue, in which nothing but its own waiting keeps a write from reserving space, what happens to the files is a run of `DlqProtocol`, so all that's proved there holds |
| DlqAdmission.NothingBeforeMeasurement | pkg/dest/dlq.go:155-175 | With a maximal size, nothing is reserved, tracked or counted before the first measurement ended, nor ever after it was interrupted |
| DlqLimit.BoundedRun | pkg/dest/dlq_size.go:180-219 | In every run without external growth, and in which no untracked file is skipped, the total size covers the files, and stays within the limit |
| DlqLimit.LimitIsKept | pkg/dest/dlq_size.go:180-197 | After a successful first measurement, the bytes in the directory never exceed the total size, which never exceeds the larger of the maximal size and that measurement |
| DlqLimit.LeftoversExceedTotal | pkg/dest/dlq.go:345-349 | A concrete run, from the start, in which a file that couldn't be removed makes the directory exceed the total size |
| DlqMonitor.LatchedRun | pkg/dest/dlq_size.go:112-119 | A total size at the threshold always implies that it was warned about |
| DlqMonitor.WarningsAreSeparated | pkg/dest/dlq_size.go:221-232 | Between any two warnings of a run there's a successful measurement strictly below the threshold |
| DlqMonitor.MeasureSizeLoop | pkg/dest/dlq_size.go:51-79 | The loop computes the schedule of measurements for any sequence of wake-ups |
| DlqMonitor.DelaysAreDelays | pkg/dest/dlq_size.go:23-31 | The delay is always the minimal one times a power of two, within the maximum |
| DlqMonitor.DelaysDouble | pkg/dest/dlq_size.go:23-79 | After a change or a write, the delay is 421 seconds, and each successful measurement without a change doubles it, up to 8 times that |
| DlqMonitor.FailuresChangeNothing | pkg/dest/dlq_size.go:51-79 | A failed measurement is repeated after the same delay, and the known size remains |
| DlqMonitor.WritesNeverPostpone | pkg/dest/dlq_size.go:62-70 | Signals of writes only ever move the next measurement closer |
| Batches.AppendConserves | pkg/flow/batcher.go:126-146 | Adding an item to a pending batch loses and reorders nothing |
| Batches.FeedConserves | pkg/flow/batcher.go:103-107 | Batches and the pending one, in order, are all the items, whatever their sizes are |
| Batches.FeedIsLimited | pkg/flow/batcher.go:126-146 | With any limits, each batch is within them unless it is a single item, and the pending batch is strictly below both |
| Batches.FeedInParts | pkg/flow/batcher.go:91-112 | Adding two chunks is the same as adding their concatenation |
| Batches.ChunksDoNotMatter | pkg/flow/batcher.go:77-112 | So is adding any number of chunks |
| Batches.GreedyIsCut | pkg/flow/batcher.go:126-146 | The reference, which repeatedly takes as many items as possible, cuts the items within the limits |
| Batches.GreedyIsOptimal | pkg/flow/batcher.go:126-146 | No way to cut the items in order and within the limits has fewer batches than the reference |
| Batches.FeedIsGreedy | pkg/flow/batcher.go:126-146 | If no empty item is among items that can fill a batch exactly and leave room, the batcher makes no other choice than the reference |
| Batches.BatchingIsOptimal | pkg/flow/batcher.go:77-186 | Then any way of splitting the input into calls, followed by a flush, yields the same batches, and no other cut has fewer |
| Batches.AlwaysOptimalIff | pkg/flow/batcher.go:77-186 | For sizes that aren't negative, no stream could ever be cut into fewer batches if and only if there are no empty items, or no items fill a batch exactly while it has room for another one |
| Batches.WastedBatch | pkg/flow/batcher.go:139-143 | Otherwise, the shortest such items and an empty one get two batches, although one is enough |
| Batches.EmptyItemsMayWasteABatch | pkg/flow/batcher.go:139-143 | A concrete input with an item of size zero which gets a batch of its own needlessly |
| Batching.Batcher.constructor | pkg/flow/batcher.go:66 | A new batcher is empty, without a timer |
| Batching.Batcher.New | pkg/flow/batcher.go:54-67 | Fails if and only if there is no dispatch function, or a byte limit without a size function; otherwise the batcher is empty and has the given limits and size function |
| Batching.Batcher.AddItem | pkg/flow/batcher.go:77-89 | The new state and the ready batches are those of the specification; batches have at most the maximal number of items, and of bytes unless they are single items; what remains pending is below both; without limits the item passes through |
| Batching.Batcher.AddChunk | pkg/flow/batcher.go:93-112 | ... and the same for a whole chunk, which passes through as it is without limits |
| Batching.Batcher.AppendToBatch | pkg/flow/batcher.go:126-146 | Takes the pending batch before an overflowing item, and the joined one if it's full |
| Batching.Batcher.StartTimer | pkg/flow/batcher.go:150-159 | Starts a timer only for a pending batch that doesn't have one |
| Batching.Batcher.Flush | pkg/flow/batcher.go:178-186 | Takes the pending batch, and dispatches it unless it's empty |
| Batching.Batcher.GuardedTimedFlush | pkg/flow/batcher.go:199-211 | Takes the pending batch only if the timer's generation is still the current one |
| Batching.Batcher.NextBatch | pkg/flow/batcher.go:214-224 | Empties the buffer, stops the timer and starts a new generation |
| BatcherRuns.InvStep | pkg/flow/batcher.go:83-224 | Every step of concurrent calls, timers and guards keeps conservation, the limits, and the correspondence between timers and pending batches |
| BatcherRuns.InvRun | pkg/flow/batcher.go:83-224 | Between calls, a timer is recorded exactly when there's a pending batch with a window, its callback is still to come unless it was refused, and batches that timed out did so after their own window |
| BatcherRuns.LimitsHold | pkg/flow/batcher.go:103-146 | In every run, with any limits, all batches are within them unless they are single items, what is pending is below both, and nothing is pending when there are none |
| BatcherRuns.FlushCompletes | pkg/flow/batcher.go:178-186 | In every run, the batches in the order taken followed by the buffer are all the items in lock order, and a flush leaves nothing behind |
| BatcherRuns.LateCallbacksTakeNothing | pkg/flow/batcher.go:188-211 | A callback, however late, takes only the batch for which its timer was started, after its window; a refused or stale one leaves everything as it is |
| BatcherRuns.QuietRunsFeed | pkg/flow/batcher.go:77-112 | A run in which flushes and callbacks find nothing to take yields the same batches as adding all its items at once |
| BatcherRuns.QuietRunsAreOptimal | pkg/flow/batcher.go:77-186 | Followed by a flush, its batches are those of the reference, and no other cut has fewer, unless an empty item is wasted |
| BatcherRuns.QuietRunsAreOptimalIff | pkg/flow/batcher.go:77-186 | All such runs are optimal under exactly the same condition on the sizes |
| SenderRetries.SendWithRetries | pkg/http/client.go:158-192 | One to the maximal number of attempts; delivered if and only if the last response has a status below 300; all the earlier attempts ended in a way that is worth a retry, before the closing; and it gives up early only after one that is not, or because of the closing |
| SenderRetries.RetryMeansWorth | pkg/http/client.go:369-385 | Timeouts, network failures and the listed ranges of status codes are worth a retry, and no others; successes are the responses below 300 |
| Gathering.GatherUpdate | pkg/http/sender.go:220-259 | A change of what one goroutine holds changes what they all hold by exactly that |
| SenderOutcomes.BalancedWorkerStep | pkg/http/sender.go:320-405 | No step of a worker loses or duplicates an item |
| SenderOutcomes.BalancedThreadStep | pkg/http/sender.go:220-259 | ... nor does any step of a call or of a timer's callback |
| SenderOutcomes.BalancedCloserStep | pkg/http/sender.go:263-310 | ... nor does any step of closing |
| SenderOutcomes.BalancedRun | pkg/http/sender.go:220-405 | In every run, an item is settled or held exactly as many times as it was given |
| SenderLifecycle.ThreadStepIsExclusive | pkg/config/state.go:101-124 | Reading begins only when nobody writes, and admission only when the sender isn't closing |
| SenderLifecycle.WorkerStepIsSound | pkg/http/sender.go:320-349 | Each step of a worker keeps its slot, and its counts of sending, rejecting and attempts, in order |
| SenderLifecycle.InvRun | pkg/http/sender.go:220-349 | Every run keeps exclusion, slots, and the emptiness of batchers that were flushed while closing |
| SenderRuns.DoneHoldsNothing | pkg/http/sender.go:268-283 | When closing is done, nothing is left in a batcher, a worker, or the hands of an admitted call |
| SenderRuns.ExactlyOneOutcome | pkg/http/sender.go:220-405 | In every run each item is, exactly as many times as it was given, delivered, diverted by one call of the fallback, dropped, or still held; when closing is done and interrupted calls returned, nothing is held |
| SenderRuns.UsableItemsAreNotDropped | pkg/http/sender.go:351-357 | Only unusable items are ever dropped |
| SenderRuns.DeliveredIsSuccessful | pkg/http/client.go:170-187 | Items count as delivered exactly as many times as a successful status was seen for their payloads |
| SenderRuns.HealthyRunsDivertNothing | pkg/http/client.go:158-192 | If everything can be encoded, all the attempts succeed and closing doesn't begin, nothing is diverted |
| SenderRuns.SignalExcludesAdmission | pkg/config/state.go:50-63 | Closing is signalled only when no caller holds the read lock |
| SenderRuns.NoWorkAfterWaiting | pkg/http/sender.go:271-283 | No worker is registered after closing starts waiting for the workers |
| SenderRuns.SlotsAreRespected | pkg/http/sender.go:312-349 | Workers that are sending never exceed the slots, and each worker that ended ran exactly one of sending and rejecting, within the limit on attempts |
| SenderRuns.ClosingRun | pkg/http/sender.go:338-348 | After closing began, what a worker may still attempt never grows |
| SenderRuns.ClosingAllowsOneMoreAttempt | pkg/http/client.go:164-183 | After closing began, each worker begins at most one more attempt, and those who were waiting for a slot never send |
| SenderAnswers.AnswersDecide | pkg/http/client.go:158-192 | In every run, a worker makes another attempt only after answers that are worth a retry, ends at once after any other answer, and otherwise ends only because of the closing, the maximal number of attempts, or a payload that could not be encoded |
| SenderAnswers.DivertedHasReason | pkg/http/sender.go:220-405 | In every run, whatever is diverted is a chunk of a call that was not admitted because of the closing; or the payload of a worker that was still waiting then, could not encode it, or got a last answer which is not a success and not worth a retry, or is the last one allowed, or came before the closing |
| SenderAnswers.AttemptsFollowWorthyAnswers | pkg/http/client.go:163-183 | In every run, an attempt is made only if all the answers before it are worth a retry, and fewer than the maximal number of attempts |
| SenderAnswers.FreeSlotsAreTaken | pkg/http/sender.go:312-336 | Work that is registered while there is a free slot is never rejected, even if the closing begins right then; without one, it waits |
| SenderPayloads.PayloadsAreBatches | pkg/http/sender.go:235-259 | In every run, payloads of structured data are batches within the limits, or single items; all others are single items that can be sent |
| SenderPayloads.BatchersAreSeparate | pkg/http/sender.go:235-241 | In every run, a batcher which is given nothing remains empty, whatever others are given |
| SenderPayloads.KindsAreSeparate | pkg/http/sender.go:235-259 | In every run with only structured data, all payloads are batches and nothing is dropped; with only other data, nothing is batched |
| SqlCollector.BalancedStep | pkg/sql/collector.go:333-450 | No step of the queries, the timers or closing loses or duplicates a row |
| SqlCollector.ClosedStep | pkg/sql/collector.go:484-527 | While the scheduler holds the write lock no timed dispatch runs, and unless a query was abandoned nothing adds rows |
| SqlCollector.InvRun | pkg/sql/collector.go:264-327 | Every run keeps that, and never exceeds the limit on concurrent queries |
| SqlCollector.DoneMeansSent | pkg/sql/collector.go:474-528 | In every run, each row is sent exactly once or still held, and running queries never exceed the limit, which is at least one; when the collector signals that it's done, no timed dispatch is running, and if it didn't abandon a query, all the rows were sent, the batcher is empty, and later dispatches find nothing |
| SqlCollector.SkippedIffFull | pkg/sql/collector.go:309-327 | In every run, a query is skipped if and only if as many as the limit are already running |
| SqlCollector.RowsDontWait | pkg/sql/collector.go:368-370 | In every run, nothing is pending when all the queries ended, even if no timer expired |
| Shutdown.NothingIsLate | cmd/versi/main.go:115-141 | In every run, sources pass data only to open senders, senders divert only to an open queue, and when the queue begins to close all the others are closed |
| CacheSpec.ViewsDifferAtExpiration | pkg/cache/cache.go:104-110 | An item is live until its expiration time, inclusive, and in the views only before it: they differ if and only if it expires at this very moment |
| CacheSpec.DeadlineAfterOptions | pkg/cache/cache.go:161-177 | Without options, a positive interval of the cache is added to the current time; with options, only the last one counts; otherwise nothing expires |
| CacheSpec.LiveDecides | pkg/cache/cache.go:43-95 | The live items determine the visible result of every operation and the live items after it |
| CacheSpec.FoundUntilExpired | pkg/cache/cache.go:43-76 | Whatever an operation leaves for its key is found by both ways of getting it until it expires and never after that, no matter what is done meanwhile to other keys, what is read, and what the cleanup removes |
| CacheSpec.LiveLater | pkg/cache/cache.go:104-110 | What's expired remains expired |
| CacheSpec.CleanedKeepsLive | pkg/cache/mutexmap.go:94-99 | Deleting a batch, and comparing and deleting, remove only items that are already expired |
| CacheSpec.CleanupIsInvisible | pkg/cache/mutexmap.go:54-108 | However the cleanup's steps interleave with operations that take effect at one moment, the clients see the same as without it, except for the total number of items and the value of an expired item when it's deleted |
| LeanCaches.DurationOptionToTime | pkg/cache/cache.go:161-177 | The last option overrides the default interval, and only positive intervals expire |
| LeanCaches.LeanCache.Set | pkg/cache/mutexmap.go:113-118 | Stores the item, with the deadline of the options or of the cache, whatever was there; as in the specification |
| LeanCaches.LeanCache.Add | pkg/cache/mutexmap.go:124-134 | Adds if and only if the key is missing or expired, otherwise returns the current value and changes nothing; as in the specification |
| LeanCaches.LeanCache.Replace | pkg/cache/mutexmap.go:139-158 | Replaces if and only if the key is live, keeping its expiration unless there are options, and otherwise removes what is expired; as in the specification |
| LeanCaches.LeanCache.Get | pkg/cache/mutexmap.go:162-165 | The value of the key if and only if it is live; an expired item is removed; as in the specification |
| LeanCaches.LeanCache.GetItem | pkg/cache/mutexmap.go:188-215 | The same for the whole item |
| LeanCacheRaces.ReadsAreAtomic | pkg/cache/mutexmap.go:188-215 | In every run, however others interfere between the two times that a read takes the lock, it takes effect at a single moment between its beginning and its end |
| LeanCaches.LeanCache.Delete | pkg/cache/mutexmap.go:170-177 | Removes the key, returns its value even if it is expired, and reports a deletion if and only if it was live; as in the specification |
| LeanCaches.LeanCache.Keys | pkg/cache/mutexmap.go:218-234 | The keys of the view, each of them once |
| LeanCaches.LeanCache.Items | pkg/cache/mutexmap.go:237-249 | Exactly the view |
| LeanCaches.LeanCache.ItemCount | pkg/cache/mutexmap.go:253-265 | The number of items in the view |
| LeanCaches.LeanCache.ScanExpired | pkg/cache/mutexmap.go:68-76 | Finds exactly the expired keys, each of them once |
| LeanCaches.LeanCache.DeleteExpired | pkg/cache/mutexmap.go:94-100 | Deletes exactly those keys of a batch which are still expired |
| LeanCaches.LeanCache.Cleanup | pkg/cache/mutexmap.go:68-101 | A round keeps all the live items, and removes all the others unless it's stopped between batches |
| FastCaches.FastCache.Set | pkg/cache/syncmap.go:88-90 | Stores the item, with the deadline of the options or of the cache, whatever was there; as in the specification |
| FastCaches.FastCache.Add | pkg/cache/syncmap.go:96-117 | Adds if and only if the key is missing or expired, otherwise returns the current value and changes nothing; as in the specification |
| FastCaches.FastCache.Replace | pkg/cache/syncmap.go:122-149 | Replaces if and only if the key is live, keeping its expiration unless there are options, and otherwise removes what is expired; as in the specification |
| FastCaches.FastCache.Get | pkg/cache/syncmap.go:153-159 | The value of the key if and only if it is live; an expired item is removed; as in the specification |
| FastCaches.FastCache.GetItem | pkg/cache/syncmap.go:181-190 | The same for the whole item |
| FastCaches.FastCache.Delete | pkg/cache/syncmap.go:164-172 | Removes the key, returns its value even if it is expired, and reports a deletion if and only if it was live; as in the specification |
| FastCaches.FastCache.Keys | pkg/cache/syncmap.go:193-205 | The keys of the view, each of them once |
| FastCaches.FastCache.Len | pkg/cache/syncmap.go:238-245 | The number of all the items |
| FastCaches.FastCache.Cleanup | pkg/cache/syncmap.go:70-76 | A round keeps exactly the live items |
| FastCacheRaces.AccessFollowsSpec | pkg/cache/syncmap.go:96-190 | An access which takes effect at once does what the sequential specification says, and one whose effect is decided later stores the item that was loaded |
| FastCacheRaces.SwapFollowsSpec | pkg/cache/syncmap.go:104-142 | A swap of an addition finds the key dead now; a swap of a replacement found it live when it read the clock, and its new deadline comes from the reading after that |
| FastCacheRaces.InvStep | pkg/cache/syncmap.go:56-190 | Every access, every reading of the clock, and every step of the cleanup keep the correspondence with a sequential log |
| FastCacheRaces.SpecIsOfWholeCache | pkg/cache/syncmap.go:88-190 | The sequential specification of a single key is that of the whole cache for each of its operations, up to expired items that remain, and no other key changes |
| FastCacheOrder.CallsFollowTheLog | pkg/cache/syncmap.go:88-190 | In every run, each call takes effect exactly once, at a moment between its beginning and its end, and has the result that the sequential specification gives there with readings of the clock from that time |
| FastCacheOrder.OrderedReadingsIff | pkg/cache/syncmap.go:96-190 | In any run, the same effects are legal with readings in their order, each during its call, if and only if no window begins after that of a later effect ends: a window is the call's time, after the expiration of an item that was found expired, and not after that of one that was found live |
| FastCacheOrder.ExplainedInOrderIff | pkg/cache/syncmap.go:88-190 | When all the calls returned, this is exactly when their effects, in that order and with suitable readings, are a sequential run that explains all the results |
| FastCacheOrder.PunctualRunsAreExplained | pkg/cache/syncmap.go:88-190 | In particular, that's so with the moments of the effects as readings, if no item expired between the moment of an access and the reading that decided its effect |
| FastCacheOrder.LateReadingMissesLiveKey | pkg/cache/syncmap.go:181-190 | There are runs in which a call doesn't find a key that was live in every state, and which no sequential run with ordered readings explains, in any order |
| FastCacheOrder.FirstAddWins | pkg/cache/syncmap.go:96-117 | Sequentially, the first of several additions wins and all return its value |
| FastCacheOrder.ExactlyOneAddWins | pkg/cache/syncmap.go:96-117 | However concurrent additions of an absent or expired key are interleaved, whenever they read the clock, and also with the cleanup, exactly one wins and all return its value, as long as no new item expires |
| FastCacheCleanup.CleanupAddsNoResults | pkg/cache/syncmap.go:56-190 | For every run, there's one without the cleanup in which the same calls begin and return at the same times, with the same results |
| FastCacheCleanup.StepIsFollowed | pkg/cache/syncmap.go:96-190 | A step that isn't in vain can be followed by the same call, with the same outcome, where an expired item remains |
| FastCacheRemovals.RemovalIsHarmlessIff | pkg/cache/syncmap.go:70-149 | In any state of any run, removing an expired item changes no result in any continuation if and only if no replacement in progress already found it live |
| FastCacheRemovals.CleanupFailsReplacement | pkg/cache/syncmap.go:122-142 | A concrete run of a replacement which succeeds, and the same one with the cleanup, in which it fails and leaves nothing |
| ColumnNames.FewerRivals | pkg/codec/json.go:178-183 | The taken names that are at least as long as the candidate strictly shrink, so extending it terminates |
| ColumnNames.Extend | pkg/codec/json.go:176-183 | The generated name isn't taken, and begins with the column's name and position |
| ColumnNames.NamesAreUnique | pkg/codec/json.go:148-189 | For every input, names are as many as the columns, not empty, and pairwise distinct; first occurrences are kept; to others the position is appended after an underscore, the least number of times that makes the name differ from all the columns and all the earlier names |
| ColumnNames.GoodNamesRemain | pkg/codec/json.go:165-167 | Names that need no change remain as they are |
| ColumnNames.UniqueNames | pkg/codec/json.go:153-189 | Both loops, with a map of taken names, compute exactly those names |
| ColumnNames.RowNames | pkg/codec/json.go:105-113 | Names that are cached for rows with the same list of columns equal those computed for each row |
| JsonTheory.NumberExtends | pkg/codec/json.go:242-297 | What follows a number doesn't affect it, unless it continues the number |
| JsonTheory.StringExtends | pkg/codec/json.go:242-297 | What follows a string doesn't affect it |
| JsonTheory.ValueExtends | pkg/codec/json.go:281-297 | What follows a value doesn't affect how it's parsed |
| JsonTheory.ParsedIsSuffix | pkg/codec/json.go:291-296 | Parsing takes a value from the beginning of the text and leaves the rest as it is |
| JsonRoundTrip.PrintParses | pkg/codec/json.go:74 | Every valid value, in the compact form, is parsed back to itself, whatever follows it |
| JsonRoundTrip.ParsedIsValid | pkg/codec/json.go:58-62 | Whatever was parsed is valid, with unique names in each object, and isn't longer in the compact form |
| JsonTokens.NumberIffWellFormed | pkg/codec/json.go:242-297 | The tokens of numbers are exactly those of section 6 of RFC 8259: sign, integer without leading zeros, fraction, exponent |
| JsonTokens.StringIffWellFormed | pkg/codec/json.go:242-297 | The contents of strings are exactly the characters and escape sequences of section 7 of RFC 8259, without unpaired surrogates, and mean exactly those code points |
| JsonGrammar.DocParses | pkg/codec/json.go:281-297 | Every text of the grammar, with any white space between its parts, is parsed to the value that it writes, whatever follows it |
| JsonGrammar.ParsedIsDoc | pkg/codec/json.go:281-297 | Whatever is parsed is a text of the grammar for the parsed value |
| JsonGrammar.ParsedIffDoc | pkg/codec/json.go:281-297 | A text begins with a value and leaves the rest if and only if it is a text of the grammar for that value followed by that rest |
| JsonCodec.EncodeJSON | pkg/codec/json.go:53-86 | The loop writes the payload of the specification, within the space that was allocated in advance |
| JsonCodec.EmptyObject | pkg/codec/json.go:287-289 | The test of the first token after the opening brace finds exactly the empty objects |
| JsonCodec.AppendObject | pkg/codec/json.go:281-297 | Appends the exact text of an object, unless it's empty |
| JsonCodec.DecodeJSON | pkg/codec/json.go:242-277 | The nested loops compute the specification: the objects of any mix of objects and arrays in order, or an error |
| JsonStreams.DecodeConcat | pkg/codec/json.go:227-234 | The concatenation of valid payloads decodes to the objects of both |
| JsonStreams.DecodePayload | pkg/codec/json.go:53-86 | Each shape of payload decodes to its non-empty objects |
| JsonStreams.DecodeEncode | pkg/codec/json.go:53-86 | In all three formats, decoding what was encoded gives back the non-empty objects, in order and in the compact form |
| JsonStreams.DecodedAreObjects | pkg/codec/json.go:227-234 | Whatever is decoded is a non-empty object, exactly as it appears, entirely valid, and without duplicate names at any depth |
| JsonLines.PrintIsVisible | pkg/codec/json.go:50-52 | The compact form of a valid value has no line breaks, nor any other control characters |
| JsonLines.EachObjectIsALine | pkg/codec/json.go:50-52 | The lines of an NDJSON payload are exactly the objects in the compact form, in their order |
| JsonMeaning.CompactIff | pkg/codec/json.go:58-74 | An object is accepted if and only if it is a single value of the grammar within white space, and its compact form is a text of that same value |
| JsonMeaning.PayloadHasValues | pkg/codec/json.go:24-86 | The payload has exactly the given values in order: one array, the single object as it is if the format prefers that, or one value in each line |
| JsonMeaning.EncodeFailsIff | pkg/codec/json.go:58-74 | Encoding fails if and only if an object is not a single value of the grammar |
| JsonMeaning.DecodeMeaning | pkg/codec/json.go:227-297 | Decoding succeeds if and only if the payload is a sequence of objects and arrays of objects, and returns the texts of exactly the non-empty ones in order, as they were written |
| RetryIntervals.ParseRetryInterval | pkg/http/retries.go:105-125 | Keeps durations within the limits, and moves others to the nearest limit |
| RetryIntervals.ParseRetries | pkg/http/retries.go:50-103 | Fails only because of a kind that isn't recognized or a duration which is needed, otherwise the policy is sound: 1 to 10 attempts, 3 by default, an interval of 1 millisecond to 1 minute, and a backoff of up to 5 minutes, which is static if it can't grow |
| RetryIntervals.PolicyMeaning | pkg/http/retries.go:50-80 | Without settings, PATCH and POST are not retried, and the default is a backoff; otherwise the kind decides, in any case |
| RetryIntervals.FitsWhile | pkg/http/retries.go:152-153 | The interval may be doubled exactly as many times as the bit length of the quotient says |
| RetryIntervals.BackoffIsDoubling | pkg/http/retries.go:151-156 | For every attempt, the closed form equals doubling until the next interval would exceed the maximum, and then starting over |
| RetryIntervals.BackoffIsBounded | pkg/http/retries.go:146-153 | The interval is always between the minimum and the maximum |
| RetryIntervals.JitterIsBounded | pkg/http/retries.go:158-162 | With jitter, it's below 110 percent, and at least 90 percent up to rounding |
| RetryIntervals.JitterIsExactIff | pkg/http/retries.go:161-162 | It's at least 90 percent for all random numbers if and only if the interval is divisible by 10 |
| RetryIntervals.JitterCovers | pkg/http/retries.go:158-162 | Every waiting time between 90 and 110 percent is possible, up to rounding |
| RetryIntervals.WaitsByPolicy | pkg/http/retries.go:127-144 | No waiting after the last attempt, the same time for a static policy, and about the doubled interval for a backoff |
| RetryIntervals.WaitsAreSafe | pkg/http/retries.go:127-163 | With a sound policy, the range of random numbers isn't empty, nothing overflows 64 bits, and waiting times are within their limits |

## Left out

- Daylight-saving zones, and the workaround for days that begin with a gap: `Next` is modelled for fixed offsets from UTC.
- The limited range of `time.Time`: days and nanoseconds are unbounded integers.
- Lower case, white space and digits outside ASCII in cronspecs.
- Parsing of durations (`time.ParseDuration`), which is a parameter of `CronParse.Parse` and of `RetryIntervals.ParseRetries`; settings of a wrong type.
- Sizes of files and sums of sizes are unbounded integers, not 64-bit ones, and the size limits are parsed elsewhere.
- Subdirectories of the Dead-Letter Queue are parts of file names, and slashes aren't converted; the order in which a walk visits entries is arbitrary.
- DlqLimit.LimitIsKept: doesn't cover external processes that add or enlarge files between two measurements, because the promise excludes them, nor measurements that skip an untracked file, because such a file was made unreadable externally.
- Encoding of the Dead-Letter Queue's files, their names and extensions, redaction, and the file system's own behaviour; file names are unique.
- The batcher's generation counter is unbounded: it would take 2^64 batches during the flight of a single callback for the real one to wrap around.
- Batching.Batcher.AddItem: returns the batches that the caller dispatches after releasing the lock; the dispatch itself, and its context, are not part of this class.
- Contexts of senders: they're detached from cancellation by the time that any modelled step uses them.
- Requests and responses as such: an item that goes without batching is opaque, with a predicate that tells if it can be sent (not empty, not nil, with a readable body). Headers, queries, TLS, QUIC and the HTTP client are reduced to the result of an attempt.
- The sender's closing timeouts, and its signal to abort stragglers: they only end waiting earlier, and aborted attempts are among the possible results of an attempt. `SenderRuns.ExactlyOneOutcome` is about the end of the wait for all the workers.
- Fairness: a waiting worker, or a closing sender, may wait forever in a run.
- SqlCollector.DoneMeansSent: says nothing about rows of a query that outlives the last timeout, which is what the collector reports as an error.
- The PostgreSQL loop, database drivers, transactions and checkpoints of the SQL collector, and the receivers, whose closing repeats the same patterns.
- Shutdown.NothingIsLate: assumes that a closed source sends nothing and a closed sender diverts nothing. `SqlCollector.DoneMeansSent` and `SenderRuns.ExactlyOneOutcome` state this for collectors and senders, when nothing outlives its timeouts.
- The caches' weak pointers, garbage collection, tickers and stop channels. In `FastCacheRaces` and in what follows from it, operations on all the keys at once are not included, and neither is the value that a deletion of an expired item returns.
- LeanCaches.LeanCache.Add: reads the clock once, although the code reads it again for the new deadline, and so does `Replace`; nobody interferes while the lock is held. `FastCacheRaces` has both readings.
- The views `Items` and `ItemCount` of the cache without a lock, which repeat the loop of its `Keys`.
- FastCacheOrder.CallsFollowTheLog: doesn't promise that the readings of the clock are in the order of the effects, because the code doesn't keep it.
- JSON payloads are sequences of characters, not of UTF-8 bytes, and nesting is unlimited. Marshalling of values in rows (Base64, floats, and the text of NaN and infinities) is left out, so `ColumnNames` covers the names in encoded rows but not their values.
- Error messages and logging.
