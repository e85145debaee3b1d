# Ingest throttle of the newspaper bit-repository ingester

This project models the sequential core of the ingester's put throttle.
`TreeIngester` walks a file locator and hands each file it finds to a put-file client.
It keeps at most `maxNumberOfParallelPuts` puts in flight, using a bounded
`LinkedBlockingQueue` of file ids.
The client's completion callbacks release slots in that queue and record failed puts with a result collector.
After the last file, `waitForFinish` polls once a second, up to a bound, for the queue to empty.
It reports every put still in flight as a timeout failure.
A second, standalone `ParallelOperationLimiter` keys the same queue by `PutJob`.
It adds a lookup (`getJob`) and a FIFO take (`getNextJob`), and its drain throws `NotFinishedException` instead of reporting.

Modules:

- `JavaInt`: Java `int`/`long`, the narrowing cast, truncating division, the wrapping `++`, and the constructor's millisecond-to-second conversion.
- `BlockingQueue`: the queue contents as a sequence, and `remove(o)`.
- `DrainSpec`: the reference definition of the `waitForFinish` poll loop (`Drain`), with its exit conditions proved.
  Each one-second sleep is an environment step in which callbacks only remove jobs.
- `OperationLimiter`: the standalone limiter as a class, with its methods proved against `BlockingQueue` and `DrainSpec`.
- `IngestSpec`: events, failure records, the handler's effect on the queue (`AfterEvents`), and the `performIngest` loop as a reference definition (`IngestFrom`), with its ordering, capacity and accounting lemmas.
- `TreeIngest`: the ingester, its inner limiter, its event handler and a result collector as classes.
  Their loops are proved against `IngestSpec` and `DrainSpec`.

The outside world is an input to the model:

- The locator's answer on each pass and the callbacks that arrive before the pass are an `IngestStep`.
- The callbacks that arrive during each sleep of the drain are one batch per sleep.

## Model

| member | source | states |
|---|---|---|
| JavaInt.NarrowToInt | src/main/java/dk/statsbiblioteket/medieplatform/autonomous/iterator/bitrepository/TreeIngester.java:52 | `(int)x` is the one `int` congruent to `x` modulo 2^32, and is `x` itself when `x` fits |
| JavaInt.IntIncrement | src/main/java/dk/statsbiblioteket/medieplatform/autonomous/iterator/bitrepository/TreeIngester.java:151 | `secondsWaiting++` adds one below `Integer.MAX_VALUE` and wraps to `Integer.MIN_VALUE` from it |
| JavaInt.DivBy1000 | src/main/java/dk/statsbiblioteket/medieplatform/autonomous/iterator/bitrepository/TreeIngester.java:52 | Java's `/ 1000` truncates toward zero: the remainder has the sign of the dividend and is below 1000 in size |
| JavaInt.SecondsToWait | src/main/java/dk/statsbiblioteket/medieplatform/autonomous/iterator/bitrepository/TreeIngester.java:51-52 | `(int)ms/1000` as written is the whole seconds, truncated toward zero, for every `ms` within `int` range |
| JavaInt.SecondsToWaitWrapsAboveIntRange | src/main/java/dk/statsbiblioteket/medieplatform/autonomous/iterator/bitrepository/TreeIngester.java:52 | as written, 2147484000 ms becomes -2147483 seconds |
| JavaInt.IntendedSecondsToWaitIsWholeSeconds | src/main/java/dk/statsbiblioteket/medieplatform/autonomous/iterator/bitrepository/TreeIngester.java:51-52 | dividing before narrowing gives the whole seconds for every non-negative timeout whose seconds fit an `int` |
| JavaInt.ConversionsAgreeInIntRange | src/main/java/dk/statsbiblioteket/medieplatform/autonomous/iterator/bitrepository/TreeIngester.java:51-52 | the as-written and intended conversions agree for every `ms` within `int` range |
| BlockingQueue.IndexOf | src/main/java/dk/statsbiblioteket/medieplatform/autonomous/iterator/bitrepository/TreeIngester.java:145-147 | the first position holding `x`, or the length when `x` is absent |
| BlockingQueue.RemoveFirst | src/main/java/dk/statsbiblioteket/medieplatform/autonomous/iterator/bitrepository/ParallelOperationLimiter.java:61-63 | `remove(o)` leaves the queue unchanged when `o` is absent and shrinks it by exactly one otherwise |
| BlockingQueue.RemoveFirstUnlinksFirstMatch | src/main/java/dk/statsbiblioteket/medieplatform/autonomous/iterator/bitrepository/ParallelOperationLimiter.java:61-63 | the element unlinked is the first equal one; the others keep their order |
| BlockingQueue.RemoveFirstMultiset | src/main/java/dk/statsbiblioteket/medieplatform/autonomous/iterator/bitrepository/TreeIngester.java:145-147 | exactly one copy of the removed element leaves, if there is one, and no other element |
| BlockingQueue.RemoveFirstTwice | src/main/java/dk/statsbiblioteket/medieplatform/autonomous/iterator/bitrepository/TreeIngester.java:145-147 | for an element queued at most once, a second removal is a no-op |
| DrainSpec.DrainFrom | src/main/java/dk/statsbiblioteket/medieplatform/autonomous/iterator/bitrepository/ParallelOperationLimiter.java:66-74 | the loop from a check on: callbacks only shorten the queue; the counter ends equal to the sleeps exactly when the queue ended empty (the short-circuited test leaves it untouched), and otherwise one past them, wrapped at `Integer.MAX_VALUE` |
| DrainSpec.Drain | src/main/java/dk/statsbiblioteket/medieplatform/autonomous/iterator/bitrepository/TreeIngester.java:149-158 | `waitForFinish` from its first check: callbacks only shorten the queue, a bound of zero or below allows no sleep and leaves the queue as it was, and the counter equals the sleeps exactly when the queue ended empty |
| DrainSpec.Polled | src/main/java/dk/statsbiblioteket/medieplatform/autonomous/iterator/bitrepository/TreeIngester.java:151-157 | sleeping never makes the queue longer |
| DrainSpec.PolledSplit | src/main/java/dk/statsbiblioteket/medieplatform/autonomous/iterator/bitrepository/TreeIngester.java:151-157 | sleeping from one check to another equals sleeping to a middle check and on from there |
| DrainSpec.PolledStaysEmpty | src/main/java/dk/statsbiblioteket/medieplatform/autonomous/iterator/bitrepository/TreeIngester.java:151-157 | once the queue is empty at a check, it is empty at every later check |
| DrainSpec.DrainFromEnds | src/main/java/dk/statsbiblioteket/medieplatform/autonomous/iterator/bitrepository/ParallelOperationLimiter.java:65-73 | the loop stops at an empty check with the counter equal to its sleeps, or after the whole budget of sleeps with the counter one past it (wrapped at `Integer.MAX_VALUE`); the queue left is what the sleeps' callbacks left |
| DrainSpec.DrainFromSleepsOnlyWhileJobsLeft | src/main/java/dk/statsbiblioteket/medieplatform/autonomous/iterator/bitrepository/ParallelOperationLimiter.java:67 | every check the loop passes before its last one sees a non-empty queue, so no sleep follows an empty check |
| DrainSpec.DrainStopsAtFirstEmptyCheck | src/main/java/dk/statsbiblioteket/medieplatform/autonomous/iterator/bitrepository/ParallelOperationLimiter.java:66-73 | the drain stops at the first empty check: every check before its last saw jobs, and it leaves the queue its sleeps' callbacks left |
| DrainSpec.DrainSleepsWithinBound | src/main/java/dk/statsbiblioteket/medieplatform/autonomous/iterator/bitrepository/TreeIngester.java:149-157 | `waitForFinish` sleeps at most `secondsToWaitForFinish` times, and never for a negative bound |
| DrainSpec.DrainOfEmptyQueue | src/main/java/dk/statsbiblioteket/medieplatform/autonomous/iterator/bitrepository/ParallelOperationLimiter.java:65-67 | on an empty queue there is no sleep, and a timeout is reported exactly when the bound is negative |
| DrainSpec.DrainTimesOutExactly | src/main/java/dk/statsbiblioteket/medieplatform/autonomous/iterator/bitrepository/ParallelOperationLimiter.java:65-79 | for `0 <= T < Integer.MAX_VALUE`: a timeout exactly when the queue is non-empty at check T+1; the jobs left are then that queue, and otherwise none |
| DrainSpec.DrainAtIntMaxNeverTimesOut | src/main/java/dk/statsbiblioteket/medieplatform/autonomous/iterator/bitrepository/ParallelOperationLimiter.java:66-74 | with the bound at `Integer.MAX_VALUE` the counter wraps, so no timeout is ever reported |
| DrainSpec.DrainWithNegativeBound | src/main/java/dk/statsbiblioteket/medieplatform/autonomous/iterator/bitrepository/ParallelOperationLimiter.java:66-74 | a negative bound gives up at the first check without sleeping, with every job left |
| OperationLimiter.ParallelOperationLimiter.constructor | src/main/java/dk/statsbiblioteket/medieplatform/autonomous/iterator/bitrepository/ParallelOperationLimiter.java:19-22 | an empty queue with capacity `limit` and the given drain bound |
| OperationLimiter.ParallelOperationLimiter.AddJob | src/main/java/dk/statsbiblioteket/medieplatform/autonomous/iterator/bitrepository/ParallelOperationLimiter.java:28-34 | admitted only below capacity; appends the job at the tail; the size stays within capacity |
| OperationLimiter.ParallelOperationLimiter.GetJob | src/main/java/dk/statsbiblioteket/medieplatform/autonomous/iterator/bitrepository/ParallelOperationLimiter.java:41-51 | null exactly for an empty queue; otherwise the first job for the file id or, when none matches, the last job |
| OperationLimiter.ParallelOperationLimiter.GetNextJob | src/main/java/dk/statsbiblioteket/medieplatform/autonomous/iterator/bitrepository/ParallelOperationLimiter.java:53-55 | on a non-empty queue, returns the head and leaves the tail (FIFO) |
| OperationLimiter.ParallelOperationLimiter.RemoveJob | src/main/java/dk/statsbiblioteket/medieplatform/autonomous/iterator/bitrepository/ParallelOperationLimiter.java:61-63 | the queue becomes `RemoveFirst` of the old queue; the size stays within capacity |
| OperationLimiter.ParallelOperationLimiter.CallbacksDuringSleep | src/main/java/dk/statsbiblioteket/medieplatform/autonomous/iterator/bitrepository/ParallelOperationLimiter.java:68-72 | one sleep: the callbacks' removals, applied in order |
| OperationLimiter.ParallelOperationLimiter.Poll | src/main/java/dk/statsbiblioteket/medieplatform/autonomous/iterator/bitrepository/ParallelOperationLimiter.java:66-73 | the poll loop ends with the queue, sleep count and counter of `Drain` on the old queue |
| OperationLimiter.ParallelOperationLimiter.WaitForFinish | src/main/java/dk/statsbiblioteket/medieplatform/autonomous/iterator/bitrepository/ParallelOperationLimiter.java:65-79 | ends as `Drain` does; `NotFinishedException` with the jobs left exactly when the drain times out, normal return otherwise |
| IngestSpec.TimeoutFailures | src/main/java/dk/statsbiblioteket/medieplatform/autonomous/iterator/bitrepository/TreeIngester.java:158-165 | one failure per id left, in queue order, each `(id, "Ingest failure", "BitrepositoryIngester", "Timeout waiting for last files to be ingested.")` |
| IngestSpec.AfterEvent | src/main/java/dk/statsbiblioteket/medieplatform/autonomous/iterator/bitrepository/TreeIngester.java:108-117 | COMPLETE and FAILED release one slot of the event's file when it holds one; any other event, or a file not in flight, leaves the queue as it was |
| IngestSpec.FailuresOf | src/main/java/dk/statsbiblioteket/medieplatform/autonomous/iterator/bitrepository/TreeIngester.java:112-115 | a FAILED event records exactly one failure `(fileID, "Ingest failure", "BitrepositoryIngester", info)`; any other event records none |
| IngestSpec.AfterEventsRemovesReleases | src/main/java/dk/statsbiblioteket/medieplatform/autonomous/iterator/bitrepository/TreeIngester.java:108-117 | handling a batch of events equals removing, in order, the ids of its COMPLETE and FAILED events |
| IngestSpec.AfterEventsBounds | src/main/java/dk/statsbiblioteket/medieplatform/autonomous/iterator/bitrepository/TreeIngester.java:108-117 | events never add to the queue, and remove at most one copy per COMPLETE or FAILED event |
| IngestSpec.SleptOnce | src/main/java/dk/statsbiblioteket/medieplatform/autonomous/iterator/bitrepository/TreeIngester.java:149-157 | a sleep in which the handler sees that sleep's callbacks continues the drain from the queue they leave |
| IngestSpec.WaitOnEmptyQueueRecordsNothing | src/main/java/dk/statsbiblioteket/medieplatform/autonomous/iterator/bitrepository/TreeIngester.java:149-165 | on an empty queue, `waitForFinish` neither sleeps nor records a failure, whatever its bound |
| IngestSpec.PassOutcomes | src/main/java/dk/statsbiblioteket/medieplatform/autonomous/iterator/bitrepository/TreeIngester.java:58-72 | one pass of the do-while: it blocks exactly when a located file meets a full queue, goes on exactly when a file is admitted or the locator throws after an earlier file, and a pass that ends the loop hands nothing over |
| IngestSpec.IngestFrom | src/main/java/dk/statsbiblioteket/medieplatform/autonomous/iterator/bitrepository/TreeIngester.java:57-72 | the do-while loop from a pass on: it only appends to the files handed over and the failures recorded, and it blocks only on a full queue |
| IngestSpec.IngestSubmitsLocatedFiles | src/main/java/dk/statsbiblioteket/medieplatform/autonomous/iterator/bitrepository/TreeIngester.java:57-72 | the loop hands the located files to the client in locator order, up to the first null and skipping locator errors once a file was returned; all of them unless it blocks, and a proper prefix if it blocks |
| IngestSpec.FirstLocatorErrorEndsLoop | src/main/java/dk/statsbiblioteket/medieplatform/autonomous/iterator/bitrepository/TreeIngester.java:58-72 | a locator exception on the very first call ends the loop, because `file` is still null |
| IngestSpec.UnansweredPutKeepsItsSlot | src/main/java/dk/statsbiblioteket/medieplatform/autonomous/iterator/bitrepository/TreeIngester.java:62-68 | with one slot and no callbacks, the first file keeps its slot whether its client call threw or not, so the second file blocks |
| IngestSpec.IngestKeepsCapacity | src/main/java/dk/statsbiblioteket/medieplatform/autonomous/iterator/bitrepository/TreeIngester.java:129 | the loop never takes the queue beyond its capacity |
| IngestSpec.IngestOnlyCallbacksRelease | src/main/java/dk/statsbiblioteket/medieplatform/autonomous/iterator/bitrepository/TreeIngester.java:62-68 | only COMPLETE/FAILED callbacks take ids out of the queue and only submissions put them in; the queue is bounded above and below by that accounting |
| TreeIngest.ResultCollector.AddFailure | src/main/java/dk/statsbiblioteket/medieplatform/autonomous/iterator/bitrepository/TreeIngester.java:114 | appends one failure record |
| TreeIngest.ParallelOperationLimiter.constructor | src/main/java/dk/statsbiblioteket/medieplatform/autonomous/iterator/bitrepository/TreeIngester.java:128-131 | an empty queue with capacity `limit`, the given bound and the ingester's collector |
| TreeIngest.ParallelOperationLimiter.AddJob | src/main/java/dk/statsbiblioteket/medieplatform/autonomous/iterator/bitrepository/TreeIngester.java:137-143 | admitted only below capacity; appends the file id at the tail; the size stays within capacity |
| TreeIngest.ParallelOperationLimiter.RemoveJob | src/main/java/dk/statsbiblioteket/medieplatform/autonomous/iterator/bitrepository/TreeIngester.java:145-147 | the queue becomes `RemoveFirst` of the old queue |
| TreeIngest.ParallelOperationLimiter.Poll | src/main/java/dk/statsbiblioteket/medieplatform/autonomous/iterator/bitrepository/TreeIngester.java:150-157 | the poll loop ends as `Drain` does, with the failures the callbacks recorded during its sleeps |
| TreeIngest.ParallelOperationLimiter.ReportTimeout | src/main/java/dk/statsbiblioteket/medieplatform/autonomous/iterator/bitrepository/TreeIngester.java:161-164 | adds `TimeoutFailures` of the queue, in queue order, and leaves the queue unchanged |
| TreeIngest.ParallelOperationLimiter.WaitForFinish | src/main/java/dk/statsbiblioteket/medieplatform/autonomous/iterator/bitrepository/TreeIngester.java:149-166 | the queue ends as `Drain` leaves it; the callbacks' failures are recorded, then timeout failures for the ids left exactly when the drain times out; nothing is thrown |
| TreeIngest.OperationEventHandler.constructor | src/main/java/dk/statsbiblioteket/medieplatform/autonomous/iterator/bitrepository/TreeIngester.java:103-105 | the handler serves the given limiter and reports to the given collector |
| TreeIngest.OperationEventHandler.HandleEvent | src/main/java/dk/statsbiblioteket/medieplatform/autonomous/iterator/bitrepository/TreeIngester.java:108-117 | COMPLETE removes the id with no failure; FAILED records one ingest failure carrying the event's info, then removes the id; any other event changes nothing |
| TreeIngest.OperationEventHandler.HandleEvents | src/main/java/dk/statsbiblioteket/medieplatform/autonomous/iterator/bitrepository/TreeIngester.java:108-117 | a batch of callbacks has the effect of `AfterEvents` and `FailuresOfAll` |
| TreeIngest.TreeIngester.constructor | src/main/java/dk/statsbiblioteket/medieplatform/autonomous/iterator/bitrepository/TreeIngester.java:41-55 | a fresh, empty limiter of capacity `maxNumberOfParallelPuts` sharing the collector with a fresh handler; its bound is the timeout in whole seconds (see Findings) |
| TreeIngest.TreeIngester.PutFile | src/main/java/dk/statsbiblioteket/medieplatform/autonomous/iterator/bitrepository/TreeIngester.java:80-85 | admits the file id at the tail before the client call |
| TreeIngest.TreeIngester.IngestLoop | src/main/java/dk/statsbiblioteket/medieplatform/autonomous/iterator/bitrepository/TreeIngester.java:57-72 | the loop ends in the state `IngestFrom` defines, handing the client exactly the files it submits |
| TreeIngest.TreeIngester.PerformIngest | src/main/java/dk/statsbiblioteket/medieplatform/autonomous/iterator/bitrepository/TreeIngester.java:57-75 | for a locator whose answers end in `null`: the loop as `IngestFrom` defines it, then, unless blocked, exactly one `waitForFinish` from the queue the loop left |

## Left out

- Threads and blocking. A blocking `put` or `take` is a precondition (not full, not empty).
  In `performIngest`, an `addJob` on a full queue that no callback frees ends the model with `blocked`; in Java it blocks for ever.
  Callbacks are delivered before a pass or during a sleep, never interleaved within a single operation.
- `Thread.sleep` and wall-clock time: sleeps are counted. `InterruptedException` is taken never to happen; `waitForFinish` swallows it and `addJob` rethrows it as a `RuntimeException`.
- `shutdown()` and the JMS `MessageBus`: transport plumbing outside the throttle.
- Logging and the `Arrays.toString` message of the timeout warning.
- `PutFileClient.putFile`: the network call and its arguments (url, checksum, `DEFAULT_FILE_SIZE`, the handler).
  Whether it returns or throws changes nothing the ingester keeps, so the model only records which files were handed to it.
- `ResultCollector`, `IngestableFileLocator`, `PutJob` and `NotFinishedException` are not part of this model beyond their use here:
  - the collector is an append-only list of failure records;
  - the locator is one answer per pass (a file, null, or an exception);
  - a `PutJob` is a value compared structurally, so reference identity is not modelled;
  - `NotFinishedException` carries a snapshot of the jobs left rather than the live queue.
- The locator's answers are finite and end in `null` (`IngestSpec.StepAt`). A locator that keeps throwing after returning a file keeps `performIngest` looping for ever in Java, never reaching `waitForFinish`; that run is not modelled.
- Null references other than the locator's null and `getJob`'s null result are not modelled.
- The `LinkedBlockingQueue` constructor's exception for a capacity below 1 is a precondition of both limiter constructors.
- Behaviour of the code worth stating, which the model keeps:
  - a put whose client call throws keeps its slot until a callback releases it (`IngestSpec.IngestOnlyCallbacksRelease`, `IngestSpec.UnansweredPutKeepsItsSlot`);
  - every FAILED event records a failure, even for an id no longer in flight;
  - a negative drain bound times out at once, so the standalone limiter throws `NotFinishedException` with no jobs even on an empty queue;
  - a bound of `Integer.MAX_VALUE` never times out.
- TreeIngest.TreeIngester.constructor: uses the corrected conversion `IntendedSecondsToWait`, not the source's `(int)ms/1000`; the two agree for every timeout within `int` range (see Findings).

## Findings

| source | as written | input that shows it | evidently intended | confidence | as-written member | corrected member |
|---|---|---|---|---|---|---|
| src/main/java/dk/statsbiblioteket/medieplatform/autonomous/iterator/bitrepository/TreeIngester.java:52 | `(int)timoutForLastOperation/1000` narrows the `long` milliseconds to `int` before dividing | `timoutForLastOperation = 2147484000` (about 24.9 days) gives -2147483 seconds, so the drain gives up at once | `(int)(timoutForLastOperation/1000)`, giving 2147484 seconds | not executed | JavaInt.SecondsToWaitWrapsAboveIntRange | JavaInt.IntendedSecondsToWaitIsWholeSeconds |
