/**
 * TreeIngester.java: the ingester that hands every file its locator finds
 * to the put-file client, keeping at most `maxNumberOfParallelPuts` puts in
 * flight, and afterwards waits a bounded time for the last ones, recording
 * every failed or timed-out put with the result collector.
 *
 * The locator, the client and the callbacks the client delivers on its own
 * threads are the outside world: the model takes what they do as input (an
 * `IngestStep` per pass of the ingest loop, a batch of callbacks per sleep
 * of the drain) and the methods are proved against the reference
 * definitions of `IngestSpec` and `DrainSpec`.
 */
module TreeIngest {
  import opened JavaInt
  import opened BlockingQueue
  import opened DrainSpec
  import opened IngestSpec

  /** The result collector, as far as the ingester uses it: the failures added, in order. */
  class ResultCollector {
    var failures: seq<Failure>

    constructor ()
      ensures failures == []
    {
      failures := [];
    }

    /** `addFailure(fileID, type, component, description)`. */
    method AddFailure(fileID: string, failureType: string, component: string, description: string)
      modifies this
      ensures failures == old(failures) + [Failure(fileID, failureType, component, description)]
    {
      failures := failures + [Failure(fileID, failureType, component, description)];
    }
  }

  /**
   * The inner `ParallelOperationLimiter`: a bounded FIFO queue of the file
   * ids in flight (a `LinkedBlockingQueue<String>` of capacity `limit`),
   * reporting a timed-out drain to the ingester's result collector.
   */
  class ParallelOperationLimiter {
    /** The queue contents, head first. */
    var activeOperations: seq<string>
    /** The queue's capacity, `limit`. */
    const capacity: nat
    const secondsToWaitForFinish: Int32
    /** The enclosing ingester's result collector. */
    const resultCollector: ResultCollector

    /** The queue never holds more ids than its capacity. */
    ghost predicate Valid()
      reads this
    {
      0 < capacity && |activeOperations| <= capacity
    }

    /** An empty queue of capacity `limit` (`LinkedBlockingQueue` rejects a capacity below 1). */
    constructor (limit: Int32, timeToWaitForFinish: Int32, collector: ResultCollector)
      requires limit > 0
      ensures Valid()
      ensures activeOperations == [] && capacity == limit
      ensures secondsToWaitForFinish == timeToWaitForFinish && resultCollector == collector
    {
      activeOperations := [];
      capacity := limit;
      secondsToWaitForFinish := timeToWaitForFinish;
      resultCollector := collector;
    }

    /** `addJob`: the blocking `put`, admitted only below capacity, appends at the tail. */
    method AddJob(fileID: string)
      requires Valid()
      requires |activeOperations| < capacity
      modifies this
      ensures Valid()
      ensures activeOperations == old(activeOperations) + [fileID]
    {
      activeOperations := activeOperations + [fileID];
    }

    /** `removeJob`: `remove(fileID)`, the first equal id leaves; an absent id changes nothing. */
    method RemoveJob(fileID: string)
      requires Valid()
      modifies this
      ensures Valid()
      ensures activeOperations == RemoveFirst(old(activeOperations), fileID)
    {
      activeOperations := RemoveFirst(activeOperations, fileID);
    }

    /**
     * `waitForFinish`: polls once a second until the queue is empty or the
     * counter passes `secondsToWaitForFinish`. During sleep number `k` the
     * handler receives the callbacks `env[k]` (none once `env` runs out). The
     * queue ends as the drain of the old queue under their releases does;
     * exactly when that drain times out, one timeout failure per id left is
     * added, in queue order, after the failures the callbacks recorded.
     */
    method WaitForFinish(handler: OperationEventHandler, env: seq<seq<OperationEvent>>) returns (sleeps: nat)
      requires Valid()
      requires handler.operationLimiter == this && handler.resultCollector == resultCollector
      modifies this, resultCollector
      ensures Valid()
      ensures var run := Drain(old(activeOperations), secondsToWaitForFinish, ReleaseEnv(env));
        && activeOperations == run.remaining
        && sleeps == run.sleeps
        && resultCollector.failures
           == old(resultCollector.failures) + SleepFailures(env, sleeps)
              + (if TimedOut(run, secondsToWaitForFinish) then TimeoutFailures(run.remaining) else [])
    {
      var secondsWaiting;
      sleeps, secondsWaiting := Poll(handler, env);
      if secondsWaiting > secondsToWaitForFinish {
        ReportTimeout();
      }
    }

    /**
     * The poll loop of `waitForFinish`, up to the timeout test: it ends as
     * the drain of the old queue does, with the failures the callbacks
     * recorded while it slept.
     */
    method Poll(handler: OperationEventHandler, env: seq<seq<OperationEvent>>) returns (sleeps: nat, secondsWaiting: Int32)
      requires Valid()
      requires handler.operationLimiter == this && handler.resultCollector == resultCollector
      modifies this, resultCollector
      ensures Valid()
      ensures DrainRun(activeOperations, sleeps, secondsWaiting)
           == Drain(old(activeOperations), secondsToWaitForFinish, ReleaseEnv(env))
      ensures resultCollector.failures == old(resultCollector.failures) + SleepFailures(env, sleeps)
    {
      secondsWaiting := 0;
      sleeps := 0;
      while true
        invariant Valid()
        invariant secondsWaiting == sleeps
        invariant sleeps <= INT_MAX
        invariant DrainFrom(activeOperations, sleeps, secondsToWaitForFinish, ReleaseEnv(env))
               == Drain(old(activeOperations), secondsToWaitForFinish, ReleaseEnv(env))
        invariant resultCollector.failures == old(resultCollector.failures) + SleepFailures(env, sleeps)
        decreases secondsToWaitForFinish - sleeps
      {
        if activeOperations == [] {
          break;
        }
        var checked := secondsWaiting;
        secondsWaiting := IntIncrement(secondsWaiting);
        if !(checked < secondsToWaitForFinish) {
          break;
        }
        SleptOnce(activeOperations, sleeps, secondsToWaitForFinish, env);
        SleepFailuresOneMore(env, sleeps, old(resultCollector.failures), resultCollector.failures);
        handler.HandleEvents(Released(env, sleeps));
        sleeps := sleeps + 1;
      }
    }

    /** The timeout report: one failure per id still queued, in queue order; the queue stays. */
    method ReportTimeout()
      modifies resultCollector
      ensures resultCollector.failures == old(resultCollector.failures) + TimeoutFailures(activeOperations)
    {
      var left := activeOperations;
      var timeouts := TimeoutFailures(left);
      for k := 0 to |left|
        invariant resultCollector.failures == old(resultCollector.failures) + timeouts[..k]
      {
        resultCollector.AddFailure(left[k], INGEST_FAILURE, COMPONENT, TIMEOUT_DESCRIPTION);
        assert timeouts[..k + 1] == timeouts[..k] + [timeouts[k]];
      }
      assert timeouts[..|left|] == timeouts;
    }
  }

  /** `OperationEventHandler`: the client's callbacks for each put. */
  class OperationEventHandler {
    const operationLimiter: ParallelOperationLimiter
    /** The enclosing ingester's result collector. */
    const resultCollector: ResultCollector

    constructor (putLimiter: ParallelOperationLimiter, collector: ResultCollector)
      ensures operationLimiter == putLimiter && resultCollector == collector
    {
      operationLimiter := putLimiter;
      resultCollector := collector;
    }

    /**
     * `handleEvent`: COMPLETE releases the file's slot; FAILED first records
     * an ingest failure carrying the event's info, then releases the slot;
     * every other event changes nothing (`AfterEvent` and `FailuresOf`).
     */
    method HandleEvent(event: OperationEvent)
      requires operationLimiter.Valid()
      modifies operationLimiter, resultCollector
      ensures operationLimiter.Valid()
      ensures operationLimiter.activeOperations == AfterEvent(old(operationLimiter.activeOperations), event)
      ensures resultCollector.failures == old(resultCollector.failures) + FailuresOf(event)
    {
      if event.eventType == Complete {
        operationLimiter.RemoveJob(event.fileID);
      } else if event.eventType == Failed {
        resultCollector.AddFailure(event.fileID, INGEST_FAILURE, COMPONENT, event.info);
        operationLimiter.RemoveJob(event.fileID);
      }
    }

    /** A batch of callbacks, handled one after the other. */
    method HandleEvents(events: seq<OperationEvent>)
      requires operationLimiter.Valid()
      modifies operationLimiter, resultCollector
      ensures operationLimiter.Valid()
      ensures operationLimiter.activeOperations == AfterEvents(old(operationLimiter.activeOperations), events)
      ensures resultCollector.failures == old(resultCollector.failures) + FailuresOfAll(events)
    {
      for k := 0 to |events|
        invariant operationLimiter.Valid()
        invariant AfterEvents(operationLimiter.activeOperations, events[k..])
               == AfterEvents(old(operationLimiter.activeOperations), events)
        invariant resultCollector.failures + FailuresOfAll(events[k..])
               == old(resultCollector.failures) + FailuresOfAll(events)
      {
        ghost var q, f := operationLimiter.activeOperations, resultCollector.failures;
        HandleEvent(events[k]);
        HandledOneMore(q, f, events, k);
      }
      assert events[|events|..] == [];
    }
  }

  /** Handling event `k` moves the fold over `events[k..]` one event on. */
  lemma HandledOneMore(q: seq<string>, f: seq<Failure>, events: seq<OperationEvent>, k: nat)
    requires k < |events|
    ensures AfterEvents(AfterEvent(q, events[k]), events[k + 1..]) == AfterEvents(q, events[k..])
    ensures (f + FailuresOf(events[k])) + FailuresOfAll(events[k + 1..]) == f + FailuresOfAll(events[k..])
  {
    assert events[k..][1..] == events[k + 1..];
  }

  /** `TreeIngester`, with its locator and client taken as input to `PerformIngest`. */
  class TreeIngester {
    const collectionID: string
    const resultCollector: ResultCollector
    const parallelOperationLimiter: ParallelOperationLimiter
    const handler: OperationEventHandler

    /** The limiter and the handler share the ingester's collector, and the handler serves this limiter. */
    ghost predicate Valid()
      reads this, parallelOperationLimiter
    {
      && parallelOperationLimiter.Valid()
      && parallelOperationLimiter.resultCollector == resultCollector
      && handler.operationLimiter == parallelOperationLimiter
      && handler.resultCollector == resultCollector
    }

    /**
     * The constructor: a fresh limiter of capacity `maxNumberOfParallelPuts`
     * whose drain bound is the timeout in whole seconds. The conversion is
     * the intended one, `IntendedSecondsToWait`; the source narrows before it
     * divides (`SecondsToWait`), which differs only for timeouts beyond
     * `Integer.MAX_VALUE` milliseconds (`ConversionsAgreeInIntRange`).
     */
    constructor (collectionID: string, timoutForLastOperation: Int64, resultCollector: ResultCollector,
                 maxNumberOfParallelPuts: Int32)
      requires maxNumberOfParallelPuts > 0
      ensures Valid()
      ensures this.collectionID == collectionID && this.resultCollector == resultCollector
      ensures fresh(parallelOperationLimiter) && fresh(handler)
      ensures parallelOperationLimiter.activeOperations == []
      ensures parallelOperationLimiter.capacity == maxNumberOfParallelPuts
      ensures parallelOperationLimiter.secondsToWaitForFinish == IntendedSecondsToWait(timoutForLastOperation)
    {
      this.collectionID := collectionID;
      this.resultCollector := resultCollector;
      var limiter := new ParallelOperationLimiter(maxNumberOfParallelPuts,
                                                  IntendedSecondsToWait(timoutForLastOperation), resultCollector);
      parallelOperationLimiter := limiter;
      handler := new OperationEventHandler(limiter, resultCollector);
    }

    /**
     * `putFile`: takes a slot for the file (below capacity), then hands the
     * file to the client. Whatever the client does, returning or throwing,
     * the slot is only given back by a callback.
     */
    method PutFile(file: IngestableFile)
      requires Valid()
      requires |parallelOperationLimiter.activeOperations| < parallelOperationLimiter.capacity
      modifies parallelOperationLimiter
      ensures Valid()
      ensures parallelOperationLimiter.activeOperations
           == old(parallelOperationLimiter.activeOperations) + [file.fileID]
    {
      parallelOperationLimiter.AddJob(file.fileID);
    }

    /**
     * `performIngest`: the loop over the locator, then the drain. `steps[i]`
     * is what the outside world does around pass `i`; `drainEnv` the
     * callbacks during each sleep of the drain. The loop runs as `IngestFrom`
     * says and hands the client exactly the files it submits; `blocked`
     * means it stopped in an `addJob` that no callback frees (in Java, for
     * ever), so there is no drain. Otherwise the drain runs from the queue
     * the loop left, as `waitForFinish` promises.
     */
    method PerformIngest(steps: seq<IngestStep>, drainEnv: seq<seq<OperationEvent>>)
      returns (handed: seq<IngestableFile>, blocked: bool, drainSleeps: nat)
      requires Valid()
      modifies parallelOperationLimiter, resultCollector
      ensures Valid()
      ensures var end := IngestFrom(steps, 0, parallelOperationLimiter.capacity, false,
                                    Progress(old(parallelOperationLimiter.activeOperations),
                                             old(resultCollector.failures), []));
        && blocked == end.blocked
        && handed == end.progress.submitted
        && (blocked ==>
              && parallelOperationLimiter.activeOperations == end.progress.queue
              && resultCollector.failures == end.progress.failures
              && drainSleeps == 0)
        && (!blocked ==>
              var T := parallelOperationLimiter.secondsToWaitForFinish;
              var run := Drain(end.progress.queue, T, ReleaseEnv(drainEnv));
              && parallelOperationLimiter.activeOperations == run.remaining
              && drainSleeps == run.sleeps
              && resultCollector.failures
                 == end.progress.failures + SleepFailures(drainEnv, run.sleeps)
                    + (if TimedOut(run, T) then TimeoutFailures(run.remaining) else []))
    {
      handed, blocked := IngestLoop(steps);
      if blocked {
        drainSleeps := 0;
      } else {
        drainSleeps := parallelOperationLimiter.WaitForFinish(handler, drainEnv);
      }
    }

    /** The `do ... while (file != null)` loop of `performIngest`, as `IngestFrom` defines it. */
    method IngestLoop(steps: seq<IngestStep>) returns (handed: seq<IngestableFile>, blocked: bool)
      requires Valid()
      modifies parallelOperationLimiter, resultCollector
      ensures Valid()
      ensures var end := IngestFrom(steps, 0, parallelOperationLimiter.capacity, false,
                                    Progress(old(parallelOperationLimiter.activeOperations),
                                             old(resultCollector.failures), []));
        && blocked == end.blocked
        && handed == end.progress.submitted
        && parallelOperationLimiter.activeOperations == end.progress.queue
        && resultCollector.failures == end.progress.failures
    {
      var limiter := parallelOperationLimiter;
      ghost var target := IngestFrom(steps, 0, limiter.capacity, false,
                                     Progress(limiter.activeOperations, resultCollector.failures, []));
      var i := 0;
      var fileSet := false;
      handed := [];
      blocked := false;
      while true
        invariant Valid()
        invariant IngestFrom(steps, i, limiter.capacity, fileSet,
                             Progress(limiter.activeOperations, resultCollector.failures, handed)) == target
        decreases |steps| - i
      {
        ghost var before := Progress(limiter.activeOperations, resultCollector.failures, handed);
        var step := StepAt(steps, i);
        handler.HandleEvents(step.callbacks);
        ghost var arrived := Arrive(before, step.callbacks);
        assert Progress(limiter.activeOperations, resultCollector.failures, handed) == arrived;
        match step.located {
          case NoMoreFiles =>
            break;
          case LocatorError =>
            if !fileSet {
              break;
            }
          case Found(file) =>
            if |limiter.activeOperations| >= limiter.capacity {
              blocked := true;
              break;
            }
            PutFile(file);
            handed := handed + [file];
            fileSet := true;
            assert Progress(limiter.activeOperations, resultCollector.failures, handed) == Submit(arrived, file);
        }
        i := i + 1;
      }
    }
  }
}
