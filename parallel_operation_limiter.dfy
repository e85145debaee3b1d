/**
 * The standalone limiter of ParallelOperationLimiter.java: a bounded FIFO
 * queue (a `LinkedBlockingQueue<PutJob>` of capacity `limit`) holding the
 * put jobs in flight, with a bounded drain.
 *
 * The queue's blocking `put` and `take` become preconditions (not full, not
 * empty); the threads that would unblock them are outside this model.
 */
module OperationLimiter {
  import opened JavaInt
  import opened BlockingQueue
  import opened DrainSpec

  /** A Java reference that may be `null`. */
  datatype Option<T> = None | Some(value: T)

  /**
   * A put job: the file it is for, and the rest of what the transfer needs
   * (url, checksum, ...), kept as one opaque string. Jobs compare by value.
   */
  datatype PutJob = PutJob(fileID: string, payload: string)

  /** How `waitForFinish` ends: normally, or with `NotFinishedException` carrying the jobs left. */
  datatype WaitOutcome = Finished | NotFinished(jobs: seq<PutJob>)

  class ParallelOperationLimiter {
    /** The queue contents, head first. */
    var activeOperations: seq<PutJob>
    /** The queue's capacity, `limit`. */
    const capacity: nat
    const secondsToWaitForFinish: Int32

    /** The queue never holds more jobs than its capacity. */
    ghost predicate Valid()
      reads this
    {
      0 < capacity && |activeOperations| <= capacity
    }

    /** An empty queue of capacity `limit` (`LinkedBlockingQueue` rejects a capacity below 1). */
    constructor (limit: Int32, timeToWaitForFinish: Int32)
      requires limit > 0
      ensures Valid()
      ensures activeOperations == [] && capacity == limit
      ensures secondsToWaitForFinish == timeToWaitForFinish
    {
      activeOperations := [];
      capacity := limit;
      secondsToWaitForFinish := timeToWaitForFinish;
    }

    /** `addJob`: the blocking `put`, admitted only below capacity, appends at the tail. */
    method AddJob(job: PutJob)
      requires Valid()
      requires |activeOperations| < capacity
      modifies this
      ensures Valid()
      ensures activeOperations == old(activeOperations) + [job]
    {
      activeOperations := activeOperations + [job];
    }

    /**
     * `getJob`: walks the queue from the head and stops at the first job for
     * `fileID`. When no job matches, the walk ends on the LAST job and that is
     * returned; only an empty queue gives `null`.
     */
    method GetJob(fileID: string) returns (job: Option<PutJob>)
      ensures job == None <==> activeOperations == []
      ensures job.Some? ==>
        exists k :: 0 <= k < |activeOperations| && activeOperations[k] == job.value &&
          (forall j :: 0 <= j < k ==> activeOperations[j].fileID != fileID) &&
          (activeOperations[k].fileID == fileID || k == |activeOperations| - 1)
    {
      job := None;
      var i := 0;
      while i < |activeOperations|
        invariant 0 <= i <= |activeOperations|
        invariant job == if i == 0 then None else Some(activeOperations[i - 1])
        invariant forall j :: 0 <= j < i ==> activeOperations[j].fileID != fileID
      {
        job := Some(activeOperations[i]);
        i := i + 1;
        if job.value.fileID == fileID {
          break;
        }
      }
    }

    /** `getNextJob`: the blocking `take`, on a non-empty queue, removes and returns the head. */
    method GetNextJob() returns (job: PutJob)
      requires Valid()
      requires activeOperations != []
      modifies this
      ensures Valid()
      ensures job == old(activeOperations)[0]
      ensures activeOperations == old(activeOperations)[1..]
    {
      job := activeOperations[0];
      activeOperations := activeOperations[1..];
    }

    /** `removeJob`: `remove(job)`, the first equal job leaves; an absent job changes nothing. */
    method RemoveJob(job: PutJob)
      requires Valid()
      modifies this
      ensures Valid()
      ensures activeOperations == RemoveFirst(old(activeOperations), job)
    {
      activeOperations := RemoveFirst(activeOperations, job);
    }

    /** One second of sleep: the callbacks of other threads remove `removals`, in order. */
    method CallbacksDuringSleep(removals: seq<PutJob>)
      requires Valid()
      modifies this
      ensures Valid()
      ensures activeOperations == RemoveAll(old(activeOperations), removals)
    {
      for k := 0 to |removals|
        invariant Valid()
        invariant RemoveAll(activeOperations, removals[k..]) == RemoveAll(old(activeOperations), removals)
      {
        assert removals[k..][1..] == removals[k + 1..];
        RemoveJob(removals[k]);
      }
    }

    /**
     * `waitForFinish`: polls once a second until the queue is empty or the
     * counter passes `secondsToWaitForFinish`; `env` lists what callbacks
     * remove during each sleep. It ends as the drain of the old queue does,
     * and throws `NotFinishedException` with the jobs left exactly when that
     * drain times out (see the lemmas of `DrainSpec` for when that is).
     */
    method WaitForFinish(env: seq<seq<PutJob>>) returns (outcome: WaitOutcome, sleeps: nat)
      requires Valid()
      modifies this
      ensures Valid()
      ensures var run := Drain(old(activeOperations), secondsToWaitForFinish, env);
        && activeOperations == run.remaining
        && sleeps == run.sleeps
        && outcome == if TimedOut(run, secondsToWaitForFinish) then NotFinished(run.remaining) else Finished
    {
      var secondsWaiting;
      sleeps, secondsWaiting := Poll(env);
      if secondsWaiting > secondsToWaitForFinish {
        outcome := NotFinished(activeOperations);
      } else {
        outcome := Finished;
      }
    }

    /** The poll loop of `waitForFinish`, up to the timeout test: it ends as the drain of the old queue does. */
    method Poll(env: seq<seq<PutJob>>) returns (sleeps: nat, secondsWaiting: Int32)
      requires Valid()
      modifies this
      ensures Valid()
      ensures DrainRun(activeOperations, sleeps, secondsWaiting)
           == Drain(old(activeOperations), secondsToWaitForFinish, env)
    {
      secondsWaiting := 0;
      sleeps := 0;
      while true
        invariant Valid()
        invariant secondsWaiting == sleeps
        invariant sleeps <= INT_MAX
        invariant DrainFrom(activeOperations, sleeps, secondsToWaitForFinish, env)
               == Drain(old(activeOperations), secondsToWaitForFinish, env)
        decreases secondsToWaitForFinish - sleeps
      {
        if activeOperations == [] {
          break;
        }
        var checked := secondsWaiting;
        secondsWaiting := IntIncrement(secondsWaiting);
        if !(checked < secondsToWaitForFinish) {
          break;
        }
        DrainSlept(activeOperations, sleeps, secondsToWaitForFinish, env);
        CallbacksDuringSleep(Released(env, sleeps));
        sleeps := sleeps + 1;
      }
    }
  }
}
