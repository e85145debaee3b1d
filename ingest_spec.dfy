/**
 * The values of TreeIngester.java and the reference definitions its classes
 * are proved against: operation events and what the event handler does with
 * them, the failure records sent to the result collector, and the
 * `performIngest` loop over the file locator.
 */
module IngestSpec {
  import opened JavaInt
  import opened BlockingQueue
  import opened DrainSpec

  /** The event types the handler tells apart; every other `OperationEventType` is `OtherEvent`. */
  datatype EventType = Complete | Failed | OtherEvent

  /** An `OperationEvent` as the handler reads it: type, file and info text. */
  datatype OperationEvent = OperationEvent(eventType: EventType, fileID: string, info: string)

  /** One `ResultCollector.addFailure(fileID, type, component, description)` call. */
  datatype Failure = Failure(fileID: string, failureType: string, component: string, description: string)

  const INGEST_FAILURE: string := "Ingest failure"
  const COMPONENT: string := "BitrepositoryIngester"
  const TIMEOUT_DESCRIPTION: string := "Timeout waiting for last files to be ingested."

  /** A file the locator returns: its id, and where and what it is (url, checksum). */
  datatype IngestableFile = IngestableFile(fileID: string, url: string, checksum: string)

  /** The failure records of a drain timeout: one per file left, in queue order. */
  function TimeoutFailures(fileIDs: seq<string>): (r: seq<Failure>)
    ensures |r| == |fileIDs|
    ensures forall k :: 0 <= k < |r| ==>
      r[k] == Failure(fileIDs[k], INGEST_FAILURE, COMPONENT, TIMEOUT_DESCRIPTION)
  {
    if fileIDs == [] then []
    else [Failure(fileIDs[0], INGEST_FAILURE, COMPONENT, TIMEOUT_DESCRIPTION)] + TimeoutFailures(fileIDs[1..])
  }

  /**
   * The in-flight queue after the handler has seen `e`: COMPLETE and FAILED
   * release one slot of the file when it holds one; anything else, or a file
   * not in flight, leaves the queue as it was.
   */
  function AfterEvent(q: seq<string>, e: OperationEvent): (r: seq<string>)
    ensures (e.eventType == OtherEvent || e.fileID !in q) ==> r == q
    ensures (e.eventType in {Complete, Failed} && e.fileID in q) ==> |r| == |q| - 1
  {
    if e.eventType == Complete || e.eventType == Failed then RemoveFirst(q, e.fileID) else q
  }

  /**
   * The failures the handler records for `e`: exactly one for FAILED, none
   * otherwise, an ingest failure of the event's file carrying its info.
   */
  function FailuresOf(e: OperationEvent): (r: seq<Failure>)
    ensures |r| == if e.eventType == Failed then 1 else 0
    ensures forall f :: f in r ==> f == Failure(e.fileID, INGEST_FAILURE, COMPONENT, e.info)
  {
    if e.eventType == Failed then [Failure(e.fileID, INGEST_FAILURE, COMPONENT, e.info)] else []
  }

  /** The in-flight queue after the handler has seen `events`, in order. */
  function AfterEvents(q: seq<string>, events: seq<OperationEvent>): seq<string>
  {
    if events == [] then q else AfterEvents(AfterEvent(q, events[0]), events[1..])
  }

  /** The failures the handler records for `events`, in order. */
  function FailuresOfAll(events: seq<OperationEvent>): seq<Failure>
  {
    if events == [] then [] else FailuresOf(events[0]) + FailuresOfAll(events[1..])
  }

  /** The file ids the handler releases for `events`, in order. */
  function ReleasesOf(events: seq<OperationEvent>): (r: seq<string>)
    ensures |r| <= |events|
  {
    if events == [] then []
    else if events[0].eventType == Complete || events[0].eventType == Failed then
      [events[0].fileID] + ReleasesOf(events[1..])
    else ReleasesOf(events[1..])
  }

  /** Seeing a batch of events is `remove`-ing their released ids one by one. */
  lemma {:induction false} AfterEventsRemovesReleases(q: seq<string>, events: seq<OperationEvent>)
    ensures AfterEvents(q, events) == RemoveAll(q, ReleasesOf(events))
  {
    if events != [] {
      AfterEventsRemovesReleases(AfterEvent(q, events[0]), events[1..]);
    }
  }

  /** Events never add to the queue: at most one copy of a file leaves per releasing event. */
  lemma {:induction false} AfterEventsBounds(q: seq<string>, events: seq<OperationEvent>)
    ensures var r := AfterEvents(q, events);
      |r| <= |q| &&
      multiset(r) <= multiset(q) &&
      multiset(q) - multiset(ReleasesOf(events)) <= multiset(r)
  {
    if events != [] {
      var e := events[0];
      var q' := AfterEvent(q, e);
      AfterEventsBounds(q', events[1..]);
      if e.eventType == Complete || e.eventType == Failed {
        RemoveFirstMultiset(q, e.fileID);
        assert ReleasesOf(events) == [e.fileID] + ReleasesOf(events[1..]);
        assert multiset(ReleasesOf(events)) == multiset{e.fileID} + multiset(ReleasesOf(events[1..]));
      }
    }
  }

  /**
   * The callbacks that reach the handler while `waitForFinish` sleeps, one
   * batch per sleep, seen as the queue removals they make.
   */
  function ReleaseEnv(env: seq<seq<OperationEvent>>): (removals: seq<seq<string>>)
    ensures |removals| == |env|
    ensures forall k :: 0 <= k < |env| ==> removals[k] == ReleasesOf(env[k])
  {
    seq(|env|, k requires 0 <= k < |env| => ReleasesOf(env[k]))
  }

  /**
   * One sleep of the drain in which the handler sees that sleep's callbacks:
   * the drain goes on from the queue they leave.
   */
  lemma SleptOnce(q: seq<string>, i: nat, limit: Int32, env: seq<seq<OperationEvent>>)
    requires q != [] && i < limit
    ensures DrainFrom(AfterEvents(q, Released(env, i)), i + 1, limit, ReleaseEnv(env))
         == DrainFrom(q, i, limit, ReleaseEnv(env))
  {
    var events := Released(env, i);
    AfterEventsRemovesReleases(q, events);
    assert Released(ReleaseEnv(env), i) == ReleasesOf(events);
  }

  /** The failures the handler records during the first `n` sleeps, in order. */
  function SleepFailures(env: seq<seq<OperationEvent>>, n: nat): seq<Failure>
  {
    if n == 0 then [] else SleepFailures(env, n - 1) + FailuresOfAll(Released(env, n - 1))
  }

  /** The failures of one more sleep follow those of the sleeps before it. */
  lemma SleepFailuresOneMore(env: seq<seq<OperationEvent>>, i: nat, before: seq<Failure>, failures: seq<Failure>)
    requires failures == before + SleepFailures(env, i)
    ensures failures + FailuresOfAll(Released(env, i)) == before + SleepFailures(env, i + 1)
  {
  }

  /**
   * The inner `waitForFinish` on an empty queue neither sleeps nor records a
   * failure, whatever its bound: a negative bound reports a timeout of no
   * files at all.
   */
  lemma WaitOnEmptyQueueRecordsNothing(limit: Int32, env: seq<seq<OperationEvent>>)
    ensures var run := Drain([], limit, ReleaseEnv(env));
      && run.sleeps == 0 && run.remaining == []
      && SleepFailures(env, run.sleeps) + (if TimedOut(run, limit) then TimeoutFailures(run.remaining) else []) == []
  {
    DrainOfEmptyQueue(limit, ReleaseEnv(env));
  }

  /** What `nextFile()` does on one call: a file, `null`, or an exception. */
  datatype Located = Found(file: IngestableFile) | NoMoreFiles | LocatorError

  /**
   * One pass of the `performIngest` loop as the outside world drives it: the
   * completion callbacks that reach the handler (on the client's threads)
   * before the pass admits its file, and the locator's answer. Whether
   * `putFileClient.putFile` then returns or throws changes nothing the
   * ingester keeps, so it is not part of the step.
   */
  datatype IngestStep = IngestStep(callbacks: seq<OperationEvent>, located: Located)

  /** Pass `i` of the loop; past the end of `steps` the locator answers `null`. */
  function StepAt(steps: seq<IngestStep>, i: nat): IngestStep
  {
    if i < |steps| then steps[i] else IngestStep([], NoMoreFiles)
  }

  /** The state the loop changes: the in-flight queue, the recorded failures, the files sent to the client. */
  datatype Progress = Progress(queue: seq<string>, failures: seq<Failure>, submitted: seq<IngestableFile>)

  /** The ids of `files`, in order. */
  function FileIDs(files: seq<IngestableFile>): (ids: seq<string>)
    ensures |ids| == |files| && forall k :: 0 <= k < |files| ==> ids[k] == files[k].fileID
  {
    seq(|files|, k requires 0 <= k < |files| => files[k].fileID)
  }

  /** The handler has seen `callbacks`: their releases and failures are in. */
  function Arrive(p: Progress, callbacks: seq<OperationEvent>): Progress
  {
    Progress(AfterEvents(p.queue, callbacks), p.failures + FailuresOfAll(callbacks), p.submitted)
  }

  /** `addJob` then `putFile`: the file is queued at the tail and handed to the client. */
  function Submit(p: Progress, file: IngestableFile): Progress
  {
    Progress(p.queue + [file.fileID], p.failures, p.submitted + [file])
  }

  /** How the loop ended: normally, or `blocked` in an `addJob` whose queue stays full. */
  datatype LoopEnd = LoopEnd(progress: Progress, blocked: bool)

  /** What one pass of the loop leads to: the loop ends, or it goes on with `file` set or not. */
  datatype PassEnd = Stop(end: LoopEnd) | Continue(fileSet: bool, next: Progress)

  /**
   * One pass of the `performIngest` loop, with `fileSet` saying whether the
   * local `file` is non-null before it: callbacks arrive, `nextFile()` is
   * asked; a file is admitted at the tail and sent to the client (whether or
   * not the client throws, the slot stays taken); `null` ends the loop; a
   * locator exception leaves `file` as it was, so it ends the loop only while
   * `file` is still null.
   */
  function Pass(step: IngestStep, capacity: nat, fileSet: bool, p: Progress): (r: PassEnd)
  {
    var arrived := Arrive(p, step.callbacks);
    match step.located
    case NoMoreFiles => Stop(LoopEnd(arrived, false))
    case LocatorError => if fileSet then Continue(fileSet, arrived) else Stop(LoopEnd(arrived, false))
    case Found(f) =>
      if |arrived.queue| >= capacity then Stop(LoopEnd(arrived, true))
      else Continue(true, Submit(arrived, f))
  }

  /**
   * What one pass leads to. It blocks exactly when the locator returns a
   * file and the queue is still full after the callbacks; it goes on
   * exactly when a file is admitted, or when the locator throws after an
   * earlier file; a pass that ends the loop hands nothing to the client.
   * A pass that goes on leaves `file` set and only appends to what was
   * submitted and recorded.
   */
  lemma PassOutcomes(step: IngestStep, capacity: nat, fileSet: bool, p: Progress)
    ensures var r := Pass(step, capacity, fileSet, p);
      && (r.Stop? ==> r.end.progress == Arrive(p, step.callbacks))
      && (r.Stop? && r.end.blocked <==>
            step.located.Found? && |Arrive(p, step.callbacks).queue| >= capacity)
      && (r.Continue? <==>
            (step.located.Found? && |Arrive(p, step.callbacks).queue| < capacity)
            || (step.located.LocatorError? && fileSet))
      && (r.Continue? ==> r.fileSet && p.submitted <= r.next.submitted && p.failures <= r.next.failures)
  {
  }

  /**
   * The `performIngest` loop from pass `i` on: it only appends to the
   * submitted files and the recorded failures, and it blocks only on a full
   * queue.
   */
  function IngestFrom(steps: seq<IngestStep>, i: nat, capacity: nat, fileSet: bool, p: Progress): (r: LoopEnd)
    ensures p.submitted <= r.progress.submitted && p.failures <= r.progress.failures
    ensures r.blocked ==> |r.progress.queue| >= capacity
    decreases |steps| - i
  {
    match Pass(StepAt(steps, i), capacity, fileSet, p)
    case Stop(end) => end
    case Continue(fileSet', next) => IngestFrom(steps, i + 1, capacity, fileSet', next)
  }

  /**
   * The files `performIngest` hands to the client when nothing blocks: each
   * file the locator returns, in order, up to the first `null`, skipping
   * locator exceptions once a file has been returned.
   */
  function LocatedFiles(steps: seq<IngestStep>, i: nat, fileSet: bool): seq<IngestableFile>
    decreases |steps| - i
  {
    match StepAt(steps, i).located
    case NoMoreFiles => []
    case LocatorError => if fileSet then LocatedFiles(steps, i + 1, fileSet) else []
    case Found(f) => [f] + LocatedFiles(steps, i + 1, true)
  }

  /** The ids released by all callbacks of the passes the loop makes when nothing blocks. */
  function LoopReleases(steps: seq<IngestStep>, i: nat, fileSet: bool): seq<string>
    decreases |steps| - i
  {
    var released := ReleasesOf(StepAt(steps, i).callbacks);
    match StepAt(steps, i).located
    case NoMoreFiles => released
    case LocatorError => if fileSet then released + LoopReleases(steps, i + 1, fileSet) else released
    case Found(f) => released + LoopReleases(steps, i + 1, true)
  }

  /**
   * Order: the loop sends the located files to the client in locator order;
   * when it blocks it has sent a proper prefix of them.
   */
  lemma {:induction false} IngestSubmitsLocatedFiles(steps: seq<IngestStep>, i: nat, capacity: nat,
                                                     fileSet: bool, p: Progress)
    ensures SubmitsLocatedFiles(steps, i, capacity, fileSet, p)
    decreases |steps| - i
  {
    match Pass(StepAt(steps, i), capacity, fileSet, p)
    case Stop(end) =>
      StopSubmits(steps, i, capacity, fileSet, p);
    case Continue(fileSet', next) =>
      IngestSubmitsLocatedFiles(steps, i + 1, capacity, fileSet', next);
      ContinueSubmits(steps, i, capacity, fileSet, p);
  }

  /** The submissions from pass `i` to the end of the loop, against the located files. */
  ghost predicate SubmitsLocatedFiles(steps: seq<IngestStep>, i: nat, capacity: nat, fileSet: bool, p: Progress)
  {
    var end := IngestFrom(steps, i, capacity, fileSet, p);
    var all := p.submitted + LocatedFiles(steps, i, fileSet);
    && |p.submitted| <= |end.progress.submitted| <= |all|
    && end.progress.submitted == all[..|end.progress.submitted|]
    && (!end.blocked <==> end.progress.submitted == all)
  }

  /** The submissions of a pass on which the loop ends: none, and it blocked iff a file was left to send. */
  lemma StopSubmits(steps: seq<IngestStep>, i: nat, capacity: nat, fileSet: bool, p: Progress)
    requires Pass(StepAt(steps, i), capacity, fileSet, p).Stop?
    ensures SubmitsLocatedFiles(steps, i, capacity, fileSet, p)
  {
    var end := Pass(StepAt(steps, i), capacity, fileSet, p).end;
    assert IngestFrom(steps, i, capacity, fileSet, p) == end;
    if StepAt(steps, i).located.Found? {
      var all := p.submitted + LocatedFiles(steps, i, fileSet);
      assert all[..|p.submitted|] == p.submitted;
    }
  }

  /** The submissions of a pass after which the loop goes on, from those of the rest of the loop. */
  lemma ContinueSubmits(steps: seq<IngestStep>, i: nat, capacity: nat, fileSet: bool, p: Progress)
    requires Pass(StepAt(steps, i), capacity, fileSet, p).Continue?
    requires var pass := Pass(StepAt(steps, i), capacity, fileSet, p);
      SubmitsLocatedFiles(steps, i + 1, capacity, pass.fileSet, pass.next)
    ensures SubmitsLocatedFiles(steps, i, capacity, fileSet, p)
  {
    var pass := Pass(StepAt(steps, i), capacity, fileSet, p);
    var end := IngestFrom(steps, i + 1, capacity, pass.fileSet, pass.next);
    assert IngestFrom(steps, i, capacity, fileSet, p) == end;
    var rest := LocatedFiles(steps, i + 1, pass.fileSet);
    var located := StepAt(steps, i).located;
    var sent := if located.Found? then [located.file] else [];
    assert LocatedFiles(steps, i, fileSet) == sent + rest;
    assert pass.next.submitted == p.submitted + sent;
    PrefixShift(p.submitted, sent, rest, end.progress.submitted, end.blocked);
  }

  /** Regrouping `sub0 + sent + rest` keeps a prefix a prefix. */
  lemma PrefixShift<T>(sub0: seq<T>, sent: seq<T>, rest: seq<T>, now: seq<T>, blocked: bool)
    requires |sub0 + sent| <= |now| <= |(sub0 + sent) + rest|
    requires now == ((sub0 + sent) + rest)[..|now|]
    requires !blocked <==> now == (sub0 + sent) + rest
    ensures |sub0| <= |now| <= |sub0 + (sent + rest)|
    ensures now == (sub0 + (sent + rest))[..|now|]
    ensures !blocked <==> now == sub0 + (sent + rest)
  {
    assert (sub0 + sent) + rest == sub0 + (sent + rest);
  }

  /**
   * A put that no callback answers keeps its slot, whether the client call
   * returned or threw: with one slot, a second file blocks the loop after
   * the first was handed over.
   */
  lemma UnansweredPutKeepsItsSlot(f1: IngestableFile, f2: IngestableFile)
    ensures var end := IngestFrom([IngestStep([], Found(f1)), IngestStep([], Found(f2))], 0, 1, false,
                                  Progress([], [], []));
      end.blocked && end.progress.queue == [f1.fileID] && end.progress.submitted == [f1]
  {
    var steps := [IngestStep([], Found(f1)), IngestStep([], Found(f2))];
    var p1 := Submit(Arrive(Progress([], [], []), []), f1);
    assert p1 == Progress([f1.fileID], [], [f1]);
    assert Arrive(p1, []) == p1;
    assert IngestFrom(steps, 0, 1, false, Progress([], [], [])) == IngestFrom(steps, 1, 1, true, p1);
  }

  /**
   * A locator exception on the very first call ends the loop, `file` being
   * still null then; no file is handed over.
   */
  lemma FirstLocatorErrorEndsLoop(steps: seq<IngestStep>, capacity: nat, p: Progress)
    requires |steps| > 0 && steps[0].located == LocatorError
    ensures IngestFrom(steps, 0, capacity, false, p) == LoopEnd(Arrive(p, steps[0].callbacks), false)
  {
  }

  /** The loop keeps the queue within its capacity. */
  lemma {:induction false} IngestKeepsCapacity(steps: seq<IngestStep>, i: nat, capacity: nat,
                                               fileSet: bool, p: Progress)
    requires |p.queue| <= capacity
    ensures |IngestFrom(steps, i, capacity, fileSet, p).progress.queue| <= capacity
    decreases |steps| - i
  {
    var step := StepAt(steps, i);
    AfterEventsBounds(p.queue, step.callbacks);
    match Pass(step, capacity, fileSet, p)
    case Stop(end) =>
    case Continue(fileSet', next) =>
      IngestKeepsCapacity(steps, i + 1, capacity, fileSet', next);
  }

  /**
   * Queue accounting over a stretch of the loop: starting from the queue
   * `start`, with `added` submitted and `released` named by callbacks, the
   * queue `now` holds no more than what was queued or added, and lacks
   * nothing of it beyond what was released.
   */
  ghost predicate Accounted<T>(start: multiset<T>, added: multiset<T>, released: multiset<T>, now: multiset<T>)
  {
    now <= start + added && start + added - released <= now
  }

  /**
   * Nothing but a COMPLETE or FAILED callback takes a file out of the queue,
   * and nothing but a submission puts one in: in particular a client call
   * that throws leaves its file's slot occupied.
   */
  lemma {:induction false} IngestOnlyCallbacksRelease(steps: seq<IngestStep>, i: nat, capacity: nat,
                                                      fileSet: bool, p: Progress)
    ensures OnlyCallbacksRelease(steps, i, capacity, fileSet, p)
    decreases |steps| - i
  {
    var pass := Pass(StepAt(steps, i), capacity, fileSet, p);
    if pass.Stop? {
      StopAccounted(steps, i, capacity, fileSet, p);
    } else {
      IngestOnlyCallbacksRelease(steps, i + 1, capacity, pass.fileSet, pass.next);
      ContinueAccounted(steps, i, capacity, fileSet, p);
    }
  }

  /** The accounting from pass `i` to the end of the loop. */
  ghost predicate OnlyCallbacksRelease(steps: seq<IngestStep>, i: nat, capacity: nat, fileSet: bool, p: Progress)
  {
    var end := IngestFrom(steps, i, capacity, fileSet, p);
    && multiset(FileIDs(p.submitted)) <= multiset(FileIDs(end.progress.submitted))
    && Accounted(multiset(p.queue), multiset(FileIDs(end.progress.submitted)) - multiset(FileIDs(p.submitted)),
                 multiset(LoopReleases(steps, i, fileSet)), multiset(end.progress.queue))
  }

  /** The accounting of a pass on which the loop ends. */
  lemma StopAccounted(steps: seq<IngestStep>, i: nat, capacity: nat, fileSet: bool, p: Progress)
    requires Pass(StepAt(steps, i), capacity, fileSet, p).Stop?
    ensures OnlyCallbacksRelease(steps, i, capacity, fileSet, p)
  {
    var step := StepAt(steps, i);
    AfterEventsBounds(p.queue, step.callbacks);
    var arrived := Arrive(p, step.callbacks);
    assert IngestFrom(steps, i, capacity, fileSet, p).progress == arrived;
    var m, mq, sub0 := multiset(p.queue), multiset(arrived.queue), multiset(FileIDs(p.submitted));
    PassAccounted(m, mq, multiset(ReleasesOf(step.callbacks)), multiset{}, sub0, sub0, multiset{}, mq);
  }

  /** The accounting of a pass after which the loop goes on, from that of the rest of the loop. */
  lemma ContinueAccounted(steps: seq<IngestStep>, i: nat, capacity: nat, fileSet: bool, p: Progress)
    requires Pass(StepAt(steps, i), capacity, fileSet, p).Continue?
    requires var pass := Pass(StepAt(steps, i), capacity, fileSet, p);
      OnlyCallbacksRelease(steps, i + 1, capacity, pass.fileSet, pass.next)
    ensures OnlyCallbacksRelease(steps, i, capacity, fileSet, p)
  {
    var step := StepAt(steps, i);
    var pass := Pass(step, capacity, fileSet, p);
    var sent := ContinueShape(steps, i, capacity, fileSet, p);
    AfterEventsBounds(p.queue, step.callbacks);
    FileIDsAppend(p.submitted, sent);
    var end := IngestFrom(steps, i + 1, capacity, pass.fileSet, pass.next);
    var rel, later := ReleasesOf(step.callbacks), LoopReleases(steps, i + 1, pass.fileSet);
    PassAccounted(multiset(p.queue), multiset(AfterEvents(p.queue, step.callbacks)), multiset(rel),
                  multiset(FileIDs(sent)), multiset(FileIDs(p.submitted)),
                  multiset(FileIDs(end.progress.submitted)), multiset(later), multiset(end.progress.queue));
  }

  /**
   * A pass after which the loop goes on: it hands over `sent` (its file, or
   * nothing after a locator exception), and the loop and its releases go on
   * from the next pass.
   */
  lemma ContinueShape(steps: seq<IngestStep>, i: nat, capacity: nat, fileSet: bool, p: Progress)
    returns (sent: seq<IngestableFile>)
    requires Pass(StepAt(steps, i), capacity, fileSet, p).Continue?
    ensures var step := StepAt(steps, i);
      var pass := Pass(step, capacity, fileSet, p);
      && IngestFrom(steps, i, capacity, fileSet, p) == IngestFrom(steps, i + 1, capacity, pass.fileSet, pass.next)
      && LoopReleases(steps, i, fileSet) == ReleasesOf(step.callbacks) + LoopReleases(steps, i + 1, pass.fileSet)
      && pass.next.queue == AfterEvents(p.queue, step.callbacks) + FileIDs(sent)
      && pass.next.submitted == p.submitted + sent
  {
    var located := StepAt(steps, i).located;
    sent := if located.Found? then [located.file] else [];
  }

  /** The ids of two runs of files are the ids of each. */
  lemma FileIDsAppend(a: seq<IngestableFile>, b: seq<IngestableFile>)
    ensures FileIDs(a + b) == FileIDs(a) + FileIDs(b)
  {
  }

  /**
   * The multiset arithmetic of one pass: the callbacks took the queue from `m`
   * to `q` releasing `r1`, the pass submitted `s`, and the later passes,
   * accounted from `q + s`, release `r2` and bring the submissions from
   * `sub0 + s` to `subEnd`.
   */
  lemma PassAccounted<T>(m: multiset<T>, q: multiset<T>, r1: multiset<T>, s: multiset<T>,
                         sub0: multiset<T>, subEnd: multiset<T>, r2: multiset<T>, now: multiset<T>)
    requires m - r1 <= q <= m
    requires sub0 + s <= subEnd
    requires Accounted(q + s, subEnd - (sub0 + s), r2, now)
    ensures sub0 <= subEnd
    ensures Accounted(m, subEnd - sub0, r1 + r2, now)
  {
    assert forall x :: (m - r1)[x] <= q[x];
    assert forall x :: (subEnd - sub0)[x] == (s + (subEnd - (sub0 + s)))[x];
  }
}
