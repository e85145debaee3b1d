/**
 * The poll loop shared by both `waitForFinish` methods:
 *
 *   secondsWaiting = 0;
 *   while (!queue.isEmpty() && secondsWaiting++ < secondsToWaitForFinish) sleep(1s);
 *   if (secondsWaiting > secondsToWaitForFinish) ... timed out ...
 *
 * as a recursive reference definition. `secondsWaiting` is a Java `int`, so
 * its post-increment wraps at `Integer.MAX_VALUE`. While the loop sleeps,
 * other threads' completion callbacks take jobs out of the queue and nobody
 * puts any in: each one-second sleep is an environment step that removes,
 * in order, the elements the environment lists for that sleep.
 */
module DrainSpec {
  import opened JavaInt
  import opened BlockingQueue

  /** The removals made by callbacks during sleep number `k` (none once the list runs out). */
  function Released<E>(env: seq<seq<E>>, k: nat): seq<E>
  {
    if k < |env| then env[k] else []
  }

  /** The queue after the sleeps numbered `from` up to, not including, `to`. */
  function Polled<E(==)>(q: seq<E>, env: seq<seq<E>>, from: nat, to: nat): (r: seq<E>)
    ensures |r| <= |q|
    decreases if from < to then to - from else 0
  {
    if from >= to then q else Polled(RemoveAll(q, Released(env, from)), env, from + 1, to)
  }

  /** How a drain ended: what is left, how often it slept, and the final counter. */
  datatype DrainRun<E> = DrainRun(remaining: seq<E>, sleeps: nat, secondsWaiting: int)

  /** The test after the loop: `secondsWaiting > secondsToWaitForFinish`. */
  predicate TimedOut<E>(run: DrainRun<E>, limit: int)
  {
    run.secondsWaiting > limit
  }

  /**
   * The loop from its check number `i`: at that point `secondsWaiting == i`
   * and `i` sleeps are behind it. The loop test short-circuits, so an empty
   * queue stops it with the counter untouched, equal to the sleeps taken;
   * a bound reached stops it after one more post-increment, which always
   * moves the counter off the sleeps (wrapping at `Integer.MAX_VALUE`).
   */
  function DrainFrom<E(==)>(q: seq<E>, i: nat, limit: Int32, env: seq<seq<E>>): (run: DrainRun<E>)
    requires i <= INT_MAX
    ensures i <= run.sleeps
    ensures |run.remaining| <= |q|
    ensures run.remaining == [] <==> run.secondsWaiting == run.sleeps
    ensures run.sleeps <= INT_MAX
    ensures run.remaining != [] ==> run.secondsWaiting == IntIncrement(run.sleeps)
    decreases limit - i
  {
    if q == [] then DrainRun(q, i, i)
    else if !(i < limit) then DrainRun(q, i, IntIncrement(i))
    else DrainFrom(RemoveAll(q, Released(env, i)), i + 1, limit, env)
  }

  /** One sleep within the bound: the loop goes on from the queue the sleep's removals leave. */
  lemma DrainSlept<E>(q: seq<E>, i: nat, limit: Int32, env: seq<seq<E>>)
    requires q != [] && i < limit
    ensures DrainFrom(RemoveAll(q, Released(env, i)), i + 1, limit, env) == DrainFrom(q, i, limit, env)
  {
  }

  /**
   * `waitForFinish` on queue `q` with bound `limit` seconds: callbacks only
   * remove, a bound of zero or below allows no sleep, and the counter ends
   * equal to the sleeps exactly when the queue ended empty.
   */
  function Drain<E(==)>(q: seq<E>, limit: Int32, env: seq<seq<E>>): (run: DrainRun<E>)
    ensures |run.remaining| <= |q|
    ensures limit <= 0 ==> run.sleeps == 0 && run.remaining == q
    ensures run.remaining == [] <==> run.secondsWaiting == run.sleeps
  {
    DrainFrom(q, 0, limit, env)
  }

  /** The number of sleeps the bound allows: a negative bound allows none. */
  function SleepBudget(limit: int): nat
  {
    if limit < 0 then 0 else limit
  }

  /** Sleeping on an empty queue keeps it empty: callbacks only remove. */
  lemma {:induction false} PolledEmpty<E>(env: seq<seq<E>>, from: nat, to: nat)
    ensures Polled([], env, from, to) == []
    decreases if from < to then to - from else 0
  {
    if from < to {
      RemoveAllEmpty(Released(env, from));
      PolledEmpty(env, from + 1, to);
    }
  }

  /** Sleeping from `from` to `to` is sleeping to `mid` and then on to `to`. */
  lemma {:induction false} PolledSplit<E>(q: seq<E>, env: seq<seq<E>>, from: nat, mid: nat, to: nat)
    requires from <= mid <= to
    ensures Polled(q, env, from, to) == Polled(Polled(q, env, from, mid), env, mid, to)
    decreases if from < mid then mid - from else 0
  {
    if from < mid {
      var q' := RemoveAll(q, Released(env, from));
      PolledSplit(q', env, from + 1, mid, to);
      assert Polled(q, env, from, to) == Polled(q', env, from + 1, to);
      assert Polled(q, env, from, mid) == Polled(q', env, from + 1, mid);
    } else {
      assert Polled(q, env, from, mid) == q;
    }
  }

  /** Once the queue has emptied, later checks see it empty too. */
  lemma PolledStaysEmpty<E>(q: seq<E>, env: seq<seq<E>>, from: nat, mid: nat, to: nat)
    requires from <= mid <= to
    requires Polled(q, env, from, mid) == []
    ensures Polled(q, env, from, to) == []
  {
    PolledSplit(q, env, from, mid, to);
    PolledEmpty(env, mid, to);
  }

  /**
   * What the loop does from a check it can reach (the first one, or one
   * within the bound): the sleeps it takes, the queue it leaves, and the
   * counter it leaves. It stops at an empty check, or with the queue
   * still non-empty after the whole budget, its counter then wrapped past
   * the last check.
   */
  lemma {:induction false} DrainFromEnds<E>(q: seq<E>, i: nat, limit: Int32, env: seq<seq<E>>)
    requires i <= INT_MAX
    requires i == 0 || i <= limit
    ensures var run := DrainFrom(q, i, limit, env);
      && i <= run.sleeps <= (if limit < i then i else limit)
      && run.remaining == Polled(q, env, i, run.sleeps)
      && (run.remaining == [] ==> run.secondsWaiting == run.sleeps)
      && (run.remaining != [] ==>
            run.sleeps == (if limit < i then i else limit) &&
            run.secondsWaiting == (if run.sleeps < INT_MAX then run.sleeps + 1 else INT_MIN))
    decreases limit - i
  {
    if q != [] && i < limit {
      var q' := RemoveAll(q, Released(env, i));
      DrainFromEnds(q', i + 1, limit, env);
      var run := DrainFrom(q', i + 1, limit, env);
      assert DrainFrom(q, i, limit, env) == run;
      assert Polled(q, env, i, run.sleeps) == Polled(q', env, i + 1, run.sleeps);
    }
  }

  /** Every check the loop passes before its last one sees a non-empty queue. */
  lemma {:induction false} DrainFromSleepsOnlyWhileJobsLeft<E>(q: seq<E>, i: nat, limit: Int32, env: seq<seq<E>>)
    requires i <= INT_MAX
    ensures var run := DrainFrom(q, i, limit, env);
      forall j :: i <= j < run.sleeps ==> Polled(q, env, i, j) != []
    decreases limit - i
  {
    if q != [] && i < limit {
      var q' := RemoveAll(q, Released(env, i));
      DrainFromSleepsOnlyWhileJobsLeft(q', i + 1, limit, env);
      var run := DrainFrom(q', i + 1, limit, env);
      assert DrainFrom(q, i, limit, env) == run;
      forall j | i <= j < run.sleeps
        ensures Polled(q, env, i, j) != []
      {
        if j > i {
          assert Polled(q, env, i, j) == Polled(q', env, i + 1, j);
        }
      }
    }
  }

  /** `waitForFinish` never sleeps more often than its bound allows. */
  lemma DrainSleepsWithinBound<E>(q: seq<E>, limit: Int32, env: seq<seq<E>>)
    ensures Drain(q, limit, env).sleeps <= SleepBudget(limit)
  {
    DrainFromEnds(q, 0, limit, env);
  }

  /**
   * `waitForFinish` sleeps until the first check that sees an empty queue:
   * every check before its last one saw jobs, and it leaves the queue as
   * the callbacks of its sleeps left it.
   */
  lemma DrainStopsAtFirstEmptyCheck<E>(q: seq<E>, limit: Int32, env: seq<seq<E>>)
    ensures var run := Drain(q, limit, env);
      && run.remaining == Polled(q, env, 0, run.sleeps)
      && (forall j :: 0 <= j < run.sleeps ==> Polled(q, env, 0, j) != [])
  {
    DrainFromEnds(q, 0, limit, env);
    DrainFromSleepsOnlyWhileJobsLeft(q, 0, limit, env);
  }

  /**
   * On an empty queue `waitForFinish` returns at its first check, without
   * sleeping; it reports a timeout only for a negative bound, where
   * `0 > secondsToWaitForFinish` already holds.
   */
  lemma DrainOfEmptyQueue<E>(limit: Int32, env: seq<seq<E>>)
    ensures var run := Drain([], limit, env);
      run.sleeps == 0 && run.remaining == [] && (TimedOut(run, limit) <==> limit < 0)
  {
  }

  /**
   * The timeout, for every bound from 0 below `Integer.MAX_VALUE`: the drain
   * times out exactly when the queue is still non-empty at check number
   * `limit + 1` (after `limit` sleeps); the jobs then left are exactly that
   * queue, and otherwise nothing is left.
   */
  lemma DrainTimesOutExactly<E>(q: seq<E>, limit: Int32, env: seq<seq<E>>)
    requires 0 <= limit < INT_MAX
    ensures var run := Drain(q, limit, env);
      && (TimedOut(run, limit) <==> Polled(q, env, 0, limit) != [])
      && (TimedOut(run, limit) ==> run.remaining == Polled(q, env, 0, limit))
      && (!TimedOut(run, limit) ==> run.remaining == [])
  {
    var run := Drain(q, limit, env);
    DrainFromEnds(q, 0, limit, env);
    if run.remaining == [] {
      PolledStaysEmpty(q, env, 0, run.sleeps, limit);
    }
  }

  /**
   * With the bound at `Integer.MAX_VALUE` the counter's last post-increment
   * wraps to `Integer.MIN_VALUE`, so `waitForFinish` never reports a timeout,
   * even for jobs that never finish.
   */
  lemma DrainAtIntMaxNeverTimesOut<E>(q: seq<E>, env: seq<seq<E>>)
    ensures !TimedOut(Drain(q, INT_MAX, env), INT_MAX)
  {
    DrainFromEnds(q, 0, INT_MAX, env);
  }

  /** A negative bound gives up at the first check, leaving every job in place. */
  lemma DrainWithNegativeBound<E>(q: seq<E>, limit: Int32, env: seq<seq<E>>)
    requires limit < 0
    ensures var run := Drain(q, limit, env);
      run.sleeps == 0 && run.remaining == q && TimedOut(run, limit)
  {
  }
}
