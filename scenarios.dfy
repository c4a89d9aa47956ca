/** The run scenarios exercised by the repository's tests, stated as calls of
    RunCtx and Run whose complete results are proved.

    A context with a timeout is modelled by a sleep oracle: sleeps are
    cancelled once the time already slept plus the requested delay passes the
    timeout. Time spent inside the work itself is taken to be zero, and a
    timer that expires exactly at the deadline is taken to win the race. */
module Scenarios {
  import opened Delays
  import opened Retry

  /** The sum of a sequence of durations. */
  function Total(d: seq<int>): int
  {
    if d == [] then 0 else Total(d[..|d| - 1]) + d[|d| - 1]
  }

  /** Appending a duration adds it to the total. */
  lemma TotalAppend(d: seq<int>, x: int)
    ensures Total(d + [x]) == Total(d) + x
  {
  }

  /** With a schedule that is c everywhere, the first k sleeps take k * c. */
  lemma {:induction false} TotalOfConstant(f: Schedule, c: int, k: nat)
    requires forall n: nat :: f(n) == c
    ensures Total(Prefix(f, k)) == k * c
  {
    if k > 0 {
      TotalOfConstant(f, c, k - 1);
      assert Prefix(f, k)[..k - 1] == Prefix(f, k - 1);
    }
  }

  /** With a schedule that is c everywhere, sleep k elapses under a timeout
      that (k + 1) * c does not pass. */
  lemma ConstantSleepElapses<E>(f: Schedule, c: int, timeout: int, err: E, k: nat)
    requires forall n: nat :: f(n) == c
    requires k * c + c <= timeout
    ensures Deadline(f, timeout, err)(k, f(k)).None?
  {
    TotalOfConstant(f, c, k);
  }

  /** A context that fires `timeout` nanoseconds after the run starts, with error err. */
  function Deadline<E>(f: Schedule, timeout: int, err: E): (sleep: (nat, int) -> Option<E>)
    ensures forall k: nat, d: int :: sleep(k, d) == (if Total(Prefix(f, k)) + d > timeout then Some(err) else None)
  {
    (k: nat, d: int) => if Total(Prefix(f, k)) + d > timeout then Some(err) else None
  }

  /** Under a timeout T >= 0, a run ends in cancellation exactly when the delays it
      requested add up to more than T: a completed sleep never passes the
      deadline, and the cancelled one does. */
  lemma DeadlineCancelsIffOverdue<E>(r: Retrier, work: nat -> Attempt<E>, timeout: int, err: E, s: nat)
    requires timeout >= 0
    requires FirstStop(r, work, Deadline(r.delayf, timeout, err), s)
    ensures OutcomeAt(r, work, Deadline(r.delayf, timeout, err), s).Cancelled?
        <==> Total(Requested(r, work, Deadline(r.delayf, timeout, err), s)) > timeout
    ensures OutcomeAt(r, work, Deadline(r.delayf, timeout, err), s).Cancelled? ==>
        OutcomeAt(r, work, Deadline(r.delayf, timeout, err), s) == Cancelled(err)
  {
    var sleep := Deadline(r.delayf, timeout, err);
    assert Prefix(r.delayf, s + 1) == Prefix(r.delayf, s) + [r.delayf(s)];
    TotalAppend(Prefix(r.delayf, s), r.delayf(s));
    if s > 0 {
      assert !StopsAt(r, work, sleep, s - 1);
      assert Prefix(r.delayf, s) == Prefix(r.delayf, s - 1) + [r.delayf(s - 1)];
      TotalAppend(Prefix(r.delayf, s - 1), r.delayf(s - 1));
    } else {
      assert Prefix(r.delayf, 0) == [];
    }
  }

  /** Work that fails k times asking to retry, then succeeds. */
  function SucceedsOnCall<E>(k: nat, failure: E): (work: nat -> Attempt<E>)
    ensures forall i: nat :: i < k ==> work(i) == Attempt(Some(failure), true)
    ensures work(k) == Attempt(None, false)
  {
    (i: nat) => if i < k then Attempt(Some(failure), true) else Attempt(None, false)
  }

  /** Work that returns the same attempt on every call. */
  function Always<E>(a: Attempt<E>): (work: nat -> Attempt<E>)
    ensures forall i: nat :: work(i) == a
  {
    (i: nat) => a
  }

  const DeadlineExceeded: string := "context deadline exceeded"

  /** Work that succeeds on the first call returns nil, calls work once and never sleeps. */
  method SucceedsImmediately() returns (res: Outcome<string>, delays: seq<int>, invocations: nat)
    ensures res == Returned(None) && delays == [] && invocations == 1
  {
    var r := Retrier(5, ConstantDelay(5 * Millisecond));
    var sleep := Deadline(r.delayf, 100 * Millisecond, DeadlineExceeded);
    var work := Always(Attempt(None, false));
    assert StopsAt(r, work, sleep, 0);
    res, delays, invocations := RunCtx(r, work, sleep);
    NoRetryReturnsError(r, work, sleep, invocations - 1, 0);
  }

  /** Work that fails asking not to retry gets its own error back after one call. */
  method FatalFailure() returns (res: Outcome<string>, delays: seq<int>, invocations: nat)
    ensures res == Returned(Some("fatal error")) && delays == [] && invocations == 1
  {
    var r := Retrier(5, ConstantDelay(5 * Millisecond));
    var sleep := Deadline(r.delayf, 100 * Millisecond, DeadlineExceeded);
    var work := Always(Attempt(Some("fatal error"), false));
    assert StopsAt(r, work, sleep, 0);
    res, delays, invocations := RunCtx(r, work, sleep);
    NoRetryReturnsError(r, work, sleep, invocations - 1, 0);
  }

  /** Without a context, work that always retries under a budget of 5 is called
      6 times, sleeps 5 times and ends with the budget exhausted. */
  method FailsAfterMaxRetries() returns (res: Outcome<string>, delays: seq<int>, invocations: nat)
    ensures res == BudgetExhausted(Some("error")) && invocations == 6
    ensures delays == Prefix(ConstantDelay(5 * Millisecond), 5)
  {
    var r := Retrier(5, ConstantDelay(5 * Millisecond));
    var work := Always(Attempt(Some("error"), true));
    BudgetedRunTerminates(r, work, Background);
    res, delays, invocations := Run(r, work);
    AlwaysRetryExhaustsBudget(r, work, Background, invocations - 1);
  }

  /** Without a context, work that succeeds on the first call returns nil after
      one call and no sleep. */
  method RunSucceedsImmediately() returns (res: Outcome<string>, delays: seq<int>, invocations: nat)
    ensures res == Returned(None) && delays == [] && invocations == 1
  {
    var r := Retrier(5, ConstantDelay(5 * Millisecond));
    var work := Always(Attempt(None, false));
    assert StopsAt(r, work, Background, 0);
    res, delays, invocations := Run(r, work);
    NoRetryReturnsError(r, work, Background, invocations - 1, 0);
  }

  /** With a 100 ms timeout, work that always retries under a budget of 5 never
      reaches the budget: with the code's units the first sleep asks for 5000
      seconds and the timeout cancels it, so the run ends with the deadline
      error after one call instead of a budget error. */
  method FailsAfterMaxRetriesAsWritten() returns (res: Outcome<string>, delays: seq<int>, invocations: nat)
    ensures res == Cancelled(DeadlineExceeded) && invocations == 1
    ensures delays == [5 * Millisecond * Millisecond]
  {
    var r := Retrier(5, ConstantDelay(5 * Millisecond));
    var sleep := Deadline(r.delayf, 100 * Millisecond, DeadlineExceeded);
    var work := Always(Attempt(Some("error"), true));
    assert Prefix(r.delayf, 0) == [];
    assert StopsAt(r, work, sleep, 0);
    res, delays, invocations := RunCtx(r, work, sleep);
    CancelledSleepEndsRun(r, work, sleep, invocations - 1, 0, DeadlineExceeded);
  }

  /** With the code's units, ConstantDelay(5 * time.Millisecond) asks for 5000
      seconds, so a 100 ms timeout fires during the first sleep: work that would
      succeed on its fourth call is cancelled after its first. */
  method SucceedsAfterSomeTriesAsWritten() returns (res: Outcome<string>, delays: seq<int>, invocations: nat)
    ensures res == Cancelled(DeadlineExceeded) && invocations == 1
    ensures delays == [5 * Millisecond * Millisecond]
  {
    var r := Retrier(5, ConstantDelay(5 * Millisecond));
    var sleep := Deadline(r.delayf, 100 * Millisecond, DeadlineExceeded);
    var work := SucceedsOnCall(3, "count too small");
    assert Prefix(r.delayf, 0) == [];
    assert StopsAt(r, work, sleep, 0);
    res, delays, invocations := RunCtx(r, work, sleep);
    CancelledSleepEndsRun(r, work, sleep, invocations - 1, 0, DeadlineExceeded);
  }

  /** The same run with a schedule of 5 ms per sleep: the three sleeps take 15 ms,
      well inside the timeout, and the run returns nil after four calls. */
  method SucceedsAfterSomeTriesInMilliseconds() returns (res: Outcome<string>, delays: seq<int>, invocations: nat)
    ensures res == Returned(None) && invocations == 4
    ensures delays == [5 * Millisecond, 5 * Millisecond, 5 * Millisecond]
  {
    var r := Retrier(5, (k: nat) => 5 * Millisecond);
    var sleep := Deadline(r.delayf, 100 * Millisecond, DeadlineExceeded);
    var work := SucceedsOnCall(3, "count too small");
    forall i: nat | i < 3
      ensures !BudgetSpent(r, i) && sleep(i, r.delayf(i)).None?
    {
      ConstantSleepElapses(r.delayf, 5 * Millisecond, 100 * Millisecond, DeadlineExceeded, i);
    }
    assert StopsAt(r, work, sleep, 3);
    res, delays, invocations := RunCtx(r, work, sleep);
    NoRetryReturnsError(r, work, sleep, invocations - 1, 3);
    assert delays == Prefix(r.delayf, 3);
  }

  /** With no budget and work that always retries, only the timeout ends the run,
      with the context's error; with the code's units it fires during the first
      sleep. */
  method TimesOutWithoutBudget() returns (res: Outcome<string>, delays: seq<int>, invocations: nat)
    ensures res == Cancelled(DeadlineExceeded) && invocations == 1
    ensures delays == [5 * Millisecond * Millisecond]
  {
    var r := Retrier(Unlimited, ConstantDelay(5 * Millisecond));
    var sleep := Deadline(r.delayf, 100 * Millisecond, DeadlineExceeded);
    var work := Always(Attempt(Some("error"), true));
    assert Prefix(r.delayf, 0) == [];
    assert StopsAt(r, work, sleep, 0);
    res, delays, invocations := RunCtx(r, work, sleep);
    CancelledSleepEndsRun(r, work, sleep, invocations - 1, 0, DeadlineExceeded);
  }
}
