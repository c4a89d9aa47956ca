/** The retry executor: a Retrier holds a retry budget and a delay schedule,
    and RunCtx invokes a unit of work until the work says not to retry, the
    budget is spent, or the context is cancelled while waiting between tries.

    Time and concurrency are abstracted away. The unit of work is a function
    from the invocation index (0 for the first call) to what that call
    returns, and the cancellable sleep is an oracle that, for the k-th sleep
    and the duration requested, says whether the wait elapsed (None) or the
    context fired first, and with which error (Some(err)). */
module Retry {
  import opened Delays

  datatype Option<T> = None | Some(value: T)

  /** What one call of the work returns: its error (None is Go's nil) and
      whether the Retrier should try again. */
  datatype Attempt<E> = Attempt(err: Option<E>, retry: bool)

  /** How a run ends. */
  datatype Outcome<E> =
    | Returned(err: Option<E>)          // the work asked not to retry: its error, verbatim
    | BudgetExhausted(cause: Option<E>) // "failed after max retries", wrapping the last work error
    | Cancelled(ctxErr: E)              // the context fired during a sleep: its error, verbatim

  /** The retry budget max (-1 for no limit) and the delay schedule.
      NewRetrier(max, delayf) is this constructor. */
  datatype Retrier = Retrier(max: int, delayf: Schedule)

  /** The budget sentinel that disables the limit. */
  const Unlimited: int := -1

  /** The budget test made after a retryable failure, with `retries` retries done.
      A max below -1 counts as spent at once, as in the code. */
  predicate BudgetSpent(r: Retrier, retries: nat)
  {
    r.max != Unlimited && retries >= r.max
  }

  /** The run ends at invocation i (given that it reaches it): the work says not
      to retry, or the budget is spent, or the sleep after it is cancelled. */
  predicate StopsAt<E>(r: Retrier, work: nat -> Attempt<E>, sleep: (nat, int) -> Option<E>, i: nat)
  {
    !work(i).retry || BudgetSpent(r, i) || sleep(i, r.delayf(i)).Some?
  }

  /** s is the invocation at which the run ends: the first one that stops it. */
  predicate FirstStop<E>(r: Retrier, work: nat -> Attempt<E>, sleep: (nat, int) -> Option<E>, s: nat)
  {
    StopsAt(r, work, sleep, s) && forall i: nat :: i < s ==> !StopsAt(r, work, sleep, i)
  }

  /** The run ends at all. Runs that never end (no budget, work that always
      retries, a context that never fires) have no result to describe. */
  ghost predicate Terminates<E>(r: Retrier, work: nat -> Attempt<E>, sleep: (nat, int) -> Option<E>)
  {
    exists i: nat :: StopsAt(r, work, sleep, i)
  }

  /** The result of a run that ends at invocation s. */
  function OutcomeAt<E>(r: Retrier, work: nat -> Attempt<E>, sleep: (nat, int) -> Option<E>, s: nat): Outcome<E>
    requires StopsAt(r, work, sleep, s)
  {
    if !work(s).retry then Returned(work(s).err)
    else if BudgetSpent(r, s) then BudgetExhausted(work(s).err)
    else Cancelled(sleep(s, r.delayf(s)).value)
  }

  /** The first n delays of a schedule, in the order they are requested. */
  function Prefix(f: Schedule, n: nat): (d: seq<int>)
    ensures |d| == n
    ensures forall k :: 0 <= k < n ==> d[k] == f(k)
  {
    if n == 0 then [] else Prefix(f, n - 1) + [f(n - 1)]
  }

  /** The delays a run that ends at invocation s has asked to sleep for: one per
      completed sleep, plus the one a cancellation interrupted. */
  function Requested<E>(r: Retrier, work: nat -> Attempt<E>, sleep: (nat, int) -> Option<E>, s: nat): seq<int>
  {
    if work(s).retry && !BudgetSpent(r, s) then Prefix(r.delayf, s + 1) else Prefix(r.delayf, s)
  }

  /** Runs work until it asks not to retry, the budget is spent or a sleep is
      cancelled. Returns the outcome, the delays requested (in order) and the
      number of times work was invoked. */
  method RunCtx<E>(r: Retrier, work: nat -> Attempt<E>, sleep: (nat, int) -> Option<E>)
    returns (res: Outcome<E>, delays: seq<int>, invocations: nat)
    requires Terminates(r, work, sleep)
    ensures invocations > 0 && FirstStop(r, work, sleep, invocations - 1)
    ensures res == OutcomeAt(r, work, sleep, invocations - 1)
    ensures delays == Requested(r, work, sleep, invocations - 1)
    ensures r.max == Unlimited ==> !res.BudgetExhausted?
    ensures r.max >= 0 ==> invocations <= r.max + 1
    ensures res.Cancelled? <==> |delays| == invocations
    ensures !res.Cancelled? ==> |delays| == invocations - 1
  {
    ghost var bound: nat :| StopsAt(r, work, sleep, bound);
    var retries: nat := 0;
    delays := [];
    while true
      invariant retries <= bound
      invariant r.max >= 0 ==> retries <= r.max
      invariant forall i: nat :: i < retries ==> !StopsAt(r, work, sleep, i)
      invariant delays == Prefix(r.delayf, retries)
      decreases bound - retries
    {
      var attempt := work(retries);
      if !attempt.retry {
        return Returned(attempt.err), delays, retries + 1;
      } else if r.max != Unlimited && retries >= r.max {
        return BudgetExhausted(attempt.err), delays, retries + 1;
      } else {
        var d := r.delayf(retries);
        delays := delays + [d];
        var cancelled := sleep(retries, d);
        if cancelled.Some? {
          return Cancelled(cancelled.value), delays, retries + 1;
        }
        retries := retries + 1;
      }
    }
  }

  /** The context that never fires (context.Background()): every sleep elapses. */
  function Background<E>(k: nat, d: int): Option<E>
  {
    None
  }

  /** RunCtx with a context that is never cancelled. */
  method Run<E>(r: Retrier, work: nat -> Attempt<E>)
    returns (res: Outcome<E>, delays: seq<int>, invocations: nat)
    requires Terminates(r, work, Background)
    ensures invocations > 0 && FirstStop(r, work, Background, invocations - 1)
    ensures res == OutcomeAt(r, work, Background, invocations - 1)
    ensures !res.Cancelled?
    ensures delays == Prefix(r.delayf, invocations - 1)
  {
    res, delays, invocations := RunCtx(r, work, Background);
  }

  // ---------------------------------------------------------------------
  // Properties of runs, stated on the specification RunCtx meets

  /** A run ends at exactly one invocation. */
  lemma FirstStopUnique<E>(r: Retrier, work: nat -> Attempt<E>, sleep: (nat, int) -> Option<E>, s: nat, t: nat)
    requires FirstStop(r, work, sleep, s) && FirstStop(r, work, sleep, t)
    ensures s == t
  {
  }

  /** With a budget, every run ends, by invocation max (or the first, if max < 0). */
  lemma BudgetedRunTerminates<E>(r: Retrier, work: nat -> Attempt<E>, sleep: (nat, int) -> Option<E>)
    requires r.max != Unlimited
    ensures Terminates(r, work, sleep)
  {
    var bound: nat := if r.max < 0 then 0 else r.max;
    assert StopsAt(r, work, sleep, bound);
  }

  /** The first call that asks not to retry ends the run with its own error,
      nil or not, and no further call is made. */
  lemma NoRetryReturnsError<E>(r: Retrier, work: nat -> Attempt<E>, sleep: (nat, int) -> Option<E>, s: nat, j: nat)
    requires FirstStop(r, work, sleep, s)
    requires !work(j).retry
    requires forall i: nat :: i < j ==> work(i).retry && !BudgetSpent(r, i) && sleep(i, r.delayf(i)).None?
    ensures s == j
    ensures OutcomeAt(r, work, sleep, s) == Returned(work(j).err)
    ensures Requested(r, work, sleep, s) == Prefix(r.delayf, j)
  {
    assert StopsAt(r, work, sleep, j);
  }

  /** Work that always asks to retry, with budget max >= 0 and no cancellation
      before the budget is reached: the run sleeps exactly max times, for
      delayf(0) .. delayf(max - 1), and after max + 1 calls reports the budget
      exhausted, wrapping the last work error. */
  lemma AlwaysRetryExhaustsBudget<E>(r: Retrier, work: nat -> Attempt<E>, sleep: (nat, int) -> Option<E>, s: nat)
    requires r.max >= 0
    requires forall i: nat :: work(i).retry
    requires forall k: nat :: k < r.max ==> sleep(k, r.delayf(k)).None?
    requires FirstStop(r, work, sleep, s)
    ensures s == r.max
    ensures OutcomeAt(r, work, sleep, s) == BudgetExhausted(work(r.max).err)
    ensures Requested(r, work, sleep, s) == Prefix(r.delayf, r.max)
  {
    if s > r.max {
      assert StopsAt(r, work, sleep, r.max);
    }
  }

  /** With no budget, a run never reports the budget exhausted: it ends only
      when the work asks not to retry or a sleep is cancelled. */
  lemma UnlimitedNeverExhausts<E>(r: Retrier, work: nat -> Attempt<E>, sleep: (nat, int) -> Option<E>, s: nat)
    requires r.max == Unlimited
    requires FirstStop(r, work, sleep, s)
    ensures !OutcomeAt(r, work, sleep, s).BudgetExhausted?
    ensures !work(s).retry || sleep(s, r.delayf(s)).Some?
  {
  }

  /** With no budget, work that always retries and a context that never fires,
      the run never ends. */
  lemma UnlimitedRetryDiverges<E>(r: Retrier, work: nat -> Attempt<E>)
    requires r.max == Unlimited
    requires forall i: nat :: work(i).retry
    ensures !Terminates(r, work, Background)
  {
  }

  /** A sleep that is cancelled ends the run with the context's error, verbatim,
      after the delays delayf(0) .. delayf(j); the work is not called again,
      however much budget is left. */
  lemma CancelledSleepEndsRun<E>(r: Retrier, work: nat -> Attempt<E>, sleep: (nat, int) -> Option<E>, s: nat, j: nat, ctxErr: E)
    requires FirstStop(r, work, sleep, s)
    requires work(j).retry && !BudgetSpent(r, j)
    requires sleep(j, r.delayf(j)) == Some(ctxErr)
    requires forall i: nat :: i < j ==> work(i).retry && sleep(i, r.delayf(i)).None?
    ensures s == j
    ensures OutcomeAt(r, work, sleep, s) == Cancelled(ctxErr)
    ensures Requested(r, work, sleep, s) == Prefix(r.delayf, j + 1)
  {
    assert StopsAt(r, work, sleep, j);
  }

  /** Work that retries k times and then succeeds, within budget and without
      cancellation: the run returns nil after sleeping delayf(0) .. delayf(k - 1). */
  lemma SucceedsAfterRetries<E>(r: Retrier, work: nat -> Attempt<E>, s: nat, k: nat)
    requires r.max == Unlimited || k <= r.max
    requires forall i: nat :: i < k ==> work(i).retry
    requires work(k) == Attempt(None, false)
    requires FirstStop(r, work, Background, s)
    ensures s == k
    ensures OutcomeAt(r, work, Background, s) == Returned(None)
    ensures Requested(r, work, Background, s) == Prefix(r.delayf, k)
  {
    assert StopsAt(r, work, Background, k);
  }
}
