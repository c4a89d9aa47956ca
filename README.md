# Retrier in Dafny

A model of the Go package `retrier`: a retry executor that invokes a unit of
work, waits between attempts according to a delay schedule, and stops when the
work asks not to retry, when its retry budget is spent, or when its context is
cancelled during a wait.

- `Delays` (delays.dfy): the six delay schedules (`NoDelay`, `ConstantDelay`,
  `LinearDelay`, `CappedLinearDelay`, `ExponentialDelay`,
  `CappedExponentialDelay`) as total functions from the retry index to a
  duration in nanoseconds. The units follow the code: the constant and both
  exponential schedules multiply by a millisecond (1 000 000 ns), the linear
  ones do not. `math.Pow` on floats becomes the exact integer power `Pow`.
- `Retry` (retrier.dfy): the `Retrier` record (`max`, `delayf`; Go's
  `NewRetrier` is its constructor `Retrier(max, delayf)`), and the `RunCtx`
  loop as a method with a `while` loop. The work is a function from the
  invocation index to the `(err, retry)` pair it returns; the cancellable sleep
  is an oracle that, for the k-th sleep and the requested duration, answers
  `None` (the wait elapsed) or `Some(err)` (the context fired first). A run
  ends in `Returned(err)`, `BudgetExhausted(cause)` or `Cancelled(ctxErr)`, and
  the method also returns the delays it requested and how often it invoked the
  work. `RunCtx` is proved against a specification that does not follow the
  loop: the run ends at the *first* invocation `s` for which `StopsAt` holds
  (`FirstStop`), with the outcome `OutcomeAt(s)` and the requested delays
  `delayf(0) .. delayf(s - 1)`, plus `delayf(s)` when that sleep was cancelled.
  The lemmas beside it derive the promised behaviours from that specification.
  `Run` is `RunCtx` with the context that never fires (`Background`).
- `Scenarios` (scenarios.dfy): the runs of the repository's `TestRunCtx` and
  `TestRun` cases, each proved outright with the code's units (one of them
  also with a schedule of 5 ms per sleep). A context with a timeout is
  modelled by the sleep oracle `Deadline`, which cancels a sleep once the time
  already slept plus the requested delay exceeds the timeout.

## Model

| member | source | states |
|---|---|---|
| `Delays.Pow` | retrier.go:88 | exact integer power; at least 1 for a base of at least 1, and 0 for base 0 above exponent 0 |
| `Delays.NoDelay` | retrier.go:36-40 | the schedule is 0 at every retry index |
| `Delays.ConstantDelay` | retrier.go:44-51 | the schedule is the same at every retry index, and equals the argument times one millisecond |
| `Delays.LinearDelay` | retrier.go:55-61 | the first retry waits exactly one step; retry n waits (n + 1) steps |
| `Delays.CappedLinearDelay` | retrier.go:66-78 | never exceeds cap; equals the linear schedule while that is below cap, and cap once the linear value reaches it |
| `Delays.ExponentialDelay` | retrier.go:83-91 | retry 0 waits coef ms; retry n waits coef * base^n milliseconds |
| `Delays.CappedExponentialDelay` | retrier.go:96-106 | never exceeds cap ms; equals the exponential schedule while its raw value is below cap, and cap ms once it reaches it |
| `Delays.LinearDelayStep` | retrier.go:58-60 | each linear delay is one step longer than the one before |
| `Delays.PowAdd` | retrier.go:88 | base^(m+n) = base^m * base^n |
| `Delays.PowMonotone` | retrier.go:88 | with base >= 1 the power does not decrease as the exponent grows |
| `Delays.ExponentialDelayStep` | retrier.go:87-90 | each exponential delay is base times the one before |
| `Delays.ExponentialDelayMonotone` | retrier.go:87-90 | with coef >= 0 and base >= 1 the exponential schedule never decreases |
| `Delays.CappedExponentialSaturates` | retrier.go:101-105 | with coef >= 0 and base >= 1, once the capped exponential schedule is at its cap it stays there |
| `Delays.CappedLinearSaturates` | retrier.go:70-77 | with step >= 0, once the capped linear schedule is at its cap it stays there |
| `Delays.ConstantDelayScalesByMillisecond` | retrier.go:47-50 | ConstantDelay(time.Second) yields a million seconds at every index, not time.Second |
| `Delays.ConstantDelayKeepsOnlyZero` | retrier.go:47-50 | ConstantDelay(d) returns d unchanged exactly when d is 0 |
| `Delays.ExponentialDelayKeepsOnlyZero` | retrier.go:87-90 | the first exponential delay equals coef exactly when coef is 0 |
| `Delays.ExponentialDelayScalesByMillisecond` | retrier.go:87-90 | ExponentialDelay(time.Second, 4) at retry 1 yields a million times time.Second * 4 |
| `Retry.Prefix` | retrier.go:134-138 | the first n delays of a schedule, the k-th being delayf(k) |
| `Retry.RunCtx` | retrier.go:121-141 | the run ends at the first invocation that stops it, with OutcomeAt of it and the delays requested in order; no budget error when max is -1; at most max + 1 invocations when max >= 0; the delays requested equal the invocations exactly when the run was cancelled, and are one fewer otherwise |
| `Retry.Run` | retrier.go:109-116 | the same run with a context that never fires: never cancelled, and the delays are delayf(0) .. delayf(s - 1) |
| `Retry.FirstStopUnique` | retrier.go:127-140 | a run ends at exactly one invocation |
| `Retry.BudgetedRunTerminates` | retrier.go:131-132 | with max other than -1 every run ends, whatever the work and the context do |
| `Retry.NoRetryReturnsError` | retrier.go:128-130 | the first call reached (with budget left and no cancelled sleep before it) that asks not to retry ends the run with that call's error (nil or not), with no further call and only the delays before it |
| `Retry.AlwaysRetryExhaustsBudget` | retrier.go:131-138 | with max >= 0, work that always retries and no cancellation: max + 1 calls, max sleeps for delayf(0) .. delayf(max - 1), and a budget error wrapping the last work error |
| `Retry.UnlimitedNeverExhausts` | retrier.go:131 | with max -1 the run never ends in a budget error; it ends only when the work asks not to retry or a sleep is cancelled |
| `Retry.UnlimitedRetryDiverges` | retrier.go:127-140 | with max -1, work that always retries and a context that never fires, the run never ends |
| `Retry.CancelledSleepEndsRun` | retrier.go:134-137 | a cancelled sleep ends the run with the context's error verbatim, even with budget left, after the delays delayf(0) .. delayf(j), and the work is not called again |
| `Retry.SucceedsAfterRetries` | retrier.go:127-140 | work that retries k times within budget then succeeds: nil, after sleeping delayf(0) .. delayf(k - 1) |
| `Scenarios.DeadlineCancelsIffOverdue` | retrier.go:145-156 | under a timeout context with T >= 0, a run ends cancelled (with the context's error) exactly when the delays it requested add up to more than T |
| `Scenarios.SucceedsImmediately` | retrier_test.go:396-405 | work succeeding at once: nil, one call, no sleep |
| `Scenarios.FatalFailure` | retrier_test.go:426-435 | work failing without retry: its error verbatim, one call, no sleep |
| `Scenarios.RunSucceedsImmediately` | retrier_test.go:503-512 | without a context, work succeeding at once: nil, one call, no sleep |
| `Scenarios.FailsAfterMaxRetriesAsWritten` | retrier_test.go:436-446 | with a 100 ms timeout the code's 5000-second first sleep is cancelled: the deadline error after one call, not the budget error the test expects |
| `Scenarios.FailsAfterMaxRetries` | retrier_test.go:514-522 | budget 5 and work that always retries: budget error wrapping "error", 6 calls, 5 sleeps |
| `Scenarios.SucceedsAfterSomeTriesAsWritten` | retrier_test.go:407-424 | with the code's ConstantDelay the 100 ms timeout fires during the first 5000-second sleep: cancelled after one call |
| `Scenarios.SucceedsAfterSomeTriesInMilliseconds` | retrier_test.go:407-424 | with a 5 ms schedule the same run returns nil after four calls and three 5 ms sleeps |
| `Scenarios.TimesOutWithoutBudget` | retrier_test.go:447-457 | no budget and work that always retries: the run ends with the deadline error, which with the code's units fires during the first 5000-second sleep, after one call |

## Code and tests disagree on units

`ConstantDelay` multiplies its argument by `time.Millisecond`
(retrier.go:49), while its test expects the argument back unchanged
(retrier_test.go:102-105); `ExponentialDelay` and `CappedExponentialDelay` do
the same (retrier.go:89, retrier.go:104) against tests that expect
`time.Second * n` (retrier_test.go:245-248, retrier_test.go:310-318). The model
follows the code. `ConstantDelayScalesByMillisecond` and
`ExponentialDelayScalesByMillisecond` state the difference for the tests'
values, and `ConstantDelayKeepsOnlyZero` and `ExponentialDelayKeepsOnlyZero`
for every nonzero argument. `SucceedsAfterSomeTriesAsWritten`,
`FailsAfterMaxRetriesAsWritten` and `TimesOutWithoutBudget` show the effect on
runs: with the code's units the tests' 5 ms delay is 5000 seconds, so the
100 ms timeout cancels the first sleep. A run the test expects to succeed ends
with the deadline error instead, and so does a run the test expects to end with
"failed after max retries: error" (retrier_test.go:445). The model does not
decide which of the two is intended.

Two further text-level mismatches:

- The doc comments of `LinearDelay` and `CappedLinearDelay` (retrier.go:54,
  retrier.go:65) give the delay as `step*retries` and
  `min((delay*retries), cap)`, while the code (retrier.go:59, retrier.go:71) and
  the tests (retrier_test.go:130, retrier_test.go:136) use
  `step + retries*step`. The model follows the code.
- The exponential tests (retrier_test.go:245, retrier_test.go:310-314) pass a
  `time.Duration` where `ExponentialDelay` and `CappedExponentialDelay` declare
  `int` parameters (retrier.go:84, retrier.go:97-99). Go does not convert these
  implicitly, so those tests do not type-check as written; their expectations
  are read here as the authors' intent.

## Left out

- `sleep`'s race between `time.After` and `ctx.Done()` (retrier.go:145-156): concurrency and wall-clock time; it is the sleep oracle, and a tie between timer and deadline is resolved for the timer in `Deadline`.
- `context.Context` values, deadlines and `context.Background()`: the context appears only through the oracle; the work's access to the context is folded into the work function.
- Work with side effects: the work is a function of its invocation index, which covers any deterministic sequence of results.
- `RunCtx`: requires that the run ends (`Terminates`); a run that never ends has no result, and only `UnlimitedRetryDiverges` speaks about it. `Run` likewise.
- `Pow`: agrees with `int(math.Pow(float64(base), float64(n)))` only while the power is an integer float64 holds exactly (magnitude at most 2^53); rounding and out-of-range float-to-int conversion are not modelled, nor is `math.Min` on floats.
- Overflow of Go's `int` and `time.Duration`: integers are unbounded; the code does not guard against overflow either.
- The text of the budget error (`fmt.Errorf("failed after max retries: %w", err)`): it is `BudgetExhausted(cause)`, keeping the wrapped cause.
- The tests' goroutines, channels and elapsed-time assertions: timing checks, not logic of the core.
