# Measurometer dispatcher, modelled in Dafny

Measurometer is a small Ruby instrumentation facade. Application code calls
`Measurometer.instrument(name) { ... }`, `increment_counter(path, by)` and
`add_distribution_value(path, value)`. The module forwards each call to the
drivers held in a process-wide `Set`, `Measurometer.drivers`.

The interesting part is `instrument`. It folds the registry with `inject`,
wrapping the block in each driver's own `instrument`. It calls the resulting
chain once. It then returns the block's value from a captured local, not
from the chain. This project models that dispatcher and the reference
`StatsdDriver` adapter as pure functions over immutable data, and proves
properties about them.

Files:

- `values.dfy` (`Values`): Ruby values (`nil`, symbols, integers), and the
  outcome of a call, which either returns a value or raises.
- `registry.dfy` (`Registry`): the driver `Set`, modelled as a
  duplicate-free sequence in insertion order. It has `<<`, `delete`,
  `clear`, `include?` and `length`.
- `dispatcher.dfy` (`Dispatcher`): drivers are modelled by what they do when
  called. Their `instrument` can pass through, substitute a value, skip the
  block, raise before yielding, raise after the block returned, or rescue. Their counter and distribution calls either
  accept or raise. Every call a driver receives is recorded as an event.
  This file holds the `inject` fold with the capture slot, `instrument` with
  its fast path, and the two fan-out operations.
- `blocks.dfy` (`Blocks`): instrumented code as a small program tree, so
  that `instrument` calls can nest and can emit metrics from inside their
  blocks.
- `statsd_driver.dfy` (`StatsdDriver`): the adapter. The statsd client is an
  append-only log of `timing` / `increment` / `count` / `gauge` calls. The
  elapsed time is a caller-supplied number of nanoseconds.

Behaviour the code fixes but its comments leave open:

- **Nesting order.** The comment on `instrument` (lib/measurometer.rb:26-36)
  shows one driver's `instrument` wrapped around another's, but does not say
  which registration order gives which nest. The fold starts from the
  capturing block, so the driver iterated *last* is outermost and the
  first-added driver is innermost, next to the block. To get the nest the
  comment draws, the inner driver must be added first.
  `Dispatcher.NestingOrder` and `Dispatcher.EntriesPrecedeBlock` prove the
  order the code computes.
- **Fan-out order.** `each` visits drivers in registry order, and the first
  driver that raises stops delivery to the rest. The comments on the two
  fan-out methods say nothing about either.
- **Operations the code lacks.** The library file defines no `set_gauge`,
  no tags, no default `by = 1` and no string conversion of names, so none of
  these are modelled on the dispatcher. `set_gauge` exists only on the StatsD
  adapter.

## Model

| member | source | states |
|---|---|---|
| Registry.Empty | lib/measurometer.rb:5 | The registry starts with no members and trivially satisfies the no-duplicates invariant |
| Registry.Add | spec/measurometer_spec.rb:24 | `<<` adds exactly the new handle, keeps existing members in their positions, and appends a new handle last. It grows the registry by one exactly when the handle was absent, and preserves the no-duplicates invariant |
| Registry.Delete | spec/measurometer_spec.rb:27 | `delete` removes exactly the given handle and never grows the registry. Deleting an absent handle changes nothing, and the invariant is preserved |
| Registry.Clear | spec/measurometer_spec.rb:17 | `clear` leaves a registry with no members |
| Registry.Length | spec/measurometer_spec.rb:34 | `length` of a registry is its number of distinct members |
| Registry.AddAllCountsDistinct | spec/measurometer_spec.rb:31-35 | Registering any sequence of handles into an empty registry gives a duplicate-free registry. Its length is the number of distinct handles registered |
| Registry.AddThriceIsOne | spec/measurometer_spec.rb:33-34 | Adding the same driver three times gives length 1 |
| Registry.AddPresentIsNoOp | lib/measurometer.rb:5 | Adding a driver that is already present leaves the registry unchanged |
| Registry.IncludeAfterAddAndDelete | spec/measurometer_spec.rb:17-29 | After `clear` a handle is not included; after `<<` it is; after `delete` it is not again |
| Registry.AddThenDelete | spec/measurometer_spec.rb:21-29 | After add then delete, the driver is not registered. If it was new, the registry is exactly as before; otherwise the result is the same as deleting it alone |
| Registry.MembershipFollowsHistory | spec/measurometer_spec.rb:16-29 | Over any history of `<<`, `delete` and `clear`, `include?` of a handle answers as an independent flag does: set by adding it, reset by deleting it or clearing. The registry stays duplicate-free throughout |
| Registry.DeleteSplices | spec/measurometer_spec.rb:27 | Deleting a member splices it out at its position, and every other driver keeps its relative order |
| Dispatcher.Span | lib/measurometer.rb:52-54 | One wrapper layer enters its driver first. A yielding driver leaves the capture slot as the inner thunk set it, and its trace starts with its entry and the inner events. A non-yielding driver leaves the slot `nil` and shows none of the inner events. Around a returning inner thunk, a completing driver adds exactly one entry and one exit. A yielding driver that does not rescue re-raises an inner error unchanged, with no exit. A driver that raises after yielding does so once the inner thunk returned. Any error is the inner one or the driver's own |
| Dispatcher.Chain | lib/measurometer.rb:51-55 | The fold's outermost thunk: if every driver yields, the slot ends with the block's value. If every driver completes, a returning block makes the chain return. If any driver does not yield, the slot stays `nil`. If every driver yields and none rescues, a block error comes out unchanged. Every error comes from the block or from a driver's own raise. With no skipping or rescuing driver, one raising driver makes the chain raise |
| Dispatcher.Instrument | lib/measurometer.rb:47-57 | With no drivers, the block's run is returned as is (fast path). If all drivers complete and the block returns, the block's value is returned, whatever the wrappers return. If all drivers yield, any value returned is the captured one. If all drivers propagate, the outcome is the block's, errors included. If some driver never yields, the only value it can return is `nil`. Errors are never invented or translated. A raising driver with no skipping or rescuing driver raises to the caller |
| Dispatcher.NestingOrder | lib/measurometer.rb:51-55 | When every driver completes and the block returns, the trace is: entries from the last-iterated driver to the first, then the block's events, then exits from the first driver to the last |
| Dispatcher.EntriesPrecedeBlock | lib/measurometer.rb:51-55 | Whenever every driver yields, whether the block returns or raises, the trace starts with one entry per driver, from the last-iterated to the first, followed by the block's events |
| Dispatcher.ErrorUnwindsWithoutExits | lib/measurometer.rb:51-56 | When every driver yields and none rescues, a raising block's error reaches the caller unchanged. The trace is exactly the entries of the nest followed by the block's events, with no exits |
| Dispatcher.EnteredOnce | lib/measurometer.rb:51-55 | In the nest of a duplicate-free registry, each registered driver is entered exactly once, always with the same block name, and no other driver is entered |
| Dispatcher.LateFailureRescuedKeepsValue | lib/measurometer.rb:48-56 | A driver that raises after its block returned, inside a driver that rescues, does not lose the result: `instrument` returns the block's `:x` from the capture slot |
| Dispatcher.SkippedBlockIsInvisible | lib/measurometer.rb:49-56 | If some driver never calls its inner block, `instrument` gives the same result and trace whatever the block would do. It returns `nil` or raises |
| Dispatcher.NastyDriverDoesNotLoseResult | spec/measurometer_spec.rb:39-53 | A driver that yields but returns `nil` does not change the result: `instrument` still returns `:block_result` |
| Dispatcher.FanOut | lib/measurometer.rb:64-77 | The drivers reached receive the call with unchanged arguments, in registry order. They always form a prefix of the registry. A returning fan-out returns `nil` |
| Dispatcher.FanOutReachesAllIffAccepted | lib/measurometer.rb:64-77 | A fan-out returns exactly when every registered driver accepts the call, and then every driver has received it |
| Dispatcher.FirstReject | lib/measurometer.rb:65 | Finds the first driver that raises on the call: every driver before it accepts. If none raises, the result is the registry length |
| Dispatcher.FanOutStopsAtFirstFailure | lib/measurometer.rb:64-77 | If some driver raises, delivery stops at the first such driver. It is the last one reached, its error reaches the caller unchanged, and no later driver sees the call |
| Dispatcher.IncrementCounter | lib/measurometer.rb:74-77 | Every delivery is `increment_counter(counter_path, by)` with the caller's arguments. The call returns `nil` unless a driver raised. If all drivers accept, each registered driver gets exactly one delivery, in registry order |
| Dispatcher.AddDistributionValue | lib/measurometer.rb:64-67 | Every delivery is `add_distribution_value(value_path, value)` with the caller's arguments. The call returns `nil` unless a driver raised. If all drivers accept, each registered driver gets exactly one delivery, in registry order |
| Dispatcher.FanOutIsMap | lib/measurometer.rb:65 | When every driver accepts, a fan-out is exactly the map of the registry to one delivery per driver, followed by `nil` |
| Blocks.Exec | lib/measurometer.rb:47-77 | With an empty registry, a program of nested `instrument`, counter and sample calls produces no driver events, and ends exactly as the uninstrumented program does |
| Blocks.Transparent | lib/measurometer.rb:47-57 | With drivers that yield, propagate errors and accept every call, any program, however deeply nested, ends exactly as it would uninstrumented. This covers both its return value and its error |
| Blocks.NestedScenario | spec/measurometer_spec.rb:83-103 | With one recording driver, the nested test program returns `:task_finished`. It reports the outer span, both subspans, the counter and the sample, each inside its enclosing span, in nesting order |
| StatsdDriver.Millis | lib/measurometer/statsd_driver.rb:14-15 | The reported milliseconds are the elapsed time truncated to whole milliseconds: `ms * 10^6 <= ns < (ms + 1) * 10^6` |
| StatsdDriver.Instrument | lib/measurometer/statsd_driver.rb:11-18 | Returns exactly the block's outcome. After a returning block, exactly one `timing` call is sent, after every call the block made, with the action's name and the truncated milliseconds. A raising block sends no timing |
| StatsdDriver.ActsAsPassThrough | lib/measurometer/statsd_driver.rb:13-17 | To the dispatcher, the adapter's `instrument` behaves like a pass-through driver |
| StatsdDriver.IncrementCounter | lib/measurometer/statsd_driver.rb:20-22 | Sends exactly one `increment(name, by)` with unchanged arguments, appended to the client log |
| StatsdDriver.AddDistributionValue | lib/measurometer/statsd_driver.rb:24-26 | Sends exactly one `count(path, value)` with unchanged arguments, appended to the client log |
| StatsdDriver.SetGauge | lib/measurometer/statsd_driver.rb:28-30 | Sends exactly one `gauge(name, value)` and no other client call |
| StatsdDriver.OneCallPerOp | lib/measurometer/statsd_driver.rb:20-30 | Any sequence of counter, sample and gauge operations gives exactly one client call per operation, in issue order, of the matching primitive with unchanged arguments. Earlier log entries are untouched |

## Left out

- Clock reading (`gettime`, `MONOTONIC_AVAILABLE`, `Process.clock_gettime`, `Time.now.to_f`). The elapsed time is an integer number of nanoseconds supplied by the caller, so `.to_i` truncation is integer division.
- Floating point. Distribution samples and gauge values are Dafny `real`s, which are forwarded unchanged; no float rounding is modelled.
- The statsd client itself. It is a foreign library; only the calls it receives are modelled, and their return values are not.
- Thread-safety and reentrancy of drivers. These are concurrency requirements stated in comments; the model is sequential.
- Ruby dynamic-dispatch failures, such as `NoMethodError` for a registered object without the required method.
- The `(@drivers || [])` branch. `@drivers` is always a `Set`, so the `[]` alternative never runs.
- Changing the registry from inside an instrumented block. A program runs against a fixed registry.
- The order of a driver's own work inside `instrument` is coarse. Each driver records one entry event and one exit event (the exit only on normal completion). The drivers' internal measurements are not modelled.
- Lazy evaluation of blocks: the block passed to `instrument` is evaluated as a value and handed to the fold. A driver that does not yield simply ignores it. This is equivalent because a block is deterministic for a fixed registry and every modelled driver runs it at most once.
- Drivers that yield more than once, or that raise after their inner block raised. A driver's `instrument` is one of six fixed behaviours, each of which calls its inner block at most once; a driver that re-runs the block would run the block, and the capture, again.
- StatsdDriver.Instrument: the client's `timing` call never raises. A client whose `timing` raises turns the adapter into a driver that raises after yielding, which `Dispatcher` models as `YieldThenFail`.
- `VERSION`, and the tests' timing assertions (`sleep`, `rand`, elapsed time `> 0`, `be_within(20).of(200)`).
