# console-watch poller: a verified model of its scheduling and sampling engine

console-watch polls a configured list of shell probes. Each metric has a name, a command and a history of
`{time, value}` samples. Every metric is put in one group keyed by the global polling interval. The group runs
in ticks. A tick runs every member's command with one shared timestamp and waits for all of them. Then the
group stops on a member's error, stops when the sample budget is used up, fails with "command is too slow." when
the tick overran the interval, or sleeps until the next tick.

The model has four modules for the components of `index.js`, plus `JsValues` for the JavaScript values they use:

- `JsValues` (`js_values.dfy`): `Option`, and the JavaScript number that `parseFloat` returns (NaN, a finite
  value, or an infinity). It also has the three operators the validity check uses: `!`, `!==` and `!=`.
- `Metrics` (`metrics.dfy`): `Sample`, the command result `ExecResult`, the decision `Judge` and the `Metric`
  class. The class has a `history: seq<Sample>` field, the completion callback `Complete`, `Report` and `ToJSON`.
- `Schedule` (`schedule.dfy`): the tick timestamp `start / 1000 | 0` and the sample budget. It holds the
  per-tick decision `NextStep` and the state machine `Drive` over a sequence of tick outcomes. `RunTick` and
  `RunGroup` are the imperative methods proved against them. `RunGroup` recurses once per tick, as `schedule`
  re-arms itself. The methods state their effect on a member's history through the ghost reader `Hist`; `RunGroup` and
  `TickAndDecide` keep `HistoriesAfter` (each history is its value before the group started, followed by the
  samples of the ticks run so far) from one tick to the next.
- `Grouping` (`grouping.dfy`): underscore's `groupBy` and its use with a constant key.
- `Session` (`session.dfy`): groups the metrics, then starts the scheduler with the parsed budget and the group
  key as its interval.

The clock and the external commands are inputs. A tick is given as its start time in milliseconds, one
`ExecResult` per member (the exec error, the stderr text and the parsed number), and the milliseconds until its
fan-in completed.

Behaviour of `index.js` worth knowing, which the model follows:

- The validity check `!out && out !== NaN && out != 0` rejects exactly a NaN parse. It accepts `0` and
  `±Infinity`. It does not reject every non-finite value.
- `report()` runs after every successful member run. There is no verbose switch.
- A samples option that parses to NaN never ends a group. `NaN--` stays NaN, and `NaN <= 0` is false.
- Grouping ignores each metric's own frequency. The key is the global `frequency * 1000`.

## Model

| member | source | states |
|---|---|---|
| `JsValues.StrictNotEqualNaN` | index.js:34 | `out !== NaN` holds for every number, so that conjunct never rejects anything |
| `Metrics.InvalidValueIffNaN` | index.js:33-34 | the validity check is true exactly for a NaN parse; `0`, `+Infinity` and `-Infinity` pass it |
| `Metrics.JudgePrecedence` | index.js:30-34 | error precedence: an exec error wins, then non-empty stderr, then a NaN value; the value is accepted exactly when none of the three applies; a rejection carries exec's message, the stderr text or "Invalid return value" |
| `Metrics.RecordedAtMostOne` | index.js:34-36 | a completion adds at most one sample; it adds `{time: unixtime, value: out}` exactly when the result is accepted |
| `Metrics.Metric.constructor` | index.js:23-27 | a new metric carries its configured name and command and an empty history |
| `Metrics.Metric.Complete` | index.js:29-39 | success appends exactly one sample `{time: unixtime, value: out}` to history; every error path returns its error and leaves history unchanged |
| `Metrics.Metric.RunAndReport` | index.js:56-61 | the deferred task: the history changes as `Complete` says, and `report` runs exactly after a success and shows the sample `{time: unixtime, value: out}` that run just appended |
| `Metrics.Metric.Report` | index.js:41-44 | the reported sample is the last one in history |
| `Metrics.Metric.ToJSON` | index.js:46-48 | the snapshot holds the metric's name and history |
| `Metrics.SnapshotOmitsCommand` | index.js:46-48 | the snapshot does not depend on the command: metrics with the same name and history serialise the same |
| `Metrics.MakeMetrics` | index.js:50 | one fresh metric per configuration entry, in order, pairwise distinct, each with empty history |
| `Schedule.ToInt32` | index.js:62 | the bitwise or with 0 yields a signed 32-bit integer and leaves values already in that range unchanged |
| `Schedule.ToInt32IsModular` | index.js:62 | the wrap is reduction modulo 2^32 into the signed range [-2^31, 2^31) |
| `Schedule.TimestampIsSeconds` | index.js:62 | before 2^31 seconds the tick timestamp is the tick start in whole seconds, rounded down |
| `Schedule.TimestampMonotone` | index.js:62 | in that range a later tick start never gets an earlier timestamp |
| `Schedule.TimestampWrapsIn2038` | index.js:62 | at 2^31 seconds the timestamp wraps to -2^31 |
| `Schedule.ParseSamples` | index.js:83 | an absent option is no bound; an integer parse gives that count; a NaN parse gives the NaN budget |
| `Schedule.NextStepPrecedence` | index.js:64-79 | a member's error stops the group first, with no decrement; then a budget that reaches <= 0 stops it successfully; then a negative `wait - elapsed` fails it with "command is too slow."; otherwise it reschedules with delay `wait - elapsed >= 0` and the decremented budget |
| `Schedule.Drive` | index.js:52-81 | the number of ticks consumed never exceeds the ticks supplied and is at least one when any tick ran; a waiting group has used every tick |
| `Schedule.DriveSkip` | index.js:67-79 | ticks that neither fail nor overrun, while budget remains, only reschedule with the same interval and a budget decremented once per tick |
| `Schedule.BudgetEndsGroup` | index.js:67-70 | with numeric budget `n`, a group whose ticks never fail stops successfully after exactly `max(n, 1)` ticks, even if the last tick overran the interval |
| `Schedule.FailureEndsGroup` | index.js:64-65 | a member error at tick `k` ends the group with that error after `k + 1` ticks |
| `Schedule.DeadlineEndsGroup` | index.js:72-75 | an overrun tick while budget remains fails the group as too slow after `k + 1` ticks |
| `Schedule.UnboundedNeverDone` | index.js:67-70 | with no bound or a NaN budget, the group never stops successfully |
| `Schedule.BudgetBoundsTicks` | index.js:67-70 | a numeric budget `n` bounds the group to at most `max(n, 1)` ticks |
| `Schedule.StoppedStaysStopped` | index.js:64-79 | once the group has stopped, further tick inputs change nothing, so no tick is scheduled after a stop |
| `Schedule.FirstErrorIsSomeFailure` | index.js:55-64 | the fan-in reports no error exactly when every member was accepted; any error it reports is some failing member's error |
| `Schedule.RunTick` | index.js:53-63 | all members run with one timestamp, the tick start in seconds taken once; each member's history gains exactly its own result's sample and nothing else; the tick's error is the fan-in's |
| `Schedule.TickAndDecide` | index.js:53-75 | one tick then the fan-in callback's decision: the decision is the state machine's step at that tick, and every history that held the samples of ticks `lo` up to `from` then also holds tick `from`'s |
| `Schedule.RunGroup` | index.js:52-81 | run from tick `from` on, the recursion's outcome and tick count equal the state machine's; every history that held the samples of ticks `lo` up to `from` ends up holding exactly the samples of ticks `lo` up to the last tick that ran, in tick order |
| `Schedule.GainedSorted` | index.js:36 | with non-decreasing tick starts before 2038, the samples a member gains are in non-decreasing time order and none is earlier than the first tick's timestamp |
| `Schedule.DoneMeansNoFailure` | index.js:64-69 | a group that stopped successfully had no failing member in any tick it ran |
| `Schedule.CleanTicksGainOneEach` | index.js:57-60 | ticks with no failing member give every member exactly one sample each |
| `Schedule.DoneGroupSampledEveryTick` | index.js:64-69 | after a successful stop at tick `n`, every member has gained exactly `n` samples |
| `Grouping.GroupByPartitions` | index.js:88-89 | the groups' keys are exactly the elements' keys, and each group is the elements with that key in original order, so every element lies in exactly one group |
| `Grouping.ConstantKeyOneGroup` | index.js:88-89 | a key that ignores the element puts all elements, in order, into one group; an empty list gives no group |
| `Grouping.GroupByFrequency` | index.js:89 | every metric lands, in order, in the single group keyed `frequency * 1000`, whatever its own settings |
| `Session.Poll` | index.js:50-90 | from the configuration to the end of the run: one metric per entry, each history exactly the samples of the ticks that ran, and with ordered tick starts every history is sorted by time |
| `Session.RunSession` | index.js:83-90 | the one group is driven with interval `frequency * 1000` and the parsed budget, and its result is the state machine's; every metric's history gains the samples of the ticks run; with no metrics no group runs |

## Left out

- Command execution (`child_process.exec`) is not modelled. Each run's result is an input: error, stderr text and parsed number.
- `parseFloat` and IEEE arithmetic are not modelled. The parsed value is NaN, an exact finite real or an infinity, and the sign of zero is lost. Only the three operators of the validity check are modelled, on these values.
- Timers and the clock (`setTimeout`, `Date`) are not modelled. Tick start times and elapsed times are inputs. The computed delay is part of `NextStep`'s result, but the sleep itself is not modelled.
- Schedule.TickTimestamp: the model treats `start / 1000` as an exact division of an integer. Floating-point rounding of that quotient is not modelled.
- The `queue-async` fan-out and fan-in are not modelled, and neither is concurrency between groups. A tick runs its members in list order. `RunTick`, `RunGroup` and `RunSession` report the first failing member in list order, while the source reports the first member to fail in time. `FirstErrorIsSomeFailure` states what holds of both: an error is reported exactly when some member failed, and it is that member's error.
- Session.RunSession: after the first group error the process exits. In the model, the members still in flight at that point record their results.
- Argument parsing (`optimist`) and the config file (`require(argv.config)`) are not modelled. The frequency is an integer. A `--frequency` that `parseInt` cannot read makes the group key and `wait` NaN, so `delay` is NaN, `delay < 0` is false and a group never fails as too slow; the model does not capture this. The samples option is an already parsed integer or NaN, and the config is a list of name and command pairs. Settings other than name and command are ignored, since grouping does not read them.
- Console output is not modelled: the banner, `report`'s line, the summary line and warnings. `Report` and `RunAndReport` return the sample that `report` would print, and `RunTick` drops it.
- `JSON.stringify`, `fs.writeFile` and `process.exit` are not modelled. The output stops at the `{name, history}` snapshot.
- The poller computes no statistics and installs no interrupt handler, so the model has neither.
