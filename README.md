# inquisitor, modelled in Dafny

inquisitor is an HTTP load generator. It sends requests to one URL and
stops at whichever of two bounds is reached first: a number of requests or
a run duration. Each response counts as a pass or an error. A second Ctrl-C
ends the process. At the end it prints the error count, the total and
latency statistics.

This project models the sequential core of that program and proves what it
promises:

- `primitives.dfy`, module `Primitives`: an `Option` type and the 64-bit
  integer ranges the program computes with. A 64-bit target is assumed, so
  `usize` and `u64` share the range 0 to 2^64 - 1.
- `config.dfy`, module `RunConfig`: the run configuration, the default HTTP
  method, the 20 s default duration and the resolution of the two optional
  bounds (`Config::iterations_and_duration`).
- `duration_parse.dfy`, module `DurationParse`: `parse_duration`.
  - The regular expression `(\d\d*(?:\.\d\d*)??)([smh])` becomes a scanner.
  - The scanner is proved against a reference definition of the
    expression's language: it finds the leftmost match, or none exactly
    when no substring matches.
  - The number is read as an exact decimal, scaled by the unit and truncated
    to whole microseconds.
- `engine.dfy`, module `Engine`: the engine of `inquisitor-core`.
  - Header entries split at the first `:`.
  - The classification of a response as a pass or an error.
  - The two-stage interrupt flag, as a class.
  - The shared counters and latency samples, as a class.
  - One worker's request loop, as a method proved against a recursive
    specification function.
  - The `errors: <errors>/<total>` line of the report.
- `legacy.dfy`, module `Legacy`: the older single-binary variant (`src/main.rs`).
  - The first-fit connection pool, as a class over an array of optional
    slots.
  - Batches of tasks, each writing its latency into its own slot.
  - A classification that accepts only status 200.
  - `percentile`: an in-place sort, then an index.

The environment of a run becomes inputs, indexed by request number:

- the response each request gets
- its measured latency in microseconds
- the elapsed run time read before each loop decision
- whether an interrupt is handled just before that decision

A compiled failure-body regular expression is represented by its `is_match`
predicate.

## Model

| member | source | states |
|---|---|---|
| Primitives.TruncateToU64 | inquisitor-core/src/config.rs:72-73 | an integer `as u64` cast keeps the value when it fits and always yields a value within u64 |
| RunConfig.Duration.AsMicros | inquisitor-core/src/config.rs:72-73 | `Duration::as_micros` is the whole number of microseconds in the duration, dropping the sub-microsecond part |
| RunConfig.FromMicros | inquisitor-core/src/time.rs:41 | `Duration::from_micros(m)` is a valid duration whose microsecond count is exactly `m` |
| RunConfig.DefaultConfig | inquisitor-core/src/config.rs:13-17 | the derived default configuration uses method `Get` and has neither an iteration count nor a duration |
| RunConfig.DurationMicros | inquisitor-core/src/config.rs:72-73 | the duration bound fits u64 and equals the duration's microseconds whenever those fit |
| RunConfig.IterationsAndDuration | inquisitor-core/src/config.rs:68-75 | given values pass through; an absent count is `usize::MAX`; an absent duration is `u64::MAX` when a count is given and 20 000 000 µs when neither is given; both bounds stay in range |
| RunConfig.NeverBothUnbounded | inquisitor-core/src/config.rs:69-74 | the bound is (`usize::MAX`, `u64::MAX`) only if the user literally supplied one of those maxima |
| RunConfig.SentinelsOnlyForAbsentFields | inquisitor-core/src/config.rs:69-74 | a count other than `usize::MAX` is the user's count; a finite duration with no duration given is the 20 s default and only arises when no count was given either |
| RunConfig.DefaultConfigBound | inquisitor-core/src/config.rs:26-28 | with nothing given the run is bounded by 20 s and not by count |
| DurationParse.IsRegexDigit | inquisitor-core/src/time.rs:26 | a `\d` character is neither the point nor a unit letter, so the digits, the point and the unit of a match never overlap |
| DurationParse.DigitRunEnd | inquisitor-core/src/time.rs:26 | the greedy `\d\d*` run from a position ends at the first non-digit (or the end) and holds only digits |
| DurationParse.MatchAt | inquisitor-core/src/time.rs:26 | a match anchored at `p` ends in a unit letter, has digits at every position except an interior point, and the point is followed by at least one digit |
| DurationParse.MatchAtExact | inquisitor-core/src/time.rs:26 | a substring starting at `p` matches the expression exactly when the anchored scanner reports its end, so at most one match starts at each position |
| DurationParse.FirstMatch | inquisitor-core/src/time.rs:27-29 | what the unanchored search returns is a well-formed match at or after the start |
| DurationParse.FirstMatchIsLeftmost | inquisitor-core/src/time.rs:27-29 | the search finds nothing exactly when no substring matches; otherwise it returns a match and no match starts earlier |
| DurationParse.DecimalValue | inquisitor-core/src/time.rs:31-33 | the base-ten value of n ASCII digits is below 10^n |
| DurationParse.DecimalValueAppend | inquisitor-core/src/time.rs:31-33 | the value of `a + b` is value(a) × 10^|b| + value(b) |
| DurationParse.ParseNumber | inquisitor-core/src/time.rs:31-33 | the float parse of the number group succeeds exactly when all its digits are ASCII; it then yields integer part × 10^k + fraction digits over 10^k, exactly |
| DurationParse.Multiplier | inquisitor-core/src/time.rs:34-39 | `s`, `m` and `h` are 1 000 000, 60 000 000 and 3 600 000 000 µs; no other letter reaches the match |
| DurationParse.TruncatedQuotient | inquisitor-core/src/time.rs:41 | a float-to-`u64` cast of a non-negative quotient truncates toward zero and saturates at `u64::MAX` |
| DurationParse.ScaledMicros | inquisitor-core/src/time.rs:41 | `(base * mul) as u64` is the product truncated to whole microseconds, saturating at `u64::MAX` |
| DurationParse.ParseDuration | inquisitor-core/src/time.rs:25-42 | a successful parse has a match and yields a valid duration whose microseconds fit u64 |
| DurationParse.ParseFailsIff | inquisitor-core/src/time.rs:27-33 | parsing fails exactly when no substring matches, or when the first match contains a decimal digit the float parser rejects |
| DurationParse.AsciiParseFailsIffNoMatch | inquisitor-core/src/time.rs:27-29 | on input without non-ASCII decimal digits, parsing fails exactly when no substring matches |
| DurationParse.ParseScales | inquisitor-core/src/time.rs:31-41 | the result is the exact number times the unit's multiplier, truncated down to whole microseconds |
| DurationParse.TenSeconds | inquisitor-core/src/config.rs:53-54 | `"10s"` is 10 000 000 µs |
| DurationParse.OneAndAHalfMinutes | inquisitor-core/src/config.rs:53-54 | `"1.5m"` is 90 000 000 µs |
| DurationParse.TwentyHours | inquisitor-core/src/config.rs:53-54 | `"20h"` is 72 000 000 000 µs |
| DurationParse.LeadingTextIgnored | inquisitor-core/src/time.rs:27-29 | the search is unanchored: `".5s"` and `"-5s"` both read as 5 s |
| DurationParse.PointWithoutFraction | inquisitor-core/src/time.rs:26 | `"5.s"` has no match, because a point must be followed by a digit |
| DurationParse.NonAsciiDigitRejected | inquisitor-core/src/time.rs:31-33 | an Arabic-Indic digit satisfies `\d`, so `"٥s"` holds a match, but the float parse rejects it and the result is the error |
| DurationParse.DefaultIsTwentySeconds | inquisitor-core/src/config.rs:4 | `DEFAULT_DURATION_SECS` in microseconds equals what the parser makes of `"20s"` |
| Engine.SplitOnce | inquisitor-core/src/lib.rs:39 | `split_once(':')` fails exactly when there is no `:`; otherwise the entry is `before + ":" + after` with no `:` in `before` |
| Engine.ParseHeaders | inquisitor-core/src/lib.rs:37-42 | the header loop builds the same map as inserting the split entries in order |
| Engine.HeaderMapContents | inquisitor-core/src/lib.rs:37-42 | a key is present exactly when some entry with a `:` has it before the first `:`; its value is the untrimmed rest of the last such entry |
| Engine.HeaderMap | inquisitor-core/src/lib.rs:37-42 | the map never has more keys than there are entries |
| Engine.IsSuccess | inquisitor-core/src/lib.rs:131 | `is_success` holds exactly for the 2xx class, the statuses whose hundreds digit is 2 |
| Engine.MatchArm | inquisitor-core/src/lib.rs:130-169 | the guarded arms cover every response: transport errors, non-2xx statuses and 2xx statuses without a pattern each take their own arm, and the `unreachable!()` arm is never taken |
| Engine.Classify | inquisitor-core/src/lib.rs:130-169 | a request passes exactly when it received a 2xx status and, if a failure pattern is set, the body does not match it |
| Engine.HandleInterrupt | inquisitor-core/src/lib.rs:26-31 | after the handler the flag is set; it exits with status 130 exactly when the flag was already set |
| Engine.ExitFlag.constructor | inquisitor-core/src/lib.rs:23 | the flag starts clear |
| Engine.ExitFlag.OnInterrupt | inquisitor-core/src/lib.rs:26-31 | the handler sets the flag and exits with 130 exactly when it was already set |
| Engine.TwoStageInterrupt | inquisitor-core/src/lib.rs:26-31 | from a clear flag the first interrupt only sets it, the second exits with 130, and the flag never clears |
| Engine.Metrics.constructor | inquisitor-core/src/lib.rs:45-51 | both counters start at 0 and the histogram is empty |
| Engine.Metrics.Record | inquisitor-core/src/lib.rs:124-128 | recording appends one sample and touches no counter; a sample above 10^12 µs is refused |
| Engine.Metrics.CountPass | inquisitor-core/src/lib.rs:132 | the pass counter goes up by one and nothing else changes |
| Engine.Metrics.CountError | inquisitor-core/src/lib.rs:160 | the error counter goes up by one and nothing else changes |
| Engine.AfterRequest | inquisitor-core/src/lib.rs:121-169 | one request adds exactly one to the total and appends its latency; the pass counter moves exactly on a pass and the error counter exactly on a failure |
| Engine.ShouldContinue | inquisitor-core/src/lib.rs:103-106 | a request starts only while the count bound leaves room, so every request shrinks the room left; once the exit flag is set no request starts |
| Engine.RecordRequest | inquisitor-core/src/lib.rs:121-169 | the bookkeeping after a request leaves the counters and samples exactly as `AfterRequest` specifies |
| Engine.RunWorker | inquisitor-core/src/lib.rs:99-173 | every request adds one to the total and one sample, and earlier samples are kept; every request started before the duration bound with no interrupt at its decision; a worker that starts with the exit flag set makes no request; a normal end means the guard or the exit flag stopped the loop; an abnormal end is status 130; the total never passes the iteration bound |
| Engine.Worker | inquisitor-core/src/lib.rs:99-173 | the imperative loop over the shared counters, the histogram and the exit flag ends in exactly the state, exit status and request count that `RunWorker` specifies |
| Engine.RunsToIterationBound | inquisitor-core/src/lib.rs:100-128 | bounded only by count `n` (no interrupt, clock within the duration), the worker makes exactly `n` requests, ends with total `n` and records the `n` latencies in order |
| Engine.UniformResponses | inquisitor-core/src/lib.rs:130-169 | if every response passes the error counter never moves; if every response fails the pass counter never moves |
| Engine.InterruptStopsWorker | inquisitor-core/src/lib.rs:103-106 | an interrupt before a decision stops the worker with no further request; the process exits with 130 exactly when the flag was already set |
| Engine.DecimalString | inquisitor-core/src/lib.rs:200 | `{}` of a count is non-empty ASCII digits without a leading zero |
| Engine.DecimalStringRoundTrip | inquisitor-core/src/lib.rs:200 | reading the printed count back in base ten gives the count |
| Engine.ReportErrors | inquisitor-core/src/lib.rs:195-206 | the line is `errors: <errors>/<passes + errors>`, and the percentage follows exactly when there was an error |
| Engine.OneRequestScenario | tests/integration.rs:5-24 | a single worker with `-n 1` against an endpoint answering 200, one request is made, it passes, and the report reads `errors: 0/1` with no percentage |
| Engine.PatternMatchedBodyFails | inquisitor-core/src/lib.rs:140-147 | a 200 response whose body matches the failure pattern counts as an error and not as a pass |
| Legacy.FirstOccupied | src/main.rs:50-58 | the lowest occupied slot, or none exactly when every slot is empty |
| Legacy.FirstEmpty | src/main.rs:60-67 | the lowest empty slot, or none exactly when every slot is occupied |
| Legacy.Occupied | src/main.rs:29-31 | the occupied count never exceeds the pool's length |
| Legacy.Take | src/main.rs:50-58 | `get_one` keeps the pool's length, never fills an empty slot, and returns nothing exactly when every slot is empty |
| Legacy.Put | src/main.rs:60-67 | `put_back` keeps the pool's length and never overwrites an occupied slot |
| Legacy.ConnectionPool.constructor | src/main.rs:34-48 | a new pool has exactly `max_conns` slots, each holding a client |
| Legacy.ConnectionPool.GetOne | src/main.rs:50-58 | the scan returns and empties what `Take` specifies for the old slots |
| Legacy.ConnectionPool.PutBack | src/main.rs:60-67 | the scan leaves the slots `Put` specifies for the old slots |
| Legacy.FullPool | src/main.rs:34-47 | a pool with every slot filled counts all of them as occupied |
| Legacy.OccupiedAll | src/main.rs:60-67 | the count equals the length exactly when no slot is empty |
| Legacy.OccupiedClear | src/main.rs:50-58 | emptying an occupied slot lowers the count by one |
| Legacy.OccupiedFill | src/main.rs:60-67 | filling an empty slot raises the count by one |
| Legacy.TakeSpec | src/main.rs:50-58 | `get_one` returns nothing exactly when all slots are empty; otherwise it empties the lowest occupied slot, returns its client, leaves the other slots and the length unchanged, and lowers the count by one |
| Legacy.PutSpec | src/main.rs:60-67 | `put_back` fills the lowest empty slot, changes nothing else and raises the count by one; with no empty slot the pool is unchanged |
| Legacy.NoneOccupied | src/main.rs:50-58 | a pool with every slot empty counts zero |
| Legacy.BalancedTake | src/main.rs:103-112 | when occupied slots plus clients out equal the pool size, `get_one` succeeds while a client is left, and taking one keeps the balance |
| Legacy.BalancedPut | src/main.rs:154 | under the same balance, returning a client always finds an empty slot, never drops the client and keeps the balance |
| Legacy.Batches | src/main.rs:83 | the number of full batches times the task count is at most the iteration count, and one more batch would exceed it |
| Legacy.SlotIndexInBounds | src/main.rs:116-117 | every task's slot `i*tasks + j` lies below `batches*tasks`, which is at most `iterations` |
| Legacy.SlotIndexInjective | src/main.rs:116-117 | two different tasks never write the same slot |
| Legacy.SlotIndexCovers | src/main.rs:91-94 | every slot `n` below `batches*tasks` is written by task `n % tasks`, which is below `tasks`, of batch `n / tasks`, which is below `batches` |
| Legacy.DefaultBatchesFillAll | src/main.rs:7-9 | with 10 000 iterations and 100 tasks, every slot is written |
| Legacy.LegacyClassify | src/main.rs:119-152 | a request passes exactly when it received status 200 and, if a failure pattern is set, the body does not match it |
| Legacy.LegacyDiffersOnlyOnOther2xx | src/main.rs:119-152 | the two binaries disagree exactly on a non-matching 2xx response other than 200, which the older one counts as an error |
| Legacy.Task | src/main.rs:102-155 | a task writes exactly its own slot and classifies its response; `get_one` hands it a client, and the pool ends as `put_back` of that client into the slots the take left; the occupied count is unchanged |
| Legacy.CountedTask | src/main.rs:102-155 | after a task, including its counter update, the run has gone one slot further: one more take-and-return cycle of the pool, one more latency written, one more verdict counted |
| Legacy.BatchStep | src/main.rs:102-155 | one task at slot `n` takes the run's state from `n` slots done to `n + 1` |
| Legacy.RunBatch | src/main.rs:92-163 | the tasks of batch `i` take the run's state from `i*tasks` slots done to `(i+1)*tasks` |
| Legacy.RunBatches | src/main.rs:76-163 | after all batches the slots below `batches*tasks` hold their latencies and the rest stay 0; passes are the passing responses; passes plus errors is `batches*tasks`; the pool ends as `batches*tasks` take-and-return cycles of the initial pool and is as full as before |
| Legacy.FullCycle | src/main.rs:102-155 | on a full pool a task takes the client from the first slot and puts it back there |
| Legacy.FullCycles | src/main.rs:91-163 | so any number of tasks leave a full pool exactly as it was |
| Legacy.AcquireWithin | src/main.rs:103-110 | the retry loop yields a client only from a successful `get_one` attempt |
| Legacy.AcquireOccupied | src/main.rs:103-110 | with a client in the pool the first attempt succeeds |
| Legacy.EmptyPoolNeverAcquires | src/main.rs:103-110 | with zero connections `put_back` keeps the pool empty and no number of attempts yields a client |
| Legacy.Run | src/main.rs:71-91 | a connection count of zero is refused; otherwise a full pool of that many clients runs all batches with the results `RunBatches` states |
| Legacy.Sort | src/main.rs:198 | `vals.sort()` leaves the values ascending and a permutation of the input |
| Legacy.PercentileIndex | src/main.rs:199 | for a percentage up to 100 the index is in bounds |
| Legacy.Percentile | src/main.rs:197-202 | the vector ends sorted and a permutation of its input, and the result is the element at `floor((len-1)·perc/100)` |
| Legacy.PercentileIndexBounds | src/main.rs:199 | percentage 0 gives index 0, percentage 100 gives the last index, and the index never decreases as the percentage grows |
| Legacy.PercentileOrder | src/main.rs:197-202 | on sorted values the 0th percentile is the minimum, the 100th is the maximum, and the value never decreases as the percentage grows |

## Left out

- Concurrency is not modelled. That covers the tokio runtime, `spawn`/`join_all`, `Arc`/`Mutex` and atomic memory orderings. With several workers the shared total can overshoot the iteration bound. The model runs one worker (`Engine.Worker`), and the older binary's tasks run one after another (`Legacy.RunBatches`).
- Legacy.Task and Legacy.RunBatches require at least one client in the pool. With `--connections 0` the source's acquire loop (`src/main.rs:103-110`) never ends; it is modelled by `Legacy.AcquireWithin` and reported under "## Findings". `Legacy.Run` refuses that case.
- Legacy.Task takes its client in one attempt. With a client in the pool the first attempt of the retry loop succeeds (`Legacy.AcquireOccupied`), so repeating it is not modelled.
- Legacy.Batches requires a task count above zero. With `--concurrent-tasks 0` the source divides by zero at `src/main.rs:83` and panics; panics are not modelled.
- Legacy.Percentile requires a non-empty vector. With no samples the source panics before `percentile` is called, at `times.iter().min().unwrap()` (`src/main.rs:182`), and `vals.len() - 1` at `src/main.rs:199` would underflow.
- Legacy.Percentile requires the index to be in bounds. `Legacy.PercentileIndex` proves that for every percentage up to 100, which covers the six the binary asks for; a larger percentage would panic at `src/main.rs:201`.
- HTTP is not modelled. That covers reqwest client construction, TLS and certificate flags, reading the CA certificate file, sending requests and reading bodies. Each request's outcome is the input `Response`.
- Printing to stdout and stderr is not modelled, except the content of the `errors:` report line.
- The regular-expression engine behind `--failed-body` and its compile error are not modelled. A pattern is its `is_match` predicate.
- Clocks are inputs, not modelled. `Environment.clock` gives elapsed microseconds after the `as u64` cast; `Environment.latency` gives each request's measured microseconds.
- `ctrlc::set_handler` and `process::exit` are not modelled. Only the flag state machine and the exit status are kept.
- Engine.Worker: interrupts are handled only between two loop decisions, at most one per decision point. An interrupt that arrives during a request takes effect at the next decision.
- Engine.Metrics: hdrhistogram statistics are not modelled (mean, standard deviation, min/max, quantiles, 3-significant-digit bucketing). The histogram is its sample sequence, and `record` requires a sample of at most 10^12 µs, where the source panics.
- Floating-point report figures are not modelled: throughput, the error percentage, and the `Microseconds` display in `inquisitor-core/src/time.rs:5-20`.
- `inquisitor-core/src/microseconds.rs` is not part of this model. It duplicates the float formatting and is not declared as a module.
- DurationParse.ParseDuration computes with exact decimals instead of `f64`. For a fraction with no exact binary form, such as `"0.1s"`, the f64 product can be truncated differently. Below 2^53 µs the difference is at most one microsecond. Above 2^53 µs the f64 spacing grows, up to 2048 µs near `u64::MAX`, and a product just below `u64::MAX` can round up and saturate.
- DurationParse.IsRegexDigit: `\d` is Unicode general category Nd, taken from a fixed table of Unicode 15.0 digit blocks. The regex crate may follow a later Unicode version.
- Legacy.Percentile takes the percentage in tenths of a percent instead of as an `f64`. The six percentages the binary asks for are all whole tenths. The f64 rounding of `(len-1) * (perc/100)` is not modelled.
- Legacy.RunBatches does not model the older binary's report and its statistics. Those are float formatting and printing.
- Argument parsing is not modelled: `clap` and the field-by-field conversion into `Config` in `inquisitor/src/main.rs`.
- `inquisitor-core/src/error.rs` is not modelled beyond the `DurationParseError` constructor of the parser's result.
- `Box::leak` of the request body has no observable logic, and the request body and header values are not sent anywhere in the model.
- Integer widths follow a 64-bit target: `usize` equals `u64`. `as_micros` in the older binary is a `u128` and is kept unbounded.

## Findings

| source | as written | input that shows it | evidently intended | confidence | as-written member | corrected member |
|---|---|---|---|---|---|---|
| src/main.rs:103-110 | each task retries `get_one` until it gets a client, and `--connections` is never checked | `-c 0`: the pool has no slots, every attempt returns `None` and `put_back` has nowhere to store a client, so every task spins and the run never ends | a connection count of zero is refused before the run | not executed | Legacy.EmptyPoolNeverAcquires | Legacy.Run |
