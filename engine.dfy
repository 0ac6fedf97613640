/** The request engine of one load-test run: header parsing, the
    classification of every response as a pass or an error, the two-stage
    interrupt flag, the shared counters and latency samples, the loop one
    worker runs, and the totals line of the report.

    The HTTP client, the clock and the interrupt source are the environment:
    what a request returns, how long it took and when the clock and the
    signals are read are inputs. A compiled regular expression is represented
    by its `is_match` predicate. */
module Engine {
  import opened Primitives
  import opened RunConfig
  import DurationParse

  // ---------------------------------------------------------------------
  // Headers

  /** `str::split_once(sep)`: the text before the first `sep` and the text
      after it, or nothing when `sep` does not occur. */
  function SplitOnce(s: string, sep: char): (r: Option<(string, string)>)
    ensures r.None? <==> sep !in s
    ensures r.Some? ==> s == r.value.0 + [sep] + r.value.1 && sep !in r.value.0
  {
    if s == [] then None
    else if s[0] == sep then Some(([], s[1..]))
    else
      match SplitOnce(s[1..], sep)
      case None => None
      case Some((before, after)) =>
        assert s == [s[0]] + s[1..];
        Some(([s[0]] + before, after))
  }

  /** The key/value pair a `KEY:VALUE` header entry contributes, if any. */
  function HeaderEntry(entry: string): Option<(string, string)> {
    SplitOnce(entry, ':')
  }

  /** The header map built from the entries in order: an entry without `:`
      is skipped, and a later entry overwrites an earlier one with the same
      key. */
  function HeaderMap(entries: seq<string>): (m: map<string, string>)
    ensures |m| <= |entries|
  {
    if entries == [] then map[]
    else
      var m := HeaderMap(entries[..|entries| - 1]);
      match HeaderEntry(entries[|entries| - 1])
      case None => m
      case Some((k, v)) =>
        assert m[k := v].Keys == m.Keys + {k};
        assert |m.Keys + {k}| <= |m.Keys| + 1;
        m[k := v]
  }

  /** The header-building loop of `run`. */
  method ParseHeaders(entries: seq<string>) returns (headers: map<string, string>)
    ensures headers == HeaderMap(entries)
  {
    headers := map[];
    for i := 0 to |entries|
      invariant headers == HeaderMap(entries[..i])
    {
      assert entries[..i + 1][..i] == entries[..i];
      match SplitOnce(entries[i], ':') {
        case Some((k, v)) => headers := headers[k := v];
        case None =>
      }
    }
    assert entries[..|entries|] == entries;
  }

  /** Entry `i` supplies key `k`. */
  ghost predicate SuppliesKey(entries: seq<string>, i: int, k: string)
    requires 0 <= i < |entries|
  {
    HeaderEntry(entries[i]).Some? && HeaderEntry(entries[i]).value.0 == k
  }

  /** A key is in the map exactly when some entry contains a `:` and has
      that key before its first `:`; its value is everything after the first
      `:` of the LAST such entry, unchanged. */
  lemma {:induction false} HeaderMapContents(entries: seq<string>, k: string)
    ensures k in HeaderMap(entries) <==> exists i :: 0 <= i < |entries| && SuppliesKey(entries, i, k)
    ensures k in HeaderMap(entries) ==>
              exists i :: 0 <= i < |entries| && SuppliesKey(entries, i, k)
                && entries[i] == k + [':'] + HeaderMap(entries)[k]
                && forall j :: i < j < |entries| ==> !SuppliesKey(entries, j, k)
  {
    if entries != [] {
      var init := entries[..|entries| - 1];
      var last := |entries| - 1;
      HeaderMapContents(init, k);
      assert forall i :: 0 <= i < |init| ==> (SuppliesKey(init, i, k) <==> SuppliesKey(entries, i, k)) by {
        forall i | 0 <= i < |init| ensures SuppliesKey(init, i, k) <==> SuppliesKey(entries, i, k) {
          assert init[i] == entries[i];
        }
      }
      if SuppliesKey(entries, last, k) {
        assert HeaderMap(entries)[k] == HeaderEntry(entries[last]).value.1;
      } else if k in HeaderMap(entries) {
        var i :| 0 <= i < |init| && SuppliesKey(init, i, k)
                 && init[i] == k + [':'] + HeaderMap(init)[k]
                 && forall j :: i < j < |init| ==> !SuppliesKey(init, j, k);
        assert entries[i] == init[i];
        assert forall j :: i < j < |entries| ==> !SuppliesKey(entries, j, k) by {
          forall j | i < j < |entries| ensures !SuppliesKey(entries, j, k) {
            if j < |init| { assert !SuppliesKey(init, j, k); }
          }
        }
      }
    }
  }

  // ---------------------------------------------------------------------
  // Classification of a response

  /** What one request returned: a transport-level failure, or a status code
      and the body text. */
  datatype Response = TransportError | Received(status: nat, body: string)

  /** A compiled failure-body pattern, as its `is_match` test. */
  type Regex = string -> bool

  /** `StatusCode::is_success`: the 2xx Successful class (section 15.3 of
      RFC 9110). */
  function IsSuccess(status: nat): (r: bool)
    ensures r <==> status / 100 == 2
  {
    200 <= status <= 299
  }

  /** The arm of the response `match` that a request takes. */
  datatype Arm =
    | SuccessNoPattern     // 2xx, no failure pattern
    | SuccessBodyClean     // 2xx, pattern set, body does not match
    | SuccessBodyMatched   // 2xx, pattern set, body matches
    | NotSuccess           // any other status
    | RequestFailed        // transport error

  datatype Verdict = Pass | Fail

  /** The arm a 2xx response takes when a failure pattern is set. */
  function BodyArm(body: string, isMatch: Regex): Arm {
    if isMatch(body) then SuccessBodyMatched else SuccessBodyClean
  }

  /** The guarded arms in the order the source tests them. Its final
      catch-all arm is unreachable; the `assert false` there is proved. */
  function MatchArm(response: Response, failedRegex: Option<Regex>): (a: Arm)
    ensures a == RequestFailed <==> response.TransportError?
    ensures a == NotSuccess <==> response.Received? && !IsSuccess(response.status)
    ensures a == SuccessNoPattern <==> response.Received? && IsSuccess(response.status) && failedRegex.None?
  {
    if response.Received? && IsSuccess(response.status) && failedRegex.None? then SuccessNoPattern
    else if response.Received? && IsSuccess(response.status) && failedRegex.Some? then
      BodyArm(response.body, failedRegex.value)
    else if response.Received? && !IsSuccess(response.status) then NotSuccess
    else if response.TransportError? then RequestFailed
    else assert false; RequestFailed
  }

  /** Which counter an arm increments. */
  function ArmVerdict(a: Arm): Verdict {
    match a
    case SuccessNoPattern => Pass
    case SuccessBodyClean => Pass
    case SuccessBodyMatched => Fail
    case NotSuccess => Fail
    case RequestFailed => Fail
  }

  /** A request passes exactly when it returned a 2xx status and, if a
      failure pattern is set, its body does not match the pattern. */
  function Classify(response: Response, failedRegex: Option<Regex>): (v: Verdict)
    ensures v == Pass <==>
              && response.Received?
              && IsSuccess(response.status)
              && (failedRegex.None? || !failedRegex.value(response.body))
  {
    ArmVerdict(MatchArm(response, failedRegex))
  }

  // ---------------------------------------------------------------------
  // The interrupt flag

  /** The process exit status after a second interrupt. */
  const SECOND_INTERRUPT_EXIT: int := 130

  /** One run of the interrupt handler on a flag that was `wasSet`: the flag
      is set afterwards, and the process exits with status 130 exactly when it
      was already set. */
  function HandleInterrupt(wasSet: bool): (r: (bool, Option<int>))
    ensures r.0
    ensures r.1.Some? <==> wasSet
    ensures r.1.Some? ==> r.1.value == SECOND_INTERRUPT_EXIT
  {
    (true, if wasSet then Some(SECOND_INTERRUPT_EXIT) else None)
  }

  /** The `should_exit` flag shared by the interrupt handler and the workers. */
  class ExitFlag {
    var isSet: bool

    constructor ()
      ensures !isSet
    {
      isSet := false;
    }

    /** The interrupt handler: `fetch_or(true)`, then exit with status 130 if
        the flag had been set before. */
    method OnInterrupt() returns (exitCode: Option<int>)
      modifies this
      ensures (isSet, exitCode) == HandleInterrupt(old(isSet))
    {
      var previouslySet := isSet;
      isSet := true;
      exitCode := if previouslySet then Some(SECOND_INTERRUPT_EXIT) else None;
    }
  }

  /** The flag and the exit status after `n` interrupts, starting from a flag
      that was `wasSet`; handling stops at the first exit. */
  function AfterInterrupts(n: nat, wasSet: bool): (bool, Option<int>) {
    if n == 0 then (wasSet, None)
    else
      var (nowSet, exitCode) := HandleInterrupt(wasSet);
      if exitCode.Some? then (nowSet, exitCode) else AfterInterrupts(n - 1, nowSet)
  }

  /** From a clear flag: no interrupt leaves it clear, the first sets it
      without exiting, and the second exits with status 130; the flag never
      goes back from set to clear. */
  lemma {:induction false} TwoStageInterrupt(n: nat)
    ensures n == 0 ==> AfterInterrupts(n, false) == (false, None)
    ensures n == 1 ==> AfterInterrupts(n, false) == (true, None)
    ensures n >= 2 ==> AfterInterrupts(n, false) == (true, Some(SECOND_INTERRUPT_EXIT))
    ensures n >= 1 ==> AfterInterrupts(n, true) == (true, Some(SECOND_INTERRUPT_EXIT))
  {
    if n >= 2 {
      assert AfterInterrupts(n, false) == AfterInterrupts(n - 1, true);
      assert AfterInterrupts(n - 1, true) == (true, Some(SECOND_INTERRUPT_EXIT));
    }
  }

  // ---------------------------------------------------------------------
  // Shared counters and latency samples

  /** Largest latency the histogram is built to track, in microseconds. */
  const HISTOGRAM_MAX: nat := 1_000_000_000_000

  /** The pass and error counters and the latency histogram of a run; the
      histogram is kept as the sequence of its samples. */
  class Metrics {
    var passes: nat
    var errors: nat
    var samples: seq<nat>

    constructor ()
      ensures passes == 0 && errors == 0 && samples == []
    {
      passes, errors, samples := 0, 0, [];
    }

    /** `Histogram::record`; a sample above the histogram's maximum is a
        fatal setup defect, so callers must not pass one. */
    method Record(micros: nat)
      requires micros <= HISTOGRAM_MAX
      modifies this
      ensures samples == old(samples) + [micros]
      ensures passes == old(passes) && errors == old(errors)
    {
      samples := samples + [micros];
    }

    method CountPass()
      modifies this
      ensures passes == old(passes) + 1
      ensures errors == old(errors) && samples == old(samples)
    {
      passes := passes + 1;
    }

    method CountError()
      modifies this
      ensures errors == old(errors) + 1
      ensures passes == old(passes) && samples == old(samples)
    {
      errors := errors + 1;
    }
  }

  // ---------------------------------------------------------------------
  // One worker

  /** What the world does while one worker runs, by request number `k`
      (the number of requests the worker has completed so far):
      `response(k)` and `latency(k)` are the outcome and measured time of
      request `k`; `clock(k)` is the elapsed run time, in microseconds,
      read before deciding on request `k`; `signal(k)` says an interrupt is
      handled just before that decision. */
  datatype Environment = Environment(
    response: nat -> Response,
    latency: nat -> nat,
    clock: nat -> nat,
    signal: nat -> bool)

  ghost predicate LatenciesTrackable(env: Environment) {
    forall k: nat :: env.latency(k) <= HISTOGRAM_MAX
  }

  /** The loop guard together with the exit-flag check at its top: a new
      request starts only if fewer than the maximum were counted, the run has
      not reached its duration bound, and no interrupt was seen. */
  function ShouldContinue(total: nat, elapsed: nat, exiting: bool, bound: StopBound): (r: bool)
    ensures r ==> Remaining(total, bound) > 0 && Remaining(total + 1, bound) < Remaining(total, bound)
    ensures exiting ==> !r
  {
    total < bound.maxIterations && elapsed < bound.maxDurationMicros && !exiting
  }

  /** The run state a worker sees: the shared counters and samples and the
      exit flag. */
  datatype WorkerState = WorkerState(passes: nat, errors: nat, samples: seq<nat>, exiting: bool)
  {
    function Total(): nat { passes + errors }
  }

  /** How a worker's loop ended: the final state, the process exit status if
      a second interrupt ended the process, and the number of requests made. */
  datatype WorkerEnd = WorkerEnd(state: WorkerState, exitCode: Option<int>, requests: nat)

  /** The effect of one request: its latency is recorded, and exactly one of
      the two counters goes up by one, the pass counter exactly when the
      response is classified as a pass. */
  function AfterRequest(st: WorkerState, response: Response, latency: nat, failedRegex: Option<Regex>): (r: WorkerState)
    ensures r.Total() == st.Total() + 1
    ensures r.passes == st.passes + 1 <==> Classify(response, failedRegex) == Pass
    ensures r.errors == st.errors + 1 <==> Classify(response, failedRegex) == Fail
    ensures r.samples == st.samples + [latency] && r.exiting == st.exiting
  {
    match Classify(response, failedRegex)
    case Pass => st.(passes := st.passes + 1, samples := st.samples + [latency])
    case Fail => st.(errors := st.errors + 1, samples := st.samples + [latency])
  }

  function Remaining(total: nat, bound: StopBound): nat {
    if total <= bound.maxIterations then bound.maxIterations - total else 0
  }

  /** Every request `j` in `[from, to)` started before the duration bound,
      with no interrupt delivered at its decision. */
  predicate Admitted(bound: StopBound, env: Environment, from: nat, to: nat) {
    forall j :: from <= j < to ==> env.clock(j) < bound.maxDurationMicros && !env.signal(j)
  }

  /** The worker loop from request `k` on, starting in state `st`. When it
      ends normally its guard is false; otherwise a second interrupt ended
      the process with status 130. Every request adds one to the total and
      one sample, and the total never passes the iteration bound. */
  function RunWorker(bound: StopBound, failedRegex: Option<Regex>, env: Environment, k: nat, st: WorkerState): (r: WorkerEnd)
    ensures r.requests >= k
    ensures r.state.Total() == st.Total() + (r.requests - k)
    ensures |r.state.samples| == |st.samples| + (r.requests - k)
    ensures r.state.samples[..|st.samples|] == st.samples
    ensures r.exitCode.None? ==>
              !ShouldContinue(r.state.Total(), env.clock(r.requests), r.state.exiting, bound)
    ensures r.exitCode.Some? ==> r.exitCode == Some(SECOND_INTERRUPT_EXIT)
    ensures st.exiting ==> r.state.exiting
    ensures r.requests > k ==> r.state.Total() <= bound.maxIterations
    ensures Admitted(bound, env, k, r.requests)
    ensures st.exiting ==> r.requests == k
    decreases Remaining(st.Total(), bound)
  {
    var (exiting, exitCode) := if env.signal(k) then HandleInterrupt(st.exiting) else (st.exiting, None);
    var st' := st.(exiting := exiting);
    if exitCode.Some? then WorkerEnd(st', exitCode, k)
    else if !ShouldContinue(st'.Total(), env.clock(k), st'.exiting, bound) then WorkerEnd(st', None, k)
    else
      var next := AfterRequest(st', env.response(k), env.latency(k), failedRegex);
      RunWorker(bound, failedRegex, env, k + 1, next)
  }

  function Snapshot(metrics: Metrics, flag: ExitFlag): WorkerState
    reads metrics, flag
  {
    WorkerState(metrics.passes, metrics.errors, metrics.samples, flag.isSet)
  }

  /** One decision of the worker loop, unfolded: an interrupt that ends the
      process, the guard failing, or one more request. */
  lemma RunWorkerStep(bound: StopBound, failedRegex: Option<Regex>, env: Environment, k: nat, st: WorkerState)
    ensures var (exiting, exitCode) := if env.signal(k) then HandleInterrupt(st.exiting) else (st.exiting, None);
            var st' := st.(exiting := exiting);
            RunWorker(bound, failedRegex, env, k, st) ==
              if exitCode.Some? then WorkerEnd(st', exitCode, k)
              else if !ShouldContinue(st'.Total(), env.clock(k), st'.exiting, bound) then WorkerEnd(st', None, k)
              else RunWorker(bound, failedRegex, env, k + 1, AfterRequest(st', env.response(k), env.latency(k), failedRegex))
  {
  }

  /** The body of the worker loop after the request: the latency goes into
      the histogram and the response's verdict into one of the counters. */
  method RecordRequest(metrics: Metrics, flag: ExitFlag, response: Response, latency: nat, failedRegex: Option<Regex>)
    requires latency <= HISTOGRAM_MAX
    modifies metrics
    ensures Snapshot(metrics, flag) == AfterRequest(old(Snapshot(metrics, flag)), response, latency, failedRegex)
  {
    metrics.Record(latency);
    match Classify(response, failedRegex) {
      case Pass => metrics.CountPass();
      case Fail => metrics.CountError();
    }
  }

  /** The loop of one spawned worker, run on its own: it re-reads the
      counters and the clock after every request, checks the exit flag at
      the top of every iteration, and records, classifies and counts every
      request it makes. An interrupt handled between two decisions may end
      the process. */
  method Worker(metrics: Metrics, flag: ExitFlag, bound: StopBound, failedRegex: Option<Regex>, env: Environment)
    returns (exitCode: Option<int>, requests: nat)
    requires LatenciesTrackable(env)
    modifies metrics, flag
    ensures WorkerEnd(Snapshot(metrics, flag), exitCode, requests)
              == RunWorker(bound, failedRegex, env, 0, old(Snapshot(metrics, flag)))
  {
    ghost var outcome := RunWorker(bound, failedRegex, env, 0, Snapshot(metrics, flag));
    var k := 0;
    var total := metrics.passes + metrics.errors;
    var elapsed := env.clock(0);
    exitCode := None;
    while true
      invariant RunWorker(bound, failedRegex, env, k, Snapshot(metrics, flag)) == outcome
      invariant total == metrics.passes + metrics.errors && elapsed == env.clock(k)
      invariant exitCode.None?
      decreases Remaining(total, bound)
    {
      RunWorkerStep(bound, failedRegex, env, k, Snapshot(metrics, flag));
      if env.signal(k) {
        exitCode := flag.OnInterrupt();
        if exitCode.Some? {
          break;
        }
      }
      if !(total < bound.maxIterations && elapsed < bound.maxDurationMicros) || flag.isSet {
        break;
      }
      RecordRequest(metrics, flag, env.response(k), env.latency(k), failedRegex);
      total := metrics.passes + metrics.errors;
      k := k + 1;
      elapsed := env.clock(k);
    }
    requests := k;
  }

  // ---------------------------------------------------------------------
  // Properties of a worker's run

  /** Nothing interrupts the worker from request `k` on, and the clock stays
      below the duration bound. */
  ghost predicate Undisturbed(env: Environment, bound: StopBound, k: nat) {
    forall j: nat :: j >= k ==> !env.signal(j) && env.clock(j) < bound.maxDurationMicros
  }

  /** The latencies of `n` consecutive requests starting at request `k`. */
  function LatencySeq(env: Environment, k: nat, n: nat): (s: seq<nat>)
    ensures |s| == n
    decreases n
  {
    if n == 0 then [] else [env.latency(k)] + LatencySeq(env, k + 1, n - 1)
  }

  /** Bounded only by count (and not interrupted, and within the duration
      bound), a worker makes exactly as many requests as the count allows,
      ends with that total, and records one sample per request, in order. */
  lemma {:induction false} RunsToIterationBound(bound: StopBound, failedRegex: Option<Regex>, env: Environment, k: nat, st: WorkerState)
    requires Undisturbed(env, bound, k)
    requires !st.exiting && st.Total() <= bound.maxIterations
    ensures var r := RunWorker(bound, failedRegex, env, k, st);
            && r.exitCode.None?
            && r.requests == k + (bound.maxIterations - st.Total())
            && r.state.Total() == bound.maxIterations
            && r.state.samples == st.samples + LatencySeq(env, k, r.requests - k)
    decreases bound.maxIterations - st.Total()
  {
    RunWorkerStep(bound, failedRegex, env, k, st);
    assert !env.signal(k) && env.clock(k) < bound.maxDurationMicros;
    if st.Total() < bound.maxIterations {
      var next := AfterRequest(st, env.response(k), env.latency(k), failedRegex);
      assert RunWorker(bound, failedRegex, env, k, st) == RunWorker(bound, failedRegex, env, k + 1, next);
      assert Undisturbed(env, bound, k + 1);
      RunsToIterationBound(bound, failedRegex, env, k + 1, next);
      LatencySeqStep(env, k, bound.maxIterations - st.Total(), st.samples);
    }
  }

  /** Recording request `k`'s latency and then `n - 1` more is recording `n`
      latencies from `k`. */
  lemma LatencySeqStep(env: Environment, k: nat, n: nat, samples: seq<nat>)
    requires n > 0
    ensures samples + LatencySeq(env, k, n) == (samples + [env.latency(k)]) + LatencySeq(env, k + 1, n - 1)
  {
    assert LatencySeq(env, k, n) == [env.latency(k)] + LatencySeq(env, k + 1, n - 1);
    assert samples + ([env.latency(k)] + LatencySeq(env, k + 1, n - 1))
        == (samples + [env.latency(k)]) + LatencySeq(env, k + 1, n - 1);
  }

  /** When every response is a pass the error counter does not move, and when
      every response is a failure the pass counter does not move. */
  lemma {:induction false} UniformResponses(bound: StopBound, failedRegex: Option<Regex>, env: Environment, k: nat, st: WorkerState)
    ensures (forall j: nat :: Classify(env.response(j), failedRegex) == Pass) ==>
              RunWorker(bound, failedRegex, env, k, st).state.errors == st.errors
    ensures (forall j: nat :: Classify(env.response(j), failedRegex) == Fail) ==>
              RunWorker(bound, failedRegex, env, k, st).state.passes == st.passes
    decreases Remaining(st.Total(), bound)
  {
    var (exiting, exitCode) := if env.signal(k) then HandleInterrupt(st.exiting) else (st.exiting, None);
    var st' := st.(exiting := exiting);
    if exitCode.None? && ShouldContinue(st'.Total(), env.clock(k), st'.exiting, bound) {
      UniformResponses(bound, failedRegex, env, k + 1, AfterRequest(st', env.response(k), env.latency(k), failedRegex));
    }
  }

  /** A first interrupt stops the worker at its next decision without ending
      the process; an interrupt while the flag is already set ends the process
      with status 130 before any further request. */
  lemma InterruptStopsWorker(bound: StopBound, failedRegex: Option<Regex>, env: Environment, k: nat, st: WorkerState)
    requires env.signal(k)
    ensures var r := RunWorker(bound, failedRegex, env, k, st);
            && r.requests == k
            && r.state.exiting
            && (r.exitCode == Some(SECOND_INTERRUPT_EXIT) <==> st.exiting)
  {
  }

  // ---------------------------------------------------------------------
  // The report's error line

  /** The decimal text of `n`, as `{}` formats a `usize`. */
  function DecimalString(n: nat): (s: string)
    ensures s != [] && DurationParse.AllAsciiDigits(s)
    ensures |s| > 1 ==> s[0] != '0'
  {
    var last := ['0' + (n % 10) as char];
    if n < 10 then last else DecimalString(n / 10) + last
  }

  /** Reading the decimal text back gives the number. */
  lemma {:induction false} DecimalStringRoundTrip(n: nat)
    ensures DurationParse.DecimalValue(DecimalString(n)) == n
  {
    var s := DecimalString(n);
    if n >= 10 {
      DecimalStringRoundTrip(n / 10);
      assert s[..|s| - 1] == DecimalString(n / 10);
    } else {
      assert s[..0] == [];
    }
  }

  /** The `errors: <errors>/<total>` line of the report, and whether the
      percentage suffix follows it. */
  datatype ErrorsLine = ErrorsLine(text: string, withPercentage: bool)

  /** The total is passes plus errors; the percentage is printed only when
      there was an error. */
  function ReportErrors(passes: nat, errors: nat): (line: ErrorsLine)
    ensures line.withPercentage <==> errors > 0
    ensures exists e, t ::
              line.text == "errors: " + e + "/" + t
              && DurationParse.AllAsciiDigits(e) && DurationParse.DecimalValue(e) == errors
              && DurationParse.AllAsciiDigits(t) && DurationParse.DecimalValue(t) == passes + errors
  {
    DecimalStringRoundTrip(errors);
    DecimalStringRoundTrip(passes + errors);
    ErrorsLine("errors: " + DecimalString(errors) + "/" + DecimalString(passes + errors), errors > 0)
  }

  // ---------------------------------------------------------------------
  // Scenarios

  /** A single worker run with `-n 1` against an endpoint answering 200
      "I was hit." makes one request, which passes, and the report reads
      "errors: 0/1" without a percentage. */
  lemma OneRequestScenario(env: Environment)
    requires forall j: nat :: env.response(j) == Received(200, "I was hit.")
    requires forall j: nat :: !env.signal(j) && env.clock(j) < U64_MAX
    ensures var config := DefaultConfig().(iterations := Some(1));
            var r := RunWorker(IterationsAndDuration(config), None, env, 0, WorkerState(0, 0, [], false));
            && r.requests == 1
            && r.state.passes == 1 && r.state.errors == 0
            && ReportErrors(r.state.passes, r.state.errors) == ErrorsLine("errors: 0/1", false)
  {
    var config := DefaultConfig().(iterations := Some(1));
    var bound := IterationsAndDuration(config);
    assert bound == StopBound(1, U64_MAX);
    var st0 := WorkerState(0, 0, [], false);
    RunsToIterationBound(bound, None, env, 0, st0);
    UniformResponses(bound, None, env, 0, st0);
    assert DecimalString(0) == "0" && DecimalString(1) == "1";
  }

  /** A failure pattern that matches the body turns a 200 into an error:
      the error counter goes up and the pass counter does not. */
  lemma PatternMatchedBodyFails(failedRegex: Regex, st: WorkerState, latency: nat)
    requires failedRegex("internal error occurred")
    ensures var response := Received(200, "internal error occurred");
            && Classify(response, Some(failedRegex)) == Fail
            && AfterRequest(st, response, latency, Some(failedRegex)).errors == st.errors + 1
            && AfterRequest(st, response, latency, Some(failedRegex)).passes == st.passes
  {
  }
}
