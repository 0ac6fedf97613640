/** The load-test configuration and the resolution of the two optional run
    bounds (iteration count and duration) into the effective stop bound. */
module RunConfig {
  import opened Primitives

  /** Default run duration, in seconds, when neither bound is given. */
  const DEFAULT_DURATION_SECS: nat := 20

  const MICROS_PER_SEC: nat := 1_000_000
  const NANOS_PER_MICRO: nat := 1_000
  const NANOS_PER_SEC: nat := 1_000_000_000

  /** A `std::time::Duration`: whole seconds plus a sub-second part in
      nanoseconds. */
  datatype Duration = Duration(secs: nat, nanos: nat)
  {
    ghost predicate Valid() { secs <= U64_MAX && nanos < NANOS_PER_SEC }

    /** `Duration::as_micros`: whole microseconds, sub-microsecond part dropped. */
    function AsMicros(): (m: nat)
      requires Valid()
      ensures m * NANOS_PER_MICRO <= secs * NANOS_PER_SEC + nanos < (m + 1) * NANOS_PER_MICRO
    {
      secs * MICROS_PER_SEC + nanos / NANOS_PER_MICRO
    }
  }

  /** `Duration::from_micros` */
  function FromMicros(m: nat): (d: Duration)
    requires m <= U64_MAX
    ensures d.Valid() && d.AsMicros() == m
  {
    Duration(m / MICROS_PER_SEC, (m % MICROS_PER_SEC) * NANOS_PER_MICRO)
  }

  /** HTTP method of the requests; `Get` is the default. */
  datatype Method = Get | Post

  /** The configuration of a load-test run. */
  datatype Config = Config(
    url: string,
    iterations: Option<nat>,
    connections: nat,
    printResponse: bool,
    failedBody: Option<string>,
    insecure: bool,
    httpMethod: Method,
    requestBody: Option<string>,
    header: seq<string>,
    hideErrors: bool,
    duration: Option<Duration>,
    caCert: Option<string>)
  {
    ghost predicate Valid() {
      && (iterations.Some? ==> iterations.value <= USIZE_MAX)
      && connections <= USIZE_MAX
      && (duration.Some? ==> duration.value.Valid())
    }
  }

  /** The configuration `#[derive(Default)]` builds: every option absent,
      every flag off, no connections and the default method. */
  function DefaultConfig(): (c: Config)
    ensures c.Valid()
    ensures c.httpMethod == Get
    ensures c.iterations.None? && c.duration.None?
  {
    Config("", None, 0, false, None, false, Get, None, [], false, None, None)
  }

  /** The effective stop bound: at most `maxIterations` requests and at most
      `maxDurationMicros` microseconds of run time. */
  datatype StopBound = StopBound(maxIterations: nat, maxDurationMicros: nat)

  /** The duration bound the user asked for, as the u64 microsecond count the
      engine compares against (`d.as_micros() as u64`). */
  function DurationMicros(d: Duration): (m: nat)
    requires d.Valid()
    ensures m <= U64_MAX
    ensures d.AsMicros() <= U64_MAX ==> m == d.AsMicros()
  {
    TruncateToU64(d.AsMicros())
  }

  /** `Config::iterations_and_duration`: resolves the two optional bounds.
      A bound the user gives is passed through; an absent iteration count is
      `usize::MAX`; an absent duration is `u64::MAX` if an iteration count is
      given and the 20 s default otherwise. */
  function IterationsAndDuration(c: Config): (b: StopBound)
    requires c.Valid()
    ensures c.iterations.Some? ==> b.maxIterations == c.iterations.value
    ensures c.iterations.None? ==> b.maxIterations == USIZE_MAX
    ensures c.duration.Some? && c.duration.value.AsMicros() <= U64_MAX ==>
              b.maxDurationMicros == c.duration.value.AsMicros()
    ensures c.duration.None? && c.iterations.Some? ==> b.maxDurationMicros == U64_MAX
    ensures c.duration.None? && c.iterations.None? ==>
              b.maxDurationMicros == DEFAULT_DURATION_SECS * MICROS_PER_SEC
    ensures b.maxIterations <= USIZE_MAX && b.maxDurationMicros <= U64_MAX
  {
    match (c.iterations, c.duration)
    case (None, None) => StopBound(USIZE_MAX, DEFAULT_DURATION_SECS * 1_000_000)
    case (Some(i), None) => StopBound(i, U64_MAX)
    case (None, Some(d)) => StopBound(USIZE_MAX, DurationMicros(d))
    case (Some(i), Some(d)) => StopBound(i, DurationMicros(d))
  }

  /** The bound is never fully unbounded unless the user literally asked for
      `usize::MAX` iterations or a duration of `u64::MAX` microseconds (modulo
      the u64 truncation of the cast). */
  lemma NeverBothUnbounded(c: Config)
    requires c.Valid()
    ensures IterationsAndDuration(c) == StopBound(USIZE_MAX, U64_MAX) ==>
              (c.iterations == Some(USIZE_MAX)
                   || (c.duration.Some? && DurationMicros(c.duration.value) == U64_MAX))
  {
  }

  /** The sentinel maxima appear only in place of an absent field: a bound
      that differs from the user's value comes from a field left out. */
  lemma SentinelsOnlyForAbsentFields(c: Config)
    requires c.Valid()
    ensures IterationsAndDuration(c).maxIterations != USIZE_MAX ==>
              c.iterations == Some(IterationsAndDuration(c).maxIterations)
    ensures IterationsAndDuration(c).maxDurationMicros != U64_MAX && c.duration.None? ==>
              c.iterations.None? && IterationsAndDuration(c).maxDurationMicros == 20_000_000
  {
  }

  /** With nothing given the run lasts the default 20 s and is not limited
      by count, as for `DefaultConfig()`. */
  lemma DefaultConfigBound()
    ensures IterationsAndDuration(DefaultConfig()) == StopBound(USIZE_MAX, 20_000_000)
  {
  }
}
