/**
 * `BatchApplication.main`: the interval rule, the probe task, the startup
 * sequence and the shutdown hook.
 */
module BatchApplication {
  import opened Wrappers
  import opened JavaLang
  import opened Trace
  import opened AppConfig
  import opened Lifecycle
  import Health = HealthServer
  import Metrics = MetricsServer

  const IntervalKey: string := "INTERVAL_SECONDS"
  const DefaultIntervalSeconds: int := 30

  /**
   * `Integer.parseInt(getOrDefault("INTERVAL_SECONDS", "30"))`, falling back
   * to 30 when the parse throws.
   */
  function IntervalSeconds(env: Env): (n: int)
    ensures InInt32(n)
    ensures IntervalKey !in env ==> n == DefaultIntervalSeconds
    ensures IntervalKey in env && ParseInt(env[IntervalKey]).Some? ==> n == ParseInt(env[IntervalKey]).value
    ensures IntervalKey in env && ParseInt(env[IntervalKey]).None? ==> n == DefaultIntervalSeconds
  {
    var text := Getenv(env, IntervalKey).GetOr(ShowInt(DefaultIntervalSeconds));
    ParseShowRoundTrip(DefaultIntervalSeconds);
    ParseInt(text).GetOr(DefaultIntervalSeconds)
  }

  /** `String.valueOf(n)` of every int32 `n` is taken as it is: no range check, so zero and negative intervals pass. */
  lemma IntervalTakesAnyLiteral(env: Env, n: int)
    requires InInt32(n)
    ensures IntervalSeconds(env[IntervalKey := ShowInt(n)]) == n
  {
    ParseShowRoundTrip(n);
  }

  /**
   * Every decimal literal is taken at its value, leading zeros and a `+`
   * included, whenever it is in the int32 range; out of range it gives the default.
   */
  lemma IntervalTakesEveryLiteral(env: Env, sign: string, digits: string)
    requires sign == "" || sign == "+" || sign == "-"
    requires |digits| > 0 && AllDigits(digits)
    ensures var v: int := if sign == "-" then -(DigitsValue(digits) as int) else DigitsValue(digits);
      IntervalSeconds(env[IntervalKey := sign + digits]) == if InInt32(v) then v else DefaultIntervalSeconds
  {
    ParseIntValue(sign, digits);
  }

  /** An empty, blank or padded value does not parse, so it gives the default. */
  lemma IntervalRejectsPadding(env: Env, v: string)
    requires v == [] || IsTrimmed(v[0]) || IsTrimmed(v[|v| - 1])
    ensures IntervalSeconds(env[IntervalKey := v]) == DefaultIntervalSeconds
  {
    ParseIntRejectsPadding(v);
  }

  /**
   * The scheduled task: a `false` result and any exception from
   * `runHealthQuery` each end in one log line; nothing escapes the probe task.
   */
  function ProbeTask(outcome: QueryOutcome): (t: seq<ProbeStep>)
    ensures |t| >= 2 && t[..2] == [LogStarting, RunHealthQuery]
    ensures |t| == 2 <==> outcome == Returned(true)
    ensures outcome == Returned(false) ==> t == [LogStarting, RunHealthQuery, LogQueryFailed]
    ensures outcome == Threw ==> t == [LogStarting, RunHealthQuery, LogUnexpectedError]
  {
    var started := [LogStarting, RunHealthQuery];
    match outcome
    case Threw => started + [LogUnexpectedError]
    case Returned(success) => if success then started else started + [LogQueryFailed]
  }

  /**
   * What `main` does, in order, given what the configuration calls return:
   * build the pool, validate the query, start the health server, start the
   * metrics server (a failure is only logged), schedule the probe, register
   * the hook. A configuration error ends `main`.
   */
  function StartupPlan(dataSource: Result<DataSourceSetup, ConfigError>, query: Result<string, ConfigError>,
                       intervalSeconds: int, healthBindOk: bool, metricsBindOk: bool): seq<StartupStep>
  {
    match dataSource
    case Failure(e) => [Abort(Config(e))]
    case Success(setup) =>
      match query
      case Failure(e) => [CreatePool(setup.settings), Abort(Config(e))]
      case Success(q) =>
        [CreatePool(setup.settings), ValidateQuery(q), HealthStart(healthBindOk), MetricsStart(metricsBindOk),
         ScheduleProbe(ProbeInitialDelaySeconds, intervalSeconds), RegisterShutdownHook]
  }

  /**
   * Listener start failures are contained: whatever each bind does, the
   * probe is scheduled and the hook registered exactly when the configuration
   * is valid, and nothing aborts after the configuration has been read.
   */
  lemma ListenerFailuresAreContained(dataSource: Result<DataSourceSetup, ConfigError>, query: Result<string, ConfigError>,
                                     intervalSeconds: int, healthBindOk: bool, metricsBindOk: bool)
    ensures RegisterShutdownHook in StartupPlan(dataSource, query, intervalSeconds, healthBindOk, metricsBindOk)
            <==> dataSource.Success? && query.Success?
    ensures ScheduleProbe(ProbeInitialDelaySeconds, intervalSeconds) in StartupPlan(dataSource, query, intervalSeconds, healthBindOk, metricsBindOk)
            <==> dataSource.Success? && query.Success?
    ensures Abort(MetricsStartFailed) !in StartupPlan(dataSource, query, intervalSeconds, healthBindOk, metricsBindOk)
  {
    var t := StartupPlan(dataSource, query, intervalSeconds, healthBindOk, metricsBindOk);
    if dataSource.Success? && query.Success? {
      assert t[5] == RegisterShutdownHook && t[4] == ScheduleProbe(ProbeInitialDelaySeconds, intervalSeconds);
    }
  }

  /**
   * A configuration error stops `main` before either listener starts, the
   * probe is scheduled or the hook registered; `main` ends with that error,
   * and the pool is built exactly when the pool size parsed.
   */
  lemma ConfigErrorsStopStartup(env: Env, intervalSeconds: int, healthBindOk: bool, metricsBindOk: bool)
    requires CreateDataSource(env).Failure? || GetQuery(env).Failure?
    ensures var t := StartupPlan(CreateDataSource(env), GetQuery(env), intervalSeconds, healthBindOk, metricsBindOk);
      forall i :: 0 <= i < |t| ==> !t[i].HealthStart? && !t[i].MetricsStart? && !t[i].ScheduleProbe? && !t[i].RegisterShutdownHook?
    ensures var t := StartupPlan(CreateDataSource(env), GetQuery(env), intervalSeconds, healthBindOk, metricsBindOk);
      |t| >= 1 && t[|t| - 1] == Abort(Config(if PoolSize(env).Failure? then PoolSize(env).error else InvalidQuery))
    ensures var t := StartupPlan(CreateDataSource(env), GetQuery(env), intervalSeconds, healthBindOk, metricsBindOk);
      (exists i :: 0 <= i < |t| && t[i].CreatePool?) <==> PoolSize(env).Success?
  {
    ConfigErrorPlan(CreateDataSource(env), GetQuery(env), intervalSeconds, healthBindOk, metricsBindOk);
  }

  /** `ConfigErrorsStopStartup` for any failing configuration results. */
  lemma ConfigErrorPlan(dataSource: Result<DataSourceSetup, ConfigError>, query: Result<string, ConfigError>,
                        intervalSeconds: int, healthBindOk: bool, metricsBindOk: bool)
    requires dataSource.Failure? || query.Failure?
    ensures var t := StartupPlan(dataSource, query, intervalSeconds, healthBindOk, metricsBindOk);
      forall i :: 0 <= i < |t| ==> !t[i].HealthStart? && !t[i].MetricsStart? && !t[i].ScheduleProbe? && !t[i].RegisterShutdownHook?
    ensures var t := StartupPlan(dataSource, query, intervalSeconds, healthBindOk, metricsBindOk);
      |t| >= 1 && t[|t| - 1] == Abort(Config(if dataSource.Failure? then dataSource.error else query.error))
    ensures var t := StartupPlan(dataSource, query, intervalSeconds, healthBindOk, metricsBindOk);
      (exists i :: 0 <= i < |t| && t[i].CreatePool?) <==> dataSource.Success?
  {
    var t := StartupPlan(dataSource, query, intervalSeconds, healthBindOk, metricsBindOk);
    if dataSource.Success? {
      assert t[0].CreatePool?;
    }
  }

  /** The two listener starts of `main`: the health server, then the metrics server. */
  method StartListeners(env: Env, healthBindOk: bool, metricsBindOk: bool) returns (health: StartupStep, metrics: StartupStep)
    ensures health == HealthStart(healthBindOk) && metrics == MetricsStart(metricsBindOk)
  {
    var healthServer := new Health.HealthServer(HealthPort);
    healthServer.Start(healthBindOk);
    health := HealthStart(healthServer.server.Some?);
    var metricsServer := new Metrics.MetricsServer(MetricsPort, env);
    var started := metricsServer.Start(metricsBindOk);
    metrics := MetricsStart(started.Pass?);
  }

  /** `main` itself. */
  method Startup(env: Env, healthBindOk: bool, metricsBindOk: bool) returns (trace: seq<StartupStep>)
    ensures trace == StartupPlan(CreateDataSource(env), GetQuery(env), IntervalSeconds(env), healthBindOk, metricsBindOk)
  {
    var dataSource := CreateDataSource(env);
    if dataSource.Failure? {
      return [Abort(Config(dataSource.error))];
    }
    var pool := CreatePool(dataSource.value.settings);
    var query := GetQuery(env);
    if query.Failure? {
      return [pool, Abort(Config(query.error))];
    }
    var health, metrics := StartListeners(env, healthBindOk, metricsBindOk);
    var intervalSeconds := IntervalSeconds(env);
    trace := [pool, ValidateQuery(query.value), health, metrics,
              ScheduleProbe(ProbeInitialDelaySeconds, intervalSeconds), RegisterShutdownHook];
  }

  /** Position of each step in the hook as the code lists it. */
  function ShutdownRank(step: ShutdownStep): nat {
    match step
    case HealthStop => 0
    case SchedulerShutdown => 1
    case AwaitTermination(_) => 2
    case SchedulerShutdownNow => 3
    case DataSourceClose => 4
    case MetricsStop => 5
  }

  /**
   * The hook's trace: each step at most once, in the listed order;
   * `shutdownNow` only after a timed-out or interrupted await, and the pool
   * closed only when it is a `HikariDataSource`.
   */
  function ShutdownPlan(await: AwaitResult, kind: DataSourceKind): seq<ShutdownStep>
  {
    [HealthStop, SchedulerShutdown, AwaitTermination(AwaitSeconds)]
    + (if await != Terminated then [SchedulerShutdownNow] else [])
    + (if kind == Hikari then [DataSourceClose] else [])
    + [MetricsStop]
  }

  /** The hook's trace in each of its four shapes. */
  lemma ShutdownPlanCases(await: AwaitResult, kind: DataSourceKind)
    ensures await != Terminated && kind == Hikari ==> ShutdownPlan(await, kind) == [HealthStop, SchedulerShutdown, AwaitTermination(AwaitSeconds), SchedulerShutdownNow, DataSourceClose, MetricsStop]
    ensures await != Terminated && kind != Hikari ==> ShutdownPlan(await, kind) == [HealthStop, SchedulerShutdown, AwaitTermination(AwaitSeconds), SchedulerShutdownNow, MetricsStop]
    ensures await == Terminated && kind == Hikari ==> ShutdownPlan(await, kind) == [HealthStop, SchedulerShutdown, AwaitTermination(AwaitSeconds), DataSourceClose, MetricsStop]
    ensures await == Terminated && kind != Hikari ==> ShutdownPlan(await, kind) == [HealthStop, SchedulerShutdown, AwaitTermination(AwaitSeconds), MetricsStop]
  {
  }

  /** Each step is taken at most once, in the order the hook lists them. */
  lemma ShutdownPlanOrdered(await: AwaitResult, kind: DataSourceKind)
    ensures var t := ShutdownPlan(await, kind); forall i, j :: 0 <= i < j < |t| ==> ShutdownRank(t[i]) < ShutdownRank(t[j])
  {
    ShutdownPlanCases(await, kind);
    StepwiseRanked(ShutdownPlan(await, kind), ShutdownRank);
  }

  /** The listeners and the scheduler are always stopped, and the scheduler is awaited for the fixed timeout. */
  lemma ShutdownPlanStopsEverything(await: AwaitResult, kind: DataSourceKind)
    ensures var t := ShutdownPlan(await, kind); HealthStop in t && SchedulerShutdown in t && AwaitTermination(AwaitSeconds) in t && MetricsStop in t
    ensures var t := ShutdownPlan(await, kind); forall i :: 0 <= i < |t| && t[i].AwaitTermination? ==> t[i].seconds == AwaitSeconds
  {
    ShutdownPlanCases(await, kind);
  }

  /** `shutdownNow` is called exactly when the await did not see the scheduler terminate: on a timeout or an interrupt. */
  lemma ShutdownPlanForcesStop(await: AwaitResult, kind: DataSourceKind)
    ensures var t := ShutdownPlan(await, kind); SchedulerShutdownNow in t <==> await != Terminated
  {
    ShutdownPlanCases(await, kind);
  }

  /** The data source is closed exactly when it is a `HikariDataSource`. */
  lemma ShutdownPlanClosesDataSource(await: AwaitResult, kind: DataSourceKind)
    ensures var t := ShutdownPlan(await, kind); DataSourceClose in t <==> kind == Hikari
  {
    ShutdownPlanCases(await, kind);
  }

  /** The hook thread's body, step by step. */
  method ShutdownHook(await: AwaitResult, kind: DataSourceKind) returns (trace: seq<ShutdownStep>)
    ensures trace == ShutdownPlan(await, kind)
  {
    trace := [HealthStop];
    trace := trace + [SchedulerShutdown];
    trace := trace + [AwaitTermination(AwaitSeconds)];
    match await {
      case TimedOut => trace := trace + [SchedulerShutdownNow];
      case Interrupted => trace := trace + [SchedulerShutdownNow];
      case Terminated =>
    }
    if kind == Hikari {
      trace := trace + [DataSourceClose];
    }
    trace := trace + [MetricsStop];
    assert trace == [HealthStop, SchedulerShutdown, AwaitTermination(AwaitSeconds)]
                    + (if await != Terminated then [SchedulerShutdownNow] else [])
                    + (if kind == Hikari then [DataSourceClose] else [])
                    + [MetricsStop];
  }
}
