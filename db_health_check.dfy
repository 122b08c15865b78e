/**
 * `DBHealthCheck.main`, the second entry point: its interval rule, probe
 * task, startup sequence and shutdown hook, and how each differs from
 * `BatchApplication`.
 */
module DBHealthCheck {
  import opened Wrappers
  import opened JavaLang
  import opened AppConfig
  import opened Lifecycle
  import opened Trace
  import Http
  import Batch = BatchApplication
  import Health = HealthServer
  import Metrics = MetricsServer

  const IntervalKey: string := "INTERVAL_SECONDS"
  const DefaultIntervalSeconds: int := 30

  /** 30 when the variable is unset or blank; otherwise its parse, with 30 when the parse throws. */
  function IntervalSeconds(env: Env): (n: int)
    ensures InInt32(n)
    ensures IntervalKey !in env || IsBlank(env[IntervalKey]) ==> n == DefaultIntervalSeconds
    ensures IntervalKey in env && !IsBlank(env[IntervalKey]) && ParseInt(env[IntervalKey]).Some? ==>
              n == ParseInt(env[IntervalKey]).value
    ensures IntervalKey in env && ParseInt(env[IntervalKey]).None? ==> n == DefaultIntervalSeconds
  {
    var iv := Getenv(env, IntervalKey);
    if iv.Some? && !IsBlank(iv.value) then ParseInt(iv.value).GetOr(DefaultIntervalSeconds)
    else DefaultIntervalSeconds
  }

  /** The blank guard changes nothing: both entry points pick the same interval from every environment. */
  lemma SameIntervalAsBatch(env: Env)
    ensures IntervalSeconds(env) == Batch.IntervalSeconds(env)
  {
    if IntervalKey in env && IsBlank(env[IntervalKey]) {
      ParseIntRejectsBlank(env[IntervalKey]);
    }
  }

  /** The scheduled task: the query's result is ignored, and only an exception is logged. */
  function ProbeTask(outcome: QueryOutcome): (t: seq<ProbeStep>)
    ensures |t| >= 1 && t[0] == RunHealthQuery
    ensures |t| == 1 <==> outcome.Returned?
    ensures outcome == Threw ==> t == [RunHealthQuery, LogUnexpectedError]
  {
    if outcome == Threw then [RunHealthQuery, LogUnexpectedError] else [RunHealthQuery]
  }

  /** Both tasks contain every failure; only `BatchApplication`'s logs a `false` result. */
  lemma ProbeTasksCompared(outcome: QueryOutcome)
    ensures (LogQueryFailed in Batch.ProbeTask(outcome)) <==> outcome == Returned(false)
    ensures LogQueryFailed !in ProbeTask(outcome)
    ensures (LogUnexpectedError in Batch.ProbeTask(outcome)) <==> (LogUnexpectedError in ProbeTask(outcome))
  {
  }

  /**
   * What `main` does, in order, given what the configuration calls return:
   * pool, query, metrics start (whose `IOException` ends `main`),
   * persistence, health server, probe schedule, hook.
   */
  function StartupPlan(dataSource: Result<DataSourceSetup, ConfigError>, query: Result<string, ConfigError>,
                       persists: bool, intervalSeconds: int, metricsBindOk: bool, healthBindOk: bool): seq<StartupStep>
  {
    match dataSource
    case Failure(e) => [Abort(Config(e))]
    case Success(setup) =>
      match query
      case Failure(e) => [CreatePool(setup.settings), Abort(Config(e))]
      case Success(q) =>
        if !metricsBindOk then
          [CreatePool(setup.settings), ValidateQuery(q), MetricsStart(false), Abort(MetricsStartFailed)]
        else
          [CreatePool(setup.settings), ValidateQuery(q), MetricsStart(true), StartPersistence(persists),
           HealthStart(healthBindOk), ScheduleProbe(ProbeInitialDelaySeconds, intervalSeconds), RegisterShutdownHook]
  }

  /**
   * A configuration error stops `main` before either server starts, before
   * persistence, the probe schedule and the hook; `main` ends with that
   * error, and the pool is built exactly when the pool size parsed.
   */
  lemma ConfigErrorsStopStartup(env: Env, persists: bool, intervalSeconds: int, metricsBindOk: bool, healthBindOk: bool)
    requires CreateDataSource(env).Failure? || GetQuery(env).Failure?
    ensures var t := StartupPlan(CreateDataSource(env), GetQuery(env), persists, intervalSeconds, metricsBindOk, healthBindOk);
      forall i :: 0 <= i < |t| ==>
        !t[i].MetricsStart? && !t[i].StartPersistence? && !t[i].HealthStart? && !t[i].ScheduleProbe? && !t[i].RegisterShutdownHook?
    ensures var t := StartupPlan(CreateDataSource(env), GetQuery(env), persists, intervalSeconds, metricsBindOk, healthBindOk);
      |t| >= 1 && t[|t| - 1] == Abort(Config(if PoolSize(env).Failure? then PoolSize(env).error else InvalidQuery))
    ensures var t := StartupPlan(CreateDataSource(env), GetQuery(env), persists, intervalSeconds, metricsBindOk, healthBindOk);
      (exists i :: 0 <= i < |t| && t[i].CreatePool?) <==> PoolSize(env).Success?
  {
    ConfigErrorPlan(CreateDataSource(env), GetQuery(env), persists, intervalSeconds, metricsBindOk, healthBindOk);
  }

  /** `ConfigErrorsStopStartup` for any failing configuration results. */
  lemma ConfigErrorPlan(dataSource: Result<DataSourceSetup, ConfigError>, query: Result<string, ConfigError>,
                        persists: bool, intervalSeconds: int, metricsBindOk: bool, healthBindOk: bool)
    requires dataSource.Failure? || query.Failure?
    ensures var t := StartupPlan(dataSource, query, persists, intervalSeconds, metricsBindOk, healthBindOk);
      forall i :: 0 <= i < |t| ==>
        !t[i].MetricsStart? && !t[i].StartPersistence? && !t[i].HealthStart? && !t[i].ScheduleProbe? && !t[i].RegisterShutdownHook?
    ensures var t := StartupPlan(dataSource, query, persists, intervalSeconds, metricsBindOk, healthBindOk);
      |t| >= 1 && t[|t| - 1] == Abort(Config(if dataSource.Failure? then dataSource.error else query.error))
    ensures var t := StartupPlan(dataSource, query, persists, intervalSeconds, metricsBindOk, healthBindOk);
      (exists i :: 0 <= i < |t| && t[i].CreatePool?) <==> dataSource.Success?
  {
    var t := StartupPlan(dataSource, query, persists, intervalSeconds, metricsBindOk, healthBindOk);
    if dataSource.Success? {
      assert t[0].CreatePool?;
    }
  }

  /**
   * A metrics bind failure ends `main` before the health server, the probe
   * and the hook; with a valid configuration and a bound metrics port, all three follow.
   */
  lemma MetricsFailureAborts(dataSource: Result<DataSourceSetup, ConfigError>, query: Result<string, ConfigError>,
                             persists: bool, intervalSeconds: int, metricsBindOk: bool, healthBindOk: bool)
    ensures (RegisterShutdownHook in StartupPlan(dataSource, query, persists, intervalSeconds, metricsBindOk, healthBindOk))
            <==> dataSource.Success? && query.Success? && metricsBindOk
    ensures (HealthStart(healthBindOk) in StartupPlan(dataSource, query, persists, intervalSeconds, metricsBindOk, healthBindOk))
            <==> dataSource.Success? && query.Success? && metricsBindOk
    ensures dataSource.Success? && query.Success? && !metricsBindOk ==>
              StartupPlan(dataSource, query, persists, intervalSeconds, metricsBindOk, healthBindOk)
              == [CreatePool(dataSource.value.settings), ValidateQuery(query.value), MetricsStart(false), Abort(MetricsStartFailed)]
  {
    var t := StartupPlan(dataSource, query, persists, intervalSeconds, metricsBindOk, healthBindOk);
    if dataSource.Success? && query.Success? && metricsBindOk {
      assert t[6] == RegisterShutdownHook && t[4] == HealthStart(healthBindOk);
    }
  }

  /** The two entry points disagree on a metrics bind failure: one carries on, the other stops. */
  lemma MetricsFailureHandlingCompared(dataSource: Result<DataSourceSetup, ConfigError>, query: Result<string, ConfigError>,
                                       persists: bool, intervalSeconds: int, healthBindOk: bool)
    requires dataSource.Success? && query.Success?
    ensures RegisterShutdownHook in Batch.StartupPlan(dataSource, query, intervalSeconds, healthBindOk, false)
    ensures RegisterShutdownHook !in StartupPlan(dataSource, query, persists, intervalSeconds, false, healthBindOk)
  {
    Batch.ListenerFailuresAreContained(dataSource, query, intervalSeconds, healthBindOk, false);
    MetricsFailureAborts(dataSource, query, persists, intervalSeconds, false, healthBindOk);
  }

  /** Whether `startPersistence` schedules the persistence task, from the two variables the metrics server reads. */
  predicate PersistsMetrics(env: Env) {
    Metrics.SchedulesPersistence(Getenv(env, Metrics.PushGatewayKey), Getenv(env, Metrics.PersistFileKey))
  }

  /** The metrics server's start; `main` goes on only when it binds. */
  method StartMetrics(env: Env, metricsBindOk: bool) returns (metrics: Metrics.MetricsServer, step: StartupStep)
    ensures step == MetricsStart(metricsBindOk)
    ensures metricsBindOk ==> metrics.server == Some(Http.Listener(MetricsPort, Metrics.MetricsContexts, true))
    ensures !metricsBindOk ==> metrics.server == None
    ensures metrics.pushGatewayUrl == Getenv(env, Metrics.PushGatewayKey)
    ensures metrics.persistFile == Getenv(env, Metrics.PersistFileKey)
    ensures metrics.persistScheduler == Metrics.Executor([], false)
    ensures fresh(metrics)
  {
    metrics := new Metrics.MetricsServer(MetricsPort, env);
    var started := metrics.Start(metricsBindOk);
    step := MetricsStart(started.Pass?);
  }

  /**
   * `startPersistence` on the metrics server `main` has just built: never
   * rejected, since the executor is not shut down; the persistence task is
   * its only task when a destination is configured, and it has none otherwise.
   */
  method StartMetricsPersistence(env: Env, metrics: Metrics.MetricsServer) returns (outcome: Outcome<Metrics.PersistError>, step: StartupStep)
    requires metrics.pushGatewayUrl == Getenv(env, Metrics.PushGatewayKey)
    requires metrics.persistFile == Getenv(env, Metrics.PersistFileKey)
    requires metrics.persistScheduler == Metrics.Executor([], false)
    modifies metrics
    ensures outcome == Pass
    ensures step == StartPersistence(PersistsMetrics(env))
    ensures metrics.persistScheduler == Metrics.Executor(
      if PersistsMetrics(env) then [Metrics.FixedDelay(Metrics.PersistInitialDelaySeconds, Metrics.PersistDelaySeconds)] else [],
      false)
    ensures metrics.server == old(metrics.server)
  {
    outcome := metrics.StartPersistence();
    step := StartPersistence(metrics.persistScheduler.scheduled != []);
  }

  /** The health server's start. */
  method StartHealth(healthBindOk: bool) returns (step: StartupStep)
    ensures step == HealthStart(healthBindOk)
  {
    var healthServer := new Health.HealthServer(HealthPort);
    healthServer.Start(healthBindOk);
    step := HealthStart(healthServer.server.Some?);
  }

  /** `main` itself, starting the two servers in its order. */
  method Startup(env: Env, metricsBindOk: bool, healthBindOk: bool) returns (trace: seq<StartupStep>)
    ensures trace == StartupPlan(CreateDataSource(env), GetQuery(env), PersistsMetrics(env), IntervalSeconds(env),
                                 metricsBindOk, healthBindOk)
  {
    var dataSource := CreateDataSource(env);
    if dataSource.Failure? {
      return [Abort(Config(dataSource.error))];
    }
    var pool := CreatePool(dataSource.value.settings);
    var query := GetQuery(env);
    if query.Failure? {
      return [pool, Abort(Config(query.error))];
    }
    var validated := ValidateQuery(query.value);
    var metricsServer, metricsStart := StartMetrics(env, metricsBindOk);
    if !metricsBindOk {
      return [pool, validated, metricsStart, Abort(MetricsStartFailed)];
    }
    var _, persistence := StartMetricsPersistence(env, metricsServer);
    var health := StartHealth(healthBindOk);
    var interval := IntervalSeconds(env);
    trace := [pool, validated, metricsStart, persistence, health,
              ScheduleProbe(ProbeInitialDelaySeconds, interval), RegisterShutdownHook];
  }

  /** Position of each step in this hook as the code lists it. */
  function ShutdownRank(step: ShutdownStep): nat {
    match step
    case SchedulerShutdown => 0
    case AwaitTermination(_) => 1
    case SchedulerShutdownNow => 2
    case MetricsStop => 3
    case HealthStop => 4
    case DataSourceClose => 5
  }

  /**
   * The hook's trace: each step at most once, in the listed order;
   * `shutdownNow` only after a timed-out await (an interrupt is ignored),
   * and any `AutoCloseable` data source closed last.
   */
  function ShutdownPlan(await: AwaitResult, kind: DataSourceKind): seq<ShutdownStep>
  {
    [SchedulerShutdown, AwaitTermination(AwaitSeconds)]
    + (if await == TimedOut then [SchedulerShutdownNow] else [])
    + [MetricsStop, HealthStop]
    + (if IsAutoCloseable(kind) then [DataSourceClose] else [])
  }

  /** The hook's trace in each of its four shapes. */
  lemma ShutdownPlanCases(await: AwaitResult, kind: DataSourceKind)
    ensures await == TimedOut && IsAutoCloseable(kind) ==> ShutdownPlan(await, kind) == [SchedulerShutdown, AwaitTermination(AwaitSeconds), SchedulerShutdownNow, MetricsStop, HealthStop, DataSourceClose]
    ensures await == TimedOut && !IsAutoCloseable(kind) ==> ShutdownPlan(await, kind) == [SchedulerShutdown, AwaitTermination(AwaitSeconds), SchedulerShutdownNow, MetricsStop, HealthStop]
    ensures await != TimedOut && IsAutoCloseable(kind) ==> ShutdownPlan(await, kind) == [SchedulerShutdown, AwaitTermination(AwaitSeconds), MetricsStop, HealthStop, DataSourceClose]
    ensures await != TimedOut && !IsAutoCloseable(kind) ==> ShutdownPlan(await, kind) == [SchedulerShutdown, AwaitTermination(AwaitSeconds), MetricsStop, HealthStop]
  {
  }

  /** Each step is taken at most once, in the order the hook lists them. */
  lemma ShutdownPlanOrdered(await: AwaitResult, kind: DataSourceKind)
    ensures var t := ShutdownPlan(await, kind); forall i, j :: 0 <= i < j < |t| ==> ShutdownRank(t[i]) < ShutdownRank(t[j])
  {
    ShutdownPlanCases(await, kind);
    StepwiseRanked(ShutdownPlan(await, kind), ShutdownRank);
  }

  /** The listeners and the scheduler are always stopped, and the scheduler is awaited for the fixed timeout. */
  lemma ShutdownPlanStopsEverything(await: AwaitResult, kind: DataSourceKind)
    ensures var t := ShutdownPlan(await, kind); HealthStop in t && SchedulerShutdown in t && AwaitTermination(AwaitSeconds) in t && MetricsStop in t
    ensures var t := ShutdownPlan(await, kind); forall i :: 0 <= i < |t| && t[i].AwaitTermination? ==> t[i].seconds == AwaitSeconds
  {
    ShutdownPlanCases(await, kind);
  }

  /** `shutdownNow` is called exactly when the await timed out; an interrupt is swallowed without it. */
  lemma ShutdownPlanForcesStop(await: AwaitResult, kind: DataSourceKind)
    ensures var t := ShutdownPlan(await, kind); SchedulerShutdownNow in t <==> await == TimedOut
  {
    ShutdownPlanCases(await, kind);
  }

  /** The data source is closed exactly when it is `AutoCloseable`. */
  lemma ShutdownPlanClosesDataSource(await: AwaitResult, kind: DataSourceKind)
    ensures var t := ShutdownPlan(await, kind); DataSourceClose in t <==> IsAutoCloseable(kind)
  {
    ShutdownPlanCases(await, kind);
  }

  /**
   * The hook thread's body. Any exception `close` throws is caught and
   * ignored, and nothing follows the close, so the trace records the call
   * whatever it does.
   */
  method ShutdownHook(await: AwaitResult, kind: DataSourceKind) returns (trace: seq<ShutdownStep>)
    ensures trace == ShutdownPlan(await, kind)
  {
    trace := [SchedulerShutdown];
    trace := trace + [AwaitTermination(AwaitSeconds)];
    if await == TimedOut {
      trace := trace + [SchedulerShutdownNow];
    }
    trace := trace + [MetricsStop];
    trace := trace + [HealthStop];
    if IsAutoCloseable(kind) {
      trace := trace + [DataSourceClose];
    }
    assert trace == [SchedulerShutdown, AwaitTermination(AwaitSeconds)]
                    + (if await == TimedOut then [SchedulerShutdownNow] else [])
                    + [MetricsStop, HealthStop]
                    + (if IsAutoCloseable(kind) then [DataSourceClose] else []);
  }

  /**
   * Where the two hooks differ: which step comes first, whether an
   * interrupted await forces `shutdownNow`, and which data sources get closed.
   */
  lemma ShutdownHooksCompared(await: AwaitResult, kind: DataSourceKind)
    ensures Batch.ShutdownPlan(await, kind)[0] == HealthStop && ShutdownPlan(await, kind)[0] == SchedulerShutdown
    ensures (SchedulerShutdownNow in Batch.ShutdownPlan(await, kind)) != (SchedulerShutdownNow in ShutdownPlan(await, kind))
            <==> await == Interrupted
    ensures (DataSourceClose in Batch.ShutdownPlan(await, kind)) != (DataSourceClose in ShutdownPlan(await, kind))
            <==> kind == OtherCloseable
  {
    Batch.ShutdownPlanCases(await, kind);
    ShutdownPlanCases(await, kind);
  }
}
