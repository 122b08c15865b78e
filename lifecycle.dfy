/**
 * The vocabulary both entry points share: what startup does step by step,
 * what the probe task does, and what a shutdown hook does, each as an
 * action recorded in a trace.
 */
module Lifecycle {
  import opened AppConfig

  /** The seconds each hook waits for the probe scheduler to drain. */
  const AwaitSeconds: int := 30
  const HealthPort: int := 8080
  const MetricsPort: int := 9090
  /** The delay before the first probe run. */
  const ProbeInitialDelaySeconds: int := 0

  /** How `scheduler.awaitTermination(30, SECONDS)` ends. */
  datatype AwaitResult = Terminated | TimedOut | Interrupted

  /** The run-time class of the `DataSource`, as the hooks' `instanceof` tests see it. */
  datatype DataSourceKind = Hikari | OtherCloseable | NotCloseable

  predicate IsAutoCloseable(kind: DataSourceKind) {
    kind != NotCloseable
  }

  /** What `runHealthQuery` does when a probe task calls it: return a boolean, or throw an unchecked exception. */
  datatype QueryOutcome = Returned(success: bool) | Threw

  /** What one run of a probe task does: log lines and the call into `runHealthQuery`. */
  datatype ProbeStep = LogStarting | RunHealthQuery | LogQueryFailed | LogUnexpectedError

  datatype ShutdownStep =
    | HealthStop
    | SchedulerShutdown
    | AwaitTermination(seconds: int)
    | SchedulerShutdownNow
    | DataSourceClose
    | MetricsStop

  /** Why `main` ends before registering the hook. */
  datatype StartupError = Config(error: ConfigError) | MetricsStartFailed

  datatype StartupStep =
    | CreatePool(settings: PoolSettings)
    | ValidateQuery(query: string)
    | HealthStart(listening: bool)
    | MetricsStart(listening: bool)
    | StartPersistence(scheduled: bool)
    | ScheduleProbe(initialDelay: int, delay: int)
    | RegisterShutdownHook
    | Abort(error: StartupError)
}
