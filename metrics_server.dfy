/**
 * `MetricsServer`: the `/metrics` route, the start/stop of its listener and
 * of its persistence executor, and the optional periodic persistence task.
 */
module MetricsServer {
  import opened Wrappers
  import opened JavaLang
  import opened Http
  import opened Trace

  const PushGatewayKey: string := "METRICS_PUSHGATEWAY_URL"
  const PersistFileKey: string := "METRICS_PERSIST_FILE"
  const ExpositionContentType: string := "text/plain; version=0.0.4; charset=utf-8"
  /** The job name every push is grouped under. */
  const PushJob: string := "db-health-check"
  const PersistInitialDelaySeconds: int := 0
  const PersistDelaySeconds: int := 60
  const MetricsContexts: seq<string> := ["/metrics"]

  /** A destination counts only when the variable is set and not blank. */
  predicate IsConfigured(v: Option<string>) {
    v.Some? && !IsBlank(v.value)
  }

  /** The guard of `schedulePersistence`: at least one destination is configured. */
  predicate SchedulesPersistence(pushGatewayUrl: Option<string>, persistFile: Option<string>) {
    IsConfigured(pushGatewayUrl) || IsConfigured(persistFile)
  }

  /**
   * `MetricsHandler`: the scrape payload, as the bytes `getBytes` gives, sent
   * with status 200, the exposition content type, and its own byte count as
   * the declared length. For an empty scrape that argument is 0, which
   * `sendResponseHeaders` takes as chunked encoding with no `Content-Length`.
   */
  function MetricsResponse(payload: seq<byte>): (r: Response)
    ensures r.status == 200 && r.contentType == Some(ExpositionContentType)
    ensures r.body == payload && r.contentLength == |r.body|
  {
    var headers := Some(ExpositionContentType);
    Response(200, headers, |payload|, payload)
  }

  /** What one run of the persistence task does, in order. */
  datatype TickStep =
    | Scrape
    | WriteFile(path: string)
    | PushAdd(gateway: string, job: string)
    | LogFailure

  /**
   * Whether the scrape, the file write and the push each succeed if attempted.
   * `writeOk` is whether `new FileWriter` opens the file: `PrintWriter`
   * swallows errors from `write` and `close`, so a write that fails after the
   * file is open is neither logged nor stops the push.
   */
  datatype TickResults = TickResults(scrapeOk: bool, writeOk: bool, pushOk: bool)

  /** The steps a run attempts when nothing fails: scrape, then file, then push. */
  function PlannedSteps(persistFile: Option<string>, pushGatewayUrl: Option<string>): seq<TickStep> {
    [Scrape]
    + (if IsConfigured(persistFile) then [WriteFile(persistFile.value)] else [])
    + (if IsConfigured(pushGatewayUrl) then [PushAdd(pushGatewayUrl.value, PushJob)] else [])
  }

  predicate StepFails(results: TickResults, step: TickStep) {
    match step
    case Scrape => !results.scrapeOk
    case WriteFile(_) => !results.writeOk
    case PushAdd(_, _) => !results.pushOk
    case LogFailure => false
  }

  /** Position of a step kind in the persistence task body. */
  function Rank(step: TickStep): nat {
    match step
    case Scrape => 0
    case WriteFile(_) => 1
    case PushAdd(_, _) => 2
    case LogFailure => 3
  }

  /**
   * One run of the persistence task: the planned steps up to the first one that throws;
   * a throw aborts the rest and is caught and logged.
   */
  function TickPlan(persistFile: Option<string>, pushGatewayUrl: Option<string>, results: TickResults): seq<TickStep>
  {
    var attempted := UpToFailure(PlannedSteps(persistFile, pushGatewayUrl), step => StepFails(results, step));
    attempted + (if AnyFails(attempted, step => StepFails(results, step)) then [LogFailure] else [])
  }

  /** `TickPlan` spelled out case by case, the way the persistence task body branches. */
  lemma TickPlanByCases(persistFile: Option<string>, pushGatewayUrl: Option<string>, results: TickResults)
    ensures !results.scrapeOk ==> TickPlan(persistFile, pushGatewayUrl, results) == [Scrape, LogFailure]
    ensures results.scrapeOk && IsConfigured(persistFile) && !results.writeOk ==>
              TickPlan(persistFile, pushGatewayUrl, results) == [Scrape, WriteFile(persistFile.value), LogFailure]
    ensures results.scrapeOk && (IsConfigured(persistFile) ==> results.writeOk) ==>
              TickPlan(persistFile, pushGatewayUrl, results)
              == [Scrape]
                 + (if IsConfigured(persistFile) then [WriteFile(persistFile.value)] else [])
                 + (if IsConfigured(pushGatewayUrl) then [PushAdd(pushGatewayUrl.value, PushJob)] else [])
                 + (if IsConfigured(pushGatewayUrl) && !results.pushOk then [LogFailure] else [])
  {
    var fails := step => StepFails(results, step);
    var planned := PlannedSteps(persistFile, pushGatewayUrl);
    var attempted := UpToFailure(planned, fails);
    if !results.scrapeOk {
      assert attempted == [Scrape];
      assert AnyFails(attempted, fails) by { assert fails(attempted[0]); }
    } else if IsConfigured(persistFile) && !results.writeOk {
      assert planned[1] == WriteFile(persistFile.value);
      assert attempted == [Scrape, WriteFile(persistFile.value)];
      assert AnyFails(attempted, fails) by { assert fails(attempted[1]); }
    } else {
      assert attempted == planned;
      if IsConfigured(pushGatewayUrl) && !results.pushOk {
        assert AnyFails(attempted, fails) by { assert fails(attempted[|attempted| - 1]); }
      } else {
        assert !AnyFails(attempted, fails);
      }
    }
  }

  /** A run starts with the scrape and keeps the order scrape, file, push, log, each at most once. */
  lemma TickPlanOrder(persistFile: Option<string>, pushGatewayUrl: Option<string>, results: TickResults)
    ensures var t := TickPlan(persistFile, pushGatewayUrl, results);
      |t| >= 1 && t[0] == Scrape && forall i, j :: 0 <= i < j < |t| ==> Rank(t[i]) < Rank(t[j])
  {
    TickPlanByCases(persistFile, pushGatewayUrl, results);
  }

  /** A run writes the file exactly when it is configured and the scrape succeeded. */
  lemma TickPlanWritesFile(persistFile: Option<string>, pushGatewayUrl: Option<string>, results: TickResults)
    ensures var t := TickPlan(persistFile, pushGatewayUrl, results);
      && (!IsConfigured(persistFile) ==> forall i :: 0 <= i < |t| ==> !t[i].WriteFile?)
      && (IsConfigured(persistFile) ==> (WriteFile(persistFile.value) in t <==> results.scrapeOk))
  {
    TickPlanByCases(persistFile, pushGatewayUrl, results);
  }

  /**
   * A run pushes, with job `db-health-check`, exactly when the gateway is
   * configured and neither the scrape nor a configured file write failed.
   */
  lemma TickPlanPushes(persistFile: Option<string>, pushGatewayUrl: Option<string>, results: TickResults)
    ensures var t := TickPlan(persistFile, pushGatewayUrl, results);
      && (!IsConfigured(pushGatewayUrl) ==> forall i :: 0 <= i < |t| ==> !t[i].PushAdd?)
      && (IsConfigured(pushGatewayUrl) ==>
            (PushAdd(pushGatewayUrl.value, PushJob) in t
             <==> results.scrapeOk && (IsConfigured(persistFile) ==> results.writeOk)))
  {
    TickPlanByCases(persistFile, pushGatewayUrl, results);
  }

  /** A run logs a failure exactly when one of the steps it attempts throws, and the log ends the run. */
  lemma TickPlanLogsFailure(persistFile: Option<string>, pushGatewayUrl: Option<string>, results: TickResults)
    ensures var t := TickPlan(persistFile, pushGatewayUrl, results);
      && ((LogFailure in t) <==>
            !results.scrapeOk
            || (IsConfigured(persistFile) && !results.writeOk)
            || (IsConfigured(pushGatewayUrl) && !results.pushOk))
      && (LogFailure in t ==> t[|t| - 1] == LogFailure)
  {
    TickPlanByCases(persistFile, pushGatewayUrl, results);
  }

  /** The persistence task body as the lambda runs it: each step in turn, leaving at the first failure. */
  method RunPersistenceTick(persistFile: Option<string>, pushGatewayUrl: Option<string>, results: TickResults)
    returns (t: seq<TickStep>)
    ensures t == TickPlan(persistFile, pushGatewayUrl, results)
  {
    TickPlanByCases(persistFile, pushGatewayUrl, results);
    t := [Scrape];
    if !results.scrapeOk {
      t := t + [LogFailure];
      return;
    }
    if IsConfigured(persistFile) {
      t := t + [WriteFile(persistFile.value)];
      if !results.writeOk {
        t := t + [LogFailure];
        return;
      }
    }
    if IsConfigured(pushGatewayUrl) {
      t := t + [PushAdd(pushGatewayUrl.value, PushJob)];
      if !results.pushOk {
        t := t + [LogFailure];
        return;
      }
    }
  }

  /** When the guard lets the persistence task be scheduled, a run that meets no failure writes or pushes something. */
  lemma ScheduledTaskPersists(persistFile: Option<string>, pushGatewayUrl: Option<string>)
    ensures SchedulesPersistence(pushGatewayUrl, persistFile) <==>
              exists i :: 0 <= i < |TickPlan(persistFile, pushGatewayUrl, TickResults(true, true, true))|
                && Rank(TickPlan(persistFile, pushGatewayUrl, TickResults(true, true, true))[i]) in {1, 2}
  {
    var t := TickPlan(persistFile, pushGatewayUrl, TickResults(true, true, true));
    if IsConfigured(persistFile) {
      assert WriteFile(persistFile.value) in t;
    } else if IsConfigured(pushGatewayUrl) {
      assert PushAdd(pushGatewayUrl.value, PushJob) in t;
    }
  }

  /** A fixed-delay periodic task handed to the executor, with its delays in seconds. */
  datatype PeriodicTask = FixedDelay(initialDelay: int, delay: int)

  /**
   * A single-thread scheduled executor: the periodic tasks it will run and
   * whether it has been shut down. `shutdownNow` cancels the periodic tasks.
   */
  datatype Executor = Executor(scheduled: seq<PeriodicTask>, shutDown: bool)

  datatype StartError = BindFailed
  datatype PersistError = RejectedExecution

  class MetricsServer {
    const port: int
    const pushGatewayUrl: Option<string>
    const persistFile: Option<string>
    var server: Option<Listener>
    var persistScheduler: Executor

    /** Both destinations are read once from the environment, when the object is built. */
    constructor (port: int, env: Env)
      ensures this.port == port
      ensures pushGatewayUrl == Getenv(env, PushGatewayKey) && persistFile == Getenv(env, PersistFileKey)
      ensures server == None && persistScheduler == Executor([], false)
    {
      this.port := port;
      pushGatewayUrl := Getenv(env, PushGatewayKey);
      persistFile := Getenv(env, PersistFileKey);
      server := None;
      persistScheduler := Executor([], false);
    }

    /** `start`: a bind failure is thrown to the caller as an `IOException` and `server` keeps its value. */
    method Start(bindOk: bool) returns (r: Outcome<StartError>)
      modifies this
      ensures bindOk ==> r == Pass && server == Some(Listener(port, MetricsContexts, true))
      ensures !bindOk ==> r == Fail(BindFailed) && server == old(server)
      ensures persistScheduler == old(persistScheduler)
    {
      if !bindOk {
        return Fail(BindFailed);
      }
      var created := Listener(port, [], false);
      created := created.(contexts := created.contexts + ["/metrics"]);
      assert created.contexts == MetricsContexts;
      server := Some(created.(running := true));
      r := Pass;
    }

    /** `stop`: stops the listener only if there is one, and always shuts the executor down now. */
    method Stop()
      modifies this
      ensures old(server).None? ==> server == None
      ensures old(server).Some? ==> server == Some(old(server).value.(running := false))
      ensures persistScheduler == Executor([], true)
    {
      if server.Some? {
        server := Some(server.value.(running := false));
      }
      persistScheduler := Executor([], true);
    }

    /**
     * `startPersistence`: schedules the persistence task with delays 0 and 60 seconds
     * when a destination is configured; a shut-down executor rejects it.
     */
    method StartPersistence() returns (r: Outcome<PersistError>)
      modifies this
      ensures server == old(server)
      ensures !SchedulesPersistence(pushGatewayUrl, persistFile) ==>
                r == Pass && persistScheduler == old(persistScheduler)
      ensures SchedulesPersistence(pushGatewayUrl, persistFile) && old(persistScheduler).shutDown ==>
                r == Fail(RejectedExecution) && persistScheduler == old(persistScheduler)
      ensures SchedulesPersistence(pushGatewayUrl, persistFile) && !old(persistScheduler).shutDown ==>
                r == Pass
                && persistScheduler == old(persistScheduler).(scheduled := old(persistScheduler).scheduled
                                                               + [FixedDelay(PersistInitialDelaySeconds, PersistDelaySeconds)])
    {
      if !SchedulesPersistence(pushGatewayUrl, persistFile) {
        return Pass;
      }
      if persistScheduler.shutDown {
        return Fail(RejectedExecution);
      }
      var task := FixedDelay(PersistInitialDelaySeconds, PersistDelaySeconds);
      persistScheduler := persistScheduler.(scheduled := persistScheduler.scheduled + [task]);
      r := Pass;
    }
  }

  /**
   * With both variables unset or blank, `startPersistence` on a new server
   * succeeds and hands the executor no task.
   */
  method UnsetOrBlankSchedulesNothing(port: int, env: Env) returns (r: Outcome<PersistError>, scheduled: seq<PeriodicTask>)
    requires PushGatewayKey !in env || IsBlank(env[PushGatewayKey])
    requires PersistFileKey !in env || IsBlank(env[PersistFileKey])
    ensures r == Pass && scheduled == []
  {
    var m := new MetricsServer(port, env);
    r := m.StartPersistence();
    scheduled := m.persistScheduler.scheduled;
  }

  /**
   * A fresh server whose persistence is started and then stopped is left with
   * no periodic task, whatever the environment says.
   */
  method PersistThenStop(port: int, env: Env) returns (scheduledBeforeStop: nat, after: Executor)
    ensures scheduledBeforeStop == (if SchedulesPersistence(Getenv(env, PushGatewayKey), Getenv(env, PersistFileKey)) then 1 else 0)
    ensures after == Executor([], true)
  {
    var m := new MetricsServer(port, env);
    var _ := m.StartPersistence();
    scheduledBeforeStop := |m.persistScheduler.scheduled|;
    m.Stop();
    after := m.persistScheduler;
  }
}
