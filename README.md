# jdbc-health-checker: a Dafny model of its decision logic

The repository is a small Java batch job. It probes a SQL Server database on a
fixed schedule and serves Kubernetes liveness and readiness routes on port 8080.
It also serves Prometheus metrics on port 9090, and it can optionally push those
metrics to a gateway or write them to a file. There are two entry points,
`BatchApplication` and `DBHealthCheck`. Each reads its configuration from the
environment, starts the servers, schedules the probe and registers a shutdown
hook.

This project models the logic around the JDBC, HTTP, executor and Prometheus
calls:

- configuration defaulting and validation (`AppConfig`);
- the masking of the JDBC URL for the log;
- the interval rules of both entry points;
- their probe tasks, startup sequences and shutdown hooks, as ordered traces of actions;
- the health and readiness responses and the health server's start and stop;
- the metrics route, and the metrics server's start, stop and persistence gating;
- the step order of each persistence run.

Files:

- `wrappers.dfy`: `Option`, `Result` and `Outcome`.
- `java_lang.dfy`: the JDK behaviour the code relies on:
  - `System.getenv`;
  - `String.length` in UTF-16 code units;
  - `String.trim` and `String.isBlank`;
  - `Integer.parseInt` and `Integer.toString`.
- `trace.dfy`: running steps until the first one that throws, and ranked traces.
- `app_config.dfy`: `AppConfig.getEnv`, `getQuery`, the decision part of `createDataSource`, and `maskUrl`.
- `http.dfy`: the response a handler sends and the listener a server holds.
- `health_server.dfy`, `metrics_server.dfy`: the two server classes. Their
  nullable `server` fields and the persistence executor are mutable fields of
  Dafny classes.
- `lifecycle.dfy`: the vocabulary of the startup, probe and shutdown traces.
- `batch_application.dfy`, `db_health_check.dfy`: the two `main` methods.

The source's step-by-step code takes three forms in the model:

- The two `main` methods, both shutdown hooks and the persistence task body
  are methods that build a trace one step at a time, as the Java body does.
  Each method is proved equal to a specification function (`StartupPlan`,
  `ShutdownPlan`, `TickPlan`), and the properties are proved as lemmas about
  that function.
- The two server classes have methods (`Start`, `Stop`, `StartPersistence`)
  whose contracts state the new field values in terms of the old ones.
- The probe tasks, the handlers and the configuration readers do no
  step-by-step state change. They are functions with their own contracts.

Inputs the code gets from outside become parameters:

- the result of `awaitTermination`;
- the class of the `DataSource`;
- whether a port binds;
- whether `ping(3)` succeeds;
- what `runHealthQuery` does;
- whether each persistence step throws.

`createDataSource`, including the parse of `DB_POOL_SIZE`, runs before
`getQuery`; the model follows this order.

## Model

| member | source | states |
|---|---|---|
| JavaLang.Getenv | src/main/java/com/example/batch/AppConfig.java:67 | an unset variable is `None` (Java `null`); a set one, even `""`, is its value |
| JavaLang.Utf16Length | src/main/java/com/example/batch/AppConfig.java:23 | `length()` is between the number of characters and twice it, equals it when every character is in the BMP, and counts one character as 2 exactly when it is above U+FFFF |
| JavaLang.Utf16LengthConcat | src/main/java/com/example/batch/AppConfig.java:23 | `length()` of a concatenation is the sum of the lengths; with the one-character values above, this fixes the length of every string |
| JavaLang.Trim | src/main/java/com/example/batch/AppConfig.java:22 | the trimmed text is empty or starts and ends with a character above U+0020, and it is empty exactly when every character is at or below U+0020 |
| JavaLang.TrimPadded | src/main/java/com/example/batch/AppConfig.java:22 | padding with characters at or below U+0020 on either side does not change the trim |
| JavaLang.TrimKeepsTrimmedText | src/main/java/com/example/batch/AppConfig.java:22 | text that starts and ends with a kept character is its own trim |
| JavaLang.TrimIdempotent | src/main/java/com/example/batch/AppConfig.java:22 | trimming twice is trimming once |
| JavaLang.ParseInt | src/main/java/com/example/batch/BatchApplication.java:46 | an accepted value is in the int32 range and consists of an optional leading sign and at least one ASCII digit; `ParseIntValue` gives the value |
| JavaLang.ParseIntValue | src/main/java/com/example/batch/BatchApplication.java:46 | for a sign of `""`, `+` or `-` and a non-empty run of ASCII digits, the literal parses to the signed value of the digits when that is in the int32 range, and throws otherwise |
| JavaLang.ParseIntRejectsPadding | src/main/java/com/example/batch/BatchApplication.java:46-48 | an empty value, or one with leading or trailing whitespace, throws |
| JavaLang.ParseIntRejectsBlank | src/main/java/com/example/batch/DBHealthCheck.java:35-36 | a value `isBlank` accepts never parses |
| JavaLang.IsWhitespace | src/main/java/com/example/batch/DBHealthCheck.java:35 | the `Character.isWhitespace` set `isBlank` tests against: the ASCII controls U+0009–U+000D and U+001C–U+001F, the space, and the Unicode space, line and paragraph separators other than the no-break spaces U+00A0, U+2007 and U+202F (definition only; its consequence for parsing is `WhitespaceIsNotNumeric`, used by `ParseIntRejectsBlank`) |
| JavaLang.IsBlank | src/main/java/com/example/batch/MetricsServer.java:66 | `isBlank`: empty, or every character whitespace (definition only; `ParseIntRejectsBlank` and `DBHealthCheck.SameIntervalAsBatch` are the lemmas about it) |
| JavaLang.ShowNat | src/main/java/com/example/batch/BatchApplication.java:46 | the decimal text is digits only, with no leading zero (0 is `"0"`), and has the number's value |
| JavaLang.ShowInt | src/main/java/com/example/batch/BatchApplication.java:46 | `String.valueOf(n)`: non-empty, starts with `-` exactly for a negative `n`, and otherwise is ASCII digits whose value is `|n|`, with no leading zero; 0 is `"0"` |
| JavaLang.ParseShowRoundTrip | src/main/java/com/example/batch/BatchApplication.java:46 | `parseInt(String.valueOf(n)) == n` for every int32 `n`, so the default `"30"` parses to 30 |
| Trace.UpToFailure | src/main/java/com/example/batch/MetricsServer.java:69-83 | the steps run are a prefix of the plan, none before the last one fails, and the prefix is cut short only at a failing step |
| Trace.UpToFailureFails | src/main/java/com/example/batch/MetricsServer.java:69-83 | the steps run include a failing one exactly when the plan does |
| AppConfig.GetEnv | src/main/java/com/example/batch/AppConfig.java:66-68 | the default is used only when the variable is unset; a variable set to `""` gives `""` |
| AppConfig.GetQuery | src/main/java/com/example/batch/AppConfig.java:21-27 | an accepted query is at most 200 UTF-16 units, holds no `;` and has no leading or trailing character at or below U+0020; a rejection is `IllegalArgumentException` |
| AppConfig.GetQueryDecision | src/main/java/com/example/batch/AppConfig.java:21-26 | a `DB_QUERY` made of kept text `core` between runs of characters at or below U+0020 is rejected exactly when `core` is over 200 UTF-16 units or holds a `;`, and is otherwise accepted as `core` |
| AppConfig.GetQueryIgnoresPadding | src/main/java/com/example/batch/AppConfig.java:22-23 | surrounding whitespace never causes a rejection and does not change the result, since the length check follows the trim |
| AppConfig.DefaultQueryAccepted | src/main/java/com/example/batch/AppConfig.java:22 | with `DB_QUERY` unset the result is `SELECT 1` |
| AppConfig.GetQueryIdempotent | src/main/java/com/example/batch/AppConfig.java:22-26 | an accepted query, fed back as `DB_QUERY`, is accepted unchanged |
| AppConfig.PoolSize | src/main/java/com/example/batch/AppConfig.java:34 | unset gives 2; a set value is its int32 parse, and a value that does not parse is an error, never 2 |
| AppConfig.CreateDataSource | src/main/java/com/example/batch/AppConfig.java:29-45 | it fails exactly when the pool size does not parse; otherwise URL, user, password and pool size go to the pool, and the log line has the masked URL (every `password=…;` match in it shows only `***`; a password with no `;` after it, or a differently cased key, is logged unmasked), the user and the pool size; the pool's own checks after the log line are left out |
| AppConfig.ConfigLogIgnoresPassword | src/main/java/com/example/batch/AppConfig.java:33-37 | changing `DB_PASSWORD` changes neither whether configuration succeeds nor the log line |
| AppConfig.MaskUrl | src/main/java/com/example/batch/AppConfig.java:61-64 | `replaceAll("password=.*?;", "password=***;")` as a left-to-right scan that replaces each match and resumes after it (definition; the `MaskUrl…` lemmas below state what it does) |
| AppConfig.SemicolonOnLine | src/main/java/com/example/batch/AppConfig.java:63 | the lazy `.*?;` ends at the first `;` with no line terminator before it |
| AppConfig.SemicolonAfterPlain | src/main/java/com/example/batch/AppConfig.java:63 | the converse of `SemicolonOnLine`: a `;` with no `;` and no line terminator before it is the one found |
| AppConfig.MaskUrlMasksEveryMatch | src/main/java/com/example/batch/AppConfig.java:61-64 | in the masked URL every match of `password=.*?;` covers `***` only; a password with no `;` after it on its line, or a differently cased key, is no match and is logged unmasked (`MaskUrlKeepsUnterminatedPassword`, `CapitalisedKeyUnmasked`) |
| AppConfig.MaskUrlFixesMasked | src/main/java/com/example/batch/AppConfig.java:63 | text whose every match covers `***` is left unchanged |
| AppConfig.MaskUrlIdempotent | src/main/java/com/example/batch/AppConfig.java:63 | masking a masked URL changes nothing |
| AppConfig.MaskUrlKeepsTextBeforeMatch | src/main/java/com/example/batch/AppConfig.java:63 | text before the first match is copied unchanged |
| AppConfig.MaskUrlReplacesFirstMatch | src/main/java/com/example/batch/AppConfig.java:63 | the first match becomes `password=***;` and scanning resumes after its `;` (non-overlapping) |
| AppConfig.MaskUrlWithoutMatch | src/main/java/com/example/batch/AppConfig.java:63 | a URL the pattern matches nowhere is unchanged |
| AppConfig.MaskUrlAfterLastSemicolon | src/main/java/com/example/batch/AppConfig.java:63 | text after the last `;` is never rewritten |
| AppConfig.MaskUrlHidesPassword | src/main/java/com/example/batch/AppConfig.java:63 | `password=<secret>;` with the secret on one line becomes `password=***;`, and the text before it is kept, when that text holds no match and is empty or ends in `;` (or holds no `p`) |
| AppConfig.DefaultUrlPasswordMasked | src/main/java/com/example/batch/AppConfig.java:31-37 | the default URL followed by `password=<secret>;`, with the secret on one line, is logged with the secret replaced by `***` and the URL kept |
| AppConfig.MaskUrlKeepsUnterminatedPassword | src/main/java/com/example/batch/AppConfig.java:63 | a trailing `password=` with no `;` after it is logged as it is |
| AppConfig.MaskUrlMissingKeyChar | src/main/java/com/example/batch/AppConfig.java:63 | a URL lacking any character of `password=` is unchanged |
| AppConfig.DefaultUrlUnmasked | src/main/java/com/example/batch/AppConfig.java:31 | the default URL is logged unchanged |
| AppConfig.CapitalisedKeyUnmasked | src/main/java/com/example/batch/AppConfig.java:63 | the match is case-sensitive: e.g. `jdbc:sqlserver://db;Password=secret;` is logged unchanged |
| Http.AsciiBytes | src/main/java/com/example/batch/HealthServer.java:50 | `getBytes()` of ASCII text is one byte per character, with the character's code |
| Http.AsciiLengthIsByteLength | src/main/java/com/example/batch/HealthServer.java:48-50 | for ASCII text `length()` equals the number of bytes written |
| HealthServer.TextResponse | src/main/java/com/example/batch/HealthServer.java:47-50 | a text reply declares as its length exactly the number of body bytes, and adds no content type |
| HealthServer.HealthResponse | src/main/java/com/example/batch/HealthServer.java:46-51 | `/health` is always 200 `OK`, with declared length equal to the body length |
| HealthServer.ReadyResponse | src/main/java/com/example/batch/HealthServer.java:64-75 | `/ready` is 200 `READY` when `ping(3)` is true and 503 `NOT READY` otherwise, with declared length equal to the body length |
| HealthServer.ReadyResponseOnlyAsksPingThree | src/main/java/com/example/batch/HealthServer.java:64 | the answer depends only on `ping(3)`; no stored state is read |
| HealthServer.HealthServer.constructor | src/main/java/com/example/batch/HealthServer.java:19-22 | a new server has no listener |
| HealthServer.HealthServer.Start | src/main/java/com/example/batch/HealthServer.java:24-35 | a bind binds `/health` and `/ready` and runs; a failed bind is only logged and leaves `server` as it was |
| HealthServer.HealthServer.Stop | src/main/java/com/example/batch/HealthServer.java:37-42 | stops the listener if there is one, and is a no-op otherwise |
| HealthServer.StartThenStop | src/main/java/com/example/batch/HealthServer.java:24-42 | after a failed start, stop finds no listener; after a good one, it leaves it stopped |
| MetricsServer.IsConfigured | src/main/java/com/example/batch/MetricsServer.java:71 | a destination counts when it is non-null and not blank (definition) |
| MetricsServer.SchedulesPersistence | src/main/java/com/example/batch/MetricsServer.java:66 | the guard of `schedulePersistence`: at least one destination counts (definition; `ScheduledTaskPersists` and `StartPersistence` state what it decides) |
| MetricsServer.UnsetOrBlankSchedulesNothing | src/main/java/com/example/batch/MetricsServer.java:65-66 | on a new server whose two variables are unset or blank, `startPersistence` succeeds and leaves the executor without any task |
| MetricsServer.MetricsResponse | src/main/java/com/example/batch/MetricsServer.java:55-62 | always 200 with the exposition content type, and declared length equal to the body's byte count |
| MetricsServer.PlannedSteps | src/main/java/com/example/batch/MetricsServer.java:70-80 | the steps a run attempts when nothing throws: the scrape, then the file write if the file counts, then the push if the gateway counts (definition) |
| MetricsServer.TickPlan | src/main/java/com/example/batch/MetricsServer.java:68-84 | one run: the planned steps up to the first that throws, then the failure log (definition; `TickPlanByCases`, `TickPlanOrder`, `TickPlanWritesFile`, `TickPlanPushes`, `TickPlanLogsFailure` and `RunPersistenceTick` state its properties) |
| MetricsServer.TickPlanByCases | src/main/java/com/example/batch/MetricsServer.java:68-84 | a run in each of its shapes: a failed scrape, a failed file write, or reaching the push |
| MetricsServer.TickPlanOrder | src/main/java/com/example/batch/MetricsServer.java:69-83 | a run starts with the scrape and keeps the order scrape, file, push, log, each at most once |
| MetricsServer.TickPlanWritesFile | src/main/java/com/example/batch/MetricsServer.java:71-75 | the file is written exactly when it is configured and the scrape succeeded |
| MetricsServer.TickPlanPushes | src/main/java/com/example/batch/MetricsServer.java:76-80 | a push with job `db-health-check` happens exactly when the gateway is configured and neither the scrape nor a configured write failed |
| MetricsServer.TickPlanLogsFailure | src/main/java/com/example/batch/MetricsServer.java:81-83 | a failure is logged exactly when an attempted step throws, and the log ends the run |
| MetricsServer.RunPersistenceTick | src/main/java/com/example/batch/MetricsServer.java:68-84 | the persistence task body, step by step with early exit, produces exactly the planned run |
| MetricsServer.ScheduledTaskPersists | src/main/java/com/example/batch/MetricsServer.java:66-80 | the guard lets the persistence task be scheduled exactly when a run that meets no failure writes or pushes something |
| MetricsServer.MetricsServer.constructor | src/main/java/com/example/batch/MetricsServer.java:28-33 | both destinations are read once, from the environment, when the object is built |
| MetricsServer.MetricsServer.Start | src/main/java/com/example/batch/MetricsServer.java:35-40 | a bind serves `/metrics`; a failed bind is thrown to the caller and leaves `server` as it was |
| MetricsServer.MetricsServer.Stop | src/main/java/com/example/batch/MetricsServer.java:42-45 | the listener is stopped only if there is one, and the executor is always shut down with its periodic tasks cancelled |
| MetricsServer.MetricsServer.StartPersistence | src/main/java/com/example/batch/MetricsServer.java:65-91 | schedules one fixed-delay task (0 s, then every 60 s) exactly when a destination is configured; a shut-down executor rejects it |
| MetricsServer.PersistThenStop | src/main/java/com/example/batch/MetricsServer.java:42-45 | a started persistence holds one task exactly when the guard holds, and after `stop` none is left |
| BatchApplication.IntervalSeconds | src/main/java/com/example/batch/BatchApplication.java:44-49 | unset gives 30; a value that parses is the interval; any other value gives 30 |
| BatchApplication.IntervalTakesAnyLiteral | src/main/java/com/example/batch/BatchApplication.java:46 | `String.valueOf(n)` of every int32 `n`, zero and negatives included, is taken as `n` |
| BatchApplication.IntervalTakesEveryLiteral | src/main/java/com/example/batch/BatchApplication.java:46-48 | every literal of a sign and ASCII digits, leading zeros included, is taken as its value when in the int32 range, and falls back to the default otherwise |
| BatchApplication.IntervalRejectsPadding | src/main/java/com/example/batch/BatchApplication.java:46-48 | an empty or whitespace-padded value gives 30, because `parseInt` does not trim |
| BatchApplication.ProbeTask | src/main/java/com/example/batch/BatchApplication.java:53-63 | a run logs, calls the query, then logs one line on `false` or on an exception; nothing escapes |
| BatchApplication.ListenerFailuresAreContained | src/main/java/com/example/batch/BatchApplication.java:36-70 | whatever the binds do, the probe is scheduled and the hook registered exactly when configuration succeeded, and a metrics failure never aborts |
| BatchApplication.StartupPlan | src/main/java/com/example/batch/BatchApplication.java:20-70 | the order of `main`'s steps (definition; `ListenerFailuresAreContained`, `ConfigErrorsStopStartup` and `Startup` state its properties) |
| BatchApplication.ConfigErrorsStopStartup | src/main/java/com/example/batch/BatchApplication.java:24-26 | on a configuration error no listener starts, no probe is scheduled and no hook is registered; `main` ends with that error, and the pool is built exactly when the pool size parsed |
| BatchApplication.StartListeners | src/main/java/com/example/batch/BatchApplication.java:30-41 | records whether each of the two servers bound |
| BatchApplication.Startup | src/main/java/com/example/batch/BatchApplication.java:20-90 | `main` performs exactly the startup plan: pool, query, health, metrics, schedule with delay 0 and the interval, hook |
| BatchApplication.ShutdownPlan | src/main/java/com/example/batch/BatchApplication.java:70-89 | the hook's steps (definition; the `ShutdownPlan…` lemmas and `ShutdownHook` state its properties) |
| BatchApplication.ShutdownPlanOrdered | src/main/java/com/example/batch/BatchApplication.java:70-89 | the hook's steps come at most once each, in the order health stop, scheduler shutdown, await, `shutdownNow`, close, metrics stop |
| BatchApplication.ShutdownPlanStopsEverything | src/main/java/com/example/batch/BatchApplication.java:72-87 | health, the scheduler and metrics are always stopped, and the await is always for 30 s |
| BatchApplication.ShutdownPlanForcesStop | src/main/java/com/example/batch/BatchApplication.java:76-81 | `shutdownNow` is called exactly when the await timed out or was interrupted |
| BatchApplication.ShutdownPlanClosesDataSource | src/main/java/com/example/batch/BatchApplication.java:83-86 | the data source is closed exactly when it is a `HikariDataSource` |
| BatchApplication.ShutdownHook | src/main/java/com/example/batch/BatchApplication.java:70-89 | the hook body, step by step, performs exactly the planned shutdown |
| DBHealthCheck.IntervalSeconds | src/main/java/com/example/batch/DBHealthCheck.java:32-40 | unset or blank gives 30; otherwise the parsed value, or 30 when the parse throws |
| DBHealthCheck.SameIntervalAsBatch | src/main/java/com/example/batch/DBHealthCheck.java:32-40 | for every environment the interval equals `BatchApplication`'s |
| DBHealthCheck.ProbeTask | src/main/java/com/example/batch/DBHealthCheck.java:42-48 | a run calls the query, ignores its result, and logs only an exception |
| DBHealthCheck.ProbeTasksCompared | src/main/java/com/example/batch/DBHealthCheck.java:42-48 | both tasks log every exception; only `BatchApplication`'s logs a `false` result |
| DBHealthCheck.StartupPlan | src/main/java/com/example/batch/DBHealthCheck.java:14-67 | the order of `main`'s steps (definition; `ConfigErrorsStopStartup`, `MetricsFailureAborts` and `Startup` state its properties) |
| DBHealthCheck.ConfigErrorsStopStartup | src/main/java/com/example/batch/DBHealthCheck.java:17-19 | on a configuration error neither server starts, persistence is not started, no probe is scheduled and no hook is registered; `main` ends with that error, and the pool is built exactly when the pool size parsed |
| DBHealthCheck.MetricsFailureAborts | src/main/java/com/example/batch/DBHealthCheck.java:14-30 | a metrics bind failure ends `main` before the health server, the probe and the hook; otherwise, with valid configuration, all three follow |
| DBHealthCheck.MetricsFailureHandlingCompared | src/main/java/com/example/batch/DBHealthCheck.java:24 | on a metrics bind failure `BatchApplication` still registers its hook and `DBHealthCheck` does not |
| DBHealthCheck.StartMetrics | src/main/java/com/example/batch/DBHealthCheck.java:23-24 | the metrics server is built from the environment with an idle executor; after a bind it serves `/metrics` on 9090, after a failed bind it has no listener, and whether it bound is recorded |
| DBHealthCheck.StartMetricsPersistence | src/main/java/com/example/batch/DBHealthCheck.java:25 | on the fresh server `startPersistence` is never rejected; the executor then holds the one fixed-delay task (0 s, then 60 s) exactly when a destination is configured, and no task otherwise; the listener is untouched |
| DBHealthCheck.StartHealth | src/main/java/com/example/batch/DBHealthCheck.java:27-28 | records whether the health server bound |
| DBHealthCheck.Startup | src/main/java/com/example/batch/DBHealthCheck.java:14-50 | `main` performs exactly the startup plan: pool, query, metrics, persistence, health, schedule, hook |
| DBHealthCheck.ShutdownPlan | src/main/java/com/example/batch/DBHealthCheck.java:50-67 | the hook's steps (definition; the `ShutdownPlan…` lemmas and `ShutdownHook` state its properties) |
| DBHealthCheck.ShutdownPlanOrdered | src/main/java/com/example/batch/DBHealthCheck.java:50-67 | the hook's steps come at most once each, in the order scheduler shutdown, await, `shutdownNow`, metrics stop, health stop, close |
| DBHealthCheck.ShutdownPlanStopsEverything | src/main/java/com/example/batch/DBHealthCheck.java:52-60 | the scheduler, metrics and health are always stopped, and the await is always for 30 s |
| DBHealthCheck.ShutdownPlanForcesStop | src/main/java/com/example/batch/DBHealthCheck.java:54-58 | `shutdownNow` is called exactly when the await timed out; an interrupt is swallowed |
| DBHealthCheck.ShutdownPlanClosesDataSource | src/main/java/com/example/batch/DBHealthCheck.java:61-66 | the data source is closed exactly when it is `AutoCloseable` |
| DBHealthCheck.ShutdownHook | src/main/java/com/example/batch/DBHealthCheck.java:50-67 | the hook body, step by step, performs exactly the planned shutdown; an exception from `close` is caught and ignored, and no step follows it |
| DBHealthCheck.ShutdownHooksCompared | src/main/java/com/example/batch/DBHealthCheck.java:50-67 | the hooks differ in their first step, on an interrupted await (only `BatchApplication` forces `shutdownNow`), and on a non-Hikari closeable data source (only `DBHealthCheck` closes it) |

## Left out

- `DatabaseClient` (JDBC connections, statements, timeouts) is not part of this model. `ping(3)` is a function parameter of the readiness handler, and what `runHealthQuery` does when a task calls it is a `QueryOutcome` input.
- The HikariCP pool is not modelled. The setter constants and the pool's construction are library configuration. `createDataSource` is modelled up to the values handed to the pool, and the data source class is an input to the hooks. Two pool behaviours end `main` and are not modelled: `setMaximumPoolSize` throws `IllegalArgumentException` for a pool size below 1 (AppConfig.java line 45), and a fail-fast `new HikariDataSource` (line 58) throws when the database cannot be reached, before any listener starts. So `AppConfig.CreateDataSource`, `BatchApplication.Startup`, `DBHealthCheck.Startup`, `ListenerFailuresAreContained` and `MetricsFailureAborts` describe the program only for a pool size of at least 1 and a pool that builds.
- `JavaLang.ParseInt`: accepts ASCII digits only. `Integer.parseInt` also accepts other Unicode decimal digits, which the model rejects.
- Executor behaviour is not modelled: timing, the non-overlap of fixed-delay runs, and the JDK's rejection of a non-positive delay. A scheduled task is recorded with its delays only. With `INTERVAL_SECONDS` at or below 0, `scheduleWithFixedDelay` throws `IllegalArgumentException` (BatchApplication.java line 67, DBHealthCheck.java line 48), `main` ends there and no hook is registered. So `BatchApplication.Startup`, `DBHealthCheck.Startup`, `ListenerFailuresAreContained` and `MetricsFailureAborts` describe the program only for a positive interval.
- There are no clocks. The 30-second await and the 60-second period are constants, and how the await ends is an input.
- HTTP internals are left out: sockets, request dispatch threads and `OutputStream` writes. A bind is a boolean input, and a response is its status, headers, declared length and body bytes. The declared length is the argument passed to `sendResponseHeaders`; 0, as for an empty scrape, means chunked encoding with no `Content-Length` header.
- The Prometheus scrape payload is an opaque byte sequence, and the push and file write are opaque steps. The push sends `CollectorRegistry.defaultRegistry` rather than the registry that was scraped (MetricsServer.java line 79). This is kept as an observation and not modelled.
- Logging text and the JVM's shutdown-hook and process-exit mechanics are left out. A log line, or registering the hook, is one step of a trace.
- `BatchApplication` never calls `startPersistence`, so its startup trace holds no persistence step.
- Charset encoding in general is left out. The handlers' bodies are ASCII literals, so `getBytes()` gives one byte per character, with the character's code, under any ASCII-compatible default charset. UTF-8 is one, and it is the fixed default from JDK 18 on. The model does not cover other defaults, such as UTF-16 (two bytes per character plus a byte-order mark) or EBCDIC (other byte codes).
