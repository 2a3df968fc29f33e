/**
  The scheduled tasks (app/tasks/jobs.py). Each records its start in the
  shared `JobMetrics`, then either logs why it stops or pings its
  completion URL. A setting is unset when it is `None` or empty, as Python
  truthiness has it. The refresh run by `latest_exchange_rates_task` is
  represented by what it raised, if anything; the ping's errors are not
  caught and propagate.
*/
module Jobs {
  import opened Common
  import opened Scheduler
  import opened Healthchecks

  const HeartbeatJob: string := "heartbeat"
  const RefreshJob: string := "exchange_rate_notification"

  const HeartbeatNoUrl: string := "Heartbeat completed, but check-in failed: URL is not set"
  const HeartbeatDone: string := "Heartbeat completed: check-in complete"
  const RefreshNoUrl: string := "Refresh completed, but check-in failed: URL is not set"
  const RefreshDone: string := "Refresh completed: check-in complete"

  function RefreshFailed(e: string): string {
    "Exchange rate refresh failed: " + e
  }

  datatype Level = Info | Warning | Error
  datatype LogLine = LogLine(level: Level, text: string)

  /** What a task did besides updating the metrics: its log, the GETs it sent and the error it raised. */
  datatype TaskRun = TaskRun(log: seq<LogLine>, requests: seq<string>, raised: Option<string>)

  predicate IsSet(setting: Option<string>) {
    setting.Some? && setting.value != ""
  }

  /** Ping `url`; on success log `done`, otherwise raise the ping's error. */
  function PingAndLog(url: string, done: string, get: string -> HttpOutcome): (r: TaskRun)
    ensures r.requests == Ping(url, get).requests && r.raised == Ping(url, get).error
    ensures r.log == if r.raised.None? then [LogLine(Info, done)] else []
  {
    var p := Ping(url, get);
    TaskRun(if p.error.None? then [LogLine(Info, done)] else [], p.requests, p.error)
  }

  /** The effects of `heartbeat_task` after its start is recorded. */
  function Heartbeat(url: Option<string>, get: string -> HttpOutcome): TaskRun
  {
    if !IsSet(url) then TaskRun([LogLine(Warning, HeartbeatNoUrl)], [], None)
    else PingAndLog(url.value, HeartbeatDone, get)
  }

  /** The effects of `latest_exchange_rates_task` after its start is recorded. */
  function LatestRates(refreshError: Option<string>, url: Option<string>, get: string -> HttpOutcome): TaskRun
  {
    if refreshError.Some? then TaskRun([LogLine(Error, RefreshFailed(refreshError.value))], [], None)
    else if !IsSet(url) then TaskRun([LogLine(Warning, RefreshNoUrl)], [], None)
    else PingAndLog(url.value, RefreshDone, get)
  }

  /**
    A task pings at most once, and only its own URL when that is set and
    valid; an error is raised only by a ping that was attempted.
  */
  lemma AtMostOnePing(url: Option<string>, refreshError: Option<string>, get: string -> HttpOutcome)
    ensures |Heartbeat(url, get).requests| == (if IsSet(url) && ValidateUrl(url.value) then 1 else 0)
    ensures |LatestRates(refreshError, url, get).requests|
            == (if refreshError.None? && IsSet(url) && ValidateUrl(url.value) then 1 else 0)
    ensures forall u :: u in Heartbeat(url, get).requests ==> url == Some(u)
    ensures forall u :: u in LatestRates(refreshError, url, get).requests ==> url == Some(u)
    ensures Heartbeat(url, get).raised.Some? ==> IsSet(url)
    ensures LatestRates(refreshError, url, get).raised.Some? ==> refreshError.None? && IsSet(url)
  {
  }

  /**
    A task that stops early logs exactly one line saying why, sends nothing
    and raises nothing: an unset URL is a warning, a failed refresh an error.
  */
  lemma EarlyStops(url: Option<string>, refreshError: Option<string>, get: string -> HttpOutcome)
    ensures !IsSet(url) ==> Heartbeat(url, get) == TaskRun([LogLine(Warning, HeartbeatNoUrl)], [], None)
    ensures refreshError.Some? ==>
              LatestRates(refreshError, url, get) == TaskRun([LogLine(Error, RefreshFailed(refreshError.value))], [], None)
    ensures refreshError.None? && !IsSet(url) ==>
              LatestRates(refreshError, url, get) == TaskRun([LogLine(Warning, RefreshNoUrl)], [], None)
  {
  }

  /** A healthy ping endpoint lets both tasks finish with their completion line. */
  lemma HealthyPingCompletes(url: string, refreshError: Option<string>, get: string -> HttpOutcome)
    requires url != "" && ValidateUrl(url) && get(url).Response? && get(url).status < 400
    ensures Heartbeat(Some(url), get) == TaskRun([LogLine(Info, HeartbeatDone)], [url], None)
    ensures refreshError.None? ==> LatestRates(refreshError, Some(url), get) == TaskRun([LogLine(Info, RefreshDone)], [url], None)
  {
  }

  /** `heartbeat_task` */
  method HeartbeatTask(metrics: JobMetrics, url: Option<string>, now: real, get: string -> HttpOutcome)
    returns (run: TaskRun)
    requires metrics.Valid()
    modifies metrics
    ensures metrics.Valid() && metrics.jobStats == StartJob(old(metrics.jobStats), HeartbeatJob, now)
    ensures run == Heartbeat(url, get)
  {
    metrics.RecordJobStart(HeartbeatJob, now);
    if !IsSet(url) {
      return TaskRun([LogLine(Warning, HeartbeatNoUrl)], [], None);
    }
    var p := Ping(url.value, get);
    if p.error.Some? {
      return TaskRun([], p.requests, p.error);
    }
    run := TaskRun([LogLine(Info, HeartbeatDone)], p.requests, None);
  }

  /** `latest_exchange_rates_task`; `refreshError` is what `ExchangeRateRefresh.save()` raised. */
  method LatestExchangeRatesTask(metrics: JobMetrics, refreshError: Option<string>, url: Option<string>, now: real,
                                 get: string -> HttpOutcome)
    returns (run: TaskRun)
    requires metrics.Valid()
    modifies metrics
    ensures metrics.Valid() && metrics.jobStats == StartJob(old(metrics.jobStats), RefreshJob, now)
    ensures run == LatestRates(refreshError, url, get)
  {
    metrics.RecordJobStart(RefreshJob, now);
    if refreshError.Some? {
      return TaskRun([LogLine(Error, RefreshFailed(refreshError.value))], [], None);
    }
    if !IsSet(url) {
      return TaskRun([LogLine(Warning, RefreshNoUrl)], [], None);
    }
    var p := Ping(url.value, get);
    if p.error.Some? {
      return TaskRun([], p.requests, p.error);
    }
    run := TaskRun([LogLine(Info, RefreshDone)], p.requests, None);
  }
}
