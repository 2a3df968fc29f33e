/**
  Per-job run statistics kept by the scheduler (app/core/scheduler.py).
  `datetime.now()` becomes a `now` parameter, in seconds; a key a
  `JobStats` dictionary does not hold is `None`.
*/
module Scheduler {
  import opened Common

  datatype JobStats = JobStats(
    startTime: Option<real>,
    endTime: Option<real>,
    duration: Option<real>,
    success: Option<bool>,
    runs: Option<int>,
    failures: Option<int>)

  const Empty := JobStats(None, None, None, None, None, None)

  /** `stats.get(key, 0)` for a counter. */
  function CountOf(c: Option<int>): int {
    if c.Some? then c.value else 0
  }

  /** Every entry was created by a start, which always sets `start_time`. */
  ghost predicate Started(m: map<string, JobStats>) {
    forall id :: id in m ==> m[id].startTime.Some?
  }

  /** `record_job_start`: the table after the start of `id` at `now`. */
  function StartJob(m: map<string, JobStats>, id: string, now: real): (r: map<string, JobStats>)
    ensures r.Keys == m.Keys + {id}
    ensures Started(m) ==> Started(r)
  {
    var stats := if id in m then m[id] else Empty;
    m[id := stats.(startTime := Some(now))]
  }

  /** `record_job_end`: the table after `id` ended at `now`, successfully or not. */
  function EndJob(m: map<string, JobStats>, id: string, success: bool, now: real): (r: map<string, JobStats>)
    requires Started(m)
    ensures r.Keys == m.Keys && Started(r)
  {
    if id !in m then m
    else
      var stats := m[id];
      var failures := if success then CountOf(stats.failures) else CountOf(stats.failures) + 1;
      m[id := stats.(endTime := Some(now), duration := Some(now - stats.startTime.value),
                     success := Some(success), runs := Some(CountOf(stats.runs) + 1),
                     failures := Some(failures))]
  }

  /** `record_job_failure`. */
  function FailJob(m: map<string, JobStats>, id: string): (r: map<string, JobStats>)
    ensures r.Keys == m.Keys
    ensures Started(m) ==> Started(r)
  {
    if id !in m then m
    else m[id := m[id].(failures := Some(CountOf(m[id].failures) + 1))]
  }

  /** A start keeps every field of an existing entry except `start_time`. */
  lemma StartKeepsOtherFields(m: map<string, JobStats>, id: string, now: real)
    ensures StartJob(m, id, now)[id].startTime == Some(now)
    ensures id in m ==> StartJob(m, id, now)[id] == m[id].(startTime := Some(now))
    ensures id !in m ==> StartJob(m, id, now)[id] == Empty.(startTime := Some(now))
  {
  }

  /** An end or a failure of a job never started changes nothing. */
  lemma UnknownJobIsIgnored(m: map<string, JobStats>, id: string, success: bool, now: real)
    requires Started(m) && id !in m
    ensures EndJob(m, id, success, now) == m
    ensures FailJob(m, id) == m
  {
  }

  /**
    An end adds one run, records the outcome and the time since the start,
    and adds one failure exactly when the run failed (a missing count is 0).
  */
  lemma EndCounts(m: map<string, JobStats>, id: string, success: bool, now: real)
    requires Started(m) && id in m
    ensures var s := EndJob(m, id, success, now)[id];
      && s.startTime == m[id].startTime
      && s.endTime == Some(now)
      && s.duration == Some(now - m[id].startTime.value)
      && s.success == Some(success)
      && s.runs == Some(CountOf(m[id].runs) + 1)
      && s.failures == Some(if success then CountOf(m[id].failures) else CountOf(m[id].failures) + 1)
  {
  }

  /** A failure adds one failure and touches nothing else. */
  lemma FailureCounts(m: map<string, JobStats>, id: string)
    requires id in m
    ensures FailJob(m, id)[id] == m[id].(failures := Some(CountOf(m[id].failures) + 1))
    ensures CountOf(FailJob(m, id)[id].runs) == CountOf(m[id].runs)
  {
  }

  /** Every operation leaves the other jobs' entries as they were. */
  lemma OtherJobsUntouched(m: map<string, JobStats>, id: string, other: string, success: bool, now: real)
    requires Started(m) && other != id
    ensures other in StartJob(m, id, now) <==> other in m
    ensures other in m ==> StartJob(m, id, now)[other] == m[other]
    ensures other in m ==> EndJob(m, id, success, now)[other] == m[other]
    ensures other in m ==> FailJob(m, id)[other] == m[other]
  {
  }

  /** What the job listener receives: the job id and the exception, if any. */
  datatype JobEvent = JobEvent(jobId: string, exception: Option<string>)

  /** The table after the listener has handled `events` in order, the i-th at `times[i]`. */
  function Replay(m: map<string, JobStats>, events: seq<JobEvent>, times: seq<real>): (r: map<string, JobStats>)
    requires Started(m) && |times| == |events|
    ensures r.Keys == m.Keys && Started(r)
  {
    if events == [] then m
    else Replay(EndJob(m, events[0].jobId, events[0].exception.None?, times[0]), events[1..], times[1..])
  }

  /** How many of `events` are about `id`, and how many of those carry an exception. */
  function EventsFor(events: seq<JobEvent>, id: string): nat {
    if events == [] then 0 else (if events[0].jobId == id then 1 else 0) + EventsFor(events[1..], id)
  }

  function FailuresFor(events: seq<JobEvent>, id: string): nat {
    if events == [] then 0
    else (if events[0].jobId == id && events[0].exception.Some? then 1 else 0) + FailuresFor(events[1..], id)
  }

  /**
    After the listener has seen a run of events, a started job has one more
    run per event about it and one more failure per such event with an
    exception.
  */
  lemma {:induction false} ReplayCounts(m: map<string, JobStats>, events: seq<JobEvent>, times: seq<real>, id: string)
    requires Started(m) && |times| == |events| && id in m
    ensures CountOf(Replay(m, events, times)[id].runs) == CountOf(m[id].runs) + EventsFor(events, id)
    ensures CountOf(Replay(m, events, times)[id].failures) == CountOf(m[id].failures) + FailuresFor(events, id)
  {
    if events != [] {
      var m1 := EndJob(m, events[0].jobId, events[0].exception.None?, times[0]);
      ReplayCounts(m1, events[1..], times[1..], id);
      if events[0].jobId == id {
        EndCounts(m, id, events[0].exception.None?, times[0]);
      } else {
        OtherJobsUntouched(m, events[0].jobId, id, events[0].exception.None?, times[0]);
      }
    }
  }

  /** `JobMetrics`: the statistics table, updated in place. */
  class JobMetrics {
    var jobStats: map<string, JobStats>

    ghost predicate Valid()
      reads this
    {
      Started(jobStats)
    }

    constructor ()
      ensures Valid() && jobStats == map[]
    {
      jobStats := map[];
    }

    method RecordJobStart(id: string, now: real)
      requires Valid()
      modifies this
      ensures Valid() && jobStats == StartJob(old(jobStats), id, now)
    {
      if id !in jobStats {
        jobStats := jobStats[id := Empty];
      }
      jobStats := jobStats[id := jobStats[id].(startTime := Some(now))];
    }

    method RecordJobEnd(id: string, success: bool, now: real)
      requires Valid()
      modifies this
      ensures Valid() && jobStats == EndJob(old(jobStats), id, success, now)
    {
      if id in jobStats {
        var stats := jobStats[id];
        stats := stats.(endTime := Some(now));
        stats := stats.(duration := Some(stats.endTime.value - stats.startTime.value));
        stats := stats.(success := Some(success));
        stats := stats.(runs := Some(CountOf(stats.runs) + 1));
        if !success {
          stats := stats.(failures := Some(CountOf(stats.failures) + 1));
        } else {
          stats := stats.(failures := Some(CountOf(stats.failures)));
        }
        jobStats := jobStats[id := stats];
      }
    }

    method RecordJobFailure(id: string)
      requires Valid()
      modifies this
      ensures Valid() && jobStats == FailJob(old(jobStats), id)
    {
      if id in jobStats {
        var stats := jobStats[id];
        stats := stats.(failures := Some(CountOf(stats.failures) + 1));
        jobStats := jobStats[id := stats];
      }
    }

    /** `job_listener`: an end that failed iff the event carries an exception; returns the log line. */
    method JobListener(event: JobEvent, now: real) returns (line: string)
      requires Valid()
      modifies this
      ensures Valid() && jobStats == EndJob(old(jobStats), event.jobId, event.exception.None?, now)
      ensures line == if event.exception.Some?
                      then "Job " + event.jobId + " failed: " + event.exception.value
                      else "Job " + event.jobId + " completed successfully"
    {
      if event.exception.Some? {
        line := "Job " + event.jobId + " failed: " + event.exception.value;
        RecordJobEnd(event.jobId, false, now);
      } else {
        line := "Job " + event.jobId + " completed successfully";
        RecordJobEnd(event.jobId, true, now);
      }
    }
  }
}
