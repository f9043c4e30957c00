/** The query executor of `internal/executor`: it runs one configured query
    against Prometheus, turns the samples into metric records, stores them
    and writes one execution record per run; it retries failed runs.

    Everything the executor touches outside itself is an input: the
    transport behind the Prometheus client, the clock readings, the outcome
    of each store write and whether a wait between attempts is cut short by
    cancellation. What the executor does to the store is returned as a list
    of effects, in order. */
module Executor {
  import opened Wrappers
  import opened Models
  import opened Client

  /** Why a sample is skipped. */
  datatype ConversionError =
    | InvalidSampleValueFormat   // the value is not a pair
    | InvalidTimestampFormat     // its first element is not a number
    | InvalidValueFormat         // its second element is not a string
    | ValueParseFailed(text: string)

  /** `convertSampleToRecord`: a sample as a record of query `queryId`,
      collected at `now`, or why it is skipped. The checks run in order:
      pair, numeric timestamp, string value, parsable value. */
  function ConvertSampleToRecord(sample: VectorSample, queryId: string, parseFloat: FloatDecoder, now: int)
    : (r: Result<MetricRecord, ConversionError>)
    ensures |sample.value| != 2 ==> r == Failure(InvalidSampleValueFormat)
    ensures |sample.value| == 2 && !sample.value[0].JsonNumber? ==> r == Failure(InvalidTimestampFormat)
    ensures |sample.value| == 2 && sample.value[0].JsonNumber? && !sample.value[1].JsonString? ==>
              r == Failure(InvalidValueFormat)
    ensures r.Success? <==>
              && |sample.value| == 2 && sample.value[0].JsonNumber? && sample.value[1].JsonString?
              && parseFloat(sample.value[1].text).Some?
    ensures r.Success? ==>
              && r.value.queryId == queryId
              && r.value.metricName == MetricName(sample.metric, queryId)
              && r.value.labels == CleanLabels(sample.metric)
              && Some(r.value.value) == parseFloat(sample.value[1].text)
              && r.value.timestamp == TruncateToInt(sample.value[0].number)
              && r.value.resultType == InstantResultType
              && r.value.collectedAt == now
  {
    if |sample.value| != 2 then Failure(InvalidSampleValueFormat)
    else if !sample.value[0].JsonNumber? then Failure(InvalidTimestampFormat)
    else if !sample.value[1].JsonString? then Failure(InvalidValueFormat)
    else
      var text := sample.value[1].text;
      match parseFloat(text)
      case None => Failure(ValueParseFailed(text))
      case Some(v) =>
        Success(MetricRecord(0, queryId, MetricName(sample.metric, queryId), CleanLabels(sample.metric),
                             v, TruncateToInt(sample.value[0].number), InstantResultType, now))
  }

  /** On a well-formed pair, the executor's conversion and
      `VectorSample.ToMetricRecord` build the same record whenever their
      decoders agree on the value text. */
  lemma ConversionsAgree(sample: VectorSample, queryId: string, parseFloat: FloatDecoder, decodeJson: FloatDecoder, now: int)
    requires |sample.value| == 2 && sample.value[0].JsonNumber? && sample.value[1].JsonString?
    requires parseFloat(sample.value[1].text) == decodeJson(sample.value[1].text)
    ensures ConvertSampleToRecord(sample, queryId, parseFloat, now).Success?
            <==> ToMetricRecord(sample, queryId, decodeJson, now).Success?
    ensures ConvertSampleToRecord(sample, queryId, parseFloat, now).Success? ==>
              ConvertSampleToRecord(sample, queryId, parseFloat, now).value
              == ToMetricRecord(sample, queryId, decodeJson, now).value
  {
  }

  /** The two conversions part ways on a longer tuple: the executor rejects
      it, `ToMetricRecord` reads its first two elements. */
  lemma LongerTupleDiverges(sample: VectorSample, queryId: string, parseFloat: FloatDecoder, now: int)
    requires |sample.value| > 2 && sample.value[0].JsonNumber? && sample.value[1].JsonString?
    requires parseFloat(sample.value[1].text).Some?
    ensures ConvertSampleToRecord(sample, queryId, parseFloat, now) == Failure(InvalidSampleValueFormat)
    ensures ToMetricRecord(sample, queryId, parseFloat, now).Success?
  {
  }

  /** The conversion loop of `ExecuteQuery`: the records of the convertible
      samples, in order; the others are skipped. Every record is stamped
      with the one reading `now`. */
  function ConvertAll(samples: seq<VectorSample>, queryId: string, parseFloat: FloatDecoder, now: int)
    : (records: seq<MetricRecord>)
    ensures |records| <= |samples|
  {
    if |samples| == 0 then []
    else
      var init := ConvertAll(samples[..|samples| - 1], queryId, parseFloat, now);
      match ConvertSampleToRecord(samples[|samples| - 1], queryId, parseFloat, now)
      case Failure(_) => init
      case Success(rec) => init + [rec]
  }

  /** Every record is the conversion of one of the samples. */
  lemma {:induction false} ConvertAllSound(samples: seq<VectorSample>, queryId: string, parseFloat: FloatDecoder, now: int)
    ensures forall rec :: rec in ConvertAll(samples, queryId, parseFloat, now) ==>
              exists s :: s in samples && ConvertSampleToRecord(s, queryId, parseFloat, now) == Success(rec)
    decreases |samples|
  {
    if |samples| > 0 {
      var init := samples[..|samples| - 1];
      ConvertAllSound(init, queryId, parseFloat, now);
      forall rec | rec in ConvertAll(samples, queryId, parseFloat, now)
        ensures exists s :: s in samples && ConvertSampleToRecord(s, queryId, parseFloat, now) == Success(rec)
      {
        if rec in ConvertAll(init, queryId, parseFloat, now) {
          var s :| s in init && ConvertSampleToRecord(s, queryId, parseFloat, now) == Success(rec);
          assert s in samples;
        } else {
          assert ConvertSampleToRecord(samples[|samples| - 1], queryId, parseFloat, now) == Success(rec);
        }
      }
    }
  }

  /** Converting a concatenation converts each part. */
  lemma {:induction false} ConvertAllAppend(a: seq<VectorSample>, b: seq<VectorSample>, queryId: string,
                                            parseFloat: FloatDecoder, now: int)
    ensures ConvertAll(a + b, queryId, parseFloat, now)
            == ConvertAll(a, queryId, parseFloat, now) + ConvertAll(b, queryId, parseFloat, now)
    decreases |b|
  {
    if |b| == 0 {
      assert a + b == a;
    } else {
      var b' := b[..|b| - 1];
      assert (a + b)[..|a + b| - 1] == a + b';
      assert (a + b)[|a + b| - 1] == b[|b| - 1];
      ConvertAllAppend(a, b', queryId, parseFloat, now);
    }
  }

  /** A malformed sample is skipped without disturbing the others. */
  lemma SkipMalformed(a: seq<VectorSample>, s: VectorSample, b: seq<VectorSample>, queryId: string,
                      parseFloat: FloatDecoder, now: int)
    requires ConvertSampleToRecord(s, queryId, parseFloat, now).Failure?
    ensures ConvertAll(a + [s] + b, queryId, parseFloat, now)
            == ConvertAll(a, queryId, parseFloat, now) + ConvertAll(b, queryId, parseFloat, now)
  {
    ConvertAllAppend(a + [s], b, queryId, parseFloat, now);
    ConvertAllAppend(a, [s], queryId, parseFloat, now);
    assert [s][..0] == [];
  }

  /** When every sample converts, there is one record per sample, in
      order. */
  lemma {:induction false} ConvertAllComplete(samples: seq<VectorSample>, queryId: string, parseFloat: FloatDecoder, now: int)
    requires forall i :: 0 <= i < |samples| ==> ConvertSampleToRecord(samples[i], queryId, parseFloat, now).Success?
    ensures |ConvertAll(samples, queryId, parseFloat, now)| == |samples|
    ensures forall i :: 0 <= i < |samples| ==>
              ConvertAll(samples, queryId, parseFloat, now)[i]
              == ConvertSampleToRecord(samples[i], queryId, parseFloat, now).value
    decreases |samples|
  {
    if |samples| > 0 {
      var init := samples[..|samples| - 1];
      ConvertAllComplete(init, queryId, parseFloat, now);
      ConvertAllLast(samples, queryId, parseFloat, now);
    }
  }

  /** The last sample, when it converts, gives the last record. */
  lemma ConvertAllLast(samples: seq<VectorSample>, queryId: string, parseFloat: FloatDecoder, now: int)
    requires |samples| > 0
    requires ConvertSampleToRecord(samples[|samples| - 1], queryId, parseFloat, now).Success?
    ensures ConvertAll(samples, queryId, parseFloat, now)
            == ConvertAll(samples[..|samples| - 1], queryId, parseFloat, now)
               + [ConvertSampleToRecord(samples[|samples| - 1], queryId, parseFloat, now).value]
  {
  }

  /** `Duration.Milliseconds`: nanoseconds to whole milliseconds, truncated
      toward zero. */
  function Milliseconds(ns: int): (ms: int)
    ensures ns >= 0 ==> ms * 1_000_000 <= ns < (ms + 1) * 1_000_000
    ensures ns < 0 ==> (ms - 1) * 1_000_000 < ns <= ms * 1_000_000
  {
    if ns >= 0 then ns / 1_000_000 else -((-ns) / 1_000_000)
  }

  /** What one run of a query meets in the world: the executor's wall
      clock at the start and at the end (nanoseconds), the time the
      monotonic clock measures between those two readings (nanoseconds,
      what `endTime.Sub(startTime)` returns), the reading `QueryInstant`
      takes (Unix seconds), one reading stamped on every record (the
      source reads the clock again for each sample), the
      transport, and the error, if any, of each store write. */
  datatype QueryEnv = QueryEnv(
    startTime: int,
    endTime: int,
    elapsed: int,
    queryNow: int,
    collectedAt: int,
    http: Http,
    storeMetrics: Option<string>,
    storeExecution: Option<string>)

  /** A write to the store. */
  datatype Effect = StoreMetrics(records: seq<MetricRecord>) | StoreExecution(execution: QueryExecution)

  /** Why a run fails. */
  datatype ExecError =
    | PrometheusFailed(cause: ClientError)
    | ResultParseFailed(message: string)
    | StoreFailed(message: string)

  /** The text of the underlying error, as stored in the execution record. */
  function CauseText(e: ExecError): string {
    match e
    case PrometheusFailed(cause) => ClientErrorText(cause)
    case ResultParseFailed(m) => m
    case StoreFailed(m) => m
  }

  /** The writes of one run and its error, if any. */
  datatype ExecOutcome = ExecOutcome(effects: seq<Effect>, error: Option<ExecError>)

  /** Exactly one execution record is written, and it is the last write. */
  predicate WritesOneExecution(effects: seq<Effect>) {
    && |effects| >= 1
    && effects[|effects| - 1].StoreExecution?
    && forall i :: 0 <= i < |effects| - 1 ==> !effects[i].StoreExecution?
  }

  /** The execution record a run writes. */
  function FinalRecord(out: ExecOutcome): QueryExecution
    requires WritesOneExecution(out.effects)
  {
    out.effects[|out.effects| - 1].execution
  }

  /** The record as created when the run starts. */
  function Started(cfg: QueryConfig, env: QueryEnv): QueryExecution {
    QueryExecution(0, cfg.id, cfg.name, Running, env.startTime, None, None, 0, None, env.startTime)
  }

  /** The record closed with a status: end time and duration together. */
  function Closed(cfg: QueryConfig, env: QueryEnv, status: ExecutionStatus, count: int, message: Option<string>)
    : QueryExecution
  {
    Started(cfg, env).(status := status, endTime := Some(env.endTime),
                       durationMs := Some(Milliseconds(env.elapsed)),
                       recordsCount := count, errorMessage := message)
  }

  /** A failed run: the record is closed as failed with the error's text. */
  function FailedRun(cfg: QueryConfig, env: QueryEnv, before: seq<Effect>, e: ExecError): ExecOutcome {
    ExecOutcome(before + [StoreExecution(Closed(cfg, env, Failed, 0, Some(CauseText(e))))], Some(e))
  }

  /** The execution record of a run is closed: it names the query, starts
      at the start reading, carries the end reading and the monotonic
      elapsed time in whole milliseconds, and is no longer running. */
  predicate ClosedRecord(cfg: QueryConfig, env: QueryEnv, x: QueryExecution) {
    && x.queryId == cfg.id && x.queryName == cfg.name
    && x.startTime == env.startTime && x.createdAt == env.startTime
    && x.endTime == Some(env.endTime)
    && x.durationMs == Some(Milliseconds(env.elapsed))
    && x.status != Running
  }

  /** The record's status and message agree with the run's error: failed
      with the error's text (and no record count) exactly when the run
      fails. */
  predicate StatusMatchesError(out: ExecOutcome)
    requires WritesOneExecution(out.effects)
  {
    var x := FinalRecord(out);
    && (out.error.Some? <==> x.status == Failed)
    && (out.error.Some? ==> x.errorMessage == Some(CauseText(out.error.value)) && x.recordsCount == 0)
    && (out.error.None? ==> x.errorMessage == None)
  }

  /** The body of `ExecuteQuery` once the instant query has answered
      `response`. */
  function RunQuery(cfg: QueryConfig, env: QueryEnv, response: Result<PrometheusResponse, ClientError>,
                    parseFloat: FloatDecoder): (out: ExecOutcome)
    ensures WritesOneExecution(out.effects)
    ensures ClosedRecord(cfg, env, FinalRecord(out))
    ensures StatusMatchesError(out)
  {
    match response
    case Failure(e) => FailedRun(cfg, env, [], PrometheusFailed(e))
    case Success(resp) =>
      match resp.vector
      case Failure(m) => FailedRun(cfg, env, [], ResultParseFailed(m))
      case Success(samples) =>
        var records := ConvertAll(samples, cfg.id, parseFloat, env.collectedAt);
        var stored := if |records| > 0 then [StoreMetrics(records)] else [];
        if |records| > 0 && env.storeMetrics.Some? then
          FailedRun(cfg, env, stored, StoreFailed(env.storeMetrics.value))
        else
          ExecOutcome(stored + [StoreExecution(Closed(cfg, env, Succeeded, |records|, None))], None)
  }

  /** The paths of a run: a failed query or an unreadable result fail with
      only the execution record written; otherwise the converted records are
      stored when there are any, and the run fails exactly when that store
      fails. */
  lemma RunQueryPaths(cfg: QueryConfig, env: QueryEnv, response: Result<PrometheusResponse, ClientError>,
                      parseFloat: FloatDecoder)
    ensures var out := RunQuery(cfg, env, response, parseFloat);
            && (response.Failure? ==>
                  out.effects == [StoreExecution(FinalRecord(out))] && out.error == Some(PrometheusFailed(response.error)))
            && (response.Success? && response.value.vector.Failure? ==>
                  out.effects == [StoreExecution(FinalRecord(out))]
                  && out.error == Some(ResultParseFailed(response.value.vector.error)))
  {
  }

  lemma RunQueryStores(cfg: QueryConfig, env: QueryEnv, resp: PrometheusResponse, parseFloat: FloatDecoder)
    requires resp.vector.Success?
    ensures var out := RunQuery(cfg, env, Success(resp), parseFloat);
            var records := ConvertAll(resp.vector.value, cfg.id, parseFloat, env.collectedAt);
            && (|records| > 0 ==> out.effects == [StoreMetrics(records), StoreExecution(FinalRecord(out))])
            && (|records| == 0 ==> out.effects == [StoreExecution(FinalRecord(out))])
            && (out.error.Some? <==> |records| > 0 && env.storeMetrics.Some?)
            && (out.error.Some? ==> out.error.value == StoreFailed(env.storeMetrics.value))
            && (out.error.None? ==> FinalRecord(out).recordsCount == |records|)
  {
  }

  /** `ExecuteQuery`: an instant query through client `c` at the reading
      `env.queryNow`, conversion of the samples, storage of the records when
      there are any, and one execution record whatever happens. */
  function ExecuteQuery(c: Client, cfg: QueryConfig, env: QueryEnv, parseFloat: FloatDecoder): (out: ExecOutcome)
    ensures WritesOneExecution(out.effects)
    ensures ClosedRecord(cfg, env, FinalRecord(out))
    ensures StatusMatchesError(out)
  {
    RunQuery(cfg, env, QueryInstant(c, cfg.query, env.queryNow, env.http), parseFloat)
  }

  /** Whether the execution record could be written makes no difference to
      the run. */
  lemma ExecutionStoreIgnored(c: Client, cfg: QueryConfig, env: QueryEnv, parseFloat: FloatDecoder, other: Option<string>)
    ensures ExecuteQuery(c, cfg, env.(storeExecution := other), parseFloat) == ExecuteQuery(c, cfg, env, parseFloat)
  {
  }

  /** The wait before a retry: the configured interval, or five seconds when
      it is not a duration. */
  const DefaultRetryInterval: int := 5_000_000_000

  function RetryInterval(cfg: QueryConfig, parseDuration: DurationParser): (d: int)
    ensures parseDuration(cfg.retryInterval).Success? ==> d == parseDuration(cfg.retryInterval).value
    ensures parseDuration(cfg.retryInterval).Failure? ==> d == DefaultRetryInterval
  {
    match parseDuration(cfg.retryInterval)
    case Failure(_) => DefaultRetryInterval
    case Success(d) => d
  }

  /** What the retry loop does, in order: wait before attempt `attempt`,
      give up waiting because the context was cancelled, or run attempt
      `attempt`. */
  datatype Event =
    | Wait(attempt: nat, interval: int)
    | Cancel(attempt: nat)
    | Run(attempt: nat, outcome: ExecOutcome)

  /** Why `ExecuteQueryWithRetry` fails: the context was cancelled during a
      wait, or every attempt failed (`last` is the last attempt's error;
      there is none when the retry count is negative and nothing ran). */
  datatype RetryError = Cancelled | Exhausted(attempts: int, last: Option<ExecError>)

  /** The runs of a trace, in order. */
  function Runs(trace: seq<Event>): (runs: seq<Event>)
    ensures |runs| <= |trace|
    ensures forall e :: e in runs ==> e.Run?
  {
    if |trace| == 0 then []
    else Runs(trace[..|trace| - 1]) + (if trace[|trace| - 1].Run? then [trace[|trace| - 1]] else [])
  }

  /** Appending an event extends the runs by that event if it is a run. */
  lemma AppendEvent(trace: seq<Event>, e: Event)
    ensures Runs(trace + [e]) == Runs(trace) + (if e.Run? then [e] else [])
  {
    assert (trace + [e])[..|trace|] == trace;
  }

  /** The execution records a trace writes, in order. */
  function ExecutionRecords(trace: seq<Event>): seq<QueryExecution> {
    if |trace| == 0 then []
    else
      ExecutionRecords(trace[..|trace| - 1])
      + (if trace[|trace| - 1].Run? then Executions(trace[|trace| - 1].outcome.effects) else [])
  }

  function Executions(effects: seq<Effect>): seq<QueryExecution> {
    if |effects| == 0 then []
    else
      Executions(effects[..|effects| - 1])
      + (if effects[|effects| - 1].StoreExecution? then [effects[|effects| - 1].execution] else [])
  }

  /** A run writes one execution record. */
  lemma {:induction false} OneExecution(effects: seq<Effect>)
    requires WritesOneExecution(effects)
    ensures |Executions(effects)| == 1
  {
    NoExecutions(effects[..|effects| - 1]);
  }

  lemma {:induction false} NoExecutions(effects: seq<Effect>)
    requires forall i :: 0 <= i < |effects| ==> !effects[i].StoreExecution?
    ensures Executions(effects) == []
  {
    if |effects| > 0 {
      NoExecutions(effects[..|effects| - 1]);
    }
  }

  /** A trace whose every run writes one execution record writes one per
      run. */
  lemma {:induction false} ExecutionsPerRun(trace: seq<Event>)
    requires forall i :: 0 <= i < |Runs(trace)| ==> WritesOneExecution(Runs(trace)[i].outcome.effects)
    ensures |ExecutionRecords(trace)| == |Runs(trace)|
  {
    if |trace| > 0 {
      var prefix := trace[..|trace| - 1];
      assert forall i :: 0 <= i < |Runs(prefix)| ==> Runs(prefix)[i] == Runs(trace)[i];
      ExecutionsPerRun(prefix);
      if trace[|trace| - 1].Run? {
        assert Runs(trace)[|Runs(trace)| - 1] == trace[|trace| - 1];
        OneExecution(trace[|trace| - 1].outcome.effects);
      }
    }
  }

  function Max0(n: int): nat {
    if n < 0 then 0 else n
  }

  /** Every wait comes right before the run it precedes, and every run after
      the first comes right after its wait. */
  predicate WaitsBeforeRuns(trace: seq<Event>, interval: int) {
    && (|trace| > 0 ==> !(trace[0].Run? && trace[0].attempt > 0))
    && (|trace| > 0 ==> !trace[|trace| - 1].Wait?)
    && (forall j, k {:trigger trace[j], trace[k]} :: 0 <= j < |trace| && k == j + 1 && k < |trace| ==>
          && (trace[k].Run? && trace[k].attempt > 0 ==> trace[j] == Wait(trace[k].attempt, interval))
          && (trace[j].Wait? ==> trace[k].Run? && trace[k].attempt == trace[j].attempt))
  }

  /** A wait and its run keep the order. */
  lemma WaitThenRun(trace: seq<Event>, interval: int, k: nat, out: ExecOutcome)
    requires WaitsBeforeRuns(trace, interval)
    requires |trace| == 0 || trace[|trace| - 1].Run?
    ensures WaitsBeforeRuns(trace + [Wait(k, interval), Run(k, out)], interval)
  {
  }

  /** A first run keeps the order. */
  lemma FirstRun(interval: int, out: ExecOutcome)
    ensures WaitsBeforeRuns([Run(0, out)], interval)
  {
  }

  /** A cancellation after a run keeps the order. */
  lemma CancelAfterRun(trace: seq<Event>, interval: int, k: nat)
    requires WaitsBeforeRuns(trace, interval)
    ensures WaitsBeforeRuns(trace + [Cancel(k)], interval)
  {
  }

  /** The events of attempt `k`: its wait, unless it is the first, then its
      run. */
  function StepEvents(k: nat, interval: int, out: ExecOutcome): seq<Event> {
    if k == 0 then [Run(0, out)] else [Wait(k, interval), Run(k, out)]
  }

  /** One attempt extends the runs by its run. */
  lemma StepRuns(trace: seq<Event>, interval: int, k: nat, out: ExecOutcome)
    ensures Runs(trace + StepEvents(k, interval, out)) == Runs(trace) + [Run(k, out)]
  {
    if k > 0 {
      AppendEvent(trace, Wait(k, interval));
      AppendEvent(trace + [Wait(k, interval)], Run(k, out));
      assert trace + [Wait(k, interval)] + [Run(k, out)] == trace + StepEvents(k, interval, out);
    } else {
      AppendEvent(trace, Run(k, out));
    }
  }

  /** One attempt keeps waits before runs. */
  lemma StepWaits(trace: seq<Event>, interval: int, k: nat, out: ExecOutcome)
    requires WaitsBeforeRuns(trace, interval)
    requires |trace| == 0 <==> k == 0
    requires |trace| == 0 || trace[|trace| - 1].Run?
    ensures WaitsBeforeRuns(trace + StepEvents(k, interval, out), interval)
  {
    if k > 0 {
      WaitThenRun(trace, interval, k, out);
    } else {
      FirstRun(interval, out);
    }
  }

  /** The events of the first `n` attempts, the `i`-th with outcome
      `outcomes(i)`, when none is cancelled. */
  function Schedule(outcomes: nat -> ExecOutcome, interval: int, n: nat): seq<Event> {
    if n == 0 then [] else Schedule(outcomes, interval, n - 1) + StepEvents(n - 1, interval, outcomes(n - 1))
  }

  /** The first `n` runs, the `i`-th with outcome `outcomes(i)`. */
  function Attempts(outcomes: nat -> ExecOutcome, n: nat): (runs: seq<Event>)
    ensures |runs| == n
    ensures forall i :: 0 <= i < n ==> runs[i] == Run(i, outcomes(i))
  {
    if n == 0 then [] else Attempts(outcomes, n - 1) + [Run(n - 1, outcomes(n - 1))]
  }

  /** A schedule is empty only before the first attempt, and ends with the
      last run. */
  lemma ScheduleEnds(outcomes: nat -> ExecOutcome, interval: int, n: nat)
    ensures |Schedule(outcomes, interval, n)| == 0 <==> n == 0
    ensures n > 0 ==> Schedule(outcomes, interval, n)[|Schedule(outcomes, interval, n)| - 1] == Run(n - 1, outcomes(n - 1))
  {
  }

  /** The schedule of `n` attempts holds exactly those runs, in order. */
  lemma {:induction false} ScheduleRuns(outcomes: nat -> ExecOutcome, interval: int, n: nat)
    ensures Runs(Schedule(outcomes, interval, n)) == Attempts(outcomes, n)
  {
    if n > 0 {
      ScheduleRuns(outcomes, interval, n - 1);
      StepRuns(Schedule(outcomes, interval, n - 1), interval, n - 1, outcomes(n - 1));
    }
  }

  /** In the schedule of `n` attempts every run but the first comes right
      after its wait. */
  lemma {:induction false} ScheduleWaits(outcomes: nat -> ExecOutcome, interval: int, n: nat)
    ensures WaitsBeforeRuns(Schedule(outcomes, interval, n), interval)
  {
    if n > 0 {
      ScheduleWaits(outcomes, interval, n - 1);
      ScheduleEnds(outcomes, interval, n - 1);
      StepWaits(Schedule(outcomes, interval, n - 1), interval, n - 1, outcomes(n - 1));
    }
  }

  /** A cancellation after `n` attempts adds no run and keeps waits before
      runs. */
  lemma ScheduleCancelled(outcomes: nat -> ExecOutcome, interval: int, n: nat)
    ensures Runs(Schedule(outcomes, interval, n) + [Cancel(n)]) == Attempts(outcomes, n)
    ensures WaitsBeforeRuns(Schedule(outcomes, interval, n) + [Cancel(n)], interval)
  {
    ScheduleRuns(outcomes, interval, n);
    ScheduleWaits(outcomes, interval, n);
    AppendEvent(Schedule(outcomes, interval, n), Cancel(n));
    CancelAfterRun(Schedule(outcomes, interval, n), interval, n);
  }

  /** The number of runs in a schedule, just after an attempt or a
      cancellation. */
  lemma ScheduleRunCount(outcomes: nat -> ExecOutcome, interval: int, n: nat)
    ensures |Runs(Schedule(outcomes, interval, n))| == n
    ensures |Runs(Schedule(outcomes, interval, n) + StepEvents(n, interval, outcomes(n)))| == n + 1
    ensures |Runs(Schedule(outcomes, interval, n) + [Cancel(n)])| == n
  {
    ScheduleCancelled(outcomes, interval, n);
    ScheduleRuns(outcomes, interval, n + 1);
  }

  /** What a trace of the retry loop holds: the runs made, in order, each
      after its wait, and the cancellation last if there was one. */
  lemma RetryShape(outcomes: nat -> ExecOutcome, interval: int, cancelledRun: bool, trace: seq<Event>, runs: nat)
    requires trace == Schedule(outcomes, interval, runs) + (if cancelledRun then [Cancel(runs)] else [])
    ensures Runs(trace) == Attempts(outcomes, runs)
    ensures |Runs(trace)| == runs
    ensures WaitsBeforeRuns(trace, interval)
    ensures cancelledRun ==> trace[|trace| - 1] == Cancel(runs)
  {
    if cancelledRun {
      ScheduleCancelled(outcomes, interval, runs);
    } else {
      assert trace == Schedule(outcomes, interval, runs);
      ScheduleRuns(outcomes, interval, runs);
      ScheduleWaits(outcomes, interval, runs);
    }
  }

  /** No wait before any of the first `runs` runs was cut short by
      cancellation. */
  predicate NotCancelledBefore(cancelled: nat -> bool, runs: nat) {
    forall i :: 0 < i < runs ==> !cancelled(i)
  }

  /** The retry loop of `ExecuteQueryWithRetry` over any sequence of run
      outcomes: run `i` has outcome `outcomes(i)`, and `cancelled(i)` says
      that the context is cancelled during the wait before run `i`. `runs`
      is the number of runs made; the trace is their schedule, followed by
      the cancellation if there was one. */
  method Retry(outcomes: nat -> ExecOutcome, retryCount: int, interval: int, cancelled: nat -> bool)
    returns (err: Option<RetryError>, trace: seq<Event>, runs: nat)
    ensures runs <= Max0(retryCount + 1)
    ensures trace == Schedule(outcomes, interval, runs) + (if err == Some(Cancelled) then [Cancel(runs)] else [])
    ensures forall i :: 0 <= i < runs - 1 ==> outcomes(i).error.Some?
    ensures err.None? <==> runs > 0 && outcomes(runs - 1).error.None?
    ensures err == Some(Cancelled) ==> 0 < runs <= retryCount && cancelled(runs)
    ensures NotCancelledBefore(cancelled, runs)
    ensures err.Some? && err.value.Exhausted? ==>
              && err.value.attempts == retryCount + 1
              && runs == Max0(retryCount + 1)
              && err.value.last == (if runs > 0 then outcomes(runs - 1).error else None)
  {
    runs := 0;
    var lastErr: Option<ExecError> := None;
    trace := [];
    while runs <= retryCount
      invariant runs <= Max0(retryCount + 1)
      invariant trace == Schedule(outcomes, interval, runs)
      invariant forall i :: 0 <= i < runs ==> outcomes(i).error.Some?
      invariant lastErr == if runs > 0 then outcomes(runs - 1).error else None
      invariant NotCancelledBefore(cancelled, runs)
      decreases retryCount + 1 - runs
    {
      if runs > 0 && cancelled(runs) {
        trace := trace + [Cancel(runs)];
        err := Some(Cancelled);
        return;
      }
      var out := outcomes(runs);
      trace := trace + StepEvents(runs, interval, out);
      if out.error.None? {
        runs := runs + 1;
        err := None;
        return;
      }
      lastErr := out.error;
      runs := runs + 1;
    }
    err := Some(Exhausted(retryCount + 1, lastErr));
  }

  /** When every attempt writes one execution record, a trace whose runs
      are the first `runs` attempts holds one execution record per run. */
  lemma AttemptsExecutions(outcomes: nat -> ExecOutcome, trace: seq<Event>, runs: nat)
    requires Runs(trace) == Attempts(outcomes, runs)
    requires forall i: nat :: WritesOneExecution(outcomes(i).effects)
    ensures |ExecutionRecords(trace)| == runs
  {
    ExecutionsPerRun(trace);
  }

  /** The outcome of each run of a query: run `i` sees world `envs(i)`. */
  function QueryRuns(c: Client, cfg: QueryConfig, envs: nat -> QueryEnv, parseFloat: FloatDecoder): nat -> ExecOutcome {
    (i: nat) => ExecuteQuery(c, cfg, envs(i), parseFloat)
  }

  /** `ExecuteQueryWithRetry`: up to `retryCount + 1` runs of the query, the
      `i`-th in world `envs(i)`, stopping at the first success. Before every
      run but the first it waits `RetryInterval`; `cancelled(i)` says that
      the context is cancelled during the wait before run `i`, which ends
      the loop at once. */
  method ExecuteQueryWithRetry(c: Client, cfg: QueryConfig, envs: nat -> QueryEnv, cancelled: nat -> bool,
                               parseDuration: DurationParser, parseFloat: FloatDecoder)
    returns (err: Option<RetryError>, trace: seq<Event>, runs: nat)
    ensures |Runs(trace)| == runs <= Max0(cfg.retryCount + 1)
    ensures trace == Schedule(QueryRuns(c, cfg, envs, parseFloat), RetryInterval(cfg, parseDuration), runs)
                     + (if err == Some(Cancelled) then [Cancel(runs)] else [])
    ensures Runs(trace) == Attempts(QueryRuns(c, cfg, envs, parseFloat), runs)
    ensures forall i :: 0 <= i < runs - 1 ==> ExecuteQuery(c, cfg, envs(i), parseFloat).error.Some?
    ensures err.None? <==> runs > 0 && ExecuteQuery(c, cfg, envs(runs - 1), parseFloat).error.None?
    ensures err == Some(Cancelled) ==>
              && 0 < runs <= cfg.retryCount
              && cancelled(runs)
              && trace[|trace| - 1] == Cancel(runs)
    ensures NotCancelledBefore(cancelled, runs)
    ensures err.Some? && err.value.Exhausted? ==>
              && err.value.attempts == cfg.retryCount + 1
              && runs == Max0(cfg.retryCount + 1)
              && err.value.last == (if runs > 0 then ExecuteQuery(c, cfg, envs(runs - 1), parseFloat).error else None)
    ensures WaitsBeforeRuns(trace, RetryInterval(cfg, parseDuration))
    ensures |ExecutionRecords(trace)| == runs
  {
    var outcomes := QueryRuns(c, cfg, envs, parseFloat);
    var interval := RetryInterval(cfg, parseDuration);
    err, trace, runs := Retry(outcomes, cfg.retryCount, interval, cancelled);
    forall i: nat
      ensures outcomes(i) == ExecuteQuery(c, cfg, envs(i), parseFloat)
      ensures WritesOneExecution(outcomes(i).effects)
    {
    }
    RetryShape(outcomes, interval, err == Some(Cancelled), trace, runs);
    AttemptsExecutions(outcomes, trace, runs);
  }

  /** Why the connection check fails. */
  datatype ConnectionsError = PrometheusUnreachable(cause: ConnectionError) | MySQLUnreachable(message: string)

  /** The two systems the executor checks. */
  datatype Probe = ProbePrometheus | ProbeMySQL

  /** `TestConnections`: Prometheus first, then the store (whose answer is
      `mysql`, the error of its ping if any); the first failure is
      reported and nothing after it is checked. */
  function TestConnections(c: Client, now: int, http: Http, mysql: Option<string>)
    : (r: (Option<ConnectionsError>, seq<Probe>))
    ensures |r.1| >= 1 && r.1[0] == ProbePrometheus
    ensures ProbeMySQL in r.1 <==> TestConnection(c, now, http).None?
    ensures TestConnection(c, now, http).Some? ==> r.0 == Some(PrometheusUnreachable(TestConnection(c, now, http).value))
    ensures r.0.None? <==> TestConnection(c, now, http).None? && mysql.None?
    ensures TestConnection(c, now, http).None? && mysql.Some? ==> r.0 == Some(MySQLUnreachable(mysql.value))
  {
    match TestConnection(c, now, http)
    case Some(e) => (Some(PrometheusUnreachable(e)), [ProbePrometheus])
    case None =>
      match mysql
      case Some(m) => (Some(MySQLUnreachable(m)), [ProbePrometheus, ProbeMySQL])
      case None => (None, [ProbePrometheus, ProbeMySQL])
  }
}
