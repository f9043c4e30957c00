/** The records of `internal/models`: Prometheus samples as decoded from
    JSON, the metric and execution records written to the store, and the
    configuration types.

    Instants are whole Unix seconds except where a field says otherwise.
    Floating point is not modelled: a JSON number is an exact `real`, and
    the two decimal-to-float decoders the repository uses (`json.Unmarshal`
    into a `float64`, `strconv.ParseFloat`) are opaque partial functions
    passed in by the caller. */
module Models {
  import opened Wrappers

  /** A `float64` as far as the records care: a finite value, an infinity or
      NaN (Prometheus writes `"NaN"`, `"+Inf"` and `"-Inf"` as sample
      values). */
  datatype Float64 = Finite(value: real) | Infinity(negative: bool) | NaN

  /** A decoder of the textual value of a sample; `None` is a decoding
      error. */
  type FloatDecoder = string -> Option<Float64>

  /** An element of a sample's `value` array after `json.Unmarshal` into
      `[]interface{}`: a number, a string, or anything else (a boolean,
      `null`, an array or an object). */
  datatype JsonValue = JsonNumber(number: real) | JsonString(text: string) | JsonOther

  /** `VectorSample`: the labels of one series and its `[timestamp, "value"]`
      pair. */
  datatype VectorSample = VectorSample(metric: map<string, string>, value: seq<JsonValue>)

  /** `PrometheusResponse`. The `result` field is an untyped JSON value that
      `ParseVectorResult` re-encodes and decodes as a list of samples;
      `vector` is the outcome of that round trip, a failure carrying the
      decoder's message when the JSON does not have the vector shape. */
  datatype PrometheusResponse = PrometheusResponse(status: string, resultType: string, vector: Result<seq<VectorSample>, string>)

  /** `MetricRecord`. `id` is assigned by the store and is zero here. */
  datatype MetricRecord = MetricRecord(
    id: int,
    queryId: string,
    metricName: string,
    labels: map<string, string>,
    value: Float64,
    timestamp: int,
    resultType: string,
    collectedAt: int)

  /** The `status` column of an execution record. */
  datatype ExecutionStatus = Running | Succeeded | Failed

  /** The text stored for each status. */
  function StatusText(s: ExecutionStatus): (text: string)
    ensures text in {"running", "success", "failed"}
  {
    match s
    case Running => "running"
    case Succeeded => "success"
    case Failed => "failed"
  }

  lemma StatusTextInjective(a: ExecutionStatus, b: ExecutionStatus)
    requires StatusText(a) == StatusText(b)
    ensures a == b
  {
  }

  /** `QueryExecution`. Times are in nanoseconds on the executor's clock; the
      pointer fields of the Go struct are `Option`s. */
  datatype QueryExecution = QueryExecution(
    id: int,
    queryId: string,
    queryName: string,
    status: ExecutionStatus,
    startTime: int,
    endTime: Option<int>,
    durationMs: Option<int>,
    recordsCount: int,
    errorMessage: Option<string>,
    createdAt: int)

  /** `QueryConfig`. */
  datatype QueryConfig = QueryConfig(
    id: string,
    name: string,
    description: string,
    query: string,
    schedule: string,
    timeout: string,
    table: string,
    tags: seq<string>,
    enabled: bool,
    retryCount: int,
    retryInterval: string)

  datatype PrometheusConfig = PrometheusConfig(url: string, timeout: string)

  datatype MySQLConfig = MySQLConfig(
    host: string,
    port: int,
    database: string,
    username: string,
    password: string,
    charset: string)

  datatype AppConfig = AppConfig(logLevel: string, httpPort: int, workerPool: int)

  /** `Config`. */
  datatype Config = Config(
    prometheus: PrometheusConfig,
    mysql: MySQLConfig,
    app: AppConfig,
    queries: seq<QueryConfig>)

  /** The label Prometheus uses for the metric name. */
  const NameLabel: string := "__name__"

  /** The result type every converted record carries. */
  const InstantResultType: string := "instant"

  /** Go's map index: the value at `key`, or the empty string when absent. */
  function Lookup(m: map<string, string>, key: string): (v: string)
    ensures key in m ==> v == m[key]
    ensures key !in m ==> v == ""
  {
    if key in m then m[key] else ""
  }

  /** The metric name of a sample: its `__name__` label, or the query ID
      when that label is missing or empty. */
  function MetricName(metric: map<string, string>, queryId: string): (name: string)
    ensures NameLabel in metric && metric[NameLabel] != "" ==> name == metric[NameLabel]
    ensures NameLabel !in metric || metric[NameLabel] == "" ==> name == queryId
    ensures name == "" ==> queryId == ""
  {
    var named := Lookup(metric, NameLabel);
    if named == "" then queryId else named
  }

  /** The labels stored with a record: all of the sample's labels except
      `__name__`, with their values. */
  function CleanLabels(metric: map<string, string>): (labels: map<string, string>)
    ensures NameLabel !in labels
    ensures forall k :: k in labels <==> k in metric && k != NameLabel
    ensures forall k :: k in labels ==> labels[k] == metric[k]
  {
    map k | k in metric && k != NameLabel :: metric[k]
  }

  /** Cleaning loses nothing but the name: putting the name label back
      restores the sample's labels. */
  lemma CleanLabelsRestore(metric: map<string, string>)
    requires NameLabel in metric
    ensures CleanLabels(metric)[NameLabel := metric[NameLabel]] == metric
  {
    var restored := CleanLabels(metric)[NameLabel := metric[NameLabel]];
    assert restored.Keys == metric.Keys;
  }

  /** A sample without a name label keeps all its labels. */
  lemma CleanLabelsUnnamed(metric: map<string, string>)
    requires NameLabel !in metric
    ensures CleanLabels(metric) == metric
  {
    assert CleanLabels(metric).Keys == metric.Keys;
  }

  /** Cleaning twice is cleaning once. */
  lemma CleanLabelsIdempotent(metric: map<string, string>)
    ensures CleanLabels(CleanLabels(metric)) == CleanLabels(metric)
  {
    CleanLabelsUnnamed(CleanLabels(metric));
  }

  /** `int64(f)` for the finite timestamps Prometheus sends: truncation
      toward zero. */
  function TruncateToInt(x: real): (n: int)
    ensures 0.0 <= x ==> n as real <= x < n as real + 1.0
    ensures x < 0.0 ==> n as real - 1.0 < x <= n as real
  {
    if x >= 0.0 then x.Floor else -((-x).Floor)
  }

  /** Truncation leaves whole numbers alone and is symmetric about zero. */
  lemma TruncateToIntProperties(x: real, k: int)
    ensures TruncateToInt(k as real) == k
    ensures TruncateToInt(-x) == -TruncateToInt(x)
  {
  }

  /** Why `ToMetricRecord` fails. */
  datatype RecordError = ValueNotJsonNumber(text: string)

  /** The shape `ToMetricRecord` takes for granted: a numeric timestamp
      followed by a string value; anything else makes the Go code panic. */
  predicate HasRecordShape(vs: VectorSample) {
    |vs.value| >= 2 && vs.value[0].JsonNumber? && vs.value[1].JsonString?
  }

  /** `VectorSample.ToMetricRecord`: the sample as a record of query
      `queryId`, collected at `now`. The value string is decoded as a JSON
      number by `decodeJson`. Elements after the second are ignored. */
  function ToMetricRecord(vs: VectorSample, queryId: string, decodeJson: FloatDecoder, now: int)
    : (r: Result<MetricRecord, RecordError>)
    requires HasRecordShape(vs)
    ensures r.Failure? <==> decodeJson(vs.value[1].text).None?
    ensures r.Failure? ==> r.error == ValueNotJsonNumber(vs.value[1].text)
    ensures r.Success? ==>
              && r.value.queryId == queryId
              && r.value.metricName == MetricName(vs.metric, queryId)
              && r.value.labels == CleanLabels(vs.metric)
              && Some(r.value.value) == decodeJson(vs.value[1].text)
              && r.value.timestamp == TruncateToInt(vs.value[0].number)
              && r.value.resultType == InstantResultType
              && r.value.collectedAt == now
  {
    var text := vs.value[1].text;
    match decodeJson(text)
    case None => Failure(ValueNotJsonNumber(text))
    case Some(v) =>
      Success(MetricRecord(0, queryId, MetricName(vs.metric, queryId), CleanLabels(vs.metric),
                           v, TruncateToInt(vs.value[0].number), InstantResultType, now))
  }
}
