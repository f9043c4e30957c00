/** The Prometheus HTTP client of `internal/prometheus`: which request a
    query with a time-range configuration turns into, how its parameters
    are written, and which responses are accepted.

    The network is a parameter: `Http.send` is what the server (or the
    transport) answers to a request, and `Http.decode` is `json.Unmarshal`
    of a body into a response. Clock readings are parameters too; they are
    Unix seconds for the query times. Durations are nanoseconds, as in
    `time.Duration`. */
module Client {
  import opened Wrappers
  import opened Text
  import opened Models
  import opened TimeParser

  /** `Client`: the server's base URL and the request timeout. */
  datatype Client = Client(baseUrl: string, timeout: int)

  /** `time.ParseDuration`, left opaque: a duration in nanoseconds or an
      error message. */
  type DurationParser = string -> Result<int, string>

  /** `NewClient`: the timeout must be a duration. */
  function NewClient(baseUrl: string, timeout: string, parseDuration: DurationParser): (r: Result<Client, string>)
    ensures r.Success? <==> parseDuration(timeout).Success?
    ensures r.Success? ==> r.value.baseUrl == baseUrl && r.value.timeout == parseDuration(timeout).value
  {
    match parseDuration(timeout)
    case Failure(e) => Failure(e)
    case Success(d) => Success(Client(baseUrl, d))
  }

  /** The `*models.TimeRangeConfig` argument of `QueryWithTimeRange`, which
      says how the query's time is chosen. The declaration of that type is
      not part of this model; only the fields `QueryWithTimeRange` reads are
      kept, and `kind` is its `Type` field. */
  datatype TimeRangeConfig = TimeRangeConfig(kind: string, time: string, start: string, end: string, step: string)

  /** What the client asks the server for: one instant, or a range with a
      step. */
  datatype Request =
    | Instant(query: string, time: int)
    | Range(query: string, start: int, end: int, step: int)

  /** An HTTP GET: the URL without its query string, and the query
      parameters (`url.Values` with one value per key). */
  datatype HttpRequest = HttpRequest(url: string, params: map<string, string>)

  /** What came back: a status code and the body, or the error reading it. */
  datatype HttpResponse = HttpResponse(statusCode: int, body: Result<string, string>)

  /** The world outside the model: the transport's answer to a request, and
      the JSON decoder of a response body. */
  datatype Http = Http(send: HttpRequest -> Result<HttpResponse, string>,
                       decode: string -> Result<PrometheusResponse, string>)

  const InstantPath: string := "/api/v1/query"
  const RangePath: string := "/api/v1/query_range"

  /** `int(step.Seconds())`: whole seconds, truncated toward zero. */
  function StepSeconds(step: int): (s: int)
    ensures step >= 0 ==> s * 1_000_000_000 <= step < (s + 1) * 1_000_000_000
    ensures step < 0 ==> (s - 1) * 1_000_000_000 < step <= s * 1_000_000_000
  {
    if step >= 0 then step / 1_000_000_000 else -((-step) / 1_000_000_000)
  }

  /** The query parameters of a request: times as decimal Unix seconds, the
      step as whole seconds followed by `s`. */
  function Params(r: Request): (params: map<string, string>)
    ensures params.Keys == if r.Instant? then {"query", "time"} else {"query", "start", "end", "step"}
    ensures params["query"] == r.query
  {
    match r
    case Instant(q, t) => map["query" := q, "time" := IntToString(t)]
    case Range(q, s, e, step) =>
      map["query" := q, "start" := IntToString(s), "end" := IntToString(e),
          "step" := IntToString(StepSeconds(step)) + "s"]
  }

  /** The HTTP request for `r` against a server: `QueryInstantWithTime` or
      `QueryRange`. */
  function Encode(c: Client, r: Request): (req: HttpRequest)
    ensures req.url == c.baseUrl + (if r.Instant? then InstantPath else RangePath)
    ensures req.params == Params(r)
  {
    HttpRequest(c.baseUrl + (if r.Instant? then InstantPath else RangePath), Params(r))
  }

  /** Reading parameters back, as a server would: `time` makes an instant
      query; `start`, `end` and a `step` ending in `s` make a range. */
  function DecodeParams(params: map<string, string>): (r: Option<Request>)
    ensures r.Some? ==> "query" in params && r.value.query == params["query"]
  {
    if "query" !in params then None
    else if "time" in params then
      match Atoi(params["time"])
      case None => None
      case Some(t) => Some(Instant(params["query"], t))
    else if "start" in params && "end" in params && "step" in params && HasSuffix(params["step"], "s") then
      match (Atoi(params["start"]), Atoi(params["end"]), Atoi(TrimSuffix(params["step"], "s")))
      case (Some(s), Some(e), Some(secs)) => Some(Range(params["query"], s, e, secs * 1_000_000_000))
      case _ => None
    else None
  }

  /** A request with its step cut to whole seconds, as the server sees it. */
  function WholeSeconds(r: Request): Request {
    if r.Range? then r.(step := StepSeconds(r.step) * 1_000_000_000) else r
  }

  /** `time.Unix()` values are int64. */
  predicate TimesInRange(r: Request) {
    match r
    case Instant(_, t) => MinInt64 <= t <= MaxInt64
    case Range(_, s, e, step) =>
      MinInt64 <= s <= MaxInt64 && MinInt64 <= e <= MaxInt64 && MinInt64 <= step <= MaxInt64
  }

  lemma StepSecondsInRange(step: int)
    requires MinInt64 <= step <= MaxInt64
    ensures MinInt64 <= StepSeconds(step) <= MaxInt64
  {
  }

  /** The parameters carry the request exactly, up to the step's fraction of
      a second. */
  lemma ParamsRoundTrip(r: Request)
    requires TimesInRange(r)
    ensures DecodeParams(Params(r)) == Some(WholeSeconds(r))
  {
    var params := Params(r);
    match r
    case Instant(q, t) =>
      AtoiIntToString(t);
    case Range(q, s, e, step) =>
      AtoiIntToString(s);
      AtoiIntToString(e);
      StepSecondsInRange(step);
      var text := IntToString(StepSeconds(step));
      AtoiIntToString(StepSeconds(step));
      assert params["step"] == text + "s";
      assert HasSuffix(text + "s", "s");
      assert TrimSuffix(text + "s", "s") == text;
  }

  /** Why a request fails. */
  datatype ClientError =
    | RequestFailed(message: string)
    | BadStatus(code: int, body: string)
    | ReadFailed(message: string)
    | BadJson(message: string)
    | QueryFailed(status: string)

  /** The text of a client error, as `Error()` prints it. */
  function ClientErrorText(e: ClientError): string {
    match e
    case RequestFailed(m) => "failed to execute request: " + m
    case BadStatus(code, body) => "prometheus API returned status " + IntToString(code) + ": " + body
    case ReadFailed(m) => "failed to read response body: " + m
    case BadJson(m) => "failed to parse JSON response: " + m
    case QueryFailed(status) => "prometheus query failed with status: " + status
  }

  /** The gate shared by `executeQuery` and `QueryRange`: status 200, a body
      that reads and decodes, and a `success` status inside it. The body of
      a non-200 answer is reported as read, or empty if reading it failed. */
  function Accept(resp: HttpResponse, decode: string -> Result<PrometheusResponse, string>)
    : (r: Result<PrometheusResponse, ClientError>)
    ensures r.Success? <==>
              && resp.statusCode == 200
              && resp.body.Success?
              && decode(resp.body.value).Success?
              && decode(resp.body.value).value.status == "success"
    ensures r.Success? ==> r.value == decode(resp.body.value).value
    ensures resp.statusCode != 200 ==> && r.Failure? && r.error.BadStatus? && r.error.code == resp.statusCode
                                       && (resp.body.Success? ==> r.error.body == resp.body.value)
  {
    if resp.statusCode != 200 then Failure(BadStatus(resp.statusCode, resp.body.GetOr("")))
    else if resp.body.Failure? then Failure(ReadFailed(resp.body.error))
    else match decode(resp.body.value)
      case Failure(m) => Failure(BadJson(m))
      case Success(pr) =>
        if pr.status != "success" then Failure(QueryFailed(pr.status)) else Success(pr)
  }

  /** Sending a request and gating the answer. */
  function Execute(c: Client, r: Request, http: Http): (res: Result<PrometheusResponse, ClientError>)
    ensures http.send(Encode(c, r)).Failure? ==> res == Failure(RequestFailed(http.send(Encode(c, r)).error))
    ensures http.send(Encode(c, r)).Success? ==> res == Accept(http.send(Encode(c, r)).value, http.decode)
  {
    match http.send(Encode(c, r))
    case Failure(m) => Failure(RequestFailed(m))
    case Success(resp) => Accept(resp, http.decode)
  }

  /** `QueryInstantWithTime`. */
  function QueryInstantWithTime(c: Client, query: string, time: int, http: Http): Result<PrometheusResponse, ClientError> {
    Execute(c, Instant(query, time), http)
  }

  /** `QueryInstant`: an instant query at the clock reading `now`. */
  function QueryInstant(c: Client, query: string, now: int, http: Http): Result<PrometheusResponse, ClientError> {
    QueryInstantWithTime(c, query, now, http)
  }

  /** `QueryRange`. */
  function QueryRange(c: Client, query: string, start: int, end: int, step: int, http: Http): Result<PrometheusResponse, ClientError> {
    Execute(c, Range(query, start, end, step), http)
  }

  /** A request is answered successfully exactly when the transport delivers
      a 200 answer whose body decodes to a `success` response. */
  lemma ExecuteSucceedsIff(c: Client, r: Request, http: Http)
    ensures Execute(c, r, http).Success? <==>
              && http.send(Encode(c, r)).Success?
              && http.send(Encode(c, r)).value.statusCode == 200
              && http.send(Encode(c, r)).value.body.Success?
              && http.decode(http.send(Encode(c, r)).value.body.value).Success?
              && http.decode(http.send(Encode(c, r)).value.body.value).value.status == "success"
  {
  }

  /** The transport answers `req` with a 200 whose body reads and decodes to
      a response with status `success`. */
  predicate Answered(http: Http, req: HttpRequest) {
    && http.send(req).Success?
    && http.send(req).value.statusCode == 200
    && http.send(req).value.body.Success?
    && http.decode(http.send(req).value.body.value).Success?
    && http.decode(http.send(req).value.body.value).value.status == "success"
  }

  /** The decoded response of an answered request. */
  function AnswerOf(http: Http, req: HttpRequest): PrometheusResponse
    requires Answered(http, req)
  {
    http.decode(http.send(req).value.body.value).value
  }

  /** `QueryInstantWithTime` and `QueryInstant` send one GET to the instant
      endpoint carrying the query and the time in decimal Unix seconds,
      from which a server reads back the same instant query. They succeed
      with the decoded answer exactly when that request is answered, and a
      transport failure is reported as such. */
  lemma QueryInstantRequest(c: Client, query: string, time: int, http: Http)
    requires MinInt64 <= time <= MaxInt64
    ensures var req := HttpRequest(c.baseUrl + "/api/v1/query", map["query" := query, "time" := IntToString(time)]);
            && DecodeParams(req.params) == Some(Instant(query, time))
            && QueryInstant(c, query, time, http) == QueryInstantWithTime(c, query, time, http)
            && (QueryInstantWithTime(c, query, time, http).Success? <==> Answered(http, req))
            && (Answered(http, req) ==> QueryInstantWithTime(c, query, time, http).value == AnswerOf(http, req))
            && (http.send(req).Failure? ==>
                  QueryInstantWithTime(c, query, time, http) == Failure(RequestFailed(http.send(req).error)))
  {
    ParamsRoundTrip(Instant(query, time));
  }

  /** `QueryRange` sends one GET to the range endpoint carrying the query,
      both ends in decimal Unix seconds and the step in whole seconds with
      an `s`, from which a server reads back the range with its step cut to
      whole seconds. It succeeds with the decoded answer exactly when that
      request is answered, and a transport failure is reported as such. */
  lemma QueryRangeRequest(c: Client, query: string, start: int, end: int, step: int, http: Http)
    requires MinInt64 <= start <= MaxInt64 && MinInt64 <= end <= MaxInt64 && MinInt64 <= step <= MaxInt64
    ensures var req := HttpRequest(c.baseUrl + "/api/v1/query_range",
                                   map["query" := query, "start" := IntToString(start), "end" := IntToString(end),
                                       "step" := IntToString(StepSeconds(step)) + "s"]);
            && DecodeParams(req.params) == Some(Range(query, start, end, StepSeconds(step) * 1_000_000_000))
            && (QueryRange(c, query, start, end, step, http).Success? <==> Answered(http, req))
            && (Answered(http, req) ==> QueryRange(c, query, start, end, step, http).value == AnswerOf(http, req))
            && (http.send(req).Failure? ==>
                  QueryRange(c, query, start, end, step, http) == Failure(RequestFailed(http.send(req).error)))
  {
    ParamsRoundTrip(Range(query, start, end, step));
  }

  /** Why planning a time-range query fails. */
  datatype PlanError =
    | BadQueryTime(cause: ParseError)
    | BadStart(cause: ParseError)
    | BadEnd(cause: ParseError)
    | BadStep(message: string)

  /** The dispatch of `QueryWithTimeRange` on the range type, before anything
      is sent. `parserNow` is the clock reading the relative-time parser is
      built on, `queryNow` the later reading an instant query without a
      time uses. */
  function Plan(query: string, tr: TimeRangeConfig, parserNow: int, queryNow: int, parseDuration: DurationParser)
    : (r: Result<Request, PlanError>)
    ensures tr.kind != "range" && (tr.kind != "instant" || tr.time == "") ==> r == Success(Instant(query, queryNow))
    ensures tr.kind == "instant" && tr.time != "" ==>
              match Parse(NewRelativeTimeParser(parserNow), tr.time)
              case Success(t) => r == Success(Instant(query, t))
              case Failure(e) => r == Failure(BadQueryTime(e))
    ensures tr.kind == "range" ==>
              (r.Success? <==>
                 && Parse(NewRelativeTimeParser(parserNow), tr.start).Success?
                 && Parse(NewRelativeTimeParser(parserNow), tr.end).Success?
                 && parseDuration(tr.step).Success?)
    ensures tr.kind == "range" && r.Success? ==>
              r.value == Range(query, Parse(NewRelativeTimeParser(parserNow), tr.start).value,
                               Parse(NewRelativeTimeParser(parserNow), tr.end).value,
                               parseDuration(tr.step).value)
  {
    var parser := NewRelativeTimeParser(parserNow);
    if tr.kind == "instant" then
      if tr.time == "" then Success(Instant(query, queryNow))
      else
        match Parse(parser, tr.time)
        case Failure(e) => Failure(BadQueryTime(e))
        case Success(t) => Success(Instant(query, t))
    else if tr.kind == "range" then
      match Parse(parser, tr.start)
      case Failure(e) => Failure(BadStart(e))
      case Success(start) =>
        match Parse(parser, tr.end)
        case Failure(e) => Failure(BadEnd(e))
        case Success(end) =>
          match parseDuration(tr.step)
          case Failure(m) => Failure(BadStep(m))
          case Success(step) => Success(Range(query, start, end, step))
    else
      Success(Instant(query, queryNow))
  }

  /** A range plan reports the first of start, end and step that fails. */
  lemma PlanRangeFirstFailure(query: string, tr: TimeRangeConfig, parserNow: int, queryNow: int, parseDuration: DurationParser)
    requires tr.kind == "range"
    ensures var p := NewRelativeTimeParser(parserNow);
            var r := Plan(query, tr, parserNow, queryNow, parseDuration);
            && (Parse(p, tr.start).Failure? ==> r == Failure(BadStart(Parse(p, tr.start).error)))
            && (Parse(p, tr.start).Success? && Parse(p, tr.end).Failure? ==> r == Failure(BadEnd(Parse(p, tr.end).error)))
            && (Parse(p, tr.start).Success? && Parse(p, tr.end).Success? && parseDuration(tr.step).Failure? ==>
                  r == Failure(BadStep(parseDuration(tr.step).error)))
  {
  }

  /** Why `QueryWithTimeRange` fails: in planning, or in the query itself. */
  datatype RangeQueryError = PlanningFailed(plan: PlanError) | QueryingFailed(query: ClientError)

  /** `QueryWithTimeRange`: plan, then send. */
  function QueryWithTimeRange(c: Client, query: string, tr: TimeRangeConfig, parserNow: int, queryNow: int,
                              parseDuration: DurationParser, http: Http)
    : (r: Result<PrometheusResponse, RangeQueryError>)
    ensures Plan(query, tr, parserNow, queryNow, parseDuration).Failure? ==>
              r == Failure(PlanningFailed(Plan(query, tr, parserNow, queryNow, parseDuration).error))
    ensures Plan(query, tr, parserNow, queryNow, parseDuration).Success? ==>
              var sent := Execute(c, Plan(query, tr, parserNow, queryNow, parseDuration).value, http);
              && (r.Success? <==> sent.Success?)
              && (r.Success? ==> r.value == sent.value)
              && (sent.Failure? ==> r == Failure(QueryingFailed(sent.error)))
  {
    match Plan(query, tr, parserNow, queryNow, parseDuration)
    case Failure(e) => Failure(PlanningFailed(e))
    case Success(req) =>
      match Execute(c, req, http)
      case Failure(e) => Failure(QueryingFailed(e))
      case Success(resp) => Success(resp)
  }

  /** A plan that fails sends nothing: the outcome is the same whatever the
      transport would have answered. */
  lemma PlanFailureSendsNothing(c: Client, query: string, tr: TimeRangeConfig, parserNow: int, queryNow: int,
                                parseDuration: DurationParser, h1: Http, h2: Http)
    requires Plan(query, tr, parserNow, queryNow, parseDuration).Failure?
    ensures QueryWithTimeRange(c, query, tr, parserNow, queryNow, parseDuration, h1)
            == QueryWithTimeRange(c, query, tr, parserNow, queryNow, parseDuration, h2)
  {
  }

  /** Why the connection test fails. */
  datatype ConnectionError = ConnectionTestFailed(cause: ClientError)

  /** `TestConnection`: an instant query for `up` at `now`; it fails exactly
      when that query fails, with its error. */
  function TestConnection(c: Client, now: int, http: Http): (r: Option<ConnectionError>)
    ensures r.None? <==> QueryInstant(c, "up", now, http).Success?
    ensures r.Some? ==> r.value.cause == QueryInstant(c, "up", now, http).error
  {
    match QueryInstant(c, "up", now, http)
    case Failure(e) => Some(ConnectionTestFailed(e))
    case Success(_) => None
  }

  /** The connection test asks for exactly one thing: `up`, at the current
      instant, on the instant-query endpoint. */
  lemma TestConnectionRequest(c: Client, now: int)
    requires MinInt64 <= now <= MaxInt64
    ensures Encode(c, Instant("up", now)).url == c.baseUrl + "/api/v1/query"
    ensures DecodeParams(Encode(c, Instant("up", now)).params) == Some(Instant("up", now))
  {
    ParamsRoundTrip(Instant("up", now));
  }
}
