# prom-etl-db core in Dafny

This project models the core of prom-etl-db, a service that runs PromQL queries against Prometheus on a schedule and stores the samples in MySQL. It covers five parts:

- **Relative time parser** (`internal/timeparser`). It resolves Grafana-style expressions such as `now`, `now-1h`, `now-1d/d` and `now+1d/d` against a base instant in a fixed UTC+8 zone. It also builds the "yesterday" and "today" ranges. The modules are `TimeParser`, `Calendar` (Go's civil calendar, `time.Date` normalisation and `AddDate`) and `Text` (`strings.TrimSpace`, `strings.ToLower`, `strconv.Atoi`, decimal rendering).
- **Records** (`internal/models`), in the module `Models`. This covers sample-to-record conversion, label cleaning, metric-name fallback and timestamp truncation.
- **Prometheus client** (`internal/prometheus/client.go`), in the module `Client`. This covers request parameters, the choice between instant and range queries from a time-range configuration, and acceptance or rejection of HTTP responses.
- **Executor** (`internal/executor/executor.go`), in the module `Executor`. This covers one query run with its writes to the store, the retry loop as a trace of waits, cancellations and runs, and the connection checks.
- **Configuration** (`internal/config/config.go`), in the module `Config`. This covers loading from the environment with defaults, validation in its fixed order, the MySQL DSN and the default query.

Instants are Unix seconds. The parser's time zone is a fixed offset in seconds (28800 by default). The executor's clock is in nanoseconds. Collaborators the model cannot see are parameters:

- **HTTP transport and JSON decoding:** a `Http` value.
- **`time.ParseDuration`:** a `DurationParser`.
- **`strconv.ParseFloat` and `json.Unmarshal` into `float64`:** a `FloatDecoder`.
- **The store's write results:** the `storeMetrics` and `storeExecution` fields of `QueryEnv`.
- **The clock readings of each attempt:** the `envs` argument.
- **Context cancellation during a retry wait:** the `cancelled` argument.
- **The environment:** a map.
- **The queries read from the database:** a `Result` argument.

## Model

| member | source | states |
|---|---|---|
| Text.TrimSpace | internal/timeparser/parser.go:40 | The result has no leading or trailing white space (Go's `unicode.IsSpace` set), and it is empty exactly when the input is all white space |
| Text.TrimSpaceOf | internal/timeparser/parser.go:40 | Surrounding a text that neither starts nor ends with white space by white space on both sides and trimming gives the text back, so the result is exactly the middle of the input |
| Text.TrimSpaceMiddle | internal/timeparser/parser.go:40 | Every string is its trimmed form with white space before and after it |
| Text.ToLower | internal/timeparser/parser.go:40 | The result has the same length, and each ASCII capital is replaced by its lower-case letter |
| Text.ToLowerIdempotent | internal/timeparser/parser.go:40 | Lower-casing twice is the same as lower-casing once |
| Text.TrimSpaceLower | internal/timeparser/parser.go:40 | The normalised expression contains no ASCII capital letter (`A`-`Z`) |
| Text.Atoi | internal/timeparser/parser.go:99-102 | For a digit string: it succeeds exactly when the value fits in int64, and it then returns that value. Any success lies in the int64 range |
| Text.AtoiParts | internal/timeparser/parser.go:99-102 | On an optional `+` or `-` followed by one or more digits, the result is the signed value when it fits in int64 and an error otherwise |
| Text.AtoiForm | internal/timeparser/parser.go:99-102 | Nothing else is accepted: every string that parses is an optional sign followed by one or more digits |
| Text.AtoiIntToString | internal/config/config.go:135-142 | Parsing the decimal rendering of an int64 gives the number back |
| Text.IntToStringInjective | internal/config/config.go:146 | Distinct integers render as distinct decimal strings |
| Calendar.CivilFromDaysInverse | internal/timeparser/parser.go:73 | Converting a day number to a civil date and back returns the same day number |
| Calendar.DaysFromCivilInverse | internal/timeparser/parser.go:73 | Converting a valid civil date to its day number and back returns the same date |
| Calendar.CivilFromDaysValid | internal/timeparser/parser.go:73 | Every day number maps to a valid Gregorian date |
| Calendar.CivilFromDaysInjective | internal/timeparser/parser.go:73 | Distinct day numbers give distinct dates |
| Calendar.InstantOfLocalDate | internal/timeparser/parser.go:59 | An instant equals its local date plus its second of day in the zone |
| Calendar.LocalDateOfInstant | internal/timeparser/parser.go:73 | The instant built from a valid date and second of day reads back as that date and that second |
| Calendar.StartOfDay | internal/timeparser/parser.go:73 | The start of the day is at most the instant, less than a day before it, and at local midnight |
| Calendar.StartOfDayIsMidnight | internal/timeparser/parser.go:73 | The start of the day is `time.Date(y, m, d, 0, 0, 0, 0, loc)` for the instant's local date |
| Calendar.StartOfDayUnique | internal/timeparser/parser.go:73 | A local midnight less than a day before the instant is its start of day |
| Calendar.StartOfDayIdempotent | internal/timeparser/parser.go:73 | Truncating to the start of the day twice is the same as doing it once |
| Calendar.StartOfDayShift | internal/timeparser/parser.go:73 | Shifting by whole days commutes with truncation to the start of the day |
| Calendar.SameLocalDate | internal/timeparser/parser.go:73 | Two instants share a local date exactly when they share a start of day |
| Calendar.AddDateDays | internal/timeparser/parser.go:117-120 | `AddDate`: in a fixed zone, adding n days adds n × 86400 seconds |
| Calendar.AddDateYearsExact | internal/timeparser/parser.go:123-124 | `AddDate`: when the shifted date exists, adding years moves the local date by that many years and keeps the time of day |
| Calendar.AddDateLeapDay | internal/timeparser/parser.go:123-124 | One year after 29 February 2024 is 1 March 2025, which is Go's normalisation |
| Calendar.LeapDayNormalised | internal/timeparser/parser.go:73 | The date 29 February 2025 is normalised to 1 March 2025 |
| TimeParser.NewRelativeTimeParser | internal/timeparser/parser.go:18-26 | A new parser keeps the base instant and uses the UTC+8 offset |
| TimeParser.MatchRelative | internal/timeparser/parser.go:88-97 | A match is a well-formed sign/digits/unit triple whose rendering is exactly the expression |
| TimeParser.MatchRender | internal/timeparser/parser.go:88-97 | Every well-formed triple is matched back from its rendering |
| TimeParser.ParseNormal | internal/timeparser/parser.go:34-50 | `Parse`: an expression already trimmed and lower-case resolves without change |
| TimeParser.ParseBasicRender | internal/timeparser/parser.go:81-128 | `parseBasicGrafanaExpr`: a rendered relative expression shifts the base by its signed value in its unit |
| TimeParser.ShiftBySucceeds | internal/timeparser/parser.go:110-127 | The unit `switch`: every unit the pattern admits is handled, so the shift succeeds |
| TimeParser.ShiftByClock | internal/timeparser/parser.go:111-116 | The unit `switch`: seconds, minutes and hours move the base by 1, 60 and 3600 seconds per unit |
| TimeParser.ResolveSeconds | internal/timeparser/parser.go:111-112 | `now±Ns` is the base plus or minus N seconds |
| TimeParser.ResolveMinutes | internal/timeparser/parser.go:113-114 | `now±Nm` is the base plus or minus N × 60 seconds |
| TimeParser.ResolveHours | internal/timeparser/parser.go:115-116 | `now±Nh` is the base plus or minus N × 3600 seconds |
| TimeParser.ResolveDays | internal/timeparser/parser.go:117-118 | `now±Nd` is `AddDate(0, 0, ±N)` on the base |
| TimeParser.ResolveDaysExact | internal/timeparser/parser.go:117-118 | In the fixed zone, `now±Nd` is the base plus or minus N × 86400 seconds |
| TimeParser.ResolveWeeks | internal/timeparser/parser.go:119-120 | `now±Nw` is `AddDate(0, 0, ±7N)` on the base |
| TimeParser.ResolveWeeksExact | internal/timeparser/parser.go:119-120 | In the fixed zone, `now±Nw` is the base plus or minus 7N × 86400 seconds |
| TimeParser.ResolveYears | internal/timeparser/parser.go:123-124 | `now±Ny` is `AddDate(±N, 0, 0)` on the base |
| TimeParser.ResolveOverflow | internal/timeparser/parser.go:99-102 | A number past int64 is an invalid-number error naming the digits |
| TimeParser.ParseIgnoresCase | internal/timeparser/parser.go:40 | Parsing an expression and parsing its lower-case form give the same result |
| TimeParser.ParseMonthUnreachable | internal/timeparser/parser.go:121-122 | No expression normalises to a month shift, because lower-casing turns `M` into `m` |
| TimeParser.MonthIsMinute | internal/timeparser/parser.go:121-122 | `now-1M` resolves exactly like `now-1m`, not as a month shift |
| TimeParser.MonthMinuteBack | internal/timeparser/parser.go:121-122 | `now-1M` is one minute (60 seconds) before the base instant |
| TimeParser.ParseNow | internal/timeparser/parser.go:35-46 | The empty string and any spacing or casing of `now` give the base instant |
| TimeParser.ParseBlank | internal/timeparser/parser.go:34-50 | A non-empty all-white-space expression is rejected as the unsupported expression "" |
| TimeParser.ResolveDaySuffix | internal/timeparser/parser.go:58-78 | `parseGrafanaTime`: with a `/d` suffix, the expression without the suffix is resolved and then truncated to the start of its day, and errors pass through |
| TimeParser.ResolveDayTruncation | internal/timeparser/parser.go:62-74 | A `/d` result is local midnight on the same local date, at most a day before the untruncated time |
| TimeParser.ParseBasicSucceedsIff | internal/timeparser/parser.go:81-128 | `parseBasicGrafanaExpr`: the expression succeeds exactly when it is `now` or a relative form whose number fits in int64 |
| TimeParser.AcceptedWithSuffix | internal/timeparser/parser.go:58-78 | `parseGrafanaTime`: an expression is accepted exactly when its basic part is, with the `/d` suffix removed first |
| TimeParser.ParseSucceedsIff | internal/timeparser/parser.go:34-50 | `Parse` succeeds exactly when the input is empty or its trimmed lower-case form is accepted |
| TimeParser.ParseNeverUnsupportedUnit | internal/timeparser/parser.go:125-126 | The unsupported-unit error is never returned, because the pattern admits only the seven handled units |
| TimeParser.ParseToday | internal/timeparser/parser.go:140-145 | `now/d` is the start of the base instant's local day |
| TimeParser.ParseYesterday | internal/timeparser/parser.go:131-137 | `Parse("now-1d/d")` (the start `GetYesterdayRange` asks for) succeeds with the local midnight of the instant one day before the base instant |
| TimeParser.ParseTomorrow | internal/timeparser/parser.go:140-145 | `Parse("now+1d/d")` (the end `GetTodayRange` asks for) succeeds with the local midnight of the instant one day after the base instant |
| TimeParser.YesterdayRange | internal/timeparser/parser.go:131-137 | `GetYesterdayRange`: the range is one day long, ends at today's midnight (which is where today's range starts), and the base instant lies in the day after it |
| TimeParser.TodayRange | internal/timeparser/parser.go:140-145 | `GetTodayRange`: the range runs from local midnight to the next midnight and contains the base instant |
| TimeParser.SameDayYesterday | internal/timeparser/parser.go:131-137 | Two parsers in one zone give the same yesterday range exactly when their base instants share a local date |
| TimeParser.YesterdayConsistent | internal/timeparser/parser_test.go:95-122 | Any two times of the same local day give the same yesterday range |
| TimeParserExamples.MidnightExamples | internal/timeparser/parser_test.go:8-69 | At 2024-01-15 14:30:45 UTC, `now/d` is 2024-01-15 00:00 UTC+8 and `now-1d/d` is 2024-01-14 00:00 UTC+8 |
| TimeParserExamples.NowExample | internal/timeparser/parser_test.go:18-24 | `now` is the base instant |
| TimeParserExamples.HourExample | internal/timeparser/parser_test.go:39-45 | `now-1h` is 3600 seconds before the base |
| TimeParserExamples.HalfHourExample | internal/timeparser/parser_test.go:46-52 | `now-30m` is 1800 seconds before the base |
| TimeParserExamples.YesterdayRangeExample | internal/timeparser/parser_test.go:71-93 | Yesterday's range at the test base instant is from 2024-01-14 to 2024-01-15, both at midnight UTC+8 |
| TimeParserExamples.ConsistencyExample | internal/timeparser/parser_test.go:95-122 | 00:00:00, 12:30:00 and 23:59:59 UTC+8 on 2024-01-15 give the same yesterday range |
| TimeParserExamples.InvalidExample | internal/timeparser/parser_test.go:136 | `invalid` is rejected as an unsupported expression |
| TimeParserExamples.NonNumericExample | internal/timeparser/parser_test.go:137 | `now-abc` is rejected as an unsupported expression |
| TimeParserExamples.UnknownUnitExample | internal/timeparser/parser_test.go:138 | `now-1z` is rejected as an unsupported expression, not as an unknown unit |
| TimeParserExamples.MissingNowExample | internal/timeparser/parser_test.go:139 | `1d` is rejected as an unsupported expression |
| TimeParserExamples.ShoutedNowExample | internal/timeparser/parser.go:35-46 | ` NOW ` is the base instant |
| Models.StatusText | internal/models/models.go:46 | Each execution status is stored as one of `running`, `success` and `failed` |
| Models.StatusTextInjective | internal/models/models.go:46 | Distinct statuses are stored as distinct texts |
| Models.Lookup | internal/models/models.go:120 | The map value when the key is present, otherwise the empty string |
| Models.MetricName | internal/models/models.go:119-123 | The `__name__` label when it is present and non-empty, otherwise the query ID |
| Models.CleanLabels | internal/models/models.go:135-141 | Exactly the sample's labels other than `__name__`, with the same values |
| Models.CleanLabelsRestore | internal/models/models.go:135-141 | Putting the name label back restores the sample's labels, so only the name is lost |
| Models.CleanLabelsUnnamed | internal/models/models.go:135-141 | A sample without a name label keeps all its labels |
| Models.CleanLabelsIdempotent | internal/models/models.go:135-141 | Cleaning twice is the same as cleaning once |
| Models.TruncateToInt | internal/models/models.go:126 | `int64(f)` truncates toward zero, so the result is within one of the input, on the side of zero |
| Models.TruncateToIntProperties | internal/models/models.go:126 | Whole numbers are unchanged, and truncation is symmetric about zero |
| Models.ToMetricRecord | internal/models/models.go:117-152 | It fails exactly when the value text does not decode. On success every field comes from the sample: name, cleaned labels, decoded value, truncated timestamp, `instant` and the collection time |
| Executor.ConvertSampleToRecord | internal/executor/executor.go:153-198 | The three shape errors are checked in the source's order. Success requires exactly two elements, a numeric timestamp, a string value and a value that parses, and the record's fields are then as in `ToMetricRecord` |
| Executor.ConversionsAgree | internal/executor/executor.go:153-198 | On well-shaped pairs whose value both decoders read the same way, the executor's converter and the model's converter agree |
| Executor.LongerTupleDiverges | internal/executor/executor.go:161-163 | The two converters differ on samples with more than two elements: the executor rejects them and the model's converter accepts them |
| Executor.ConvertAll | internal/executor/executor.go:96-105 | At most one record per sample |
| Executor.ConvertAllSound | internal/executor/executor.go:96-105 | Every record is the conversion of one of the samples |
| Executor.ConvertAllAppend | internal/executor/executor.go:96-105 | Converting a concatenation is the concatenation of the conversions, so order is kept |
| Executor.SkipMalformed | internal/executor/executor.go:99-103 | A sample that fails to convert is skipped without affecting its neighbours |
| Executor.ConvertAllComplete | internal/executor/executor.go:96-105 | When every sample converts, there is one record per sample, in order |
| Executor.Milliseconds | internal/executor/executor.go:58 | `Duration.Milliseconds()` truncates nanoseconds toward zero |
| Executor.RunQuery | internal/executor/executor.go:33-150 | After the answer arrives, exactly one execution record is written and it is the last write. The record is closed (ID, name, start and end wall-clock readings, the monotonic elapsed time in milliseconds, non-running status), and it is failed with the error text exactly when the run fails |
| Executor.RunQueryPaths | internal/executor/executor.go:53-94 | A Prometheus failure or an unparsable result writes only the failed execution record and returns that error |
| Executor.RunQueryStores | internal/executor/executor.go:96-149 | Records are written only when there are some. The run fails exactly when that write fails. On success the record count is the number of converted records |
| Executor.ExecuteQuery | internal/executor/executor.go:33-150 | The same three guarantees for a whole run with the instant query |
| Executor.ExecutionStoreIgnored | internal/executor/executor.go:139-141 | A failed write of the execution record does not change the run's outcome |
| Executor.RetryInterval | internal/executor/executor.go:207-210 | The configured interval, or 5 s when it does not parse |
| Executor.AppendEvent | internal/executor/executor.go:204-234 | Appending an event adds it to the runs exactly when it is a run |
| Executor.ExecutionsPerRun | internal/executor/executor.go:204-234 | When every run writes one execution record, the trace holds exactly one execution record per run |
| Executor.Attempts | internal/executor/executor.go:204 | Attempt i is the i-th run, in order |
| Executor.ScheduleRuns | internal/executor/executor.go:204-230 | The runs of the first n loop iterations are attempts 0 to n-1, in order |
| Executor.ScheduleWaits | internal/executor/executor.go:205-224 | In the loop's trace, each retry is preceded by a wait of the retry interval, no wait is last, and the first run is not a retry |
| Executor.Retry | internal/executor/executor.go:201-237 | At most retryCount+1 runs happen. Every run before the last failed. The loop succeeds exactly when the last run succeeded. A cancellation happens only during a wait before a retry, and it ends the loop: no run follows a cancelled wait. Exhaustion reports retryCount+1 attempts and the last error |
| Executor.ExecuteQueryWithRetry | internal/executor/executor.go:201-237 | The same for real query runs. The trace is exactly the reference schedule: no wait before the first attempt, a wait of the retry interval before each retry, and a cancellation only as the last event, after the wait it cut short. The runs are the successive attempts, and each run leaves exactly one execution record |
| Executor.TestConnections | internal/executor/executor.go:240-253 | Prometheus is probed first. MySQL is probed only if Prometheus answers. It succeeds exactly when both succeed, and otherwise it reports the first failure |
| Client.NewClient | internal/prometheus/client.go:24-41 | It succeeds exactly when the timeout parses, keeping the base URL and the parsed timeout |
| Client.StepSeconds | internal/prometheus/client.go:168 | `int(step.Seconds())` truncates nanoseconds toward zero |
| Client.StepSecondsInRange | internal/prometheus/client.go:168 | For an int64 step, the seconds value also fits in int64 |
| Client.Params | internal/prometheus/client.go:59-61 | An instant request sends exactly `query` and `time`, a range request sends exactly `query`, `start`, `end` and `step`, and `query` is the query text |
| Client.Encode | internal/prometheus/client.go:51-62 | The URL is the base URL followed by `/api/v1/query` or `/api/v1/query_range`, with the request's parameters |
| Client.ParamsRoundTrip | internal/prometheus/client.go:164-169 | Decoding the parameters of an int64-range request gives the request back, with the step in whole seconds |
| Client.Accept | internal/prometheus/client.go:127-150 | A response is accepted exactly when its status is 200, the body reads, the JSON decodes and the status field is `success`. A non-200 status is reported with its code and, when the body reads, with the body text |
| Client.Execute | internal/prometheus/client.go:109-151 | A transport failure is reported as such, and otherwise the response is judged by `Accept` |
| Client.ExecuteSucceedsIff | internal/prometheus/client.go:109-151 | A query succeeds exactly when sending works, the status is 200, the body reads, the JSON decodes and the status field is `success` |
| Client.Plan | internal/prometheus/client.go:68-106 | Types other than `range` and `instant`, and `instant` without a time, query now. An instant with a time parses it. A range succeeds exactly when start, end and step all parse, and uses those values |
| Client.PlanRangeFirstFailure | internal/prometheus/client.go:84-98 | The first of start, end and step that fails is the error reported |
| Client.QueryWithTimeRange | internal/prometheus/client.go:68-106 | A planning error is returned as is. Otherwise the planned request is sent: its answer is returned on success, and its failure is returned as a querying error |
| Client.PlanFailureSendsNothing | internal/prometheus/client.go:75-98 | When planning fails the result does not depend on the transport, so nothing is sent |
| Client.QueryInstantRequest | internal/prometheus/client.go:43-65 | `QueryInstant` and `QueryInstantWithTime` send the query and the time in decimal Unix seconds to `/api/v1/query`, and a server reads back the same instant query. They succeed with the decoded answer exactly when the transport answers that request with a 200 whose body decodes to a `success` response, and a transport failure is reported as such |
| Client.QueryRangeRequest | internal/prometheus/client.go:154-212 | `QueryRange` sends the query, both ends in decimal Unix seconds and the step in whole seconds followed by `s` to `/api/v1/query_range`, and a server reads back the range with its step cut to whole seconds. It succeeds with the decoded answer exactly when the transport answers that request with a 200 whose body decodes to a `success` response, and a transport failure is reported as such |
| Client.TestConnection | internal/prometheus/client.go:215-222 | The connection test succeeds exactly when the instant query `up` succeeds, and otherwise it wraps that error |
| Client.TestConnectionRequest | internal/prometheus/client.go:43-65 | The connection test queries `up` at `/api/v1/query`, and its parameters decode back to that request |
| Config.EnvOrDefault | internal/config/config.go:127-132 | The variable's value when it is set and non-empty, otherwise the default |
| Config.EmptyIsUnset | internal/config/config.go:127-132 | A variable set to the empty string reads like an unset one |
| Config.EnvOrDefaultNonEmpty | internal/config/config.go:127-132 | With a non-empty default the result is never empty |
| Config.EnvIntOrDefault | internal/config/config.go:135-142 | The parsed value when the variable is set and is a valid int64, otherwise the default |
| Config.EnvIntRoundTrip | internal/config/config.go:135-142 | Setting a variable to the decimal text of an int64 reads that number back |
| Config.EnvIntSigned | internal/config/config.go:135-142 | A leading sign is accepted: `+3306` reads as 3306 and `-1` as -1 |
| Config.EnvIntMalformed | internal/config/config.go:135-142 | A malformed number such as `8080x` falls back to the default |
| Config.LoadConfig | internal/config/config.go:14-26 | Each field is read from its variable with the source's default, and the query list is empty |
| Config.LoadConfigDefaults | internal/config/config.go:53-72 | With no variables set, the configuration is exactly the documented defaults |
| Config.CheckQueries | internal/config/config.go:114-121 | No error exactly when every query has an ID and a query. Otherwise it reports the first bad query's index, and a missing ID takes precedence |
| Config.ValidateConfig | internal/config/config.go:96-124 | Valid exactly when the URL, host, database and username are non-empty and every query is complete. Errors are reported in the source's order |
| Config.LoadConfigValid | internal/config/config.go:53-72 | The configuration loaded from any environment passes validation, because every required default is non-empty |
| Config.LoadConfigWithDB | internal/config/config.go:29-50 | A query-loading failure is reported first. Loading succeeds exactly when the queries load and are all complete, and yields the environment configuration with those queries |
| Config.DSNRoundTrip | internal/config/config.go:145-154 | `GetMySQLDSN`: for fields free of the DSN's separators, parsing the DSN gives every field back |
| Config.DSNNotEscaped | internal/config/config.go:145-154 | Fields are not escaped, so a `:` moved between username and password gives the same DSN |
| Config.DefaultQueries | internal/config/config.go:157-171 | One query, enabled and complete |
| Config.DefaultQueriesValid | internal/config/config.go:157-171 | Loading with the default queries succeeds with exactly those queries |

## Left out

- HTTP transport, URL encoding, headers, JSON decoding and `io.ReadAll` are parameters (`Http`). The model keeps only their outcomes.
- Client.Execute: the `url.Parse` of the query URL (client.go lines 54-57 and 159-162) is not modelled. `PROMETHEUS_URL` is never validated, so a base URL that `url.Parse` rejects (one with a bad `%` escape, say) makes the source fail with "failed to parse query URL" before anything is sent. The model sends the request instead.
- Client.ExecuteSucceedsIff: like `Client.Execute`, it describes only base URLs that `url.Parse` accepts.
- Client.QueryInstantRequest: like `Client.Execute`, it describes only base URLs that `url.Parse` accepts.
- Client.QueryRangeRequest: like `Client.Execute`, it describes only base URLs that `url.Parse` accepts.
- Client.TestConnection: like `Client.Execute`, it describes only base URLs that `url.Parse` accepts.
- Client.Accept: a response body is either read whole or fails with an error. On a non-200 answer, Go's `body, _ := io.ReadAll(resp.Body)` (client.go lines 129 and 190) keeps whatever bytes were read before a read error and prints them in the error message. The model prints `""` in that case. When the body reads, its text is in the message as in the source.
- Floating point: `strconv.ParseFloat` and the JSON decoding of a sample value are opaque decoders. Timestamps are exact reals. The `int64(float64)` conversion of out-of-range timestamps and float rounding are not modelled.
- `time.ParseDuration` is an opaque parser. Overflow of `time.Duration` arithmetic (seconds, minutes and hours multiplied into nanoseconds) is not modelled, because instants are unbounded seconds.
- TimeParser.ResolveSeconds: `time.Duration(value) * time.Second` wraps around int64 nanoseconds once the shift exceeds about 9.2 × 10^9 seconds (292 years). The model's shift is exact, so it agrees with Go only below that bound.
- TimeParser.ResolveMinutes: `time.Duration(value) * time.Minute` wraps around int64 nanoseconds once the shift exceeds about 9.2 × 10^9 seconds (292 years). The model's shift is exact, so it agrees with Go only below that bound.
- TimeParser.ResolveHours: `time.Duration(value) * time.Hour` wraps around int64 nanoseconds once the shift exceeds about 9.2 × 10^9 seconds (292 years). The model's shift is exact, so it agrees with Go only below that bound.
- TimeParser.ResolveWeeks: `value*7` is an int64 product in the source and wraps around for counts above MaxInt64 / 7. The model multiplies unbounded integers, so it agrees with Go only for counts up to MaxInt64 / 7.
- TimeParser.ResolveWeeksExact: the same int64 bound on `value*7` applies. Go's `time.Time` also wraps when the shifted instant leaves the range its int64 seconds since year 1 can hold, and the model's instants are unbounded.
- TimeParser.ResolveDays: Go's `AddDate` and `time.Date` wrap once the result leaves the int64 range of seconds since year 1. The model's calendar arithmetic is exact, so it agrees with Go only for instants inside that range.
- TimeParser.ResolveDaysExact: Go's `AddDate` and `time.Date` wrap once the result leaves the int64 range of seconds since year 1. The model's calendar arithmetic is exact, so it agrees with Go only for instants inside that range.
- TimeParser.ResolveYears: Go's `AddDate` and `time.Date` wrap once the result leaves the int64 range of seconds since year 1. The model's calendar arithmetic is exact, so it agrees with Go only for instants inside that range.
- Calendar.AddDate: Go's `AddDate` and `time.Date` wrap once the result leaves the int64 range of seconds since year 1. The model's calendar arithmetic is exact, so it agrees with Go only for instants inside that range.
- Client.StepSeconds: the float division in `step.Seconds()` is modelled as exact truncation of nanoseconds. Go's float sum can round up to the next whole second for steps above about 2^23 seconds whose fractional part is within a nanosecond of a whole second.
- Clocks: each run's `time.Now()` readings are parameters (`QueryEnv`). The wall-clock start and end readings go into the record. The duration is `endTime.Sub(startTime)`, which Go computes from the monotonic readings, so it is a separate parameter (`elapsed`) and need not equal the difference of the wall-clock readings. The metric records' `CollectedAt` comes from one further reading per run (`collectedAt`); see the next two lines.
- Executor.ConvertAll: `convertSampleToRecord` calls `time.Now()` once per sample (executor.go line 196), so the records of one run can carry different `CollectedAt` values. The model gives every record of a run the single reading `now`, so it does not promise anything about how those readings differ.
- Models.ToMetricRecord: it likewise calls `time.Now()` itself (models.go line 150). The model takes that reading as the parameter `now`.
- Cancellation: the context is modelled only at the wait between attempts, through the `cancelled` oracle. A cancelled context inside a query shows up as that query's failure.
- Executor.Retry and Executor.ExecuteQueryWithRetry also return the number of runs and the event trace. The source returns only the error, so these extra results exist only to state the contract.
- `SetLocation` and zones other than fixed offsets are not modelled: every parser uses a fixed offset in seconds.
- Text.ToLower: folds ASCII letters only. The expression grammar is ASCII, so only the text of error messages could differ.
- The month unit `M` is unreachable, because `Parse` lower-cases its input before matching. The model states this (`TimeParser.ParseMonthUnreachable`, `TimeParser.MonthIsMinute`, `TimeParser.MonthMinuteBack`) rather than defining a month shift.
- Logging (`internal/logger`) is not modelled. Log calls have no effect on results.
- `LoadQueriesFromDB` (`internal/config/database_config.go`) is not part of this model. Its result is a parameter of `Config.LoadConfigWithDB`.
- `PrintConfig` only prints and is not modelled.
- `ParseVectorResult` re-encodes JSON. Its outcome is the `vector` field of `PrometheusResponse`.
- `GetMetrics` and `Close` of the client are not part of this model.
- `examples/yesterday_query.go` is a usage example and is not part of this model.
