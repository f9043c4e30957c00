/** `internal/config`: the configuration read from the environment, its
    validation, the MySQL data source name, and the built-in query list.

    The environment is a map from variable names to values; a variable that
    is absent reads as the empty string, as `os.Getenv` does. */
module Config {
  import opened Wrappers
  import opened Text
  import opened Models

  type Env = map<string, string>

  /** `getEnvOrDefault`: the variable's value when it is set to something
      non-empty, the default otherwise. */
  function EnvOrDefault(env: Env, key: string, default: string): (v: string)
    ensures key in env && env[key] != "" ==> v == env[key]
    ensures key !in env || env[key] == "" ==> v == default
  {
    var value := Lookup(env, key);
    if value != "" then value else default
  }

  /** A variable set to the empty string reads as unset. */
  lemma EmptyIsUnset(env: Env, key: string, default: string)
    ensures EnvOrDefault(env[key := ""], key, default) == EnvOrDefault(env - {key}, key, default) == default
  {
  }

  /** The value read is never empty when the default is not. */
  lemma EnvOrDefaultNonEmpty(env: Env, key: string, default: string)
    requires default != ""
    ensures EnvOrDefault(env, key, default) != ""
  {
  }

  /** `getEnvIntOrDefault`: the variable's value as read by `strconv.Atoi`
      when it is set and well formed, the default otherwise; a malformed
      value is ignored without an error. */
  function EnvIntOrDefault(env: Env, key: string, default: int): (v: int)
    ensures key in env && env[key] != "" && Atoi(env[key]).Some? ==> v == Atoi(env[key]).value
    ensures key !in env || Atoi(env[key]).None? ==> v == default
  {
    var value := Lookup(env, key);
    if value != "" then
      match Atoi(value)
      case Some(n) => n
      case None => default
    else default
  }

  /** An int64 written in decimal is read back as itself. */
  lemma EnvIntRoundTrip(env: Env, key: string, n: int, default: int)
    requires MinInt64 <= n <= MaxInt64
    ensures EnvIntOrDefault(env[key := IntToString(n)], key, default) == n
  {
    AtoiIntToString(n);
  }

  /** A leading sign is part of a decimal integer: `+3306` is read as 3306
      and `-1` as -1, not replaced by the default. */
  lemma EnvIntSigned(env: Env, key: string, default: int)
    ensures EnvIntOrDefault(env[key := "+3306"], key, default) == 3306
    ensures EnvIntOrDefault(env[key := "-1"], key, default) == -1
  {
    AtoiSigned();
  }

  /** A value that is not a decimal integer falls back to the default. */
  lemma EnvIntMalformed(env: Env, key: string, default: int)
    ensures EnvIntOrDefault(env[key := "8080x"], key, default) == default
  {
    var s := "8080x";
    assert !IsDigit(s[4]);
    assert Atoi(s).None?;
  }

  const DefaultPrometheusURL: string := "http://localhost:9090"
  const DefaultPrometheusTimeout: string := "30s"
  const DefaultMySQLHost: string := "localhost"
  const DefaultMySQLPort: int := 3306
  const DefaultMySQLDatabase: string := "prometheus_data"
  const DefaultMySQLUsername: string := "root"
  const DefaultMySQLPassword: string := "password"
  const DefaultMySQLCharset: string := "utf8mb4"
  const DefaultLogLevel: string := "info"
  const DefaultHTTPPort: int := 8080
  const DefaultWorkerPool: int := 10

  /** `loadFromEnv` followed by the empty query list of `LoadConfig`: every
      field is its variable or its default. Loading never fails and never
      validates. */
  function LoadConfig(env: Env): (cfg: Config)
    ensures cfg.prometheus == PrometheusConfig(EnvOrDefault(env, "PROMETHEUS_URL", DefaultPrometheusURL),
                                               EnvOrDefault(env, "PROMETHEUS_TIMEOUT", DefaultPrometheusTimeout))
    ensures cfg.mysql.host == EnvOrDefault(env, "MYSQL_HOST", DefaultMySQLHost)
    ensures cfg.mysql.port == EnvIntOrDefault(env, "MYSQL_PORT", DefaultMySQLPort)
    ensures cfg.mysql.database == EnvOrDefault(env, "MYSQL_DATABASE", DefaultMySQLDatabase)
    ensures cfg.mysql.username == EnvOrDefault(env, "MYSQL_USERNAME", DefaultMySQLUsername)
    ensures cfg.mysql.password == EnvOrDefault(env, "MYSQL_PASSWORD", DefaultMySQLPassword)
    ensures cfg.mysql.charset == EnvOrDefault(env, "MYSQL_CHARSET", DefaultMySQLCharset)
    ensures cfg.app == AppConfig(EnvOrDefault(env, "LOG_LEVEL", DefaultLogLevel),
                                 EnvIntOrDefault(env, "HTTP_PORT", DefaultHTTPPort),
                                 EnvIntOrDefault(env, "WORKER_POOL_SIZE", DefaultWorkerPool))
    ensures cfg.queries == []
  {
    Config(
      PrometheusConfig(EnvOrDefault(env, "PROMETHEUS_URL", DefaultPrometheusURL),
                       EnvOrDefault(env, "PROMETHEUS_TIMEOUT", DefaultPrometheusTimeout)),
      MySQLConfig(EnvOrDefault(env, "MYSQL_HOST", DefaultMySQLHost),
                  EnvIntOrDefault(env, "MYSQL_PORT", DefaultMySQLPort),
                  EnvOrDefault(env, "MYSQL_DATABASE", DefaultMySQLDatabase),
                  EnvOrDefault(env, "MYSQL_USERNAME", DefaultMySQLUsername),
                  EnvOrDefault(env, "MYSQL_PASSWORD", DefaultMySQLPassword),
                  EnvOrDefault(env, "MYSQL_CHARSET", DefaultMySQLCharset)),
      AppConfig(EnvOrDefault(env, "LOG_LEVEL", DefaultLogLevel),
                EnvIntOrDefault(env, "HTTP_PORT", DefaultHTTPPort),
                EnvIntOrDefault(env, "WORKER_POOL_SIZE", DefaultWorkerPool)),
      [])
  }

  /** With nothing set, every field takes its default. */
  lemma LoadConfigDefaults()
    ensures LoadConfig(map[]) == Config(
              PrometheusConfig("http://localhost:9090", "30s"),
              MySQLConfig("localhost", 3306, "prometheus_data", "root", "password", "utf8mb4"),
              AppConfig("info", 8080, 10),
              [])
  {
  }

  /** Why a configuration is rejected; query errors carry the index of the
      query. */
  datatype ConfigError =
    | MissingPrometheusURL
    | MissingMySQLHost
    | MissingMySQLDatabase
    | MissingMySQLUsername
    | QueryMissingID(index: nat)
    | QueryMissingQuery(index: nat)

  function ConfigErrorText(e: ConfigError): string {
    match e
    case MissingPrometheusURL => "prometheus URL is required"
    case MissingMySQLHost => "mysql host is required"
    case MissingMySQLDatabase => "mysql database is required"
    case MissingMySQLUsername => "mysql username is required"
    case QueryMissingID(i) => "query[" + NatToString(i) + "]: ID is required"
    case QueryMissingQuery(i) => "query[" + NatToString(i) + "]: query is required"
  }

  /** The only things asked of a query: an ID and a query expression. */
  predicate QueryValid(q: QueryConfig) {
    q.id != "" && q.query != ""
  }

  /** What validation accepts, all at once: the four required connection
      fields and every query. Nothing else (ports, password, charset, the
      other query fields) is looked at. */
  ghost predicate Valid(cfg: Config) {
    && cfg.prometheus.url != ""
    && cfg.mysql.host != ""
    && cfg.mysql.database != ""
    && cfg.mysql.username != ""
    && forall i :: 0 <= i < |cfg.queries| ==> QueryValid(cfg.queries[i])
  }

  /** The loop over the queries from index `from` on: the first query
      without an ID or without a query, the ID checked first. */
  function CheckQueries(queries: seq<QueryConfig>, from: nat): (r: Option<ConfigError>)
    requires from <= |queries|
    decreases |queries| - from
    ensures r.None? <==> forall i :: from <= i < |queries| ==> QueryValid(queries[i])
    ensures r.Some? ==> r.value.QueryMissingID? || r.value.QueryMissingQuery?
    ensures r.Some? ==>
              && from <= r.value.index < |queries|
              && (forall j :: from <= j < r.value.index ==> QueryValid(queries[j]))
              && !QueryValid(queries[r.value.index])
              && (r.value.QueryMissingID? <==> queries[r.value.index].id == "")
  {
    if from == |queries| then None
    else if queries[from].id == "" then Some(QueryMissingID(from))
    else if queries[from].query == "" then Some(QueryMissingQuery(from))
    else CheckQueries(queries, from + 1)
  }

  /** `validateConfig`: the checks in a fixed order, the first failure
      reported. */
  function ValidateConfig(cfg: Config): (r: Option<ConfigError>)
    ensures r.None? <==> Valid(cfg)
    ensures cfg.prometheus.url == "" ==> r == Some(MissingPrometheusURL)
    ensures cfg.prometheus.url != "" && cfg.mysql.host == "" ==> r == Some(MissingMySQLHost)
    ensures cfg.prometheus.url != "" && cfg.mysql.host != "" && cfg.mysql.database == "" ==> r == Some(MissingMySQLDatabase)
    ensures cfg.prometheus.url != "" && cfg.mysql.host != "" && cfg.mysql.database != "" && cfg.mysql.username == "" ==>
              r == Some(MissingMySQLUsername)
    ensures cfg.prometheus.url != "" && cfg.mysql.host != "" && cfg.mysql.database != "" && cfg.mysql.username != "" ==>
              r == CheckQueries(cfg.queries, 0)
  {
    if cfg.prometheus.url == "" then Some(MissingPrometheusURL)
    else if cfg.mysql.host == "" then Some(MissingMySQLHost)
    else if cfg.mysql.database == "" then Some(MissingMySQLDatabase)
    else if cfg.mysql.username == "" then Some(MissingMySQLUsername)
    else CheckQueries(cfg.queries, 0)
  }

  /** Whatever the environment holds, the loaded configuration passes
      validation: every required field has a non-empty default and an
      empty variable reads as unset. */
  lemma LoadConfigValid(env: Env)
    ensures ValidateConfig(LoadConfig(env)) == None
  {
    EnvOrDefaultNonEmpty(env, "PROMETHEUS_URL", DefaultPrometheusURL);
    EnvOrDefaultNonEmpty(env, "MYSQL_HOST", DefaultMySQLHost);
    EnvOrDefaultNonEmpty(env, "MYSQL_DATABASE", DefaultMySQLDatabase);
    EnvOrDefaultNonEmpty(env, "MYSQL_USERNAME", DefaultMySQLUsername);
  }

  /** Why `LoadConfigWithDB` fails. */
  datatype LoadError = QueriesUnavailable(message: string) | Invalid(cause: ConfigError)

  /** `LoadConfigWithDB`: the environment, then the queries read from the
      store (`queries`, the outcome of `LoadQueriesFromDB`), then
      validation. */
  function LoadConfigWithDB(env: Env, queries: Result<seq<QueryConfig>, string>): (r: Result<Config, LoadError>)
    ensures queries.Failure? ==> r == Failure(QueriesUnavailable(queries.error))
    ensures r.Success? <==> queries.Success? && forall i :: 0 <= i < |queries.value| ==> QueryValid(queries.value[i])
    ensures r.Success? ==> r.value == LoadConfig(env).(queries := queries.value)
    ensures queries.Success? && r.Failure? ==> r.error == Invalid(CheckQueries(queries.value, 0).value)
  {
    match queries
    case Failure(e) => Failure(QueriesUnavailable(e))
    case Success(qs) =>
      var cfg := LoadConfig(env).(queries := qs);
      LoadConfigValid(env);
      match ValidateConfig(cfg)
      case Some(e) => Failure(Invalid(e))
      case None => Success(cfg)
  }

  /** `GetMySQLDSN`: the go-sql-driver data source name, fields inserted
      as they are, without escaping. */
  function DSN(m: MySQLConfig): string {
    m.username + (":" + (m.password + ("@" + ("tcp(" + (m.host + (":" + (IntToString(m.port) + (")"
      + ("/" + (m.database + ("?" + ("charset=" + (m.charset + ("&" + DSNOptions))))))))))))))
  }

  /** The fixed options after the charset. */
  const DSNOptions: string := "parseTime=true&loc=Local"

  /** The text before the first `sep`, and the text after it. */
  function SplitAt(s: string, sep: char): (r: Option<(string, string)>)
    ensures r.Some? ==> sep !in r.value.0 && s == r.value.0 + [sep] + r.value.1
    ensures r.None? <==> sep !in s
  {
    if |s| == 0 then None
    else if s[0] == sep then Some(([], s[1..]))
    else match SplitAt(s[1..], sep)
      case None => None
      case Some(p) => Some(([s[0]] + p.0, p.1))
  }

  /** Splitting finds the first separator. */
  lemma {:induction false} SplitAtFirst(a: string, sep: char, b: string)
    requires sep !in a
    ensures SplitAt(a + ([sep] + b), sep) == Some((a, b))
  {
    if |a| > 0 {
      var s := a + ([sep] + b);
      assert s[0] == a[0] != sep;
      assert s[1..] == a[1..] + ([sep] + b);
      SplitAtFirst(a[1..], sep, b);
      assert SplitAt(s, sep) == Some(([a[0]] + a[1..], b));
      assert [a[0]] + a[1..] == a;
    } else {
      assert a + ([sep] + b) == [sep] + b;
    }
  }

  /** The rest of `s` after the literal `lit`, if `s` starts with it. */
  function StripPrefix(s: string, lit: string): (r: Option<string>)
    ensures r.Some? <==> lit <= s
    ensures r.Some? ==> s == lit + r.value
  {
    if lit <= s then Some(s[|lit|..]) else None
  }

  lemma StripPrefixOf(lit: string, rest: string)
    ensures StripPrefix(lit + rest, lit) == Some(rest)
  {
    assert (lit + rest)[|lit|..] == rest;
  }

  /** Reading a data source name back into its fields: the inverse of
      `DSN` on fields without the separators that follow them. */
  function ParseDSN(s: string): Option<MySQLConfig> {
    match SplitAt(s, ':')
    case None => None
    case Some((user, rest)) =>
      match SplitAt(rest, '@')
      case None => None
      case Some((pass, rest')) =>
        match StripPrefix(rest', "tcp(")
        case None => None
        case Some(address) => ParseAddress(user, pass, address)
  }

  /** The part after `tcp(`: host, port and the rest. */
  function ParseAddress(user: string, pass: string, s: string): Option<MySQLConfig> {
    match SplitAt(s, ':')
    case None => None
    case Some((host, rest)) =>
      match SplitAt(rest, ')')
      case None => None
      case Some((portText, rest')) =>
        match StripPrefix(rest', "/")
        case None => None
        case Some(path) =>
          match Atoi(portText)
          case None => None
          case Some(port) => ParsePath(user, pass, host, port, path)
  }

  /** The part after `/`: database, charset and the fixed options. */
  function ParsePath(user: string, pass: string, host: string, port: int, s: string): Option<MySQLConfig> {
    match SplitAt(s, '?')
    case None => None
    case Some((db, rest)) =>
      match StripPrefix(rest, "charset=")
      case None => None
      case Some(params) =>
        match SplitAt(params, '&')
        case None => None
        case Some((cs, options)) =>
          if options == DSNOptions then Some(MySQLConfig(host, port, db, user, pass, cs)) else None
  }

  /** The fields `DSN` can carry unambiguously. */
  predicate Unambiguous(m: MySQLConfig) {
    && ':' !in m.username
    && '@' !in m.password
    && ':' !in m.host
    && '?' !in m.database
    && '&' !in m.charset
    && MinInt64 <= m.port <= MaxInt64
  }

  lemma PortHasNoParen(n: int)
    ensures ')' !in IntToString(n)
  {
    if n < 0 {
      var d := NatToString(-n);
      assert IntToString(n) == "-" + d;
      assert forall i :: 0 <= i < |d| ==> IsDigit(d[i]);
    }
  }

  lemma PathRoundTrip(m: MySQLConfig)
    requires Unambiguous(m)
    ensures ParsePath(m.username, m.password, m.host, m.port,
                      m.database + ("?" + ("charset=" + (m.charset + ("&" + DSNOptions))))) == Some(m)
  {
    SplitAtFirst(m.database, '?', "charset=" + (m.charset + ("&" + DSNOptions)));
    StripPrefixOf("charset=", m.charset + ("&" + DSNOptions));
    SplitAtFirst(m.charset, '&', DSNOptions);
  }

  lemma AddressRoundTrip(m: MySQLConfig, path: string)
    requires Unambiguous(m)
    ensures ParseAddress(m.username, m.password, m.host + (":" + (IntToString(m.port) + (")" + ("/" + path)))))
            == ParsePath(m.username, m.password, m.host, m.port, path)
  {
    SplitAtFirst(m.host, ':', IntToString(m.port) + (")" + ("/" + path)));
    PortHasNoParen(m.port);
    SplitAtFirst(IntToString(m.port), ')', "/" + path);
    StripPrefixOf("/", path);
    AtoiIntToString(m.port);
  }

  /** Without separators in the fields, the data source name determines the
      configuration it was made from. */
  lemma DSNRoundTrip(m: MySQLConfig)
    requires Unambiguous(m)
    ensures ParseDSN(DSN(m)) == Some(m)
  {
    var path := m.database + ("?" + ("charset=" + (m.charset + ("&" + DSNOptions))));
    var address := m.host + (":" + (IntToString(m.port) + (")" + ("/" + path))));
    SplitAtFirst(m.username, ':', m.password + ("@" + ("tcp(" + address)));
    SplitAtFirst(m.password, '@', "tcp(" + address);
    StripPrefixOf("tcp(", address);
    AddressRoundTrip(m, path);
    PathRoundTrip(m);
  }

  /** Without escaping, a colon in the user name is indistinguishable from
      the one that ends it: moving text across that colon between user name
      and password gives the same name. */
  lemma DSNNotEscaped(m: MySQLConfig, a: string, b: string, c: string)
    ensures DSN(m.(username := a + ":" + b, password := c)) == DSN(m.(username := a, password := b + ":" + c))
  {
  }

  /** `GetDefaultQueries`: the built-in query list, a status query of `up`
      every 30 seconds. */
  function DefaultQueries(): (qs: seq<QueryConfig>)
    ensures |qs| == 1
    ensures forall i :: 0 <= i < |qs| ==> QueryValid(qs[i]) && qs[i].enabled
  {
    [QueryConfig("up_status", "Service Status", "Monitor service availability", "up",
                 "*/30 * * * * *", "15s", "", [], true, 2, "5s")]
  }

  /** The built-in queries pass validation on top of any environment. */
  lemma DefaultQueriesValid(env: Env)
    ensures LoadConfigWithDB(env, Success(DefaultQueries())) == Success(LoadConfig(env).(queries := DefaultQueries()))
  {
  }
}
