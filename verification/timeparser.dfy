/** The Grafana-style relative time resolver of `internal/timeparser`: an
    expression such as `now`, `now-1h`, `now+2d` or `now-1d/d` is resolved
    against a base instant in a fixed time zone.

    Instants are whole Unix seconds. A Go `time.Time` also carries a
    location, which changes how it prints but not which instant it is; the
    model keeps only the instant. */
module TimeParser {
  import opened Wrappers
  import opened Text
  import opened Calendar

  /** The zone every parser starts with: China Standard Time, UTC+8. */
  const DefaultOffset: int := 8 * 3600

  /** `time.Time{}`, the zero time (0001-01-01 00:00:00 UTC), in Unix seconds. */
  const ZeroTime: int := -62135596800

  datatype RelativeTimeParser = RelativeTimeParser(baseTime: int, offset: int)

  /** `NewRelativeTimeParser`: the given base instant, in UTC+8. */
  function NewRelativeTimeParser(baseTime: int): (p: RelativeTimeParser)
    ensures p.baseTime == baseTime && p.offset == DefaultOffset
  {
    RelativeTimeParser(baseTime, DefaultOffset)
  }

  datatype ParseError =
    | UnsupportedExpression(expr: string)
    | InvalidNumber(digits: string)
    | UnsupportedUnit(unit: string)

  /** The unit letters the expression pattern admits. */
  predicate IsUnit(c: char) {
    c == 's' || c == 'm' || c == 'h' || c == 'd' || c == 'w' || c == 'M' || c == 'y'
  }

  /** The three groups of a match of `^now([+-])(\d+)([smhdwMy])$`. */
  datatype Relative = Relative(sign: char, digits: string, unit: char)

  predicate WellFormed(r: Relative) {
    (r.sign == '+' || r.sign == '-') && |r.digits| >= 1 && AllDigits(r.digits) && IsUnit(r.unit)
  }

  /** The expression a match was taken from. */
  function Render(r: Relative): string {
    "now" + [r.sign] + r.digits + [r.unit]
  }

  /** `regexp.MustCompile(`^now([+-])(\d+)([smhdwMy])$`).FindStringSubmatch`:
      `\d` is an ASCII digit and `$` is the end of the text. The match, when
      there is one, is the only way to read `expr` as `Render(r)`. */
  function MatchRelative(expr: string): (m: Option<Relative>)
    ensures m.Some? ==> WellFormed(m.value) && Render(m.value) == expr
  {
    if |expr| >= 6 && expr[..3] == "now" && (expr[3] == '+' || expr[3] == '-')
       && AllDigits(expr[4..|expr| - 1]) && IsUnit(expr[|expr| - 1])
    then
      var r := Relative(expr[3], expr[4..|expr| - 1], expr[|expr| - 1]);
      assert Render(r) == expr;
      Some(r)
    else
      None
  }

  /** Matching undoes rendering. */
  lemma MatchRender(r: Relative)
    requires WellFormed(r)
    ensures MatchRelative(Render(r)) == Some(r)
  {
    var e := Render(r);
    assert e[..3] == "now" && e[3] == r.sign && e[4..|e| - 1] == r.digits && e[|e| - 1] == r.unit;
  }

  /** The `switch unit` of `parseBasicGrafanaExpr`: move `base` by `value`
      units. `time.Duration` arithmetic is on unbounded integers here. */
  function ShiftBy(base: int, offset: int, value: int, unit: char): Result<int, ParseError> {
    match unit
    case 's' => Success(base + value)
    case 'm' => Success(base + value * 60)
    case 'h' => Success(base + value * 3600)
    case 'd' => Success(AddDate(base, offset, 0, 0, value))
    case 'w' => Success(AddDate(base, offset, 0, 0, value * 7))
    case 'M' => Success(AddDate(base, offset, 0, value, 0))
    case 'y' => Success(AddDate(base, offset, value, 0, 0))
    case _ => Failure(UnsupportedUnit([unit]))
  }

  /** `parseBasicGrafanaExpr`: `now`, or `now` followed by a signed count and
      a unit. */
  function ParseBasicGrafanaExpr(expr: string, base: int, offset: int): Result<int, ParseError> {
    if expr == "now" then Success(base)
    else
      match MatchRelative(expr)
      case None => Failure(UnsupportedExpression(expr))
      case Some(r) =>
        match Atoi(r.digits)
        case None => Failure(InvalidNumber(r.digits))
        case Some(v) => ShiftBy(base, offset, if r.sign == '-' then -v else v, r.unit)
  }

  /** `parseGrafanaTime`: an optional `/d` suffix truncates the resolved
      instant to local midnight. */
  function ParseGrafanaTime(expr: string, base: int, offset: int): Result<int, ParseError> {
    if HasSuffix(expr, "/d") then
      match ParseBasicGrafanaExpr(TrimSuffix(expr, "/d"), base, offset)
      case Success(t) => Success(StartOfDay(t, offset))
      case Failure(e) => Failure(e)
    else
      ParseBasicGrafanaExpr(expr, base, offset)
  }

  /** `Parse`: the empty string is the base instant; anything else is
      lower-cased and trimmed, then resolved. */
  function Parse(p: RelativeTimeParser, timeExpr: string): Result<int, ParseError> {
    if timeExpr == "" then Success(p.baseTime)
    else Resolve(p, TrimSpace(ToLower(timeExpr)))
  }

  /** The rest of `Parse` once the input is lower-cased and trimmed: `now` is
      the base instant, anything else goes to `parseGrafanaTime`. */
  function Resolve(p: RelativeTimeParser, expr: string): Result<int, ParseError> {
    if expr == "now" then Success(p.baseTime)
    else ParseGrafanaTime(expr, p.baseTime, p.offset)
  }

  /** `GetYesterdayRange`: from midnight yesterday to midnight today. A parse
      error would leave the zero time, as the ignored error does in Go. */
  function GetYesterdayRange(p: RelativeTimeParser): (int, int) {
    (Parse(p, "now-1d/d").GetOr(ZeroTime), Parse(p, "now/d").GetOr(ZeroTime))
  }

  /** `GetTodayRange`: from midnight today to midnight tomorrow. */
  function GetTodayRange(p: RelativeTimeParser): (int, int) {
    (Parse(p, "now/d").GetOr(ZeroTime), Parse(p, "now+1d/d").GetOr(ZeroTime))
  }

  /** The signed count of a match: `value = -value` for a minus sign. */
  function Signed(r: Relative): int
    requires AllDigits(r.digits)
  {
    var n: int := DigitsValue(r.digits);
    if r.sign == '-' then -n else n
  }

  /** The count of a match fits in an int64, so `strconv.Atoi` accepts it. */
  predicate InRange(r: Relative) {
    WellFormed(r) && DigitsValue(r.digits) <= MaxInt64
  }

  /** An expression that lower-casing and trimming leave unchanged. */
  predicate Normal(e: string) {
    |e| > 0 && ToLower(e) == e && !IsSpace(e[0]) && !IsSpace(e[|e| - 1])
  }

  lemma NormalUnchanged(e: string)
    requires Normal(e)
    ensures TrimSpace(ToLower(e)) == e
  {
    TrimSpaceUnchanged(e);
  }

  /** A match with a lower-case unit renders to a normal expression, with
      or without the `/d` suffix. */
  lemma RenderNormal(r: Relative)
    requires WellFormed(r) && r.unit != 'M'
    ensures Normal(Render(r)) && Normal(Render(r) + "/d")
  {
    var e := Render(r);
    forall i | 0 <= i < |e|
      ensures LowerChar(e[i]) == e[i]
    {
      if 4 <= i < |e| - 1 {
        assert e[i] == r.digits[i - 4];
      }
    }
    var e' := e + "/d";
    forall i | 0 <= i < |e'|
      ensures LowerChar(e'[i]) == e'[i]
    {
      if i < |e| {
        assert e'[i] == e[i];
      }
    }
  }

  /** A normal expression is resolved as it stands. */
  lemma ParseNormal(p: RelativeTimeParser, e: string)
    requires Normal(e)
    ensures Parse(p, e) == Resolve(p, e)
  {
    NormalUnchanged(e);
  }

  /** A rendered match never ends in `/d`: its second-to-last character is
      a digit. */
  lemma RenderNoDaySuffix(r: Relative)
    requires WellFormed(r)
    ensures !HasSuffix(Render(r), "/d") && Render(r) != "now"
  {
    var e := Render(r);
    assert e[|e| - 2] == r.digits[|r.digits| - 1];
    assert e[|e| - 2..][0] == e[|e| - 2];
  }

  /** `Render(r) + "/d"` ends in `/d`, and removing it gives `Render(r)`. */
  lemma DaySuffixOf(e: string)
    ensures HasSuffix(e + "/d", "/d") && TrimSuffix(e + "/d", "/d") == e
    ensures e + "/d" != "now"
  {
    assert (e + "/d")[|e|..] == "/d";
  }

  /** `parseBasicGrafanaExpr` on an in-range match is the unit shift by the
      signed count. */
  lemma ParseBasicRender(r: Relative, base: int, offset: int)
    requires InRange(r)
    ensures ParseBasicGrafanaExpr(Render(r), base, offset) == ShiftBy(base, offset, Signed(r), r.unit)
  {
    MatchRender(r);
    RenderNoDaySuffix(r);
  }

  /** Every unit the pattern admits is handled by the `switch`. */
  lemma ShiftBySucceeds(base: int, offset: int, value: int, unit: char)
    requires IsUnit(unit)
    ensures ShiftBy(base, offset, value, unit).Success?
  {
  }

  /** An in-range match resolves to the unit shift of the base instant by
      its signed count. */
  lemma ResolveRender(p: RelativeTimeParser, r: Relative)
    requires InRange(r)
    ensures Resolve(p, Render(r)) == ShiftBy(p.baseTime, p.offset, Signed(r), r.unit)
  {
    RenderNoDaySuffix(r);
    ParseBasicRender(r, p.baseTime, p.offset);
  }

  /** `s`, `m` and `h` in the `switch` are fixed numbers of seconds. */
  lemma ShiftByClock(base: int, offset: int, v: int, unit: char)
    ensures unit == 's' ==> ShiftBy(base, offset, v, unit) == Success(base + v)
    ensures unit == 'm' ==> ShiftBy(base, offset, v, unit) == Success(base + v * 60)
    ensures unit == 'h' ==> ShiftBy(base, offset, v, unit) == Success(base + v * 3600)
  {
  }

  /** `now±Ns` is `N` seconds after or before the base instant. */
  lemma ResolveSeconds(p: RelativeTimeParser, r: Relative)
    requires InRange(r) && r.unit == 's'
    ensures Resolve(p, Render(r)) == Success(p.baseTime + Signed(r))
  {
    ResolveRender(p, r);
    ShiftByClock(p.baseTime, p.offset, Signed(r), r.unit);
  }

  /** `now±Nm` is `N` minutes of 60 seconds away from the base instant. */
  lemma ResolveMinutes(p: RelativeTimeParser, r: Relative)
    requires InRange(r) && r.unit == 'm'
    ensures Resolve(p, Render(r)) == Success(p.baseTime + Signed(r) * 60)
  {
    ResolveRender(p, r);
    ShiftByClock(p.baseTime, p.offset, Signed(r), r.unit);
  }

  /** `now±Nh` is `N` hours of 3600 seconds away from the base instant. */
  lemma ResolveHours(p: RelativeTimeParser, r: Relative)
    requires InRange(r) && r.unit == 'h'
    ensures Resolve(p, Render(r)) == Success(p.baseTime + Signed(r) * 3600)
  {
    ResolveRender(p, r);
    ShiftByClock(p.baseTime, p.offset, Signed(r), r.unit);
  }

  /** `now±Nd` adds `N` calendar days with `AddDate`. */
  lemma ResolveDays(p: RelativeTimeParser, r: Relative)
    requires InRange(r) && r.unit == 'd'
    ensures Resolve(p, Render(r)) == Success(AddDate(p.baseTime, p.offset, 0, 0, Signed(r)))
  {
    ResolveRender(p, r);
  }

  /** `now±Nw` adds `7 * N` calendar days with `AddDate`. */
  lemma ResolveWeeks(p: RelativeTimeParser, r: Relative)
    requires InRange(r) && r.unit == 'w'
    ensures Resolve(p, Render(r)) == Success(AddDate(p.baseTime, p.offset, 0, 0, Signed(r) * 7))
  {
    ResolveRender(p, r);
  }

  /** In a fixed zone a calendar day is 86400 seconds, so `now±Nd` is
      exactly `N * 86400` seconds from the base instant. */
  lemma ResolveDaysExact(p: RelativeTimeParser, r: Relative)
    requires InRange(r) && r.unit == 'd'
    ensures Resolve(p, Render(r)) == Success(p.baseTime + Signed(r) * 86400)
  {
    ResolveDays(p, r);
    AddDateDays(p.baseTime, p.offset, Signed(r));
  }

  /** `now±Nw` is exactly `N` weeks of `7 * 86400` seconds from the base
      instant. */
  lemma ResolveWeeksExact(p: RelativeTimeParser, r: Relative)
    requires InRange(r) && r.unit == 'w'
    ensures Resolve(p, Render(r)) == Success(p.baseTime + Signed(r) * 7 * 86400)
  {
    ResolveWeeks(p, r);
    AddDateDays(p.baseTime, p.offset, Signed(r) * 7);
  }

  /** `now±Ny` adds `N` calendar years with `AddDate`; `AddDateYearsExact`
      says where that lands. */
  lemma ResolveYears(p: RelativeTimeParser, r: Relative)
    requires InRange(r) && r.unit == 'y'
    ensures Resolve(p, Render(r)) == Success(AddDate(p.baseTime, p.offset, Signed(r), 0, 0))
  {
    ResolveRender(p, r);
  }

  /** Upper and lower case are the same to `Parse`. */
  lemma ParseIgnoresCase(p: RelativeTimeParser, s: string)
    ensures Parse(p, s) == Parse(p, ToLower(s))
  {
    ToLowerIdempotent(s);
  }

  /** Because the input is lower-cased first, the month unit `M` of the
      `switch` can never be reached: no input's trimmed, lower-cased form is
      a match with unit `M`. */
  lemma ParseMonthUnreachable(s: string, r: Relative)
    requires TrimSpace(ToLower(s)) == Render(r)
    ensures r.unit != 'M'
  {
    var e := Render(r);
    TrimSpaceLower(s, |e| - 1);
  }

  /** The empty string, and `now` in any case and with any surrounding white
      space, resolve to the base instant. */
  lemma ParseNow(p: RelativeTimeParser, s: string)
    requires s == "" || TrimSpace(ToLower(s)) == "now"
    ensures Parse(p, s) == Success(p.baseTime)
  {
  }

  /** A `/d` suffix resolves the rest, then truncates the result to local
      midnight; errors pass through unchanged. */
  lemma ResolveDaySuffix(p: RelativeTimeParser, e: string)
    requires !HasSuffix(e, "/d")
    ensures Resolve(p, e + "/d") == match Resolve(p, e)
                                   case Success(u) => Success(StartOfDay(u, p.offset))
                                   case Failure(err) => Failure(err)
  {
    DaySuffixOf(e);
  }

  /** The truncated instant is no later than the resolved one, less than a
      day before it, on the same local date, and itself unchanged by
      truncation. */
  lemma ResolveDayTruncation(p: RelativeTimeParser, e: string, u: int)
    requires !HasSuffix(e, "/d") && Resolve(p, e) == Success(u)
    ensures var m := Resolve(p, e + "/d");
            && m == Success(StartOfDay(u, p.offset))
            && m.value <= u < m.value + 86400
            && SecondOfDay(m.value, p.offset) == 0
            && LocalDate(m.value, p.offset) == LocalDate(u, p.offset)
            && StartOfDay(m.value, p.offset) == m.value
  {
    ResolveDaySuffix(p, e);
    StartOfDayIsMidnight(u, p.offset);
    StartOfDayIdempotent(u, p.offset);
  }

  /** The expressions `parseBasicGrafanaExpr` accepts. */
  ghost predicate BasicAccepted(e: string) {
    e == "now" || exists r :: InRange(r) && e == Render(r)
  }

  /** The expressions `Parse` accepts once lower-cased and trimmed: `now`,
      `now/d`, and an in-range match with or without `/d`. */
  ghost predicate Accepted(e: string) {
    || e == "now" || e == "now/d"
    || exists r :: InRange(r) && (e == Render(r) || e == Render(r) + "/d")
  }

  lemma ParseBasicSucceedsIff(e: string, base: int, offset: int)
    ensures ParseBasicGrafanaExpr(e, base, offset).Success? <==> BasicAccepted(e)
  {
    if e != "now" {
      match MatchRelative(e)
      case None =>
        forall r | InRange(r) && e == Render(r)
          ensures false
        {
          MatchRender(r);
        }
      case Some(r) =>
        if InRange(r) {
          ShiftBySucceeds(base, offset, Signed(r), r.unit);
          assert InRange(r) && e == Render(r);
        } else {
          forall r' | InRange(r') && e == Render(r')
            ensures false
          {
            MatchRender(r');
          }
        }
    }
  }

  /** A string is `now/d` or an in-range match followed by `/d` exactly when
      it ends in `/d` and the rest is accepted by `parseBasicGrafanaExpr`. */
  lemma AcceptedWithSuffix(e: string)
    ensures Accepted(e) <==> (if HasSuffix(e, "/d") then BasicAccepted(TrimSuffix(e, "/d")) else BasicAccepted(e))
  {
    if HasSuffix(e, "/d") {
      var e' := TrimSuffix(e, "/d");
      DaySuffixOf(e');
      forall r | InRange(r) && e == Render(r)
        ensures false
      {
        RenderNoDaySuffix(r);
      }
      if r :| InRange(r) && e == Render(r) + "/d" {
        DaySuffixOf(Render(r));
      }
      if BasicAccepted(e') && e' != "now" {
        var r :| InRange(r) && e' == Render(r);
        assert e == Render(r) + "/d";
      }
    } else {
      DaySuffixOf("now");
      forall r | InRange(r) && e == Render(r) + "/d"
        ensures false
      {
        DaySuffixOf(Render(r));
      }
    }
  }

  /** `Parse` succeeds exactly on the empty string and on the accepted
      expressions, after lower-casing and trimming. */
  lemma ParseSucceedsIff(p: RelativeTimeParser, s: string)
    ensures Parse(p, s).Success? <==> s == "" || Accepted(TrimSpace(ToLower(s)))
  {
    if s != "" {
      var e := TrimSpace(ToLower(s));
      AcceptedWithSuffix(e);
      if e != "now" {
        if HasSuffix(e, "/d") {
          ParseBasicSucceedsIff(TrimSuffix(e, "/d"), p.baseTime, p.offset);
        } else {
          ParseBasicSucceedsIff(e, p.baseTime, p.offset);
        }
      }
    }
  }

  /** The `default` branch of the unit `switch` is dead: the pattern already
      admits only handled units, so no input yields `UnsupportedUnit`. */
  lemma ParseNeverUnsupportedUnit(p: RelativeTimeParser, s: string)
    ensures Parse(p, s).Failure? ==> !Parse(p, s).error.UnsupportedUnit?
  {
    if s != "" {
      var e := TrimSpace(ToLower(s));
      if HasSuffix(e, "/d") {
        BasicNeverUnsupportedUnit(TrimSuffix(e, "/d"), p.baseTime, p.offset);
      } else {
        BasicNeverUnsupportedUnit(e, p.baseTime, p.offset);
      }
    }
  }

  lemma BasicNeverUnsupportedUnit(e: string, base: int, offset: int)
    ensures ParseBasicGrafanaExpr(e, base, offset).Failure? ==> !ParseBasicGrafanaExpr(e, base, offset).error.UnsupportedUnit?
  {
    if e != "now" && MatchRelative(e).Some? {
      var r := MatchRelative(e).value;
      if Atoi(r.digits).Some? {
        ShiftBySucceeds(base, offset, if r.sign == '-' then -Atoi(r.digits).value else Atoi(r.digits).value, r.unit);
      }
    }
  }

  /** `now/d` is the local midnight of the base instant. */
  lemma ParseToday(p: RelativeTimeParser)
    ensures Parse(p, "now/d") == Success(StartOfDay(p.baseTime, p.offset))
  {
    var e := "now";
    assert e + "/d" == "now/d";
    assert Normal("now/d");
    ParseNormal(p, "now/d");
    ResolveDaySuffix(p, e);
  }

  /** A `/d` suffix truncates a successful resolution to local midnight. */
  lemma ResolvedDaySuffix(p: RelativeTimeParser, e: string, u: int)
    requires !HasSuffix(e, "/d") && Resolve(p, e) == Success(u)
    ensures Resolve(p, e + "/d") == Success(StartOfDay(u, p.offset))
  {
    ResolveDaySuffix(p, e);
  }

  /** `now-1d/d` is the local midnight of the instant one day before the
      base instant. */
  lemma ParseYesterday(p: RelativeTimeParser)
    ensures Parse(p, "now-1d/d") == Success(StartOfDay(p.baseTime - 86400, p.offset))
  {
    assert OneDay('-') == "now-1d" && OneDay('-') + "/d" == "now-1d/d";
    OneDayTrimmed('-');
    OneDayPlain('-');
    OneDayMatch('-');
    AtoiOne();
    ResolveOneDay(p, OneDay('-'), -1);
    ResolvedDaySuffix(p, OneDay('-'), p.baseTime - 86400);
  }

  /** `now+1d/d` is the local midnight of the instant one day after the
      base instant. */
  lemma ParseTomorrow(p: RelativeTimeParser)
    ensures Parse(p, "now+1d/d") == Success(StartOfDay(p.baseTime + 86400, p.offset))
  {
    assert OneDay('+') == "now+1d" && OneDay('+') + "/d" == "now+1d/d";
    OneDayTrimmed('+');
    OneDayPlain('+');
    OneDayMatch('+');
    AtoiOne();
    ResolveOneDay(p, OneDay('+'), 1);
    ResolvedDaySuffix(p, OneDay('+'), p.baseTime + 86400);
  }

  /** One day back or forward: `now-1d` or `now+1d`. */
  function OneDay(sign: char): string {
    "now" + [sign] + "1d"
  }

  /** `now-1d/d` and `now+1d/d` are already in normal form. */
  lemma OneDayTrimmed(sign: char)
    requires sign == '-' || sign == '+'
    ensures TrimSpace(ToLower(OneDay(sign) + "/d")) == OneDay(sign) + "/d"
  {
    assert Normal(OneDay(sign) + "/d");
    NormalUnchanged(OneDay(sign) + "/d");
  }

  /** `now-1d` and `now+1d` carry no day suffix of their own and are not
      `now`. */
  lemma OneDayPlain(sign: char)
    ensures !HasSuffix(OneDay(sign), "/d") && OneDay(sign) != "now"
  {
    assert OneDay(sign)[4..] == "1d";
  }

  /** `now-1d` and `now+1d` are the renderings of one day back and forward. */
  lemma OneDayMatch(sign: char)
    requires sign == '-' || sign == '+'
    ensures MatchRelative(OneDay(sign)) == Some(Relative(sign, "1", 'd'))
  {
    var r := Relative(sign, "1", 'd');
    assert Render(r) == OneDay(sign);
    MatchRender(r);
  }

  lemma AtoiOne()
    ensures Atoi("1") == Some(1)
  {
  }

  /** An expression matching one day back or forward moves the base instant
      by exactly one day. */
  lemma ResolveOneDay(p: RelativeTimeParser, e: string, n: int)
    requires e != "now" && !HasSuffix(e, "/d")
    requires MatchRelative(e) == Some(Relative(if n < 0 then '-' else '+', "1", 'd')) && (n == 1 || n == -1)
    requires Atoi("1") == Some(1)
    ensures Resolve(p, e) == Success(p.baseTime + n * 86400)
  {
    var r := Relative(if n < 0 then '-' else '+', "1", 'd');
    assert Render(r) == e && InRange(r) && Signed(r) == n;
    ResolveDaysExact(p, r);
  }

  /** `GetYesterdayRange` is the whole local day before the base instant's:
      from its midnight to the next, exactly one day, ending where today
      begins. */
  lemma YesterdayRange(p: RelativeTimeParser)
    ensures var (start, end) := GetYesterdayRange(p);
            && start == StartOfDay(p.baseTime, p.offset) - 86400
            && end == StartOfDay(p.baseTime, p.offset)
            && end - start == 86400
            && end <= p.baseTime < end + 86400
            && end == GetTodayRange(p).0
  {
    ParseYesterday(p);
    ParseToday(p);
    StartOfDayShift(p.baseTime, p.offset, -1);
  }

  /** `GetTodayRange` is the local day holding the base instant: from its
      midnight to the next, exactly one day. */
  lemma TodayRange(p: RelativeTimeParser)
    ensures var (start, end) := GetTodayRange(p);
            && start == StartOfDay(p.baseTime, p.offset)
            && end == StartOfDay(p.baseTime, p.offset) + 86400
            && start <= p.baseTime < end
            && SecondOfDay(start, p.offset) == 0
            && LocalDate(start, p.offset) == LocalDate(p.baseTime, p.offset)
  {
    ParseToday(p);
    ParseTomorrow(p);
    StartOfDayShift(p.baseTime, p.offset, 1);
    StartOfDayIsMidnight(p.baseTime, p.offset);
  }

  /** Two parsers in the same zone report the same yesterday exactly when
      their base instants fall on the same local date, whatever the time of
      day. */
  lemma SameDayYesterday(p: RelativeTimeParser, q: RelativeTimeParser)
    requires p.offset == q.offset
    ensures GetYesterdayRange(p) == GetYesterdayRange(q)
            <==> LocalDate(p.baseTime, p.offset) == LocalDate(q.baseTime, q.offset)
  {
    YesterdayRange(p);
    YesterdayRange(q);
    SameLocalDate(p.baseTime, q.baseTime, p.offset);
  }

  /** The yesterday of the parser tests' consistency check: any two instants
      of one local date give the same yesterday range. */
  lemma YesterdayConsistent(date: Date, x: int, y: int, offset: int)
    requires ValidDate(date) && 0 <= x < SecondsPerDay && 0 <= y < SecondsPerDay
    ensures GetYesterdayRange(RelativeTimeParser(InstantOf(date, x, offset), offset))
            == GetYesterdayRange(RelativeTimeParser(InstantOf(date, y, offset), offset))
  {
    LocalDateOfInstant(date, x, offset);
    LocalDateOfInstant(date, y, offset);
    SameDayYesterday(RelativeTimeParser(InstantOf(date, x, offset), offset),
                     RelativeTimeParser(InstantOf(date, y, offset), offset));
  }

  /** White space alone is not the empty string, so it is trimmed to an empty
      expression and rejected. */
  lemma ParseBlank(p: RelativeTimeParser, s: string)
    requires s != "" && forall i :: 0 <= i < |s| ==> IsSpace(s[i])
    ensures Parse(p, s) == Failure(UnsupportedExpression(""))
  {
    var u := ToLower(s);
    assert forall i :: 0 <= i < |u| ==> IsSpace(u[i]) by {
      forall i | 0 <= i < |u| ensures IsSpace(u[i]) {
        assert u[i] == LowerChar(s[i]);
      }
    }
    assert TrimSpace(u) == "";
  }

  /** A count beyond the int64 range is an invalid number, whatever the unit. */
  lemma ResolveOverflow(p: RelativeTimeParser, r: Relative)
    requires WellFormed(r) && DigitsValue(r.digits) > MaxInt64
    ensures Resolve(p, Render(r)) == Failure(InvalidNumber(r.digits))
  {
    RenderNoDaySuffix(r);
    MatchRender(r);
  }

  /** Lower-casing turns the month unit into the minute unit: `now-1M` is
      one minute back, not one month. */
  lemma MonthIsMinute(p: RelativeTimeParser)
    ensures Parse(p, "now-1M") == Parse(p, "now-1m")
  {
    ParseIgnoresCase(p, "now-1M");
    LowerMonth();
  }

  lemma LowerMonth()
    ensures ToLower("now-1M") == "now-1m"
  {
  }

  /** So `now-1M` lands sixty seconds before the base instant. */
  lemma MonthMinuteBack(p: RelativeTimeParser)
    ensures Parse(p, "now-1M") == Success(p.baseTime - 60)
  {
    MonthIsMinute(p);
    MinuteMatch();
    ParseNormal(p, "now-1m");
    ResolveMinutes(p, Relative('-', "1", 'm'));
  }

  /** `now-1m` is the normal rendering of one minute back. */
  lemma MinuteMatch()
    ensures var r := Relative('-', "1", 'm');
            InRange(r) && Render(r) == "now-1m" && Normal("now-1m") && Signed(r) == -1
  {
    var r := Relative('-', "1", 'm');
    assert Render(r) == "now-1m";
    RenderNormal(r);
  }
}
