/** The expectations of the parser's own tests, stated for the model. The
    tests fix the base instant at 2024-01-15 14:30:45 UTC, which is
    22:30:45 the same day in UTC+8. */
module TimeParserExamples {
  import opened Wrappers
  import opened Text
  import opened Calendar
  import opened TimeParser

  /** 2024-01-15 14:30:45 UTC. */
  const TestBase: int := InstantOf(Date(2024, 1, 15), 14 * 3600 + 30 * 60 + 45, 0)

  /** Local midnights in UTC+8 of 2024-01-14 and 2024-01-15. */
  const MidnightJan14: int := InstantOf(Date(2024, 1, 14), 0, DefaultOffset)
  const MidnightJan15: int := InstantOf(Date(2024, 1, 15), 0, DefaultOffset)

  lemma TestInstants()
    ensures TestBase == 1705329045
    ensures MidnightJan15 == 1705248000
    ensures MidnightJan14 == 1705161600
  {
  }

  lemma TestBaseMidnight()
    ensures StartOfDay(TestBase, DefaultOffset) == MidnightJan15
  {
    TestInstants();
    StartOfDayUnique(TestBase, MidnightJan15, DefaultOffset);
  }

  /** `now/d` and `now-1d/d` from the test base are midnight of the 15th and
      of the 14th in UTC+8. */
  lemma MidnightExamples()
    ensures Parse(NewRelativeTimeParser(TestBase), "now/d") == Success(MidnightJan15)
    ensures Parse(NewRelativeTimeParser(TestBase), "now-1d/d") == Success(MidnightJan14)
  {
    TestInstants();
    TestBaseMidnight();
    ParseToday(NewRelativeTimeParser(TestBase));
    ParseYesterday(NewRelativeTimeParser(TestBase));
    StartOfDayShift(TestBase, DefaultOffset, -1);
  }

  /** `GetYesterdayRange` from the test base runs from midnight of the 14th
      to midnight of the 15th. */
  lemma YesterdayRangeExample()
    ensures GetYesterdayRange(NewRelativeTimeParser(TestBase)) == (MidnightJan14, MidnightJan15)
  {
    MidnightExamples();
  }

  /** `now` is the base instant; `now-1h` and `now-30m` are one hour and
      thirty minutes before it. */
  lemma NowExample(p: RelativeTimeParser)
    ensures Parse(p, "now") == Success(p.baseTime)
  {
    assert Normal("now");
    NormalUnchanged("now");
  }

  lemma HourExample(p: RelativeTimeParser)
    ensures Parse(p, "now-1h") == Success(p.baseTime - 3600)
  {
    HourMatch();
    ParseNormal(p, "now-1h");
    ResolveHours(p, Relative('-', "1", 'h'));
  }

  /** `now-1h` is the normal rendering of one hour back. */
  lemma HourMatch()
    ensures var r := Relative('-', "1", 'h');
            InRange(r) && Render(r) == "now-1h" && Normal("now-1h") && Signed(r) == -1
  {
    var r := Relative('-', "1", 'h');
    assert Render(r) == "now-1h";
    RenderNormal(r);
  }

  lemma HalfHourExample(p: RelativeTimeParser)
    ensures Parse(p, "now-30m") == Success(p.baseTime - 1800)
  {
    HalfHourMatch();
    ParseNormal(p, "now-30m");
    ResolveMinutes(p, Relative('-', "30", 'm'));
  }

  /** `now-30m` is the normal rendering of thirty minutes back. */
  lemma HalfHourMatch()
    ensures var r := Relative('-', "30", 'm');
            InRange(r) && Render(r) == "now-30m" && Normal("now-30m") && Signed(r) == -30
  {
    var r := Relative('-', "30", 'm');
    assert Render(r) == "now-30m";
    assert "30"[..1] == "3";
    RenderNormal(r);
  }

  /** Midnight, half past noon and one second to midnight of 2024-01-15 in
      UTC+8 all see the same yesterday. */
  lemma ConsistencyExample()
    ensures GetYesterdayRange(NewRelativeTimeParser(InstantOf(Date(2024, 1, 15), 0, DefaultOffset)))
            == GetYesterdayRange(NewRelativeTimeParser(InstantOf(Date(2024, 1, 15), 12 * 3600 + 30 * 60, DefaultOffset)))
    ensures GetYesterdayRange(NewRelativeTimeParser(InstantOf(Date(2024, 1, 15), 0, DefaultOffset)))
            == GetYesterdayRange(NewRelativeTimeParser(InstantOf(Date(2024, 1, 15), 23 * 3600 + 59 * 60 + 59, DefaultOffset)))
  {
    YesterdayConsistent(Date(2024, 1, 15), 0, 12 * 3600 + 30 * 60, DefaultOffset);
    YesterdayConsistent(Date(2024, 1, 15), 0, 23 * 3600 + 59 * 60 + 59, DefaultOffset);
  }

  /** The rejected inputs of the error test: no `now`, a non-numeric count,
      an unknown unit, a missing `now`. */
  lemma InvalidExample(p: RelativeTimeParser)
    ensures Parse(p, "invalid") == Failure(UnsupportedExpression("invalid"))
  {
    InvalidNormal();
    ParseNormal(p, "invalid");
    assert "invalid"[..3] != "now";
  }

  lemma NonNumericExample(p: RelativeTimeParser)
    ensures Parse(p, "now-abc") == Failure(UnsupportedExpression("now-abc"))
  {
    NonNumericNormal();
    ParseNormal(p, "now-abc");
    assert !IsUnit("now-abc"[6]);
  }

  lemma UnknownUnitExample(p: RelativeTimeParser)
    ensures Parse(p, "now-1z") == Failure(UnsupportedExpression("now-1z"))
  {
    UnknownUnitNormal();
    ParseNormal(p, "now-1z");
    assert !IsUnit("now-1z"[5]);
  }

  lemma MissingNowExample(p: RelativeTimeParser)
    ensures Parse(p, "1d") == Failure(UnsupportedExpression("1d"))
  {
    MissingNowNormal();
    ParseNormal(p, "1d");
  }

  lemma InvalidNormal()
    ensures Normal("invalid")
  {
  }

  lemma NonNumericNormal()
    ensures Normal("now-abc")
  {
  }

  lemma UnknownUnitNormal()
    ensures Normal("now-1z")
  {
  }

  lemma MissingNowNormal()
    ensures Normal("1d")
  {
  }

  /** Case and surrounding white space do not matter: ` NOW ` is `now`. */
  lemma ShoutedNowExample(p: RelativeTimeParser)
    ensures Parse(p, " NOW ") == Success(p.baseTime)
  {
    ShoutedLower();
    SpacedNowTrimmed();
    ParseNow(p, " NOW ");
  }

  lemma ShoutedLower()
    ensures ToLower(" NOW ") == " now "
  {
  }

  lemma SpacedNowTrimmed()
    ensures TrimSpace(" now ") == "now"
  {
    assert LeadingSpaces(" now ") == 1;
    assert LeadingSpaces("now ") == 0;
    assert TrailingSpaces("now ") == 1;
    assert TrailingSpaces("now") == 0;
  }
}
