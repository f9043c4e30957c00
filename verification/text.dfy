/** The small slice of Go's `strings` and `strconv` packages that the
    repository relies on: `strings.TrimSpace`, `strings.ToLower`,
    `strings.HasSuffix`, `strconv.Atoi` and the `%d` verb of `fmt`. */
module Text {
  import opened Wrappers

  const MaxInt64: int := 0x7fff_ffff_ffff_ffff
  const MinInt64: int := -0x8000_0000_0000_0000

  /** Go's `unicode.IsSpace`, the predicate `strings.TrimSpace` trims by:
      the ASCII/Latin-1 spaces and the Unicode White_Space code points. */
  predicate IsSpace(c: char) {
    || c == ' ' || c == '\t' || c == '\n' || c == '\U{000B}' || c == '\U{000C}' || c == '\r'
    || c == '\U{0085}' || c == '\U{00A0}' || c == '\U{1680}'
    || ('\U{2000}' <= c <= '\U{200A}')
    || c == '\U{2028}' || c == '\U{2029}' || c == '\U{202F}' || c == '\U{205F}' || c == '\U{3000}'
  }

  /** Number of leading white-space characters of `s`. */
  function LeadingSpaces(s: string): (n: nat)
    ensures n <= |s|
    ensures forall i :: 0 <= i < n ==> IsSpace(s[i])
    ensures n == |s| || !IsSpace(s[n])
  {
    if |s| > 0 && IsSpace(s[0]) then 1 + LeadingSpaces(s[1..]) else 0
  }

  /** Number of trailing white-space characters of `s`. */
  function TrailingSpaces(s: string): (n: nat)
    ensures n <= |s|
    ensures forall i :: |s| - n <= i < |s| ==> IsSpace(s[i])
    ensures n == |s| || !IsSpace(s[|s| - n - 1])
  {
    if |s| > 0 && IsSpace(s[|s| - 1]) then 1 + TrailingSpaces(s[..|s| - 1]) else 0
  }

  /** `strings.TrimSpace`: `s` without its leading and trailing white space. */
  function TrimSpace(s: string): (r: string)
    ensures |r| <= |s|
    ensures r == [] || (!IsSpace(r[0]) && !IsSpace(r[|r| - 1]))
    ensures (forall i :: 0 <= i < |s| ==> IsSpace(s[i])) <==> r == []
  {
    var u := s[LeadingSpaces(s)..];
    u[..|u| - TrailingSpaces(u)]
  }

  /** ASCII letter folding. Every character the expression grammar accepts is
      ASCII, so folding only `A`-`Z` decides acceptance exactly as Go's
      Unicode-aware `strings.ToLower` does. */
  function LowerChar(c: char): char {
    if 'A' <= c <= 'Z' then (c as int + 32) as char else c
  }

  /** `strings.ToLower`, restricted to ASCII letters. */
  function ToLower(s: string): (r: string)
    ensures |r| == |s|
    ensures forall i :: 0 <= i < |s| ==> r[i] == LowerChar(s[i])
  {
    seq(|s|, i requires 0 <= i < |s| => LowerChar(s[i]))
  }

  /** Folding is idempotent: a folded string has no upper-case letters left. */
  lemma ToLowerIdempotent(s: string)
    ensures ToLower(ToLower(s)) == ToLower(s)
  {
  }

  /** A string that neither starts nor ends with white space is its own
      trimming. */
  lemma TrimSpaceUnchanged(s: string)
    requires s == [] || (!IsSpace(s[0]) && !IsSpace(s[|s| - 1]))
    ensures TrimSpace(s) == s
  {
    if s != [] {
      assert LeadingSpaces(s) == 0;
      assert TrailingSpaces(s) == 0;
    }
  }

  predicate AllSpace(s: string) {
    forall i :: 0 <= i < |s| ==> IsSpace(s[i])
  }

  /** White space followed by a string that does not start with white space
      has exactly that much leading white space. */
  lemma LeadingSpacesOf(a: string, t: string)
    requires AllSpace(a) && (t == [] || !IsSpace(t[0]))
    ensures LeadingSpaces(a + t) == |a|
  {
    var s := a + t;
    assert forall i :: 0 <= i < |a| ==> s[i] == a[i];
    assert t != [] ==> s[|a|] == t[0];
  }

  /** A string that does not end with white space followed by white space
      has exactly that much trailing white space. */
  lemma TrailingSpacesOf(t: string, b: string)
    requires AllSpace(b) && (t == [] || !IsSpace(t[|t| - 1]))
    ensures TrailingSpaces(t + b) == |b|
  {
    var s := t + b;
    assert forall i :: |t| <= i < |s| ==> s[i] == b[i - |t|];
    assert t != [] ==> s[|t| - 1] == t[|t| - 1];
  }

  /** `TrimSpace` keeps exactly the middle of a string: surrounding any
      text that neither starts nor ends with white space by white space on
      both sides and trimming gives the text back. */
  lemma TrimSpaceOf(a: string, e: string, b: string)
    requires AllSpace(a) && AllSpace(b)
    requires e == [] || (!IsSpace(e[0]) && !IsSpace(e[|e| - 1]))
    ensures TrimSpace(a + e + b) == e
  {
    var s := a + e + b;
    if e == [] {
      assert s == a + b;
      assert forall i :: 0 <= i < |s| ==> IsSpace(s[i]) by {
        forall i | 0 <= i < |s| ensures IsSpace(s[i]) {
          if i < |a| { assert s[i] == a[i]; } else { assert s[i] == b[i - |a|]; }
        }
      }
    } else {
      assert s == a + (e + b);
      LeadingSpacesOf(a, e + b);
      var u := s[|a|..];
      assert u == e + b;
      TrailingSpacesOf(e, b);
      assert u[..|u| - |b|] == e;
    }
  }

  /** Every string is its trimming surrounded by white space. */
  lemma TrimSpaceMiddle(s: string)
    ensures exists a, b :: AllSpace(a) && AllSpace(b) && s == a + TrimSpace(s) + b
  {
    var k := LeadingSpaces(s);
    var u := s[k..];
    var m := TrailingSpaces(u);
    var a, b := s[..k], u[|u| - m..];
    LeadingAllSpace(s);
    TrailingAllSpace(u);
    SplitThree(s, k, |s| - m);
    assert b == s[|s| - m..];
    assert s == a + TrimSpace(s) + b;
  }

  /** The leading white space of a string is all white space. */
  lemma LeadingAllSpace(s: string)
    ensures AllSpace(s[..LeadingSpaces(s)])
  {
  }

  /** The trailing white space of a string is all white space. */
  lemma TrailingAllSpace(s: string)
    ensures AllSpace(s[|s| - TrailingSpaces(s)..])
  {
    var n := TrailingSpaces(s);
    var b := s[|s| - n..];
    assert forall i :: 0 <= i < n ==> b[i] == s[|s| - n + i];
  }

  /** Cutting a string at two points and joining the pieces gives it back. */
  lemma SplitThree(s: string, i: int, j: int)
    requires 0 <= i <= j <= |s|
    ensures s == s[..i] + s[i..j] + s[j..]
  {
  }

  /** The trimmed, lower-cased form of a string holds no upper-case ASCII
      letter. */
  lemma TrimSpaceLower(s: string, i: int)
    requires 0 <= i < |TrimSpace(ToLower(s))|
    ensures !('A' <= TrimSpace(ToLower(s))[i] <= 'Z')
  {
    var u := ToLower(s);
    var k := LeadingSpaces(u);
    assert TrimSpace(u)[i] == u[k + i];
  }

  /** `strings.HasSuffix`. */
  predicate HasSuffix(s: string, suffix: string) {
    |suffix| <= |s| && s[|s| - |suffix|..] == suffix
  }

  /** `strings.TrimSuffix` for a suffix known to be present. */
  function TrimSuffix(s: string, suffix: string): (r: string)
    requires HasSuffix(s, suffix)
    ensures r + suffix == s
  {
    s[..|s| - |suffix|]
  }

  predicate IsDigit(c: char) {
    '0' <= c <= '9'
  }

  predicate AllDigits(s: string) {
    forall i :: 0 <= i < |s| ==> IsDigit(s[i])
  }

  function DigitValue(c: char): nat
    requires IsDigit(c)
  {
    c as int - '0' as int
  }

  function DigitChar(d: nat): (c: char)
    requires d < 10
    ensures IsDigit(c) && DigitValue(c) == d
  {
    ('0' as int + d) as char
  }

  /** The value of a decimal digit string, leading zeros allowed. */
  function DigitsValue(s: string): nat
    requires AllDigits(s)
  {
    if |s| == 0 then 0 else DigitsValue(s[..|s| - 1]) * 10 + DigitValue(s[|s| - 1])
  }

  /** The decimal rendering of a natural number, without leading zeros. */
  function NatToString(n: nat): (r: string)
    ensures |r| >= 1 && AllDigits(r)
    ensures DigitsValue(r) == n
    ensures r[0] != '0' || r == "0"
  {
    if n < 10 then
      [DigitChar(n)]
    else
      var prefix := NatToString(n / 10);
      var r := prefix + [DigitChar(n % 10)];
      assert r[..|r| - 1] == prefix;
      r
  }

  /** `fmt.Sprintf("%d", n)`. */
  function IntToString(n: int): (r: string)
    ensures |r| >= 1
    ensures n < 0 <==> r[0] == '-'
    ensures n >= 0 ==> AllDigits(r)
  {
    if n < 0 then "-" + NatToString(-n) else NatToString(n)
  }

  /** `strconv.Atoi` on a 64-bit platform: an optional sign, then one or more
      decimal digits, and a value that fits in an int64; anything else
      (including the empty string, a lone sign, spaces or underscores) is an
      error, modelled as `None`. */
  function Atoi(s: string): (r: Option<int>)
    ensures r.Some? ==> MinInt64 <= r.value <= MaxInt64
    ensures r.Some? ==> |s| >= 1
    ensures AllDigits(s) && |s| >= 1 ==> (r.Some? <==> DigitsValue(s) <= MaxInt64)
    ensures AllDigits(s) && r.Some? ==> r.value == DigitsValue(s)
  {
    if |s| == 0 then None
    else
      var body := if s[0] == '+' || s[0] == '-' then s[1..] else s;
      if |body| == 0 || !AllDigits(body) then None
      else
        var magnitude: int := DigitsValue(body);
        var v := if s[0] == '-' then -magnitude else magnitude;
        if MinInt64 <= v <= MaxInt64 then Some(v) else None
  }

  /** The optional sign `strconv.Atoi` accepts in front of the digits. */
  predicate IsSign(sign: string) {
    sign == "" || sign == "+" || sign == "-"
  }

  /** The integer a sign and a digit string denote. */
  function SignedValue(sign: string, digits: string): int
    requires AllDigits(digits)
  {
    if sign == "-" then -(DigitsValue(digits) as int) else DigitsValue(digits)
  }

  /** On a sign followed by one or more digits, `Atoi` gives the value they
      denote when it fits in an int64 and an error otherwise. */
  lemma AtoiParts(sign: string, digits: string)
    requires IsSign(sign) && |digits| >= 1 && AllDigits(digits)
    ensures Atoi(sign + digits)
            == if MinInt64 <= SignedValue(sign, digits) <= MaxInt64 then Some(SignedValue(sign, digits)) else None
  {
    var s := sign + digits;
    if sign == "" {
      assert s == digits;
    } else {
      assert s[0] == sign[0] && s[1..] == digits;
    }
  }

  /** `Atoi` accepts nothing else: whatever it reads is a sign followed by
      one or more digits. */
  lemma AtoiForm(s: string)
    requires Atoi(s).Some?
    ensures exists sign, digits :: IsSign(sign) && |digits| >= 1 && AllDigits(digits) && s == sign + digits
  {
    if s[0] == '+' || s[0] == '-' {
      assert IsSign(s[..1]) && s == s[..1] + s[1..];
    } else {
      assert s == "" + s;
    }
  }

  /** A plus sign is accepted and ignored; a minus sign negates. */
  lemma AtoiSigned()
    ensures Atoi("+3306") == Some(3306) && Atoi("-1") == Some(-1)
  {
    assert "3306"[..3] == "330" && "330"[..2] == "33" && "33"[..1] == "3";
    assert DigitsValue("3306") == 3306;
    AtoiParts("+", "3306");
    assert "+" + "3306" == "+3306";
    AtoiParts("-", "1");
    assert "-" + "1" == "-1";
  }

  /** Digit strings without leading zeros are determined by their value. */
  lemma {:induction false} CanonicalDigitsUnique(a: string, b: string)
    requires |a| >= 1 && |b| >= 1 && AllDigits(a) && AllDigits(b)
    requires a[0] != '0' || a == "0"
    requires b[0] != '0' || b == "0"
    requires DigitsValue(a) == DigitsValue(b)
    ensures a == b
    decreases |a| + |b|
  {
    if |a| == 1 && |b| == 1 {
    } else if |a| == 1 {
      DigitsValueLowerBound(b);
    } else if |b| == 1 {
      DigitsValueLowerBound(a);
    } else {
      var a', b' := a[..|a| - 1], b[..|b| - 1];
      assert DigitsValue(a') == DigitsValue(b');
      CanonicalDigitsUnique(a', b');
      assert a == a' + [a[|a| - 1]];
      assert b == b' + [b[|b| - 1]];
    }
  }

  /** A canonical digit string of two or more digits is worth at least 10. */
  lemma {:induction false} DigitsValueLowerBound(s: string)
    requires |s| >= 2 && AllDigits(s) && s[0] != '0'
    ensures DigitsValue(s) >= 10
    decreases |s|
  {
    var p := s[..|s| - 1];
    if |p| >= 2 {
      DigitsValueLowerBound(p);
    } else {
      assert DigitsValue(p) == DigitValue(s[0]);
    }
  }

  /** `%d` followed by `Atoi` is the identity on int64 values. */
  lemma AtoiIntToString(n: int)
    requires MinInt64 <= n <= MaxInt64
    ensures Atoi(IntToString(n)) == Some(n)
  {
    var s := IntToString(n);
    if n < 0 {
      assert s[1..] == NatToString(-n);
    }
  }

  /** `%d` is injective: different integers print differently. */
  lemma IntToStringInjective(a: int, b: int)
    requires IntToString(a) == IntToString(b)
    ensures a == b
  {
    var s := IntToString(a);
    if a < 0 {
      assert b < 0;
      assert NatToString(-a) == s[1..] == NatToString(-b);
    } else {
      assert b >= 0;
    }
  }
}
