/**
 * Python's `datetime` values as the crawler uses them: the Gregorian
 * calendar, `datetime.strptime` for the formats `%Y<sep>%m<sep>%d`, and
 * `datetime.isoformat()`.
 *
 * `strptime` compiles each directive to a regular expression and matches it
 * from the start of the text: `%Y` is exactly four digits, `%m` is the
 * alternation `1[0-2]|0[1-9]|[1-9]` and `%d` is
 * `3[01]|[12]\d|0[1-9]|[1-9]| [1-9]`, tried in that order with backtracking.
 * Text left after the match raises "unconverted data remains", and an
 * impossible calendar date (or year 0) raises too.
 */
module Dates {
  import opened Wrappers
  import opened Text

  /** A `datetime`; `aware` tells whether it carries `timezone.utc`. */
  datatype DateTime = DateTime(year: int, month: int, day: int,
                               hour: int, minute: int, second: int, micro: int,
                               aware: bool)

  predicate IsLeap(y: int)
  {
    y % 4 == 0 && (y % 100 != 0 || y % 400 == 0)
  }

  function DaysInMonth(y: int, m: int): (n: int)
    requires 1 <= m <= 12
    ensures 28 <= n <= 31
    ensures n == 29 <==> m == 2 && IsLeap(y)
    ensures n == 31 <==> m in {1, 3, 5, 7, 8, 10, 12}
  {
    if m == 2 then (if IsLeap(y) then 29 else 28)
    else if m in {4, 6, 9, 11} then 30
    else 31
  }

  /** A date `datetime.date` accepts: years `MINYEAR`..`MAXYEAR`. */
  predicate ValidDate(y: int, m: int, d: int)
  {
    1 <= y <= 9999 && 1 <= m <= 12 && 1 <= d <= DaysInMonth(y, m)
  }

  /** Every `datetime` object satisfies this. */
  predicate Valid(dt: DateTime)
  {
    ValidDate(dt.year, dt.month, dt.day) && 0 <= dt.hour < 24 && 0 <= dt.minute < 60
    && 0 <= dt.second < 60 && 0 <= dt.micro < 1000000
  }

  /** Midnight of a date, without timezone: what `strptime` returns for a date format. */
  function Midnight(y: int, m: int, d: int): DateTime
  {
    DateTime(y, m, d, 0, 0, 0, 0, false)
  }

  /** `dt.replace(tzinfo=timezone.utc)`. */
  function WithUtc(dt: DateTime): (r: DateTime)
    ensures r.aware && r == dt.(aware := true)
  {
    dt.(aware := true)
  }

  // ---------------------------------------------------------------------
  // strptime for "%Y<sep>%m<sep>%d"
  // ---------------------------------------------------------------------

  /** A captured group: its integer value and the position after it. */
  datatype Capture = Capture(value: nat, end: nat)

  /** The result of matching the whole format: year, month, day and end. */
  datatype Ymd = Ymd(year: nat, month: nat, day: nat, end: nat)

  /** `(?P<Y>\d\d\d\d)` at position `i`. */
  function YearAt(s: string, i: nat): (r: Option<Capture>)
    ensures r.Some? <==> i + 4 <= |s| && AllDigits(s[i..i + 4])
    ensures r.Some? ==> r.value == Capture(DigitsValue(s[i..i + 4]), i + 4)
  {
    if i + 4 <= |s| && AllDigits(s[i..i + 4]) then Some(Capture(DigitsValue(s[i..i + 4]), i + 4)) else None
  }

  /** `(?P<m>1[0-2]|0[1-9]|[1-9])` at `i`: the alternatives that match, in the order tried. */
  function MonthAt(s: string, i: nat): (r: seq<Capture>)
    ensures forall k :: 0 <= k < |r| ==> 1 <= r[k].value <= 12 && i < r[k].end <= |s|
  {
    (if i + 1 < |s| && s[i] == '1' && '0' <= s[i + 1] <= '2' then [Capture(10 + DigitValue(s[i + 1]), i + 2)] else [])
    + (if i + 1 < |s| && s[i] == '0' && '1' <= s[i + 1] <= '9' then [Capture(DigitValue(s[i + 1]), i + 2)] else [])
    + (if i < |s| && '1' <= s[i] <= '9' then [Capture(DigitValue(s[i]), i + 1)] else [])
  }

  /** `(?P<d>3[01]|[12]\d|0[1-9]|[1-9]| [1-9])` at `i`: the alternatives that match, in order. */
  function DayAt(s: string, i: nat): (r: seq<Capture>)
    ensures forall k :: 0 <= k < |r| ==> 1 <= r[k].value <= 31 && i < r[k].end <= |s|
  {
    (if i + 1 < |s| && s[i] == '3' && '0' <= s[i + 1] <= '1' then [Capture(30 + DigitValue(s[i + 1]), i + 2)] else [])
    + (if i + 1 < |s| && '1' <= s[i] <= '2' && IsDigit(s[i + 1]) then [Capture(10 * DigitValue(s[i]) + DigitValue(s[i + 1]), i + 2)] else [])
    + (if i + 1 < |s| && s[i] == '0' && '1' <= s[i + 1] <= '9' then [Capture(DigitValue(s[i + 1]), i + 2)] else [])
    + (if i < |s| && '1' <= s[i] <= '9' then [Capture(DigitValue(s[i]), i + 1)] else [])
    + (if i + 1 < |s| && s[i] == ' ' && '1' <= s[i + 1] <= '9' then [Capture(DigitValue(s[i + 1]), i + 2)] else [])
  }

  /** The literal separator at `i`. */
  predicate LiteralAt(s: string, i: nat, sep: string)
  {
    i + |sep| <= |s| && s[i..i + |sep|] == sep
  }

  /**
   * Backtracking over the month alternatives `months`: the first one that is
   * followed by the separator and by some day alternative wins, and the day
   * is that position's first alternative (nothing follows `%d` in the
   * pattern, so its first alternative is never revisited).
   */
  function FirstMonth(s: string, year: nat, months: seq<Capture>, sep: string): (r: Option<Ymd>)
    ensures r.Some? ==> r.value.year == year
  {
    if months == [] then None
    else
      var m := months[0];
      var days := if LiteralAt(s, m.end, sep) then DayAt(s, m.end + |sep|) else [];
      if days != [] then Some(Ymd(year, m.value, days[0].value, days[0].end))
      else
        FirstMonth(s, year, months[1..], sep)
  }

  /** `re.match` of the pattern for `%Y<sep>%m<sep>%d`. */
  function MatchYmd(s: string, sep: string): Option<Ymd>
  {
    match YearAt(s, 0)
    case None => None
    case Some(y) =>
      if LiteralAt(s, y.end, sep) then FirstMonth(s, y.value, MonthAt(s, y.end + |sep|), sep) else None
  }

  /** `datetime.strptime(s, "%Y" + sep + "%m" + sep + "%d")`; None where it raises ValueError. */
  function Strptime(s: string, sep: string): (r: Option<DateTime>)
    ensures r.Some? ==> Valid(r.value) && r.value == Midnight(r.value.year, r.value.month, r.value.day)
    ensures r.Some? ==> 4 <= |s| && AllDigits(s[..4]) && r.value.year == DigitsValue(s[..4])
  {
    match MatchYmd(s, sep)
    case None => None
    case Some(g) =>
      if g.end == |s| && ValidDate(g.year, g.month, g.day) then Some(Midnight(g.year, g.month, g.day)) else None
  }

  // ---------------------------------------------------------------------
  // isoformat
  // ---------------------------------------------------------------------

  /** `dt.isoformat()`: `YYYY-MM-DDTHH:MM:SS`, then `.ffffff` when there are microseconds, then `+00:00` when aware. */
  function IsoFormat(dt: DateTime): (r: string)
    requires Valid(dt)
    ensures |r| == 19 + (if dt.micro != 0 then 7 else 0) + (if dt.aware then 6 else 0)
    ensures r[4] == '-' && r[7] == '-' && r[10] == 'T'
  {
    var date := IsoDate(dt.year, dt.month, dt.day);
    var rest := "T" + IsoTime(dt.hour, dt.minute, dt.second) + Fraction(dt.micro)
                + (if dt.aware then "+00:00" else "");
    assert (date + rest)[10] == rest[0];
    date + rest
  }

  /** The date part of `isoformat`, that is `strftime("%Y-%m-%d")`. */
  function IsoDate(y: nat, m: nat, d: nat): (r: string)
    requires 1 <= y <= 9999 && m < 100 && d < 100
    ensures |r| == 10 && r[4] == '-' && r[7] == '-'
  {
    PadWidth(y, 4);
    PadWidth(m, 2);
    PadWidth(d, 2);
    ZeroPad(y, 4) + "-" + ZeroPad(m, 2) + "-" + ZeroPad(d, 2)
  }

  /** The time part of `isoformat`: `HH:MM:SS`. */
  function IsoTime(h: nat, mi: nat, sec: nat): (r: string)
    requires h < 100 && mi < 100 && sec < 100
    ensures |r| == 8
  {
    PadWidth(h, 2);
    PadWidth(mi, 2);
    PadWidth(sec, 2);
    ZeroPad(h, 2) + ":" + ZeroPad(mi, 2) + ":" + ZeroPad(sec, 2)
  }

  /** `.ffffff` for a non-zero microsecond count, nothing for zero. */
  function Fraction(micro: nat): (r: string)
    requires micro < 1000000
    ensures |r| == if micro != 0 then 7 else 0
  {
    PadWidth(micro, 6);
    if micro != 0 then "." + ZeroPad(micro, 6) else ""
  }

  /** A number below `10^k` is padded to exactly `k` characters. */
  lemma PadWidth(n: nat, k: nat)
    requires 1 <= k && n < Pow10(k)
    ensures |ZeroPad(n, k)| == k
  {
    ShortWidth(n, k);
  }

  // ---------------------------------------------------------------------
  // Lemmas
  // ---------------------------------------------------------------------

  function Pow10(k: nat): (p: nat)
    ensures p >= 1
  {
    if k == 0 then 1 else 10 * Pow10(k - 1)
  }

  /** A number below `10^k` prints in at most `k` digits. */
  lemma {:induction false} ShortWidth(n: nat, k: nat)
    requires 1 <= k && n < Pow10(k)
    ensures |NatToString(n)| <= k
  {
    if n >= 10 {
      ShortWidth(n / 10, k - 1);
    }
  }

  lemma {:induction false} DigitsValueLeadingZeros(z: nat, t: string)
    requires AllDigits(t)
    ensures AllDigits(seq(z, _ => '0') + t)
    ensures DigitsValue(seq(z, _ => '0') + t) == DigitsValue(t)
    decreases |t|, z
  {
    var zs: string := seq(z, _ => '0');
    if t == [] {
      assert zs + t == zs;
      if z > 0 {
        DigitsValueLeadingZeros(z - 1, t);
        assert zs[..|zs| - 1] == seq(z - 1, _ => '0') + t;
      }
    } else {
      DigitsValueLeadingZeros(z, t[..|t| - 1]);
      assert (zs + t)[..|zs + t| - 1] == zs + t[..|t| - 1];
    }
  }

  /** `f"{n:0{k}d}"` for `n < 10^k` is exactly `k` digits whose value is `n`. */
  lemma ZeroPadExact(n: nat, k: nat)
    requires 1 <= k && n < Pow10(k)
    ensures |ZeroPad(n, k)| == k && AllDigits(ZeroPad(n, k))
    ensures DigitsValue(ZeroPad(n, k)) == n
  {
    ShortWidth(n, k);
    DigitsValueOfNatToString(n);
    var digits := NatToString(n);
    if |digits| < k {
      DigitsValueLeadingZeros(k - |digits|, digits);
    }
  }

  /** Two-digit padding spelled out character by character. */
  lemma ZeroPadTwo(n: nat)
    requires n < 100
    ensures ZeroPad(n, 2) == [DigitChar(n / 10), DigitChar(n % 10)]
  {
    if n >= 10 {
      assert NatToString(n / 10) == [DigitChar(n / 10)];
    }
  }

  lemma DigitValueOfDigitChar(d: nat)
    requires d < 10
    ensures DigitValue(DigitChar(d)) == d
  {
  }

  /** The characters of `p + MM + sep + DD`: two digits, the separator, two digits. */
  lemma PaddedChars(p: string, sep: string, m: nat, d: nat)
    requires m < 100 && d < 100
    ensures var s := p + ZeroPad(m, 2) + sep + ZeroPad(d, 2);
            var i := |p|;
            |s| == i + 4 + |sep| && s[i] == DigitChar(m / 10) && s[i + 1] == DigitChar(m % 10)
            && LiteralAt(s, i + 2, sep) && s[|s| - 2] == DigitChar(d / 10) && s[|s| - 1] == DigitChar(d % 10)
  {
    var s := p + ZeroPad(m, 2) + sep + ZeroPad(d, 2);
    var i := |p|;
    ZeroPadTwo(m);
    ZeroPadTwo(d);
    assert s[i + 2..i + 2 + |sep|] == sep;
  }

  /** The month group's first alternative reads a two-digit month `MM`. */
  lemma MonthFirst(s: string, i: nat, m: nat)
    requires 1 <= m <= 12 && i + 1 < |s|
    requires s[i] == DigitChar(m / 10) && s[i + 1] == DigitChar(m % 10)
    ensures MonthAt(s, i) != [] && MonthAt(s, i)[0] == Capture(m, i + 2)
  {
    DigitValueOfDigitChar(m / 10);
    DigitValueOfDigitChar(m % 10);
  }

  /** The day group's first alternative reads a two-digit day `DD` that ends the text. */
  lemma DayFirst(s: string, j: nat, d: nat)
    requires 1 <= d <= 31 && j + 2 == |s|
    requires s[j] == DigitChar(d / 10) && s[j + 1] == DigitChar(d % 10)
    ensures DayAt(s, j) != [] && DayAt(s, j)[0] == Capture(d, |s|)
  {
    DigitValueOfDigitChar(d / 10);
    DigitValueOfDigitChar(d % 10);
  }

  /**
   * `strptime` reads back the date part of `isoformat` (and the same
   * digits with any other separator): every valid date round-trips.
   */
  lemma StrptimeIsoDate(y: nat, m: nat, d: nat, sep: string)
    requires ValidDate(y, m, d)
    ensures Strptime(ZeroPad(y, 4) + sep + ZeroPad(m, 2) + sep + ZeroPad(d, 2), sep) == Some(Midnight(y, m, d))
  {
    var s := ZeroPad(y, 4) + sep + ZeroPad(m, 2) + sep + ZeroPad(d, 2);
    MatchIsoDate(y, m, d, sep);
  }

  lemma MatchIsoDate(y: nat, m: nat, d: nat, sep: string)
    requires ValidDate(y, m, d)
    ensures var s := ZeroPad(y, 4) + sep + ZeroPad(m, 2) + sep + ZeroPad(d, 2);
            MatchYmd(s, sep) == Some(Ymd(y, m, d, |s|))
  {
    var s := ZeroPad(y, 4) + sep + ZeroPad(m, 2) + sep + ZeroPad(d, 2);
    assert s == ZeroPad(y, 4) + sep + (ZeroPad(m, 2) + sep + ZeroPad(d, 2));
    YearThenSep(y, sep, ZeroPad(m, 2) + sep + ZeroPad(d, 2));
    PaddedChars(ZeroPad(y, 4) + sep, sep, m, d);
    MatchChars(s, sep, y, m, d);
  }

  /** Four year digits, the separator, `MM`, the separator and `DD` match as written. */
  lemma MatchChars(s: string, sep: string, y: nat, m: nat, d: nat)
    requires 1 <= m <= 12 && 1 <= d <= 31
    requires YearAt(s, 0) == Some(Capture(y, 4)) && LiteralAt(s, 4, sep)
    requires var i := 4 + |sep|;
             |s| == i + 4 + |sep| && s[i] == DigitChar(m / 10) && s[i + 1] == DigitChar(m % 10)
             && LiteralAt(s, i + 2, sep) && s[|s| - 2] == DigitChar(d / 10) && s[|s| - 1] == DigitChar(d % 10)
    ensures MatchYmd(s, sep) == Some(Ymd(y, m, d, |s|))
  {
    AfterYear(s, 4 + |sep|, sep, y, m, d);
    MatchYmdFrom(s, sep, y, MonthAt(s, 4 + |sep|));
  }

  /** After the year and its separator, the month and day groups read `MM<sep>DD` back. */
  lemma AfterYear(s: string, i: nat, sep: string, y: nat, m: nat, d: nat)
    requires 1 <= m <= 12 && 1 <= d <= 31 && |s| == i + 4 + |sep|
    requires s[i] == DigitChar(m / 10) && s[i + 1] == DigitChar(m % 10) && LiteralAt(s, i + 2, sep)
    requires s[|s| - 2] == DigitChar(d / 10) && s[|s| - 1] == DigitChar(d % 10)
    ensures FirstMonth(s, y, MonthAt(s, i), sep) == Some(Ymd(y, m, d, |s|))
  {
    MonthFirst(s, i, m);
    DayFirst(s, i + 2 + |sep|, d);
    FirstMonthTaken(s, y, MonthAt(s, i), sep);
  }

  /** Once the year and the separator match, the match is the month backtracking's. */
  lemma MatchYmdFrom(s: string, sep: string, y: nat, months: seq<Capture>)
    requires YearAt(s, 0) == Some(Capture(y, 4)) && LiteralAt(s, 4, sep)
    requires months == MonthAt(s, 4 + |sep|)
    ensures MatchYmd(s, sep) == FirstMonth(s, y, months, sep)
  {
  }

  /** The year group reads the padded year back, and the separator follows it. */
  lemma YearThenSep(y: nat, sep: string, rest: string)
    requires 1 <= y <= 9999
    ensures var s := ZeroPad(y, 4) + sep + rest;
            |ZeroPad(y, 4)| == 4 && YearAt(s, 0) == Some(Capture(y, 4)) && LiteralAt(s, 4, sep)
  {
    var s := ZeroPad(y, 4) + sep + rest;
    ZeroPadExact(y, 4);
    assert s[..4] == ZeroPad(y, 4);
    assert s[0..4] == s[..4];
    assert s[4..4 + |sep|] == sep;
  }

  /** Backtracking stops at the first month alternative that a separator and a day follow. */
  lemma FirstMonthTaken(s: string, year: nat, months: seq<Capture>, sep: string)
    requires months != [] && LiteralAt(s, months[0].end, sep) && DayAt(s, months[0].end + |sep|) != []
    ensures var day := DayAt(s, months[0].end + |sep|)[0];
            FirstMonth(s, year, months, sep) == Some(Ymd(year, months[0].value, day.value, day.end))
  {
  }

  /**
   * With a one-character separator that is neither a digit nor a blank, the
   * month and day groups read nothing but the two-digit month and day as
   * written: `strptime` either fails or returns exactly that month and day.
   */
  lemma StrptimeReadsWritten(p: string, m: nat, d: nat, sep: string)
    requires |p| == 4 && m < 100 && d < 100
    requires |sep| == 1 && !IsDigit(sep[0]) && sep[0] != ' '
    ensures var r := Strptime(p + sep + ZeroPad(m, 2) + sep + ZeroPad(d, 2), sep);
            r.Some? ==> r.value.month == m && r.value.day == d
  {
    PaddedChars(p + sep, sep, m, d);
    ReadsWrittenChars(p + sep + ZeroPad(m, 2) + sep + ZeroPad(d, 2), m, d, sep);
  }

  /** The same, character by character: `YYYY`, the separator, `MM`, the separator, `DD`. */
  lemma ReadsWrittenChars(s: string, m: nat, d: nat, sep: string)
    requires m < 100 && d < 100 && |s| == 10
    requires |sep| == 1 && !IsDigit(sep[0]) && sep[0] != ' '
    requires s[5] == DigitChar(m / 10) && s[6] == DigitChar(m % 10)
    requires s[8] == DigitChar(d / 10) && s[9] == DigitChar(d % 10)
    ensures var r := Strptime(s, sep);
            r.Some? ==> r.value.month == m && r.value.day == d
  {
    MonthsReadWritten(s, 5, m, sep);
    DaysReadWritten(s, 8, d);
    var y := YearAt(s, 0);
    if y.Some? && LiteralAt(s, y.value.end, sep) {
      assert y.value.end == 4;
      FirstMonthReads(s, y.value.value, MonthAt(s, 5), sep, m, 7);
    }
  }

  /** Only the two-digit month alternative can be followed by the separator. */
  lemma MonthsReadWritten(s: string, i: nat, m: nat, sep: string)
    requires m < 100 && i + 3 <= |s| && |sep| == 1 && !IsDigit(sep[0])
    requires s[i] == DigitChar(m / 10) && s[i + 1] == DigitChar(m % 10)
    ensures forall k :: 0 <= k < |MonthAt(s, i)| && LiteralAt(s, MonthAt(s, i)[k].end, sep)
                        ==> MonthAt(s, i)[k] == Capture(m, i + 2)
  {
    DigitValueOfDigitChar(m % 10);
    var a := if i + 1 < |s| && s[i] == '1' && '0' <= s[i + 1] <= '2' then [Capture(10 + DigitValue(s[i + 1]), i + 2)] else [];
    var b := if i + 1 < |s| && s[i] == '0' && '1' <= s[i + 1] <= '9' then [Capture(DigitValue(s[i + 1]), i + 2)] else [];
    var c := if i < |s| && '1' <= s[i] <= '9' then [Capture(DigitValue(s[i]), i + 1)] else [];
    assert MonthAt(s, i) == a + b + c;
    assert !LiteralAt(s, i + 1, sep) by {
      assert s[i + 1..i + 2][0] == s[i + 1];
    }
  }

  /** A day alternative that ends the text reads the two digits as written. */
  lemma DaysReadWritten(s: string, j: nat, d: nat)
    requires d < 100 && |s| == j + 2
    requires s[j] == DigitChar(d / 10) && s[j + 1] == DigitChar(d % 10)
    ensures forall k :: 0 <= k < |DayAt(s, j)| && DayAt(s, j)[k].end == |s| ==> DayAt(s, j)[k].value == d
  {
    DigitValueOfDigitChar(d / 10);
    DigitValueOfDigitChar(d % 10);
  }

  /** When every month alternative followed by the separator is the same, `FirstMonth` uses it. */
  lemma {:induction false} FirstMonthReads(s: string, year: nat, months: seq<Capture>, sep: string, m: nat, e: nat)
    requires forall k :: 0 <= k < |months| && LiteralAt(s, months[k].end, sep) ==> months[k] == Capture(m, e)
    ensures var r := FirstMonth(s, year, months, sep);
            r.Some? ==> r.value.month == m && LiteralAt(s, e, sep) && DayAt(s, e + |sep|) != []
                        && r.value.day == DayAt(s, e + |sep|)[0].value && r.value.end == DayAt(s, e + |sep|)[0].end
  {
    if months != [] && !(LiteralAt(s, months[0].end, sep) && DayAt(s, months[0].end + |sep|) != []) {
      assert forall k :: 0 <= k < |months[1..]| ==> months[1..][k] == months[k + 1];
      FirstMonthReads(s, year, months[1..], sep, m, e);
    }
  }

  /** Hence the date part of any `isoformat` output parses back to that date. */
  lemma StrptimeOfIsoFormat(dt: DateTime)
    requires Valid(dt)
    ensures Strptime(IsoFormat(dt)[..10], "-") == Some(Midnight(dt.year, dt.month, dt.day))
  {
    assert IsoFormat(dt)[..10] == IsoDate(dt.year, dt.month, dt.day);
    StrptimeIsoDate(dt.year, dt.month, dt.day, "-");
  }

  /** A year printed with fewer than four digits cannot satisfy `%Y`. */
  lemma StrptimeShortYear(y: nat, rest: string, sep: string)
    requires y < 1000 && sep != [] && !IsDigit(sep[0])
    ensures Strptime(NatToString(y) + sep + rest, sep) == None
  {
    ShortWidth(y, 3);
    var s := NatToString(y) + sep + rest;
    var n := |NatToString(y)|;
    assert s[n] == sep[0];
    if 4 <= |s| {
      assert s[..4][n] == s[n];
    }
  }

  /** The separator, month and day are ignored by `%Y`: four-digit years print as four digits. */
  lemma NatToStringFourDigits(y: nat)
    requires 1000 <= y <= 9999
    ensures ZeroPad(y, 4) == NatToString(y)
  {
    assert y / 10 >= 100 && y / 100 >= 10;
  }
}
