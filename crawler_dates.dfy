/**
 * `parse_publish_time` of the crawler: a best-effort date parser that
 * rewrites "DDYYYY-MM", resolves a month/day-only date against the current
 * time, tries four `strptime` formats and otherwise answers "now".
 * `now` is a parameter standing for `datetime.now(timezone.utc)`.
 */
module CrawlerDates {
  import opened Wrappers
  import opened Text
  import opened Dates

  /** `^(\d{1,2})(\d{4}-\d{2})$` applied to stripped text: `DDYYYY-MM` or `DYYYY-MM`. */
  predicate IsDayYearMonth(s: string)
  {
    (|s| == 8 || |s| == 9) && s[|s| - 3] == '-' && AllDigits(s[..|s| - 3]) && AllDigits(s[|s| - 2..])
  }

  /** `f"{year_month}-{day.zfill(2)}"`: the day moved behind the year and month. */
  function RewriteDayYearMonth(s: string): (r: string)
    requires IsDayYearMonth(s)
    ensures |r| == 10 && r[4] == '-' && r[7] == '-'
    ensures r[..7] == s[|s| - 7..] && r[8..] == (if |s| == 9 then s[..2] else "0" + s[..1])
  {
    var day := s[..|s| - 7];
    var yearMonth := s[|s| - 7..];
    yearMonth + "-" + (if |day| == 1 then "0" + day else day)
  }

  /** `^(\d{1,2})[-/.](\d{1,2})$`: a month and a day only, as digit strings. */
  predicate IsMonthDay(s: string, i: nat)
  {
    (i == 1 || i == 2) && i < |s| && (|s| == i + 2 || |s| == i + 3) && (s[i] == '-' || s[i] == '/' || s[i] == '.')
    && AllDigits(s[..i]) && AllDigits(s[i + 1..])
  }

  /** The year a month/day-only date is placed in: this year unless the date is still ahead. */
  function YearFor(month: int, day: int, now: DateTime): (y: int)
    ensures y == now.year || y == now.year - 1
    ensures y == now.year <==> month < now.month || (month == now.month && day <= now.day)
  {
    if month < now.month || (month == now.month && day <= now.day) then now.year else now.year - 1
  }

  /** `f"{year}-{month:02d}-{day:02d}"` parsed with `%Y-%m-%d`. */
  function MonthDayDate(month: nat, day: nat, now: DateTime): (r: Option<DateTime>)
    requires 1 <= now.year
  {
    var y := YearFor(month, day, now);
    Strptime(NatToString(y) + "-" + ZeroPad(month, 2) + "-" + ZeroPad(day, 2), "-")
  }

  /** `strptime` with `%Y-%m-%d`, `%Y/%m/%d`, `%Y.%m.%d` and `%Y%m%d`, in that order. */
  function FirstFormat(s: string, seps: seq<string>): (r: Option<DateTime>)
    ensures r.Some? ==> Valid(r.value) && !r.value.aware
    ensures r.None? <==> forall k :: 0 <= k < |seps| ==> Strptime(s, seps[k]).None?
  {
    if seps == [] then None
    else
      match Strptime(s, seps[0])
      case Some(dt) => Some(dt)
      case None =>
        var r := FirstFormat(s, seps[1..]);
        assert forall k :: 1 <= k < |seps| ==> seps[k] == seps[1..][k - 1];
        r
  }

  const CrawlerFormats: seq<string> := ["-", "/", ".", ""]

  /** The text after the "DDYYYY-MM" rewrite. */
  function Rewritten(s: string): string
  {
    if IsDayYearMonth(s) then RewriteDayYearMonth(s) else s
  }

  /** The month/day-only rule: None when the text is not "M-D" or the date does not exist. */
  function MonthDay(t: string, now: DateTime): Option<DateTime>
    requires 1 <= now.year
  {
    if IsMonthDay(t, 1) then MonthDayDate(DigitsValue(t[..1]), DigitsValue(t[2..]), now)
    else if IsMonthDay(t, 2) then MonthDayDate(DigitsValue(t[..2]), DigitsValue(t[3..]), now)
    else None
  }

  /** The rules after stripping and rewriting: month/day, then the four formats, else now. */
  function ParseText(t: string, now: DateTime): (r: DateTime)
    requires Valid(now) && now.aware
    ensures Valid(r) && r.aware
  {
    var md := MonthDay(t, now);
    if md.Some? then WithUtc(md.value)
    else match FirstFormat(t, CrawlerFormats)
      case Some(dt) => WithUtc(dt)
      case None => now
  }

  /** `parse_publish_time(date_str)` of crawler/services.py. */
  function ParsePublishTime(date: Option<string>, now: DateTime): (r: DateTime)
    requires Valid(now) && now.aware
    ensures Valid(r) && r.aware
    ensures date.None? || date.value == "" ==> r == now
    ensures date.Some? && date.value != "" ==> r == ParseText(Rewritten(Strip(date.value)), now)
  {
    if date.None? || date.value == "" then now
    else ParseText(Rewritten(Strip(date.value)), now)
  }

  // ---------------------------------------------------------------------
  // Lemmas
  // ---------------------------------------------------------------------

  /** No `strptime` format accepts text whose first four characters are not all digits. */
  lemma NoFormatWithoutYear(s: string)
    requires |s| < 4 || !AllDigits(s[..4])
    ensures FirstFormat(s, CrawlerFormats) == None
  {
    forall k | 0 <= k < |CrawlerFormats|
      ensures Strptime(s, CrawlerFormats[k]).None?
    {
    }
  }

  /** Facts about month/day text: it is short, and its separator sits at `i`. */
  lemma MonthDayShape(s: string, i: nat)
    requires IsMonthDay(s, i)
    ensures !IsDayYearMonth(s) && (|s| < 4 || !AllDigits(s[..4])) && !IsMonthDay(s, 3 - i)
  {
    if 4 <= |s| {
      assert s[..4][i] == s[i];
    }
  }

  /**
   * A month/day-only date ("M-D", "MM/DD", "M.DD", ...) whose resolved date
   * exists is placed in this year when it is not later than today, and in
   * the previous year otherwise.
   */
  lemma MonthDayRule(text: string, i: nat, now: DateTime)
    requires Valid(now) && now.aware
    requires Strip(text) == text && IsMonthDay(text, i)
    requires var m, d := DigitsValue(text[..i]), DigitsValue(text[i + 1..]);
             1000 <= YearFor(m, d, now) && ValidDate(YearFor(m, d, now), m, d)
    ensures var m, d := DigitsValue(text[..i]), DigitsValue(text[i + 1..]);
            ParsePublishTime(Some(text), now) == WithUtc(Midnight(YearFor(m, d, now), m, d))
  {
    var m, d := DigitsValue(text[..i]), DigitsValue(text[i + 1..]);
    MonthDayValue(text, i, now);
    MonthDayDateExists(m, d, now);
    TextKept(text, now);
  }

  /** Text with nothing to strip and no "DDYYYY-MM" shape goes to the rules unchanged. */
  lemma TextKept(text: string, now: DateTime)
    requires Valid(now) && now.aware
    requires text != "" && Strip(text) == text && !IsDayYearMonth(text)
    ensures ParsePublishTime(Some(text), now) == ParseText(text, now)
  {
    assert Rewritten(text) == text;
  }

  /** The month/day rule's value on month/day text. */
  lemma MonthDayValue(text: string, i: nat, now: DateTime)
    requires 1 <= now.year && IsMonthDay(text, i)
    ensures !IsDayYearMonth(text) && text != ""
    ensures MonthDay(text, now) == MonthDayDate(DigitsValue(text[..i]), DigitsValue(text[i + 1..]), now)
  {
    MonthDayShape(text, i);
  }

  /** A resolved month/day date that exists (with a four-digit year) is the date itself. */
  lemma MonthDayDateExists(m: nat, d: nat, now: DateTime)
    requires 1 <= now.year
    requires 1000 <= YearFor(m, d, now) && ValidDate(YearFor(m, d, now), m, d)
    ensures MonthDayDate(m, d, now) == Some(Midnight(YearFor(m, d, now), m, d))
  {
    var y := YearFor(m, d, now);
    NatToStringFourDigits(y);
    StrptimeIsoDate(y, m, d, "-");
  }

  /** A resolved month/day date that does not exist gives no value. */
  lemma MonthDayDateMissing(m: nat, d: nat, now: DateTime)
    requires Valid(now) && m < 100 && d < 100 && !ValidDate(YearFor(m, d, now), m, d)
    ensures MonthDayDate(m, d, now) == None
  {
    var y := YearFor(m, d, now);
    if y < 1000 {
      ShortYearMissing(y, m, d);
    } else {
      FourDigitYearMissing(y, m, d);
    }
  }

  lemma ShortYearMissing(y: nat, m: nat, d: nat)
    requires y < 1000
    ensures Strptime(NatToString(y) + "-" + ZeroPad(m, 2) + "-" + ZeroPad(d, 2), "-") == None
  {
    WrittenDateSplit(NatToString(y), ZeroPad(m, 2), ZeroPad(d, 2));
    StrptimeShortYear(y, ZeroPad(m, 2) + "-" + ZeroPad(d, 2), "-");
  }

  /** A written date is its year, a dash, and the rest of the date. */
  lemma WrittenDateSplit(year: string, month: string, day: string)
    ensures year + "-" + month + "-" + day == year + "-" + (month + "-" + day)
  {
  }

  lemma FourDigitYearMissing(y: nat, m: nat, d: nat)
    requires 1000 <= y <= 9999 && m < 100 && d < 100 && !ValidDate(y, m, d)
    ensures Strptime(NatToString(y) + "-" + ZeroPad(m, 2) + "-" + ZeroPad(d, 2), "-") == None
  {
    NatToStringFourDigits(y);
    ZeroPadExact(y, 4);
    StrptimeReadsWritten(NatToString(y), m, d, "-");
    var s := NatToString(y) + "-" + ZeroPad(m, 2) + "-" + ZeroPad(d, 2);
    assert s[..4] == NatToString(y);
  }

  /** One or two digits read as a number below 100. */
  lemma TwoDigitsBelow100(s: string)
    requires AllDigits(s) && |s| <= 2
    ensures DigitsValue(s) < 100
  {
    if s != [] {
      assert DigitsValue(s[..|s| - 1]) < 10 by {
        if |s| == 2 {
          assert s[..1][..0] == [];
        }
      }
    }
  }

  /** A month/day-only date that does not exist in the resolved year ends as "now". */
  lemma ImpossibleMonthDayIsNow(text: string, i: nat, now: DateTime)
    requires Valid(now) && now.aware
    requires Strip(text) == text && IsMonthDay(text, i)
    requires var m, d := DigitsValue(text[..i]), DigitsValue(text[i + 1..]);
             !ValidDate(YearFor(m, d, now), m, d)
    ensures ParsePublishTime(Some(text), now) == now
  {
    MonthDayValue(text, i, now);
    TwoDigitsBelow100(text[..i]);
    TwoDigitsBelow100(text[i + 1..]);
    MonthDayDateMissing(DigitsValue(text[..i]), DigitsValue(text[i + 1..]), now);
    MonthDayShape(text, i);
    NoFormatWithoutYear(text);
    TextKept(text, now);
  }

  /** Text that is not month/day text gets nothing from the month/day rule. */
  lemma NotMonthDay(t: string, now: DateTime)
    requires 1 <= now.year && !IsMonthDay(t, 1) && !IsMonthDay(t, 2)
    ensures MonthDay(t, now) == None
  {
  }

  /** When the month/day rule does not apply, the first format that parses decides. */
  lemma ParseTextByFormat(t: string, now: DateTime, dt: DateTime)
    requires Valid(now) && now.aware
    requires MonthDay(t, now).None? && FirstFormat(t, CrawlerFormats) == Some(dt)
    ensures ParseText(t, now) == WithUtc(dt)
  {
  }

  /**
   * Every valid date written as `YYYY<sep>MM<sep>DD` with one of the four
   * separators parses back to that date, in UTC.
   */
  lemma FormatsRoundTrip(y: nat, m: nat, d: nat, k: nat, now: DateTime)
    requires Valid(now) && now.aware && ValidDate(y, m, d) && k < |CrawlerFormats|
    ensures var sep := CrawlerFormats[k];
            ParsePublishTime(Some(ZeroPad(y, 4) + sep + ZeroPad(m, 2) + sep + ZeroPad(d, 2)), now)
              == WithUtc(Midnight(y, m, d))
  {
    var sep := CrawlerFormats[k];
    var s := ZeroPad(y, 4) + sep + ZeroPad(m, 2) + sep + ZeroPad(d, 2);
    FormattedPlain(y, m, d, sep);
    FormattedFirst(y, m, d, k);
    PlainTextByFormat(s, now, Midnight(y, m, d));
  }

  /** Plain text that one of the formats reads is that date, in UTC. */
  lemma PlainTextByFormat(s: string, now: DateTime, dt: DateTime)
    requires Valid(now) && now.aware
    requires s != "" && Strip(s) == s && !IsDayYearMonth(s) && !IsMonthDay(s, 1) && !IsMonthDay(s, 2)
    requires FirstFormat(s, CrawlerFormats) == Some(dt)
    ensures ParsePublishTime(Some(s), now) == WithUtc(dt)
  {
    NotMonthDay(s, now);
    ParseTextByFormat(s, now, dt);
    TextKept(s, now);
  }

  /** The written-out date has nothing to strip, and is neither "DDYYYY-MM" nor month/day text. */
  lemma FormattedPlain(y: nat, m: nat, d: nat, sep: string)
    requires ValidDate(y, m, d) && |sep| <= 1
    ensures var s := ZeroPad(y, 4) + sep + ZeroPad(m, 2) + sep + ZeroPad(d, 2);
            s != "" && Strip(s) == s && !IsDayYearMonth(s) && !IsMonthDay(s, 1) && !IsMonthDay(s, 2)
  {
    ZeroPadExact(y, 4);
    ZeroPadExact(m, 2);
    ZeroPadExact(d, 2);
    var a, b, c := ZeroPad(y, 4), ZeroPad(m, 2), ZeroPad(d, 2);
    DigitGroupsStrip(a, b, c, sep);
    DigitGroupsNotDayYearMonth(a, b, c, sep);
  }

  /** The first format that reads the written-out date is its own. */
  lemma FormattedFirst(y: nat, m: nat, d: nat, k: nat)
    requires ValidDate(y, m, d) && k < |CrawlerFormats|
    ensures var sep := CrawlerFormats[k];
            FirstFormat(ZeroPad(y, 4) + sep + ZeroPad(m, 2) + sep + ZeroPad(d, 2), CrawlerFormats) == Some(Midnight(y, m, d))
  {
    var sep := CrawlerFormats[k];
    ZeroPadExact(y, 4);
    ZeroPadExact(m, 2);
    ZeroPadExact(d, 2);
    var a, b, c := ZeroPad(y, 4), ZeroPad(m, 2), ZeroPad(d, 2);
    DigitGroupsDigits(a, b, c, sep);
    FormatPicked(a + sep + b + sep + c, y, m, d, k);
  }

  /** The written-out date is read by its own format. */
  lemma FormatPicked(s: string, y: nat, m: nat, d: nat, k: nat)
    requires ValidDate(y, m, d) && k < |CrawlerFormats|
    requires s == ZeroPad(y, 4) + CrawlerFormats[k] + ZeroPad(m, 2) + CrawlerFormats[k] + ZeroPad(d, 2)
    requires |s| >= 8 && AllDigits(s[..4])
    requires |CrawlerFormats[k]| == 1 ==> s[4..5] == CrawlerFormats[k]
    requires CrawlerFormats[k] == "" ==> AllDigits(s)
    ensures FirstFormat(s, CrawlerFormats) == Some(Midnight(y, m, d))
  {
    StrptimeIsoDate(y, m, d, CrawlerFormats[k]);
    EarlierFormatsFail(s, k);
    FirstFormatPicks(s, CrawlerFormats, k);
  }

  /** The written-out date has four leading digits, its separators in place, and nothing to strip or rewrite. */
  lemma DigitGroupsDigits(a: string, b: string, c: string, sep: string)
    requires |a| == 4 && |b| == 2 && |c| == 2 && AllDigits(a) && AllDigits(b) && AllDigits(c)
    requires |sep| <= 1
    ensures var s := a + sep + b + sep + c;
            |s| == 8 + 2 * |sep| && s[..4] == a && (|sep| == 1 ==> s[4..5] == sep) && (sep == "" ==> AllDigits(s))
  {
    var s := a + sep + b + sep + c;
    assert s[..4] == a;
    if sep == "" {
      assert s == a + b + c;
    }
  }

  lemma DigitGroupsStrip(a: string, b: string, c: string, sep: string)
    requires |a| == 4 && |b| == 2 && |c| == 2 && AllDigits(a) && AllDigits(b) && AllDigits(c)
    requires |sep| <= 1
    ensures var s := a + sep + b + sep + c; Strip(s) == s
  {
    var s := a + sep + b + sep + c;
    assert s[0] == a[0];
    assert s[|s| - 1] == c[1];
    StripEnds(s);
  }

  lemma DigitGroupsNotDayYearMonth(a: string, b: string, c: string, sep: string)
    requires |a| == 4 && |b| == 2 && |c| == 2 && AllDigits(a) && AllDigits(b) && AllDigits(c)
    requires |sep| <= 1
    ensures var s := a + sep + b + sep + c; !IsDayYearMonth(s) && !IsMonthDay(s, 1) && !IsMonthDay(s, 2)
  {
    var s := a + sep + b + sep + c;
    if sep == "" {
      assert s[5] == b[1];
    }
  }

  /** Formats before the one a text is written in reject it. */
  lemma EarlierFormatsFail(s: string, k: nat)
    requires k < |CrawlerFormats| && |s| >= 8 && AllDigits(s[..4])
    requires |CrawlerFormats[k]| == 1 ==> s[4..5] == CrawlerFormats[k]
    requires CrawlerFormats[k] == "" ==> AllDigits(s)
    ensures forall j :: 0 <= j < k ==> Strptime(s, CrawlerFormats[j]).None?
  {
    forall j | 0 <= j < k
      ensures Strptime(s, CrawlerFormats[j]).None?
    {
      var other := CrawlerFormats[j];
      assert !LiteralAt(s, 4, other) by {
        if k == 3 {
          assert IsDigit(s[4]);
        } else {
          assert s[4] == CrawlerFormats[k][0];
        }
      }
    }
  }

  lemma NoSpaceDigits(s: string)
    requires |s| >= 8 && AllDigits(s[..4]) && AllDigits(s[|s| - 2..])
    ensures Strip(s) == s
  {
    assert s[0] == s[..4][0] && s[|s| - 1] == s[|s| - 2..][1];
    StripEnds(s);
  }

  /** The first format that parses is the one used. */
  lemma {:induction false} FirstFormatPicks(s: string, seps: seq<string>, k: nat)
    requires k < |seps| && Strptime(s, seps[k]).Some?
    requires forall j :: 0 <= j < k ==> Strptime(s, seps[j]).None?
    ensures FirstFormat(s, seps) == Strptime(s, seps[k])
  {
    if k > 0 {
      var tail := seps[1..];
      assert tail[k - 1] == seps[k];
      forall j | 0 <= j < k - 1 ensures Strptime(s, tail[j]).None? {
        assert tail[j] == seps[j + 1];
      }
      FirstFormatPicks(s, tail, k - 1);
      assert Strptime(s, seps[0]).None?;
    }
  }

  /** `%Y%m%d` backtracks inside the month group: "2024110" is the 10th of January 2024. */
  lemma CompactFormatBacktracks(now: DateTime)
    requires Valid(now) && now.aware
    ensures ParsePublishTime(Some("2024110"), now) == WithUtc(Midnight(2024, 1, 10))
  {
    var s := "2024110";
    CompactChars();
    CompactPlain(s);
    CompactStrptime();
    CompactFirstFormat(s);
    PlainTextByFormat(s, now, Midnight(2024, 1, 10));
  }

  /** "2024110" character by character. */
  predicate IsCompactSample(s: string)
  {
    |s| == 7 && s[0] == '2' && s[1] == '0' && s[2] == '2' && s[3] == '4' && s[4] == '1' && s[5] == '1' && s[6] == '0'
  }

  lemma CompactChars()
    ensures IsCompactSample("2024110")
  {
  }

  lemma CompactPlain(s: string)
    requires IsCompactSample(s)
    ensures s != "" && Strip(s) == s && !IsDayYearMonth(s) && !IsMonthDay(s, 1) && !IsMonthDay(s, 2)
  {
    StripEnds(s);
  }

  /** Only the last format, `%Y%m%d`, has an empty separator at position 4. */
  lemma CompactFirstFormat(s: string)
    requires IsCompactSample(s) && Strptime(s, "") == Some(Midnight(2024, 1, 10))
    ensures FirstFormat(s, CrawlerFormats) == Some(Midnight(2024, 1, 10))
  {
    assert s[4..5][0] == '1';
    assert !LiteralAt(s, 4, "-") && !LiteralAt(s, 4, "/") && !LiteralAt(s, 4, ".");
    FirstFormatPicks(s, CrawlerFormats, 3);
  }

  lemma CompactStrptime()
    ensures Strptime("2024110", "") == Some(Midnight(2024, 1, 10))
  {
    CompactMatch();
    assert ValidDate(2024, 1, 10);
  }

  lemma CompactYear()
    ensures YearAt("2024110", 0) == Some(Capture(2024, 4))
  {
    var y := "2024110"[..4];
    assert y == "2024";
    assert DigitsValue("2") == 2 by { assert "2"[..0] == ""; }
    assert DigitsValue("20") == 20 by { assert "20"[..1] == "2"; }
    assert DigitsValue("202") == 202 by { assert "202"[..2] == "20"; }
    assert DigitsValue(y) == 2024 by { assert y[..3] == "202"; }
  }

  lemma CompactGroups()
    ensures MonthAt("2024110", 4) == [Capture(11, 6), Capture(1, 5)]
    ensures DayAt("2024110", 6) == [] && DayAt("2024110", 5) != [] && DayAt("2024110", 5)[0] == Capture(10, 7)
  {
  }

  lemma CompactMatch()
    ensures MatchYmd("2024110", "") == Some(Ymd(2024, 1, 10, 7))
  {
    var s := "2024110";
    CompactYear();
    CompactGroups();
    assert LiteralAt(s, 4, "") && LiteralAt(s, 6, "") && LiteralAt(s, 5, "");
    var months := MonthAt(s, 4);
    assert FirstMonth(s, 2024, months[1..], "") == Some(Ymd(2024, 1, 10, 7));
    assert FirstMonth(s, 2024, months, "") == Some(Ymd(2024, 1, 10, 7));
  }

  /** "252025-11" is rewritten to "2025-11-25", the text the date formats then read. */
  lemma DayYearMonthRewrite(text: string)
    requires IsDayYearMonth(text)
    ensures Rewritten(text) == text[|text| - 7..|text| - 3] + "-" + text[|text| - 2..] + "-"
                               + (if |text| == 9 then text[..2] else "0" + text[..1])
  {
  }
}
