/**
 * The weekly report script: it turns date arguments given as text into
 * dates with `strptime('%Y-%m-%d')`, leaves date objects as they are, picks
 * the satisfaction sub-query by whether an `order_reviews` table exists,
 * and runs the same report query as the report page, then writes the
 * figures to a markdown file. Any exception on the way, including the one
 * raised by formatting a NULL figure, makes the function return None
 * instead of the one-row table.
 */
module WeeklyReport {
  import opened Facts
  import opened Report

  // ---------------------------------------------------------------------
  // Digits
  // ---------------------------------------------------------------------

  predicate IsDigit(c: char)
  {
    '0' <= c <= '9'
  }

  function DigitValue(c: char): int
  {
    c as int - '0' as int
  }

  function DigitChar(n: int): (c: char)
    requires 0 <= n <= 9
    ensures IsDigit(c) && DigitValue(c) == n
  {
    (n + '0' as int) as char
  }

  // ---------------------------------------------------------------------
  // strptime(text, '%Y-%m-%d')
  // ---------------------------------------------------------------------

  /** A numeric field matched by a directive: its value and how many
      characters it took. */
  datatype Field = Field(value: int, width: nat)

  /** `%Y` takes exactly four digits. */
  function YearOf(t: string): int
    requires |t| >= 4
  {
    1000 * DigitValue(t[0]) + 100 * DigitValue(t[1]) + 10 * DigitValue(t[2]) + DigitValue(t[3])
  }

  /** `%m` is `1[0-2]|0[1-9]|[1-9]`, and the format then needs a '-': the
      two-character forms when a '-' follows them, else a single non-zero
      digit followed by '-'. */
  function MonthField(t: string): (f: Option<Field>)
    ensures f.Some? ==> 1 <= f.value.value <= 12 && 1 <= f.value.width <= 2
    ensures f.Some? ==> f.value.width < |t| && t[f.value.width] == '-'
  {
    if |t| >= 3 && ((t[0] == '1' && '0' <= t[1] <= '2') || (t[0] == '0' && '1' <= t[1] <= '9')) && t[2] == '-' then
      Some(Field(10 * DigitValue(t[0]) + DigitValue(t[1]), 2))
    else if |t| >= 2 && '1' <= t[0] <= '9' && t[1] == '-' then
      Some(Field(DigitValue(t[0]), 1))
    else None
  }

  /** `%d` is `3[01]|[12]\d|0[1-9]|[1-9]| [1-9]`; it ends the format, so the
      first alternative that matches is the one taken. */
  function DayField(t: string): (f: Option<Field>)
    ensures f.Some? ==> 1 <= f.value.value <= 31 && 1 <= f.value.width <= 2 && f.value.width <= |t|
  {
    if |t| >= 2 && t[0] == '3' && (t[1] == '0' || t[1] == '1') then
      Some(Field(30 + DigitValue(t[1]), 2))
    else if |t| >= 2 && (t[0] == '1' || t[0] == '2') && IsDigit(t[1]) then
      Some(Field(10 * DigitValue(t[0]) + DigitValue(t[1]), 2))
    else if |t| >= 2 && t[0] == '0' && '1' <= t[1] <= '9' then
      Some(Field(DigitValue(t[1]), 2))
    else if |t| >= 1 && '1' <= t[0] <= '9' then
      Some(Field(DigitValue(t[0]), 1))
    else if |t| >= 2 && t[0] == ' ' && '1' <= t[1] <= '9' then
      Some(Field(DigitValue(t[1]), 2))
    else None
  }

  /** The date `datetime.strptime(s, '%Y-%m-%d').date()` gives, or None
      where it raises: no match, characters left over after the day, or a
      year, month and day that do not make a date. */
  function ParseDate(s: string): (d: Option<Date>)
    ensures d.Some? ==> ValidDate(d.value)
  {
    if |s| < 5 || !(IsDigit(s[0]) && IsDigit(s[1]) && IsDigit(s[2]) && IsDigit(s[3])) || s[4] != '-' then None
    else
      match MonthField(s[5..])
      case None => None
      case Some(m) =>
        var rest := s[5 + m.width + 1..];
        match DayField(rest)
        case None => None
        case Some(day) =>
          var date := Date(YearOf(s), m.value, day.value);
          if day.width == |rest| && ValidDate(date) then Some(date) else None
  }

  // ---------------------------------------------------------------------
  // The ISO text of a date
  // ---------------------------------------------------------------------

  function Pad2(n: int): (t: string)
    requires 0 <= n <= 99
    ensures |t| == 2
  {
    [DigitChar(n / 10), DigitChar(n % 10)]
  }

  function Pad4(n: int): (t: string)
    requires 0 <= n <= 9999
    ensures |t| == 4
  {
    Pad2(n / 100) + Pad2(n % 100)
  }

  /** 'YYYY-MM-DD', as `str` of a date writes it. */
  function IsoFormat(d: Date): (s: string)
    requires ValidDate(d)
    ensures |s| == 10
  {
    Pad4(d.year) + "-" + Pad2(d.month) + "-" + Pad2(d.day)
  }

  /** Text in exactly the 'YYYY-MM-DD' shape: ten characters, digits
      around two dashes. */
  predicate Canonical(s: string)
  {
    |s| == 10 && s[4] == '-' && s[7] == '-'
    && IsDigit(s[0]) && IsDigit(s[1]) && IsDigit(s[2]) && IsDigit(s[3])
    && IsDigit(s[5]) && IsDigit(s[6]) && IsDigit(s[8]) && IsDigit(s[9])
  }

  lemma {:induction false} Pad2Digits(n: int)
    requires 0 <= n <= 99
    ensures IsDigit(Pad2(n)[0]) && IsDigit(Pad2(n)[1])
    ensures 10 * DigitValue(Pad2(n)[0]) + DigitValue(Pad2(n)[1]) == n
  {
  }

  lemma {:induction false} Pad4Digits(n: int)
    requires 0 <= n <= 9999
    ensures forall k :: 0 <= k < 4 ==> IsDigit(Pad4(n)[k])
    ensures YearOf(Pad4(n)) == n
  {
    Pad2Digits(n / 100);
    Pad2Digits(n % 100);
    var t := Pad4(n);
    assert t[0] == Pad2(n / 100)[0] && t[1] == Pad2(n / 100)[1];
    assert t[2] == Pad2(n % 100)[0] && t[3] == Pad2(n % 100)[1];
  }

  /** A two-digit month followed by '-' is read as that month. */
  lemma MonthOfPad(m: int, tail: string)
    requires 1 <= m <= 12
    ensures MonthField(Pad2(m) + "-" + tail) == Some(Field(m, 2))
  {
    var t := Pad2(m) + "-" + tail;
    Pad2Digits(m);
    assert t[0] == Pad2(m)[0] && t[1] == Pad2(m)[1] && t[2] == '-';
  }

  /** A two-digit day is read as that day, in full. */
  lemma DayOfPad(d: int)
    requires 1 <= d <= 31
    ensures DayField(Pad2(d)) == Some(Field(d, 2))
  {
    Pad2Digits(d);
  }

  /** Writing a date and parsing it back gives the same date. */
  lemma ParseFormat(d: Date)
    requires ValidDate(d)
    ensures Canonical(IsoFormat(d))
    ensures ParseDate(IsoFormat(d)) == Some(d)
  {
    var s := IsoFormat(d);
    var y, mm, dd := Pad4(d.year), Pad2(d.month), Pad2(d.day);
    assert s == y + "-" + mm + "-" + dd;
    Pad4Digits(d.year);
    Pad2Digits(d.month);
    Pad2Digits(d.day);
    assert s[..4] == y && s[5..7] == mm && s[8..] == dd;
    assert YearOf(s) == YearOf(y) by {
      assert s[0] == y[0] && s[1] == y[1] && s[2] == y[2] && s[3] == y[3];
    }
    assert s[5..] == mm + "-" + dd;
    MonthOfPad(d.month, dd);
    DayOfPad(d.day);
  }

  /** Two digits read as a number and written back give the same text. */
  lemma {:induction false} PadOfDigits(a: char, b: char)
    requires IsDigit(a) && IsDigit(b)
    ensures Pad2(10 * DigitValue(a) + DigitValue(b)) == [a, b]
  {
  }

  lemma {:induction false} PadOfYear(t: string)
    requires |t| == 4 && IsDigit(t[0]) && IsDigit(t[1]) && IsDigit(t[2]) && IsDigit(t[3])
    ensures Pad4(YearOf(t)) == t
  {
    var n := YearOf(t);
    var hi, lo := 10 * DigitValue(t[0]) + DigitValue(t[1]), 10 * DigitValue(t[2]) + DigitValue(t[3]);
    assert n == 100 * hi + lo && 0 <= lo < 100;
    assert n / 100 == hi && n % 100 == lo;
    PadOfDigits(t[0], t[1]);
    PadOfDigits(t[2], t[3]);
    assert t == [t[0], t[1]] + [t[2], t[3]];
  }

  /** Text in the canonical shape that parses is the text of its date. */
  lemma FormatParse(s: string, d: Date)
    requires Canonical(s) && ParseDate(s) == Some(d)
    ensures IsoFormat(d) == s
  {
    assert s[5..][2] == '-';
    var m := MonthField(s[5..]).value;
    assert m.width == 2;
    var rest := s[8..];
    assert rest[0] == s[8] && rest[1] == s[9];
    var day := DayField(rest).value;
    assert d.day == day.value && d.month == m.value && d.year == YearOf(s);
    assert d.month == 10 * DigitValue(s[5]) + DigitValue(s[6]);
    assert d.day == 10 * DigitValue(s[8]) + DigitValue(s[9]) by {
      assert IsDigit(s[8]);
    }
    PadOfDigits(s[5], s[6]);
    PadOfDigits(s[8], s[9]);
    PadOfYear(s[..4]);
    assert YearOf(s[..4]) == YearOf(s);
    assert s == s[..4] + "-" + [s[5], s[6]] + "-" + [s[8], s[9]];
  }

  /** The looser forms `%m` and `%d` accept, and a day the month does not
      have. */
  lemma ParseExamples()
    ensures ParseDate("2018-9-3") == Some(Date(2018, 9, 3))
    ensures ParseDate("2018-09- 3") == Some(Date(2018, 9, 3))
    ensures ParseDate("2017-02-29") == None
    ensures ParseDate("2016-02-29") == Some(Date(2016, 2, 29))
    ensures ParseDate("2018-09-031") == None
  {
    assert "2018-9-3"[5..] == "9-3";
    assert "2018-9-3"[7..] == "3";
    assert "2018-09- 3"[5..] == "09- 3";
    assert "2018-09- 3"[8..] == " 3";
    assert "2017-02-29"[5..] == "02-29";
    assert "2017-02-29"[8..] == "29";
    assert "2016-02-29"[5..] == "02-29";
    assert "2016-02-29"[8..] == "29";
    assert "2018-09-031"[5..] == "09-031";
    assert "2018-09-031"[8..] == "031";
  }

  // ---------------------------------------------------------------------
  // The report function
  // ---------------------------------------------------------------------

  /** A date argument: text, a date object, or the default None. */
  datatype DateArg = Text(text: string) | Value(date: Date) | Absent

  /** The date the argument stands for; the outer None is the exception
      `strptime` raises on text it cannot parse. */
  function Resolve(a: DateArg): (r: Option<Option<Date>>)
    ensures a.Text? ==> (r.Some? <==> ParseDate(a.text).Some?)
    ensures a.Text? && r.Some? ==> r.value.Some? && r.value == ParseDate(a.text) && ValidDate(r.value.value)
    ensures a.Value? ==> r == Some(Some(a.date))
    ensures a.Absent? ==> r == Some(None)
  {
    match a
    case Text(t) => (match ParseDate(t) case None => None case Some(d) => Some(Some(d)))
    case Value(d) => Some(Some(d))
    case Absent => Some(None)
  }

  /** The markdown file formats the total revenue, the average order value
      and the average delivery days with two decimals; formatting a NULL
      among them raises, and the exception handler returns None. */
  predicate Writable(rep: Report)
  {
    rep.sales.totalRevenue.Some? && rep.sales.avgOrderValue.Some? && rep.delivery.avgDeliveryDays.Some?
  }

  /** `generate_weekly_business_report`: the one-row report over the two
      dates, or None when turning the arguments into dates raised or when
      writing the markdown file met a NULL figure. */
  function WeeklyBusinessReport(orders: seq<Order>, items: seq<Item>, reviews: seq<Review>, hasReviewsTable: bool,
                                start: DateArg, end: DateArg): (r: Option<Report>)
    ensures r.Some? <==>
      Resolve(start).Some? && Resolve(end).Some? && HasActivity(orders, items, BoundsOf(Resolve(start).value, Resolve(end).value))
    ensures r.Some? ==> r.value == ReportOf(orders, items, reviews, hasReviewsTable, Resolve(start).value, Resolve(end).value)
    ensures r.Some? && !hasReviewsTable ==> r.value.satisfaction == Satisfaction(None, 0, Some(0), Some(0))
    ensures r.Some? && r.value.satisfaction.positiveReviews.Some? && r.value.satisfaction.negativeReviews.Some? ==>
      r.value.satisfaction.positiveReviews.value + r.value.satisfaction.negativeReviews.value <= r.value.satisfaction.totalReviews
  {
    match (Resolve(start), Resolve(end))
    case (Some(s), Some(e)) =>
      var rep := ReportOf(orders, items, reviews, hasReviewsTable, s, e);
      if Writable(rep) then Some(rep) else None
    case _ => None
  }

  /** From the command line both dates arrive as text: the report is
      produced exactly when both parse and the window between them has
      item lines and deliveries. */
  lemma CommandLineReport(orders: seq<Order>, items: seq<Item>, reviews: seq<Review>, hasReviewsTable: bool,
                          start: string, end: string)
    ensures WeeklyBusinessReport(orders, items, reviews, hasReviewsTable, Text(start), Text(end)).Some?
      <==> ParseDate(start).Some? && ParseDate(end).Some? && HasActivity(orders, items, BoundsOf(ParseDate(start), ParseDate(end)))
  {
  }

  /** Without a date the query selects nothing, so the markdown file meets
      a NULL revenue and no report comes back. */
  lemma MissingDateNoReport(orders: seq<Order>, items: seq<Item>, reviews: seq<Review>, hasReviewsTable: bool,
                            start: DateArg, end: DateArg)
    requires start.Absent? || end.Absent?
    ensures WeeklyBusinessReport(orders, items, reviews, hasReviewsTable, start, end).None?
  {
    if Resolve(start).Some? && Resolve(end).Some? {
      MissingDateSelectsNothing(orders, items, reviews, hasReviewsTable, Resolve(start).value, Resolve(end).value);
    }
  }

  /** Given the page's dates as text, and the reviews table present, the
      script computes the very report the page shows; when the window has
      no item line or no delivery, neither produces one. */
  lemma SameReportAsPage(orders: seq<Order>, items: seq<Item>, reviews: seq<Review>, start: Date, end: Date)
    requires ValidDate(start) && ValidDate(end)
    ensures var page := GenerateReport(orders, items, reviews, Some(start), Some(end));
      var script := WeeklyBusinessReport(orders, items, reviews, true, Text(IsoFormat(start)), Text(IsoFormat(end)));
      && (page.Shown? ==> script == Some(page.report))
      && (HasActivity(orders, items, BoundsOf(Some(start), Some(end))) <==> script.Some?)
      && (!HasActivity(orders, items, BoundsOf(Some(start), Some(end))) ==> page.FormatError?)
  {
    ParseFormat(start);
    ParseFormat(end);
  }

  /** A date object and its text give the same report. */
  lemma TextOrDate(orders: seq<Order>, items: seq<Item>, reviews: seq<Review>, hasReviewsTable: bool, start: Date, end: Date)
    requires ValidDate(start) && ValidDate(end)
    ensures WeeklyBusinessReport(orders, items, reviews, hasReviewsTable, Text(IsoFormat(start)), Text(IsoFormat(end)))
      == WeeklyBusinessReport(orders, items, reviews, hasReviewsTable, Value(start), Value(end))
  {
    ParseFormat(start);
    ParseFormat(end);
  }
}
