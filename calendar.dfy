/** The proleptic Gregorian calendar of Python's `datetime`, at minute
    resolution: valid dates, the successor of a day and of an hour, a day
    number that makes "one day later" arithmetic, and the `strftime` texts
    the scripts build file names from (`%Y%m%d`, `%Y-%m-%d`, `%Y%m%d%H%M`)
    together with the fixed-width 12-digit parse. */
module Calendar {
  import opened Options
  import opened Text

  datatype Date = Date(year: int, month: int, day: int)

  /** A `datetime` whose seconds are zero. */
  datatype Stamp = Stamp(date: Date, hour: int, minute: int)

  predicate IsLeapYear(y: int)
  {
    y % 4 == 0 && (y % 100 != 0 || y % 400 == 0)
  }

  function DaysInMonth(y: int, m: int): (n: int)
    requires 1 <= m <= 12
    ensures 28 <= n <= 31
    ensures m == 2 ==> (n == 29 <==> IsLeapYear(y))
  {
    if m == 2 then (if IsLeapYear(y) then 29 else 28)
    else if m == 4 || m == 6 || m == 9 || m == 11 then 30
    else 31
  }

  function YearLength(y: int): int
  {
    if IsLeapYear(y) then 366 else 365
  }

  predicate ValidDate(d: Date)
  {
    1 <= d.year && 1 <= d.month <= 12 && 1 <= d.day <= DaysInMonth(d.year, d.month)
  }

  predicate ValidStamp(t: Stamp)
  {
    ValidDate(t.date) && 0 <= t.hour < 24 && 0 <= t.minute < 60
  }

  /** Midnight of a day (`datetime(y, m, d)`). */
  function Midnight(d: Date): Stamp
  {
    Stamp(d, 0, 0)
  }

  /** Days from 0001-01-01 to January 1st of year `y`. */
  function DaysBeforeYear(y: int): nat
    decreases y
  {
    if y <= 1 then 0 else DaysBeforeYear(y - 1) + YearLength(y - 1)
  }

  /** Days from January 1st to the first of month `m` in year `y`. */
  function DaysBeforeMonth(y: int, m: int): (n: int)
    requires 1 <= m <= 12
    ensures 0 <= n && n + DaysInMonth(y, m) <= YearLength(y)
    ensures m == 12 ==> n + DaysInMonth(y, m) == YearLength(y)
  {
    var leap := if m > 2 && IsLeapYear(y) then 1 else 0;
    leap + (
      if m == 1 then 0 else if m == 2 then 31 else if m == 3 then 59
      else if m == 4 then 90 else if m == 5 then 120 else if m == 6 then 151
      else if m == 7 then 181 else if m == 8 then 212 else if m == 9 then 243
      else if m == 10 then 273 else if m == 11 then 304 else 334)
  }

  lemma DaysBeforeNextMonth(y: int, m: int)
    requires 1 <= m < 12
    ensures DaysBeforeMonth(y, m + 1) == DaysBeforeMonth(y, m) + DaysInMonth(y, m)
  {
  }

  /** `date.toordinal() - 1`: the number of days since 0001-01-01. */
  function DayNumber(d: Date): int
    requires ValidDate(d)
  {
    DaysBeforeYear(d.year) + DaysBeforeMonth(d.year, d.month) + d.day - 1
  }

  /** Minutes since 0001-01-01 00:00: the order in which `datetime`s compare. */
  function Instant(t: Stamp): int
    requires ValidStamp(t)
  {
    DayNumber(t.date) * 1440 + t.hour * 60 + t.minute
  }

  /** `d + timedelta(days=1)`. */
  function NextDay(d: Date): (r: Date)
    requires ValidDate(d)
    ensures ValidDate(r) && DayNumber(r) == DayNumber(d) + 1
  {
    if d.day < DaysInMonth(d.year, d.month) then d.(day := d.day + 1)
    else if d.month < 12 then
      DaysBeforeNextMonth(d.year, d.month);
      Date(d.year, d.month + 1, 1)
    else Date(d.year + 1, 1, 1)
  }

  /** `t + timedelta(hours=1)`. */
  function AddHour(t: Stamp): (r: Stamp)
    requires ValidStamp(t)
    ensures ValidStamp(r) && Instant(r) == Instant(t) + 60 && r.minute == t.minute
  {
    if t.hour < 23 then t.(hour := t.hour + 1) else Stamp(NextDay(t.date), 0, t.minute)
  }

  /** `t + timedelta(days=1)`. */
  function AddDay(t: Stamp): (r: Stamp)
    requires ValidStamp(t)
    ensures ValidStamp(r) && Instant(r) == Instant(t) + 1440
    ensures r.hour == t.hour && r.minute == t.minute
  {
    Stamp(NextDay(t.date), t.hour, t.minute)
  }

  lemma {:induction false} DaysBeforeYearMonotone(y1: int, y2: int)
    requires 1 <= y1 < y2
    ensures DaysBeforeYear(y1) + YearLength(y1) <= DaysBeforeYear(y2)
    decreases y2 - y1
  {
    if y1 + 1 < y2 {
      DaysBeforeYearMonotone(y1 + 1, y2);
    }
  }

  lemma {:induction false} DaysBeforeMonthMonotone(y: int, m1: int, m2: int)
    requires 1 <= m1 < m2 <= 12
    ensures DaysBeforeMonth(y, m1) + DaysInMonth(y, m1) <= DaysBeforeMonth(y, m2)
    decreases m2 - m1
  {
    DaysBeforeNextMonth(y, m1);
    if m1 + 1 < m2 {
      DaysBeforeMonthMonotone(y, m1 + 1, m2);
    }
  }

  /** Calendar order of valid dates (year, then month, then day). */
  predicate DateBefore(a: Date, b: Date)
  {
    a.year < b.year || (a.year == b.year && (a.month < b.month || (a.month == b.month && a.day < b.day)))
  }

  /** Later calendar dates have larger day numbers. */
  lemma DayNumberMonotone(a: Date, b: Date)
    requires ValidDate(a) && ValidDate(b) && DateBefore(a, b)
    ensures DayNumber(a) < DayNumber(b)
  {
    if a.year < b.year {
      DaysBeforeYearMonotone(a.year, b.year);
    } else if a.month < b.month {
      DaysBeforeMonthMonotone(a.year, a.month, b.month);
    }
  }

  /** Field-by-field order of stamps, the order of their `%Y%m%d%H%M` fields. */
  predicate StampBefore(a: Stamp, b: Stamp)
  {
    DateBefore(a.date, b.date)
    || (a.date == b.date && (a.hour < b.hour || (a.hour == b.hour && a.minute < b.minute)))
  }

  /** Comparing stamps field by field is comparing them in time. */
  lemma InstantMonotone(a: Stamp, b: Stamp)
    requires ValidStamp(a) && ValidStamp(b) && StampBefore(a, b)
    ensures Instant(a) < Instant(b)
  {
    if DateBefore(a.date, b.date) {
      DayNumberMonotone(a.date, b.date);
    }
  }

  /** Two valid stamps at the same instant are the same stamp. */
  lemma InstantInjective(a: Stamp, b: Stamp)
    requires ValidStamp(a) && ValidStamp(b) && Instant(a) == Instant(b)
    ensures a == b
  {
    if StampBefore(a, b) {
      InstantMonotone(a, b);
    } else if StampBefore(b, a) {
      InstantMonotone(b, a);
    }
  }

  // ---- strftime texts ----

  /** `%Y`: the year in decimal (glibc does not pad years below 1000). */
  function YearText(y: nat): string
  {
    Decimal(y)
  }

  /** `d.strftime("%Y%m%d")`. */
  function YmdText(d: Date): string
    requires ValidDate(d)
  {
    YearText(d.year) + Pad2(d.month) + Pad2(d.day)
  }

  /** `d.strftime("%Y-%m-%d")`. */
  function DashedText(d: Date): string
    requires ValidDate(d)
  {
    YearText(d.year) + "-" + Pad2(d.month) + "-" + Pad2(d.day)
  }

  /** Different days have different `%Y-%m-%d` texts. */
  lemma DashedTextInjective(a: Date, b: Date)
    requires ValidDate(a) && ValidDate(b) && DashedText(a) == DashedText(b)
    ensures a == b
  {
    var ra := "-" + Pad2(a.month) + "-" + Pad2(a.day);
    var rb := "-" + Pad2(b.month) + "-" + Pad2(b.day);
    assert DashedText(a) == YearText(a.year) + ra && DashedText(b) == YearText(b.year) + rb;
    DigitsPrefixSplit(YearText(a.year), ra, YearText(b.year), rb);
    assert Pad2(a.month) == ra[1..3] && Pad2(b.month) == rb[1..3];
    assert Pad2(a.day) == ra[4..] && Pad2(b.day) == rb[4..];
  }

  /** `t.strftime("%Y%m%d%H%M")`, the 12-digit file-name timestamp. */
  function StampText(t: Stamp): string
    requires ValidStamp(t)
  {
    YmdText(t.date) + Pad2(t.hour) + Pad2(t.minute)
  }

  /** `datetime.strptime(s, "%Y%m%d%H%M")` on a fixed-width 12-character text:
      `None` where Python raises `ValueError`. */
  function ParseStampText(s: string): (r: Option<Stamp>)
    ensures r.Some? ==> |s| == 12 && AllDigits(s) && ValidStamp(r.value)
  {
    if |s| != 12 || !AllDigits(s) then None
    else
      var t := Stamp(Date(NatValue(s[..4]), NatValue(s[4..6]), NatValue(s[6..8])),
                     NatValue(s[8..10]), NatValue(s[10..]));
      if ValidStamp(t) then Some(t) else None
  }

  /** Parsing the text of a stamp with a four-digit year gives the stamp back. */
  lemma ParseStampTextRoundTrip(t: Stamp)
    requires ValidStamp(t) && 1000 <= t.date.year < 10000
    ensures |StampText(t)| == 12
    ensures ParseStampText(StampText(t)) == Some(t)
  {
    DecimalLength4(t.date.year);
    var s := StampText(t);
    var y, mo, d, h, mi := YearText(t.date.year), Pad2(t.date.month), Pad2(t.date.day), Pad2(t.hour), Pad2(t.minute);
    assert s == y + mo + d + h + mi;
    assert s[..4] == y && s[4..6] == mo && s[6..8] == d && s[8..10] == h && s[10..] == mi;
  }

  /** Formatting a parsed 12-digit text gives it back when its year has no leading zero. */
  lemma StampTextOfParse(s: string)
    requires ParseStampText(s).Some? && s[0] != '0'
    ensures StampText(ParseStampText(s).value) == s
  {
    var t := ParseStampText(s).value;
    DecimalOfNatValue(s[..4]);
    Pad2OfNatValue(s[4..6]);
    Pad2OfNatValue(s[6..8]);
    Pad2OfNatValue(s[8..10]);
    Pad2OfNatValue(s[10..]);
    assert s == s[..4] + s[4..6] + s[6..8] + s[8..10] + s[10..];
  }
}
