/** Calendar enumeration: `get_time_range` of the download scripts (the same
    code in RMSE_TEST_2/PROG/create_data/create_data.py and
    RMSE_TEST/create_data/create_data_0.py) and the daily date lists of the
    conversion scripts. Every enumeration is the `while current <= last:
    append; current += step` loop; `Steps` is its specification. */
module TimeRange {
  import opened Calendar

  datatype Freq = Hourly | Daily

  /** The `freq` argument: `'hour'` selects hourly steps, any other text daily ones. */
  function FreqOf(text: string): (f: Freq)
    ensures f == Hourly <==> text == "hour"
  {
    if text == "hour" then Hourly else Daily
  }

  function StepMinutes(f: Freq): nat
  {
    if f == Hourly then 60 else 1440
  }

  function Step(t: Stamp, f: Freq): (r: Stamp)
    requires ValidStamp(t)
    ensures ValidStamp(r) && Instant(r) == Instant(t) + StepMinutes(f)
  {
    if f == Hourly then AddHour(t) else AddDay(t)
  }

  /** The stamps `t`, `t + step`, ... that are not later than `last`. */
  function Steps(t: Stamp, last: Stamp, f: Freq): seq<Stamp>
    requires ValidStamp(t) && ValidStamp(last)
    decreases Instant(last) - Instant(t)
  {
    if Instant(t) > Instant(last) then [] else [t] + Steps(Step(t, f), last, f)
  }

  /** Counting whole steps of `m` in `d`: none if `d` is shorter than a step, else one
      more than in `d - m`. */
  lemma StepCount(d: int, m: nat)
    requires m == 60 || m == 1440
    requires 0 <= d
    ensures d / m == if d < m then 0 else (d - m) / m + 1
  {
  }

  /** An enumeration holds one stamp per whole step from its first stamp to `last`. */
  lemma {:induction false} StepsLength(t: Stamp, last: Stamp, f: Freq)
    requires ValidStamp(t) && ValidStamp(last)
    ensures |Steps(t, last, f)| == if Instant(t) > Instant(last) then 0
                                   else (Instant(last) - Instant(t)) / StepMinutes(f) + 1
    decreases Instant(last) - Instant(t)
  {
    var a, b, m := Instant(t), Instant(last), StepMinutes(f);
    if a <= b {
      var n := Step(t, f);
      assert Instant(n) == a + m;
      assert Steps(t, last, f) == [t] + Steps(n, last, f);
      StepsLength(n, last, f);
      StepCount(b - a, m);
    }
  }

  /** Element `i` of an enumeration lies `i` steps after its first stamp. */
  lemma {:induction false} StepsAt(t: Stamp, last: Stamp, f: Freq, i: nat)
    requires ValidStamp(t) && ValidStamp(last) && i < |Steps(t, last, f)|
    ensures ValidStamp(Steps(t, last, f)[i])
    ensures Instant(Steps(t, last, f)[i]) == Instant(t) + i * StepMinutes(f)
    decreases Instant(last) - Instant(t)
  {
    if i > 0 {
      StepsAt(Step(t, f), last, f, i - 1);
      assert Instant(t) + i * StepMinutes(f) == Instant(Step(t, f)) + (i - 1) * StepMinutes(f);
    }
  }

  /** Consecutive elements are exactly one step apart. */
  lemma {:induction false} StepsConsecutive(t: Stamp, last: Stamp, f: Freq, i: nat)
    requires ValidStamp(t) && ValidStamp(last)
    requires i + 1 < |Steps(t, last, f)|
    ensures ValidStamp(Steps(t, last, f)[i])
    ensures Steps(t, last, f)[i + 1] == Step(Steps(t, last, f)[i], f)
    decreases Instant(last) - Instant(t)
  {
    var n := Step(t, f);
    if i > 0 {
      StepsConsecutive(n, last, f, i - 1);
    }
  }

  /** `i` whole steps of `m` minutes, at most as many as fit in `span`, stay within `span`. */
  lemma WholeSteps(d: int, m: nat, i: nat, span: int)
    requires m == 60 || m == 1440
    requires d == i * m && 0 <= span && i <= span / m
    ensures 0 <= d <= span && d % m == 0
  {
  }

  /** A multiple of `m` minutes is that many steps. */
  lemma StepsOfMultiple(d: int, m: nat)
    requires m == 60 || m == 1440
    requires 0 <= d && d % m == 0
    ensures (d / m) * m == d
  {
  }

  /** Element `i` is valid, lies between the first stamp and `last`, and a whole
      number of steps after the first. */
  lemma StepsAtBounds(t: Stamp, last: Stamp, f: Freq, i: nat)
    requires ValidStamp(t) && ValidStamp(last) && i < |Steps(t, last, f)|
    ensures ValidStamp(Steps(t, last, f)[i])
    ensures Instant(t) <= Instant(Steps(t, last, f)[i]) <= Instant(last)
    ensures (Instant(Steps(t, last, f)[i]) - Instant(t)) % StepMinutes(f) == 0
  {
    var a, b, m := Instant(t), Instant(last), StepMinutes(f);
    StepsLength(t, last, f);
    assert a <= b && i <= (b - a) / m;
    StepsAt(t, last, f, i);
    WholeSteps(Instant(Steps(t, last, f)[i]) - a, m, i, b - a);
  }

  /** An enumerated stamp is valid, lies between the first stamp and `last`, and a
      whole number of steps after the first. */
  lemma StepsMemberBounds(t: Stamp, last: Stamp, f: Freq, x: Stamp)
    requires ValidStamp(t) && ValidStamp(last) && x in Steps(t, last, f)
    ensures ValidStamp(x) && Instant(t) <= Instant(x) <= Instant(last)
    ensures (Instant(x) - Instant(t)) % StepMinutes(f) == 0
  {
    var r := Steps(t, last, f);
    var i :| 0 <= i < |r| && r[i] == x;
    StepsAtBounds(t, last, f, i);
  }

  /** Every stamp that meets those conditions is enumerated, at its number of steps. */
  lemma StepsMemberFound(t: Stamp, last: Stamp, f: Freq, x: Stamp)
    requires ValidStamp(t) && ValidStamp(last) && ValidStamp(x)
    requires Instant(t) <= Instant(x) <= Instant(last) && (Instant(x) - Instant(t)) % StepMinutes(f) == 0
    ensures x in Steps(t, last, f)
  {
    var m := StepMinutes(f);
    var d := Instant(x) - Instant(t);
    StepsOfMultiple(d, m);
    var i := d / m;
    StepsLength(t, last, f);
    assert i <= (Instant(last) - Instant(t)) / m;
    StepsAt(t, last, f, i);
    InstantInjective(Steps(t, last, f)[i], x);
  }

  /** A stamp is enumerated exactly when it is valid, lies between the first
      stamp and `last`, and a whole number of steps after the first. */
  lemma StepsMembership(t: Stamp, last: Stamp, f: Freq, x: Stamp)
    requires ValidStamp(t) && ValidStamp(last)
    ensures x in Steps(t, last, f) <==>
              ValidStamp(x) && Instant(t) <= Instant(x) <= Instant(last)
              && (Instant(x) - Instant(t)) % StepMinutes(f) == 0
  {
    if x in Steps(t, last, f) {
      StepsMemberBounds(t, last, f, x);
    } else if ValidStamp(x) && Instant(t) <= Instant(x) <= Instant(last)
              && (Instant(x) - Instant(t)) % StepMinutes(f) == 0 {
      StepsMemberFound(t, last, f, x);
    }
  }

  /** Enumerations are strictly increasing in time, hence free of duplicates. */
  lemma StepsIncreasing(t: Stamp, last: Stamp, f: Freq, i: nat, j: nat)
    requires ValidStamp(t) && ValidStamp(last)
    requires i < j < |Steps(t, last, f)|
    ensures ValidStamp(Steps(t, last, f)[i]) && ValidStamp(Steps(t, last, f)[j])
    ensures Instant(Steps(t, last, f)[i]) < Instant(Steps(t, last, f)[j])
  {
    StepsAt(t, last, f, i);
    StepsAt(t, last, f, j);
  }

  /** Hourly mode: from the start day's 01:00 to the day after the end day at 00:00. */
  function HourlyRange(start: Date, end: Date): seq<Stamp>
    requires ValidDate(start) && ValidDate(end)
  {
    Steps(Stamp(start, 1, 0), Midnight(NextDay(end)), Hourly)
  }

  /** Daily mode: every day from start to end inclusive, at 00:00. */
  function DailyRange(start: Date, end: Date): seq<Stamp>
    requires ValidDate(start) && ValidDate(end)
  {
    Steps(Midnight(start), Midnight(end), Daily)
  }

  /** The enumeration selected by `freq`. */
  function Enumeration(start: Date, end: Date, freq: Freq): seq<Stamp>
    requires ValidDate(start) && ValidDate(end)
  {
    if freq == Hourly then HourlyRange(start, end) else DailyRange(start, end)
  }

  /** Valid stamps in strictly increasing time order. */
  predicate Increasing(ts: seq<Stamp>)
  {
    (forall i :: 0 <= i < |ts| ==> ValidStamp(ts[i]))
    && forall i, j :: 0 <= i < j < |ts| ==> ValidStamp(ts[i]) && ValidStamp(ts[j]) && Instant(ts[i]) < Instant(ts[j])
  }

  /** A whole enumeration is strictly increasing. */
  lemma StepsIncreasingAll(t: Stamp, last: Stamp, f: Freq)
    requires ValidStamp(t) && ValidStamp(last)
    ensures Increasing(Steps(t, last, f))
  {
    var r := Steps(t, last, f);
    forall i | 0 <= i < |r|
      ensures ValidStamp(r[i])
    {
      StepsAt(t, last, f, i);
    }
    forall i, j | 0 <= i < j < |r|
      ensures ValidStamp(r[i]) && ValidStamp(r[j]) && Instant(r[i]) < Instant(r[j])
    {
      StepsIncreasing(t, last, f, i, j);
    }
  }

  /** Every enumeration is strictly increasing, hence free of duplicates. */
  lemma EnumerationIncreasing(start: Date, end: Date, freq: Freq)
    requires ValidDate(start) && ValidDate(end)
    ensures Increasing(Enumeration(start, end, freq))
  {
    if freq == Hourly {
      StepsIncreasingAll(Stamp(start, 1, 0), Midnight(NextDay(end)), Hourly);
    } else {
      StepsIncreasingAll(Midnight(start), Midnight(end), Daily);
    }
  }

  /** `get_time_range(start_date, end_date, freq)` for midnight arguments. */
  method GetTimeRange(start: Date, end: Date, freq: Freq) returns (dates: seq<Stamp>)
    requires ValidDate(start) && ValidDate(end)
    ensures dates == Enumeration(start, end, freq)
  {
    dates := [];
    if freq == Hourly {
      var current := Stamp(start, 1, 0);
      var endNextDay := Midnight(NextDay(end));
      while Instant(current) <= Instant(endNextDay)
        invariant ValidStamp(current)
        invariant dates + Steps(current, endNextDay, Hourly) == HourlyRange(start, end)
        decreases Instant(endNextDay) - Instant(current)
      {
        dates := dates + [current];
        current := AddHour(current);
      }
    } else {
      var current := Midnight(start);
      var last := Midnight(end);
      while Instant(current) <= Instant(last)
        invariant ValidStamp(current) && current.hour == 0
        invariant dates + Steps(current, last, Daily) == DailyRange(start, end)
        decreases Instant(last) - Instant(current)
      {
        dates := dates + [current.(hour := 0)];
        current := AddDay(current);
      }
    }
  }

  /** A minute count that is a whole number of days splits into that day at 00:00. */
  lemma MidnightSplit(dn: int, h: int, mi: int, k: int)
    requires 0 <= h < 24 && 0 <= mi < 60 && dn * 1440 + h * 60 + mi == k * 1440
    ensures dn == k && h == 0 && mi == 0
  {
    var diff := k - dn;
    assert h * 60 + mi == diff * 1440;
  }

  /** Daily mode yields one entry per calendar day from start to end, and nothing when
      start is after end. */
  lemma DailyRangeLength(start: Date, end: Date)
    requires ValidDate(start) && ValidDate(end)
    ensures |DailyRange(start, end)| == if DayNumber(start) > DayNumber(end) then 0
                                         else DayNumber(end) - DayNumber(start) + 1
  {
    StepsLength(Midnight(start), Midnight(end), Daily);
    var days := DayNumber(end) - DayNumber(start);
    assert Instant(Midnight(end)) - Instant(Midnight(start)) == days * 1440;
    assert (days * 1440) / 1440 == days;
  }

  /** Entry `i` of the daily mode is midnight of the `i`-th day after start. */
  lemma DailyRangeAt(start: Date, end: Date, i: nat)
    requires ValidDate(start) && ValidDate(end) && i < |DailyRange(start, end)|
    ensures var t := DailyRange(start, end)[i];
            ValidStamp(t) && t.hour == 0 && t.minute == 0 && DayNumber(t.date) == DayNumber(start) + i
  {
    StepsAt(Midnight(start), Midnight(end), Daily, i);
    var t := DailyRange(start, end)[i];
    MidnightSplit(DayNumber(t.date), t.hour, t.minute, DayNumber(start) + i);
  }

  /** Daily mode yields one midnight per calendar day, in order, and nothing when start is after end. */
  lemma DailyRangeShape(start: Date, end: Date)
    requires ValidDate(start) && ValidDate(end)
    ensures |DailyRange(start, end)| == if DayNumber(start) > DayNumber(end) then 0
                                         else DayNumber(end) - DayNumber(start) + 1
    ensures DailyRange(start, end) != [] ==>
              DailyRange(start, end)[0] == Midnight(start)
              && DailyRange(start, end)[|DailyRange(start, end)| - 1] == Midnight(end)
    ensures forall i :: 0 <= i < |DailyRange(start, end)| ==>
              ValidStamp(DailyRange(start, end)[i]) && DailyRange(start, end)[i].hour == 0
              && DailyRange(start, end)[i].minute == 0
              && DayNumber(DailyRange(start, end)[i].date) == DayNumber(start) + i
  {
    var r := DailyRange(start, end);
    DailyRangeLength(start, end);
    forall i | 0 <= i < |r|
      ensures ValidStamp(r[i]) && r[i].hour == 0 && r[i].minute == 0
      ensures DayNumber(r[i].date) == DayNumber(start) + i
    {
      DailyRangeAt(start, end, i);
    }
    if r != [] {
      var e := r[|r| - 1];
      InstantInjective(e, Midnight(end));
    }
  }

  /** Hourly mode: 24 entries per day of the range, from the start day's 01:00
      to the day after the end day at 00:00. */
  lemma HourlyRangeShape(start: Date, end: Date)
    requires ValidDate(start) && ValidDate(end)
    ensures |HourlyRange(start, end)| == 24 * |DailyRange(start, end)|
    ensures HourlyRange(start, end) != [] ==>
              HourlyRange(start, end)[0] == Stamp(start, 1, 0)
              && HourlyRange(start, end)[|HourlyRange(start, end)| - 1] == Midnight(NextDay(end))
  {
    var first, last := Stamp(start, 1, 0), Midnight(NextDay(end));
    var r := HourlyRange(start, end);
    DailyRangeLength(start, end);
    StepsLength(first, last, Hourly);
    if DayNumber(start) <= DayNumber(end) {
      var n := DayNumber(end) - DayNumber(start) + 1;
      assert Instant(last) - Instant(first) == n * 1440 - 60;
      assert (n * 1440 - 60) / 60 + 1 == 24 * n;
      StepsAt(first, last, Hourly, |r| - 1);
      assert Instant(r[|r| - 1]) == Instant(first) + (24 * n - 1) * 60;
      InstantInjective(r[|r| - 1], last);
    }
  }

  /** Hourly mode: each entry is one hour after the previous one. */
  lemma HourlyRangeSteps(start: Date, end: Date, i: nat)
    requires ValidDate(start) && ValidDate(end)
    requires i + 1 < |HourlyRange(start, end)|
    ensures ValidStamp(HourlyRange(start, end)[i])
    ensures HourlyRange(start, end)[i + 1] == AddHour(HourlyRange(start, end)[i])
  {
    StepsConsecutive(Stamp(start, 1, 0), Midnight(NextDay(end)), Hourly, i);
  }

  /** Daily mode: each entry is one day after the previous one. */
  lemma DailyRangeSteps(start: Date, end: Date, i: nat)
    requires ValidDate(start) && ValidDate(end)
    requires i + 1 < |DailyRange(start, end)|
    ensures ValidStamp(DailyRange(start, end)[i])
    ensures DailyRange(start, end)[i + 1] == AddDay(DailyRange(start, end)[i])
  {
    StepsConsecutive(Midnight(start), Midnight(end), Daily, i);
  }

  /** The daily `while current_date <= end_date` date list of the conversion scripts. */
  method DayList(start: Date, end: Date) returns (dates: seq<Stamp>)
    requires ValidDate(start) && ValidDate(end)
    ensures dates == DailyRange(start, end)
  {
    var current := Midnight(start);
    var last := Midnight(end);
    dates := [];
    while Instant(current) <= Instant(last)
      invariant ValidStamp(current)
      invariant dates + Steps(current, last, Daily) == DailyRange(start, end)
      decreases Instant(last) - Instant(current)
    {
      dates := dates + [current];
      current := AddDay(current);
    }
  }

  /** First and last day of the conversion scripts' date list. */
  const ConversionStart := Date(2020, 1, 1)
  const ConversionEnd := Date(2021, 12, 31)

  /** The two years enumerated by the conversion scripts hold 731 days (2020 is a leap year). */
  lemma ConversionDatesCount()
    ensures ValidDate(ConversionStart) && ValidDate(ConversionEnd)
    ensures |DailyRange(ConversionStart, ConversionEnd)| == 731
  {
    assert IsLeapYear(2020) && !IsLeapYear(2021);
    assert DaysBeforeYear(2021) == DaysBeforeYear(2020) + 366;
    assert DaysBeforeMonth(2021, 12) == 334;
    assert DayNumber(ConversionEnd) - DayNumber(ConversionStart) == 730;
    DailyRangeLength(ConversionStart, ConversionEnd);
  }
}
