/** RMSE_TEST/create_data/get_excluded_date_4.py: the timestamps missing between
    the first and the last grid file found on disk, and their monthly table.
    The globbed file list is an input. */
module MissingDates {
  import opened Options
  import opened Text
  import opened Calendar
  import opened TimeRange
  import Tally

  /** A row of the missing-dates table. */
  datatype MissingRow = MissingRow(missing: Stamp, year: int, month: int, day: int)

  /** The `groupby(["year", "month"]).size().unstack(fill_value=0)` table. */
  datatype MonthlyStats = MonthlyStats(years: seq<int>, months: seq<int>, cells: seq<seq<nat>>)

  /** The outcome of `main`. */
  datatype Outcome =
    | InvalidFreq             // the frequency answer is neither `hour` nor `day`
    | Aborted(reason: string) // `scan_missing_dates` raised
    | NoMissing               // nothing missing: no report is saved
    | Saved(variable: string, rows: seq<MissingRow>, stats: MonthlyStats)

  // ---- file names ----

  /** The file-name suffix of every globbed file, in file-list order. */
  function Suffixes(files: seq<string>): (r: seq<string>)
    ensures |r| == |files| && forall i :: 0 <= i < |files| ==> r[i] == Suffix(files[i])
  {
    seq(|files|, i requires 0 <= i < |files| => Suffix(files[i]))
  }

  /** The texts of length 12, in order. */
  function Kept(texts: seq<string>): (r: seq<string>)
    ensures |r| <= |texts|
  {
    if texts == [] then []
    else
      var n := |texts| - 1;
      Kept(texts[..n]) + (if |texts[n]| == 12 then [texts[n]] else [])
  }

  /** A suffix is kept exactly when it is 12 characters long. */
  lemma {:induction false} KeptMembership(texts: seq<string>, s: string)
    ensures s in Kept(texts) <==> s in texts && |s| == 12
  {
    if texts != [] {
      var n := |texts| - 1;
      KeptMembership(texts[..n], s);
      assert texts == texts[..n] + [texts[n]];
    }
  }

  lemma KeptSnoc(texts: seq<string>, t: string)
    ensures Kept(texts + [t]) == Kept(texts) + (if |t| == 12 then [t] else [])
  {
    assert (texts + [t])[..|texts|] == texts;
  }

  /** The loop that collects `existing_dates`. */
  method ExistingDates(files: seq<string>) returns (texts: seq<string>)
    ensures texts == Kept(Suffixes(files))
  {
    ghost var all := Suffixes(files);
    texts := [];
    for i := 0 to |files|
      invariant texts == Kept(all[..i])
    {
      var dateText := Suffix(files[i]);
      assert all[..i + 1] == all[..i] + [dateText];
      KeptSnoc(all[..i], dateText);
      if |dateText| == 12 {
        texts := texts + [dateText];
      }
    }
    assert all[..|files|] == all;
  }

  // ---- pd.to_datetime ----

  /** The first and last minute a pandas nanosecond timestamp can hold. */
  const PandasFirst := Stamp(Date(1677, 9, 21), 0, 13)
  const PandasLast := Stamp(Date(2262, 4, 11), 23, 47)

  predicate InPandasRange(t: Stamp)
  {
    !StampBefore(t, PandasFirst) && !StampBefore(PandasLast, t)
  }

  /** `pd.to_datetime(s, format="%Y%m%d%H%M")` for one text: `None` where it raises. */
  function ToDatetime(s: string): (r: Option<Stamp>)
    ensures r.Some? ==> ParseStampText(s) == r && InPandasRange(r.value)
    ensures r.None? ==> ParseStampText(s).None? || !InPandasRange(ParseStampText(s).value)
  {
    match ParseStampText(s)
    case None => None
    case Some(t) => if InPandasRange(t) then Some(t) else None
  }

  /** `pd.to_datetime` on the whole list: it raises as soon as one text does not parse. */
  function ParseAll(texts: seq<string>): (r: Option<seq<Stamp>>)
    ensures r.Some? <==> forall i :: 0 <= i < |texts| ==> ToDatetime(texts[i]).Some?
    ensures r.Some? ==> |r.value| == |texts|
                        && forall i :: 0 <= i < |texts| ==> ToDatetime(texts[i]) == Some(r.value[i])
    ensures r.Some? ==> forall i :: 0 <= i < |r.value| ==> ValidStamp(r.value[i])
  {
    if texts == [] then Some([])
    else
      var n := |texts| - 1;
      match (ParseAll(texts[..n]), ToDatetime(texts[n]))
      case (Some(front), Some(t)) => Some(front + [t])
      case (None, _) =>
        assert !ToDatetime(texts[..n][LastBad(texts[..n])]).Some?;
        None
      case (_, None) => None
  }

  /** Index of a text that does not parse, when there is one. */
  function LastBad(texts: seq<string>): (i: nat)
    requires exists i :: 0 <= i < |texts| && ToDatetime(texts[i]).None?
    ensures i < |texts| && ToDatetime(texts[i]).None?
  {
    if ToDatetime(texts[|texts| - 1]).None? then |texts| - 1
    else
      var i :| 0 <= i < |texts| && ToDatetime(texts[i]).None?;
      assert ToDatetime(texts[..|texts| - 1][i]).None?;
      LastBad(texts[..|texts| - 1])
  }

  // ---- the expected range and its difference ----

  /** The earliest of a non-empty list of stamps (`existing_dates.min()`). */
  function Earliest(ts: seq<Stamp>): (r: Stamp)
    requires ts != [] && forall i :: 0 <= i < |ts| ==> ValidStamp(ts[i])
    ensures r in ts && ValidStamp(r)
    ensures forall i :: 0 <= i < |ts| ==> Instant(r) <= Instant(ts[i])
  {
    if |ts| == 1 then ts[0]
    else
      var rest := Earliest(ts[1..]);
      assert forall i :: 1 <= i < |ts| ==> ts[i] == ts[1..][i - 1];
      if Instant(ts[0]) <= Instant(rest) then ts[0] else rest
  }

  /** The latest of a non-empty list of stamps (`existing_dates.max()`). */
  function Latest(ts: seq<Stamp>): (r: Stamp)
    requires ts != [] && forall i :: 0 <= i < |ts| ==> ValidStamp(ts[i])
    ensures r in ts && ValidStamp(r)
    ensures forall i :: 0 <= i < |ts| ==> Instant(ts[i]) <= Instant(r)
  {
    if |ts| == 1 then ts[0]
    else
      var rest := Latest(ts[1..]);
      assert forall i :: 1 <= i < |ts| ==> ts[i] == ts[1..][i - 1];
      if Instant(ts[0]) >= Instant(rest) then ts[0] else rest
  }

  /** `'D' if freq.lower() == 'day' else 'H'`. */
  function ExcludedFreqOf(text: string): (f: Freq)
    ensures f == Daily <==> LowerAscii(text) == "day"
  {
    if LowerAscii(text) == "day" then Daily else Hourly
  }

  /** The elements of `expected` that are not in `observed`, in the order of `expected`. */
  function Absent(expected: seq<Stamp>, observed: seq<Stamp>): (r: seq<Stamp>)
    ensures |r| <= |expected|
  {
    if expected == [] then []
    else
      var n := |expected| - 1;
      Absent(expected[..n], observed) + (if expected[n] in observed then [] else [expected[n]])
  }

  lemma {:induction false} AbsentMembership(expected: seq<Stamp>, observed: seq<Stamp>, x: Stamp)
    ensures x in Absent(expected, observed) <==> x in expected && x !in observed
  {
    if expected != [] {
      var n := |expected| - 1;
      AbsentMembership(expected[..n], observed, x);
      assert expected == expected[..n] + [expected[n]];
    }
  }

  lemma {:induction false} AbsentIncreasing(expected: seq<Stamp>, observed: seq<Stamp>)
    requires Increasing(expected)
    ensures Increasing(Absent(expected, observed))
  {
    if expected != [] {
      var n := |expected| - 1;
      var front := expected[..n];
      assert Increasing(front);
      AbsentIncreasing(front, observed);
      var r := Absent(expected, observed);
      var rf := Absent(front, observed);
      forall i, j | 0 <= i < j < |r|
        ensures ValidStamp(r[i]) && ValidStamp(r[j]) && Instant(r[i]) < Instant(r[j])
      {
        if j == |rf| {
          AbsentMembership(front, observed, r[i]);
          assert r[i] == rf[i];
          var k :| 0 <= k < n && front[k] == r[i];
          assert r[j] == expected[n];
        }
      }
    }
  }

  /** `pd.date_range(min, max, freq).difference(existing_dates)` for non-empty `observed`. */
  function MissingStamps(observed: seq<Stamp>, freq: Freq): seq<Stamp>
    requires observed != [] && forall i :: 0 <= i < |observed| ==> ValidStamp(observed[i])
  {
    Absent(Steps(Earliest(observed), Latest(observed), freq), observed)
  }

  /** A stamp is missing exactly when it is on the step grid from the earliest to the
      latest observed stamp and not observed. */
  lemma MissingStampsMembership(observed: seq<Stamp>, freq: Freq, x: Stamp)
    requires observed != [] && forall i :: 0 <= i < |observed| ==> ValidStamp(observed[i])
    ensures x in MissingStamps(observed, freq) <==>
              ValidStamp(x) && x !in observed
              && Instant(Earliest(observed)) <= Instant(x) <= Instant(Latest(observed))
              && (Instant(x) - Instant(Earliest(observed))) % StepMinutes(freq) == 0
  {
    var lo, hi := Earliest(observed), Latest(observed);
    AbsentMembership(Steps(lo, hi, freq), observed, x);
    StepsMembership(lo, hi, freq, x);
  }

  /** The missing stamps are strictly increasing: sorted and free of duplicates. */
  lemma MissingStampsIncreasing(observed: seq<Stamp>, freq: Freq)
    requires observed != [] && forall i :: 0 <= i < |observed| ==> ValidStamp(observed[i])
    ensures Increasing(MissingStamps(observed, freq))
  {
    var lo, hi := Earliest(observed), Latest(observed);
    StepsIncreasingAll(lo, hi, freq);
    AbsentIncreasing(Steps(lo, hi, freq), observed);
  }

  /** Nothing before the first or after the last observed file is reported. */
  lemma MissingWithinObserved(observed: seq<Stamp>, freq: Freq, x: Stamp)
    requires observed != [] && forall i :: 0 <= i < |observed| ==> ValidStamp(observed[i])
    requires x in MissingStamps(observed, freq)
    ensures ValidStamp(x)
    ensures exists i :: 0 <= i < |observed| && Instant(observed[i]) < Instant(x)
    ensures exists j :: 0 <= j < |observed| && Instant(x) < Instant(observed[j])
  {
    MissingStampsMembership(observed, freq, x);
    var lo, hi := Earliest(observed), Latest(observed);
    var i :| 0 <= i < |observed| && observed[i] == lo;
    var j :| 0 <= j < |observed| && observed[j] == hi;
    if Instant(lo) == Instant(x) {
      InstantInjective(lo, x);
    }
    if Instant(hi) == Instant(x) {
      InstantInjective(hi, x);
    }
  }

  function Row(t: Stamp): (r: MissingRow)
    ensures r.missing == t
    ensures r.year == t.date.year && r.month == t.date.month && r.day == t.date.day
  {
    MissingRow(t, t.date.year, t.date.month, t.date.day)
  }

  function Rows(ts: seq<Stamp>): (r: seq<MissingRow>)
    ensures |r| == |ts| && forall i :: 0 <= i < |ts| ==> r[i] == Row(ts[i])
  {
    seq(|ts|, i requires 0 <= i < |ts| => Row(ts[i]))
  }

  /** `scan_missing_dates(var, freq, root)` on the globbed file list. It raises when a kept
      suffix does not parse, and when no file is kept (the range bounds are then `NaT`). */
  function ScanMissingDates(files: seq<string>, freqText: string): (r: Result<seq<MissingRow>>)
    ensures r.Raised? <==> ParseAll(Kept(Suffixes(files))).None? || Kept(Suffixes(files)) == []
    ensures r.Ok? ==> var ts := ParseAll(Kept(Suffixes(files))).value;
                      ts != []
                      && (forall i :: 0 <= i < |ts| ==> ValidStamp(ts[i]))
                      && |r.value| == |MissingStamps(ts, ExcludedFreqOf(freqText))|
                      && forall i :: 0 <= i < |r.value| ==>
                           r.value[i] == Row(MissingStamps(ts, ExcludedFreqOf(freqText))[i])
  {
    match ParseAll(Kept(Suffixes(files)))
    case None => Raised("ValueError: time data does not match format '%Y%m%d%H%M'")
    case Some(ts) =>
      if ts == [] then Raised("ValueError: Neither `start` nor `end` can be NaT")
      else Ok(Rows(MissingStamps(ts, ExcludedFreqOf(freqText))))
  }

  // ---- the monthly table ----

  /** The keys in `lo..hi` (inclusive) that occur in `keys`, increasing. */
  function Present(lo: int, hi: int, keys: seq<int>): (r: seq<int>)
    ensures forall k :: k in r <==> lo <= k <= hi && k in keys
    ensures forall i, j :: 0 <= i < j < |r| ==> r[i] < r[j]
    decreases hi - lo + 1
  {
    if lo > hi then []
    else
      var rest := Present(lo + 1, hi, keys);
      assert forall j :: 0 <= j < |rest| ==> lo < rest[j] by {
        forall j | 0 <= j < |rest|
          ensures lo < rest[j]
        {
          assert rest[j] in rest;
        }
      }
      (if lo in keys then [lo] else []) + rest
  }

  function Years(rows: seq<MissingRow>): (r: seq<int>)
    ensures |r| == |rows| && forall i :: 0 <= i < |rows| ==> r[i] == rows[i].year
  {
    seq(|rows|, i requires 0 <= i < |rows| => rows[i].year)
  }

  function Months(rows: seq<MissingRow>): (r: seq<int>)
    ensures |r| == |rows| && forall i :: 0 <= i < |rows| ==> r[i] == rows[i].month
  {
    seq(|rows|, i requires 0 <= i < |rows| => rows[i].month)
  }

  function YearMonths(rows: seq<MissingRow>): (r: seq<(int, int)>)
    ensures |r| == |rows| && forall i :: 0 <= i < |rows| ==> r[i] == (rows[i].year, rows[i].month)
  {
    seq(|rows|, i requires 0 <= i < |rows| => (rows[i].year, rows[i].month))
  }

  /** One row of cells per year. */
  function Cells(pairs: seq<(int, int)>, years: seq<int>, months: seq<int>): (r: seq<seq<nat>>)
    ensures |r| == |years| && forall i :: 0 <= i < |years| ==> r[i] == RowCells(pairs, years[i], months)
  {
    seq(|years|, i requires 0 <= i < |years| => RowCells(pairs, years[i], months))
  }

  function RowCells(pairs: seq<(int, int)>, y: int, months: seq<int>): (r: seq<nat>)
    ensures |r| == |months| && forall j :: 0 <= j < |months| ==> r[j] == Tally.Count(pairs, (y, months[j]))
  {
    seq(|months|, j requires 0 <= j < |months| => Tally.Count(pairs, (y, months[j])))
  }

  /** `df_missing.groupby(["year", "month"]).size().unstack(fill_value=0)`: one row per
      year that occurs, one column per month that occurs, both increasing, and each
      cell the number of rows of that year and month (zero where there are none). */
  function Monthly(rows: seq<MissingRow>): (s: MonthlyStats)
    ensures forall i, j :: 0 <= i < j < |s.years| ==> s.years[i] < s.years[j]
    ensures forall i, j :: 0 <= i < j < |s.months| ==> s.months[i] < s.months[j]
    ensures s.cells == Cells(YearMonths(rows), s.years, s.months)
  {
    var years := Years(rows);
    var ys := if rows == [] then [] else Present(Tally.Min(years), Tally.Max(years), years);
    var ms := Present(1, 12, Months(rows));
    var pairs := YearMonths(rows);
    MonthlyStats(ys, ms, Cells(pairs, ys, ms))
  }

  /** The table's years are exactly the years of the rows. */
  lemma MonthlyYears(rows: seq<MissingRow>, y: int)
    ensures y in Monthly(rows).years <==> exists i :: 0 <= i < |rows| && rows[i].year == y
  {
    var years := Years(rows);
    YearsMembership(rows, y);
    if rows != [] {
      var lo, hi := Tally.Min(years), Tally.Max(years);
      assert Monthly(rows).years == Present(lo, hi, years);
    }
  }

  lemma YearsMembership(rows: seq<MissingRow>, y: int)
    ensures y in Years(rows) <==> exists i :: 0 <= i < |rows| && rows[i].year == y
  {
    var years := Years(rows);
    if y in years {
      var i :| 0 <= i < |years| && years[i] == y;
      assert rows[i].year == y;
    }
    if exists i :: 0 <= i < |rows| && rows[i].year == y {
      var i :| 0 <= i < |rows| && rows[i].year == y;
      assert years[i] == y;
    }
  }

  /** Each cell counts the rows of its year and month. */
  lemma MonthlyCell(rows: seq<MissingRow>, i: nat, j: nat)
    requires i < |Monthly(rows).years| && j < |Monthly(rows).months|
    ensures |Monthly(rows).cells[i]| == |Monthly(rows).months|
    ensures Monthly(rows).cells[i][j] == Tally.Count(YearMonths(rows), (Monthly(rows).years[i], Monthly(rows).months[j]))
  {
  }

  /** The table's months are exactly the months of the rows. */
  lemma MonthlyMonths(rows: seq<MissingRow>, m: int)
    requires forall i :: 0 <= i < |rows| ==> 1 <= rows[i].month <= 12
    ensures m in Monthly(rows).months <==> exists i :: 0 <= i < |rows| && rows[i].month == m
  {
    var months := Months(rows);
    assert Monthly(rows).months == Present(1, 12, months);
    if m in months {
      var i :| 0 <= i < |months| && months[i] == m;
      assert rows[i].month == m;
    }
    if exists i :: 0 <= i < |rows| && rows[i].month == m {
      var i :| 0 <= i < |rows| && rows[i].month == m;
      assert months[i] == m;
    }
  }

  /** Row-major list of the table's (year, month) keys. */
  function Keys(years: seq<int>, months: seq<int>): (r: seq<(int, int)>)
    ensures forall p :: p in r <==> p.0 in years && p.1 in months
  {
    if years == [] then []
    else
      var row := seq(|months|, j requires 0 <= j < |months| => (years[0], months[j]));
      assert forall p :: p in row <==> p.0 == years[0] && p.1 in months by {
        forall p
          ensures p in row <==> p.0 == years[0] && p.1 in months
        {
          if p.0 == years[0] && p.1 in months {
            var j :| 0 <= j < |months| && months[j] == p.1;
            assert row[j] == p;
          }
        }
      }
      row + Keys(years[1..], months)
  }

  lemma {:induction false} RowSum(pairs: seq<(int, int)>, y: int, months: seq<int>)
    ensures Tally.Sum(RowCells(pairs, y, months))
            == Tally.SumCounts(pairs, seq(|months|, j requires 0 <= j < |months| => (y, months[j])))
  {
    if months != [] {
      var row := seq(|months|, j requires 0 <= j < |months| => (y, months[j]));
      assert RowCells(pairs, y, months)[1..] == RowCells(pairs, y, months[1..]);
      assert row[1..] == seq(|months| - 1, j requires 0 <= j < |months| - 1 => (y, months[1..][j]));
      RowSum(pairs, y, months[1..]);
    }
  }

  function TableSum(cells: seq<seq<nat>>): nat
  {
    if cells == [] then 0 else Tally.Sum(cells[0]) + TableSum(cells[1..])
  }

  lemma {:induction false} TableSumKeys(pairs: seq<(int, int)>, years: seq<int>, months: seq<int>)
    ensures TableSum(Cells(pairs, years, months)) == Tally.SumCounts(pairs, Keys(years, months))
  {
    var cells := Cells(pairs, years, months);
    if years != [] {
      var row := seq(|months|, j requires 0 <= j < |months| => (years[0], months[j]));
      assert cells[1..] == Cells(pairs, years[1..], months);
      TableSumKeys(pairs, years[1..], months);
      RowSum(pairs, years[0], months);
      Tally.SumCountsAppend(pairs, row, Keys(years[1..], months));
    }
  }

  lemma {:induction false} KeysDistinct(years: seq<int>, months: seq<int>)
    requires forall i, j :: 0 <= i < j < |years| ==> years[i] < years[j]
    requires forall i, j :: 0 <= i < j < |months| ==> months[i] < months[j]
    ensures Tally.Distinct(Keys(years, months))
  {
    if years != [] {
      KeysDistinct(years[1..], months);
      var row := seq(|months|, j requires 0 <= j < |months| => (years[0], months[j]));
      var rest := Keys(years[1..], months);
      var r := row + rest;
      forall i, j | 0 <= i < j < |r|
        ensures r[i] != r[j]
      {
        if j >= |row| && i < |row| {
          assert r[j] in rest;
          var k :| 0 <= k < |years[1..]| && years[1..][k] == r[j].0;
          assert r[j].0 > years[0];
        } else if j >= |row| {
          assert r[i] == rest[i - |row|] && r[j] == rest[j - |row|];
        }
      }
    }
  }

  /** The monthly table's cells add up to the number of missing rows. */
  lemma MonthlyTotal(rows: seq<MissingRow>)
    requires forall i :: 0 <= i < |rows| ==> 1 <= rows[i].month <= 12
    ensures TableSum(Monthly(rows).cells) == |rows|
  {
    var s := Monthly(rows);
    var pairs := YearMonths(rows);
    TableSumKeys(pairs, s.years, s.months);
    KeysDistinct(s.years, s.months);
    MonthlyKeysCover(rows);
    Tally.SumCountsCovers(pairs, Keys(s.years, s.months));
  }

  /** Every (year, month) of a row is a key of the table. */
  lemma MonthlyKeysCover(rows: seq<MissingRow>)
    requires forall i :: 0 <= i < |rows| ==> 1 <= rows[i].month <= 12
    ensures forall p :: p in YearMonths(rows) ==> p in Keys(Monthly(rows).years, Monthly(rows).months)
  {
    var s := Monthly(rows);
    var pairs := YearMonths(rows);
    forall p | p in pairs
      ensures p in Keys(s.years, s.months)
    {
      var i :| 0 <= i < |pairs| && pairs[i] == p;
      assert rows[i].year == p.0 && rows[i].month == p.1;
      MonthlyYears(rows, p.0);
      MonthlyMonths(rows, p.1);
    }
  }

  // ---- main ----

  /** `input(...).strip() or default`: the stripped answer, or the default when nothing is left. */
  function Answer(text: string, default: string): (a: string)
    ensures Strip(text) != [] ==> a == Strip(text)
    ensures Strip(text) == [] ==> a == default
  {
    if Strip(text) == [] then default else Strip(text)
  }

  /** `main` with the two prompt answers as inputs: empty answers take the defaults
      `ta` and `hour`; any other frequency than `hour` or `day` is refused; the scan's
      error stops the run; a report of exactly the scanned rows is saved only when
      something is missing. */
  function Report(varAnswer: string, freqAnswer: string, files: seq<string>): (o: Outcome)
    ensures o == InvalidFreq <==> Answer(freqAnswer, "hour") != "hour" && Answer(freqAnswer, "hour") != "day"
    ensures o != InvalidFreq ==>
              var scan := ScanMissingDates(files, Answer(freqAnswer, "hour"));
              (o.Aborted? <==> scan.Raised?)
              && (o == NoMissing <==> scan == Ok([]))
              && (o.Saved? <==> scan.Ok? && scan.value != [])
              && (o.Saved? ==> o.rows == scan.value)
    ensures o.Saved? ==> o.rows != [] && o.stats == Monthly(o.rows) && o.variable == Answer(varAnswer, "ta")
  {
    var variable := Answer(varAnswer, "ta");
    var freq := Answer(freqAnswer, "hour");
    if freq != "hour" && freq != "day" then InvalidFreq
    else
      match ScanMissingDates(files, freq)
      case Raised(reason) => Aborted(reason)
      case Ok(rows) => if rows == [] then NoMissing else Saved(variable, rows, Monthly(rows))
  }

  /** After `main`'s check, `day` selects daily steps and `hour` hourly ones. */
  lemma ReportFrequency(freqAnswer: string)
    requires Strip(freqAnswer) == "day" || Strip(freqAnswer) == "hour"
    ensures ExcludedFreqOf(Strip(freqAnswer)) == (if Strip(freqAnswer) == "day" then Daily else Hourly)
  {
    if Strip(freqAnswer) == "hour" {
      assert LowerAscii("hour")[0] == 'h';
    }
  }
}
