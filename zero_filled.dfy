/** RMSE_TEST/create_data/check_0_filled_files_3.py: a summary record per grid
    file (valid count, extremes, share of zeros and of negatives among the
    values that are not -9990), the report table sorted by date, the files
    with at least 30% zeros, and how many of those fall in each month.

    Each globbed file comes with what opening it gives: its `data` values
    flattened, or a failure. Its size is an input. */
module ZeroFilled {
  import opened Options
  import opened Text
  import opened Calendar
  import opened Ordering
  import opened Values
  import Tally
  import MissingDates

  /** What `nc.Dataset(path).variables['data'][:]` gives: the flattened values, or an exception. */
  datatype Load = LoadFailed | Loaded(values: seq<real>)

  /** A globbed file: its path, `os.path.getsize`, and its contents. */
  datatype FileInput = FileInput(path: string, size: nat, load: Load)

  /** The `file_info` dictionary; `reason` is present only for files without valid data. */
  datatype FileInfo = FileInfo(date: string, sizeBytes: nat, filename: string,
                               min: Option<real>, max: Option<real>, noValidData: bool,
                               zeroRatio: real, negativeRatio: real, reason: Option<string>)

  const AllInvalidReason := "All values invalid (-9990)"

  /** The statistics of `process_file` once the date is known and the values are loaded. */
  function Summary(date: string, size: nat, filename: string, values: seq<real>): (r: FileInfo)
    ensures r.date == date && r.sizeBytes == size && r.filename == filename
    ensures r.noValidData <==> NonMissing(values) == []
    ensures r.noValidData ==> r.min == None && r.max == None && r.zeroRatio == 0.0
                              && r.negativeRatio == 0.0 && r.reason == Some(AllInvalidReason)
    ensures !r.noValidData ==> r.min.Some? && r.max.Some? && r.reason == None
                               && r.min.value in values && r.min.value != MissingValue
                               && r.max.value in values && r.max.value != MissingValue
                               && r.min.value <= r.max.value
    ensures !r.noValidData ==>
              r.zeroRatio == Share(Tally.Count(NonMissing(values), 0.0), |NonMissing(values)|)
              && r.negativeRatio == Share(CountBelow(NonMissing(values), 0.0), |NonMissing(values)|)
  {
    var valid := NonMissing(values);
    if valid == [] then
      FileInfo(date, size, filename, None, None, true, 0.0, 0.0, Some(AllInvalidReason))
    else
      var lo, hi := MinOf(valid), MaxOf(valid);
      NonMissingMembership(values, lo);
      NonMissingMembership(values, hi);
      FileInfo(date, size, filename, Some(lo), Some(hi), false,
               Share(Tally.Count(valid, 0.0), |valid|), Share(CountBelow(valid, 0.0), |valid|), None)
  }

  /** `count / valid_count`: the share of a part in a positive whole. */
  function Share(part: nat, whole: nat): (q: real)
    requires whole > 0
    ensures q * whole as real == part as real
  {
    part as real / whole as real
  }

  /** With a positive whole, the sign of a product is the sign of the other factor. */
  lemma ProductSign(a: real, w: real)
    requires w > 0.0
    ensures a * w >= 0.0 <==> a >= 0.0
  {
  }

  /** A share reaches 30% exactly when ten times the part is at least three times the whole. */
  lemma ShareAtLeastThreshold(part: nat, whole: nat)
    requires whole > 0
    ensures Share(part, whole) >= HighZeroRatio <==> 10 * part >= 3 * whole
  {
    var q, p, w := Share(part, whole), part as real, whole as real;
    assert (q - HighZeroRatio) * w == p - HighZeroRatio * w;
    ProductSign(q - HighZeroRatio, w);
    assert (10 * part) as real == 10.0 * p && (3 * whole) as real == 3.0 * w;
  }

  /** A file with valid data is flagged as zero-filled exactly when at least
      3 in 10 of its values that are not -9990 are 0; a file without valid data never is. */
  lemma SummaryHighZero(date: string, size: nat, filename: string, values: seq<real>)
    ensures Summary(date, size, filename, values).zeroRatio >= HighZeroRatio
            <==> NonMissing(values) != [] && 10 * Tally.Count(NonMissing(values), 0.0) >= 3 * |NonMissing(values)|
  {
    var valid := NonMissing(values);
    if valid != [] {
      ShareAtLeastThreshold(Tally.Count(valid, 0.0), |valid|);
    }
  }

  /** The minimum and maximum bound every value that is not -9990. */
  lemma SummaryBounds(date: string, size: nat, filename: string, values: seq<real>, v: real)
    requires NonMissing(values) != [] && v in values && v != MissingValue
    ensures Summary(date, size, filename, values).min.value <= v <= Summary(date, size, filename, values).max.value
  {
    NonMissingMembership(values, v);
  }

  /** A share of a positive whole lies in [0, 1]. */
  lemma ShareBounds(a: real, w: real)
    requires 0.0 <= a <= w && 0.0 < w
    ensures 0.0 <= a / w <= 1.0
  {
    assert a / w * w == a;
  }

  /** Shares of disjoint parts of a non-empty whole. */
  lemma RatioBounds(z: nat, n: nat, v: nat)
    requires 0 < v && z + n <= v
    ensures 0.0 <= z as real / v as real <= 1.0 && 0.0 <= n as real / v as real <= 1.0
    ensures z as real / v as real + n as real / v as real <= 1.0
  {
    var w := v as real;
    ShareBounds(z as real, w);
    ShareBounds(n as real, w);
    ShareBounds((z + n) as real, w);
    assert z as real / w + n as real / w == (z + n) as real / w;
  }

  /** Both ratios lie in [0, 1] and together they are at most 1. */
  lemma SummaryRatios(date: string, size: nat, filename: string, values: seq<real>)
    ensures var r := Summary(date, size, filename, values);
            0.0 <= r.zeroRatio <= 1.0 && 0.0 <= r.negativeRatio <= 1.0
            && r.zeroRatio + r.negativeRatio <= 1.0
  {
    var valid := NonMissing(values);
    if valid != [] {
      ZerosAndNegatives(valid);
      RatioBounds(Tally.Count(valid, 0.0), CountBelow(valid, 0.0), |valid|);
    }
  }

  /** `[-9990, 0, 0, 5, -3, -9990]`: four valid values, half of them zero, a quarter negative. */
  lemma SummaryExample()
    ensures Summary("202001010000", 0, "f.nc", [-9990.0, 0.0, 0.0, 5.0, -3.0, -9990.0])
            == FileInfo("202001010000", 0, "f.nc", Some(-3.0), Some(5.0), false, 0.5, 0.25, None)
  {
    var xs := [-9990.0, 0.0, 0.0, 5.0, -3.0, -9990.0];
    ExampleValid();
    var valid := [0.0, 0.0, 5.0, -3.0];
    ExampleExtremes();
    ExampleCounts();
  }

  lemma ExampleValid()
    ensures NonMissing([-9990.0, 0.0, 0.0, 5.0, -3.0, -9990.0]) == [0.0, 0.0, 5.0, -3.0]
  {
    var xs := [-9990.0, 0.0, 0.0, 5.0, -3.0, -9990.0];
    assert NonMissing(xs[5..]) == [];
    assert NonMissing(xs[4..]) == [-3.0];
    assert NonMissing(xs[3..]) == [5.0, -3.0];
    assert NonMissing(xs[2..]) == [0.0, 5.0, -3.0];
    assert NonMissing(xs[1..]) == [0.0, 0.0, 5.0, -3.0];
  }

  lemma ExampleExtremes()
    ensures MinOf([0.0, 0.0, 5.0, -3.0]) == -3.0 && MaxOf([0.0, 0.0, 5.0, -3.0]) == 5.0
  {
    var v := [0.0, 0.0, 5.0, -3.0];
    assert MinOf(v[2..]) == -3.0 && MaxOf(v[2..]) == 5.0;
    assert MinOf(v[1..]) == -3.0 && MaxOf(v[1..]) == 5.0;
  }

  lemma ExampleCounts()
    ensures Tally.Count([0.0, 0.0, 5.0, -3.0], 0.0) == 2 && CountBelow([0.0, 0.0, 5.0, -3.0], 0.0) == 1
  {
    var v := [0.0, 0.0, 5.0, -3.0];
    assert Tally.Count(v[2..], 0.0) == 0 && CountBelow(v[2..], 0.0) == 1;
    assert Tally.Count(v[1..], 0.0) == 1 && CountBelow(v[1..], 0.0) == 1;
  }

  /** `process_file`: `None` for a suffix that is not 12 characters, one `strptime`
      rejects, or a file that does not load. */
  function ProcessFile(f: FileInput): (r: Option<FileInfo>)
    ensures |Suffix(f.path)| != 12 ==> r == None
    ensures r.Some? <==> ParseStampText(Suffix(f.path)).Some? && f.load.Loaded?
    ensures r.Some? ==> r.value == Summary(StampText(ParseStampText(Suffix(f.path)).value),
                                           f.size, Basename(f.path), f.load.values)
  {
    var dateText := Suffix(f.path);
    if |dateText| != 12 then None
    else
      match ParseStampText(dateText)
      case None => None
      case Some(t) =>
        match f.load
        case LoadFailed => None
        case Loaded(values) => Some(Summary(StampText(t), f.size, Basename(f.path), values))
  }

  /** The date column is the file name's own timestamp text when its year has four digits. */
  lemma ProcessFileDate(f: FileInput)
    requires ProcessFile(f).Some? && Suffix(f.path)[0] != '0'
    ensures ProcessFile(f).value.date == Suffix(f.path)
  {
    StampTextOfParse(Suffix(f.path));
  }

  /** `process_file` of every globbed file, in file-list order. */
  function Outputs(files: seq<FileInput>): (r: seq<Option<FileInfo>>)
    ensures |r| == |files| && forall i :: 0 <= i < |files| ==> r[i] == ProcessFile(files[i])
  {
    seq(|files|, i requires 0 <= i < |files| => ProcessFile(files[i]))
  }

  /** `[f.result() for f in ... if f.result() is not None]`, taken in file-list order. */
  function Results(files: seq<FileInput>): (r: seq<FileInfo>)
    ensures |r| <= |files|
    ensures forall x :: x in r <==> Some(x) in Outputs(files)
  {
    var opts := Outputs(files);
    forall x
      ensures x in Somes(opts) <==> Some(x) in opts
    {
      SomesMembership(opts, x);
    }
    Somes(opts)
  }

  // ---- df.sort_values(by='date', inplace=True) ----

  /** Rows in ascending order of their date text. */
  predicate DateOrdered(s: seq<FileInfo>)
  {
    forall i, j :: 0 <= i < j < |s| ==> !LexLess(s[j].date, s[i].date)
  }

  /** The first `i + 1` rows are in order, except that row `j` may be before rows ahead of it. */
  predicate OrderedExcept(s: seq<FileInfo>, i: nat, j: nat)
    requires i < |s|
  {
    forall k, l :: 0 <= k < l <= i && l != j ==> !LexLess(s[l].date, s[k].date)
  }

  /** Swapping row `j` with an earlier row it precedes moves the exception one place down. */
  lemma SwapDown(s: seq<FileInfo>, i: nat, j: nat)
    requires 0 < j <= i < |s| && OrderedExcept(s, i, j) && LexLess(s[j].date, s[j - 1].date)
    ensures OrderedExcept(s[j - 1 := s[j]][j := s[j - 1]], i, j - 1)
  {
    LexLessAsymmetric(s[j].date, s[j - 1].date);
  }

  lemma SwapMultiset(s: seq<FileInfo>, j: nat)
    requires 0 < j < |s|
    ensures multiset(s[j - 1 := s[j]][j := s[j - 1]]) == multiset(s)
  {
  }

  /** Once row `j` is not before the row ahead of it, the first `i + 1` rows are in order. */
  lemma SettleAt(s: seq<FileInfo>, i: nat, j: nat)
    requires j <= i < |s| && OrderedExcept(s, i, j)
    requires j > 0 ==> !LexLess(s[j].date, s[j - 1].date)
    ensures OrderedExcept(s, i, i + 1)
  {
    forall k | 0 <= k < j
      ensures !LexLess(s[j].date, s[k].date)
    {
      if k < j - 1 {
        NotAfterTransitive(s[k].date, s[j - 1].date, s[j].date);
      }
    }
  }

  /** Sorting the table in place by its date column. */
  method SortByDate(a: array<FileInfo>)
    modifies a
    ensures DateOrdered(a[..])
    ensures multiset(a[..]) == multiset(old(a[..]))
  {
    for i := 0 to a.Length
      invariant multiset(a[..]) == multiset(old(a[..]))
      invariant forall k, l :: 0 <= k < l < i ==> !LexLess(a[l].date, a[k].date)
    {
      var j := i;
      assert OrderedExcept(a[..], i, j);
      while j > 0 && LexLess(a[j].date, a[j - 1].date)
        invariant 0 <= j <= i
        invariant multiset(a[..]) == multiset(old(a[..]))
        invariant OrderedExcept(a[..], i, j)
      {
        ghost var before := a[..];
        SwapDown(before, i, j);
        SwapMultiset(before, j);
        a[j - 1], a[j] := a[j], a[j - 1];
        assert a[..] == before[j - 1 := before[j]][j := before[j - 1]];
        j := j - 1;
      }
      SettleAt(a[..], i, j);
    }
  }

  /** For rows from file names with four-digit years, date order is time order. */
  lemma DateOrderedChronological(s: seq<FileInfo>, ts: seq<Stamp>)
    requires DateOrdered(s) && |ts| == |s|
    requires forall i :: 0 <= i < |s| ==> ValidStamp(ts[i]) && 1000 <= ts[i].date.year < 10000
                                          && s[i].date == StampText(ts[i])
    ensures forall i, j :: 0 <= i < j < |s| ==> Instant(ts[i]) <= Instant(ts[j])
  {
    forall i, j | 0 <= i < j < |s|
      ensures Instant(ts[i]) <= Instant(ts[j])
    {
      StampTextOrder(ts[j], ts[i]);
    }
  }

  // ---- the high-zero subset ----

  const HighZeroRatio: real := 0.3

  /** `df[df['zero_ratio'] >= 0.3]`, in table order. */
  function HighZero(s: seq<FileInfo>): (r: seq<FileInfo>)
    ensures |r| <= |s|
  {
    if s == [] then []
    else
      var n := |s| - 1;
      HighZero(s[..n]) + (if s[n].zeroRatio >= HighZeroRatio then [s[n]] else [])
  }

  lemma {:induction false} HighZeroMembership(s: seq<FileInfo>, x: FileInfo)
    ensures x in HighZero(s) <==> x in s && x.zeroRatio >= HighZeroRatio
  {
    if s != [] {
      var n := |s| - 1;
      HighZeroMembership(s[..n], x);
      assert s == s[..n] + [s[n]];
    }
  }

  /** A file without valid data never has a high zero ratio. */
  lemma AllInvalidNotHighZero(f: FileInput, s: seq<FileInfo>)
    requires ProcessFile(f).Some? && ProcessFile(f).value.noValidData
    ensures ProcessFile(f).value !in HighZero(s)
  {
    HighZeroMembership(s, ProcessFile(f).value);
  }

  /** Filtering keeps the date order. */
  lemma {:induction false} HighZeroOrdered(s: seq<FileInfo>)
    requires DateOrdered(s)
    ensures DateOrdered(HighZero(s))
  {
    if s != [] {
      var n := |s| - 1;
      assert DateOrdered(s[..n]);
      HighZeroOrdered(s[..n]);
      var r, rf := HighZero(s), HighZero(s[..n]);
      forall i, j | 0 <= i < j < |r|
        ensures !LexLess(r[j].date, r[i].date)
      {
        if j == |rf| {
          assert r[i] == rf[i];
          HighZeroMembership(s[..n], r[i]);
          var k :| 0 <= k < n && s[..n][k] == r[i];
          assert r[j] == s[n];
        }
      }
    }
  }

  // ---- monthly counts of the high-zero subset ----

  /** The `%Y%m` part of a date text: the month `to_period('M')` groups by. */
  function MonthKey(date: string): string
  {
    if |date| >= 6 then date[..6] else date
  }

  function MonthKeys(s: seq<FileInfo>): (r: seq<string>)
    ensures |r| == |s| && forall i :: 0 <= i < |s| ==> r[i] == MonthKey(s[i].date)
  {
    seq(|s|, i requires 0 <= i < |s| => MonthKey(s[i].date))
  }

  /** The keys in order of first occurrence, each once. */
  function FirstSeen(keys: seq<string>): (r: seq<string>)
    ensures Tally.Distinct(r)
    ensures forall k :: k in r <==> k in keys
  {
    if keys == [] then []
    else
      var n := |keys| - 1;
      var front := FirstSeen(keys[..n]);
      assert keys == keys[..n] + [keys[n]];
      if keys[n] in keys[..n] then front else front + [keys[n]]
  }

  /** The period's text, `YYYY-MM`. */
  function MonthLabel(key: string): string
  {
    if |key| == 6 then key[..4] + "-" + key[4..] else key
  }

  /** `value_counts().sort_index()` of the months: one row per month present, with its count. */
  function MonthlyCounts(s: seq<FileInfo>): (r: seq<(string, nat)>)
    ensures |r| == |FirstSeen(MonthKeys(s))|
    ensures forall i :: 0 <= i < |r| ==>
              r[i] == (MonthLabel(FirstSeen(MonthKeys(s))[i]), Tally.Count(MonthKeys(s), FirstSeen(MonthKeys(s))[i]))
  {
    var keys := MonthKeys(s);
    var months := FirstSeen(keys);
    seq(|months|, i requires 0 <= i < |months| => (MonthLabel(months[i]), Tally.Count(keys, months[i])))
  }

  function CountsTotal(rows: seq<(string, nat)>): nat
  {
    if rows == [] then 0 else rows[0].1 + CountsTotal(rows[1..])
  }

  lemma {:induction false} CountsTotalOfKeys(keys: seq<string>, months: seq<string>)
    ensures CountsTotal(seq(|months|, i requires 0 <= i < |months| => (MonthLabel(months[i]), Tally.Count(keys, months[i]))))
            == Tally.SumCounts(keys, months)
  {
    if months != [] {
      var rows := seq(|months|, i requires 0 <= i < |months| => (MonthLabel(months[i]), Tally.Count(keys, months[i])));
      assert rows[1..] == seq(|months| - 1, i requires 0 <= i < |months| - 1 => (MonthLabel(months[1..][i]), Tally.Count(keys, months[1..][i])));
      CountsTotalOfKeys(keys, months[1..]);
    }
  }

  /** The monthly counts add up to the number of high-zero files, and every month shown has one. */
  lemma MonthlyCountsTotal(s: seq<FileInfo>)
    ensures CountsTotal(MonthlyCounts(s)) == |s|
    ensures forall i :: 0 <= i < |MonthlyCounts(s)| ==> MonthlyCounts(s)[i].1 > 0
  {
    var keys := MonthKeys(s);
    var months := FirstSeen(keys);
    assert MonthlyCounts(s) == seq(|months|, i requires 0 <= i < |months| => (MonthLabel(months[i]), Tally.Count(keys, months[i])));
    CountsTotalOfKeys(keys, months);
    Tally.SumCountsCovers(keys, months);
  }

  /** Keys that never decrease appear for the first time in increasing order. */
  lemma {:induction false} FirstSeenIncreasing(keys: seq<string>)
    requires forall i, j :: 0 <= i < j < |keys| ==> !LexLess(keys[j], keys[i])
    ensures forall i, j :: 0 <= i < j < |FirstSeen(keys)| ==> LexLess(FirstSeen(keys)[i], FirstSeen(keys)[j])
  {
    if keys != [] {
      var n := |keys| - 1;
      var front := FirstSeen(keys[..n]);
      FirstSeenIncreasing(keys[..n]);
      if keys[n] !in keys[..n] {
        var r := front + [keys[n]];
        forall i, j | 0 <= i < j < |r|
          ensures LexLess(r[i], r[j])
        {
          if j == |front| {
            assert r[i] in keys[..n];
            var k :| 0 <= k < n && keys[..n][k] == r[i];
            LexLessTotal(r[i], keys[n]);
          }
        }
      }
    }
  }

  /** A sorted table of 12-character dates has its months in increasing order, as `sort_index` gives. */
  lemma MonthlyCountsSorted(s: seq<FileInfo>)
    requires DateOrdered(s) && forall i :: 0 <= i < |s| ==> |s[i].date| == 12
    ensures forall i, j :: 0 <= i < j < |FirstSeen(MonthKeys(s))| ==>
              LexLess(FirstSeen(MonthKeys(s))[i], FirstSeen(MonthKeys(s))[j])
  {
    var keys := MonthKeys(s);
    forall i, j | 0 <= i < j < |keys|
      ensures !LexLess(keys[j], keys[i])
    {
      if LexLess(keys[j], keys[i]) {
        LexLessPrefix(s[j].date, s[i].date, 6);
      }
    }
    FirstSeenIncreasing(keys);
  }

  // ---- main ----

  /** The `date` column of a table, in row order. */
  function Dates(s: seq<FileInfo>): (r: seq<string>)
    ensures |r| == |s| && forall i :: 0 <= i < |s| ==> r[i] == s[i].date
  {
    seq(|s|, i requires 0 <= i < |s| => s[i].date)
  }

  /** `pd.to_datetime(high_zero_ratio_df['date'], format='%Y%m%d%H%M')` and the monthly
      counts after it: the conversion raises when a date text is not a stamp pandas can
      hold, and otherwise the counts are those of the subset. */
  function MonthlyStep(highZero: seq<FileInfo>): (r: Result<seq<(string, nat)>>)
    ensures r.Raised? <==> exists i :: 0 <= i < |highZero| && MissingDates.ToDatetime(highZero[i].date).None?
    ensures r.Ok? ==> r.value == MonthlyCounts(highZero)
  {
    if MissingDates.ParseAll(Dates(highZero)).None? then Raised("OutOfBoundsDatetime") else Ok(MonthlyCounts(highZero))
  }

  /** A high-zero file whose date lies outside pandas' range stops the monthly step. */
  lemma MonthlyStepOutOfRange(s: seq<FileInfo>, i: nat, t: Stamp)
    requires i < |s| && ValidStamp(t) && 1000 <= t.date.year < 10000
    requires s[i].date == StampText(t) && !MissingDates.InPandasRange(t)
    ensures MonthlyStep(s).Raised?
  {
    ParseStampTextRoundTrip(t);
    assert MissingDates.ToDatetime(s[i].date).None?;
  }

  /** Dates rendered from stamps inside pandas' range always convert. */
  lemma MonthlyStepInRange(s: seq<FileInfo>, ts: seq<Stamp>)
    requires |ts| == |s|
    requires forall i :: 0 <= i < |s| ==> ValidStamp(ts[i]) && 1000 <= ts[i].date.year < 10000
                                          && s[i].date == StampText(ts[i]) && MissingDates.InPandasRange(ts[i])
    ensures MonthlyStep(s) == Ok(MonthlyCounts(s))
  {
    forall i | 0 <= i < |s|
      ensures MissingDates.ToDatetime(s[i].date).Some?
    {
      ParseStampTextRoundTrip(ts[i]);
    }
  }

  /** 3000-01-01 00:00 is a valid stamp that pandas cannot hold. */
  lemma Year3000OutOfRange()
    ensures ValidStamp(Stamp(Date(3000, 1, 1), 0, 0))
    ensures !MissingDates.InPandasRange(Stamp(Date(3000, 1, 1), 0, 0))
  {
  }

  /** The two CSV tables, and the monthly counts or the exception that stops `main` before they are written. */
  datatype Report = Report(table: seq<FileInfo>, highZero: seq<FileInfo>, monthly: Result<seq<(string, nat)>>)

  datatype Outcome =
    | NoFiles                 // the glob found nothing: `main` returns early
    | Failed(reason: string)  // no file gave a record: the empty frame has no `date` column
    | Saved(report: Report)

  /** `main` after the prompts and the glob: summarise every file, sort, filter, count by month. */
  method Analyze(files: seq<FileInput>) returns (o: Outcome)
    ensures o == NoFiles <==> files == []
    ensures o.Failed? <==> files != [] && Results(files) == []
    ensures o.Saved? ==> multiset(o.report.table) == multiset(Results(files))
                         && DateOrdered(o.report.table)
                         && o.report.highZero == HighZero(o.report.table)
                         && o.report.monthly == MonthlyStep(o.report.highZero)
    ensures o.Saved? && o.report.monthly.Ok? ==>
              var months := FirstSeen(MonthKeys(o.report.highZero));
              forall i, j :: 0 <= i < j < |months| ==> LexLess(months[i], months[j])
  {
    if files == [] {
      return NoFiles;
    }
    var infos := Results(files);
    if infos == [] {
      return Failed("KeyError: 'date'");
    }
    var df := new FileInfo[|infos|](i requires 0 <= i < |infos| => infos[i]);
    assert df[..] == infos;
    SortByDate(df);
    var high := HighZero(df[..]);
    HighZeroOrdered(df[..]);
    if MonthlyStep(high).Ok? {
      forall i | 0 <= i < |high|
        ensures |high[i].date| == 12
      {
        assert MissingDates.ToDatetime(high[i].date).Some?;
      }
      MonthlyCountsSorted(high);
    }
    o := Saved(Report(df[..], high, MonthlyStep(high)));
  }
}
