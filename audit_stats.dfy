/** RMSE_TEST/create_data/check_data_file_test.py, second and third passes: per
    variable, the sizes of the daily files that exist and their minimum, maximum
    and mean (`analyze_file_sizes`), and how the values of the files that load
    split into the -9990 sentinel, zero and everything else
    (`analyze_value_distribution`).

    Both passes visit the day's path of every day in order (`PathsOf`); what they
    compute is stated over that list of paths.
    A NaN value is `None`: it equals neither -9990 nor 0, so it falls in the third
    bucket. The files `xarray` can open are a map from path to their flattened
    `data` values; a path that exists but is not a key raises on load. */
module AuditStats {
  import opened Options
  import opened Calendar
  import opened TimeRange
  import Tally
  import DownloadQueue
  import FileAudit
  import opened Values

  type FileSystem = DownloadQueue.FileSystem
  type Contents = map<string, seq<Option<real>>>

  /** `file_structure.format(...)` for each of the days, in order: the paths a pass visits. */
  function PathsOf(root: string, v: string, days: seq<Stamp>): (r: seq<string>)
    requires DownloadQueue.AllValid(days)
    ensures |r| == |days|
  {
    seq(|days|, k requires 0 <= k < |days| => FileAudit.AuditPath(root, v, days[k].date))
  }

  /** Visiting one more day appends its path. */
  lemma PathsSnoc(root: string, v: string, done: seq<Stamp>, day: Stamp)
    requires DownloadQueue.AllValid(done) && ValidStamp(day)
    ensures DownloadQueue.AllValid(done + [day])
    ensures PathsOf(root, v, done + [day]) == PathsOf(root, v, done) + [FileAudit.AuditPath(root, v, day.date)]
  {
  }

  /** The day `k` of the list has the `k`-th path. */
  lemma PathsAt(root: string, v: string, days: seq<Stamp>, k: nat)
    requires DownloadQueue.AllValid(days) && k < |days|
    ensures PathsOf(root, v, days)[k] == FileAudit.AuditPath(root, v, days[k].date)
  {
  }

  // ---- analyze_file_sizes ----

  /** `file_sizes`: `os.path.getsize` of each visited path that `os.path.exists`, in order. */
  function ExistingSizes(fs: FileSystem, paths: seq<string>): (r: seq<nat>)
    ensures |r| <= |paths|
  {
    if paths == [] then []
    else
      var n := |paths| - 1;
      ExistingSizes(fs, paths[..n]) + (if paths[n] in fs then [fs[paths[n]]] else [])
  }

  lemma ExistingSizesSnoc(fs: FileSystem, paths: seq<string>, path: string)
    ensures ExistingSizes(fs, paths + [path]) == ExistingSizes(fs, paths) + (if path in fs then [fs[path]] else [])
  {
    assert (paths + [path])[..|paths|] == paths;
  }

  /** A size is listed exactly when it is the size of one of the visited files. */
  lemma {:induction false} ExistingSizesMembership(fs: FileSystem, paths: seq<string>, x: nat)
    ensures x in ExistingSizes(fs, paths) <==> exists p :: p in paths && p in fs && fs[p] == x
  {
    if paths != [] {
      var n := |paths| - 1;
      ExistingSizesMembership(fs, paths[..n], x);
      assert paths == paths[..n] + [paths[n]];
    }
  }

  /** `if not file_sizes: continue`: the list is empty exactly when no visited file exists. */
  lemma {:induction false} ExistingSizesEmpty(fs: FileSystem, paths: seq<string>)
    ensures ExistingSizes(fs, paths) == [] <==> forall p :: p in paths ==> p !in fs
  {
    if paths != [] {
      var n := |paths| - 1;
      ExistingSizesEmpty(fs, paths[..n]);
      assert paths == paths[..n] + [paths[n]];
    }
  }

  /** A row of the size statistics CSV (median and standard deviation are not modelled). */
  datatype SizeStats = SizeStats(variable: string, minSize: nat, maxSize: nat, meanSize: real)

  /** `np.min`, `np.max` and `np.mean` of a non-empty size list. */
  function StatsOf(v: string, sizes: seq<nat>): (r: SizeStats)
    requires sizes != []
    ensures r.variable == v && r.minSize <= r.maxSize
  {
    SizeStats(v, Tally.Min(sizes), Tally.Max(sizes), Tally.Sum(sizes) as real / |sizes| as real)
  }

  /** Bounds on a sum from bounds on its terms. */
  lemma {:induction false} SumBetween(xs: seq<nat>, lo: nat, hi: nat)
    requires forall x :: x in xs ==> lo <= x <= hi
    ensures |xs| * lo <= Tally.Sum(xs) <= |xs| * hi
  {
    if xs != [] {
      var m := |xs| - 1;
      assert xs[0] in xs;
      assert forall x :: x in xs[1..] ==> x in xs;
      SumBetween(xs[1..], lo, hi);
      FileAudit.MulSucc(m, lo);
      FileAudit.MulSucc(m, hi);
    }
  }

  /** A total between `n * lo` and `n * hi` has its mean between `lo` and `hi`. */
  lemma MeanBetween(total: nat, n: nat, lo: nat, hi: nat)
    requires n > 0 && n * lo <= total <= n * hi
    ensures lo as real <= total as real / n as real <= hi as real
  {
    var t, m := total as real, n as real;
    assert (n * lo) as real == m * lo as real;
    assert (n * hi) as real == m * hi as real;
    assert t / m * m == t;
  }

  /** The minimum and maximum are sizes that occur and bound every size, and the mean lies
      between them. */
  lemma StatsBounds(v: string, sizes: seq<nat>)
    requires sizes != []
    ensures var r := StatsOf(v, sizes);
            r.minSize in sizes && r.maxSize in sizes
            && (forall x :: x in sizes ==> r.minSize <= x <= r.maxSize)
            && r.minSize as real <= r.meanSize <= r.maxSize as real
  {
    var lo, hi := Tally.Min(sizes), Tally.Max(sizes);
    SumBetween(sizes, lo, hi);
    MeanBetween(Tally.Sum(sizes), |sizes|, lo, hi);
  }

  /** One row per variable, in order, for the variables whose size list is not empty. */
  function StatsRows(vars: seq<string>, sizesOf: string -> seq<nat>): (r: seq<SizeStats>)
    ensures |r| <= |vars|
  {
    if vars == [] then []
    else
      var n := |vars| - 1;
      var sizes := sizesOf(vars[n]);
      StatsRows(vars[..n], sizesOf) + (if sizes == [] then [] else [StatsOf(vars[n], sizes)])
  }

  /** Every row is the statistics of a listed variable whose size list is not empty. */
  lemma {:induction false} StatsRowsRows(vars: seq<string>, sizesOf: string -> seq<nat>, row: SizeStats)
    requires row in StatsRows(vars, sizesOf)
    ensures row.variable in vars && sizesOf(row.variable) != []
    ensures row == StatsOf(row.variable, sizesOf(row.variable))
  {
    var n := |vars| - 1;
    if row in StatsRows(vars[..n], sizesOf) {
      StatsRowsRows(vars[..n], sizesOf, row);
      assert vars[..n] <= vars;
    }
    assert vars[n] in vars;
  }

  /** The `k`-th variable has its row when its size list is not empty. */
  lemma {:induction false} StatsRowsHasRow(vars: seq<string>, sizesOf: string -> seq<nat>, k: nat)
    requires k < |vars| && sizesOf(vars[k]) != []
    ensures StatsOf(vars[k], sizesOf(vars[k])) in StatsRows(vars, sizesOf)
    decreases |vars|
  {
    var n := |vars| - 1;
    if k < n {
      assert vars[..n][k] == vars[k];
      StatsRowsHasRow(vars[..n], sizesOf, k);
    }
  }

  /** The size list of one variable: the sizes of its files that exist. */
  function SizesOf(fs: FileSystem, root: string, days: seq<Stamp>): (f: string -> seq<nat>)
    requires DownloadQueue.AllValid(days)
  {
    v => ExistingSizes(fs, PathsOf(root, v, days))
  }

  /** `size_data`: one row per variable, in order, skipping variables with no file. */
  function SizeTable(fs: FileSystem, root: string, vars: seq<string>, days: seq<Stamp>): (r: seq<SizeStats>)
    requires DownloadQueue.AllValid(days)
    ensures |r| <= |vars|
  {
    StatsRows(vars, SizesOf(fs, root, days))
  }

  /** Every row is the statistics of an audited variable that has at least one file. */
  lemma SizeTableRows(fs: FileSystem, root: string, vars: seq<string>, days: seq<Stamp>, row: SizeStats)
    requires DownloadQueue.AllValid(days) && row in SizeTable(fs, root, vars, days)
    ensures row.variable in vars
    ensures ExistingSizes(fs, PathsOf(root, row.variable, days)) != []
    ensures row == StatsOf(row.variable, ExistingSizes(fs, PathsOf(root, row.variable, days)))
  {
    StatsRowsRows(vars, SizesOf(fs, root, days), row);
  }

  /** Every audited variable that has at least one file has its row. */
  lemma SizeTableHasRow(fs: FileSystem, root: string, vars: seq<string>, days: seq<Stamp>, v: string)
    requires DownloadQueue.AllValid(days) && v in vars
    requires ExistingSizes(fs, PathsOf(root, v, days)) != []
    ensures StatsOf(v, ExistingSizes(fs, PathsOf(root, v, days))) in SizeTable(fs, root, vars, days)
  {
    var k :| 0 <= k < |vars| && vars[k] == v;
    StatsRowsHasRow(vars, SizesOf(fs, root, days), k);
  }

  /** The enumerated days are valid stamps. */
  lemma DailyRangeValid(start: Date, end: Date)
    requires ValidDate(start) && ValidDate(end)
    ensures DownloadQueue.AllValid(DailyRange(start, end))
  {
    forall i | 0 <= i < |DailyRange(start, end)|
      ensures ValidStamp(DailyRange(start, end)[i])
    {
      StepsMembership(Midnight(start), Midnight(end), Daily, DailyRange(start, end)[i]);
    }
  }

  /** The inner `while current_date <= end_date` loop of one variable. */
  method CollectSizes(fs: FileSystem, root: string, v: string, start: Date, end: Date) returns (sizes: seq<nat>)
    requires ValidDate(start) && ValidDate(end)
    ensures DownloadQueue.AllValid(DailyRange(start, end))
    ensures sizes == ExistingSizes(fs, PathsOf(root, v, DailyRange(start, end)))
  {
    var current := Midnight(start);
    var last := Midnight(end);
    ghost var done: seq<Stamp> := [];
    sizes := [];
    while Instant(current) <= Instant(last)
      invariant ValidStamp(current) && DownloadQueue.AllValid(done)
      invariant done + Steps(current, last, Daily) == DailyRange(start, end)
      invariant sizes == ExistingSizes(fs, PathsOf(root, v, done))
      decreases Instant(last) - Instant(current)
    {
      var path := FileAudit.AuditPath(root, v, current.date);
      PathsSnoc(root, v, done, current);
      ExistingSizesSnoc(fs, PathsOf(root, v, done), path);
      if path in fs {
        sizes := sizes + [fs[path]];
      }
      FileAudit.NextOfSteps(done, current, last, DailyRange(start, end));
      done := done + [current];
      current := AddDay(current);
    }
    assert done == DailyRange(start, end);
  }

  /** `analyze_file_sizes()`: the statistics rows of the variables that have files. */
  method AnalyzeFileSizes(fs: FileSystem, root: string, vars: seq<string>, start: Date, end: Date)
    returns (table: seq<SizeStats>)
    requires ValidDate(start) && ValidDate(end)
    ensures DownloadQueue.AllValid(DailyRange(start, end))
    ensures table == SizeTable(fs, root, vars, DailyRange(start, end))
  {
    table := [];
    DailyRangeValid(start, end);
    for j := 0 to |vars|
      invariant table == SizeTable(fs, root, vars[..j], DailyRange(start, end))
    {
      assert vars[..j + 1][..j] == vars[..j];
      var sizes := CollectSizes(fs, root, vars[j], start, end);
      if sizes != [] {
        table := table + [StatsOf(vars[j], sizes)];
      }
    }
    assert vars[..|vars|] == vars;
  }

  // ---- analyze_value_distribution ----

  /** `count_dict` for one variable: `data == -9990`, `data == 0`, and the values that are neither. */
  datatype ValueCounts = ValueCounts(sentinel: nat, zero: nat, other: nat)

  /** The three counts over a list of values, one bucket per value. */
  function CountValues(values: seq<Option<real>>): (r: ValueCounts)
    ensures r.sentinel + r.zero + r.other == |values|
  {
    if values == [] then ValueCounts(0, 0, 0)
    else
      var n := |values| - 1;
      var c := CountValues(values[..n]);
      if values[n] == Some(MissingValue) then c.(sentinel := c.sentinel + 1)
      else if values[n] == Some(0.0) then c.(zero := c.zero + 1)
      else c.(other := c.other + 1)
  }

  /** The sentinel and zero buckets are the numbers of values equal to -9990 and to 0. */
  lemma {:induction false} CountValuesAgree(values: seq<Option<real>>)
    ensures CountValues(values).sentinel == Tally.Count(values, Some(MissingValue))
    ensures CountValues(values).zero == Tally.Count(values, Some(0.0))
  {
    if values != [] {
      var n := |values| - 1;
      CountValuesAgree(values[..n]);
      Tally.CountSnoc(values, Some(MissingValue));
      Tally.CountSnoc(values, Some(0.0));
    }
  }

  function AddCounts(a: ValueCounts, b: ValueCounts): ValueCounts
  {
    ValueCounts(a.sentinel + b.sentinel, a.zero + b.zero, a.other + b.other)
  }

  /** Counting two runs of values adds their counts. */
  lemma {:induction false} CountValuesAppend(a: seq<Option<real>>, b: seq<Option<real>>)
    ensures CountValues(a + b) == AddCounts(CountValues(a), CountValues(b))
    decreases |b|
  {
    if b == [] {
      assert a + b == a;
    } else {
      var k := |b| - 1;
      assert (a + b)[..|a| + k] == a + b[..k];
      CountValuesAppend(a, b[..k]);
    }
  }

  /** Whether `xr.open_dataset` and the `data` lookup succeed on an existing path. */
  predicate Loads(fs: FileSystem, contents: Contents, path: string)
  {
    path in fs && path in contents
  }

  /** The counts of one variable and `total_files`, the number of files that loaded. */
  datatype Distribution = Distribution(counts: ValueCounts, files: nat)

  /** The day loop of one variable: each file that loads adds its counts and one to
      `total_files`; a missing file or one that raises adds nothing. */
  function DistributionOf(fs: FileSystem, contents: Contents, paths: seq<string>): (r: Distribution)
    ensures r.files <= |paths|
  {
    if paths == [] then Distribution(ValueCounts(0, 0, 0), 0)
    else
      var n := |paths| - 1;
      var before := DistributionOf(fs, contents, paths[..n]);
      if Loads(fs, contents, paths[n]) then
        Distribution(AddCounts(before.counts, CountValues(contents[paths[n]])), before.files + 1)
      else before
  }

  lemma DistributionSnoc(fs: FileSystem, contents: Contents, paths: seq<string>, path: string)
    ensures DistributionOf(fs, contents, paths + [path]) ==
              var before := DistributionOf(fs, contents, paths);
              if Loads(fs, contents, path) then
                Distribution(AddCounts(before.counts, CountValues(contents[path])), before.files + 1)
              else before
  {
    assert (paths + [path])[..|paths|] == paths;
  }

  /** The visited paths whose file loads, in order. */
  function LoadedPaths(fs: FileSystem, contents: Contents, paths: seq<string>): (r: seq<string>)
    ensures forall p :: p in r <==> p in paths && Loads(fs, contents, p)
  {
    if paths == [] then []
    else
      var n := |paths| - 1;
      assert forall p :: p in paths <==> p in paths[..n] || p == paths[n];
      LoadedPaths(fs, contents, paths[..n]) + (if Loads(fs, contents, paths[n]) then [paths[n]] else [])
  }

  /** All values read from the files that load, file after file. */
  function LoadedValues(contents: Contents, loaded: seq<string>): seq<Option<real>>
    requires forall p :: p in loaded ==> p in contents
  {
    if loaded == [] then []
    else
      var n := |loaded| - 1;
      LoadedValues(contents, loaded[..n]) + contents[loaded[n]]
  }

  /** The three counts are those of all loaded values taken together, so they add up to
      the number of values read. */
  lemma {:induction false} DistributionCountsLoaded(fs: FileSystem, contents: Contents, paths: seq<string>)
    ensures var r := DistributionOf(fs, contents, paths).counts;
            r == CountValues(LoadedValues(contents, LoadedPaths(fs, contents, paths)))
            && r.sentinel + r.zero + r.other == |LoadedValues(contents, LoadedPaths(fs, contents, paths))|
  {
    if paths != [] {
      var n := |paths| - 1;
      var p := paths[n];
      DistributionCountsLoaded(fs, contents, paths[..n]);
      var front := LoadedPaths(fs, contents, paths[..n]);
      var before := DistributionOf(fs, contents, paths[..n]);
      if Loads(fs, contents, p) {
        var loaded := front + [p];
        assert LoadedPaths(fs, contents, paths) == loaded;
        assert loaded[..|front|] == front;
        var seen := LoadedValues(contents, front);
        assert LoadedValues(contents, loaded) == seen + contents[p];
        CountValuesAppend(seen, contents[p]);
        assert DistributionOf(fs, contents, paths).counts == AddCounts(before.counts, CountValues(contents[p]));
      } else {
        assert LoadedPaths(fs, contents, paths) == front;
        assert DistributionOf(fs, contents, paths) == before;
      }
    }
  }

  /** `total_files` is the number of visited files that load. */
  lemma {:induction false} DistributionFiles(fs: FileSystem, contents: Contents, paths: seq<string>)
    ensures DistributionOf(fs, contents, paths).files == |LoadedPaths(fs, contents, paths)|
  {
    if paths != [] {
      DistributionFiles(fs, contents, paths[..|paths| - 1]);
    }
  }

  /** The day loop of one variable. */
  method ScanValues(fs: FileSystem, contents: Contents, root: string, v: string, start: Date, end: Date)
    returns (r: Distribution)
    requires ValidDate(start) && ValidDate(end)
    ensures DownloadQueue.AllValid(DailyRange(start, end))
    ensures r == DistributionOf(fs, contents, PathsOf(root, v, DailyRange(start, end)))
  {
    var current := Midnight(start);
    var last := Midnight(end);
    ghost var done: seq<Stamp> := [];
    r := Distribution(ValueCounts(0, 0, 0), 0);
    while Instant(current) <= Instant(last)
      invariant ValidStamp(current) && DownloadQueue.AllValid(done)
      invariant done + Steps(current, last, Daily) == DailyRange(start, end)
      invariant r == DistributionOf(fs, contents, PathsOf(root, v, done))
      decreases Instant(last) - Instant(current)
    {
      var path := FileAudit.AuditPath(root, v, current.date);
      PathsSnoc(root, v, done, current);
      DistributionSnoc(fs, contents, PathsOf(root, v, done), path);
      if path in fs {
        if path in contents {
          var values := contents[path];
          r := Distribution(AddCounts(r.counts, CountValues(values)), r.files + 1);
        }
      }
      FileAudit.NextOfSteps(done, current, last, DailyRange(start, end));
      done := done + [current];
      current := AddDay(current);
    }
    assert done == DailyRange(start, end);
  }

  /** A row of the value distribution CSV. */
  datatype ValueRow = ValueRow(variable: string, counts: ValueCounts)

  /** One row per variable, in order, each with the counts `countsOf` gives it. */
  function ValueRows(vars: seq<string>, countsOf: string -> ValueCounts): (r: seq<ValueRow>)
    ensures |r| == |vars|
  {
    if vars == [] then []
    else
      var n := |vars| - 1;
      ValueRows(vars[..n], countsOf) + [ValueRow(vars[n], countsOf(vars[n]))]
  }

  /** The `i`-th row is that of the `i`-th variable. */
  lemma {:induction false} ValueRowsAt(vars: seq<string>, countsOf: string -> ValueCounts, i: nat)
    requires i < |vars|
    ensures ValueRows(vars, countsOf)[i] == ValueRow(vars[i], countsOf(vars[i]))
    decreases |vars|
  {
    var n := |vars| - 1;
    if i < n {
      assert vars[..n][i] == vars[i];
      ValueRowsAt(vars[..n], countsOf, i);
    }
  }

  /** The counts of one variable over the visited days. */
  function CountsOf(fs: FileSystem, contents: Contents, root: string, days: seq<Stamp>): (f: string -> ValueCounts)
    requires DownloadQueue.AllValid(days)
  {
    v => DistributionOf(fs, contents, PathsOf(root, v, days)).counts
  }

  /** The value distribution CSV: one row per variable. */
  function ValueTable(fs: FileSystem, contents: Contents, root: string, vars: seq<string>, days: seq<Stamp>): (r: seq<ValueRow>)
    requires DownloadQueue.AllValid(days)
    ensures |r| == |vars|
  {
    ValueRows(vars, CountsOf(fs, contents, root, days))
  }

  /** The `i`-th row holds the counts of the `i`-th variable's files. */
  lemma ValueTableAt(fs: FileSystem, contents: Contents, root: string, vars: seq<string>, days: seq<Stamp>, i: nat)
    requires DownloadQueue.AllValid(days) && i < |vars|
    ensures ValueTable(fs, contents, root, vars, days)[i]
            == ValueRow(vars[i], DistributionOf(fs, contents, PathsOf(root, vars[i], days)).counts)
  {
    ValueRowsAt(vars, CountsOf(fs, contents, root, days), i);
  }

  /** `analyze_value_distribution()`: one row per variable, in order. */
  method AnalyzeValueDistribution(fs: FileSystem, contents: Contents, root: string, vars: seq<string>, start: Date, end: Date)
    returns (rows: seq<ValueRow>)
    requires ValidDate(start) && ValidDate(end)
    ensures DownloadQueue.AllValid(DailyRange(start, end))
    ensures rows == ValueTable(fs, contents, root, vars, DailyRange(start, end))
  {
    rows := [];
    DailyRangeValid(start, end);
    for j := 0 to |vars|
      invariant rows == ValueTable(fs, contents, root, vars[..j], DailyRange(start, end))
    {
      assert vars[..j + 1][..j] == vars[..j];
      var r := ScanValues(fs, contents, root, vars[j], start, end);
      rows := rows + [ValueRow(vars[j], r.counts)];
    }
    assert vars[..|vars|] == vars;
  }
}
