/** RMSE_TEST/create_data/check_data_file_test.py: for every day of 2020 and 2021
    and every variable, whether the daily grid file exists, the size statistics of
    the files that do, and how their values split into the -9990 sentinel, zero
    and the rest.

    The file system is a map from path to size; the contents of the files that
    `xarray` can open are a map from path to the flattened `data` values, with
    `None` for NaN. */
module FileAudit {
  import opened Options
  import opened Text
  import opened Calendar
  import opened TimeRange
  import Tally
  import DownloadQueue

  type FileSystem = DownloadQueue.FileSystem

  /** The variables the script audits; its dates are `ConversionStart` to `ConversionEnd`. */
  const AuditVariables: seq<string> := ["ta", "rn_day"]

  /** `file_structure.format(...)` for one variable and day: the root joined (when the
      script starts) to the formatted directories and file name. */
  function AuditPath(root: string, variable: string, d: Date): string
    requires ValidDate(d)
  {
    Join(root, AuditTailText(variable, d))
  }

  /** `"org/sgd/{year}/{month:02d}/{day:02d}/sfc_grid_{var}_{date}0000.nc"` formatted. */
  function AuditTailText(variable: string, d: Date): string
    requires ValidDate(d)
  {
    "org/sgd/" + Decimal(d.year) + "/" + Pad2(d.month) + "/" + Pad2(d.day)
    + "/" + "sfc_grid_" + variable + "_" + YmdText(d) + "0000.nc"
  }

  /** Regrouping the pieces of a formatted path to the right. */
  lemma Regroup(p: string, y: string, s: string, m: string, dd: string, name: string)
    ensures p + y + s + m + s + dd + s + name == p + (y + (s + (m + (s + (dd + (s + name))))))
  {
  }

  /** The file name and the directories below the root, as one text. */
  lemma AuditTail(variable: string, d: Date)
    requires ValidDate(d)
    ensures AuditTailText(variable, d)
            == "org/sgd/" + (Decimal(d.year) + ("/" + (Pad2(d.month) + ("/" + (Pad2(d.day)
               + ("/" + DownloadQueue.GridFileName(variable, Midnight(d), Daily)))))))
  {
    var name := DownloadQueue.GridFileName(variable, Midnight(d), Daily);
    var y, m, dd := Decimal(d.year), Pad2(d.month), Pad2(d.day);
    assert name == "sfc_grid_" + variable + "_" + YmdText(d) + "0000.nc";
    assert AuditTailText(variable, d) == "org/sgd/" + y + "/" + m + "/" + dd + "/" + name;
    Regroup("org/sgd/", y, "/", m, dd, name);
  }

  /** The daily download's path, grouped the same way. */
  lemma DailySavePath(cfg: DownloadQueue.Config, d: Date)
    requires ValidDate(d) && cfg.freq == Daily
    ensures DownloadQueue.SavePath(cfg, Midnight(d))
            == cfg.baseDir + ("/" + ("org/sgd/" + (Decimal(d.year) + ("/" + (Pad2(d.month) + ("/" + (Pad2(d.day)
               + ("/" + DownloadQueue.GridFileName(cfg.variable, Midnight(d), Daily)))))))))
  {
  }

  /** The audited path is the one the daily download stores, for a root without a
      trailing slash. */
  lemma AuditPathIsSavePath(root: string, variable: string, d: Date, minSize: nat)
    requires ValidDate(d) && root != [] && root[|root| - 1] != '/'
    ensures AuditPath(root, variable, d)
            == DownloadQueue.SavePath(DownloadQueue.Config(root, variable, Daily, minSize), Midnight(d))
  {
    AuditTail(variable, d);
    DailySavePath(DownloadQueue.Config(root, variable, Daily, minSize), d);
  }

  // ---- find_missing_files ----

  /** A row of the missing-file CSV. */
  datatype MissingFile = MissingFile(variable: string, date: string, expectedPath: string)

  /** The missing file of one variable and day, if its file is absent. */
  function MissingOf(fs: FileSystem, root: string, variable: string, d: Date): (r: seq<MissingFile>)
    requires ValidDate(d)
    ensures r == [] <==> AuditPath(root, variable, d) in fs
  {
    var path := AuditPath(root, variable, d);
    if path in fs then [] else [MissingFile(variable, DashedText(d), path)]
  }

  /** The rows one day adds, in the order of `vars`. */
  function DayRows(fs: FileSystem, root: string, vars: seq<string>, d: Date): (r: seq<MissingFile>)
    requires ValidDate(d)
    ensures |r| <= |vars|
  {
    if vars == [] then []
    else
      var n := |vars| - 1;
      DayRows(fs, root, vars[..n], d) + MissingOf(fs, root, vars[n], d)
  }

  /** The missing-file list: day by day, and within a day in the order of `vars`. */
  function MissingRows(fs: FileSystem, root: string, vars: seq<string>, days: seq<Stamp>): seq<MissingFile>
    requires DownloadQueue.AllValid(days)
  {
    if days == [] then []
    else
      var n := |days| - 1;
      MissingRows(fs, root, vars, days[..n]) + DayRows(fs, root, vars, days[n].date)
  }

  /** The number of rows about `variable`. */
  function CountVariable(rows: seq<MissingFile>, variable: string): (n: nat)
    ensures n <= |rows|
  {
    if rows == [] then 0
    else
      var k := |rows| - 1;
      CountVariable(rows[..k], variable) + (if rows[k].variable == variable then 1 else 0)
  }

  lemma {:induction false} CountVariableAppend(a: seq<MissingFile>, b: seq<MissingFile>, variable: string)
    ensures CountVariable(a + b, variable) == CountVariable(a, variable) + CountVariable(b, variable)
    decreases |b|
  {
    if b == [] {
      assert a + b == a;
    } else {
      var k := |b| - 1;
      assert (a + b)[..|a| + k] == a + b[..k];
      CountVariableAppend(a, b[..k], variable);
    }
  }

  /** One audited file adds at most one row, and only about its own variable. */
  lemma MissingOfCount(fs: FileSystem, root: string, variable: string, d: Date, v: string)
    requires ValidDate(d)
    ensures CountVariable(MissingOf(fs, root, variable, d), v) <= if variable == v then 1 else 0
  {
    var rows := MissingOf(fs, root, variable, d);
    if rows != [] {
      assert rows[..0] == [];
    }
  }

  /** A day adds at most as many missing files of a variable as the variable occurs in `vars`. */
  lemma {:induction false} DayRowsCount(fs: FileSystem, root: string, vars: seq<string>, d: Date, v: string)
    requires ValidDate(d)
    ensures CountVariable(DayRows(fs, root, vars, d), v) <= Tally.Count(vars, v)
  {
    if vars != [] {
      var n := |vars| - 1;
      var front, last := DayRows(fs, root, vars[..n], d), MissingOf(fs, root, vars[n], d);
      DayRowsCount(fs, root, vars[..n], d, v);
      CountVariableAppend(front, last, v);
      MissingOfCount(fs, root, vars[n], d, v);
      Tally.CountSnoc(vars, v);
    }
  }

  /** Missing files of a variable never outnumber the files expected of it. */
  lemma {:induction false} MissingCountBound(fs: FileSystem, root: string, vars: seq<string>, days: seq<Stamp>, v: string)
    requires DownloadQueue.AllValid(days)
    ensures CountVariable(MissingRows(fs, root, vars, days), v) <= |days| * Tally.Count(vars, v)
  {
    if days != [] {
      var n := |days| - 1;
      MissingCountBound(fs, root, vars, days[..n], v);
      DayRowsCount(fs, root, vars, days[n].date, v);
      CountVariableAppend(MissingRows(fs, root, vars, days[..n]), DayRows(fs, root, vars, days[n].date), v);
      MulSucc(n, Tally.Count(vars, v));
    }
  }

  /** One day's rows: the audited variables whose file for that day is absent. */
  lemma {:induction false} DayRowsMembership(fs: FileSystem, root: string, vars: seq<string>, d: Date, r: MissingFile)
    requires ValidDate(d)
    ensures r in DayRows(fs, root, vars, d) <==>
              r.variable in vars && r.date == DashedText(d) && r.expectedPath == AuditPath(root, r.variable, d)
              && r.expectedPath !in fs
  {
    if vars != [] {
      var n := |vars| - 1;
      DayRowsMembership(fs, root, vars[..n], d, r);
      assert vars == vars[..n] + [vars[n]];
    }
  }

  /** A file is listed as missing exactly when its variable is audited, its day is
      enumerated and its path is absent. */
  lemma {:induction false} MissingRowsMembership(fs: FileSystem, root: string, vars: seq<string>, days: seq<Stamp>, v: string, t: Stamp)
    requires DownloadQueue.AllValid(days) && ValidStamp(t)
    requires forall k :: 0 <= k < |days| ==> days[k].hour == 0 && days[k].minute == 0
    requires t.hour == 0 && t.minute == 0
    ensures MissingFile(v, DashedText(t.date), AuditPath(root, v, t.date)) in MissingRows(fs, root, vars, days)
            <==> v in vars && t in days && AuditPath(root, v, t.date) !in fs
  {
    if days != [] {
      var n := |days| - 1;
      var r := MissingFile(v, DashedText(t.date), AuditPath(root, v, t.date));
      MissingRowsMembership(fs, root, vars, days[..n], v, t);
      DayRowsMembership(fs, root, vars, days[n].date, r);
      assert days == days[..n] + [days[n]];
      if r.date == DashedText(days[n].date) {
        Calendar.DashedTextInjective(t.date, days[n].date);
      }
    }
  }

  /** The three counter dictionaries of `find_missing_files`, keyed by variable. */
  datatype Counters = Counters(total: map<string, nat>, missing: map<string, nat>, valid: map<string, nat>)

  /** The count a dictionary holds for `v` (every audited variable is a key). */
  function Get(m: map<string, nat>, v: string): nat
  {
    if v in m then m[v] else 0
  }

  /** `{var: 0 for var in variables}` for each dictionary. */
  function ZeroCounters(vars: seq<string>): (c: Counters)
    ensures forall v :: v in vars ==> v in c.total && v in c.missing && v in c.valid
  {
    var zero := map v | v in vars :: 0;
    Counters(zero, zero, zero)
  }

  /** One step of the inner loop: `total_files[var] += 1`, then `valid_files[var] += 1`
      if the file is present and `missing_files[var] += 1` if not. */
  function Bump(c: Counters, v: string, present: bool): (r: Counters)
    ensures Get(r.total, v) == Get(c.total, v) + 1
  {
    var c1 := c.(total := c.total[v := Get(c.total, v) + 1]);
    if present then c1.(valid := c.valid[v := Get(c.valid, v) + 1])
    else c1.(missing := c.missing[v := Get(c.missing, v) + 1])
  }

  /** A step touches only the bumped variable: its total by one, and by one either its
      valid count (present) or its missing count (absent). */
  lemma BumpGet(c: Counters, w: string, present: bool, v: string)
    ensures var r := Bump(c, w, present);
            Get(r.total, v) == Get(c.total, v) + (if v == w then 1 else 0)
            && Get(r.missing, v) == Get(c.missing, v) + (if v == w && !present then 1 else 0)
            && Get(r.valid, v) == Get(c.valid, v) + (if v == w && present then 1 else 0)
  {
  }

  /** The counters after the inner loop of day `d`. */
  function DayCounters(c: Counters, fs: FileSystem, root: string, vars: seq<string>, d: Date): Counters
    requires ValidDate(d)
  {
    if vars == [] then c
    else
      var n := |vars| - 1;
      Bump(DayCounters(c, fs, root, vars[..n], d), vars[n], AuditPath(root, vars[n], d) in fs)
  }

  /** The counters after the outer loop has passed over `days`. */
  function CountersAfter(c: Counters, fs: FileSystem, root: string, vars: seq<string>, days: seq<Stamp>): Counters
    requires DownloadQueue.AllValid(days)
  {
    if days == [] then c
    else
      var n := |days| - 1;
      DayCounters(CountersAfter(c, fs, root, vars, days[..n]), fs, root, vars, days[n].date)
  }

  /** The inner loop adds one expected file per occurrence of the variable in `vars`. */
  lemma {:induction false} DayTotal(c: Counters, fs: FileSystem, root: string, vars: seq<string>, d: Date, v: string)
    requires ValidDate(d)
    ensures Get(DayCounters(c, fs, root, vars, d).total, v) == Get(c.total, v) + Tally.Count(vars, v)
  {
    if vars != [] {
      var n := |vars| - 1;
      var w := vars[n];
      DayTotal(c, fs, root, vars[..n], d, v);
      BumpGet(DayCounters(c, fs, root, vars[..n], d), w, AuditPath(root, w, d) in fs, v);
      Tally.CountSnoc(vars, v);
    }
  }

  /** The inner loop counts as missing exactly the rows it lists for the variable. */
  lemma {:induction false} DayMissing(c: Counters, fs: FileSystem, root: string, vars: seq<string>, d: Date, v: string)
    requires ValidDate(d)
    ensures Get(DayCounters(c, fs, root, vars, d).missing, v)
            == Get(c.missing, v) + CountVariable(DayRows(fs, root, vars, d), v)
  {
    if vars != [] {
      var n := |vars| - 1;
      var w := vars[n];
      var present := AuditPath(root, w, d) in fs;
      DayMissing(c, fs, root, vars[..n], d, v);
      BumpGet(DayCounters(c, fs, root, vars[..n], d), w, present, v);
      var added := MissingOf(fs, root, w, d);
      CountVariableAppend(DayRows(fs, root, vars[..n], d), added, v);
      assert CountVariable(added, v) == if v == w && !present then 1 else 0;
    }
  }

  /** Every file the inner loop expects is counted as either valid or missing. */
  lemma {:induction false} DayValid(c: Counters, fs: FileSystem, root: string, vars: seq<string>, d: Date, v: string)
    requires ValidDate(d)
    ensures var r := DayCounters(c, fs, root, vars, d);
            Get(r.valid, v) + Get(r.missing, v) == Get(c.valid, v) + Get(c.missing, v) + Tally.Count(vars, v)
  {
    if vars != [] {
      var n := |vars| - 1;
      var w := vars[n];
      DayValid(c, fs, root, vars[..n], d, v);
      BumpGet(DayCounters(c, fs, root, vars[..n], d), w, AuditPath(root, w, d) in fs, v);
      Tally.CountSnoc(vars, v);
    }
  }

  /** After the scan `total_files[v]` is the number of days times the occurrences of `v`. */
  lemma {:induction false} CountersTotal(fs: FileSystem, root: string, vars: seq<string>, days: seq<Stamp>, v: string)
    requires DownloadQueue.AllValid(days) && v in vars
    ensures Get(CountersAfter(ZeroCounters(vars), fs, root, vars, days).total, v) == |days| * Tally.Count(vars, v)
  {
    if days != [] {
      var n := |days| - 1;
      CountersTotal(fs, root, vars, days[..n], v);
      DayTotal(CountersAfter(ZeroCounters(vars), fs, root, vars, days[..n]), fs, root, vars, days[n].date, v);
      MulSucc(n, Tally.Count(vars, v));
    }
  }

  /** After the scan `missing_files[v]` is the number of missing-file rows about `v`. */
  lemma {:induction false} CountersMissing(fs: FileSystem, root: string, vars: seq<string>, days: seq<Stamp>, v: string)
    requires DownloadQueue.AllValid(days) && v in vars
    ensures Get(CountersAfter(ZeroCounters(vars), fs, root, vars, days).missing, v)
            == CountVariable(MissingRows(fs, root, vars, days), v)
  {
    if days != [] {
      var n := |days| - 1;
      CountersMissing(fs, root, vars, days[..n], v);
      DayMissing(CountersAfter(ZeroCounters(vars), fs, root, vars, days[..n]), fs, root, vars, days[n].date, v);
      CountVariableAppend(MissingRows(fs, root, vars, days[..n]), DayRows(fs, root, vars, days[n].date), v);
    }
  }

  /** After the scan `valid_files[v] + missing_files[v] == total_files[v]`. */
  lemma {:induction false} CountersValid(fs: FileSystem, root: string, vars: seq<string>, days: seq<Stamp>, v: string)
    requires DownloadQueue.AllValid(days) && v in vars
    ensures var r := CountersAfter(ZeroCounters(vars), fs, root, vars, days);
            Get(r.valid, v) + Get(r.missing, v) == Get(r.total, v)
  {
    if days != [] {
      var n := |days| - 1;
      var before := CountersAfter(ZeroCounters(vars), fs, root, vars, days[..n]);
      CountersValid(fs, root, vars, days[..n], v);
      DayTotal(before, fs, root, vars, days[n].date, v);
      DayValid(before, fs, root, vars, days[n].date, v);
    }
  }

  /** A variable whose every file is present has no missing files and all its files valid. */
  lemma AllPresentNoneMissing(fs: FileSystem, root: string, vars: seq<string>, days: seq<Stamp>, v: string)
    requires DownloadQueue.AllValid(days) && v in vars
    requires forall k :: 0 <= k < |days| ==> AuditPath(root, v, days[k].date) in fs
    ensures var r := CountersAfter(ZeroCounters(vars), fs, root, vars, days);
            Get(r.missing, v) == 0 && Get(r.valid, v) == Get(r.total, v)
  {
    CountersMissing(fs, root, vars, days, v);
    CountersValid(fs, root, vars, days, v);
    var rows := MissingRows(fs, root, vars, days);
    if CountVariable(rows, v) != 0 {
      var k := CountVariablePositive(rows, v);
      var row := rows[k];
      assert row in rows;
      MissingRowsShape(fs, root, vars, days, row);
    }
  }

  /** The position of a row about `v` when there is one. */
  lemma {:induction false} CountVariablePositive(rows: seq<MissingFile>, v: string) returns (k: nat)
    requires CountVariable(rows, v) > 0
    ensures k < |rows| && rows[k].variable == v
  {
    var n := |rows| - 1;
    if rows[n].variable == v {
      k := n;
    } else {
      k := CountVariablePositive(rows[..n], v);
    }
  }

  /** Every listed row names an audited variable, one of the days, and that day's
      absent path for the variable. */
  lemma {:induction false} MissingRowsShape(fs: FileSystem, root: string, vars: seq<string>, days: seq<Stamp>, row: MissingFile)
    requires DownloadQueue.AllValid(days) && row in MissingRows(fs, root, vars, days)
    ensures row.variable in vars && row.expectedPath !in fs
    ensures exists k :: 0 <= k < |days| && row.expectedPath == AuditPath(root, row.variable, days[k].date)
  {
    var n := |days| - 1;
    if row in MissingRows(fs, root, vars, days[..n]) {
      MissingRowsShape(fs, root, vars, days[..n], row);
      var k :| 0 <= k < n && row.expectedPath == AuditPath(root, row.variable, days[..n][k].date);
      assert days[..n][k] == days[k];
    } else {
      DayRowsMembership(fs, root, vars, days[n].date, row);
    }
  }

  lemma MulSucc(n: nat, c: nat)
    ensures (n + 1) * c == n * c + c
  {
  }

  /** Auditing one more variable of a day appends its row, if any, and applies its step. */
  lemma DaySnoc(fs: FileSystem, root: string, vars: seq<string>, d: Date, j: nat, c0: Counters)
    requires ValidDate(d) && j < |vars|
    ensures DayRows(fs, root, vars[..j + 1], d) == DayRows(fs, root, vars[..j], d) + MissingOf(fs, root, vars[j], d)
    ensures DayCounters(c0, fs, root, vars[..j + 1], d)
            == Bump(DayCounters(c0, fs, root, vars[..j], d), vars[j], AuditPath(root, vars[j], d) in fs)
  {
    assert vars[..j + 1][..j] == vars[..j];
  }

  /** The inner `for var in variables` loop of one day. */
  method ScanDay(fs: FileSystem, root: string, vars: seq<string>, d: Date, c0: Counters)
    returns (rows: seq<MissingFile>, c: Counters)
    requires ValidDate(d)
    ensures rows == DayRows(fs, root, vars, d)
    ensures c == DayCounters(c0, fs, root, vars, d)
  {
    rows := [];
    c := c0;
    for j := 0 to |vars|
      invariant rows == DayRows(fs, root, vars[..j], d)
      invariant c == DayCounters(c0, fs, root, vars[..j], d)
    {
      var v := vars[j];
      var path := AuditPath(root, v, d);
      DaySnoc(fs, root, vars, d, j, c0);
      c := Bump(c, v, path in fs);
      if path !in fs {
        rows := rows + [MissingFile(v, DashedText(d), path)];
      }
    }
    assert vars[..|vars|] == vars;
  }

  /** One turn of the day loop moves the current day from the pending steps to the done ones. */
  lemma NextOfSteps(done: seq<Stamp>, current: Stamp, last: Stamp, all: seq<Stamp>)
    requires ValidStamp(current) && ValidStamp(last) && Instant(current) <= Instant(last)
    requires done + Steps(current, last, Daily) == all
    ensures (done + [current]) + Steps(AddDay(current), last, Daily) == all
  {
    assert Steps(current, last, Daily) == [current] + Steps(AddDay(current), last, Daily);
  }

  /** Scanning one more day appends its rows and applies its counter updates. */
  lemma ScanSnoc(fs: FileSystem, root: string, vars: seq<string>, days: seq<Stamp>, day: Stamp, c0: Counters)
    requires DownloadQueue.AllValid(days) && ValidStamp(day)
    ensures DownloadQueue.AllValid(days + [day])
    ensures MissingRows(fs, root, vars, days + [day]) == MissingRows(fs, root, vars, days) + DayRows(fs, root, vars, day.date)
    ensures CountersAfter(c0, fs, root, vars, days + [day])
            == DayCounters(CountersAfter(c0, fs, root, vars, days), fs, root, vars, day.date)
  {
    assert (days + [day])[..|days|] == days;
  }

  /** `find_missing_files()` over the days from `start` to `end`: the CSV rows and the
      three counter dictionaries. */
  method FindMissingFiles(fs: FileSystem, root: string, vars: seq<string>, start: Date, end: Date)
    returns (rows: seq<MissingFile>, c: Counters)
    requires ValidDate(start) && ValidDate(end)
    ensures DownloadQueue.AllValid(DailyRange(start, end))
    ensures rows == MissingRows(fs, root, vars, DailyRange(start, end))
    ensures c == CountersAfter(ZeroCounters(vars), fs, root, vars, DailyRange(start, end))
  {
    var current := Midnight(start);
    var last := Midnight(end);
    ghost var done: seq<Stamp> := [];
    rows := [];
    c := ZeroCounters(vars);
    while Instant(current) <= Instant(last)
      invariant ValidStamp(current) && DownloadQueue.AllValid(done)
      invariant done + Steps(current, last, Daily) == DailyRange(start, end)
      invariant rows == MissingRows(fs, root, vars, done)
      invariant c == CountersAfter(ZeroCounters(vars), fs, root, vars, done)
      decreases Instant(last) - Instant(current)
    {
      var dayRows, c' := ScanDay(fs, root, vars, current.date, c);
      ScanSnoc(fs, root, vars, done, current, ZeroCounters(vars));
      rows := rows + dayRows;
      c := c';
      NextOfSteps(done, current, last, DailyRange(start, end));
      done := done + [current];
      current := AddDay(current);
    }
    assert done == DailyRange(start, end);
  }
}
