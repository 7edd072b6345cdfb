/** The download scripts RMSE_TEST_2/PROG/create_data/create_data.py and
    RMSE_TEST/create_data/create_data_0.py: which grid files a time range
    should produce, which of them still have to be fetched, the request
    each queued file becomes, and what is reported as failed.

    The file system is a finite map from path to size in bytes. The
    network is an oracle: each request either fails (`FetchFailed`) or
    writes a file of some size (`Fetched`). */
module DownloadQueue {
  import opened Options
  import opened Text
  import opened Calendar
  import opened TimeRange

  type FileSystem = map<string, nat>

  /** The settings both scripts hard-code in `main`. */
  datatype Config = Config(baseDir: string, variable: string, freq: Freq, minSize: nat)

  /** One outcome of `requests.get` followed by writing the body to disk. */
  datatype Fetch = FetchFailed | Fetched(size: nat)

  /** A create_data.py queue entry: the `%Y%m%d` text and the target path. */
  datatype QueueEntry = QueueEntry(dateText: string, path: string)

  /** A create_data_0.py queue entry: the full timestamp and the target path. */
  datatype QueueItem = QueueItem(date: Stamp, path: string)

  /** A download task of create_data.py (the minimum size is in `Config`). */
  datatype Task = Task(url: string, path: string)

  /** A create_data_0.py failure record: the request time text and the path. */
  datatype FailedItem = FailedItem(tm: string, path: string)

  predicate AllValid(ts: seq<Stamp>)
  {
    forall i :: 0 <= i < |ts| ==> ValidStamp(ts[i])
  }

  // ---- file names ----

  /** `sfc_grid_{var}_{YYYYMMDD}{HH}00.nc` hourly, `sfc_grid_{var}_{YYYYMMDD}0000.nc` daily. */
  function GridFileName(variable: string, t: Stamp, freq: Freq): string
    requires ValidStamp(t)
  {
    if freq == Hourly then "sfc_grid_" + variable + "_" + YmdText(t.date) + Pad2(t.hour) + "00.nc"
    else "sfc_grid_" + variable + "_" + YmdText(t.date) + "0000.nc"
  }

  /** `{base_dir}/org/sgd/{year}/{month:02d}/{day:02d}/{filename}`. */
  function SavePath(cfg: Config, t: Stamp): string
    requires ValidStamp(t)
  {
    cfg.baseDir + "/org/sgd/" + Decimal(t.date.year) + "/" + Pad2(t.date.month) + "/"
    + Pad2(t.date.day) + "/" + GridFileName(cfg.variable, t, cfg.freq)
  }

  /** The stamp a file name encodes: the hour with zero minutes, or midnight in daily mode. */
  function FileStamp(t: Stamp, freq: Freq): (r: Stamp)
    requires ValidStamp(t)
    ensures ValidStamp(r) && r.date == t.date && r.minute == 0
    ensures freq == Daily ==> r.hour == 0
  {
    if freq == Hourly then Stamp(t.date, t.hour, 0) else Midnight(t.date)
  }

  /** A grid file name is `sfc_grid_{var}_` followed by the 12-digit text of its stamp and `.nc`. */
  lemma GridFileNameStamp(variable: string, t: Stamp, freq: Freq)
    requires ValidStamp(t)
    ensures GridFileName(variable, t, freq)
            == "sfc_grid_" + variable + "_" + StampText(FileStamp(t, freq)) + ".nc"
  {
  }

  lemma StampTextDigits(t: Stamp)
    requires ValidStamp(t)
    ensures AllDigits(StampText(t))
  {
    var s := StampText(t);
    var a, b, c, d, e := YearText(t.date.year), Pad2(t.date.month), Pad2(t.date.day), Pad2(t.hour), Pad2(t.minute);
    assert s == a + b + c + d + e;
    forall i | 0 <= i < |s|
      ensures IsDigit(s[i])
    {
      if i < |a| { assert s[i] == a[i]; }
      else if i < |a| + 2 { assert s[i] == b[i - |a|]; }
      else if i < |a| + 4 { assert s[i] == c[i - |a| - 2]; }
      else if i < |a| + 6 { assert s[i] == d[i - |a| - 4]; }
      else { assert s[i] == e[i - |a| - 6]; }
    }
  }

  /** The file-name suffix parse of get_excluded_date_4.py (text after the last `_`
      of the base name, before the first `.`) recovers the stamp of every saved file
      with a four-digit year, so the files these scripts write are the ones that
      script recognises. */
  lemma SavePathSuffixParses(cfg: Config, t: Stamp)
    requires ValidStamp(t) && 1000 <= t.date.year < 10000
    requires '/' !in cfg.variable
    ensures ParseStampText(Suffix(SavePath(cfg, t)))
            == Some(FileStamp(t, cfg.freq))
  {
    var u := FileStamp(t, cfg.freq);
    var name := GridFileName(cfg.variable, t, cfg.freq);
    var digits := StampText(u);
    GridFileNameStamp(cfg.variable, t, cfg.freq);
    ParseStampTextRoundTrip(u);
    StampTextDigits(u);
    var dir := cfg.baseDir + "/org/sgd/" + Decimal(t.date.year) + "/" + Pad2(t.date.month) + "/" + Pad2(t.date.day);
    assert SavePath(cfg, t) == dir + ['/'] + name;
    assert '/' !in name by {
      assert name == "sfc_grid_" + cfg.variable + "_" + digits + ".nc";
      forall i | 0 <= i < |name|
        ensures name[i] != '/'
      {
        if i < 9 { }
        else if i < 9 + |cfg.variable| { assert name[i] == cfg.variable[i - 9]; }
        else if i == 9 + |cfg.variable| { }
        else if i < 22 + |cfg.variable| { assert name[i] == digits[i - 10 - |cfg.variable|]; }
        else { }
      }
    }
    AfterLastSplit(dir, name, '/');
    var tail := digits + ".nc";
    assert '_' !in tail by {
      forall i | 0 <= i < |tail|
        ensures tail[i] != '_'
      {
        if i < 12 { assert tail[i] == digits[i]; }
      }
    }
    assert name == ("sfc_grid_" + cfg.variable) + ['_'] + tail;
    AfterLastSplit("sfc_grid_" + cfg.variable, tail, '_');
    assert '.' !in digits by {
      forall i | 0 <= i < |digits|
        ensures digits[i] != '.'
      {
        assert IsDigit(digits[i]);
      }
    }
    assert tail == digits + ['.'] + "nc";
    BeforeFirstSplit(digits, "nc", '.');
  }

  // ---- scan_files ----

  /** The condition of `scan_files`: the file is absent or smaller than the minimum. */
  predicate NeedsDownload(fs: FileSystem, path: string, minSize: nat)
  {
    path !in fs || fs[path] < minSize
  }

  /** The stamps of `ts` whose file still has to be fetched, in enumeration order. */
  function Selected(fs: FileSystem, cfg: Config, ts: seq<Stamp>): (r: seq<Stamp>)
    requires AllValid(ts)
    ensures |r| <= |ts| && AllValid(r)
  {
    if ts == [] then []
    else
      var t := ts[|ts| - 1];
      Selected(fs, cfg, ts[..|ts| - 1])
      + (if NeedsDownload(fs, SavePath(cfg, t), cfg.minSize) then [t] else [])
  }

  /** One more enumerated stamp adds itself to the selection exactly when its file needs downloading. */
  lemma SelectedSnoc(fs: FileSystem, cfg: Config, ts: seq<Stamp>, i: nat)
    requires AllValid(ts) && i < |ts|
    ensures AllValid(ts[..i]) && AllValid(ts[..i + 1])
    ensures Selected(fs, cfg, ts[..i + 1])
            == Selected(fs, cfg, ts[..i]) + (if NeedsDownload(fs, SavePath(cfg, ts[i]), cfg.minSize) then [ts[i]] else [])
  {
    assert ts[..i + 1][..i] == ts[..i];
  }

  /** A stamp is queued exactly when it is enumerated and its file needs downloading. */
  lemma {:induction false} SelectedMembership(fs: FileSystem, cfg: Config, ts: seq<Stamp>, t: Stamp)
    requires AllValid(ts)
    ensures t in Selected(fs, cfg, ts) <==> t in ts && NeedsDownload(fs, SavePath(cfg, t), cfg.minSize)
  {
    if ts != [] {
      SelectedMembership(fs, cfg, ts[..|ts| - 1], t);
      assert ts == ts[..|ts| - 1] + [ts[|ts| - 1]];
    }
  }

  /** Every queued stamp comes from the enumeration, so queue order is enumeration order. */
  lemma {:induction false} SelectedIncreasing(fs: FileSystem, cfg: Config, ts: seq<Stamp>)
    requires Increasing(ts)
    ensures Increasing(Selected(fs, cfg, ts))
  {
    if ts != [] {
      var front := ts[..|ts| - 1];
      assert Increasing(front);
      SelectedIncreasing(fs, cfg, front);
      var r := Selected(fs, cfg, ts);
      var rf := Selected(fs, cfg, front);
      forall i, j | 0 <= i < j < |r|
        ensures ValidStamp(r[i]) && ValidStamp(r[j]) && Instant(r[i]) < Instant(r[j])
      {
        if j == |rf| {
          SelectedMembership(fs, cfg, front, r[i]);
          assert r[i] == rf[i];
          var k :| 0 <= k < |front| && front[k] == r[i];
          assert r[j] == ts[|ts| - 1];
        }
      }
    }
  }

  /** The stamps of the time range from `start` to `end` whose file has to be fetched. */
  function Pending(fs: FileSystem, cfg: Config, start: Date, end: Date): (r: seq<Stamp>)
    requires ValidDate(start) && ValidDate(end)
    ensures Increasing(r)
    ensures forall t :: t in r <==> t in Enumeration(start, end, cfg.freq) && ValidStamp(t)
                                    && NeedsDownload(fs, SavePath(cfg, t), cfg.minSize)
  {
    EnumerationIncreasing(start, end, cfg.freq);
    var ts := Enumeration(start, end, cfg.freq);
    SelectedIncreasing(fs, cfg, ts);
    forall t
      ensures t in Selected(fs, cfg, ts) <==> t in ts && NeedsDownload(fs, SavePath(cfg, t), cfg.minSize)
    {
      SelectedMembership(fs, cfg, ts, t);
    }
    Selected(fs, cfg, ts)
  }

  /** create_data.py keeps the `%Y%m%d` text and the path. */
  function Entry(cfg: Config, t: Stamp): QueueEntry
    requires ValidStamp(t)
  {
    QueueEntry(YmdText(t.date), SavePath(cfg, t))
  }

  function Entries(cfg: Config, ts: seq<Stamp>): (r: seq<QueueEntry>)
    requires AllValid(ts)
    ensures |r| == |ts| && forall i :: 0 <= i < |ts| ==> r[i] == Entry(cfg, ts[i])
  {
    seq(|ts|, i requires 0 <= i < |ts| => Entry(cfg, ts[i]))
  }

  lemma EntriesSnoc(cfg: Config, ts: seq<Stamp>, t: Stamp)
    requires AllValid(ts) && ValidStamp(t)
    ensures AllValid(ts + [t]) && Entries(cfg, ts + [t]) == Entries(cfg, ts) + [Entry(cfg, t)]
  {
    assert AllValid(ts + [t]);
    assert Entries(cfg, ts + [t]) == Entries(cfg, ts) + [Entry(cfg, t)];
  }

  /** create_data_0.py keeps the timestamp itself and the path. */
  function Items(cfg: Config, ts: seq<Stamp>): (r: seq<QueueItem>)
    requires AllValid(ts)
    ensures |r| == |ts| && forall i :: 0 <= i < |ts| ==> r[i] == QueueItem(ts[i], SavePath(cfg, ts[i]))
  {
    seq(|ts|, i requires 0 <= i < |ts| => QueueItem(ts[i], SavePath(cfg, ts[i])))
  }

  lemma ItemsSnoc(cfg: Config, ts: seq<Stamp>, t: Stamp)
    requires AllValid(ts) && ValidStamp(t)
    ensures AllValid(ts + [t]) && Items(cfg, ts + [t]) == Items(cfg, ts) + [QueueItem(t, SavePath(cfg, t))]
  {
    assert AllValid(ts + [t]);
    assert Items(cfg, ts + [t]) == Items(cfg, ts) + [QueueItem(t, SavePath(cfg, t))];
  }

  /** The loop body of `scan_files` over a given time range (create_data.py). */
  method QueueEntries(fs: FileSystem, cfg: Config, range: seq<Stamp>) returns (queue: seq<QueueEntry>)
    requires AllValid(range)
    ensures queue == Entries(cfg, Selected(fs, cfg, range))
  {
    queue := [];
    for i := 0 to |range|
      invariant queue == Entries(cfg, Selected(fs, cfg, range[..i]))
    {
      var t := range[i];
      var path := SavePath(cfg, t);
      SelectedSnoc(fs, cfg, range, i);
      if NeedsDownload(fs, path, cfg.minSize) {
        EntriesSnoc(cfg, Selected(fs, cfg, range[..i]), t);
        queue := queue + [QueueEntry(YmdText(t.date), path)];
      }
    }
    assert range[..|range|] == range;
  }

  /** `scan_files` of create_data.py. */
  method ScanFiles(fs: FileSystem, start: Date, end: Date, cfg: Config) returns (queue: seq<QueueEntry>)
    requires ValidDate(start) && ValidDate(end)
    ensures queue == Entries(cfg, Pending(fs, cfg, start, end))
  {
    var range := GetTimeRange(start, end, cfg.freq);
    EnumerationIncreasing(start, end, cfg.freq);
    queue := QueueEntries(fs, cfg, range);
  }

  /** The loop body of `scan_files` over a given time range (create_data_0.py). */
  method QueueItems(fs: FileSystem, cfg: Config, range: seq<Stamp>) returns (queue: seq<QueueItem>)
    requires AllValid(range)
    ensures queue == Items(cfg, Selected(fs, cfg, range))
  {
    queue := [];
    for i := 0 to |range|
      invariant queue == Items(cfg, Selected(fs, cfg, range[..i]))
    {
      var t := range[i];
      var path := SavePath(cfg, t);
      SelectedSnoc(fs, cfg, range, i);
      if NeedsDownload(fs, path, cfg.minSize) {
        ItemsSnoc(cfg, Selected(fs, cfg, range[..i]), t);
        queue := queue + [QueueItem(t, path)];
      }
    }
    assert range[..|range|] == range;
  }

  /** `scan_files` of create_data_0.py. */
  method ScanItems(fs: FileSystem, start: Date, end: Date, cfg: Config) returns (queue: seq<QueueItem>)
    requires ValidDate(start) && ValidDate(end)
    ensures queue == Items(cfg, Pending(fs, cfg, start, end))
  {
    var range := GetTimeRange(start, end, cfg.freq);
    EnumerationIncreasing(start, end, cfg.freq);
    queue := QueueItems(fs, cfg, range);
  }

  // ---- distinct target paths ----

  /** A stamp a saved file is named after: a whole hour (midnight in daily mode)
      with a four-digit year. */
  predicate OnFileGrid(t: Stamp, freq: Freq)
  {
    ValidStamp(t) && 1000 <= t.date.year < 10000 && FileStamp(t, freq) == t
  }

  /** Two grid stamps share a save path only when they are the same stamp. */
  lemma SavePathInjective(cfg: Config, t1: Stamp, t2: Stamp)
    requires OnFileGrid(t1, cfg.freq) && OnFileGrid(t2, cfg.freq) && '/' !in cfg.variable
    ensures SavePath(cfg, t1) == SavePath(cfg, t2) <==> t1 == t2
  {
    SavePathSuffixParses(cfg, t1);
    SavePathSuffixParses(cfg, t2);
  }

  /** A whole number of hours after a whole hour is a whole hour. */
  lemma WholeHourClock(day: int, hour: int, minute: int, first: int)
    requires 0 <= minute < 60
    requires (day * 1440 + hour * 60 + minute - (first * 1440 + 60)) % 60 == 0
    ensures minute == 0
  {
    assert day * 1440 + hour * 60 + minute - (first * 1440 + 60) == (day * 24 + hour - first * 24 - 1) * 60 + minute;
  }

  /** A whole number of days after midnight is midnight. */
  lemma WholeDayClock(day: int, hour: int, minute: int, first: int)
    requires 0 <= hour < 24 && 0 <= minute < 60
    requires (day * 1440 + hour * 60 + minute - first * 1440) % 1440 == 0
    ensures hour == 0 && minute == 0
  {
    assert day * 1440 + hour * 60 + minute - first * 1440 == (day - first) * 1440 + (hour * 60 + minute);
  }

  /** For start and end years from 1000 to 9998, the range of `scan_files` holds grid stamps only. */
  lemma EnumerationOnGrid(start: Date, end: Date, freq: Freq, t: Stamp)
    requires ValidDate(start) && ValidDate(end) && 1000 <= start.year && end.year < 9999
    requires t in Enumeration(start, end, freq)
    ensures OnFileGrid(t, freq)
  {
    var first := if freq == Hourly then Stamp(start, 1, 0) else Midnight(start);
    var last := if freq == Hourly then Midnight(NextDay(end)) else Midnight(end);
    assert Enumeration(start, end, freq) == Steps(first, last, freq);
    StepsMemberBounds(first, last, freq, t);
    if t.date.year < start.year {
      DayNumberMonotone(t.date, start);
    }
    if last.date.year < t.date.year {
      DayNumberMonotone(last.date, t.date);
    }
    if freq == Hourly {
      WholeHourClock(DayNumber(t.date), t.hour, t.minute, DayNumber(start));
    } else {
      WholeDayClock(DayNumber(t.date), t.hour, t.minute, DayNumber(start));
    }
  }

  /** Increasing grid stamps have pairwise different save paths. */
  lemma IncreasingDistinctSavePaths(cfg: Config, ts: seq<Stamp>)
    requires Increasing(ts) && '/' !in cfg.variable
    requires forall i :: 0 <= i < |ts| ==> OnFileGrid(ts[i], cfg.freq)
    ensures forall i, j :: 0 <= i < j < |ts| ==> SavePath(cfg, ts[i]) != SavePath(cfg, ts[j])
  {
    forall i, j | 0 <= i < j < |ts|
      ensures SavePath(cfg, ts[i]) != SavePath(cfg, ts[j])
    {
      SavePathInjective(cfg, ts[i], ts[j]);
    }
  }

  /** For years 1000 to 9998 and a variable name without `/`, the queues of
      both scripts name every target file once. */
  lemma PendingDistinctPaths(fs: FileSystem, cfg: Config, start: Date, end: Date)
    requires ValidDate(start) && ValidDate(end) && 1000 <= start.year && end.year < 9999
    requires '/' !in cfg.variable
    ensures var q := Entries(cfg, Pending(fs, cfg, start, end));
            forall i, j :: 0 <= i < j < |q| ==> q[i].path != q[j].path
    ensures var q := Items(cfg, Pending(fs, cfg, start, end));
            forall i, j :: 0 <= i < j < |q| ==> q[i].path != q[j].path
  {
    var ts := Pending(fs, cfg, start, end);
    forall i | 0 <= i < |ts|
      ensures OnFileGrid(ts[i], cfg.freq)
    {
      EnumerationOnGrid(start, end, cfg.freq, ts[i]);
    }
    IncreasingDistinctSavePaths(cfg, ts);
  }

  // ---- request URLs ----

  const ApiUrl := "https://apihub.kma.go.kr/api/typ01/url/sfc_grid_nc_down.php"

  function Url(variable: string, tm: string, key: string): string
  {
    ApiUrl + "?obs=" + variable + "&tm=" + tm + "&authKey=" + key
  }

  /** The `tm` text of create_data.py as written: the queue holds only `%Y%m%d`,
      so hourly requests get a literal `H00` in place of the hour. */
  function TaskTimeAsWritten(dateText: string, freq: Freq): string
  {
    if freq == Hourly then dateText + "H00" else dateText + "0000"
  }

  /** Two files of the same day but different hours get the same hourly request in
      create_data.py: both hours request the same `tm`, so the two files get the same content. */
  lemma HourlyTaskTimeIgnoresHour(cfg: Config, key: string, t1: Stamp, t2: Stamp)
    requires ValidStamp(t1) && ValidStamp(t2) && t1.date == t2.date && t1.hour != t2.hour
    requires cfg.freq == Hourly
    ensures SavePath(cfg, t1) != SavePath(cfg, t2)
    ensures Url(cfg.variable, TaskTimeAsWritten(Entry(cfg, t1).dateText, cfg.freq), key)
            == Url(cfg.variable, TaskTimeAsWritten(Entry(cfg, t2).dateText, cfg.freq), key)
  {
    var n1, n2 := SavePath(cfg, t1), SavePath(cfg, t2);
    var k := |n1| - 7;
    assert n1[k..k + 2] == Pad2(t1.hour) && n2[k..k + 2] == Pad2(t2.hour) by {
      assert EndsWith(n1, Pad2(t1.hour) + "00.nc");
    }
    Pad2OfNatValue(Pad2(t1.hour));
  }

  /** A concrete witness: 2020-01-01 at 01:00 and at 02:00 share one request. */
  lemma HourlyCollisionExample()
    ensures var cfg := Config("DATA", "ta", Hourly, 48128);
            var a, b := Stamp(Date(2020, 1, 1), 1, 0), Stamp(Date(2020, 1, 1), 2, 0);
            SavePath(cfg, a) != SavePath(cfg, b)
            && TaskTimeAsWritten(Entry(cfg, a).dateText, Hourly) == TaskTimeAsWritten(Entry(cfg, b).dateText, Hourly)
  {
    HourlyTaskTimeIgnoresHour(Config("DATA", "ta", Hourly, 48128), "", Stamp(Date(2020, 1, 1), 1, 0), Stamp(Date(2020, 1, 1), 2, 0));
  }

  /** The `tm` text of create_data_0.py: `%Y%m%d%H00` hourly, `%Y%m%d0000` daily. */
  function RequestTime(t: Stamp, freq: Freq): string
    requires ValidStamp(t)
  {
    if freq == Hourly then YmdText(t.date) + Pad2(t.hour) + "00" else YmdText(t.date) + "0000"
  }

  /** Request times are the 12-digit text of the file stamp; for four-digit years,
      different file stamps give different requests. */
  lemma RequestTimeInjective(t1: Stamp, t2: Stamp, freq: Freq)
    requires ValidStamp(t1) && ValidStamp(t2)
    requires 1000 <= t1.date.year < 10000 && 1000 <= t2.date.year < 10000
    ensures RequestTime(t1, freq) == StampText(FileStamp(t1, freq))
    ensures RequestTime(t1, freq) == RequestTime(t2, freq) <==> FileStamp(t1, freq) == FileStamp(t2, freq)
  {
    ParseStampTextRoundTrip(FileStamp(t1, freq));
    ParseStampTextRoundTrip(FileStamp(t2, freq));
  }

  /** The loop of create_data.py's `main` that turns the queue into tasks. */
  method BuildTasks(queue: seq<QueueEntry>, cfg: Config, key: string) returns (tasks: seq<Task>)
    ensures |tasks| == |queue|
    ensures forall i :: 0 <= i < |queue| ==>
              tasks[i] == Task(Url(cfg.variable, TaskTimeAsWritten(queue[i].dateText, cfg.freq), key), queue[i].path)
  {
    tasks := [];
    for i := 0 to |queue|
      invariant |tasks| == i
      invariant forall j :: 0 <= j < i ==>
                  tasks[j] == Task(Url(cfg.variable, TaskTimeAsWritten(queue[j].dateText, cfg.freq), key), queue[j].path)
    {
      var tm := if cfg.freq == Hourly then queue[i].dateText + "H00" else queue[i].dateText + "0000";
      tasks := tasks + [Task(Url(cfg.variable, tm, key), queue[i].path)];
    }
  }

  // ---- download_file ----

  /** Writing the response body, if there is one, to `path`. */
  function Store(fs: FileSystem, path: string, fetch: Fetch): (r: FileSystem)
    ensures forall p :: p != path ==> (p in r <==> p in fs) && (p in fs ==> r[p] == fs[p])
  {
    if fetch.Fetched? then fs[path := fetch.size] else fs
  }

  /** create_data_0.py's `download_file` result: true for a written file of at least the minimum size. */
  predicate DownloadOk(fetch: Fetch, minSize: nat)
  {
    fetch.Fetched? && fetch.size >= minSize
  }

  /** A download succeeds exactly when afterwards the file exists with at least the minimum size. */
  lemma DownloadOkMeansStored(fs: FileSystem, path: string, fetch: Fetch, minSize: nat)
    requires NeedsDownload(fs, path, minSize)
    ensures DownloadOk(fetch, minSize) <==> path in Store(fs, path, fetch) && Store(fs, path, fetch)[path] >= minSize
  {
  }

  /** create_data.py's `download_file`: skipped when an adequate file exists, otherwise
      fetched and stored; the task itself is returned on failure. */
  function DownloadFile(fs: FileSystem, task: Task, minSize: nat, fetch: Fetch): (r: (FileSystem, Option<Task>))
    ensures r.1.None? <==> task.path in r.0 && r.0[task.path] >= minSize
    ensures r.1.Some? ==> r.1.value == task
    ensures !NeedsDownload(fs, task.path, minSize) ==> r.0 == fs && r.1.None?
    ensures forall p :: p != task.path ==> (p in r.0 <==> p in fs) && (p in fs ==> r.0[p] == fs[p])
  {
    if !NeedsDownload(fs, task.path, minSize) then (fs, None)
    else (Store(fs, task.path, fetch), if DownloadOk(fetch, minSize) then None else Some(task))
  }

  /** The tasks run one after another (the pool's `imap` keeps task order): the
      file system after each and the list of per-task results. */
  function RunTasks(fs: FileSystem, tasks: seq<Task>, minSize: nat, fetches: seq<Fetch>): (r: (FileSystem, seq<Option<Task>>))
    requires |fetches| == |tasks|
    ensures |r.1| == |tasks|
  {
    if tasks == [] then (fs, [])
    else
      var n := |tasks| - 1;
      var before := RunTasks(fs, tasks[..n], minSize, fetches[..n]);
      var after := DownloadFile(before.0, tasks[n], minSize, fetches[n]);
      (after.0, before.1 + [after.1])
  }

  predicate DistinctPaths(tasks: seq<Task>)
  {
    forall i, j :: 0 <= i < j < |tasks| ==> tasks[i].path != tasks[j].path
  }

  /** With distinct target paths, task `i` reports no failure exactly when its file
      ends up present with at least the minimum size, and a failure report is the task. */
  lemma {:induction false} RunTasksOutcome(fs: FileSystem, tasks: seq<Task>, minSize: nat, fetches: seq<Fetch>, i: nat)
    requires |fetches| == |tasks| && DistinctPaths(tasks) && i < |tasks|
    ensures var r := RunTasks(fs, tasks, minSize, fetches);
            (r.1[i].None? <==> tasks[i].path in r.0 && r.0[tasks[i].path] >= minSize)
            && (r.1[i].Some? ==> r.1[i].value == tasks[i])
  {
    var n := |tasks| - 1;
    var before := RunTasks(fs, tasks[..n], minSize, fetches[..n]);
    var after := DownloadFile(before.0, tasks[n], minSize, fetches[n]);
    if i < n {
      RunTasksOutcome(fs, tasks[..n], minSize, fetches[..n], i);
      assert tasks[i].path != tasks[n].path;
    }
  }

  /** With distinct target paths, a task is among the failures exactly when its
      file does not end up present with at least the minimum size. */
  lemma RunTasksFailures(fs: FileSystem, tasks: seq<Task>, minSize: nat, fetches: seq<Fetch>)
    requires |fetches| == |tasks| && DistinctPaths(tasks)
    ensures var r := RunTasks(fs, tasks, minSize, fetches);
            forall i :: 0 <= i < |tasks| ==>
              (tasks[i] in Somes(r.1) <==> !(tasks[i].path in r.0 && r.0[tasks[i].path] >= minSize))
  {
    var r := RunTasks(fs, tasks, minSize, fetches);
    forall i | 0 <= i < |tasks|
      ensures tasks[i] in Somes(r.1) <==> !(tasks[i].path in r.0 && r.0[tasks[i].path] >= minSize)
    {
      SomesMembership(r.1, tasks[i]);
      RunTasksOutcome(fs, tasks, minSize, fetches, i);
      if Some(tasks[i]) in r.1 {
        var k :| 0 <= k < |r.1| && r.1[k] == Some(tasks[i]);
        RunTasksOutcome(fs, tasks, minSize, fetches, k);
        assert tasks[k].path == tasks[i].path;
      }
    }
  }

  /** The download phase of create_data.py's `main`: run every task and collect the failures. */
  method DownloadAll(fs: FileSystem, tasks: seq<Task>, minSize: nat, fetches: seq<Fetch>)
    returns (fs': FileSystem, failed: seq<Task>)
    requires |fetches| == |tasks|
    ensures fs' == RunTasks(fs, tasks, minSize, fetches).0
    ensures failed == Somes(RunTasks(fs, tasks, minSize, fetches).1)
  {
    fs', failed := fs, [];
    ghost var results: seq<Option<Task>> := [];
    for i := 0 to |tasks|
      invariant (fs', results) == RunTasks(fs, tasks[..i], minSize, fetches[..i])
      invariant failed == Somes(results)
    {
      assert tasks[..i + 1][..i] == tasks[..i] && fetches[..i + 1][..i] == fetches[..i];
      var res;
      fs', res := DownloadStep(fs', tasks[i], minSize, fetches[i]);
      SomesSnoc(results, res);
      results := results + [res];
      if res.Some? {
        failed := failed + [res.value];
      }
    }
    assert tasks[..|tasks|] == tasks && fetches[..|fetches|] == fetches;
  }

  /** One call of `download_file`, step by step: skip, fetch, write, check the size. */
  method DownloadStep(fs: FileSystem, task: Task, minSize: nat, fetch: Fetch) returns (fs': FileSystem, res: Option<Task>)
    ensures (fs', res) == DownloadFile(fs, task, minSize, fetch)
  {
    if task.path in fs && fs[task.path] >= minSize {
      return fs, None;
    }
    if fetch.FetchFailed? {
      return fs, Some(task);
    }
    fs' := fs[task.path := fetch.size];
    if fs'[task.path] < minSize {
      return fs', Some(task);
    }
    return fs', None;
  }

  // ---- create_data_0.py: two attempts per item ----

  /** Number of calls `download_file` gets for one item: a second only after a failed first. */
  function AttemptCount(first: Fetch, minSize: nat): (n: nat)
    ensures 1 <= n <= 2 && (n == 2 <==> !DownloadOk(first, minSize))
  {
    if DownloadOk(first, minSize) then 1 else 2
  }

  /** An item fails when neither of its attempts succeeds. */
  predicate ItemFails(outcome: (Fetch, Fetch), minSize: nat)
  {
    !DownloadOk(outcome.0, minSize) && !DownloadOk(outcome.1, minSize)
  }

  /** The failure records of create_data_0.py's `main`, in queue order. */
  function FailedItems(queue: seq<QueueItem>, freq: Freq, minSize: nat, outcomes: seq<(Fetch, Fetch)>): (r: seq<FailedItem>)
    requires |outcomes| == |queue| && forall i :: 0 <= i < |queue| ==> ValidStamp(queue[i].date)
    ensures |r| <= |queue|
  {
    if queue == [] then []
    else
      var n := |queue| - 1;
      FailedItems(queue[..n], freq, minSize, outcomes[..n])
      + (if ItemFails(outcomes[n], minSize) then [FailedItem(RequestTime(queue[n].date, freq), queue[n].path)] else [])
  }

  lemma FailedItemsSnoc(queue: seq<QueueItem>, freq: Freq, minSize: nat, outcomes: seq<(Fetch, Fetch)>, i: nat)
    requires |outcomes| == |queue| && forall k :: 0 <= k < |queue| ==> ValidStamp(queue[k].date)
    requires i < |queue|
    ensures FailedItems(queue[..i + 1], freq, minSize, outcomes[..i + 1])
            == FailedItems(queue[..i], freq, minSize, outcomes[..i])
               + (if ItemFails(outcomes[i], minSize) then [FailedItem(RequestTime(queue[i].date, freq), queue[i].path)] else [])
  {
    assert queue[..i + 1][..i] == queue[..i] && outcomes[..i + 1][..i] == outcomes[..i];
  }

  /** An item (with a distinct path) is recorded as failed exactly when both its attempts fail. */
  lemma {:induction false} FailedItemsMembership(queue: seq<QueueItem>, freq: Freq, minSize: nat,
                                                 outcomes: seq<(Fetch, Fetch)>, i: nat)
    requires |outcomes| == |queue| && forall k :: 0 <= k < |queue| ==> ValidStamp(queue[k].date)
    requires forall j, k :: 0 <= j < k < |queue| ==> queue[j].path != queue[k].path
    requires i < |queue|
    ensures FailedItem(RequestTime(queue[i].date, freq), queue[i].path) in FailedItems(queue, freq, minSize, outcomes)
            <==> ItemFails(outcomes[i], minSize)
  {
    var n := |queue| - 1;
    var front := FailedItems(queue[..n], freq, minSize, outcomes[..n]);
    var x := FailedItem(RequestTime(queue[i].date, freq), queue[i].path);
    FailedItemsPaths(queue[..n], freq, minSize, outcomes[..n]);
    if i < n {
      FailedItemsMembership(queue[..n], freq, minSize, outcomes[..n], i);
      assert queue[i].path != queue[n].path;
    } else {
      assert x !in front;
    }
  }

  /** Every failure record names the path of an earlier queue item. */
  lemma {:induction false} FailedItemsPaths(queue: seq<QueueItem>, freq: Freq, minSize: nat, outcomes: seq<(Fetch, Fetch)>)
    requires |outcomes| == |queue| && forall k :: 0 <= k < |queue| ==> ValidStamp(queue[k].date)
    ensures forall x :: x in FailedItems(queue, freq, minSize, outcomes) ==> exists k :: 0 <= k < |queue| && queue[k].path == x.path
  {
    if queue != [] {
      var n := |queue| - 1;
      FailedItemsPaths(queue[..n], freq, minSize, outcomes[..n]);
      forall x | x in FailedItems(queue, freq, minSize, outcomes)
        ensures exists k :: 0 <= k < |queue| && queue[k].path == x.path
      {
        if x in FailedItems(queue[..n], freq, minSize, outcomes[..n]) {
          var k :| 0 <= k < n && queue[..n][k].path == x.path;
          assert queue[k].path == x.path;
        } else {
          assert queue[n].path == x.path;
        }
      }
    }
  }

  /** The download loop of create_data_0.py's `main`: for each queued item, at most two
      attempts, stopping at the first success; an item whose second attempt fails too
      is recorded once. `outcomes[i]` are the fetches the two attempts for item `i`
      would get; `calls[i]` is the number of attempts item `i` received. */
  method RetryDownloads(queue: seq<QueueItem>, cfg: Config, key: string, outcomes: seq<(Fetch, Fetch)>)
    returns (failed: seq<FailedItem>, calls: seq<nat>)
    requires |outcomes| == |queue| && forall i :: 0 <= i < |queue| ==> ValidStamp(queue[i].date)
    ensures failed == FailedItems(queue, cfg.freq, cfg.minSize, outcomes)
    ensures |calls| == |queue|
    ensures forall i :: 0 <= i < |queue| ==> calls[i] == AttemptCount(outcomes[i].0, cfg.minSize)
  {
    failed, calls := [], [];
    for i := 0 to |queue|
      invariant failed == FailedItems(queue[..i], cfg.freq, cfg.minSize, outcomes[..i])
      invariant |calls| == i && forall k :: 0 <= k < i ==> calls[k] == AttemptCount(outcomes[k].0, cfg.minSize)
    {
      var item := queue[i];
      var tm := RequestTime(item.date, cfg.freq);
      var url := Url(cfg.variable, tm, key);
      ghost var before := failed;
      var attempt := 0;
      var tries := 0;
      var succeeded := false;
      while attempt < 2 && !succeeded
        invariant 0 <= attempt <= 2
        invariant attempt >= 1 ==> !DownloadOk(outcomes[i].0, cfg.minSize)
        invariant succeeded ==> tries == attempt + 1 && attempt < 2
                                && DownloadOk(if attempt == 0 then outcomes[i].0 else outcomes[i].1, cfg.minSize)
        invariant !succeeded ==> tries == attempt
        invariant failed == before + (if attempt == 2 then [FailedItem(tm, item.path)] else [])
        invariant attempt == 2 ==> !DownloadOk(outcomes[i].1, cfg.minSize)
        decreases 2 - attempt, if succeeded then 0 else 1
      {
        var fetch := if attempt == 0 then outcomes[i].0 else outcomes[i].1;
        tries := tries + 1;
        if DownloadOk(fetch, cfg.minSize) {
          succeeded := true;
        } else {
          if attempt == 1 {
            failed := failed + [FailedItem(tm, item.path)];
          }
          attempt := attempt + 1;
        }
      }
      FailedItemsSnoc(queue, cfg.freq, cfg.minSize, outcomes, i);
      calls := calls + [tries];
    }
    assert queue[..|queue|] == queue && outcomes[..|outcomes|] == outcomes;
  }

  // ---- the two `main`s ----

  /** create_data.py's `main` from the scan to the list of failures: the tasks name the
      pending files in order; for years 1000 to 9998 and a variable name without `/`
      their paths are distinct, and a task is reported as failed exactly when its
      file does not end up with at least the minimum size. `fetches[i]` is what
      the request of task `i` gets. */
  method CreateData(fs: FileSystem, start: Date, end: Date, cfg: Config, key: string, fetches: seq<Fetch>)
    returns (tasks: seq<Task>, fs': FileSystem, failed: seq<Task>)
    requires ValidDate(start) && ValidDate(end)
    requires |fetches| == |Pending(fs, cfg, start, end)|
    ensures |tasks| == |Pending(fs, cfg, start, end)|
    ensures forall i :: 0 <= i < |tasks| ==>
              tasks[i].path == SavePath(cfg, Pending(fs, cfg, start, end)[i])
    ensures (fs', failed) == (RunTasks(fs, tasks, cfg.minSize, fetches).0, Somes(RunTasks(fs, tasks, cfg.minSize, fetches).1))
    ensures 1000 <= start.year && end.year < 9999 && '/' !in cfg.variable ==>
              DistinctPaths(tasks)
              && forall i :: 0 <= i < |tasks| ==>
                   (tasks[i] in failed <==> !(tasks[i].path in fs' && fs'[tasks[i].path] >= cfg.minSize))
  {
    var queue := ScanFiles(fs, start, end, cfg);
    tasks := BuildTasks(queue, cfg, key);
    fs', failed := DownloadAll(fs, tasks, cfg.minSize, fetches);
    if 1000 <= start.year && end.year < 9999 && '/' !in cfg.variable {
      PendingDistinctPaths(fs, cfg, start, end);
      RunTasksFailures(fs, tasks, cfg.minSize, fetches);
    }
  }

  /** create_data_0.py's `main` from the scan to the failure records: for years 1000
      to 9998 and a variable name without `/`, queued item `i` is recorded as failed
      exactly when both its attempts fail. */
  method CreateDataRetrying(fs: FileSystem, start: Date, end: Date, cfg: Config, key: string,
                            outcomes: seq<(Fetch, Fetch)>)
    returns (queue: seq<QueueItem>, failed: seq<FailedItem>)
    requires ValidDate(start) && ValidDate(end)
    requires |outcomes| == |Pending(fs, cfg, start, end)|
    ensures queue == Items(cfg, Pending(fs, cfg, start, end))
    ensures failed == FailedItems(queue, cfg.freq, cfg.minSize, outcomes)
    ensures 1000 <= start.year && end.year < 9999 && '/' !in cfg.variable ==>
              forall i :: 0 <= i < |queue| ==>
                (FailedItem(RequestTime(queue[i].date, cfg.freq), queue[i].path) in failed
                 <==> ItemFails(outcomes[i], cfg.minSize))
  {
    queue := ScanItems(fs, start, end, cfg);
    var calls;
    failed, calls := RetryDownloads(queue, cfg, key, outcomes);
    if 1000 <= start.year && end.year < 9999 && '/' !in cfg.variable {
      PendingDistinctPaths(fs, cfg, start, end);
      forall i | 0 <= i < |queue|
        ensures FailedItem(RequestTime(queue[i].date, cfg.freq), queue[i].path) in failed
                <==> ItemFails(outcomes[i], cfg.minSize)
      {
        FailedItemsMembership(queue, cfg.freq, cfg.minSize, outcomes, i);
      }
    }
  }
}
