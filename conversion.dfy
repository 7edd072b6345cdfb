/** The SGD conversion scripts of RMSE_TEST_2/PROG/create_data:
    convert_sgd_to_obs_mkprism.py turns the daily SGD temperature grid of every day
    of 2020 and 2021 into a station table (OBS) and a height-corrected grid
    (MK-PRISM); deprecated/sgd_to_mkprism_test.py writes only the MK-PRISM grid;
    sgd_to_obs_test.py and sgd_to_mkprism.py do one step each for 2020-01-01.

    The files the scripts can open are a map from path to what `xr.open_dataset`
    gives; a path outside the map does not exist. The heights the scripts draw with
    `np.random.uniform(400, 600)` are an input: for each day, a height per cell
    index. What a run writes is returned: a path and its contents for each output. */
module Conversion {
  import opened Options
  import opened Text
  import opened Calendar
  import opened TimeRange
  import opened Values
  import opened Grid
  import DownloadQueue

  /** An SGD file: the shape (rows, columns) of its `data` variable, the values
      row by row, the variable's `data_scale` attribute if present, and the grid
      attributes of the dataset. */
  datatype SgdFile = SgdFile(rows: nat, cols: nat, data: seq<real>, dataScale: Option<real>, attrs: GridAttrs)

  /** `ds["data"].values` of a (rows, columns) variable holds one value per cell. */
  predicate WellShaped(f: SgdFile)
  {
    |f.data| == f.rows * f.cols
  }

  /** The OBS dataset: `temperature` over the `station` coordinate. */
  datatype StationTable = StationTable(labels: seq<string>, values: seq<Float>)

  /** The MK-PRISM dataset: `temperature` over (`ny`, `nx`), row by row. */
  datatype CorrectedGrid = CorrectedGrid(ny: nat, nx: nat, values: seq<Float>)

  /** What a script writes. */
  datatype Output = Obs(table: StationTable) | Mkprism(grid: CorrectedGrid)

  /** One call of `process_sgd_file`: the input is absent, the call raises, or the
      outputs are written in this order. */
  datatype Outcome = Skipped | Failed(reason: string) | Written(outputs: seq<(string, Output)>)

  const SgdDir := "/home/papalio/test_research/python_edu/test_2024/test_2024/DATA/org/sgd"
  const DeprecatedSgdDir := "/home/papalio/test_research/RMSE_TEST_2/DATA/SGD_TA"
  const ObsDir := "/home/papalio/test_research/RMSE_TEST_2/DATA/OBS_TA"
  const MkprismDir := "/home/papalio/test_research/RMSE_TEST_2/DATA/MKPRISE_TA"

  // ---- paths ----

  /** `f"sfc_grid_ta_{year}{month}{day}0000.nc"`. */
  function InputName(d: Date): string
    requires ValidDate(d)
  {
    "sfc_grid_ta_" + YmdText(d) + "0000.nc"
  }

  /** `{year}/{month}/{day}/{filename}`: the file's place below the SGD directory. */
  function DayFile(d: Date): (r: string)
    requires ValidDate(d)
    ensures r != [] && IsDigit(r[0])
  {
    YearText(d.year) + "/" + Pad2(d.month) + "/" + Pad2(d.day) + "/" + InputName(d)
  }

  /** `os.path.join(base, year, month, day, filename)`; the parts after the base are
      non-empty, start with a digit or a letter, and only the last has no `/` after it,
      so the join puts the day's place below the base (see `InputPathIsJoin`). */
  function InputPath(base: string, d: Date): (p: string)
    requires ValidDate(d)
    ensures EndsWith(p, InputName(d))
  {
    var file := DayFile(d);
    assert file[|file| - |InputName(d)|..] == InputName(d);
    Join(base, file)
  }

  /** `f"obs_ta_{year}{month}{day}0000.nc"`. */
  function ObsName(d: Date): string
    requires ValidDate(d)
  {
    "obs_ta_" + YmdText(d) + "0000.nc"
  }

  /** `f"mkprism_ta_{year}{month}{day}0000.nc"`. */
  function MkprismName(d: Date): string
    requires ValidDate(d)
  {
    "mkprism_ta_" + YmdText(d) + "0000.nc"
  }

  /** Joining two components that need a separator. */
  lemma JoinWithSlash(a: string, b: string)
    requires a != [] && a[|a| - 1] != '/' && b != [] && b[0] != '/'
    ensures Join(a, b) == a + "/" + b
  {
  }

  /** The text `YYYYMMDD0000` is the stamp text of the day's midnight, all digits. */
  lemma DayStampText(d: Date)
    requires ValidDate(d)
    ensures YmdText(d) + "0000" == StampText(Midnight(d))
    ensures AllDigits(StampText(Midnight(d)))
  {
    assert Pad2(0) == "00";
    DownloadQueue.StampTextDigits(Midnight(d));
  }

  /** The time stamp in a name `{prefix}_{digits}.nc`, as get_excluded_date_4.py reads it. */
  lemma NameSuffix(prefix: string, digits: string)
    requires '/' !in prefix && AllDigits(digits)
    ensures Suffix(prefix + "_" + digits + ".nc") == digits
  {
    var name := prefix + "_" + digits + ".nc";
    var tail := digits + ".nc";
    assert '/' !in name by {
      forall i | 0 <= i < |name|
        ensures name[i] != '/'
      {
        if i < |prefix| { assert name[i] == prefix[i]; }
        else if i == |prefix| { }
        else if i < |prefix| + 1 + |digits| { assert name[i] == digits[i - |prefix| - 1]; assert IsDigit(digits[i - |prefix| - 1]); }
      }
    }
    assert '_' !in tail by {
      forall i | 0 <= i < |tail|
        ensures tail[i] != '_'
      {
        if i < |digits| { assert tail[i] == digits[i]; assert IsDigit(digits[i]); }
      }
    }
    AfterLastNone(name, '/');
    assert name == prefix + ['_'] + tail;
    AfterLastSplit(prefix, tail, '_');
    assert '.' !in digits by {
      forall i | 0 <= i < |digits|
        ensures digits[i] != '.'
      {
        assert IsDigit(digits[i]);
      }
    }
    assert tail == digits + ['.'] + "nc";
    BeforeFirstSplit(digits, "nc", '.');
  }

  /** A text without `c` is its own last part. */
  lemma {:induction false} AfterLastNone(s: string, c: char)
    requires c !in s
    ensures AfterLast(s, c) == s
  {
    AfterLastSpec(s, c);
  }

  /** The input and both outputs carry the day's midnight stamp, which parses back
      to the day for four-digit years: the outputs are named after the input's date. */
  lemma NamesShareStamp(d: Date)
    requires ValidDate(d) && 1000 <= d.year < 10000
    ensures Suffix(InputName(d)) == Suffix(ObsName(d)) == Suffix(MkprismName(d)) == StampText(Midnight(d))
    ensures ParseStampText(StampText(Midnight(d))) == Some(Midnight(d))
  {
    var digits := StampText(Midnight(d));
    DayStampText(d);
    assert InputName(d) == "sfc_grid_ta" + "_" + digits + ".nc";
    assert ObsName(d) == "obs_ta" + "_" + digits + ".nc";
    assert MkprismName(d) == "mkprism_ta" + "_" + digits + ".nc";
    NameSuffix("sfc_grid_ta", digits);
    NameSuffix("obs_ta", digits);
    NameSuffix("mkprism_ta", digits);
    ParseStampTextRoundTrip(Midnight(d));
  }

  /** Joining non-empty parts that neither start nor (but for the last) end with `/`
      onto a text that does not end with `/` puts one separator before each part. */
  lemma JoinThree(a: string, m: string, dd: string, name: string)
    requires a != [] && a[|a| - 1] != '/'
    requires m != [] && m[0] != '/' && m[|m| - 1] != '/'
    requires dd != [] && dd[0] != '/' && dd[|dd| - 1] != '/'
    requires name != [] && name[0] != '/'
    ensures Join(Join(Join(a, m), dd), name) == a + ("/" + m + "/" + dd + "/" + name)
  {
    var b2 := a + "/" + m;
    JoinWithSlash(a, m);
    assert b2[|b2| - 1] == m[|m| - 1];
    var b3 := b2 + "/" + dd;
    JoinWithSlash(b2, dd);
    assert b3[|b3| - 1] == dd[|dd| - 1];
    JoinWithSlash(b3, name);
  }

  /** Joining the parts one by one is joining their `/`-separated text once. */
  lemma JoinFour(base: string, y: string, m: string, dd: string, name: string)
    requires y != [] && y[0] != '/' && y[|y| - 1] != '/'
    requires m != [] && m[0] != '/' && m[|m| - 1] != '/'
    requires dd != [] && dd[0] != '/' && dd[|dd| - 1] != '/'
    requires name != [] && name[0] != '/'
    ensures Join(Join(Join(Join(base, y), m), dd), name) == Join(base, y + ("/" + m + "/" + dd + "/" + name))
  {
    var b1 := Join(base, y);
    assert b1 != [] && b1[|b1| - 1] == y[|y| - 1];
    JoinThree(b1, m, dd, name);
    JoinConcat(base, y, "/" + m + "/" + dd + "/" + name);
  }

  /** The parts `os.path.join` gets after the base meet `JoinFour`'s conditions, and the
      day's place is their `/`-separated text: with `JoinFour`, `InputPath(base, d)` is
      the five-part join for every base. */
  lemma DayFileParts(d: Date)
    requires ValidDate(d)
    ensures var y, m, dd, name := YearText(d.year), Pad2(d.month), Pad2(d.day), InputName(d);
            y != [] && y[0] != '/' && y[|y| - 1] != '/'
            && |m| == 2 && m[0] != '/' && m[1] != '/'
            && |dd| == 2 && dd[0] != '/' && dd[1] != '/'
            && name != [] && name[0] != '/'
            && DayFile(d) == y + ("/" + m + "/" + dd + "/" + name)
  {
    var y, m, dd, name := YearText(d.year), Pad2(d.month), Pad2(d.day), InputName(d);
    assert IsDigit(y[0]) && IsDigit(y[|y| - 1]) && IsDigit(m[0]) && IsDigit(m[1]) && IsDigit(dd[0]) && IsDigit(dd[1]);
    assert name[0] == 's';
  }

  /** `InputPath` is `os.path.join(base, year, month, day, filename)`, joined part by part. */
  lemma InputPathIsJoin(base: string, d: Date)
    requires ValidDate(d)
    ensures InputPath(base, d)
            == Join(Join(Join(Join(base, YearText(d.year)), Pad2(d.month)), Pad2(d.day)), InputName(d))
  {
    DayFileParts(d);
    JoinFour(base, YearText(d.year), Pad2(d.month), Pad2(d.day), InputName(d));
  }

  /** A base without a trailing `/` gets one separator before the day's place. */
  lemma InputPathSlashes(base: string, d: Date)
    requires ValidDate(d) && base != [] && base[|base| - 1] != '/'
    ensures InputPath(base, d)
            == base + "/" + YearText(d.year) + "/" + Pad2(d.month) + "/" + Pad2(d.day) + "/" + InputName(d)
  {
    JoinWithSlash(base, DayFile(d));
  }

  /** The conversion reads the daily `ta` files that create_data.py stores below the
      same data root. */
  lemma InputIsDownload(root: string, d: Date, minSize: nat)
    requires ValidDate(d)
    ensures InputPath(root + "/org/sgd", d)
            == DownloadQueue.SavePath(DownloadQueue.Config(root, "ta", Daily, minSize), Midnight(d))
  {
    var a := root + "/org/sgd";
    assert a[|a| - 1] == 'd';
    InputPathSlashes(a, d);
    assert DownloadQueue.GridFileName("ta", Midnight(d), Daily) == InputName(d);
    assert a + "/" == root + "/org/sgd/";
  }

  // ---- one grid ----

  /** The grid after masking and scaling; `KeyError` when `data_scale` is absent. */
  function ScaledGrid(f: SgdFile): (r: Result<seq<Float>>)
    ensures r.Raised? <==> f.dataScale.None?
    ensures r.Ok? ==> |r.value| == |f.data|
  {
    if f.dataScale.None? then Raised("KeyError: 'data_scale'")
    else Ok(Scaled(Masked(Loaded(f.data)), f.dataScale.value))
  }

  /** The station names, in the dictionary's order. */
  function StationLabels(): (r: seq<string>)
    ensures |r| == |Stations|
    ensures forall i :: 0 <= i < |Stations| ==> r[i] == Stations[i].0
  {
    seq(|Stations|, i requires 0 <= i < |Stations| => Stations[i].0)
  }

  /** sgd_to_obs_test.py and the OBS half of `process_sgd_file`: the nearest-cell
      value of every station. */
  function ObsTable(f: SgdFile): (r: Result<StationTable>)
    ensures r.Ok? ==> |r.value.labels| == |r.value.values| == |Stations|
  {
    match ScaledGrid(f)
    case Raised(e) => Raised(e)
    case Ok(grid) =>
      match StationValues(grid, GridMesh(f.attrs), Stations)
      case None => Raised("IndexError")
      case Some(vs) => Ok(StationTable(StationLabels(), vs))
  }

  /** sgd_to_mkprism.py and the MK-PRISM half: the scaled grid corrected to the
      drawn heights, with the data's shape. */
  function MkprismGrid(f: SgdFile, heights: nat -> real): (r: Result<CorrectedGrid>)
    ensures r.Raised? <==> f.dataScale.None?
    ensures r.Ok? ==> r.value.ny == f.rows && r.value.nx == f.cols && |r.value.values| == |f.data|
    ensures r.Ok? && WellShaped(f) ==> |r.value.values| == r.value.ny * r.value.nx
  {
    match ScaledGrid(f)
    case Raised(e) => Raised(e)
    case Ok(grid) => Ok(CorrectedGrid(f.rows, f.cols, Corrected(grid, heights)))
  }

  /** The OBS table has a value for each station, each taken from a cell nearest to it. */
  lemma ObsTableNearest(f: SgdFile, i: nat)
    requires ObsTable(f).Ok? && i < |Stations|
    ensures ObsTable(f).value.labels[i] == Stations[i].0
    ensures exists k :: 0 <= k < |f.data| && 0 <= k < f.attrs.nx * f.attrs.ny
              && ObsTable(f).value.values[i] == ScaledGrid(f).value[k]
              && forall j :: 0 <= j < f.attrs.nx * f.attrs.ny ==>
                   Dist2(GridMesh(f.attrs)[k], Stations[i].1) <= Dist2(GridMesh(f.attrs)[j], Stations[i].1)
  {
    StationValueNearest(ScaledGrid(f).value, GridMesh(f.attrs), Stations, i);
  }

  /** With one value per mesh cell and a scale present, the OBS step cannot fail. */
  lemma ObsTableDefined(f: SgdFile)
    requires f.dataScale.Some? && |f.data| == f.attrs.nx * f.attrs.ny > 0
    ensures ObsTable(f).Ok?
  {
    StationValuesDefined(ScaledGrid(f).value, f.attrs, Stations);
  }

  /** A -9990 cell of the file is NaN in the MK-PRISM grid; every other cell is its
      scaled value moved by the correction for its height. */
  lemma MkprismCell(f: SgdFile, heights: nat -> real, i: nat)
    requires f.dataScale.Some? && f.dataScale.value != 0.0 && i < |f.data|
    ensures MkprismGrid(f, heights).value.values[i]
            == if f.data[i] == MissingValue then NaN
               else Finite(f.data[i] / f.dataScale.value + LapseOffset(heights(i)))
  {
    MaskThenScale(f.data, f.dataScale.value, i);
  }

  // ---- process_sgd_file ----

  /** What `process_sgd_file` of convert_sgd_to_obs_mkprism.py does for one day. */
  function Convert(fs: map<string, SgdFile>, d: Date, heights: nat -> real): (o: Outcome)
    requires ValidDate(d)
    ensures o == Skipped <==> InputPath(SgdDir, d) !in fs
    ensures o.Written? ==> |o.outputs| == 2
  {
    var path := InputPath(SgdDir, d);
    if path !in fs then Skipped
    else
      var f := fs[path];
      match ObsTable(f)
      case Raised(e) => Failed(e)
      case Ok(table) =>
        Written([(Join(ObsDir, ObsName(d)), Obs(table)),
                 (Join(MkprismDir, MkprismName(d)), Mkprism(MkprismGrid(f, heights).value))])
  }

  /** What `process_sgd_file` of deprecated/sgd_to_mkprism_test.py does for one day. */
  function ConvertMkprismOnly(fs: map<string, SgdFile>, d: Date, heights: nat -> real): (o: Outcome)
    requires ValidDate(d)
    ensures o == Skipped <==> InputPath(DeprecatedSgdDir, d) !in fs
    ensures o.Written? ==> |o.outputs| == 1
  {
    var path := InputPath(DeprecatedSgdDir, d);
    if path !in fs then Skipped
    else
      match MkprismGrid(fs[path], heights)
      case Raised(e) => Failed(e)
      case Ok(grid) => Written([(Join(MkprismDir, MkprismName(d)), Mkprism(grid))])
  }

  /** A day whose file exists is written exactly when it can be scaled and every
      station finds a cell; the OBS table comes first, then the MK-PRISM grid. */
  lemma ConvertWritten(fs: map<string, SgdFile>, d: Date, heights: nat -> real)
    requires ValidDate(d) && InputPath(SgdDir, d) in fs
    ensures Convert(fs, d, heights).Written? <==> ObsTable(fs[InputPath(SgdDir, d)]).Ok?
    ensures Convert(fs, d, heights).Written? ==>
              Convert(fs, d, heights).outputs[0]
                == (Join(ObsDir, ObsName(d)), Obs(ObsTable(fs[InputPath(SgdDir, d)]).value))
              && Convert(fs, d, heights).outputs[1]
                == (Join(MkprismDir, MkprismName(d)), Mkprism(MkprismGrid(fs[InputPath(SgdDir, d)], heights).value))
  {
  }

  /** Given the same file, the MK-PRISM-only script writes the same grid under the same
      name; it also writes it when the OBS step raises `IndexError`. */
  lemma MkprismOnlyAgrees(fs: map<string, SgdFile>, d: Date, heights: nat -> real)
    requires ValidDate(d) && InputPath(SgdDir, d) in fs
    requires InputPath(DeprecatedSgdDir, d) in fs
    requires fs[InputPath(DeprecatedSgdDir, d)] == fs[InputPath(SgdDir, d)]
    ensures Convert(fs, d, heights).Written? ==>
              ConvertMkprismOnly(fs, d, heights).Written?
              && ConvertMkprismOnly(fs, d, heights).outputs == Convert(fs, d, heights).outputs[1..]
    ensures Convert(fs, d, heights) == Failed("IndexError") ==> ConvertMkprismOnly(fs, d, heights).Written?
  {
    var f := fs[InputPath(SgdDir, d)];
    if Convert(fs, d, heights) == Failed("IndexError") {
      assert f.dataScale.Some?;
    }
  }

  /** `process_sgd_file` of convert_sgd_to_obs_mkprism.py: the array read from the file
      is masked and scaled in place, then the station table and the corrected grid
      are built from it. */
  method ProcessSgdFile(fs: map<string, SgdFile>, d: Date, heights: nat -> real) returns (o: Outcome)
    requires ValidDate(d)
    ensures o == Convert(fs, d, heights)
  {
    var path := InputPath(SgdDir, d);
    if path !in fs {
      return Skipped;
    }
    var f := fs[path];
    var data := new Float[|f.data|](i requires 0 <= i < |f.data| => Finite(f.data[i]));
    assert data[..] == Loaded(f.data);
    if f.dataScale.None? {
      return Failed("KeyError: 'data_scale'");
    }
    MaskAndScale(data, f.dataScale.value);
    var grid := data[..];
    var values := StationValues(grid, GridMesh(f.attrs), Stations);
    if values.None? {
      return Failed("IndexError");
    }
    var table := StationTable(StationLabels(), values.value);
    var corrected := CorrectedGrid(f.rows, f.cols, Corrected(grid, heights));
    o := Written([(Join(ObsDir, ObsName(d)), Obs(table)),
                  (Join(MkprismDir, MkprismName(d)), Mkprism(corrected))]);
  }

  /** `process_sgd_file` of deprecated/sgd_to_mkprism_test.py. */
  method ProcessMkprismOnly(fs: map<string, SgdFile>, d: Date, heights: nat -> real) returns (o: Outcome)
    requires ValidDate(d)
    ensures o == ConvertMkprismOnly(fs, d, heights)
  {
    var path := InputPath(DeprecatedSgdDir, d);
    if path !in fs {
      return Skipped;
    }
    var f := fs[path];
    var data := new Float[|f.data|](i requires 0 <= i < |f.data| => Finite(f.data[i]));
    assert data[..] == Loaded(f.data);
    if f.dataScale.None? {
      return Failed("KeyError: 'data_scale'");
    }
    MaskAndScale(data, f.dataScale.value);
    o := Written([(Join(MkprismDir, MkprismName(d)), Mkprism(CorrectedGrid(f.rows, f.cols, Corrected(data[..], heights))))]);
  }

  // ---- the runs over the date list ----

  /** `process_sgd_file` as a function of the day alone, with that day's heights. */
  function DayStep(fs: map<string, SgdFile>, heights: Date -> nat -> real): Date --> Outcome
  {
    d requires ValidDate(d) => Convert(fs, d, heights(d))
  }

  /** Some day of the list makes the step raise. */
  predicate AnyFails(step: Date --> Outcome, days: seq<Stamp>)
    requires forall i :: 0 <= i < |days| ==> step.requires(days[i].date)
  {
    exists i :: 0 <= i < |days| && step(days[i].date).Failed?
  }

  /** Some result is a raised exception. */
  predicate HasFailure(os: seq<Outcome>)
  {
    exists k :: 0 <= k < |os| && os[k].Failed?
  }

  /** `os` holds the step's result for every day, in order. */
  predicate AllSteps(step: Date --> Outcome, days: seq<Stamp>, os: seq<Outcome>)
    requires forall i :: 0 <= i < |days| ==> step.requires(days[i].date)
  {
    |os| == |days| && forall i :: 0 <= i < |days| ==> os[i] == step(days[i].date)
  }

  /** What one worker does with its chunk, `list(map(step, chunk))`: the step's result
      for each day in order, up to and including the first day that raises. */
  function Outcomes(step: Date --> Outcome, days: seq<Stamp>): (r: seq<Outcome>)
    requires forall i :: 0 <= i < |days| ==> step.requires(days[i].date)
    ensures |r| <= |days|
  {
    if days == [] then []
    else if step(days[0].date).Failed? then [step(days[0].date)]
    else [step(days[0].date)] + Outcomes(step, days[1..])
  }

  /** The `i`-th result of a chunk is the step on its `i`-th day, and only the last
      result can be a raise. */
  lemma {:induction false} OutcomesAt(step: Date --> Outcome, days: seq<Stamp>, i: nat)
    requires forall k :: 0 <= k < |days| ==> step.requires(days[k].date)
    requires i < |Outcomes(step, days)|
    ensures Outcomes(step, days)[i] == step(days[i].date)
    ensures i + 1 < |Outcomes(step, days)| ==> !Outcomes(step, days)[i].Failed?
  {
    if i > 0 {
      OutcomesAt(step, days[1..], i - 1);
    }
  }

  /** A chunk's results hold a raise iff one of its days raises; when none does, the
      worker returns the step's result for every day. */
  lemma {:induction false} OutcomesFailure(step: Date --> Outcome, days: seq<Stamp>)
    requires forall i :: 0 <= i < |days| ==> step.requires(days[i].date)
    ensures HasFailure(Outcomes(step, days)) <==> AnyFails(step, days)
    ensures !AnyFails(step, days) ==> AllSteps(step, days, Outcomes(step, days))
  {
    if days == [] {
    } else if step(days[0].date).Failed? {
      assert Outcomes(step, days)[0].Failed?;
    } else {
      var r, rest := Outcomes(step, days), Outcomes(step, days[1..]);
      OutcomesFailure(step, days[1..]);
      assert r == [step(days[0].date)] + rest;
      if AnyFails(step, days) {
        var i :| 0 <= i < |days| && step(days[i].date).Failed?;
        assert step(days[1..][i - 1].date).Failed?;
        var k :| 0 <= k < |rest| && rest[k].Failed?;
        assert r[k + 1].Failed?;
      }
      if HasFailure(r) {
        var k :| 0 <= k < |r| && r[k].Failed?;
        assert rest[k - 1].Failed?;
        var i :| 0 <= i < |days[1..]| && step(days[1..][i].date).Failed?;
        assert step(days[i + 1].date).Failed?;
      }
      if !AnyFails(step, days) {
        forall i | 0 <= i < |days|
          ensures r[i] == step(days[i].date)
        {
          if i > 0 {
            assert r[i] == rest[i - 1] && days[1..][i - 1] == days[i];
          }
        }
      }
    }
  }

  /** The results of a chunk from day `i` on. */
  lemma OutcomesFrom(step: Date --> Outcome, days: seq<Stamp>, i: nat)
    requires forall k :: 0 <= k < |days| ==> step.requires(days[k].date)
    requires i < |days|
    ensures Outcomes(step, days[i..]) == if step(days[i].date).Failed? then [step(days[i].date)]
                                         else [step(days[i].date)] + Outcomes(step, days[i + 1..])
  {
    assert days[i..][1..] == days[i + 1..];
  }

  /** One worker's loop over its chunk: one `process_sgd_file` call per day, until a
      call raises. */
  method ProcessDays(fs: map<string, SgdFile>, days: seq<Stamp>, heights: Date -> nat -> real) returns (outcomes: seq<Outcome>)
    requires DownloadQueue.AllValid(days)
    ensures outcomes == Outcomes(DayStep(fs, heights), days)
  {
    var step := DayStep(fs, heights);
    outcomes := [];
    assert days[0..] == days;
    for i := 0 to |days|
      invariant Outcomes(step, days) == outcomes + Outcomes(step, days[i..])
    {
      var d := days[i].date;
      var o := ProcessSgdFile(fs, d, heights(d));
      assert o == step(d);
      OutcomesFrom(step, days, i);
      outcomes := outcomes + [o];
      if o.Failed? {
        return;
      }
    }
    assert days[|days|..] == [];
  }

  /** The chunk size `pool.map` picks for `n` items and `workers` processes: `n`
      divided by four times the workers, rounded up. */
  function ChunkSize(n: nat, workers: nat): (c: nat)
    requires workers > 0
    ensures n > 0 ==> c > 0
    ensures c * (4 * workers) >= n
    ensures c == 0 || (c - 1) * (4 * workers) < n
  {
    var m := 4 * workers;
    var q, extra := n / m, n % m;
    assert q * m + extra == n;
    assert (q + 1) * m == q * m + m;
    if extra != 0 then q + 1 else q
  }

  /** With four processes the 731 days go in chunks of 46. */
  lemma ConversionChunkSize()
    ensures ChunkSize(731, 4) == 46
  {
  }

  /** The results of `pool.map` over chunks of `size` days: each worker runs its own
      chunk up to that chunk's first raise, and a raise in one chunk does not stop the
      others. */
  function ChunkedOutcomes(step: Date --> Outcome, days: seq<Stamp>, size: nat): (r: seq<Outcome>)
    requires size > 0
    requires forall i :: 0 <= i < |days| ==> step.requires(days[i].date)
    ensures |r| <= |days|
    decreases |days|
  {
    if |days| <= size then Outcomes(step, days)
    else Outcomes(step, days[..size]) + ChunkedOutcomes(step, days[size..], size)
  }

  lemma HasFailureAppend(a: seq<Outcome>, b: seq<Outcome>)
    ensures HasFailure(a + b) <==> HasFailure(a) || HasFailure(b)
  {
    if HasFailure(a) {
      var k :| 0 <= k < |a| && a[k].Failed?;
      assert (a + b)[k] == a[k];
    }
    if HasFailure(b) {
      var k :| 0 <= k < |b| && b[k].Failed?;
      assert (a + b)[|a| + k] == b[k];
    }
    if HasFailure(a + b) {
      var k :| 0 <= k < |a + b| && (a + b)[k].Failed?;
      if k >= |a| {
        assert b[k - |a|].Failed?;
      }
    }
  }

  lemma {:induction false} ChunkedFailure(step: Date --> Outcome, days: seq<Stamp>, size: nat)
    requires size > 0
    requires forall i :: 0 <= i < |days| ==> step.requires(days[i].date)
    ensures HasFailure(ChunkedOutcomes(step, days, size)) <==> AnyFails(step, days)
    ensures !AnyFails(step, days) ==> AllSteps(step, days, ChunkedOutcomes(step, days, size))
    decreases |days|
  {
    if |days| <= size {
      OutcomesFailure(step, days);
    } else {
      var head, tail := days[..size], days[size..];
      assert days == head + tail;
      OutcomesFailure(step, head);
      ChunkedFailure(step, tail, size);
      HasFailureAppend(Outcomes(step, head), ChunkedOutcomes(step, tail, size));
      if AnyFails(step, days) {
        var i :| 0 <= i < |days| && step(days[i].date).Failed?;
        if i < size {
          assert step(head[i].date).Failed?;
        } else {
          assert step(tail[i - size].date).Failed?;
        }
      }
      if AnyFails(step, head) {
        var i :| 0 <= i < |head| && step(head[i].date).Failed?;
        assert step(days[i].date).Failed?;
      }
      if AnyFails(step, tail) {
        var i :| 0 <= i < |tail| && step(tail[i].date).Failed?;
        assert step(days[size + i].date).Failed?;
      }
      if !AnyFails(step, days) {
        var a, b := Outcomes(step, head), ChunkedOutcomes(step, tail, size);
        assert forall i :: 0 <= i < |days| ==> (a + b)[i] == step(days[i].date) by {
          forall i | 0 <= i < |days|
            ensures (a + b)[i] == step(days[i].date)
          {
            if i >= size {
              assert (a + b)[i] == b[i - size] && tail[i - size] == days[i];
            }
          }
        }
      }
    }
  }

  /** The results from day `i` on split into the chunk starting there and the rest. */
  lemma ChunkFrom(step: Date --> Outcome, days: seq<Stamp>, size: nat, i: nat)
    requires size > 0 && i < |days|
    requires forall k :: 0 <= k < |days| ==> step.requires(days[k].date)
    ensures var j := if i + size < |days| then i + size else |days|;
            ChunkedOutcomes(step, days[i..], size) == Outcomes(step, days[i..j]) + ChunkedOutcomes(step, days[j..], size)
  {
    if i + size < |days| {
      assert days[i..][..size] == days[i..i + size];
      assert days[i..][size..] == days[i + size..];
    } else {
      assert days[i..] == days[i..|days|];
      assert days[|days|..] == [];
    }
  }

  /** How a run over the date list ends: every chunk done without a raise, or the
      exception of a raising day re-raised once all chunks are done. Either way the
      outcomes are what each day reached did, chunk after chunk. */
  datatype Run = Finished(outcomes: seq<Outcome>) | Aborted(outcomes: seq<Outcome>)

  /** `pool.map(step, days)` with chunks of `size` days. */
  function PoolMap(step: Date --> Outcome, days: seq<Stamp>, size: nat): (r: Run)
    requires size > 0
    requires forall i :: 0 <= i < |days| ==> step.requires(days[i].date)
    ensures r.Aborted? <==> AnyFails(step, days)
    ensures r.Finished? ==> AllSteps(step, days, r.outcomes)
    ensures r.outcomes == ChunkedOutcomes(step, days, size)
  {
    ChunkedFailure(step, days, size);
    var os := ChunkedOutcomes(step, days, size);
    if HasFailure(os) then Aborted(os) else Finished(os)
  }

  /** The parent's side of `pool.map`: each chunk of `size` days handed to `ProcessDays`,
      the results gathered in chunk order. */
  method MapChunks(fs: map<string, SgdFile>, days: seq<Stamp>, heights: Date -> nat -> real, size: nat) returns (outcomes: seq<Outcome>)
    requires size > 0
    requires DownloadQueue.AllValid(days)
    ensures outcomes == ChunkedOutcomes(DayStep(fs, heights), days, size)
  {
    var step := DayStep(fs, heights);
    var done: seq<Outcome> := [];
    var i := 0;
    assert days[0..] == days;
    while i < |days|
      invariant 0 <= i <= |days|
      invariant ChunkedOutcomes(step, days, size) == done + ChunkedOutcomes(step, days[i..], size)
    {
      var j := if i + size < |days| then i + size else |days|;
      ChunkFrom(step, days, size, i);
      var outs := ProcessDays(fs, days[i..j], heights);
      done := done + outs;
      i := j;
    }
    assert days[|days|..] == [];
    outcomes := done;
  }

  /** `min(cpu_count(), 4)`. */
  function Workers(cpus: nat): (w: nat)
    requires cpus > 0
    ensures 0 < w <= 4 && w <= cpus
    ensures w == 4 || w == cpus
  {
    if cpus < 4 then cpus else 4
  }

  /** The run of convert_sgd_to_obs_mkprism.py over the 731 days of 2020 and 2021: it
      finishes, with one outcome per day in order, iff no day raises. */
  method ConvertAll(fs: map<string, SgdFile>, heights: Date -> nat -> real, cpus: nat) returns (run: Run)
    requires cpus > 0
    ensures DownloadQueue.AllValid(DailyRange(ConversionStart, ConversionEnd))
    ensures run == PoolMap(DayStep(fs, heights), DailyRange(ConversionStart, ConversionEnd), ChunkSize(731, Workers(cpus)))
    ensures run.Finished? <==> !AnyFails(DayStep(fs, heights), DailyRange(ConversionStart, ConversionEnd))
    ensures run.Finished? ==> |run.outcomes| == 731
  {
    ConversionDatesCount();
    DailyRangeShape(ConversionStart, ConversionEnd);
    var dates := DayList(ConversionStart, ConversionEnd);
    var outcomes := MapChunks(fs, dates, heights, ChunkSize(|dates|, Workers(cpus)));
    run := if HasFailure(outcomes) then Aborted(outcomes) else Finished(outcomes);
  }

  /** `process_sgd_file` of deprecated/sgd_to_mkprism_test.py as a function of the day alone. */
  function MkprismOnlyStep(fs: map<string, SgdFile>, heights: Date -> nat -> real): Date --> Outcome
  {
    d requires ValidDate(d) => ConvertMkprismOnly(fs, d, heights(d))
  }

  /** One worker's loop of deprecated/sgd_to_mkprism_test.py over its chunk. */
  method ProcessDaysMkprismOnly(fs: map<string, SgdFile>, days: seq<Stamp>, heights: Date -> nat -> real)
    returns (outcomes: seq<Outcome>)
    requires DownloadQueue.AllValid(days)
    ensures outcomes == Outcomes(MkprismOnlyStep(fs, heights), days)
  {
    var step := MkprismOnlyStep(fs, heights);
    outcomes := [];
    assert days[0..] == days;
    for i := 0 to |days|
      invariant Outcomes(step, days) == outcomes + Outcomes(step, days[i..])
    {
      var d := days[i].date;
      var o := ProcessMkprismOnly(fs, d, heights(d));
      assert o == step(d);
      OutcomesFrom(step, days, i);
      outcomes := outcomes + [o];
      if o.Failed? {
        return;
      }
    }
    assert days[|days|..] == [];
  }

  /** The parent's side of `pool.map` in deprecated/sgd_to_mkprism_test.py. */
  method MapChunksMkprismOnly(fs: map<string, SgdFile>, days: seq<Stamp>, heights: Date -> nat -> real, size: nat)
    returns (outcomes: seq<Outcome>)
    requires size > 0
    requires DownloadQueue.AllValid(days)
    ensures outcomes == ChunkedOutcomes(MkprismOnlyStep(fs, heights), days, size)
  {
    var step := MkprismOnlyStep(fs, heights);
    var done: seq<Outcome> := [];
    var i := 0;
    assert days[0..] == days;
    while i < |days|
      invariant 0 <= i <= |days|
      invariant ChunkedOutcomes(step, days, size) == done + ChunkedOutcomes(step, days[i..], size)
    {
      var j := if i + size < |days| then i + size else |days|;
      ChunkFrom(step, days, size, i);
      var outs := ProcessDaysMkprismOnly(fs, days[i..j], heights);
      done := done + outs;
      i := j;
    }
    assert days[|days|..] == [];
    outcomes := done;
  }

  /** The run of deprecated/sgd_to_mkprism_test.py over the 731 days of 2020 and 2021:
      it finishes, with one outcome per day in order, iff no day raises. */
  method ConvertAllMkprismOnly(fs: map<string, SgdFile>, heights: Date -> nat -> real, cpus: nat) returns (run: Run)
    requires cpus > 0
    ensures DownloadQueue.AllValid(DailyRange(ConversionStart, ConversionEnd))
    ensures run == PoolMap(MkprismOnlyStep(fs, heights), DailyRange(ConversionStart, ConversionEnd), ChunkSize(731, Workers(cpus)))
    ensures run.Finished? <==> !AnyFails(MkprismOnlyStep(fs, heights), DailyRange(ConversionStart, ConversionEnd))
    ensures run.Finished? ==> |run.outcomes| == 731
  {
    ConversionDatesCount();
    DailyRangeShape(ConversionStart, ConversionEnd);
    var dates := DayList(ConversionStart, ConversionEnd);
    var outcomes := MapChunksMkprismOnly(fs, dates, heights, ChunkSize(|dates|, Workers(cpus)));
    run := if HasFailure(outcomes) then Aborted(outcomes) else Finished(outcomes);
  }

  /** The text of 2020-01-01. */
  lemma FirstDayText()
    ensures ValidDate(Date(2020, 1, 1))
    ensures YearText(2020) == "2020" && Pad2(1) == "01"
    ensures YmdText(Date(2020, 1, 1)) == "20200101"
  {
    assert Decimal(2) == "2";
    DecimalAppend(2, 0);
    DecimalAppend(20, 2);
    DecimalAppend(202, 0);
    assert Pad2(1) == "01";
  }

  /** The names of 2020-01-01 that the one-shot scripts spell out. */
  lemma FirstDayNames()
    ensures ValidDate(Date(2020, 1, 1))
    ensures InputName(Date(2020, 1, 1)) == "sfc_grid_ta_202001010000.nc"
    ensures ObsName(Date(2020, 1, 1)) == "obs_ta_202001010000.nc"
    ensures MkprismName(Date(2020, 1, 1)) == "mkprism_ta_202001010000.nc"
  {
    FirstDayText();
  }

  /** The one-shot scripts read the file of 2020-01-01 below the same directory as
      the daily run. */
  lemma OneShotPath(base: string)
    requires base != [] && base[|base| - 1] != '/'
    ensures ValidDate(Date(2020, 1, 1))
    ensures InputPath(base, Date(2020, 1, 1)) == base + "/2020/01/01/" + "sfc_grid_ta_202001010000.nc"
  {
    var d := Date(2020, 1, 1);
    FirstDayText();
    FirstDayNames();
    InputPathSlashes(base, d);
    var dir := "/" + YearText(2020) + "/" + Pad2(1) + "/" + Pad2(1) + "/";
    assert dir == "/2020/01/01/";
    assert base + "/" + YearText(2020) + "/" + Pad2(1) + "/" + Pad2(1) + "/" + InputName(d) == base + dir + InputName(d);
  }
}
