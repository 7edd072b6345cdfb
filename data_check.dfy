/** RMSE_TEST_2/PROG/create_data/deprecated/check_data.py: for each of the
    three data sets (SGD, OBS, MK-PRISM), the `.nc` files of its directory in
    name order, and for each file its size in KB, the number of -9990 values,
    the number of values outside [-100, 100], and all its values.

    Values are IEEE results of the SGD scaling: a division by a zero
    `data_scale` gives an infinity or NaN, as NumPy does, rather than an error.
    The directory listing and what `xr.open_dataset` gives for each file are
    inputs; the plots are not modelled. */
module DataCheck {
  import opened Options
  import opened Text
  import opened Ordering
  import opened Values
  import Grid

  /** One data variable of a dataset: its flattened values as `xr.open_dataset` decodes
      them (cells equal to `_FillValue` come back as NaN) and its `data_scale`
      attribute, if any. */
  datatype Variable = Variable(values: seq<Float>, dataScale: Option<real>)

  /** What `xr.open_dataset` gives: an error, or the variables and the file size in bytes. */
  datatype DataFile = Unreadable | Readable(variables: map<string, Variable>, size: nat)

  /** The tuple `process_file` returns. */
  datatype FileResult = FileResult(sizeKb: real, missing: nat, outliers: nat, values: seq<Float>)

  /** `"temperature" if name in ["OBS", "MKPRISE"] else "data"`. */
  function VarName(name: string): (v: string)
    ensures v == "temperature" <==> name == "OBS" || name == "MKPRISE"
    ensures v != "temperature" ==> v == "data"
  {
    if name == "OBS" || name == "MKPRISE" then "temperature" else "data"
  }

  /** The values as counted: SGD values divided by `data_scale` (1.0 when absent), others
      as read. A NaN stays NaN, and the only new NaN is a zero over a zero scale. */
  function Converted(name: string, v: Variable): (r: seq<Float>)
    ensures |r| == |v.values|
    ensures forall i :: 0 <= i < |v.values| ==>
              (r[i].NaN? <==> v.values[i].NaN? || (name == "SGD" && v.dataScale == Some(0.0) && v.values[i] == Finite(0.0)))
  {
    if name == "SGD" then
      var scale := if v.dataScale.Some? then v.dataScale.value else 1.0;
      seq(|v.values|, i requires 0 <= i < |v.values| => Grid.ScaleCell(v.values[i], scale))
    else
      v.values
  }

  /** Without a `data_scale` other than 1, the values are counted as read. */
  lemma ConvertedUnscaled(name: string, v: Variable)
    requires name != "SGD" || v.dataScale.None? || v.dataScale == Some(1.0)
    ensures Converted(name, v) == v.values
  {
  }

  /** With a scale other than 1, a raw -9990 is no longer -9990 once scaled. */
  lemma ScaledSentinelNotMissing(s: real)
    requires s != 1.0
    ensures !IsMissing(Divide(MissingValue, s))
  {
  }

  predicate IsMissing(v: Float)
  {
    v == Finite(MissingValue)
  }

  /** `(data < -100) | (data > 100)`: NaN compares false, the infinities true. */
  predicate IsOutlier(v: Float)
  {
    match v
    case Finite(x) => x < -100.0 || x > 100.0
    case PosInf => true
    case NegInf => true
    case NaN => false
  }

  function CountMissing(vs: seq<Float>): (n: nat)
    ensures n <= |vs|
  {
    if vs == [] then 0 else (if IsMissing(vs[0]) then 1 else 0) + CountMissing(vs[1..])
  }

  function CountOutliers(vs: seq<Float>): (n: nat)
    ensures n <= |vs|
  {
    if vs == [] then 0 else (if IsOutlier(vs[0]) then 1 else 0) + CountOutliers(vs[1..])
  }

  /** Every missing value (-9990) is also below -100, so it is counted as an outlier too. */
  lemma {:induction false} MissingAreOutliers(vs: seq<Float>)
    ensures CountMissing(vs) <= CountOutliers(vs)
  {
    if vs != [] {
      MissingAreOutliers(vs[1..]);
    }
  }

  /** On finite values the outliers are those strictly below -100 plus those strictly above 100. */
  lemma {:induction false} OutliersFinite(xs: seq<real>)
    ensures CountOutliers(seq(|xs|, i requires 0 <= i < |xs| => Finite(xs[i])))
            == CountBelow(xs, -100.0) + CountAbove(xs, 100.0)
  {
    if xs != [] {
      var vs := seq(|xs|, i requires 0 <= i < |xs| => Finite(xs[i]));
      assert vs[1..] == seq(|xs| - 1, i requires 0 <= i < |xs| - 1 => Finite(xs[1..][i]));
      OutliersFinite(xs[1..]);
    }
  }

  /** `process_file`: `None` when the file does not open or lacks the variable. */
  function ProcessFile(name: string, f: DataFile): (r: Option<FileResult>)
    ensures r.Some? <==> f.Readable? && VarName(name) in f.variables
    ensures r.Some? ==> r.value.sizeKb == f.size as real / 1024.0
                        && r.value.values == Converted(name, f.variables[VarName(name)])
                        && r.value.missing <= r.value.outliers <= |r.value.values|
  {
    match f
    case Unreadable => None
    case Readable(variables, size) =>
      var v := VarName(name);
      if v !in variables then None
      else
        var values := Converted(name, variables[v]);
        MissingAreOutliers(values);
        Some(FileResult(size as real / 1024.0, CountMissing(values), CountOutliers(values), values))
  }

  // ---- the file list ----

  /** A directory entry: its name and what opening it gives. */
  type Entry = (string, DataFile)

  /** `[f for f in os.listdir(path) if f.endswith(".nc")]`. */
  function NcEntries(listing: seq<Entry>): (r: seq<Entry>)
    ensures forall e :: e in r <==> e in listing && EndsWith(e.0, ".nc")
    ensures multiset(r) <= multiset(listing)
  {
    if listing == [] then []
    else
      var n := |listing| - 1;
      assert listing == listing[..n] + [listing[n]];
      NcEntries(listing[..n]) + (if EndsWith(listing[n].0, ".nc") then [listing[n]] else [])
  }

  predicate NameOrdered(s: seq<Entry>)
  {
    forall i, j :: 0 <= i < j < |s| ==> !LexLess(s[j].0, s[i].0)
  }

  /** Putting an entry into a name-ordered list before the first larger name. */
  function Insert(x: Entry, s: seq<Entry>): (r: seq<Entry>)
    requires NameOrdered(s)
    ensures NameOrdered(r) && multiset(r) == multiset(s) + multiset{x}
  {
    if s == [] then [x]
    else if LexLess(x.0, s[0].0) then
      LexLessAsymmetric(x.0, s[0].0);
      assert forall j :: 0 < j < |s| ==> !LexLess(s[j].0, x.0) by {
        forall j | 0 < j < |s|
          ensures !LexLess(s[j].0, x.0)
        {
          if LexLess(s[j].0, x.0) {
            LexLessTransitive(s[j].0, x.0, s[0].0);
          }
        }
      }
      [x] + s
    else
      var rest := Insert(x, s[1..]);
      assert s == [s[0]] + s[1..];
      assert forall j :: 0 <= j < |rest| ==> !LexLess(rest[j].0, s[0].0) by {
        forall j | 0 <= j < |rest|
          ensures !LexLess(rest[j].0, s[0].0)
        {
          assert rest[j] in multiset(rest);
          if rest[j] != x {
            assert rest[j] in s[1..];
          }
        }
      }
      [s[0]] + rest
  }

  /** `sorted(...)` of the names. */
  function SortByName(s: seq<Entry>): (r: seq<Entry>)
    ensures NameOrdered(r) && multiset(r) == multiset(s)
  {
    if s == [] then []
    else
      var n := |s| - 1;
      assert s == s[..n] + [s[n]];
      Insert(s[n], SortByName(s[..n]))
  }

  // ---- one data set ----

  /** The lists the plots are drawn from, one entry per surviving file. */
  datatype Summary = Summary(sizes: seq<real>, missing: seq<nat>, outliers: seq<nat>, all: seq<Float>)

  datatype DatasetOutcome =
    | NoFiles                  // no `.nc` file: `continue`
    | Aborted(reason: string)  // `np.concatenate([])` or the histogram raises
    | Checked(summary: Summary)

  /** Every value is a finite number. */
  predicate AllFinite(vs: seq<Float>)
  {
    forall i :: 0 <= i < |vs| ==> vs[i].Finite?
  }

  /** `np.concatenate` of the value lists. */
  function Flatten(parts: seq<seq<Float>>): (r: seq<Float>)
  {
    if parts == [] then [] else parts[0] + Flatten(parts[1..])
  }

  function Outputs(name: string, files: seq<Entry>): (r: seq<Option<FileResult>>)
    ensures |r| == |files| && forall i :: 0 <= i < |files| ==> r[i] == ProcessFile(name, files[i].1)
  {
    seq(|files|, i requires 0 <= i < |files| => ProcessFile(name, files[i].1))
  }

  /** The lists built from the surviving results, each in result order. */
  function Aggregate(results: seq<FileResult>): (s: Summary)
    ensures |s.sizes| == |s.missing| == |s.outliers| == |results|
    ensures forall i :: 0 <= i < |results| ==>
              s.sizes[i] == results[i].sizeKb && s.missing[i] == results[i].missing
              && s.outliers[i] == results[i].outliers
    ensures s.all == Flatten(seq(|results|, i requires 0 <= i < |results| => results[i].values))
  {
    Summary(seq(|results|, i requires 0 <= i < |results| => results[i].sizeKb),
            seq(|results|, i requires 0 <= i < |results| => results[i].missing),
            seq(|results|, i requires 0 <= i < |results| => results[i].outliers),
            Flatten(seq(|results|, i requires 0 <= i < |results| => results[i].values)))
  }

  /** Every file counted has at least as many outliers as missing values. */
  lemma AggregateMissingOutliers(name: string, files: seq<Entry>, i: nat)
    requires i < |Somes(Outputs(name, files))|
    ensures Aggregate(Somes(Outputs(name, files))).missing[i] <= Aggregate(Somes(Outputs(name, files))).outliers[i]
  {
    var opts := Outputs(name, files);
    var r := Somes(opts)[i];
    SomesMembership(opts, r);
    var k :| 0 <= k < |opts| && opts[k] == Some(r);
  }

  /** The number of values is the total over the surviving files. */
  lemma {:induction false} FlattenLength(parts: seq<seq<Float>>, k: nat)
    requires k <= |parts|
    ensures |Flatten(parts[..k])| + |Flatten(parts[k..])| == |Flatten(parts)|
    decreases k
  {
    if k > 0 {
      assert parts[..k][1..] == parts[1..][..k - 1];
      assert parts[k..] == parts[1..][k - 1..];
      FlattenLength(parts[1..], k - 1);
    } else {
      assert parts[..0] == [] && parts[0..] == parts;
    }
  }

  /** The concatenation is finite exactly when every part is. */
  lemma {:induction false} FlattenFinite(parts: seq<seq<Float>>)
    ensures AllFinite(Flatten(parts)) <==> forall k :: 0 <= k < |parts| ==> AllFinite(parts[k])
  {
    if parts != [] {
      FlattenFinite(parts[1..]);
      var all := Flatten(parts);
      assert all == parts[0] + Flatten(parts[1..]);
      if AllFinite(all) {
        forall k | 0 <= k < |parts|
          ensures AllFinite(parts[k])
        {
          if k == 0 {
            assert forall i :: 0 <= i < |parts[0]| ==> parts[0][i] == all[i];
          } else {
            assert parts[k] == parts[1..][k - 1];
            assert forall i :: 0 <= i < |Flatten(parts[1..])| ==> Flatten(parts[1..])[i] == all[|parts[0]| + i];
          }
        }
      }
      if forall k :: 0 <= k < |parts| ==> AllFinite(parts[k]) {
        assert AllFinite(parts[0]);
        assert forall k :: 0 <= k < |parts[1..]| ==> parts[1..][k] == parts[k + 1];
      }
    }
  }

  /** The aggregated values are all finite exactly when each surviving file's are. */
  lemma AggregateFinite(name: string, ncFiles: seq<Entry>)
    ensures AllFinite(Aggregate(Somes(Outputs(name, ncFiles))).all)
            <==> forall e :: e in ncFiles && ProcessFile(name, e.1).Some? ==> AllFinite(ProcessFile(name, e.1).value.values)
  {
    var opts := Outputs(name, ncFiles);
    var results := Somes(opts);
    var parts := seq(|results|, i requires 0 <= i < |results| => results[i].values);
    FlattenFinite(parts);
    if forall e :: e in ncFiles && ProcessFile(name, e.1).Some? ==> AllFinite(ProcessFile(name, e.1).value.values) {
      forall k | 0 <= k < |parts|
        ensures AllFinite(parts[k])
      {
        SomesMembership(opts, results[k]);
        var j :| 0 <= j < |opts| && opts[j] == Some(results[k]);
        assert ncFiles[j] in ncFiles;
      }
    }
    if forall k :: 0 <= k < |parts| ==> AllFinite(parts[k]) {
      forall e | e in ncFiles && ProcessFile(name, e.1).Some?
        ensures AllFinite(ProcessFile(name, e.1).value.values)
      {
        var j :| 0 <= j < |ncFiles| && ncFiles[j] == e;
        var r := ProcessFile(name, e.1).value;
        assert opts[j] == Some(r);
        SomesMembership(opts, r);
        var k :| 0 <= k < |results| && results[k] == r;
        assert parts[k] == r.values;
      }
    }
  }

  /** The data set's sorted `.nc` files, processed, filtered and aggregated. With no
      surviving file `np.concatenate` raises; with a NaN or an infinity among the
      values `plt.hist`, which takes its range from the data, raises. */
  function CheckFiles(name: string, ncFiles: seq<Entry>): (o: DatasetOutcome)
    ensures o == NoFiles <==> ncFiles == []
    ensures o.Aborted? <==> ncFiles != [] && (Somes(Outputs(name, ncFiles)) == []
                                              || !AllFinite(Aggregate(Somes(Outputs(name, ncFiles))).all))
    ensures o.Checked? ==> o.summary == Aggregate(Somes(Outputs(name, ncFiles))) && AllFinite(o.summary.all)
  {
    if ncFiles == [] then NoFiles
    else
      var results := Somes(Outputs(name, ncFiles));
      if results == [] then Aborted("ValueError: need at least one array to concatenate")
      else
        var summary := Aggregate(results);
        if !AllFinite(summary.all) then Aborted("ValueError: autodetected range is not finite")
        else Checked(summary)
  }

  /** The loop body of the data-set loop: list, sort, process, filter, aggregate. */
  function CheckDataset(name: string, listing: seq<Entry>): (o: DatasetOutcome)
    ensures o == NoFiles <==> NcEntries(listing) == []
    ensures o.Checked? ==> o.summary == Aggregate(Somes(Outputs(name, SortByName(NcEntries(listing)))))
  {
    var ncFiles := SortByName(NcEntries(listing));
    assert |multiset(ncFiles)| == |multiset(NcEntries(listing))|;
    CheckFiles(name, ncFiles)
  }

  /** A data set aborts the script exactly when it has `.nc` files and either none of
      them is processed or a processed one holds a NaN or an infinity. */
  lemma CheckDatasetAborts(name: string, listing: seq<Entry>)
    ensures CheckDataset(name, listing).Aborted?
            <==> NcEntries(listing) != []
                 && ((forall e :: e in NcEntries(listing) ==> ProcessFile(name, e.1).None?)
                     || exists e :: e in NcEntries(listing) && ProcessFile(name, e.1).Some?
                                    && !AllFinite(ProcessFile(name, e.1).value.values))
  {
    var ncFiles := SortByName(NcEntries(listing));
    var opts := Outputs(name, ncFiles);
    SomesEmpty(opts);
    AggregateFinite(name, ncFiles);
    forall e
      ensures e in NcEntries(listing) <==> e in ncFiles
    {
      assert e in NcEntries(listing) <==> e in multiset(NcEntries(listing));
    }
    if forall e :: e in ncFiles ==> ProcessFile(name, e.1).None? {
      forall i | 0 <= i < |opts|
        ensures opts[i].None?
      {
        assert ncFiles[i] in ncFiles;
      }
    }
  }

  /** An OBS directory with one file whose only cell is masked: the histogram of `[nan]`
      raises, so the run stops there. */
  lemma MaskedCellStopsDataset()
    ensures CheckDataset("OBS", [("a.nc", Readable(map["temperature" := Variable([NaN], None)], 1024))]).Aborted?
  {
    var e: Entry := ("a.nc", Readable(map["temperature" := Variable([NaN], None)], 1024));
    assert EndsWith(e.0, ".nc");
    assert e in NcEntries([e]);
    assert VarName("OBS") == "temperature";
    assert !AllFinite(ProcessFile("OBS", e.1).value.values);
    CheckDatasetAborts("OBS", [e]);
  }

  /** The data sets in the order of the `datasets` dictionary. */
  const DatasetNames: seq<string> := ["SGD", "OBS", "MKPRISE"]

  /** The outcomes a run of `check` over the data sets gets through: the data sets in
      order, up to and including the first one that aborts. */
  function RunWith(check: (string, seq<Entry>) -> DatasetOutcome, datasets: seq<(string, seq<Entry>)>): (r: seq<DatasetOutcome>)
    ensures |r| <= |datasets| && (datasets != [] ==> r != [])
  {
    if datasets == [] then []
    else
      var o := check(datasets[0].0, datasets[0].1);
      if o.Aborted? then [o] else [o] + RunWith(check, datasets[1..])
  }

  /** The script's run: every data set checked by `CheckDataset`. */
  function Run(datasets: seq<(string, seq<Entry>)>): (r: seq<DatasetOutcome>)
    ensures |r| <= |datasets| && (datasets != [] ==> r != [])
  {
    RunWith((name, listing) => CheckDataset(name, listing), datasets)
  }

  /** Every data set reached is checked on its own listing. */
  lemma {:induction false} RunWithChecks(check: (string, seq<Entry>) -> DatasetOutcome, datasets: seq<(string, seq<Entry>)>, i: nat)
    requires i < |RunWith(check, datasets)|
    ensures RunWith(check, datasets)[i] == check(datasets[i].0, datasets[i].1)
    decreases i
  {
    if i > 0 {
      RunWithChecks(check, datasets[1..], i - 1);
    }
  }

  /** Only the last data set reached can abort. */
  lemma {:induction false} RunWithAbortsLast(check: (string, seq<Entry>) -> DatasetOutcome, datasets: seq<(string, seq<Entry>)>, i: nat)
    requires i + 1 < |RunWith(check, datasets)|
    ensures !RunWith(check, datasets)[i].Aborted?
    decreases i
  {
    if i > 0 {
      RunWithAbortsLast(check, datasets[1..], i - 1);
    }
  }

  /** The run stops early only on an abort. */
  lemma {:induction false} RunWithStopsOnAbort(check: (string, seq<Entry>) -> DatasetOutcome, datasets: seq<(string, seq<Entry>)>)
    ensures |RunWith(check, datasets)| < |datasets| ==> RunWith(check, datasets)[|RunWith(check, datasets)| - 1].Aborted?
  {
    if datasets != [] && !check(datasets[0].0, datasets[0].1).Aborted? {
      RunWithStopsOnAbort(check, datasets[1..]);
    }
  }

  /** In the script's run, every data set reached is checked by `CheckDataset`. */
  lemma RunChecks(datasets: seq<(string, seq<Entry>)>, i: nat)
    requires i < |Run(datasets)|
    ensures Run(datasets)[i] == CheckDataset(datasets[i].0, datasets[i].1)
  {
    RunWithChecks((name, listing) => CheckDataset(name, listing), datasets, i);
  }

  /** In the script's run, only the last data set reached can abort. */
  lemma RunAbortsLast(datasets: seq<(string, seq<Entry>)>, i: nat)
    requires i + 1 < |Run(datasets)|
    ensures !Run(datasets)[i].Aborted?
  {
    RunWithAbortsLast((name, listing) => CheckDataset(name, listing), datasets, i);
  }

  /** The script stops early only on an abort. */
  lemma RunStopsOnAbort(datasets: seq<(string, seq<Entry>)>)
    ensures |Run(datasets)| < |datasets| ==> Run(datasets)[|Run(datasets)| - 1].Aborted?
  {
    RunWithStopsOnAbort((name, listing) => CheckDataset(name, listing), datasets);
  }

  /** The results from data set `i` on: its outcome, then the rest unless it aborts. */
  lemma RunWithFrom(check: (string, seq<Entry>) -> DatasetOutcome, datasets: seq<(string, seq<Entry>)>, i: nat)
    requires i < |datasets|
    ensures var o := check(datasets[i].0, datasets[i].1);
            RunWith(check, datasets[i..]) == if o.Aborted? then [o] else [o] + RunWith(check, datasets[i + 1..])
  {
    assert datasets[i..][1..] == datasets[i + 1..];
  }

  /** The module-level loop over the data sets, each a name and its directory listing
      (`DatasetNames` in the script); an exception ends the script. */
  method CheckAll(datasets: seq<(string, seq<Entry>)>) returns (outcomes: seq<DatasetOutcome>)
    ensures outcomes == Run(datasets)
  {
    var check := (name, listing) => CheckDataset(name, listing);
    outcomes := [];
    assert datasets[0..] == datasets;
    for i := 0 to |datasets|
      invariant RunWith(check, datasets) == outcomes + RunWith(check, datasets[i..])
    {
      var o := CheckDataset(datasets[i].0, datasets[i].1);
      assert o == check(datasets[i].0, datasets[i].1);
      RunWithFrom(check, datasets, i);
      outcomes := outcomes + [o];
      if o.Aborted? {
        return;
      }
    }
    assert datasets[|datasets|..] == [];
  }
}
