/** RMSE_TEST/create_data/check_sgd_file_size_1.py: one record per grid file found,
    with its size in a human-readable unit, and the split of the records into
    files below a minimum size (abnormal) and the rest (normal). `format_size`
    is the same function in RMSE_TEST/create_data/check_data_file_test.py. */
module SizeCheck {
  import opened Options
  import opened Text

  function Pow1024(k: nat): (p: nat)
    ensures p >= 1
  {
    if k == 0 then 1 else 1024 * Pow1024(k - 1)
  }

  /** The unit texts `format_size` tries, then the one it falls back to. */
  const Units: seq<string> := ["B", "KB", "MB", "GB"]
  const LastUnit := "TB"

  /** The unit index `format_size` settles on when it has reached index `k`. */
  function UnitFrom(size: real, k: nat): (n: nat)
    requires k <= 4
    ensures k <= n <= 4
    ensures n < 4 ==> size / Pow1024(n) as real < 1024.0
    ensures forall j :: k <= j < n ==> size / Pow1024(j) as real >= 1024.0
    decreases 4 - k
  {
    if k == 4 || size / Pow1024(k) as real < 1024.0 then k else UnitFrom(size, k + 1)
  }

  /** The smallest k < 4 with size / 1024^k < 1024, or 4 (terabytes) if there is none. */
  function UnitIndex(size: real): (k: nat)
    ensures k <= 4
    ensures k < 4 ==> size / Pow1024(k) as real < 1024.0
    ensures forall j :: 0 <= j < k ==> size / Pow1024(j) as real >= 1024.0
  {
    UnitFrom(size, 0)
  }

  lemma DivideAgain(size: real, k: nat)
    ensures size / Pow1024(k) as real / 1024.0 == size / Pow1024(k + 1) as real
  {
    var p := Pow1024(k) as real;
    assert Pow1024(k + 1) as real == p * 1024.0;
    calc {
      size / p / 1024.0;
      (size / p) / 1024.0;
      size / (p * 1024.0);
    }
  }

  /** `format_size(size_bytes)` without the `.1f` rendering: the number shown and its unit. */
  method FormatSize(sizeBytes: real) returns (value: real, unit: string)
    ensures var k := UnitIndex(sizeBytes);
            value == sizeBytes / Pow1024(k) as real
            && unit == (if k < 4 then Units[k] else LastUnit)
  {
    var size := sizeBytes;
    var k := 0;
    while k < 4
      invariant 0 <= k <= 4 && size == sizeBytes / Pow1024(k) as real
      invariant UnitFrom(sizeBytes, k) == UnitIndex(sizeBytes)
    {
      if size < 1024.0 {
        return size, Units[k];
      }
      DivideAgain(sizeBytes, k);
      size := size / 1024.0;
      k := k + 1;
    }
    return size, LastUnit;
  }

  /** A size of at least 1 KB is shown as a number between 1 and 1024 of the chosen
      unit; a smaller non-negative size is shown as bytes. */
  lemma FormatSizeRange(size: real)
    requires size >= 0.0
    ensures var k := UnitIndex(size);
            (k == 0 <==> size < 1024.0)
            && (k > 0 ==> 1.0 <= size / Pow1024(k) as real)
            && (k < 4 ==> size / Pow1024(k) as real < 1024.0)
  {
    var k := UnitIndex(size);
    if k > 0 {
      DivideAgain(size, k - 1);
      var q := size / Pow1024(k - 1) as real;
      assert q >= 1024.0;
      assert size / Pow1024(k) as real == q / 1024.0;
    }
  }

  // ---- check_file_sizes ----

  datatype FileRecord = FileRecord(filename: string, sizeBytes: nat, sizeValue: real, sizeUnit: string, path: string)

  datatype SizeReport = SizeReport(all: seq<FileRecord>, abnormal: seq<FileRecord>, normal: seq<FileRecord>)

  /** The record of one globbed file, given its path and size. */
  function Record(path: string, size: nat): (r: FileRecord)
    ensures r.path == path && r.sizeBytes == size && r.filename == Basename(path)
  {
    var k := UnitIndex(size as real);
    FileRecord(Basename(path), size, size as real / Pow1024(k) as real, if k < 4 then Units[k] else LastUnit, path)
  }

  /** `df[df['size_bytes'] < min_size]`. */
  function Abnormal(records: seq<FileRecord>, minSize: int): (r: seq<FileRecord>)
    ensures |r| <= |records|
  {
    if records == [] then []
    else (if records[0].sizeBytes < minSize then [records[0]] else []) + Abnormal(records[1..], minSize)
  }

  /** `df[df['size_bytes'] >= min_size]`. */
  function Normal(records: seq<FileRecord>, minSize: int): (r: seq<FileRecord>)
    ensures |r| <= |records|
  {
    if records == [] then []
    else (if records[0].sizeBytes >= minSize then [records[0]] else []) + Normal(records[1..], minSize)
  }

  /** Every record is in exactly one of the two tables, and the counts add up. */
  lemma {:induction false} Partition(records: seq<FileRecord>, minSize: int)
    ensures |Abnormal(records, minSize)| + |Normal(records, minSize)| == |records|
    ensures forall r :: r in Abnormal(records, minSize) <==> r in records && r.sizeBytes < minSize
    ensures forall r :: r in Normal(records, minSize) <==> r in records && r.sizeBytes >= minSize
  {
    if records != [] {
      Partition(records[1..], minSize);
      assert records == [records[0]] + records[1..];
    }
  }

  /** `check_file_sizes(base_dir, var, min_size)` on the globbed list of (path, size):
      no report for an empty list, otherwise the records in list order and their split. */
  method CheckFileSizes(files: seq<(string, nat)>, minSize: int) returns (report: Option<SizeReport>)
    ensures files == [] <==> report.None?
    ensures report.Some? ==>
              |report.value.all| == |files|
              && (forall i :: 0 <= i < |files| ==> report.value.all[i] == Record(files[i].0, files[i].1))
              && report.value.abnormal == Abnormal(report.value.all, minSize)
              && report.value.normal == Normal(report.value.all, minSize)
  {
    if files == [] {
      return None;
    }
    var data: seq<FileRecord> := [];
    for i := 0 to |files|
      invariant |data| == i && forall j :: 0 <= j < i ==> data[j] == Record(files[j].0, files[j].1)
    {
      var (path, size) := files[i];
      var value, unit := FormatSize(size as real);
      data := data + [FileRecord(Basename(path), size, value, unit, path)];
    }
    return Some(SizeReport(data, Abnormal(data, minSize), Normal(data, minSize)));
  }
}
