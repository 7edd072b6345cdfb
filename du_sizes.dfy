/** RMSE_TEST/create_data/check_data_file_2.py: reading the tab-separated output of
    `du -h`, turning each size text into bytes, and counting the entries below
    350 KiB as abnormal. */
module DuSizes {
  import opened Options
  import opened Text

  /** 10 to the power `k`. */
  function Pow10(k: nat): (p: nat)
    ensures p >= 1
  {
    if k == 0 then 1 else 10 * Pow10(k - 1)
  }

  /** The text after an optional leading sign. */
  function Unsigned(s: string): (r: string)
    ensures |r| <= |s|
  {
    if s != [] && (s[0] == '+' || s[0] == '-') then s[1..] else s
  }

  /** The digits before the decimal point. */
  function WholePart(b: string): (r: string)
    ensures |r| <= |b|
  {
    BeforeFirst(b, '.')
  }

  /** The text after the first decimal point, or nothing if there is none. */
  function FractionPart(b: string): (r: string)
  {
    if |WholePart(b)| < |b| then b[|WholePart(b)| + 1..] else []
  }

  /** A decimal literal: optional sign, digits, optionally a point and more digits, at
      least one digit in all. */
  predicate IsDecimal(s: string)
  {
    var b := Unsigned(s);
    AllDigits(WholePart(b)) && AllDigits(FractionPart(b)) && |WholePart(b)| + |FractionPart(b)| > 0
  }

  /** The value of a digit string, or 0 for the empty string. */
  function DigitsValue(s: string): nat
    requires AllDigits(s)
  {
    if s == [] then 0 else NatValue(s)
  }

  /** The number a decimal literal denotes. */
  function DecimalValue(s: string): real
    requires IsDecimal(s)
  {
    var b := Unsigned(s);
    var magnitude := DigitsValue(WholePart(b)) as real
                     + DigitsValue(FractionPart(b)) as real / Pow10(|FractionPart(b)|) as real;
    if s != [] && s[0] == '-' then -magnitude else magnitude
  }

  /** `float(s)` on decimal literals, after Python strips surrounding whitespace;
      `None` where `float` raises `ValueError`. */
  function ParseFloat(text: string): (r: Option<real>)
    ensures r.Some? <==> IsDecimal(Strip(text))
  {
    if IsDecimal(Strip(text)) then Some(DecimalValue(Strip(text))) else None
  }

  /** Python's `isdigit` on ASCII text: non-empty and all digits. */
  predicate IsDigitText(s: string)
  {
    s != [] && AllDigits(s)
  }

  /** The number before a unit letter times the unit, or 0 when `float` rejects it. */
  function Scaled(number: string, unit: real): (r: real)
  {
    match ParseFloat(number)
    case None => 0.0
    case Some(x) => x * unit
  }

  /** `convert_size_to_bytes(size_str)`: `None` where the function falls off its end
      (returning Python's `None`). */
  function ConvertSizeToBytes(s: string): (r: Option<real>)
    ensures r.Some? <==> EndsWith(s, "K") || EndsWith(s, "M") || IsDigitText(s)
  {
    if EndsWith(s, "K") then Some(Scaled(s[..|s| - 1], 1024.0))
    else if EndsWith(s, "M") then Some(Scaled(s[..|s| - 1], 1024.0 * 1024.0))
    else if IsDigitText(s) then Some(NatValue(s) as real)
    else None
  }

  /** A whole number of kibibytes, as `du -h` prints it, converts to that many times 1024. */
  lemma ConvertKilobytes(n: nat)
    ensures ConvertSizeToBytes(Decimal(n) + "K") == Some(n as real * 1024.0)
  {
    var s := Decimal(n) + "K";
    assert s[..|s| - 1] == Decimal(n);
    assert EndsWith(s, "K") by { assert s[|s| - 1..] == "K"; }
    IsDecimalOfDigits(Decimal(n));
  }

  /** The same for mebibytes. */
  lemma ConvertMegabytes(n: nat)
    ensures ConvertSizeToBytes(Decimal(n) + "M") == Some(n as real * 1048576.0)
  {
    var s := Decimal(n) + "M";
    assert s[..|s| - 1] == Decimal(n);
    assert !EndsWith(s, "K") by { assert s[|s| - 1] == 'M'; }
    assert EndsWith(s, "M") by { assert s[|s| - 1..] == "M"; }
    IsDecimalOfDigits(Decimal(n));
  }

  /** A bare count of bytes converts to itself. */
  lemma ConvertBytes(n: nat)
    ensures ConvertSizeToBytes(Decimal(n)) == Some(n as real)
  {
    var s := Decimal(n);
    assert !EndsWith(s, "K") && !EndsWith(s, "M") by {
      assert IsDigit(s[|s| - 1]);
    }
  }

  /** A digit string has no sign, no point and no fraction. */
  lemma DigitsParts(s: string)
    requires IsDigitText(s)
    ensures Unsigned(s) == s && WholePart(s) == s && FractionPart(s) == []
  {
    assert IsDigit(s[0]);
    BeforeFirstOfDigits(s);
  }

  /** A digit string is a decimal literal whose value is the number it spells. */
  lemma DigitsDecimalValue(s: string)
    requires IsDigitText(s)
    ensures IsDecimal(s) && DecimalValue(s) == NatValue(s) as real
  {
    DigitsParts(s);
    assert Pow10(0) == 1;
  }

  /** A digit string is a decimal literal denoting its own value. */
  lemma IsDecimalOfDigits(s: string)
    requires IsDigitText(s)
    ensures IsDecimal(s) && ParseFloat(s) == Some(NatValue(s) as real)
  {
    assert IsDigit(s[0]) && IsDigit(s[|s| - 1]);
    StripUnchanged(s);
    DigitsDecimalValue(s);
  }

  lemma {:induction false} BeforeFirstOfDigits(s: string)
    requires AllDigits(s)
    ensures BeforeFirst(s, '.') == s
  {
    if s != [] {
      BeforeFirstOfDigits(s[1..]);
    }
  }

  /** A fractional size as `du -h` prints it. */
  lemma MegabyteExample()
    ensures ConvertSizeToBytes("2.5M") == Some(2621440.0)
  {
    var s := "2.5M";
    assert s[..|s| - 1] == "2.5";
    StripUnchanged("2.5");
    assert Unsigned("2.5") == "2.5";
    assert WholePart("2.5") == "2";
    assert FractionPart("2.5") == "5";
    assert NatValue("2") == 2 && NatValue("5") == 5;
  }

  /** An unparsable number before the unit counts as zero bytes. */
  lemma UnparsableExample()
    ensures ConvertSizeToBytes("xK") == Some(0.0)
  {
    var s := "xK";
    assert EndsWith(s, "K") && s[..|s| - 1] == "x";
    StripUnchanged("x");
    assert Unsigned("x") == "x";
    assert WholePart("x") == "x";
    assert !IsDigit("x"[0]);
  }

  /** Gigabytes, plain decimals and the empty text fall through to `None`. */
  lemma FallThroughExamples()
    ensures ConvertSizeToBytes("1.2G") == None
    ensures ConvertSizeToBytes("1.5") == None
    ensures ConvertSizeToBytes("") == None
  {
    assert !IsDigit("1.2G"[1]);
    assert !IsDigit("1.5"[1]);
  }

  // ---- reading the du listing ----

  /** A parsed line: the converted size and the path. */
  datatype Entry = Entry(size: Option<real>, path: string)

  /** `t.split('\t', 1)` unpacked into two names: the text before the first tab and
      the rest, which keeps any later tabs; `None` where the unpacking raises. */
  function SplitAtTab(t: string): (r: Option<(string, string)>)
    ensures r.Some? <==> '\t' in t
    ensures r.Some? ==> t == r.value.0 + "\t" + r.value.1 && '\t' !in r.value.0
  {
    var size := BeforeFirst(t, '\t');
    BeforeFirstSpec(t, '\t');
    if |size| == |t| then None
    else
      assert t == size + "\t" + t[|size| + 1..];
      Some((size, t[|size| + 1..]))
  }

  /** `line.strip().split('\t', 1)`, unpacked. */
  function SplitLine(line: string): Option<(string, string)>
  {
    SplitAtTab(Strip(line))
  }

  /** The data list built from the lines that contain a tab, in file order. */
  function ParseLines(lines: seq<string>): (r: Result<seq<Entry>>)
    ensures r.Ok? ==> |r.value| <= |lines|
  {
    if lines == [] then Ok([])
    else
      var n := |lines| - 1;
      match ParseLines(lines[..n])
      case Raised(e) => Raised(e)
      case Ok(front) =>
        if '\t' !in lines[n] then Ok(front)
        else match SplitLine(lines[n])
          case None => Raised("ValueError: not enough values to unpack")
          case Some((size, path)) => Ok(front + [Entry(ConvertSizeToBytes(size), path)])
  }

  /** A line with a tab that `strip` removes: its split has one part, and unpacking it raises. */
  predicate BadLine(line: string)
  {
    '\t' in line && '\t' !in Strip(line)
  }

  /** What one line adds to the data list: nothing without a tab, otherwise its
      converted size and path (`None` too for a line that raises). */
  function LineEntry(line: string): Option<Entry>
  {
    if '\t' !in line then None
    else match SplitLine(line)
      case None => None
      case Some((size, path)) => Some(Entry(ConvertSizeToBytes(size), path))
  }

  /** Each line's contribution, in file order. */
  function LineEntries(lines: seq<string>): (r: seq<Option<Entry>>)
    ensures |r| == |lines| && forall i :: 0 <= i < |lines| ==> r[i] == LineEntry(lines[i])
  {
    seq(|lines|, i requires 0 <= i < |lines| => LineEntry(lines[i]))
  }

  /** One line more after a prefix that reads: a bad line raises, any other line adds
      its contribution. */
  lemma ParseLinesStep(front: seq<string>, line: string)
    requires ParseLines(front).Ok?
    ensures ParseLines(front + [line]).Raised? <==> BadLine(line)
    ensures !BadLine(line) ==>
              ParseLines(front + [line]).value
              == ParseLines(front).value + (if LineEntry(line).Some? then [LineEntry(line).value] else [])
  {
    var lines := front + [line];
    assert lines[..|lines| - 1] == front;
    if '\t' in line {
      var split := SplitLine(line);
      assert split.None? <==> BadLine(line);
    }
  }

  /** Some line of the listing is bad. */
  predicate AnyBad(lines: seq<string>)
  {
    exists i :: 0 <= i < |lines| && BadLine(lines[i])
  }

  lemma AnyBadSnoc(front: seq<string>, line: string)
    ensures AnyBad(front + [line]) <==> AnyBad(front) || BadLine(line)
  {
    var lines := front + [line];
    if AnyBad(front) {
      var i :| 0 <= i < |front| && BadLine(front[i]);
      assert lines[i] == front[i];
    }
    if AnyBad(lines) {
      var i :| 0 <= i < |lines| && BadLine(lines[i]);
      if i < |front| {
        assert lines[i] == front[i];
      }
    }
    assert lines[|front|] == line;
  }

  /** Reading the listing raises exactly when some line is bad; otherwise the data list
      holds one entry for each line with a tab, in file order, and nothing for the
      other lines. */
  lemma {:induction false} ParseLinesSpec(lines: seq<string>)
    ensures ParseLines(lines).Raised? <==> AnyBad(lines)
    ensures ParseLines(lines).Ok? ==> ParseLines(lines).value == Somes(LineEntries(lines))
  {
    if lines != [] {
      var n := |lines| - 1;
      var front, line := lines[..n], lines[n];
      assert lines == front + [line];
      ParseLinesSpec(front);
      AnyBadSnoc(front, line);
      if ParseLines(front).Raised? {
        ParseLinesRaisedExtends(lines, n);
      } else {
        ParseLinesStep(front, line);
        assert LineEntries(lines) == LineEntries(front) + [LineEntry(line)];
        SomesSnoc(LineEntries(front), LineEntry(line));
      }
    }
  }

  /** A tab-free line leaves the data list as it is. */
  lemma TabFreeLineSkipped(lines: seq<string>, line: string)
    requires '\t' !in line
    ensures ParseLines(lines + [line]) == ParseLines(lines)
  {
    assert (lines + [line])[..|lines|] == lines;
  }

  /** The split is at the first tab: a text made of a tab-free part, a tab and a rest
      splits into exactly those two. */
  lemma SplitAtTabOf(t: string, size: string, path: string)
    requires t == size + "\t" + path && '\t' !in size
    ensures SplitAtTab(t) == Some((size, path))
  {
    var r := SplitAtTab(t).value;
    assert t[|size|] == '\t' && t[|r.0|] == '\t';
    assert forall k :: 0 <= k < |size| ==> t[k] == size[k];
    assert forall k :: 0 <= k < |r.0| ==> t[k] == r.0[k];
    assert |r.0| == |size|;
    assert r.0 == t[..|size|] == size;
    assert r.1 == t[|size| + 1..] == path;
  }

  /** A line whose stripped text is `size`, a tab and `path` contributes that entry. */
  lemma LineEntryOfSplit(line: string, size: string, path: string)
    requires Strip(line) == size + "\t" + path && '\t' !in size
    ensures !BadLine(line) && LineEntry(line) == Some(Entry(ConvertSizeToBytes(size), path))
  {
    assert Strip(line)[|size|] == '\t';
    StripInside(line, |size|);
    SplitAtTabOf(Strip(line), size, path);
  }

  /** A line with a tab that survives `strip` appends its entry. */
  lemma TabLineAppended(lines: seq<string>, line: string, size: string, path: string)
    requires ParseLines(lines).Ok?
    requires Strip(line) == size + "\t" + path && '\t' !in size
    ensures ParseLines(lines + [line]) == Ok(ParseLines(lines).value + [Entry(ConvertSizeToBytes(size), path)])
  {
    LineEntryOfSplit(line, size, path);
    ParseLinesStep(lines, line);
  }

  /** A line whose only tabs are at its ends loses them to `strip`, and the unpacking
      stops the script, whatever follows. */
  lemma TabOnlyAtEndsRaises(lines: seq<string>, i: nat)
    requires i < |lines| && '\t' in lines[i] && '\t' !in Strip(lines[i])
    requires ParseLines(lines[..i]).Ok?
    ensures ParseLines(lines).Raised?
  {
    assert lines[..i + 1][..i] == lines[..i];
    ParseLinesRaisedExtends(lines, i + 1);
  }

  /** The loop that reads the file. */
  method ReadSizes(lines: seq<string>) returns (r: Result<seq<Entry>>)
    ensures r == ParseLines(lines)
    ensures r.Raised? <==> AnyBad(lines)
    ensures r.Ok? ==> r.value == Somes(LineEntries(lines))
  {
    ParseLinesSpec(lines);
    var data: seq<Entry> := [];
    for i := 0 to |lines|
      invariant ParseLines(lines[..i]) == Ok(data)
    {
      assert lines[..i + 1][..i] == lines[..i];
      var line := lines[i];
      if '\t' in line {
        var parts := SplitLine(line);
        if parts.None? {
          ParseLinesRaisedExtends(lines, i + 1);
          assert lines[..|lines|] == lines;
          return Raised("ValueError: not enough values to unpack");
        }
        data := data + [Entry(ConvertSizeToBytes(parts.value.0), parts.value.1)];
      }
    }
    assert lines[..|lines|] == lines;
    return Ok(data);
  }

  /** Once reading raises, the rest of the file does not matter. */
  lemma {:induction false} ParseLinesRaisedExtends(lines: seq<string>, i: nat)
    requires i <= |lines| && ParseLines(lines[..i]).Raised?
    ensures ParseLines(lines) == ParseLines(lines[..i])
    decreases |lines| - i
  {
    if i < |lines| {
      assert lines[..i + 1][..i] == lines[..i];
      ParseLinesRaisedExtends(lines, i + 1);
    } else {
      assert lines[..i] == lines;
    }
  }

  // ---- abnormal sizes ----

  const AbnormalThreshold: real := 358400.0

  /** `df['Size(Bytes)'] < abnormal_threshold`: a missing size (`None`, NaN in the
      column) compares false, so it is never abnormal. */
  predicate IsAbnormal(e: Entry)
  {
    e.size.Some? && e.size.value < AbnormalThreshold
  }

  function AbnormalEntries(entries: seq<Entry>): (r: seq<Entry>)
    ensures |r| <= |entries|
  {
    if entries == [] then []
    else (if IsAbnormal(entries[0]) then [entries[0]] else []) + AbnormalEntries(entries[1..])
  }

  /** An entry is listed as abnormal exactly when its size is known and below 350 KiB. */
  lemma {:induction false} AbnormalMembership(entries: seq<Entry>, e: Entry)
    ensures e in AbnormalEntries(entries) <==> e in entries && IsAbnormal(e)
  {
    if entries != [] {
      AbnormalMembership(entries[1..], e);
      assert entries == [entries[0]] + entries[1..];
    }
  }

  /** The entries that are not abnormal. */
  function NormalEntries(entries: seq<Entry>): (r: seq<Entry>)
  {
    if entries == [] then []
    else (if IsAbnormal(entries[0]) then [] else [entries[0]]) + NormalEntries(entries[1..])
  }

  /** `normal_files = total_files - len(abnormal_files)` counts exactly the entries
      that are not abnormal, unknown sizes included. */
  lemma {:induction false} NormalCount(entries: seq<Entry>)
    ensures |entries| - |AbnormalEntries(entries)| == |NormalEntries(entries)|
    ensures forall e :: e in NormalEntries(entries) <==> e in entries && !IsAbnormal(e)
  {
    if entries != [] {
      NormalCount(entries[1..]);
      assert entries == [entries[0]] + entries[1..];
    }
  }

  // ---- deleting the abnormal files ----

  /** The paths of the listed entries, in order. */
  function Paths(entries: seq<Entry>): (r: seq<string>)
    ensures |r| == |entries| && forall i :: 0 <= i < |entries| ==> r[i] == entries[i].path
  {
    seq(|entries|, i requires 0 <= i < |entries| => entries[i].path)
  }

  /** The loop over `abnormal_files` calling `os.remove` on each path, on a file system
      given as a map from path to size: a path that is present is removed and reported
      as deleted; one that is absent (already removed, or never there) makes `os.remove`
      raise, which is reported and skipped. */
  method RemoveFiles(fs: map<string, nat>, paths: seq<string>)
    returns (after: map<string, nat>, deleted: seq<string>, failed: seq<string>)
    ensures forall p :: p in after <==> p in fs && p !in paths
    ensures forall p :: p in after ==> after[p] == fs[p]
    ensures forall p :: p in deleted <==> p in fs && p in paths
    ensures forall p :: p in failed ==> p in paths && (p !in fs || p in deleted)
    ensures forall p :: p in paths && p !in fs ==> p in failed
    ensures |deleted| + |failed| == |paths|
  {
    after := fs;
    deleted := [];
    failed := [];
    for i := 0 to |paths|
      invariant forall p :: p in after <==> p in fs && p !in paths[..i]
      invariant forall p :: p in after ==> after[p] == fs[p]
      invariant forall p :: p in deleted <==> p in fs && p in paths[..i]
      invariant forall p :: p in failed ==> p in paths[..i] && (p !in fs || p in deleted)
      invariant forall p :: p in paths[..i] && p !in fs ==> p in failed
      invariant |deleted| + |failed| == i
    {
      assert paths[..i + 1] == paths[..i] + [paths[i]];
      var p := paths[i];
      if p in after {
        after := after - {p};
        deleted := deleted + [p];
      } else {
        failed := failed + [p];
      }
    }
    assert paths[..|paths|] == paths;
  }

  /** A path is among the abnormal paths exactly when some abnormal entry names it. */
  lemma AbnormalPathsMembership(entries: seq<Entry>, p: string)
    ensures p in Paths(AbnormalEntries(entries)) <==> exists e :: e in entries && IsAbnormal(e) && e.path == p
  {
    var abnormal := AbnormalEntries(entries);
    if p in Paths(abnormal) {
      var i :| 0 <= i < |abnormal| && Paths(abnormal)[i] == p;
      AbnormalMembership(entries, abnormal[i]);
    }
    if exists e :: e in entries && IsAbnormal(e) && e.path == p {
      var e :| e in entries && IsAbnormal(e) && e.path == p;
      AbnormalMembership(entries, e);
      var i :| 0 <= i < |abnormal| && abnormal[i] == e;
      assert Paths(abnormal)[i] == p;
    }
  }

  /** The deletion loop of the script, over the paths of the abnormal entries: the
      file system loses exactly the existing files some abnormal entry names. */
  method DeleteAbnormal(fs: map<string, nat>, entries: seq<Entry>)
    returns (after: map<string, nat>, deleted: seq<string>, failed: seq<string>)
    ensures forall p :: p in after <==> p in fs && !exists e :: e in entries && IsAbnormal(e) && e.path == p
    ensures forall p :: p in after ==> after[p] == fs[p]
    ensures forall p :: p in deleted <==> p in fs && exists e :: e in entries && IsAbnormal(e) && e.path == p
    ensures |deleted| + |failed| == |AbnormalEntries(entries)|
  {
    var paths := Paths(AbnormalEntries(entries));
    after, deleted, failed := RemoveFiles(fs, paths);
    forall p
      ensures p in paths <==> exists e :: e in entries && IsAbnormal(e) && e.path == p
    {
      AbnormalPathsMembership(entries, p);
    }
  }
}
