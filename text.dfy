/** Text helpers shared by the scripts: decimal rendering (`str(n)`,
    `f"{n:02d}"`), decimal parsing of digit strings, Python's `split`
    idioms and `os.path` joins. Characters are Unicode code points. */
module Text {

  predicate IsDigit(c: char) { '0' <= c <= '9' }

  predicate AllDigits(s: string) { forall i :: 0 <= i < |s| ==> IsDigit(s[i]) }

  function DigitChar(n: nat): (c: char)
    requires n < 10
    ensures IsDigit(c) && c as int - '0' as int == n
  {
    ('0' as int + n) as char
  }

  function DigitValue(c: char): (n: nat)
    requires IsDigit(c)
    ensures n < 10 && DigitChar(n) == c
  {
    c as int - '0' as int
  }

  /** The number a string of decimal digits denotes (`int(s)`). */
  function NatValue(s: string): nat
    requires AllDigits(s)
    decreases |s|
  {
    if s == [] then 0 else NatValue(s[..|s| - 1]) * 10 + DigitValue(s[|s| - 1])
  }

  lemma NatValueSnoc(s: string, c: char)
    requires AllDigits(s) && IsDigit(c)
    ensures AllDigits(s + [c]) && NatValue(s + [c]) == NatValue(s) * 10 + DigitValue(c)
  {
    assert (s + [c])[..|s + [c]| - 1] == s;
  }

  /** A run of digits ends where a non-digit begins, so a digit prefix followed by a
      separator is determined by the whole text. */
  lemma DigitsPrefixSplit(x: string, r: string, y: string, q: string)
    requires AllDigits(x) && AllDigits(y) && r != [] && q != [] && !IsDigit(r[0]) && !IsDigit(q[0])
    requires x + r == y + q
    ensures x == y && r == q
  {
    assert (x + r)[|x|] == r[0] && (y + q)[|y|] == q[0];
    assert forall i :: 0 <= i < |y| ==> IsDigit((x + r)[i]);
    assert forall i :: 0 <= i < |x| ==> IsDigit((y + q)[i]);
    assert x == (x + r)[..|x|] && y == (y + q)[..|x|];
    assert r == (x + r)[|x|..] && q == (y + q)[|x|..];
  }

  /** `str(n)` for a non-negative integer: its decimal digits, no padding. */
  function Decimal(n: nat): (s: string)
    ensures 1 <= |s| && AllDigits(s) && NatValue(s) == n
    ensures n > 0 ==> s[0] != '0'
  {
    if n < 10 then [DigitChar(n)]
    else
      var front := Decimal(n / 10);
      NatValueSnoc(front, DigitChar(n % 10));
      front + [DigitChar(n % 10)]
  }

  lemma {:induction false} DecimalLength4(n: nat)
    requires 1000 <= n < 10000
    ensures |Decimal(n)| == 4
  {
    assert Decimal(n) == Decimal(n / 10) + [DigitChar(n % 10)];
    assert Decimal(n / 10) == Decimal(n / 100) + [DigitChar(n / 10 % 10)];
    assert Decimal(n / 100) == Decimal(n / 1000) + [DigitChar(n / 100 % 10)];
  }

  /** `f"{n:02d}"` for 0 <= n < 100. */
  function Pad2(n: nat): (s: string)
    requires n < 100
    ensures |s| == 2 && AllDigits(s) && NatValue(s) == n
  {
    NatValueSnoc([DigitChar(n / 10)], DigitChar(n % 10));
    [DigitChar(n / 10), DigitChar(n % 10)]
  }

  lemma {:induction false} NatValuePositive(s: string)
    requires AllDigits(s) && s != [] && s[0] != '0'
    ensures NatValue(s) > 0
  {
    if |s| > 1 {
      NatValuePositive(s[..|s| - 1]);
    }
  }

  /** Rendering the value of a digit string without leading zero gives the string back. */
  lemma {:induction false} DecimalOfNatValue(s: string)
    requires AllDigits(s) && s != [] && s[0] != '0'
    ensures Decimal(NatValue(s)) == s
  {
    var front, last := s[..|s| - 1], s[|s| - 1];
    assert s == front + [last];
    if front == [] {
      assert NatValue(s) == DigitValue(last);
    } else {
      NatValuePositive(front);
      DecimalOfNatValue(front);
      DecimalAppend(NatValue(front), DigitValue(last));
    }
  }

  /** Two-digit strings are what `Pad2` produces. */
  lemma Pad2OfNatValue(s: string)
    requires |s| == 2 && AllDigits(s)
    ensures NatValue(s) < 100 && Pad2(NatValue(s)) == s
  {
    assert s[..1][..0] == [];
    assert NatValue(s[..1]) == DigitValue(s[0]);
    assert NatValue(s) == DigitValue(s[0]) * 10 + DigitValue(s[1]);
    assert s == [s[0], s[1]];
  }

  function StartsWith(s: string, prefix: string): bool
  {
    |prefix| <= |s| && s[..|prefix|] == prefix
  }

  function EndsWith(s: string, suffix: string): bool
  {
    |suffix| <= |s| && s[|s| - |suffix|..] == suffix
  }

  /** `s.split(c)[-1]`: the text after the last occurrence of `c` (all of `s` if none). */
  function AfterLast(s: string, c: char): (r: string)
    ensures |r| <= |s|
  {
    if s == [] || s[|s| - 1] == c then [] else AfterLast(s[..|s| - 1], c) + [s[|s| - 1]]
  }

  /** The text after the last `c` is a suffix without `c`, preceded by `c` when shorter than `s`. */
  lemma {:induction false} AfterLastSpec(s: string, c: char)
    ensures EndsWith(s, AfterLast(s, c)) && c !in AfterLast(s, c)
    ensures |AfterLast(s, c)| < |s| ==> s[|s| - |AfterLast(s, c)| - 1] == c
  {
    if s != [] && s[|s| - 1] != c {
      var front, x := s[..|s| - 1], s[|s| - 1];
      AfterLastSpec(front, c);
      var r' := AfterLast(front, c);
      var r := AfterLast(s, c);
      assert r == r' + [x];
      assert s == front + [x];
      assert s[|s| - |r|..] == front[|front| - |r'|..] + [x];
      assert forall i :: 0 <= i < |r| ==> r[i] == (if i < |r'| then r'[i] else x);
      if |r| < |s| {
        assert s[|s| - |r| - 1] == front[|front| - |r'| - 1];
      }
    }
  }

  /** `s.split(c)[0]`: the text before the first occurrence of `c` (all of `s` if none). */
  function BeforeFirst(s: string, c: char): (r: string)
    ensures |r| <= |s|
  {
    if s == [] || s[0] == c then [] else [s[0]] + BeforeFirst(s[1..], c)
  }

  /** The text before the first `c` is a prefix without `c`, followed by `c` when shorter than `s`. */
  lemma {:induction false} BeforeFirstSpec(s: string, c: char)
    ensures StartsWith(s, BeforeFirst(s, c)) && c !in BeforeFirst(s, c)
    ensures |BeforeFirst(s, c)| < |s| ==> s[|BeforeFirst(s, c)|] == c
  {
    if s != [] && s[0] != c {
      BeforeFirstSpec(s[1..], c);
      var r' := BeforeFirst(s[1..], c);
      assert s[..|r'| + 1] == [s[0]] + s[1..][..|r'|];
    }
  }

  /** `os.path.basename(p)`. */
  function Basename(p: string): string
  {
    AfterLast(p, '/')
  }

  /** The timestamp part of a grid file name: `basename.split("_")[-1].split(".")[0]`. */
  function Suffix(path: string): string
  {
    BeforeFirst(AfterLast(Basename(path), '_'), '.')
  }

  /** `os.path.join(a, b)` for two components on POSIX. */
  function Join(a: string, b: string): (r: string)
    ensures EndsWith(r, b)
    ensures (|b| == 0 || b[0] != '/') ==> StartsWith(r, a)
  {
    if |b| > 0 && b[0] == '/' then b
    else if a == [] || a[|a| - 1] == '/' then a + b
    else a + "/" + b
  }

  /** Appending a digit to a positive number appends its character to the text. */
  lemma DecimalAppend(n: nat, c: nat)
    requires 0 < n && c < 10
    ensures Decimal(10 * n + c) == Decimal(n) + [DigitChar(c)]
  {
    assert (10 * n + c) / 10 == n && (10 * n + c) % 10 == c;
  }

  /** Text after the first component of the second part is carried through the join. */
  lemma JoinConcat(a: string, b: string, rest: string)
    requires b != [] && b[0] != '/'
    ensures Join(a, b + rest) == Join(a, b) + rest
  {
    assert (b + rest)[0] == b[0];
    if a == [] || a[|a| - 1] == '/' {
      assert a + (b + rest) == a + b + rest;
    } else {
      assert a + "/" + (b + rest) == a + "/" + b + rest;
    }
  }

  /** Splitting at the last `c` of `a + [c] + b`, where `b` holds no `c`, gives `b`. */
  lemma {:induction false} AfterLastSplit(a: string, b: string, c: char)
    requires c !in b
    ensures AfterLast(a + [c] + b, c) == b
  {
    var s := a + [c] + b;
    if b != [] {
      assert s[..|s| - 1] == a + [c] + b[..|b| - 1];
      AfterLastSplit(a, b[..|b| - 1], c);
      assert b == b[..|b| - 1] + [b[|b| - 1]];
    }
  }

  /** Splitting at the first `c` of `b + [c] + d`, where `b` holds no `c`, gives `b`. */
  lemma {:induction false} BeforeFirstSplit(b: string, d: string, c: char)
    requires c !in b
    ensures BeforeFirst(b + [c] + d, c) == b
  {
    if b != [] {
      assert (b + [c] + d)[1..] == b[1..] + [c] + d;
      BeforeFirstSplit(b[1..], d, c);
    }
  }

  /** Python's whitespace characters (`str.isspace`). */
  predicate IsSpace(c: char)
  {
    ('\t' <= c <= '\r') || ('\U{1C}' <= c <= ' ') || c == '\U{85}' || c == '\U{A0}'
    || c == '\U{1680}' || ('\U{2000}' <= c <= '\U{200A}') || c == '\U{2028}' || c == '\U{2029}'
    || c == '\U{202F}' || c == '\U{205F}' || c == '\U{3000}'
  }

  /** `s.lstrip()`. */
  function TrimStart(s: string): (r: string)
    ensures EndsWith(s, r) && (r == [] || !IsSpace(r[0]))
  {
    if s == [] || !IsSpace(s[0]) then s else TrimStart(s[1..])
  }

  /** `lstrip` removes only whitespace. */
  lemma {:induction false} TrimStartSpaces(s: string)
    ensures forall i :: 0 <= i < |s| - |TrimStart(s)| ==> IsSpace(s[i])
  {
    if s != [] && IsSpace(s[0]) {
      TrimStartSpaces(s[1..]);
      forall i | 0 < i < |s| - |TrimStart(s)|
        ensures IsSpace(s[i])
      {
        assert s[i] == s[1..][i - 1];
      }
    }
  }

  /** `s.rstrip()`. */
  function TrimEnd(s: string): (r: string)
    ensures StartsWith(s, r) && (r == [] || !IsSpace(r[|r| - 1]))
  {
    if s == [] || !IsSpace(s[|s| - 1]) then s else TrimEnd(s[..|s| - 1])
  }

  /** `rstrip` removes only whitespace. */
  lemma {:induction false} TrimEndSpaces(s: string)
    ensures forall i :: |TrimEnd(s)| <= i < |s| ==> IsSpace(s[i])
  {
    if s != [] && IsSpace(s[|s| - 1]) {
      TrimEndSpaces(s[..|s| - 1]);
      forall i | |TrimEnd(s)| <= i < |s| - 1
        ensures IsSpace(s[i])
      {
        assert s[i] == s[..|s| - 1][i];
      }
    }
  }

  /** `s.strip()`: `s` without its leading and trailing whitespace. */
  function Strip(s: string): (r: string)
    ensures |r| <= |s|
    ensures r != [] ==> !IsSpace(r[0]) && !IsSpace(r[|r| - 1])
  {
    var t := TrimStart(s);
    var r := TrimEnd(t);
    assert r != [] ==> r[0] == t[0];
    r
  }

  /** Every character of the stripped text is a character of the text. */
  lemma StripInside(s: string, k: nat)
    requires k < |Strip(s)|
    ensures Strip(s)[k] in s
  {
    var t := TrimStart(s);
    assert Strip(s)[k] == t[k];
    assert t[k] == s[|s| - |t| + k];
  }

  /** `strip` yields the empty string exactly for all-whitespace text. */
  lemma StripEmpty(s: string)
    ensures Strip(s) == [] <==> forall i :: 0 <= i < |s| ==> IsSpace(s[i])
  {
    var t := TrimStart(s);
    var r := TrimEnd(t);
    TrimStartSpaces(s);
    TrimEndSpaces(t);
    if r == [] {
      forall i | 0 <= i < |s|
        ensures IsSpace(s[i])
      {
        if i >= |s| - |t| {
          assert s[i] == t[i - (|s| - |t|)];
        }
      }
    } else {
      assert r[0] == t[0] && s[|s| - |t|] == t[0];
    }
  }

  /** Text with no whitespace at either end is left as it is. */
  lemma StripUnchanged(s: string)
    requires s != [] && !IsSpace(s[0]) && !IsSpace(s[|s| - 1])
    ensures Strip(s) == s
  {
  }

  function LowerChar(c: char): char
  {
    if 'A' <= c <= 'Z' then (c as int + 32) as char else c
  }

  /** `s.lower()` on ASCII letters; no other character lowers to an ASCII letter
      other than `k` (from the Kelvin sign) and `i` (from a dotted capital I). */
  function LowerAscii(s: string): (r: string)
    ensures |r| == |s| && forall i :: 0 <= i < |s| ==> r[i] == LowerChar(s[i])
  {
    seq(|s|, i requires 0 <= i < |s| => LowerChar(s[i]))
  }
}
