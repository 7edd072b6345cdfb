/** Python's ordering of strings (code point by code point, a proper prefix
    first), and the fact that for the 12-digit `%Y%m%d%H%M` texts of the file
    names it is the order of time: sorting a table by its date text sorts it
    chronologically. */
module Ordering {
  import opened Text
  import opened Calendar

  /** `s < t` on Python strings. */
  predicate LexLess(s: string, t: string)
    decreases |s|
  {
    t != [] && (s == [] || s[0] < t[0] || (s[0] == t[0] && LexLess(s[1..], t[1..])))
  }

  lemma {:induction false} LexLessIrreflexive(s: string)
    ensures !LexLess(s, s)
    decreases |s|
  {
    if s != [] {
      LexLessIrreflexive(s[1..]);
    }
  }

  lemma {:induction false} LexLessTransitive(a: string, b: string, c: string)
    requires LexLess(a, b) && LexLess(b, c)
    ensures LexLess(a, c)
    decreases |a|
  {
    if a != [] && a[0] == b[0] && b[0] == c[0] {
      LexLessTransitive(a[1..], b[1..], c[1..]);
    }
  }

  lemma LexLessAsymmetric(a: string, b: string)
    requires LexLess(a, b)
    ensures !LexLess(b, a)
  {
    if LexLess(b, a) {
      LexLessTransitive(a, b, a);
      LexLessIrreflexive(a);
    }
  }

  /** The order of two prefixes of the same length is the order of the whole strings. */
  lemma {:induction false} LexLessPrefix(a: string, b: string, k: nat)
    requires k <= |a| && k <= |b| && LexLess(a[..k], b[..k])
    ensures LexLess(a, b)
    decreases k
  {
    if a[0] == b[0] {
      assert a[..k][1..] == a[1..][..k - 1] && b[..k][1..] == b[1..][..k - 1];
      LexLessPrefix(a[1..], b[1..], k - 1);
    }
  }

  /** Any two different strings are ordered one way or the other. */
  lemma {:induction false} LexLessTotal(a: string, b: string)
    requires a != b
    ensures LexLess(a, b) || LexLess(b, a)
    decreases |a|
  {
    if a != [] && b != [] && a[0] == b[0] {
      assert a == [a[0]] + a[1..] && b == [b[0]] + b[1..];
      LexLessTotal(a[1..], b[1..]);
    }
  }

  /** "Not after" (`s <= t`) is transitive. */
  lemma NotAfterTransitive(a: string, b: string, c: string)
    requires !LexLess(b, a) && !LexLess(c, b)
    ensures !LexLess(c, a)
  {
    if LexLess(c, a) {
      if a == b {
      } else {
        LexLessTotal(a, b);
        LexLessTransitive(c, a, b);
      }
    }
  }

  /** For strings of equal length, the order of `s + [c]` and `t + [d]` is decided
      by `s` and `t`, and by the last characters when those are equal. */
  lemma {:induction false} LexLessSnoc(s: string, t: string, c: char, d: char)
    requires |s| == |t|
    ensures LexLess(s + [c], t + [d]) <==> LexLess(s, t) || (s == t && c < d)
    decreases |s|
  {
    if s != [] {
      assert (s + [c])[1..] == s[1..] + [c] && (t + [d])[1..] == t[1..] + [d];
      LexLessSnoc(s[1..], t[1..], c, d);
      if s[0] == t[0] && s[1..] == t[1..] {
        assert s == [s[0]] + s[1..] && t == [t[0]] + t[1..];
      }
    }
  }

  /** Equal-length digit strings compare as the numbers they denote. */
  lemma {:induction false} DigitsOrder(s: string, t: string)
    requires |s| == |t| && AllDigits(s) && AllDigits(t)
    ensures LexLess(s, t) <==> NatValue(s) < NatValue(t)
    decreases |s|
  {
    if s != [] {
      var n := |s| - 1;
      var s', t' := s[..n], t[..n];
      assert s == s' + [s[n]] && t == t' + [t[n]];
      DigitsOrder(s', t');
      DigitsOrder(t', s');
      LexLessSnoc(s', t', s[n], t[n]);
      if s' != t' {
        LexLessTotal(s', t');
      }
    }
  }

  lemma NatValuePad2(x: string, n: nat)
    requires AllDigits(x) && n < 100
    ensures AllDigits(x + Pad2(n)) && NatValue(x + Pad2(n)) == NatValue(x) * 100 + n
  {
    var p := Pad2(n);
    assert p == [p[0]] + [p[1]];
    NatValueSnoc(x, p[0]);
    NatValueSnoc(x + [p[0]], p[1]);
    assert NatValue(p) == NatValue([p[0]]) * 10 + DigitValue(p[1]) by {
      assert p[..1] == [p[0]];
    }
    assert NatValue([p[0]]) == DigitValue(p[0]) by {
      assert [p[0]][..0] == [];
    }
    assert x + p == (x + [p[0]]) + [p[1]];
  }

  /** The number a `%Y%m%d%H%M` text denotes. */
  function StampKey(t: Stamp): (k: nat)
    requires ValidStamp(t)
    ensures k == NatValue(StampText(t))
  {
    var y := NatValue(YearText(t.date.year));
    NatValuePad2(YearText(t.date.year), t.date.month);
    NatValuePad2(YearText(t.date.year) + Pad2(t.date.month), t.date.day);
    NatValuePad2(YmdText(t.date), t.hour);
    NatValuePad2(YmdText(t.date) + Pad2(t.hour), t.minute);
    (((y * 100 + t.date.month) * 100 + t.date.day) * 100 + t.hour) * 100 + t.minute
  }

  /** Appending a two-digit field keeps the order of the fronts and breaks ties by the field. */
  lemma Radix100(x1: int, r1: int, x2: int, r2: int)
    requires 0 <= r1 < 100 && 0 <= r2 < 100
    ensures x1 * 100 + r1 < x2 * 100 + r2 <==> x1 < x2 || (x1 == x2 && r1 < r2)
  {
    if x1 < x2 {
      assert x1 * 100 + 100 <= x2 * 100;
    } else if x1 > x2 {
      assert x2 * 100 + 100 <= x1 * 100;
    }
  }

  /** Comparing the keys of two stamps is comparing them field by field. */
  lemma StampKeyOrder(a: Stamp, b: Stamp)
    requires ValidStamp(a) && ValidStamp(b)
    ensures StampKey(a) < StampKey(b) <==> StampBefore(a, b)
  {
    var ya, yb := NatValue(YearText(a.date.year)), NatValue(YearText(b.date.year));
    Radix100(ya, a.date.month, yb, b.date.month);
    Radix100(ya * 100 + a.date.month, a.date.day, yb * 100 + b.date.month, b.date.day);
    Radix100((ya * 100 + a.date.month) * 100 + a.date.day, a.hour,
             (yb * 100 + b.date.month) * 100 + b.date.day, b.hour);
    Radix100(((ya * 100 + a.date.month) * 100 + a.date.day) * 100 + a.hour, a.minute,
             ((yb * 100 + b.date.month) * 100 + b.date.day) * 100 + b.hour, b.minute);
  }

  /** Stamps are ordered in time exactly when they are ordered field by field. */
  lemma StampBeforeInstant(a: Stamp, b: Stamp)
    requires ValidStamp(a) && ValidStamp(b)
    ensures StampBefore(a, b) <==> Instant(a) < Instant(b)
  {
    if StampBefore(a, b) {
      InstantMonotone(a, b);
    } else if a != b {
      assert StampBefore(b, a);
      InstantMonotone(b, a);
    }
  }

  /** Sorting by the `%Y%m%d%H%M` text is sorting by time, for four-digit years. */
  lemma StampTextOrder(a: Stamp, b: Stamp)
    requires ValidStamp(a) && ValidStamp(b)
    requires 1000 <= a.date.year < 10000 && 1000 <= b.date.year < 10000
    ensures LexLess(StampText(a), StampText(b)) <==> Instant(a) < Instant(b)
  {
    ParseStampTextRoundTrip(a);
    ParseStampTextRoundTrip(b);
    DigitsOrder(StampText(a), StampText(b));
    StampKeyOrder(a, b);
    StampBeforeInstant(a, b);
  }
}
