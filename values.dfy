/** Grid values as the scripts read them: the raw fill value -9990 that the
    files use for "no data", the values that are not it, and the counts and
    extremes the checks compute over a flattened grid. Values are reals;
    `float32` rounding is not modelled. */
module Values {
  import Tally

  /** The fill value of the grid files. */
  const MissingValue: real := -9990.0

  /** A float as NumPy holds it after a division: a finite value, an infinity or NaN. */
  datatype Float = Finite(value: real) | PosInf | NegInf | NaN

  /** IEEE division of a finite value by `s`. */
  function Divide(x: real, s: real): (r: Float)
    ensures s != 0.0 ==> r == Finite(x / s)
    ensures s == 0.0 ==> (r == PosInf <==> x > 0.0) && (r == NegInf <==> x < 0.0) && (r == NaN <==> x == 0.0)
  {
    if s != 0.0 then Finite(x / s)
    else if x > 0.0 then PosInf
    else if x < 0.0 then NegInf
    else NaN
  }

  /** `data[data != -9990]`, in order. */
  function NonMissing(xs: seq<real>): (r: seq<real>)
    ensures |r| <= |xs|
    ensures forall i :: 0 <= i < |r| ==> r[i] != MissingValue
  {
    if xs == [] then []
    else (if xs[0] != MissingValue then [xs[0]] else []) + NonMissing(xs[1..])
  }

  lemma {:induction false} NonMissingMembership(xs: seq<real>, v: real)
    ensures v in NonMissing(xs) <==> v in xs && v != MissingValue
  {
    if xs != [] {
      NonMissingMembership(xs[1..], v);
      assert xs == [xs[0]] + xs[1..];
    }
  }

  /** Every value is either the fill value or kept: valid + missing = all. */
  lemma {:induction false} NonMissingCount(xs: seq<real>)
    ensures |NonMissing(xs)| + Tally.Count(xs, MissingValue) == |xs|
  {
    if xs != [] {
      NonMissingCount(xs[1..]);
    }
  }

  /** `np.sum(data < b)`. */
  function CountBelow(xs: seq<real>, b: real): (n: nat)
    ensures n <= |xs|
    ensures n > 0 <==> exists i :: 0 <= i < |xs| && xs[i] < b
  {
    if xs == [] then 0
    else
      assert forall i :: 0 < i < |xs| ==> xs[i] == xs[1..][i - 1];
      (if xs[0] < b then 1 else 0) + CountBelow(xs[1..], b)
  }

  /** `np.sum(data > b)`. */
  function CountAbove(xs: seq<real>, b: real): (n: nat)
    ensures n <= |xs|
    ensures n > 0 <==> exists i :: 0 <= i < |xs| && xs[i] > b
  {
    if xs == [] then 0
    else
      assert forall i :: 0 < i < |xs| ==> xs[i] == xs[1..][i - 1];
      (if xs[0] > b then 1 else 0) + CountAbove(xs[1..], b)
  }

  /** Zeros and negatives are disjoint, so together they are at most all values. */
  lemma {:induction false} ZerosAndNegatives(xs: seq<real>)
    ensures Tally.Count(xs, 0.0) + CountBelow(xs, 0.0) <= |xs|
  {
    if xs != [] {
      ZerosAndNegatives(xs[1..]);
    }
  }

  /** `np.min` of a non-empty list. */
  function MinOf(xs: seq<real>): (m: real)
    requires xs != []
    ensures m in xs && forall i :: 0 <= i < |xs| ==> m <= xs[i]
  {
    if |xs| == 1 then xs[0]
    else
      var rest := MinOf(xs[1..]);
      assert forall i :: 1 <= i < |xs| ==> xs[i] == xs[1..][i - 1];
      if xs[0] <= rest then xs[0] else rest
  }

  /** `np.max` of a non-empty list. */
  function MaxOf(xs: seq<real>): (m: real)
    requires xs != []
    ensures m in xs && forall i :: 0 <= i < |xs| ==> xs[i] <= m
  {
    if |xs| == 1 then xs[0]
    else
      var rest := MaxOf(xs[1..]);
      assert forall i :: 1 <= i < |xs| ==> xs[i] == xs[1..][i - 1];
      if xs[0] >= rest then xs[0] else rest
  }
}
