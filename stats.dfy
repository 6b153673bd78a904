/** Column statistics and elementwise column operations on sequences of reals:
    the pandas reductions (sum, mean, min, max) and the vectorised updates
    (`-= c`, `*= c`, `-abs`) that the pipeline applies to whole columns.
    Python floats are modelled as exact reals. */
module Stats {

  function Abs(v: real): (r: real)
    ensures r >= 0.0 && (r == v || r == -v)
  {
    if v < 0.0 then -v else v
  }

  function Sum(s: seq<real>): real
  {
    if |s| == 0 then 0.0 else s[0] + Sum(s[1..])
  }

  function Mean(s: seq<real>): real
    requires |s| > 0
  {
    Sum(s) / (|s| as real)
  }

  /** The position of a smallest element. */
  function ArgMin(s: seq<real>): (i: nat)
    requires |s| > 0
    ensures i < |s| && forall k :: 0 <= k < |s| ==> s[i] <= s[k]
  {
    if |s| == 1 then 0
    else
      var j := 1 + ArgMin(s[1..]);
      assert forall k :: 1 <= k < |s| ==> s[1..][k - 1] == s[k];
      if s[0] <= s[j] then 0 else j
  }

  /** The position of a largest element. */
  function ArgMax(s: seq<real>): (i: nat)
    requires |s| > 0
    ensures i < |s| && forall k :: 0 <= k < |s| ==> s[k] <= s[i]
  {
    if |s| == 1 then 0
    else
      var j := 1 + ArgMax(s[1..]);
      assert forall k :: 1 <= k < |s| ==> s[1..][k - 1] == s[k];
      if s[0] >= s[j] then 0 else j
  }

  /** The smallest element, as `Series.min()`. */
  function Min(s: seq<real>): (r: real)
    requires |s| > 0
    ensures forall k :: 0 <= k < |s| ==> r <= s[k]
  {
    s[ArgMin(s)]
  }

  /** The largest element, as `Series.max()`. */
  function Max(s: seq<real>): (r: real)
    requires |s| > 0
    ensures forall k :: 0 <= k < |s| ==> s[k] <= r
  {
    s[ArgMax(s)]
  }

  /** `max() - min()` of a column. */
  function Range(s: seq<real>): real
    requires |s| > 0
  {
    Max(s) - Min(s)
  }

  /** `column - c` */
  function Shift(s: seq<real>, c: real): (r: seq<real>)
    ensures |r| == |s|
  {
    seq(|s|, k requires 0 <= k < |s| => s[k] - c)
  }

  /** `column * c` */
  function Scale(s: seq<real>, c: real): (r: seq<real>)
    ensures |r| == |s|
  {
    seq(|s|, k requires 0 <= k < |s| => s[k] * c)
  }

  /** `-column.abs()` */
  function NegAbs(s: seq<real>): (r: seq<real>)
    ensures |r| == |s|
  {
    seq(|s|, k requires 0 <= k < |s| => -Abs(s[k]))
  }

  /** After the depth inversion every depth is non-positive, and its
      magnitude is the magnitude it had before. */
  lemma NegAbsNonPositive(s: seq<real>)
    ensures forall k :: 0 <= k < |s| ==> NegAbs(s)[k] <= 0.0 && Abs(NegAbs(s)[k]) == Abs(s[k])
  {
  }

  /** Subtracting c from every element lowers the sum by |s| * c. */
  lemma {:induction false} SumShift(s: seq<real>, c: real)
    ensures Sum(Shift(s, c)) == Sum(s) - (|s| as real) * c
  {
    if |s| > 0 {
      assert Shift(s, c)[1..] == Shift(s[1..], c);
      SumShift(s[1..], c);
    }
  }

  /** Centring a column makes its sum, and so its mean, zero. */
  lemma CentredMeanIsZero(s: seq<real>)
    requires |s| > 0
    ensures Sum(Shift(s, Mean(s))) == 0.0
    ensures Mean(Shift(s, Mean(s))) == 0.0
  {
    SumShift(s, Mean(s));
    var n := |s| as real;
    assert n * (Sum(s) / n) == Sum(s);
  }

  lemma MulMonotone(a: real, b: real, c: real)
    requires a <= b && c > 0.0
    ensures a * c <= b * c
  {
  }

  /** The maximum is the one element that bounds all others. */
  lemma MaxIsUnique(s: seq<real>, i: nat, v: real)
    requires i < |s| && s[i] == v && forall k :: 0 <= k < |s| ==> s[k] <= v
    ensures Max(s) == v
  {
  }

  /** The minimum is the one element that all others bound. */
  lemma MinIsUnique(s: seq<real>, i: nat, v: real)
    requires i < |s| && s[i] == v && forall k :: 0 <= k < |s| ==> v <= s[k]
    ensures Min(s) == v
  {
  }

  /** The product of two reals, as a term of its own: equal factors give
      equal products without any reasoning about multiplication. */
  function Times(a: real, b: real): real
  {
    a * b
  }

  /** Scaling by a positive factor scales the maximum. */
  lemma MaxScale(s: seq<real>, c: real)
    requires |s| > 0 && c > 0.0
    ensures Max(Scale(s, c)) == Times(Max(s), c)
  {
    var t, m, i := Scale(s, c), Max(s), ArgMax(s);
    assert t[i] == m * c;
    forall k | 0 <= k < |t| ensures t[k] <= m * c {
      MulMonotone(s[k], m, c);
    }
    MaxIsUnique(t, i, m * c);
  }

  /** Scaling by a positive factor scales the minimum. */
  lemma MinScale(s: seq<real>, c: real)
    requires |s| > 0 && c > 0.0
    ensures Min(Scale(s, c)) == Times(Min(s), c)
  {
    var t, m, i := Scale(s, c), Min(s), ArgMin(s);
    assert t[i] == m * c;
    forall k | 0 <= k < |t| ensures m * c <= t[k] {
      MulMonotone(m, s[k], c);
    }
    MinIsUnique(t, i, m * c);
  }

  /** Scaling a column by a positive factor scales its range. */
  lemma RangeScaled(s: seq<real>, c: real)
    requires |s| > 0 && c > 0.0
    ensures Range(Scale(s, c)) == Times(Range(s), c)
  {
    MaxScale(s, c);
    MinScale(s, c);
    TimesDistributes(Max(s), Min(s), Range(s), c);
  }

  lemma TimesDistributes(hi: real, lo: real, d: real, c: real)
    requires d == hi - lo
    ensures Times(hi, c) - Times(lo, c) == Times(d, c)
  {
  }

  /** Python's `max(a, b)` on two reals. */
  function Larger(a: real, b: real): (r: real)
    ensures r >= a && r >= b && (r == a || r == b)
  {
    if a >= b then a else b
  }

  lemma QuotientPositive(a: real, b: real)
    requires a > 0.0 && b > 0.0
    ensures a / b > 0.0
  {
  }

  /** A positive factor scales the larger of two column ranges. */
  lemma LargerRangeScaled(xs: seq<real>, ys: seq<real>, c: real)
    requires |xs| > 0 && |ys| > 0 && c > 0.0
    ensures Larger(Range(Scale(xs, c)), Range(Scale(ys, c))) == Times(Larger(Range(xs), Range(ys)), c)
  {
    RangeScaled(xs, c);
    RangeScaled(ys, c);
    LargerOfScaled(Range(xs), Range(ys), Range(Scale(xs, c)), Range(Scale(ys, c)), c);
  }

  /** A positive factor commutes with the larger of two values. */
  lemma LargerOfScaled(a: real, b: real, a2: real, b2: real, c: real)
    requires c > 0.0 && a2 == Times(a, c) && b2 == Times(b, c)
    ensures Larger(a2, b2) == Times(Larger(a, b), c)
  {
    if a >= b {
      MulMonotone(b, a, c);
    } else {
      MulMonotone(a, b, c);
    }
  }

  /** A value scaled by target / itself is target. */
  lemma ScaledToTarget(scaled: real, r: real, f: real, target: real)
    requires r > 0.0 && f == target / r && scaled == Times(r, f)
    ensures scaled == target
  {
  }
}
