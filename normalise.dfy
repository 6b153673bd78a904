/** The coordinate normalisation of `process_gpr_data`: the cleaned point
    table (`data`, a DataFrame with columns x, y, z and amp) is updated in
    place by the depth inversion, the centring of x and y, and the rescale
    of large surveys. */
module Normalise {
  import opened Stats
  import opened Geometry

  /** The four columns of the point table. */
  datatype Columns = Columns(xs: seq<real>, ys: seq<real>, zs: seq<real>, amps: seq<real>)

  predicate Aligned(c: Columns)
  {
    |c.xs| == |c.ys| == |c.zs| == |c.amps|
  }

  /** `pd.DataFrame({'x': ..., 'y': ..., 'z': ..., 'amp': ...})` of the rows. */
  function ColumnsOf(rows: seq<Point>): (c: Columns)
    ensures Aligned(c) && |c.xs| == |rows|
  {
    Columns(Xs(rows), Ys(rows), Zs(rows), Amps(rows))
  }

  /** The rows of the table, in order. */
  function Zip(c: Columns): (rows: seq<Point>)
    requires Aligned(c)
    ensures |rows| == |c.xs|
  {
    seq(|c.xs|, k requires 0 <= k < |c.xs| => Point(c.xs[k], c.ys[k], c.zs[k], c.amps[k]))
  }

  /** Splitting rows into columns and zipping them back gives the rows. */
  lemma ZipColumnsOf(rows: seq<Point>)
    ensures Zip(ColumnsOf(rows)) == rows
  {
    var r := Zip(ColumnsOf(rows));
    forall k | 0 <= k < |rows| ensures r[k] == rows[k] {
      assert r[k] == Point(Xs(rows)[k], Ys(rows)[k], Zs(rows)[k], Amps(rows)[k]);
    }
  }

  /** The rescale applies when the larger horizontal range exceeds this ... */
  const RescaleThreshold: real := 50.0
  /** ... and brings that range to this. */
  const RescaleTarget: real := 10.0

  /** `data['z'] = -data['z'].abs()` */
  function Inverted(c: Columns): Columns
  {
    c.(zs := NegAbs(c.zs))
  }

  /** `data['x'] -= x_c; data['y'] -= y_c` with the column means. */
  function Centred(c: Columns): Columns
    requires |c.xs| > 0 && |c.ys| > 0
  {
    c.(xs := Shift(c.xs, Mean(c.xs)), ys := Shift(c.ys, Mean(c.ys)))
  }

  /** `max_range`: the larger of the x and y ranges. */
  function HorizontalSpan(c: Columns): real
    requires |c.xs| > 0 && |c.ys| > 0
  {
    Larger(Range(c.xs), Range(c.ys))
  }

  /** x, y and z multiplied by a common factor. */
  function ScaledBy(c: Columns, f: real): Columns
  {
    c.(xs := Scale(c.xs, f), ys := Scale(c.ys, f), zs := Scale(c.zs, f))
  }

  /** x, y and z multiplied by `10 / max_range` when `max_range > 50`. */
  function Rescaled(c: Columns): Columns
    requires |c.xs| > 0 && |c.ys| > 0
  {
    if HorizontalSpan(c) > RescaleThreshold then ScaledBy(c, RescaleTarget / HorizontalSpan(c)) else c
  }

  /** The three steps in the order the source applies them.  They keep
      every column's length and never touch the amplitudes. */
  function Normalised(c: Columns, invertDepth: bool, centre: bool): (r: Columns)
    requires |c.xs| > 0 && |c.ys| > 0
    ensures |r.xs| == |c.xs| && |r.ys| == |c.ys| && |r.zs| == |c.zs|
    ensures r.amps == c.amps
  {
    var inverted := if invertDepth then Inverted(c) else c;
    Rescaled(if centre then Centred(inverted) else inverted)
  }

  /** Each step keeps the columns aligned and the amplitudes untouched. */
  lemma NormalisedShape(c: Columns, invertDepth: bool, centre: bool)
    requires Aligned(c) && |c.xs| > 0
    ensures var n := Normalised(c, invertDepth, centre);
      Aligned(n) && |n.xs| == |c.xs| && n.amps == c.amps
  {
  }

  /** After the inversion every depth is non-positive and keeps its
      magnitude; nothing else changes. */
  lemma InvertedDepths(c: Columns)
    ensures var i := Inverted(c);
      && i.xs == c.xs && i.ys == c.ys && i.amps == c.amps && |i.zs| == |c.zs|
      && forall k :: 0 <= k < |c.zs| ==> i.zs[k] <= 0.0 && Abs(i.zs[k]) == Abs(c.zs[k])
  {
    NegAbsNonPositive(c.zs);
  }

  /** Centring leaves x and y with mean zero and leaves z alone. */
  lemma CentredMeans(c: Columns)
    requires |c.xs| > 0 && |c.ys| > 0
    ensures var m := Centred(c);
      Mean(m.xs) == 0.0 && Mean(m.ys) == 0.0 && m.zs == c.zs && m.amps == c.amps
  {
    CentredMeanIsZero(c.xs);
    CentredMeanIsZero(c.ys);
  }

  /** A positive factor scales the larger horizontal range by itself. */
  lemma ScaledBySpan(c: Columns, f: real)
    requires |c.xs| > 0 && |c.ys| > 0 && f > 0.0
    ensures HorizontalSpan(ScaledBy(c, f)) == Times(HorizontalSpan(c), f)
  {
    LargerRangeScaled(c.xs, c.ys, f);
  }

  /** A rescaled survey has larger horizontal range exactly 10; a survey
      whose larger range is at most 50 is left unchanged. */
  lemma RescaledSpan(c: Columns)
    requires |c.xs| > 0 && |c.ys| > 0
    ensures HorizontalSpan(c) > RescaleThreshold ==> HorizontalSpan(Rescaled(c)) == RescaleTarget
    ensures HorizontalSpan(c) <= RescaleThreshold ==> Rescaled(c) == c
  {
    if HorizontalSpan(c) > RescaleThreshold {
      var f := RescaleTarget / HorizontalSpan(c);
      QuotientPositive(RescaleTarget, HorizontalSpan(c));
      ScaledBySpan(c, f);
      ScaledToTarget(HorizontalSpan(ScaledBy(c, f)), HorizontalSpan(c), f, RescaleTarget);
    }
  }

  /** Rescaling twice is rescaling once. */
  lemma RescaledIdempotent(c: Columns)
    requires |c.xs| > 0 && |c.ys| > 0
    ensures Rescaled(Rescaled(c)) == Rescaled(c)
  {
    RescaledSpan(c);
    RescaledSpan(Rescaled(c));
  }

  /** After normalisation the larger horizontal range is at most 50. */
  lemma NormalisedSpanBound(c: Columns, invertDepth: bool, centre: bool)
    requires |c.xs| > 0 && |c.ys| > 0
    ensures HorizontalSpan(Normalised(c, invertDepth, centre)) <= RescaleThreshold
  {
    var inverted := if invertDepth then Inverted(c) else c;
    RescaledSpan(if centre then Centred(inverted) else inverted);
  }

  /** The cleaned point table, updated column by column. */
  class PointTable {
    var xs: seq<real>
    var ys: seq<real>
    var zs: seq<real>
    var amps: seq<real>

    function Cols(): Columns
      reads this
    {
      Columns(xs, ys, zs, amps)
    }

    /** The table built from the cleaned rows. */
    constructor (rows: seq<Point>)
      ensures Cols() == ColumnsOf(rows)
    {
      xs, ys, zs, amps := Xs(rows), Ys(rows), Zs(rows), Amps(rows);
    }

    /** The table's rows in order. */
    function Rows(): (rows: seq<Point>)
      reads this
      requires Aligned(Cols())
      ensures rows == Zip(Cols())
    {
      Zip(Cols())
    }

    method InvertDepth()
      modifies this
      ensures Cols() == Inverted(old(Cols()))
      ensures forall k :: 0 <= k < |zs| ==> zs[k] <= 0.0
    {
      zs := NegAbs(zs);
      NegAbsNonPositive(old(zs));
    }

    method Centre()
      requires |xs| > 0 && |ys| > 0
      modifies this
      ensures Cols() == Centred(old(Cols()))
      ensures Mean(xs) == 0.0 && Mean(ys) == 0.0 && zs == old(zs)
    {
      var xc, yc := Mean(xs), Mean(ys);
      CentredMeanIsZero(xs);
      CentredMeanIsZero(ys);
      xs := Shift(xs, xc);
      ys := Shift(ys, yc);
    }

    method Rescale()
      requires |xs| > 0 && |ys| > 0
      modifies this
      ensures Cols() == Rescaled(old(Cols()))
      ensures HorizontalSpan(old(Cols())) > RescaleThreshold ==> HorizontalSpan(Cols()) == RescaleTarget
      ensures HorizontalSpan(old(Cols())) <= RescaleThreshold ==> Cols() == old(Cols())
    {
      RescaledSpan(Cols());
      var maxRange := Larger(Range(xs), Range(ys));
      if maxRange > RescaleThreshold {
        var sf := RescaleTarget / maxRange;
        xs := Scale(xs, sf);
        ys := Scale(ys, sf);
        zs := Scale(zs, sf);
      }
    }
  }
}
