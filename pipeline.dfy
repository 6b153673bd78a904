/** `process_gpr_data`: from the numeric point table of an uploaded survey to
    the amplitude layers written as PLY files.  The steps are the column
    check, the empty-table check, the coordinate normalisation, the strict
    amplitude filter at a percentile threshold, the iso binning and the
    layer loop.  The quantile, the two binning routines and the sampler are
    foreign numerics and enter as parameters; each returns None where it
    raises, which the outer `except Exception` turns into a failed job. */
module Pipeline {
  import opened Wrappers
  import opened Stats
  import opened Geometry
  import opened Serialise
  import opened Normalise
  import opened Layers

  /** The settings the processing reads, after form coercion. */
  datatype Config = Config(
    colX: int, colY: int, colZ: int, colAmp: int,
    invertDepth: bool, centre: bool,
    thresholdPercentile: real, isoBins: int, maxPointsPerLayer: int)

  /** Why a job ends with status 'error'. */
  datatype Failure =
    | TooFewColumns(have: nat, need: int)   // 'CSV file has only .. columns, but need column index ..'
    | NoNumericData                         // 'No valid numeric data found in specified columns'
    | QuantileRaised                        // `quantile` raised
    | NothingAboveThreshold                 // 'No points after filtering! Try lowering the percentile.'
    | BinningRaised                         // `pd.qcut` and then `pd.cut` raised
    | SampleRaised                          // `sample(n=...)` raised inside the layer loop

  /** A finished job: the layers, their PLY files and `total_output_points`. */
  datatype Outcome =
    | Failed(reason: Failure)
    | Completed(layers: seq<Layer>, files: seq<seq<PlyLine>>, totalPoints: nat)

  type Quantile = (seq<real>, real) -> Option<real>
  type Binning = (seq<real>, int) -> Option<seq<Code>>
  type Sampler = (seq<Point>, nat) -> seq<Point>

  /** A binning routine gives every value a code or NaN. */
  ghost predicate Labels(bin: Binning)
  {
    forall a, n :: bin(a, n).Some? ==> |bin(a, n).value| == |a|
  }

  /** `max(col_idx_x, col_idx_y, col_idx_z, col_idx_amplitude)` */
  function MaxIndex(cfg: Config): (m: int)
    ensures m >= cfg.colX && m >= cfg.colY && m >= cfg.colZ && m >= cfg.colAmp
    ensures m == cfg.colX || m == cfg.colY || m == cfg.colZ || m == cfg.colAmp
  {
    var xy := if cfg.colX >= cfg.colY then cfg.colX else cfg.colY;
    var za := if cfg.colZ >= cfg.colAmp then cfg.colZ else cfg.colAmp;
    if xy >= za then xy else za
  }

  /** `data['abs_amp'] = data['amp'].abs()` */
  function AbsAmps(pts: seq<Point>): (r: seq<real>)
    ensures |r| == |pts|
    ensures forall k :: 0 <= k < |pts| ==> r[k] >= 0.0 && (r[k] == pts[k].amp || r[k] == -pts[k].amp)
  {
    seq(|pts|, k requires 0 <= k < |pts| => Abs(pts[k].amp))
  }

  /** `data[data['abs_amp'] > threshold]`, rows in order. */
  function Retained(pts: seq<Point>, threshold: real): (r: seq<Point>)
    ensures |r| <= |pts|
    ensures forall p <- r :: p in pts && Abs(p.amp) > threshold
  {
    if |pts| == 0 then []
    else
      var rest := Retained(pts[1..], threshold);
      if Abs(pts[0].amp) > threshold then [pts[0]] + rest else rest
  }

  /** The filter keeps every copy of every row above the threshold and
      no other row: a row occurs in the result as often as in the table
      when it is above the threshold, and not at all otherwise. */
  lemma {:induction false} RetainedKeeps(pts: seq<Point>, threshold: real)
    ensures forall p :: multiset(Retained(pts, threshold))[p] == if Abs(p.amp) > threshold then multiset(pts)[p] else 0
    ensures forall p <- pts :: Abs(p.amp) > threshold ==> p in Retained(pts, threshold)
    ensures multiset(Retained(pts, threshold)) <= multiset(pts)
  {
    if |pts| > 0 {
      RetainedKeeps(pts[1..], threshold);
      assert pts == [pts[0]] + pts[1..];
      assert forall p <- pts :: p == pts[0] || p in pts[1..];
    }
  }

  /** The filter keeps the table's row order: filtering two consecutive
      runs of rows is filtering each run and joining the results. */
  lemma {:induction false} RetainedInOrder(pts: seq<Point>, more: seq<Point>, threshold: real)
    ensures Retained(pts + more, threshold) == Retained(pts, threshold) + Retained(more, threshold)
  {
    if |pts| > 0 {
      assert (pts + more)[1..] == pts[1..] + more;
      RetainedInOrder(pts[1..], more, threshold);
    } else {
      assert pts + more == more;
    }
  }

  /** The filter is empty exactly when no row is above the threshold. */
  lemma RetainedEmpty(pts: seq<Point>, threshold: real)
    ensures |Retained(pts, threshold)| == 0 <==> forall p <- pts :: Abs(p.amp) <= threshold
  {
    RetainedKeeps(pts, threshold);
    if |Retained(pts, threshold)| > 0 {
      assert Retained(pts, threshold)[0] in Retained(pts, threshold);
    }
  }

  /** `pd.qcut(..., labels=False, duplicates='drop')`, falling back to
      `pd.cut(..., labels=False)` when it raises: every value gets a code
      or NaN, and the binning raises only when both routines do. */
  function Bin(amps: seq<real>, bins: int, qcut: Binning, cut: Binning): (r: Option<seq<Code>>)
    ensures Labels(qcut) && Labels(cut) && r.Some? ==> |r.value| == |amps|
    ensures r.None? <==> qcut(amps, bins).None? && cut(amps, bins).None?
  {
    match qcut(amps, bins)
    case Some(labels) => Some(labels)
    case None => cut(amps, bins)
  }

  /** The point table after inversion, centring and rescale. */
  function NormalisedTable(data: seq<Point>, cfg: Config): (r: seq<Point>)
    requires |data| > 0
    ensures |r| == |data|
  {
    NormalisedShape(ColumnsOf(data), cfg.invertDepth, cfg.centre);
    Zip(Normalised(ColumnsOf(data), cfg.invertDepth, cfg.centre))
  }

  /** How far the layer loop counts: as the source has it, the number of
      distinct codes (`nunique()`); `corrected`, one more than the largest
      code, so that every code is visited. */
  function VisitBound(labels: seq<nat>, corrected: bool): nat
  {
    if corrected then LabelBound(labels) else DistinctLabels(labels)
  }

  /** What `process_gpr_data` does with a table of `ncols` columns whose
      selected columns hold the numeric rows `data`; `corrected` selects the
      loop bound (false: the source as written).  The column check and the
      empty-table check fail exactly in their own cases, and a completed job
      has one file per layer and counts every written point. */
  function Process(ncols: nat, data: seq<Point>, cfg: Config,
                   quantile: Quantile, qcut: Binning, cut: Binning, sample: Sampler, corrected: bool): (o: Outcome)
    requires Labels(qcut) && Labels(cut)
    ensures o == Failed(TooFewColumns(ncols, MaxIndex(cfg))) <==> ncols <= MaxIndex(cfg)
    ensures o == Failed(NoNumericData) <==> ncols > MaxIndex(cfg) && |data| == 0
    ensures o.Completed? ==>
      && |o.files| == |o.layers|
      && (forall m :: 0 <= m < |o.layers| ==> o.files[m] == LayerFile(o.layers[m]))
      && o.totalPoints == TotalPoints(o.layers)
  {
    if ncols <= MaxIndex(cfg) then Failed(TooFewColumns(ncols, MaxIndex(cfg)))
    else if |data| == 0 then Failed(NoNumericData)
    else
      var table := NormalisedTable(data, cfg);
      match quantile(AbsAmps(table), cfg.thresholdPercentile)
      case None => Failed(QuantileRaised)
      case Some(threshold) =>
        var kept := Retained(table, threshold);
        if |kept| == 0 then Failed(NothingAboveThreshold) else LayersOf(kept, cfg, qcut, cut, sample, corrected)
  }

  /** The binning and the layer loop over the filtered rows: they fail only
      in their own two ways, and a completed loop has one file per layer
      and counts every written point. */
  function LayersOf(kept: seq<Point>, cfg: Config, qcut: Binning, cut: Binning, sample: Sampler, corrected: bool): (o: Outcome)
    requires Labels(qcut) && Labels(cut)
    ensures o.Completed? || o == Failed(BinningRaised) || o == Failed(SampleRaised)
    ensures o.Completed? ==>
      && |o.files| == |o.layers|
      && (forall m :: 0 <= m < |o.layers| ==> o.files[m] == LayerFile(o.layers[m]))
      && o.totalPoints == TotalPoints(o.layers)
  {
    match Bin(AbsAmps(kept), cfg.isoBins, qcut, cut)
    case None => Failed(BinningRaised)
    case Some(codes) =>
      var pts, labels := CodedPoints(kept, codes), CodedLabels(codes);
      match LayerLoop(pts, labels, VisitBound(labels, corrected), cfg.maxPointsPerLayer, sample)
      case None => Failed(SampleRaised)
      case Some(layers) => Completed(layers, Files(layers), TotalPoints(layers))
  }

  /** The job as the source runs it, step by step on the point table. */
  method ProcessGprData(ncols: nat, data: seq<Point>, cfg: Config,
                        quantile: Quantile, qcut: Binning, cut: Binning, sample: Sampler)
    returns (outcome: Outcome)
    requires Labels(qcut) && Labels(cut)
    ensures outcome == Process(ncols, data, cfg, quantile, qcut, cut, sample, false)
  {
    if ncols <= MaxIndex(cfg) {
      return Failed(TooFewColumns(ncols, MaxIndex(cfg)));
    }
    if |data| == 0 {
      return Failed(NoNumericData);
    }
    var t := new PointTable(data);
    if cfg.invertDepth {
      t.InvertDepth();
    }
    if cfg.centre {
      t.Centre();
    }
    t.Rescale();
    NormalisedShape(ColumnsOf(data), cfg.invertDepth, cfg.centre);
    var table := t.Rows();
    var threshold := quantile(AbsAmps(table), cfg.thresholdPercentile);
    if threshold.None? {
      return Failed(QuantileRaised);
    }
    var kept := Retained(table, threshold.value);
    if |kept| == 0 {
      return Failed(NothingAboveThreshold);
    }
    var labels := qcut(AbsAmps(kept), cfg.isoBins);
    if labels.None? {
      labels := cut(AbsAmps(kept), cfg.isoBins);
      if labels.None? {
        return Failed(BinningRaised);
      }
    }
    var coded, codes := CodedPoints(kept, labels.value), CodedLabels(labels.value);
    var actualBins := DistinctLabels(codes);
    var layers, files, total := WriteLayers(coded, codes, actualBins, cfg.maxPointsPerLayer, sample);
    if layers.None? {
      return Failed(SampleRaised);
    }
    outcome := Completed(layers.value, files, total);
  }

  // ------------------------------------------------------------ properties

  /** Normalisation moves points but keeps every amplitude, so the
      threshold is a quantile of the uploaded amplitudes. */
  lemma NormalisedAmps(data: seq<Point>, cfg: Config)
    requires |data| > 0
    ensures AbsAmps(NormalisedTable(data, cfg)) == AbsAmps(data)
  {
    var c := ColumnsOf(data);
    NormalisedShape(c, cfg.invertDepth, cfg.centre);
    var t := NormalisedTable(data, cfg);
    forall k | 0 <= k < |data| ensures AbsAmps(t)[k] == AbsAmps(data)[k] {
      assert t[k].amp == Normalised(c, cfg.invertDepth, cfg.centre).amps[k];
    }
  }

  /** The threshold the filter uses, when the quantile does not raise. */
  function Threshold(data: seq<Point>, cfg: Config, quantile: Quantile): Option<real>
  {
    quantile(AbsAmps(data), cfg.thresholdPercentile)
  }

  /** With the columns present and some numeric row, the filter leaves
      nothing exactly when no uploaded amplitude exceeds the threshold. */
  lemma NothingAboveThresholdCase(ncols: nat, data: seq<Point>, cfg: Config,
                                  quantile: Quantile, qcut: Binning, cut: Binning, sample: Sampler, corrected: bool)
    requires Labels(qcut) && Labels(cut)
    requires ncols > MaxIndex(cfg) && |data| > 0 && Threshold(data, cfg, quantile).Some?
    ensures Process(ncols, data, cfg, quantile, qcut, cut, sample, corrected) == Failed(NothingAboveThreshold)
      <==> forall p <- data :: Abs(p.amp) <= Threshold(data, cfg, quantile).value
  {
    var t := NormalisedTable(data, cfg);
    var threshold := Threshold(data, cfg, quantile).value;
    NormalisedAmps(data, cfg);
    RetainedEmpty(t, threshold);
    SameAmpsAbove(data, t, threshold);
  }

  /** Two tables with the same absolute amplitudes have rows above a
      threshold together. */
  lemma SameAmpsAbove(a: seq<Point>, b: seq<Point>, threshold: real)
    requires AbsAmps(a) == AbsAmps(b)
    ensures (forall p <- a :: Abs(p.amp) <= threshold) <==> (forall p <- b :: Abs(p.amp) <= threshold)
  {
    if exists p <- a :: Abs(p.amp) > threshold {
      var p :| p in a && Abs(p.amp) > threshold;
      var k :| 0 <= k < |a| && a[k] == p;
      assert AbsAmps(b)[k] == Abs(b[k].amp);
      assert b[k] in b;
    }
    if exists p <- b :: Abs(p.amp) > threshold {
      var p :| p in b && Abs(p.amp) > threshold;
      var k :| 0 <= k < |b| && b[k] == p;
      assert AbsAmps(a)[k] == Abs(a[k].amp);
      assert a[k] in a;
    }
  }

  /** The rows that survive the filter. */
  function Filtered(data: seq<Point>, cfg: Config, quantile: Quantile): seq<Point>
    requires |data| > 0 && Threshold(data, cfg, quantile).Some?
  {
    Retained(NormalisedTable(data, cfg), Threshold(data, cfg, quantile).value)
  }

  /** Past the column and empty-table checks, with a threshold, the job
      is the filter's emptiness check followed by the binning and the loop. */
  lemma ProcessPastChecks(ncols: nat, data: seq<Point>, cfg: Config,
                          quantile: Quantile, qcut: Binning, cut: Binning, sample: Sampler, corrected: bool)
    requires Labels(qcut) && Labels(cut)
    requires ncols > MaxIndex(cfg) && |data| > 0 && Threshold(data, cfg, quantile).Some?
    ensures Process(ncols, data, cfg, quantile, qcut, cut, sample, corrected)
      == if |Filtered(data, cfg, quantile)| == 0 then Failed(NothingAboveThreshold)
         else LayersOf(Filtered(data, cfg, quantile), cfg, qcut, cut, sample, corrected)
  {
    NormalisedAmps(data, cfg);
  }

  /** Once rows survive the filter and are binned, the job fails in the
      layer loop exactly when the per-layer cap is negative and a visited
      level has rows; with the corrected bound, exactly when the cap is
      negative. */
  lemma SampleRaisedCase(ncols: nat, data: seq<Point>, cfg: Config,
                         quantile: Quantile, qcut: Binning, cut: Binning, sample: Sampler, corrected: bool)
    requires Labels(qcut) && Labels(cut)
    requires ncols > MaxIndex(cfg) && |data| > 0 && Threshold(data, cfg, quantile).Some?
    requires var kept := Filtered(data, cfg, quantile);
      |kept| > 0 && Bin(AbsAmps(kept), cfg.isoBins, qcut, cut).Some?
    ensures var kept := Filtered(data, cfg, quantile);
      var codes := Bin(AbsAmps(kept), cfg.isoBins, qcut, cut).value;
      var pts, labels := CodedPoints(kept, codes), CodedLabels(codes);
      (Process(ncols, data, cfg, quantile, qcut, cut, sample, corrected) == Failed(SampleRaised))
        <==> (cfg.maxPointsPerLayer < 0 && exists l :: 0 <= l < VisitBound(labels, corrected) && |LevelPoints(pts, labels, l)| > 0)
    ensures var kept := Filtered(data, cfg, quantile);
      var codes := Bin(AbsAmps(kept), cfg.isoBins, qcut, cut).value;
      corrected ==>
        ((Process(ncols, data, cfg, quantile, qcut, cut, sample, corrected) == Failed(SampleRaised))
           <==> (cfg.maxPointsPerLayer < 0 && |CodedLabels(codes)| > 0))
  {
    ProcessPastChecks(ncols, data, cfg, quantile, qcut, cut, sample, corrected);
    var kept := Filtered(data, cfg, quantile);
    LayersOfSampleRaised(kept, cfg, qcut, cut, sample, corrected);
  }

  /** The layer loop of `LayersOf` fails exactly when the cap is negative
      and a visited level has coded rows. */
  lemma LayersOfSampleRaised(kept: seq<Point>, cfg: Config, qcut: Binning, cut: Binning, sample: Sampler, corrected: bool)
    requires Labels(qcut) && Labels(cut) && Bin(AbsAmps(kept), cfg.isoBins, qcut, cut).Some?
    ensures var codes := Bin(AbsAmps(kept), cfg.isoBins, qcut, cut).value;
      var pts, labels := CodedPoints(kept, codes), CodedLabels(codes);
      && ((LayersOf(kept, cfg, qcut, cut, sample, corrected) == Failed(SampleRaised))
            <==> (cfg.maxPointsPerLayer < 0 && exists l :: 0 <= l < VisitBound(labels, corrected) && |LevelPoints(pts, labels, l)| > 0))
      && (corrected ==>
           ((LayersOf(kept, cfg, qcut, cut, sample, corrected) == Failed(SampleRaised))
              <==> (cfg.maxPointsPerLayer < 0 && |labels| > 0)))
  {
    var codes := Bin(AbsAmps(kept), cfg.isoBins, qcut, cut).value;
    var pts, labels := CodedPoints(kept, codes), CodedLabels(codes);
    var loop := LayerLoop(pts, labels, VisitBound(labels, corrected), cfg.maxPointsPerLayer, sample);
    assert LayersOf(kept, cfg, qcut, cut, sample, corrected) == Failed(SampleRaised) <==> loop.None?;
    LayerLoopFails(pts, labels, VisitBound(labels, corrected), cfg.maxPointsPerLayer, sample);
    if |labels| > 0 {
      LevelPointsHolds(pts, labels, labels[0], 0);
    }
  }

  /** A completed job passed every check, and its layers are those of the
      filtered, binned rows up to the loop bound.  A negative cap completes
      only when no visited level has rows, which the corrected bound rules
      out. */
  lemma CompletedShape(ncols: nat, data: seq<Point>, cfg: Config,
                       quantile: Quantile, qcut: Binning, cut: Binning, sample: Sampler, corrected: bool)
    requires Labels(qcut) && Labels(cut)
    requires Process(ncols, data, cfg, quantile, qcut, cut, sample, corrected).Completed?
    ensures ncols > MaxIndex(cfg) && |data| > 0 && Threshold(data, cfg, quantile).Some?
    ensures var kept := Filtered(data, cfg, quantile);
      && |kept| > 0 && Bin(AbsAmps(kept), cfg.isoBins, qcut, cut).Some?
      && var codes := Bin(AbsAmps(kept), cfg.isoBins, qcut, cut).value;
         && |codes| == |kept|
         && var pts, labels := CodedPoints(kept, codes), CodedLabels(codes);
         && var b := VisitBound(labels, corrected);
            && (cfg.maxPointsPerLayer >= 0 || !AnyFilled(pts, labels, b))
            && (corrected ==> cfg.maxPointsPerLayer >= 0 || |labels| == 0)
            && var ls := if cfg.maxPointsPerLayer >= 0 then Layers.Layers(pts, labels, b, b, cfg.maxPointsPerLayer, sample) else [];
               Process(ncols, data, cfg, quantile, qcut, cut, sample, corrected) == Completed(ls, Files(ls), TotalPoints(ls))
  {
    NormalisedAmps(data, cfg);
    ProcessPastChecks(ncols, data, cfg, quantile, qcut, cut, sample, corrected);
    SampleRaisedCase(ncols, data, cfg, quantile, qcut, cut, sample, corrected);
  }

  /** A completed job wrote only rows above the threshold, each in the
      layer of its own code, at most `max_points_per_layer` per layer,
      levels increasing. */
  lemma CompletedLayers(ncols: nat, data: seq<Point>, cfg: Config,
                        quantile: Quantile, qcut: Binning, cut: Binning, sample: Sampler, corrected: bool)
    requires Labels(qcut) && Labels(cut) && IsSampler(sample)
    requires Process(ncols, data, cfg, quantile, qcut, cut, sample, corrected).Completed?
    ensures |data| > 0 && Threshold(data, cfg, quantile).Some?
    ensures var ls := Process(ncols, data, cfg, quantile, qcut, cut, sample, corrected).layers;
      && (forall l <- ls :: |l.points| <= cfg.maxPointsPerLayer)
      && (forall l <- ls, p <- l.points ::
            p in NormalisedTable(data, cfg) && Abs(p.amp) > Threshold(data, cfg, quantile).value)
      && (forall m, m' :: 0 <= m < m' < |ls| ==> ls[m].level < ls[m'].level)
  {
    CompletedShape(ncols, data, cfg, quantile, qcut, cut, sample, corrected);
    if cfg.maxPointsPerLayer >= 0 {
      var kept := Filtered(data, cfg, quantile);
      var codes := Bin(AbsAmps(kept), cfg.isoBins, qcut, cut).value;
      var pts, labels := CodedPoints(kept, codes), CodedLabels(codes);
      var b := VisitBound(labels, corrected);
      WrittenPoints(pts, labels, b, cfg.maxPointsPerLayer, sample);
      LayersFacts(pts, labels, b, b, cfg.maxPointsPerLayer, sample);
      forall p | p in pts ensures p in kept {
        assert multiset(pts)[p] > 0;
      }
    }
  }

  /** With no level over the cap, a completed job writes every filtered
      row that got a bin code, and so every filtered row when each got one,
      provided the loop visits every code: always with the corrected bound,
      and as written exactly when the codes are contiguous. */
  lemma CompletedWritesAll(ncols: nat, data: seq<Point>, cfg: Config,
                           quantile: Quantile, qcut: Binning, cut: Binning, sample: Sampler, corrected: bool)
    requires Labels(qcut) && Labels(cut) && IsSampler(sample)
    requires Process(ncols, data, cfg, quantile, qcut, cut, sample, corrected).Completed?
    requires cfg.maxPointsPerLayer >= |data|
    requires |data| > 0 && Threshold(data, cfg, quantile).Some?
    requires var kept := Filtered(data, cfg, quantile);
      Bin(AbsAmps(kept), cfg.isoBins, qcut, cut).Some?
      && var labels := CodedLabels(Bin(AbsAmps(kept), cfg.isoBins, qcut, cut).value);
         corrected || forall c :: 0 <= c < LabelBound(labels) ==> c in labels
    ensures var kept := Filtered(data, cfg, quantile);
      var codes := Bin(AbsAmps(kept), cfg.isoBins, qcut, cut).value;
      && Process(ncols, data, cfg, quantile, qcut, cut, sample, corrected).totalPoints == |CodedLabels(codes)|
      && ((forall i :: 0 <= i < |codes| ==> codes[i].Some?) ==>
            Process(ncols, data, cfg, quantile, qcut, cut, sample, corrected).totalPoints == |kept|)
  {
    CompletedShape(ncols, data, cfg, quantile, qcut, cut, sample, corrected);
    var kept := Filtered(data, cfg, quantile);
    var codes := Bin(AbsAmps(kept), cfg.isoBins, qcut, cut).value;
    var pts, labels := CodedPoints(kept, codes), CodedLabels(codes);
    assert VisitBound(labels, corrected) == LabelBound(labels);
    LabelBoundWritesAll(pts, labels, cfg.maxPointsPerLayer, sample);
  }

  /** When the binning leaves every code NaN, as `qcut` does on a single
      distinct amplitude, the job still completes, with no layer and
      `total_output_points` 0, whichever loop bound it uses. */
  lemma UncodedWritesNothing(ncols: nat, data: seq<Point>, cfg: Config,
                             quantile: Quantile, qcut: Binning, cut: Binning, sample: Sampler, corrected: bool)
    requires Labels(qcut) && Labels(cut)
    requires ncols > MaxIndex(cfg) && |data| > 0 && Threshold(data, cfg, quantile).Some?
    requires var kept := Filtered(data, cfg, quantile);
      |kept| > 0 && Bin(AbsAmps(kept), cfg.isoBins, qcut, cut).Some?
      && var codes := Bin(AbsAmps(kept), cfg.isoBins, qcut, cut).value;
         forall i :: 0 <= i < |codes| ==> codes[i].None?
    ensures var o := Process(ncols, data, cfg, quantile, qcut, cut, sample, corrected);
      o.Completed? && o.layers == [] && o.totalPoints == 0
  {
    ProcessPastChecks(ncols, data, cfg, quantile, qcut, cut, sample, corrected);
    var kept := Filtered(data, cfg, quantile);
    var codes := Bin(AbsAmps(kept), cfg.isoBins, qcut, cut).value;
    assert CodedLabels(codes) == [];
    assert LabelSet([]) == {};
    assert VisitBound([], corrected) == 0;
  }

  // ------------------------------------------- the finding, job by job

  /** A survey of three rows at the origin with amplitudes 0, 1 and 11. */
  const ExampleRows: seq<Point> := [Point(0.0, 0.0, 0.0, 0.0), Point(0.0, 0.0, 0.0, 1.0), Point(0.0, 0.0, 0.0, 11.0)]

  /** The first four columns, percentile 0, four bins, a cap of 1000. */
  const ExampleConfig: Config := Config(0, 1, 2, 3, true, true, 0.0, 4, 1000)

  /** The 0th percentile: the smallest value. */
  function LowestQuantile(a: seq<real>, p: real): Option<real>
  {
    if |a| > 0 then Some(Min(a)) else None
  }

  /** The quartile codes of [1, 11]: edges 1, 3.5, 6, 8.5 and 11. */
  function QuartileCodes(a: seq<real>, bins: int): (r: Option<seq<Code>>)
    ensures r.Some? && |r.value| == |a|
  {
    Some(seq(|a|, i requires 0 <= i < |a| => Some(if a[i] <= 3.5 then 0 else if a[i] <= 6.0 then 1 else if a[i] <= 8.5 then 2 else 3)))
  }

  /** The example table is left as it is by the normalisation. */
  lemma ExampleTable()
    ensures NormalisedTable(ExampleRows, ExampleConfig) == ExampleRows
  {
    var c := ColumnsOf(ExampleRows);
    var zero: seq<real> := [0.0, 0.0, 0.0];
    assert c.xs == zero && c.ys == zero && c.zs == zero;
    assert NegAbs(zero) == zero;
    assert Shift(zero, 0.0) == zero;
    assert Mean(zero) == 0.0;
    MinIsUnique(zero, 0, 0.0);
    MaxIsUnique(zero, 0, 0.0);
    assert Range(zero) == 0.0;
    assert Normalised(c, true, true) == c;
    ZipColumnsOf(ExampleRows);
  }

  /** On the example the threshold is 0 and the rows with amplitudes 1
      and 11 survive the filter. */
  lemma ExampleFiltered()
    ensures Threshold(ExampleRows, ExampleConfig, LowestQuantile) == Some(0.0)
    ensures Filtered(ExampleRows, ExampleConfig, LowestQuantile) == [ExampleRows[1], ExampleRows[2]]
  {
    ExampleThreshold();
    ExampleTable();
    ExampleRetained();
  }

  lemma ExampleThreshold()
    ensures Threshold(ExampleRows, ExampleConfig, LowestQuantile) == Some(0.0)
  {
    var a := AbsAmps(ExampleRows);
    assert a[0] == 0.0 && a[1] == 1.0 && a[2] == 11.0;
    MinIsUnique(a, 0, 0.0);
  }

  lemma ExampleRetained()
    ensures Retained(ExampleRows, 0.0) == [ExampleRows[1], ExampleRows[2]]
  {
    var rows := ExampleRows;
    assert rows[1..][1..] == [rows[2]];
    assert Retained([rows[2]], 0.0) == [rows[2]];
    assert Retained(rows[1..], 0.0) == [rows[1], rows[2]];
  }

  /** Run as written on the example, the job completes but writes one of
      the two rows above the threshold: their codes are [0, 3], and the loop
      stops at the two distinct codes.  With the corrected bound both are
      written. */
  lemma ProcessDropsPoints(sample: Sampler, corrected: bool)
    requires IsSampler(sample)
    ensures Labels(QuartileCodes)
    ensures var o := Process(4, ExampleRows, ExampleConfig, LowestQuantile, QuartileCodes, QuartileCodes, sample, corrected);
      o.Completed? && o.totalPoints == if corrected then 2 else 1
  {
    ExampleProcess(sample, corrected);
    ExampleLayers(sample);
  }

  /** On the example the job reaches the binning with the two surviving rows. */
  lemma ExampleProcess(sample: Sampler, corrected: bool)
    ensures Labels(QuartileCodes)
    ensures Process(4, ExampleRows, ExampleConfig, LowestQuantile, QuartileCodes, QuartileCodes, sample, corrected)
      == LayersOf([ExampleRows[1], ExampleRows[2]], ExampleConfig, QuartileCodes, QuartileCodes, sample, corrected)
  {
    ExampleFiltered();
    assert MaxIndex(ExampleConfig) == 3;
    assert Labels(QuartileCodes);
    ProcessPastChecks(4, ExampleRows, ExampleConfig, LowestQuantile, QuartileCodes, QuartileCodes, sample, corrected);
  }

  /** The codes of the two surviving rows are [0, 3]. */
  lemma ExampleCodes()
    ensures var kept := [ExampleRows[1], ExampleRows[2]];
      && Bin(AbsAmps(kept), 4, QuartileCodes, QuartileCodes) == Some([Some(0), Some(3)])
      && CodedPoints(kept, [Some(0), Some(3)]) == kept
      && CodedLabels([Some(0), Some(3)]) == [0, 3]
  {
    var kept := [ExampleRows[1], ExampleRows[2]];
    var a := AbsAmps(kept);
    assert a[0] == 1.0 && a[1] == 11.0;
    var r := QuartileCodes(a, 4).value;
    assert r[0] == Some(0) && r[1] == Some(3);
    assert r == [Some(0), Some(3)];
  }

  /** The binning and the loop on the two surviving rows: one row written
      as the source has it, both with the corrected bound. */
  lemma ExampleLayers(sample: Sampler)
    requires IsSampler(sample)
    ensures var kept := [ExampleRows[1], ExampleRows[2]];
      && Labels(QuartileCodes)
      && var o := LayersOf(kept, ExampleConfig, QuartileCodes, QuartileCodes, sample, false);
         o.Completed? && o.totalPoints == 1
    ensures var kept := [ExampleRows[1], ExampleRows[2]];
      && Labels(QuartileCodes)
      && var o := LayersOf(kept, ExampleConfig, QuartileCodes, QuartileCodes, sample, true);
         o.Completed? && o.totalPoints == 2
  {
    ExampleCodes();
    DistinctBoundDropsPoints(ExampleRows[1], ExampleRows[2], sample);
  }
}
