/** The amplitude-layer loop of `process_gpr_data`: one PLY layer per iso
    level, holding the filtered points carrying that level's bin label,
    capped at `max_points_per_layer` by random sampling, coloured with the
    level's palette colour, and counted into `total_output_points`.  The bin
    labels (`pd.qcut`, or `pd.cut` when it fails) and the sampling
    (`DataFrame.sample`) are foreign and enter as inputs. */
module Layers {
  import opened Wrappers
  import opened Geometry
  import opened Palette
  import opened Serialise

  /** `np.column_stack((x, y, z))` of a layer's points. */
  function Positions(pts: seq<Point>): (r: seq<Vec3>)
    ensures |r| == |pts| && forall k :: 0 <= k < |pts| ==> r[k] == Vec3(pts[k].x, pts[k].y, pts[k].z)
  {
    seq(|pts|, k requires 0 <= k < |pts| => Vec3(pts[k].x, pts[k].y, pts[k].z))
  }

  /** `np.full((n, 3), color)` */
  function SameColour(n: nat, c: Rgb8): (r: seq<Rgb8>)
    ensures |r| == n && forall k :: 0 <= k < n ==> r[k] == c
  {
    seq(n, k => c)
  }

  /** The contract of `DataFrame.sample(n=...)` without replacement: n of
      the rows, each row used at most as often as it occurs. */
  ghost predicate IsSampler(sample: (seq<Point>, nat) -> seq<Point>)
  {
    KeepsCount(sample) && forall s: seq<Point>, n: nat :: n <= |s| ==> multiset(sample(s, n)) <= multiset(s)
  }

  /** The part of the sampling contract that fixes the sample size. */
  ghost predicate KeepsCount(sample: (seq<Point>, nat) -> seq<Point>)
  {
    forall s: seq<Point>, n: nat :: n <= |s| ==> |sample(s, n)| == n
  }

  /** `df_filtered[df_filtered['iso_range'] == level]`, in row order. */
  function LevelPoints(pts: seq<Point>, labels: seq<nat>, level: nat): (r: seq<Point>)
    requires |labels| == |pts|
    ensures |r| <= |pts|
  {
    if |pts| == 0 then []
    else
      var rest := LevelPoints(pts[1..], labels[1..], level);
      if labels[0] == level then [pts[0]] + rest else rest
  }

  /** A level's selection is drawn from the points. */
  lemma {:induction false} LevelPointsSubset(pts: seq<Point>, labels: seq<nat>, level: nat)
    requires |labels| == |pts|
    ensures multiset(LevelPoints(pts, labels, level)) <= multiset(pts)
  {
    if |pts| > 0 {
      LevelPointsSubset(pts[1..], labels[1..], level);
      assert pts == [pts[0]] + pts[1..];
    }
  }

  /** Every point labelled with a level is selected for that level. */
  lemma {:induction false} LevelPointsHolds(pts: seq<Point>, labels: seq<nat>, level: nat, i: nat)
    requires |labels| == |pts| && i < |pts| && labels[i] == level
    ensures pts[i] in LevelPoints(pts, labels, level)
  {
    if i > 0 {
      LevelPointsHolds(pts[1..], labels[1..], level, i - 1);
    }
  }

  /** Conversely, every selected row is a row labelled with the level. */
  lemma {:induction false} LevelPointsLabelled(pts: seq<Point>, labels: seq<nat>, level: nat, p: Point)
    requires |labels| == |pts| && p in LevelPoints(pts, labels, level)
    ensures exists i :: 0 <= i < |pts| && pts[i] == p && labels[i] == level
  {
    var rest := LevelPoints(pts[1..], labels[1..], level);
    if labels[0] == level && p == pts[0] {
      assert pts[0] == p && labels[0] == level;
    } else {
      assert p in rest;
      LevelPointsLabelled(pts[1..], labels[1..], level, p);
      var i :| 0 <= i < |pts| - 1 && pts[1..][i] == p && labels[1..][i] == level;
      assert pts[i + 1] == p && labels[i + 1] == level;
    }
  }

  /** A row's bin code, or None where pandas leaves NaN: a binning can
      leave a value outside every bin, and then no `== level` test matches
      the row and `nunique()` does not count it. */
  type Code = Option<nat>

  /** The codes that are present, in row order. */
  function CodedLabels(codes: seq<Code>): (r: seq<nat>)
    ensures |r| <= |codes|
    ensures (forall i :: 0 <= i < |codes| ==> codes[i].Some?) ==>
      |r| == |codes| && forall i :: 0 <= i < |codes| ==> r[i] == codes[i].value
    ensures (forall i :: 0 <= i < |codes| ==> codes[i].None?) ==> r == []
  {
    if |codes| == 0 then []
    else
      var rest := CodedLabels(codes[1..]);
      if codes[0].Some? then [codes[0].value] + rest else rest
  }

  /** The rows that have a code, in row order. */
  function CodedPoints(pts: seq<Point>, codes: seq<Code>): (r: seq<Point>)
    requires |codes| == |pts|
    ensures |r| == |CodedLabels(codes)|
    ensures multiset(r) <= multiset(pts)
    ensures (forall i :: 0 <= i < |codes| ==> codes[i].Some?) ==> r == pts
  {
    if |pts| == 0 then []
    else
      var rest := CodedPoints(pts[1..], codes[1..]);
      assert pts == [pts[0]] + pts[1..];
      if codes[0].Some? then [pts[0]] + rest else rest
  }

  /** `df_filtered[df_filtered['iso_range'] == level]` over rows whose code
      may be NaN, which never equals a level. */
  function MaskLevel(pts: seq<Point>, codes: seq<Code>, level: nat): (r: seq<Point>)
    requires |codes| == |pts|
  {
    if |pts| == 0 then []
    else
      var rest := MaskLevel(pts[1..], codes[1..], level);
      if codes[0] == Some(level) then [pts[0]] + rest else rest
  }

  /** Selecting a level among the coded rows is the source's mask over all
      the rows. */
  lemma {:induction false} CodedLevelPoints(pts: seq<Point>, codes: seq<Code>, level: nat)
    requires |codes| == |pts|
    ensures LevelPoints(CodedPoints(pts, codes), CodedLabels(codes), level) == MaskLevel(pts, codes, level)
  {
    if |pts| > 0 {
      CodedLevelPoints(pts[1..], codes[1..], level);
      if codes[0].Some? {
        var cp, cl := CodedPoints(pts, codes), CodedLabels(codes);
        assert cp[1..] == CodedPoints(pts[1..], codes[1..]);
        assert cl[1..] == CodedLabels(codes[1..]);
      }
    }
  }

  /** The labels of the coded rows are the codes that occur, so their count
      is `nunique()`, which skips NaN. */
  lemma {:induction false} CodedLabelSet(codes: seq<Code>)
    ensures LabelSet(CodedLabels(codes)) == set i | 0 <= i < |codes| && codes[i].Some? :: codes[i].value
  {
    var all := set i | 0 <= i < |codes| && codes[i].Some? :: codes[i].value;
    if |codes| > 0 {
      var rest := set i | 0 <= i < |codes| - 1 && codes[1..][i].Some? :: codes[1..][i].value;
      CodedLabelSet(codes[1..]);
      var cl := CodedLabels(codes);
      forall c | c in all ensures c in LabelSet(cl) {
        var i :| 0 <= i < |codes| && codes[i].Some? && codes[i].value == c;
        if i > 0 {
          assert codes[1..][i - 1] == codes[i];
          assert c in rest;
        }
        if codes[0].Some? {
          assert cl == [codes[0].value] + CodedLabels(codes[1..]);
          if i > 0 {
            var k :| 0 <= k < |CodedLabels(codes[1..])| && CodedLabels(codes[1..])[k] == c;
            assert cl[k + 1] == c;
          } else {
            assert cl[0] == c;
          }
        } else {
          assert i > 0;
        }
      }
      forall c | c in LabelSet(cl) ensures c in all {
        var k :| 0 <= k < |cl| && cl[k] == c;
        if codes[0].Some? && k == 0 {
          assert codes[0].value == c;
        } else {
          var k' := if codes[0].Some? then k - 1 else k;
          assert CodedLabels(codes[1..])[k'] == c;
          assert c in rest;
          var i :| 0 <= i < |codes| - 1 && codes[1..][i].Some? && codes[1..][i].value == c;
          assert codes[i + 1].Some? && codes[i + 1].value == c;
        }
      }
    }
  }

  /** A written layer: its iso level, its points after capping and its
      colour.  Its file `layer_{level+1}.ply` is `LayerFile`. */
  datatype Layer = Layer(level: nat, points: seq<Point>, colour: Rgb8)

  /** `write_ply_fast(filepath_ply, points, colors)` for a layer. */
  function LayerFile(l: Layer): seq<PlyLine>
  {
    PlyFile(Positions(l.points), SameColour(|l.points|, l.colour))
  }

  /** `iso_data.sample(n=cap)` when the level holds more than cap points. */
  function Capped(sel: seq<Point>, cap: nat, sample: (seq<Point>, nat) -> seq<Point>): seq<Point>
  {
    if |sel| > cap then sample(sel, cap) else sel
  }

  predicate LevelFilled(pts: seq<Point>, labels: seq<nat>, level: nat)
    requires |labels| == |pts|
  {
    |LevelPoints(pts, labels, level)| > 0
  }

  /** The layers written for levels 0 .. k - 1 with a non-negative cap:
      empty levels are skipped. */
  function Layers(pts: seq<Point>, labels: seq<nat>, bound: nat, k: nat, cap: nat,
                  sample: (seq<Point>, nat) -> seq<Point>): seq<Layer>
    requires |labels| == |pts|
  {
    if k == 0 then [] else Layers(pts, labels, bound, k - 1, cap, sample) + LevelLayer(pts, labels, bound, k - 1, cap, sample)
  }

  /** The layer one level contributes: none when the level is empty. */
  function LevelLayer(pts: seq<Point>, labels: seq<nat>, bound: nat, level: nat, cap: nat,
                      sample: (seq<Point>, nat) -> seq<Point>): (r: seq<Layer>)
    requires |labels| == |pts|
    ensures |r| <= 1 && (|r| == 1 <==> LevelFilled(pts, labels, level))
    ensures |r| == 1 ==> r[0].level == level
  {
    var sel := LevelPoints(pts, labels, level);
    if |sel| == 0 then [] else [Layer(level, Capped(sel, cap, sample), IsoColour(level, bound))]
  }

  /** `total_output_points`: the sum of the written layer sizes. */
  function TotalPoints(layers: seq<Layer>): nat
  {
    if |layers| == 0 then 0 else TotalPoints(layers[..|layers| - 1]) + |layers[|layers| - 1].points|
  }

  function Files(layers: seq<Layer>): (fs: seq<seq<PlyLine>>)
    ensures |fs| == |layers|
  {
    seq(|layers|, m requires 0 <= m < |layers| => LayerFile(layers[m]))
  }

  lemma TotalPointsAppend(ls: seq<Layer>, l: Layer)
    ensures TotalPoints(ls + [l]) == TotalPoints(ls) + |l.points|
  {
    assert (ls + [l])[..|ls|] == ls;
  }

  /** One pass of the loop body for `level`: the level's rows, capped by
      sampling.  `failed` is the error `sample` raises for a negative cap. */
  method WriteLevel(pts: seq<Point>, labels: seq<nat>, bound: nat, level: nat, cap: int,
                    sample: (seq<Point>, nat) -> seq<Point>)
    returns (extra: seq<Layer>, failed: bool)
    requires |labels| == |pts|
    ensures failed <==> cap < 0 && LevelFilled(pts, labels, level)
    ensures cap >= 0 ==> extra == LevelLayer(pts, labels, bound, level, cap, sample)
    ensures cap < 0 ==> extra == []
  {
    extra := [];
    var sel := LevelPoints(pts, labels, level);
    if |sel| == 0 {
      return extra, false;
    }
    if |sel| > cap {
      if cap < 0 {
        return extra, true;
      }
      sel := sample(sel, cap as nat);
    }
    extra := [Layer(level, sel, IsoColour(level, bound))];
    failed := false;
  }

  /** Some level below k is non-empty. */
  predicate AnyFilled(pts: seq<Point>, labels: seq<nat>, k: nat)
    requires |labels| == |pts|
  {
    exists l :: 0 <= l < k && LevelFilled(pts, labels, l)
  }

  /** What the layer loop produces: the layers of every non-empty level
      below the bound, or, for a negative cap, the error `sample` raises
      at the first non-empty level (None). */
  function LayerLoop(pts: seq<Point>, labels: seq<nat>, bound: nat, cap: int,
                     sample: (seq<Point>, nat) -> seq<Point>): Option<seq<Layer>>
    requires |labels| == |pts|
  {
    if cap >= 0 then Some(Layers(pts, labels, bound, bound, cap, sample))
    else if AnyFilled(pts, labels, bound) then None
    else Some([])
  }

  /** The layer loop fails exactly when the cap is negative and some level
      has rows to sample. */
  lemma LayerLoopFails(pts: seq<Point>, labels: seq<nat>, bound: nat, cap: int,
                       sample: (seq<Point>, nat) -> seq<Point>)
    requires |labels| == |pts|
    ensures LayerLoop(pts, labels, bound, cap, sample).None?
      <==> cap < 0 && exists l :: 0 <= l < bound && |LevelPoints(pts, labels, l)| > 0
  {
    if exists l :: 0 <= l < bound && |LevelPoints(pts, labels, l)| > 0 {
      var l :| 0 <= l < bound && |LevelPoints(pts, labels, l)| > 0;
      assert LevelFilled(pts, labels, l);
    }
    if AnyFilled(pts, labels, bound) {
      var l :| 0 <= l < bound && LevelFilled(pts, labels, l);
      assert |LevelPoints(pts, labels, l)| > 0;
    }
  }

  /** The layer loop over levels 0 .. bound - 1, accumulating the layers,
      their files (`ply_files`) and `total_output_points`. */
  method WriteLayers(pts: seq<Point>, labels: seq<nat>, bound: nat, cap: int,
                     sample: (seq<Point>, nat) -> seq<Point>)
    returns (layers: Option<seq<Layer>>, files: seq<seq<PlyLine>>, total: nat)
    requires |labels| == |pts|
    ensures layers == LayerLoop(pts, labels, bound, cap, sample)
    ensures layers.Some? ==> files == Files(layers.value) && total == TotalPoints(layers.value)
  {
    var written: seq<Layer> := [];
    files := [];
    total := 0;
    for level := 0 to bound
      invariant written == (if cap >= 0 then Layers(pts, labels, bound, level, cap, sample) else [])
      invariant cap < 0 ==> !AnyFilled(pts, labels, level)
      invariant files == Files(written) && total == TotalPoints(written)
    {
      var extra, failed := WriteLevel(pts, labels, bound, level, cap, sample);
      if failed {
        return None, files, total;
      }
      if cap >= 0 {
        LoopStep(pts, labels, bound, level, cap, sample, written, extra);
      }
      AppendFacts(written, extra);
      if |extra| == 1 {
        var layer := extra[0];
        files := files + [PlyFile(Positions(layer.points), SameColour(|layer.points|, layer.colour))];
        total := total + |layer.points|;
      }
      written := written + extra;
    }
    layers := Some(written);
  }

  /** One step of the loop: the written layers grow by the level's layer. */
  lemma LoopStep(pts: seq<Point>, labels: seq<nat>, bound: nat, level: nat, cap: int,
                 sample: (seq<Point>, nat) -> seq<Point>, written: seq<Layer>, extra: seq<Layer>)
    requires |labels| == |pts| && cap >= 0 && |extra| <= 1
    requires written == Layers(pts, labels, bound, level, cap, sample)
    requires extra == LevelLayer(pts, labels, bound, level, cap, sample)
    ensures written + extra == Layers(pts, labels, bound, level + 1, cap, sample)
  {
  }

  /** Appending at most one layer extends its files and its total. */
  lemma AppendFacts(written: seq<Layer>, extra: seq<Layer>)
    requires |extra| <= 1
    ensures |extra| == 1 ==>
      Files(written + extra) == Files(written) + [LayerFile(extra[0])]
      && TotalPoints(written + extra) == TotalPoints(written) + |extra[0].points|
    ensures |extra| == 0 ==> written + extra == written
  {
    if |extra| == 1 {
      TotalPointsConcat(written, extra);
      assert extra[..0] == [];
    }
  }

  // ------------------------------------------------------- layer properties

  /** What the loop promises of the layer it writes for a level: a
      non-empty level, min(|level|, cap) of that level's own points (and
      so of the filtered points), and the level's palette colour. */
  ghost predicate LayerForLevel(pts: seq<Point>, labels: seq<nat>, bound: nat, cap: nat, l: Layer)
    requires |labels| == |pts|
  {
    var sel := LevelPoints(pts, labels, l.level);
    && |sel| > 0
    && |l.points| == (if |sel| > cap then cap else |sel|)
    && multiset(l.points) <= multiset(sel)
    && multiset(l.points) <= multiset(pts)
    && l.colour == IsoColour(l.level, bound)
  }

  lemma CappedFacts(pts: seq<Point>, labels: seq<nat>, bound: nat, level: nat, cap: nat,
                    sample: (seq<Point>, nat) -> seq<Point>)
    requires |labels| == |pts| && IsSampler(sample) && LevelFilled(pts, labels, level)
    ensures LayerForLevel(pts, labels, bound, cap,
                          Layer(level, Capped(LevelPoints(pts, labels, level), cap, sample), IsoColour(level, bound)))
  {
    var sel := LevelPoints(pts, labels, level);
    LevelPointsSubset(pts, labels, level);
    var l := Capped(sel, cap, sample);
    assert multiset(l) <= multiset(sel);
  }

  /** Every written layer is the layer of a visited, non-empty level, and
      the layers come in increasing level order. */
  lemma {:induction false} LayersFacts(pts: seq<Point>, labels: seq<nat>, bound: nat, k: nat, cap: nat,
                                       sample: (seq<Point>, nat) -> seq<Point>)
    requires |labels| == |pts| && IsSampler(sample)
    ensures var ls := Layers(pts, labels, bound, k, cap, sample);
      && |ls| <= k
      && (forall m :: 0 <= m < |ls| ==> ls[m].level < k && LayerForLevel(pts, labels, bound, cap, ls[m]))
      && (forall m, m' :: 0 <= m < m' < |ls| ==> ls[m].level < ls[m'].level)
  {
    if k > 0 {
      LayersFacts(pts, labels, bound, k - 1, cap, sample);
      var before, extra := Layers(pts, labels, bound, k - 1, cap, sample), LevelLayer(pts, labels, bound, k - 1, cap, sample);
      if LevelFilled(pts, labels, k - 1) {
        CappedFacts(pts, labels, bound, k - 1, cap, sample);
      }
      var ls := before + extra;
      forall m | 0 <= m < |ls| ensures ls[m].level < k && LayerForLevel(pts, labels, bound, cap, ls[m]) {
        if m < |before| {
          assert ls[m] == before[m];
        }
      }
    }
  }

  /** The loop writes only filtered points, each in the layer of its own
      label, at most cap per layer. */
  lemma WrittenPoints(pts: seq<Point>, labels: seq<nat>, bound: nat, cap: nat,
                      sample: (seq<Point>, nat) -> seq<Point>)
    requires |labels| == |pts| && IsSampler(sample)
    ensures var ls := Layers(pts, labels, bound, bound, cap, sample);
      && (forall l <- ls :: |l.points| <= cap)
      && (forall l <- ls, p <- l.points :: p in pts)
      && (forall l <- ls, p <- l.points :: exists i :: 0 <= i < |pts| && pts[i] == p && labels[i] == l.level)
  {
    var ls := Layers(pts, labels, bound, bound, cap, sample);
    LayersFacts(pts, labels, bound, bound, cap, sample);
    forall l <- ls ensures |l.points| <= cap && forall p <- l.points :: p in pts {
      var m :| 0 <= m < |ls| && ls[m] == l;
      assert LayerForLevel(pts, labels, bound, cap, ls[m]);
      forall p <- l.points ensures p in pts {
        assert p in multiset(l.points);
      }
    }
    forall l <- ls, p <- l.points ensures exists i :: 0 <= i < |pts| && pts[i] == p && labels[i] == l.level {
      var m :| 0 <= m < |ls| && ls[m] == l;
      assert LayerForLevel(pts, labels, bound, cap, ls[m]);
      assert p in multiset(l.points);
      assert p in LevelPoints(pts, labels, l.level);
      LevelPointsLabelled(pts, labels, l.level, p);
    }
  }

  /** A level gets a layer exactly when it is visited and non-empty. */
  lemma {:induction false} LayersCoverFilledLevels(pts: seq<Point>, labels: seq<nat>, bound: nat, k: nat, cap: nat,
                                                   sample: (seq<Point>, nat) -> seq<Point>, level: nat)
    requires |labels| == |pts|
    ensures (exists l <- Layers(pts, labels, bound, k, cap, sample) :: l.level == level)
      <==> level < k && LevelFilled(pts, labels, level)
  {
    if k > 0 {
      LayersCoverFilledLevels(pts, labels, bound, k - 1, cap, sample, level);
      var before, extra := Layers(pts, labels, bound, k - 1, cap, sample), LevelLayer(pts, labels, bound, k - 1, cap, sample);
      assert forall l <- before + extra :: l in before || l in extra;
      if level == k - 1 && LevelFilled(pts, labels, level) {
        assert extra[0] in before + extra;
      }
      if exists l <- before :: l.level == level {
        var l :| l in before && l.level == level;
        assert l in before + extra;
      }
    }
  }

  /** Each layer file declares the layer size and, palette colours being
      bytes, reads back as the layer's positions in the layer's colour. */
  lemma LayerFileContents(l: Layer)
    requires ByteRange(l.colour)
    ensures LayerFile(l)[2] == ElementVertex(|l.points|)
    ensures ReadPly(LayerFile(l)) == Some((Positions(l.points), SameColour(|l.points|, l.colour)))
  {
    PlyFileLayout(Positions(l.points), SameColour(|l.points|, l.colour));
    PlyRoundTrip(Positions(l.points), SameColour(|l.points|, l.colour));
  }

  // ----------------------------------------------------- counting points

  /** How many points carry a label below k. */
  function CountBelow(labels: seq<nat>, k: nat): (c: nat)
    ensures c <= |labels|
  {
    if |labels| == 0 then 0 else (if labels[0] < k then 1 else 0) + CountBelow(labels[1..], k)
  }

  /** The sizes of levels 0 .. k - 1 taken together. */
  function LevelSizes(pts: seq<Point>, labels: seq<nat>, k: nat): nat
    requires |labels| == |pts|
  {
    if k == 0 then 0 else LevelSizes(pts, labels, k - 1) + |LevelPoints(pts, labels, k - 1)|
  }

  lemma {:induction false} LevelSizesFront(pts: seq<Point>, labels: seq<nat>, k: nat)
    requires |labels| == |pts| && |pts| > 0
    ensures LevelSizes(pts, labels, k) == (if labels[0] < k then 1 else 0) + LevelSizes(pts[1..], labels[1..], k)
  {
    if k > 0 {
      LevelSizesFront(pts, labels, k - 1);
    }
  }

  /** The levels below k partition the points labelled below k. */
  lemma {:induction false} LevelSizesCount(pts: seq<Point>, labels: seq<nat>, k: nat)
    requires |labels| == |pts|
    ensures LevelSizes(pts, labels, k) == CountBelow(labels, k)
  {
    if |pts| == 0 {
      LevelSizesEmpty(pts, labels, k);
    } else {
      LevelSizesFront(pts, labels, k);
      LevelSizesCount(pts[1..], labels[1..], k);
    }
  }

  lemma {:induction false} LevelSizesEmpty(pts: seq<Point>, labels: seq<nat>, k: nat)
    requires |labels| == |pts| == 0
    ensures LevelSizes(pts, labels, k) == 0
  {
    if k > 0 {
      LevelSizesEmpty(pts, labels, k - 1);
    }
  }

  lemma {:induction false} CountBelowAll(labels: seq<nat>, k: nat)
    requires forall i :: 0 <= i < |labels| ==> labels[i] < k
    ensures CountBelow(labels, k) == |labels|
  {
    if |labels| > 0 {
      assert forall i :: 1 <= i < |labels| ==> labels[1..][i - 1] == labels[i];
      CountBelowAll(labels[1..], k);
    }
  }

  /** One level contributes at most its size, and exactly its size when it
      fits under the cap. */
  lemma LevelLayerTotal(pts: seq<Point>, labels: seq<nat>, bound: nat, level: nat, cap: nat,
                        sample: (seq<Point>, nat) -> seq<Point>)
    requires |labels| == |pts| && KeepsCount(sample)
    ensures var n, t := |LevelPoints(pts, labels, level)|, TotalPoints(LevelLayer(pts, labels, bound, level, cap, sample));
      t <= n && (n <= cap ==> t == n)
  {
    var extra := LevelLayer(pts, labels, bound, level, cap, sample);
    if |extra| == 1 {
      assert extra[..0] == [];
    }
  }

  lemma TotalPointsConcat(ls: seq<Layer>, extra: seq<Layer>)
    requires |extra| <= 1
    ensures TotalPoints(ls + extra) == TotalPoints(ls) + TotalPoints(extra)
  {
    if |extra| == 1 {
      TotalPointsAppend(ls, extra[0]);
      assert extra == [extra[0]];
      assert extra[..0] == [];
    } else {
      assert ls + extra == ls;
    }
  }

  /** No level below k holds more than cap points. */
  predicate FitsCap(pts: seq<Point>, labels: seq<nat>, k: nat, cap: nat)
    requires |labels| == |pts|
  {
    forall l :: 0 <= l < k ==> |LevelPoints(pts, labels, l)| <= cap
  }

  /** The loop writes at most as many points as its levels hold, and all of
      them when no level exceeds the cap. */
  lemma {:induction false} TotalPointsBound(pts: seq<Point>, labels: seq<nat>, bound: nat, k: nat, cap: nat,
                                            sample: (seq<Point>, nat) -> seq<Point>)
    requires |labels| == |pts| && KeepsCount(sample)
    ensures TotalPoints(Layers(pts, labels, bound, k, cap, sample)) <= LevelSizes(pts, labels, k)
    ensures FitsCap(pts, labels, k, cap) ==> TotalPoints(Layers(pts, labels, bound, k, cap, sample)) == LevelSizes(pts, labels, k)
  {
    if k > 0 {
      var before, extra := Layers(pts, labels, bound, k - 1, cap, sample), LevelLayer(pts, labels, bound, k - 1, cap, sample);
      var t, t', n, n' := TotalPoints(before), TotalPoints(extra), LevelSizes(pts, labels, k - 1), |LevelPoints(pts, labels, k - 1)|;
      TotalPointsBound(pts, labels, bound, k - 1, cap, sample);
      TotalPointsConcat(before, extra);
      LevelLayerTotal(pts, labels, bound, k - 1, cap, sample);
      assert TotalPoints(Layers(pts, labels, bound, k, cap, sample)) == t + t';
      assert LevelSizes(pts, labels, k) == n + n';
      if FitsCap(pts, labels, k, cap) {
        assert n' <= cap;
        assert FitsCap(pts, labels, k - 1, cap);
      }
    }
  }

  // ------------------------------------------------- the loop bound

  /** The bound the source uses: `df_filtered['iso_range'].nunique()`, the
      number of distinct labels.  It is at least 1 for a non-empty table,
      never exceeds the visiting bound, and equals it exactly when the codes
      are contiguous: every code below the largest occurs. */
  function DistinctLabels(labels: seq<nat>): (d: nat)
    ensures |labels| > 0 ==> d >= 1
    ensures d <= LabelBound(labels)
    ensures d == LabelBound(labels) <==> forall c :: 0 <= c < LabelBound(labels) ==> c in labels
  {
    LabelSetSize(labels);
    |LabelSet(labels)|
  }

  /** The labels that occur. */
  function LabelSet(labels: seq<nat>): set<nat>
  {
    set i | 0 <= i < |labels| :: labels[i]
  }

  /** The codes 0 .. n - 1. */
  function Codes(n: nat): (r: set<nat>)
    ensures forall c: nat :: c in r <==> c < n
  {
    if n == 0 then {} else Codes(n - 1) + {n - 1}
  }

  lemma {:induction false} CodesSize(n: nat)
    ensures |Codes(n)| == n
  {
    if n > 0 {
      CodesSize(n - 1);
    }
  }

  /** The bound that visits every label: one more than the largest label. */
  function LabelBound(labels: seq<nat>): (b: nat)
    ensures forall i :: 0 <= i < |labels| ==> labels[i] < b
  {
    if |labels| == 0 then 0
    else
      var rest := LabelBound(labels[1..]);
      assert forall i :: 1 <= i < |labels| ==> labels[1..][i - 1] == labels[i];
      if labels[0] + 1 > rest then labels[0] + 1 else rest
  }

  /** The labels occurring are among the codes below the visiting bound,
      and are all of them exactly when the codes are contiguous. */
  lemma LabelSetSize(labels: seq<nat>)
    ensures |labels| > 0 ==> |LabelSet(labels)| >= 1
    ensures |LabelSet(labels)| <= LabelBound(labels)
    ensures |LabelSet(labels)| == LabelBound(labels) <==> forall c :: 0 <= c < LabelBound(labels) ==> c in labels
  {
    var s, b := LabelSet(labels), LabelBound(labels);
    var rest := Codes(b) - s;
    assert s <= Codes(b);
    assert Codes(b) == s + rest && s * rest == {};
    CodesSize(b);
    if |labels| > 0 {
      assert labels[0] in s;
    }
    if forall c :: 0 <= c < b ==> c in labels {
      forall c | c in Codes(b) ensures c in s {
        assert 0 <= c < b;
        assert c in labels;
        var i :| 0 <= i < |labels| && labels[i] == c;
      }
      assert rest == {};
    } else {
      var c :| 0 <= c < b && c !in labels;
      assert c in rest;
    }
  }

  /** With the visiting bound and a cap no level exceeds, every filtered
      point is written: `total_output_points` is the filtered count. */
  lemma LabelBoundWritesAll(pts: seq<Point>, labels: seq<nat>, cap: nat, sample: (seq<Point>, nat) -> seq<Point>)
    requires |labels| == |pts| && IsSampler(sample) && cap >= |pts|
    ensures var b := LabelBound(labels);
      TotalPoints(Layers(pts, labels, b, b, cap, sample)) == |pts|
  {
    var b := LabelBound(labels);
    TotalPointsBound(pts, labels, b, b, cap, sample);
    LevelSizesCount(pts, labels, b);
    CountBelowAll(labels, b);
  }

  /** With the visiting bound, every filtered point's level gets a layer. */
  lemma LabelBoundCoversEveryPoint(pts: seq<Point>, labels: seq<nat>, cap: nat,
                                   sample: (seq<Point>, nat) -> seq<Point>, i: nat)
    requires |labels| == |pts| && i < |pts|
    ensures var b := LabelBound(labels);
      exists l <- Layers(pts, labels, b, b, cap, sample) :: l.level == labels[i]
  {
    var b := LabelBound(labels);
    LevelPointsHolds(pts, labels, labels[i], i);
    LayersCoverFilledLevels(pts, labels, b, b, cap, sample, labels[i]);
  }

  /** As written, the loop stops at the number of distinct labels.  Binning
      codes need not be contiguous: for absolute amplitudes [1, 11] and four
      quantile bins the edges are 1, 3.5, 6, 8.5, 11, so the codes are
      [0, 3], there are two distinct codes, and the point labelled 3 is
      never written although no cap applies.  Up to the visiting bound 4
      both points are written. */
  lemma DistinctBoundDropsPoints(p: Point, q: Point, sample: (seq<Point>, nat) -> seq<Point>)
    requires IsSampler(sample)
    ensures var pts, labels := [p, q], [0, 3];
      && DistinctLabels(labels) == 2
      && TotalPoints(Layers(pts, labels, 2, 2, 1000, sample)) == 1 < |pts|
      && LabelBound(labels) == 4
      && TotalPoints(Layers(pts, labels, 4, 4, 1000, sample)) == 2
  {
    var pts: seq<Point>, labels: seq<nat> := [p, q], [0, 3];
    var codes := set i | 0 <= i < |labels| :: labels[i];
    assert 0 in codes by { assert labels[0] == 0; }
    assert 3 in codes by { assert labels[1] == 3; }
    assert codes == {0, 3};
    assert LevelPoints(pts, labels, 0) == [p];
    assert LevelPoints(pts, labels, 1) == [];
    var one := Layer(0, [p], IsoColour(0, 2));
    assert Layers(pts, labels, 2, 1, 1000, sample) == [one];
    assert Layers(pts, labels, 2, 2, 1000, sample) == [one];
    assert TotalPoints([one]) == 1 by {
      assert [one][..0] == [];
    }
    LabelBoundWritesAll(pts, labels, 1000, sample);
  }
}
