/** `generate_surface_mesh` and `generate_depth_slices` around the mesh
    assembly: the lattice over the points' bounding box, the fallback grids
    when interpolation fails, the colour ramp picked from the grid's range,
    and the selection of slice depths.  Interpolation (`griddata`) and
    smoothing (`gaussian_filter`) are foreign: an interpolation outcome is an
    input (None when it raised) and smoothing is a function parameter. */
module Surfaces {
  import opened Wrappers
  import opened Stats
  import opened Grids
  import opened Geometry
  import opened MeshAssembly

  /** Bounding-box metadata returned with the surface mesh. */
  datatype SurfaceInfo = SurfaceInfo(xRange: (real, real), yRange: (real, real), zRange: (real, real), resolution: nat)

  datatype Surface = Surface(mesh: Mesh, info: SurfaceInfo)

  /** Smoothing maps R x R grids to R x R grids. */
  ghost predicate KeepsShape(smooth: Grid -> Grid, r: nat)
  {
    forall g :: IsSquare(g, r) ==> IsSquare(smooth(g), r)
  }

  /** The elevation and amplitude grids before smoothing: griddata's two
      grids, or, when either call raised, both grids filled with the mean
      elevation and the mean amplitude. */
  function SurfaceFallback(pts: seq<Point>, r: nat, interp: Option<(Grid, Grid)>): (g: (Grid, Grid))
    requires |pts| > 0
    requires interp.Some? ==> IsSquare(interp.value.0, r) && IsSquare(interp.value.1, r)
    ensures IsSquare(g.0, r) && IsSquare(g.1, r)
    ensures interp.None? ==> forall i, j :: 0 <= i < r && 0 <= j < r ==>
      g.0[i][j] == Mean(Zs(pts)) && g.1[i][j] == Mean(Amps(pts))
  {
    match interp
    case Some(grids) => grids
    case None => (Fill(r, Mean(Zs(pts))), Fill(r, Mean(Amps(pts))))
  }

  /** The mesh `generate_surface_mesh` assembles from its (smoothed) grids. */
  function SurfaceOf(pts: seq<Point>, r: nat, zGrid: Grid, ampGrid: Grid): (m: Mesh)
    requires |pts| > 0 && r >= 1 && IsSquare(zGrid, r) && IsSquare(ampGrid, r)
  {
    var xi := Linspace(Min(Xs(pts)), Max(Xs(pts)), r);
    var yi := Linspace(Min(Ys(pts)), Max(Ys(pts)), r);
    GridMesh(xi, yi, zGrid, ampGrid, SurfaceRamp(GridMin(ampGrid), GridMax(ampGrid)))
  }

  /** A resolution below 1 makes the source raise (numpy refuses a negative
      sample count, and `min()` of an empty grid raises); the caller catches
      it, so it is modelled as no surface.  Otherwise the mesh has R * R
      vertices, 2 (R - 1)^2 faces, every face index in range, every colour in
      the unit cube, and node (i, j) is lattice point (xi[j], yi[i]) at the
      smoothed elevation. */
  method GenerateSurfaceMesh(pts: seq<Point>, resolution: int, interp: Option<(Grid, Grid)>, smooth: Grid -> Grid)
    returns (s: Option<Surface>)
    requires |pts| > 0
    requires resolution >= 1 ==> KeepsShape(smooth, resolution as nat)
    requires resolution >= 1 && interp.Some? ==>
      IsSquare(interp.value.0, resolution as nat) && IsSquare(interp.value.1, resolution as nat)
    ensures s.None? <==> resolution < 1
    ensures s.Some? ==>
      var r := resolution as nat;
      var g := SurfaceFallback(pts, r, interp);
      var zGrid, ampGrid := smooth(g.0), smooth(g.1);
      && IsSquare(zGrid, r) && IsSquare(ampGrid, r)
      && s.value.mesh == SurfaceOf(pts, r, zGrid, ampGrid)
      && s.value.info == SurfaceInfo((Min(Xs(pts)), Max(Xs(pts))), (Min(Ys(pts)), Max(Ys(pts))),
                                     (GridMin(zGrid), GridMax(zGrid)), r)
    ensures s.Some? ==>
      var m, r := s.value.mesh, resolution as nat;
      && WellFormed(m) && |m.vertices| == r * r && |m.faces| == 2 * (r - 1) * (r - 1)
      && forall k :: 0 <= k < |m.colours| ==> UnitColour(m.colours[k])
  {
    if resolution < 1 {
      return None;
    }
    var r := resolution as nat;
    var xi := Linspace(Min(Xs(pts)), Max(Xs(pts)), r);
    var yi := Linspace(Min(Ys(pts)), Max(Ys(pts)), r);
    var g := SurfaceFallback(pts, r, interp);
    var zGrid, ampGrid := smooth(g.0), smooth(g.1);
    var ramp := SurfaceRamp(GridMin(ampGrid), GridMax(ampGrid));
    var m := AssembleMesh(xi, yi, zGrid, ampGrid, ramp);
    GridMeshColoursInUnit(xi, yi, zGrid, ampGrid, ramp);
    s := Some(Surface(m, SurfaceInfo((Min(Xs(pts)), Max(Xs(pts))), (Min(Ys(pts)), Max(Ys(pts))),
                                     (GridMin(zGrid), GridMax(zGrid)), r)));
  }

  // ---------------------------------------------------------------- slices

  /** Slices are always meshed on a 50 x 50 lattice. */
  const SliceResolution: nat := 50

  /** A depth window with fewer points than this yields no slice. */
  const MinSlicePoints: nat := 10

  /** `np.linspace(z_max, z_min, n + 2)[1:-1]`: the n interior values of an
      evenly spaced run from the top down to the bottom. */
  function SliceDepths(zMin: real, zMax: real, n: nat): (d: seq<real>)
    ensures |d| == n
  {
    Linspace(zMax, zMin, n + 2)[1..n + 1]
  }

  /** `depth_tolerance = (z_max - z_min) / (num_slices * 2)`.  It is
      positive exactly when the survey spans some depth, and at most half
      that span; it is wider than half the (z_max - z_min) / (n + 1)
      spacing of the candidates, so neighbouring windows overlap. */
  function Tolerance(zMin: real, zMax: real, n: nat): (t: real)
    requires n >= 1
    ensures t > 0.0 <==> zMin < zMax
    ensures zMin <= zMax ==> t <= (zMax - zMin) / 2.0
    ensures zMin < zMax ==> 2.0 * t > (zMax - zMin) / ((n + 1) as real)
  {
    (zMax - zMin) / ((n * 2) as real)
  }

  /** `(np.abs(z - depth) < tol).sum()` */
  function WindowCount(zs: seq<real>, depth: real, tol: real): (c: nat)
    ensures c <= |zs|
    ensures tol <= 0.0 ==> c == 0
  {
    if |zs| == 0 then 0
    else (if Abs(zs[0] - depth) < tol then 1 else 0) + WindowCount(zs[1..], depth, tol)
  }

  /** The candidate depths lie strictly between the lowest and the highest
      point and decrease from the top. */
  lemma SliceDepthsInterior(zMin: real, zMax: real, n: nat)
    requires zMin < zMax
    ensures forall k :: 0 <= k < n ==> zMin < SliceDepths(zMin, zMax, n)[k] < zMax
    ensures forall k, k' :: 0 <= k < k' < n ==> SliceDepths(zMin, zMax, n)[k] > SliceDepths(zMin, zMax, n)[k']
  {
    var l, d := Linspace(zMax, zMin, n + 2), SliceDepths(zMin, zMax, n);
    forall k | 0 <= k < n ensures zMin < d[k] < zMax {
      assert d[k] == l[k + 1];
      LinspaceDecreasing(zMax, zMin, n + 2, 0, k + 1);
      LinspaceDecreasing(zMax, zMin, n + 2, k + 1, n + 1);
    }
    forall k, k' | 0 <= k < k' < n ensures d[k] > d[k'] {
      assert d[k] == l[k + 1] && d[k'] == l[k' + 1];
      LinspaceDecreasing(zMax, zMin, n + 2, k + 1, k' + 1);
    }
  }

  /** The number of points in the window of candidate c. */
  function CandidateCount(pts: seq<Point>, n: nat, c: nat): nat
    requires |pts| > 0 && n >= 1 && c < n
  {
    var zs := Zs(pts);
    WindowCount(zs, SliceDepths(Min(zs), Max(zs), n)[c], Tolerance(Min(zs), Max(zs), n))
  }

  /** The window counts of the n candidates. */
  function Counts(pts: seq<Point>, n: nat): (counts: seq<nat>)
    requires |pts| > 0 && n >= 1
    ensures |counts| == n
    ensures forall c :: 0 <= c < n ==> counts[c] == CandidateCount(pts, n, c)
  {
    seq(n, c requires 0 <= c < n => CandidateCount(pts, n, c))
  }

  /** The candidates among the first k whose window count is at least 10,
      in order. */
  function Kept(counts: seq<nat>, k: nat): (r: seq<nat>)
    requires k <= |counts|
    ensures |r| <= k
    ensures forall m :: 0 <= m < |r| ==> r[m] < k && counts[r[m]] >= MinSlicePoints
    ensures forall m, m' :: 0 <= m < m' < |r| ==> r[m] < r[m']
    ensures forall c :: 0 <= c < k && counts[c] >= MinSlicePoints ==> c in r
  {
    if k == 0 then []
    else
      var before := Kept(counts, k - 1);
      if counts[k - 1] >= MinSlicePoints then before + [k - 1] else before
  }

  datatype Slice = Slice(depth: real, mesh: Mesh)

  /** Per-candidate interpolation outcomes are 50 x 50 grids when present. */
  predicate SliceGridsShaped(grids: seq<Option<Grid>>)
  {
    forall k :: 0 <= k < |grids| && grids[k].Some? ==> IsSquare(grids[k].value, SliceResolution)
  }

  /** The amplitude grid of a slice: the smoothed interpolation, or zeros
      when interpolation or smoothing raised. */
  function SliceGrid(grid: Option<Grid>): (g: Grid)
    requires grid.Some? ==> IsSquare(grid.value, SliceResolution)
    ensures IsSquare(g, SliceResolution)
    ensures grid.Some? ==> g == grid.value
    ensures grid.None? ==> forall i, j :: 0 <= i < SliceResolution && 0 <= j < SliceResolution ==> g[i][j] == 0.0
  {
    match grid
    case Some(a) => a
    case None => Fill(SliceResolution, 0.0)
  }

  /** The slice mesh at one depth: every vertex at that depth, coloured by
      the amplitude divided by the grid's peak. */
  function SliceAt(pts: seq<Point>, depth: real, grid: Option<Grid>): Slice
    requires |pts| > 0
    requires grid.Some? ==> IsSquare(grid.value, SliceResolution)
  {
    var xi := Linspace(Min(Xs(pts)), Max(Xs(pts)), SliceResolution);
    var yi := Linspace(Min(Ys(pts)), Max(Ys(pts)), SliceResolution);
    var amp := SliceGrid(grid);
    Slice(depth, GridMesh(xi, yi, Fill(SliceResolution, depth), amp, SliceRamp(GridMax(amp))))
  }

  /** The slice each candidate depth would give, meshed. */
  function CandidateSlices(pts: seq<Point>, n: nat, grids: seq<Option<Grid>>): (cs: seq<Slice>)
    requires |pts| > 0 && n >= 1 && |grids| == n && SliceGridsShaped(grids)
    ensures |cs| == n
  {
    var zs := Zs(pts);
    var depths := SliceDepths(Min(zs), Max(zs), n);
    seq(n, c requires 0 <= c < n => SliceAt(pts, depths[c], grids[c]))
  }

  /** The entries of `all` at the positions `kept`, in order. */
  function Select<T>(all: seq<T>, kept: seq<nat>): (r: seq<T>)
    requires forall m :: 0 <= m < |kept| ==> kept[m] < |all|
    ensures |r| == |kept|
  {
    seq(|kept|, m requires 0 <= m < |kept| => all[kept[m]])
  }

  lemma SelectAppend<T>(all: seq<T>, kept: seq<nat>, c: nat)
    requires forall m :: 0 <= m < |kept| ==> kept[m] < |all|
    requires c < |all|
    ensures Select(all, kept + [c]) == Select(all, kept) + [all[c]]
  {
    var a, b := Select(all, kept + [c]), Select(all, kept) + [all[c]];
    forall m | 0 <= m < |a| ensures a[m] == b[m] {
      if m < |kept| {
        assert (kept + [c])[m] == kept[m];
      }
    }
  }

  /** Everything `generate_depth_slices` returns for n requested slices:
      the kept candidates, in order, each meshed. */
  function DepthSlices(pts: seq<Point>, n: nat, grids: seq<Option<Grid>>): seq<Slice>
    requires |pts| > 0 && n >= 1 && |grids| == n && SliceGridsShaped(grids)
  {
    Select(CandidateSlices(pts, n, grids), Kept(Counts(pts, n), n))
  }

  /** A window with any point in it has positive tolerance, so a kept slice
      implies the points span a positive depth range. */
  lemma KeptSpansDepth(pts: seq<Point>, n: nat, c: nat)
    requires |pts| > 0 && n >= 1 && c < n
    requires CandidateCount(pts, n, c) >= MinSlicePoints
    ensures Min(Zs(pts)) < Max(Zs(pts))
  {
  }

  /** At most n slices; each kept slice is a candidate depth strictly inside
      the depth range whose window held at least 10 points; every vertex of
      it sits at the slice depth; and its mesh is the well-formed 50 x 50
      lattice mesh. */
  lemma DepthSlicesFacts(pts: seq<Point>, n: nat, grids: seq<Option<Grid>>, m: nat)
    requires |pts| > 0 && n >= 1 && |grids| == n && SliceGridsShaped(grids)
    requires m < |DepthSlices(pts, n, grids)|
    ensures |DepthSlices(pts, n, grids)| <= n
    ensures var s, zs := DepthSlices(pts, n, grids)[m], Zs(pts);
      && Min(zs) < s.depth < Max(zs)
      && (exists c :: 0 <= c < n && s.depth == SliceDepths(Min(zs), Max(zs), n)[c]
                    && CandidateCount(pts, n, c) >= MinSlicePoints)
      && (forall k :: 0 <= k < |s.mesh.vertices| ==> s.mesh.vertices[k].z == s.depth)
      && WellFormed(s.mesh)
      && |s.mesh.vertices| == 2500 && |s.mesh.faces| == 2 * 49 * 49
  {
    var kept := Kept(Counts(pts, n), n);
    var c := kept[m];
    var zs := Zs(pts);
    var depths := SliceDepths(Min(zs), Max(zs), n);
    var s := DepthSlices(pts, n, grids)[m];
    assert s == SliceAt(pts, depths[c], grids[c]);
    KeptSpansDepth(pts, n, c);
    SliceDepthsInterior(Min(zs), Max(zs), n);
    SliceAtFacts(pts, depths[c], grids[c]);
  }

  /** The mesh of one slice: every vertex at the slice depth, and the
      well-formed 50 x 50 lattice mesh. */
  lemma SliceAtFacts(pts: seq<Point>, depth: real, grid: Option<Grid>)
    requires |pts| > 0
    requires grid.Some? ==> IsSquare(grid.value, SliceResolution)
    ensures var s := SliceAt(pts, depth, grid);
      && s.depth == depth
      && (forall k :: 0 <= k < |s.mesh.vertices| ==> s.mesh.vertices[k].z == depth)
      && WellFormed(s.mesh)
      && |s.mesh.vertices| == 2500 && |s.mesh.faces| == 2 * 49 * 49
  {
    var xi := Linspace(Min(Xs(pts)), Max(Xs(pts)), SliceResolution);
    var yi := Linspace(Min(Ys(pts)), Max(Ys(pts)), SliceResolution);
    var amp := SliceGrid(grid);
    var flat := Fill(SliceResolution, depth);
    GridMeshShape(xi, yi, flat, amp, SliceRamp(GridMax(amp)));
    var vs := SliceAt(pts, depth, grid).mesh.vertices;
    forall k | 0 <= k < |vs| ensures vs[k].z == depth {
      var i, j := FlattenElement(VertexGrid(xi, yi, flat), SliceResolution, k);
    }
  }

  /** Kept slices come out in candidate order, so their depths strictly
      decrease. */
  lemma DepthSlicesDecreasing(pts: seq<Point>, n: nat, grids: seq<Option<Grid>>, m: nat, m': nat)
    requires |pts| > 0 && n >= 1 && |grids| == n && SliceGridsShaped(grids)
    requires m < m' < |DepthSlices(pts, n, grids)|
    ensures DepthSlices(pts, n, grids)[m].depth > DepthSlices(pts, n, grids)[m'].depth
  {
    var kept := Kept(Counts(pts, n), n);
    var zs := Zs(pts);
    KeptSpansDepth(pts, n, kept[m]);
    SliceDepthsInterior(Min(zs), Max(zs), n);
  }

  /** A candidate depth whose window holds at least 10 points yields a slice
      at that depth; one with fewer yields none (when the depth range is
      positive the candidates are distinct, so no other slice shares it). */
  lemma DepthSlicesSelection(pts: seq<Point>, n: nat, grids: seq<Option<Grid>>, c: nat)
    requires |pts| > 0 && n >= 1 && |grids| == n && SliceGridsShaped(grids) && c < n
    ensures var zs := Zs(pts);
      var d := SliceDepths(Min(zs), Max(zs), n)[c];
      (exists m :: 0 <= m < |DepthSlices(pts, n, grids)| && DepthSlices(pts, n, grids)[m].depth == d)
        <==> CandidateCount(pts, n, c) >= MinSlicePoints
  {
    var kept := Kept(Counts(pts, n), n);
    var zs := Zs(pts);
    var depths := SliceDepths(Min(zs), Max(zs), n);
    var slices := DepthSlices(pts, n, grids);
    if CandidateCount(pts, n, c) >= MinSlicePoints {
      var m :| 0 <= m < |kept| && kept[m] == c;
      assert slices[m].depth == depths[c];
    } else {
      forall m | 0 <= m < |slices| ensures slices[m].depth != depths[c] {
        KeptSpansDepth(pts, n, kept[m]);
        SliceDepthsInterior(Min(zs), Max(zs), n);
        assert kept[m] != c;
      }
    }
  }

  predicate NonNegative(g: Grid)
  {
    forall i, j :: 0 <= i < |g| && 0 <= j < |g[i]| ==> g[i][j] >= 0.0
  }

  /** With a non-negative amplitude grid (`np.abs` values interpolated and
      smoothed, or the zero fallback) every slice colour lies in the unit
      cube. */
  lemma DepthSliceColoursInUnit(pts: seq<Point>, n: nat, grids: seq<Option<Grid>>, m: nat)
    requires |pts| > 0 && n >= 1 && |grids| == n && SliceGridsShaped(grids)
    requires forall k :: 0 <= k < n && grids[k].Some? ==> NonNegative(grids[k].value)
    requires m < |DepthSlices(pts, n, grids)|
    ensures forall k :: 0 <= k < |DepthSlices(pts, n, grids)[m].mesh.colours| ==>
      UnitColour(DepthSlices(pts, n, grids)[m].mesh.colours[k])
  {
    var kept := Kept(Counts(pts, n), n);
    var c := kept[m];
    var xi := Linspace(Min(Xs(pts)), Max(Xs(pts)), SliceResolution);
    var yi := Linspace(Min(Ys(pts)), Max(Ys(pts)), SliceResolution);
    var zs := Zs(pts);
    var depths := SliceDepths(Min(zs), Max(zs), n);
    var amp := SliceGrid(grids[c]);
    var flat := Fill(SliceResolution, depths[c]);
    GridMeshColoursInUnit(xi, yi, flat, amp, SliceRamp(GridMax(amp)));
  }

  /** One kept slice: the lattice mesh at `depth` over the amplitude grid. */
  method MeshSlice(pts: seq<Point>, depth: real, grid: Option<Grid>) returns (s: Slice)
    requires |pts| > 0
    requires grid.Some? ==> IsSquare(grid.value, SliceResolution)
    ensures s == SliceAt(pts, depth, grid)
    ensures s.depth == depth && WellFormed(s.mesh)
  {
    var xi := Linspace(Min(Xs(pts)), Max(Xs(pts)), SliceResolution);
    var yi := Linspace(Min(Ys(pts)), Max(Ys(pts)), SliceResolution);
    var amp := SliceGrid(grid);
    var m := AssembleMesh(xi, yi, Fill(SliceResolution, depth), amp, SliceRamp(GridMax(amp)));
    s := Slice(depth, m);
  }

  /** The slice loop: candidates in order, skipping sparse windows, meshing
      the rest. */
  method GenerateDepthSlices(pts: seq<Point>, n: nat, grids: seq<Option<Grid>>) returns (slices: seq<Slice>)
    requires |pts| > 0 && n >= 1 && |grids| == n && SliceGridsShaped(grids)
    ensures slices == DepthSlices(pts, n, grids)
  {
    var zs := Zs(pts);
    var zMin, zMax := Min(zs), Max(zs);
    var depths := SliceDepths(zMin, zMax, n);
    var tol := Tolerance(zMin, zMax, n);
    slices := [];
    for k := 0 to n
      invariant slices == Select(CandidateSlices(pts, n, grids), Kept(Counts(pts, n), k))
    {
      var kept := Kept(Counts(pts, n), k);
      if WindowCount(zs, depths[k], tol) < MinSlicePoints {
        assert Kept(Counts(pts, n), k + 1) == kept;
        continue;
      }
      var s := MeshSlice(pts, depths[k], grids[k]);
      assert Kept(Counts(pts, n), k + 1) == kept + [k];
      assert s == CandidateSlices(pts, n, grids)[k];
      SelectAppend(CandidateSlices(pts, n, grids), kept, k);
      slices := slices + [s];
    }
  }
}
