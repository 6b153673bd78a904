/** Grid-mesh assembly (`generate_surface_mesh` and the meshing half of
    `generate_depth_slices`): one vertex and one colour per lattice node in
    row-major order, two triangles per lattice cell, colours from a linear
    ramp over the normalised amplitude grid. */
module MeshAssembly {
  import opened Wrappers
  import opened Stats
  import opened Grids
  import opened Geometry

  /** The two colour ramps of the source.  The whole-surface ramp normalises
      by (v - lo) / (hi - lo) with lo, hi the grid's min and max; the slice
      ramp divides by the grid's peak. */
  datatype Ramp = SurfaceRamp(lo: real, hi: real) | SliceRamp(peak: real)

  /** The values a ramp is meant for: those between the grid's extremes. */
  predicate InRange(ramp: Ramp, v: real)
  {
    match ramp
    case SurfaceRamp(lo, hi) => lo <= v <= hi
    case SliceRamp(peak) => 0.0 <= v <= peak
  }

  lemma RatioInUnit(num: real, den: real)
    requires 0.0 <= num <= den && den > 0.0
    ensures 0.0 <= num / den <= 1.0
  {
  }

  /** The normalised amplitude: all zeros when the grid is flat (surface) or
      has no positive value (slice). */
  function Normalised(ramp: Ramp, v: real): (n: real)
    ensures InRange(ramp, v) ==> 0.0 <= n <= 1.0
    ensures ramp.SurfaceRamp? && ramp.hi <= ramp.lo ==> n == 0.0
    ensures ramp.SliceRamp? && ramp.peak <= 0.0 ==> n == 0.0
    ensures ramp.SurfaceRamp? && ramp.lo < ramp.hi ==> n * (ramp.hi - ramp.lo) == v - ramp.lo
    ensures ramp.SliceRamp? && ramp.peak > 0.0 ==> n * ramp.peak == v
  {
    match ramp
    case SurfaceRamp(lo, hi) =>
      if hi <= lo then 0.0
      else if InRange(ramp, v) then RatioInUnit(v - lo, hi - lo); (v - lo) / (hi - lo)
      else (v - lo) / (hi - lo)
    case SliceRamp(peak) =>
      if peak <= 0.0 then 0.0
      else if InRange(ramp, v) then RatioInUnit(v, peak); v / peak
      else v / peak
  }

  lemma RatioMonotone(a: real, b: real, den: real)
    requires a <= b && den > 0.0
    ensures a / den <= b / den
  {
  }

  /** A larger amplitude never gets a smaller normalised value. */
  lemma NormalisedMonotone(ramp: Ramp, v: real, w: real)
    requires v <= w
    ensures Normalised(ramp, v) <= Normalised(ramp, w)
  {
    match ramp
    case SurfaceRamp(lo, hi) =>
      if lo < hi {
        RatioMonotone(v - lo, w - lo, hi - lo);
      }
    case SliceRamp(peak) =>
      if peak > 0.0 {
        RatioMonotone(v, w, peak);
      }
  }

  /** Red rises with the normalised amplitude and blue falls with it; green
      is 0.2 on the surface and 0.3 * (1 - n) on a slice. */
  function Colour(ramp: Ramp, v: real): (c: Rgb)
    ensures c.r == Normalised(ramp, v) && c.b == 1.0 - c.r
    ensures ramp.SurfaceRamp? ==> c.g == 0.2
    ensures ramp.SliceRamp? ==> c.g == 0.3 * c.b
    ensures InRange(ramp, v) ==> UnitColour(c)
  {
    var n := Normalised(ramp, v);
    match ramp
    case SurfaceRamp(_, _) => Rgb(n, 0.2, 1.0 - n)
    case SliceRamp(_) => Rgb(n, 0.3 * (1.0 - n), 1.0 - n)
  }

  /** Node (i, j) of the lattice sits at (xi[j], yi[i], zi[i][j]), as
      `np.meshgrid(xi, yi)` lays out x along columns and y along rows. */
  function VertexGrid(xi: seq<real>, yi: seq<real>, zi: Grid): (g: seq<seq<Vec3>>)
    requires |yi| == |xi| && IsSquare(zi, |xi|)
    ensures |g| == |xi| && IsRect(g, |xi|)
  {
    seq(|yi|, i requires 0 <= i < |yi| =>
      seq(|xi|, j requires 0 <= j < |xi| => Vec3(xi[j], yi[i], zi[i][j])))
  }

  function ColourGrid(amp: Grid, ramp: Ramp): (g: seq<seq<Rgb>>)
    ensures |g| == |amp| && forall i :: 0 <= i < |amp| ==> |g[i]| == |amp[i]|
  {
    seq(|amp|, i requires 0 <= i < |amp| =>
      seq(|amp[i]|, j requires 0 <= j < |amp[i]| => Colour(ramp, amp[i][j])))
  }

  /** Triangle t (0 <= t < 2 (R - 1)) of cell row i: cell j = t / 2 gives the
      triangles (idx, idx + 1, idx + R) and (idx + 1, idx + R + 1, idx + R)
      with idx = i * R + j. */
  function CellFace(r: nat, i: nat, t: nat): Face
  {
    var idx := i * r + t / 2;
    if t % 2 == 0 then Face(idx, idx + 1, idx + r) else Face(idx + 1, idx + r + 1, idx + r)
  }

  /** The number of cells along one side: `range(resolution - 1)`. */
  function Cells(r: nat): nat
  {
    if r == 0 then 0 else r - 1
  }

  function FaceGrid(r: nat): (g: seq<seq<Face>>)
    ensures |g| == Cells(r) && IsRect(g, 2 * Cells(r))
  {
    seq(Cells(r), i requires 0 <= i < Cells(r) =>
      seq(2 * Cells(r), t requires 0 <= t < 2 * Cells(r) => CellFace(r, i, t)))
  }

  function MeshFaces(r: nat): seq<Face>
  {
    Flatten(FaceGrid(r))
  }

  /** The mesh of an R x R lattice: vertices and colours row-major, faces
      cell by cell. */
  function GridMesh(xi: seq<real>, yi: seq<real>, zi: Grid, amp: Grid, ramp: Ramp): Mesh
    requires |yi| == |xi| && IsSquare(zi, |xi|) && IsSquare(amp, |xi|)
  {
    Mesh(Flatten(VertexGrid(xi, yi, zi)), Flatten(ColourGrid(amp, ramp)), MeshFaces(|xi|))
  }

  lemma CellFaceWithin(r: nat, i: nat, t: nat)
    requires i < Cells(r) && t < 2 * Cells(r)
    ensures FaceWithin(CellFace(r, i, t), r * r)
  {
    var j := t / 2;
    assert j <= r - 2;
    assert i * r <= (r - 2) * r;
    assert i * r + j + r + 1 <= (r - 2) * r + (r - 2) + r + 1;
  }

  /** The position of node (i, j) in the row-major vertex list. */
  function NodeIndex(r: nat, i: nat, j: nat): nat
  {
    i * r + j
  }

  /** The position of the first face of cell (i, j): two faces per cell,
      cells row-major. */
  function CellStart(r: nat, i: nat, j: nat): nat
  {
    2 * (i * Cells(r) + j)
  }

  /** Face k of the mesh is triangle k % 2 of cell (k / 2) in row-major
      order, expressed without division: faces 2 (i (R-1) + j) and the one
      after it belong to cell (i, j). */
  lemma MeshFaceAt(r: nat, i: nat, j: nat)
    requires i < Cells(r) && j < Cells(r)
    ensures |MeshFaces(r)| == 2 * Cells(r) * Cells(r)
    ensures CellStart(r, i, j) + 1 < |MeshFaces(r)|
    ensures var idx := NodeIndex(r, i, j);
      && MeshFaces(r)[CellStart(r, i, j)] == Face(idx, idx + 1, idx + r)
      && MeshFaces(r)[CellStart(r, i, j) + 1] == Face(idx + 1, idx + r + 1, idx + r)
  {
    var g, w := FaceGrid(r), 2 * Cells(r);
    CellOffset(r, i, j, w);
    CellFaces(r, i, j);
    FlattenAt(g, w, i, 2 * j);
    FlattenAt(g, w, i, 2 * j + 1);
  }

  /** The two triangles of cell (i, j) in its row of the face grid. */
  lemma CellFaces(r: nat, i: nat, j: nat)
    requires i < Cells(r) && j < Cells(r)
    ensures var idx := NodeIndex(r, i, j);
      && FaceGrid(r)[i][2 * j] == Face(idx, idx + 1, idx + r)
      && FaceGrid(r)[i][2 * j + 1] == Face(idx + 1, idx + r + 1, idx + r)
  {
    assert (2 * j) / 2 == j && (2 * j + 1) / 2 == j;
  }

  lemma CellOffset(r: nat, i: nat, j: nat, w: nat)
    requires w == 2 * Cells(r)
    ensures i * w + 2 * j == CellStart(r, i, j) && Cells(r) * w == 2 * Cells(r) * Cells(r)
  {
  }

  /** The shape invariants of an assembled lattice mesh: R * R vertices and
      colours, 2 (R - 1)^2 faces, every face index below R * R, and node
      (i, j) at position i * R + j. */
  lemma {:induction false} GridMeshShape(xi: seq<real>, yi: seq<real>, zi: Grid, amp: Grid, ramp: Ramp)
    requires |yi| == |xi| && IsSquare(zi, |xi|) && IsSquare(amp, |xi|)
    ensures var m, r := GridMesh(xi, yi, zi, amp, ramp), |xi|;
      && |m.vertices| == r * r && |m.colours| == r * r
      && |m.faces| == 2 * Cells(r) * Cells(r)
      && WellFormed(m)
  {
    var m, r := GridMesh(xi, yi, zi, amp, ramp), |xi|;
    FlattenLength(VertexGrid(xi, yi, zi), r);
    FlattenLength(ColourGrid(amp, ramp), r);
    var g, w := FaceGrid(r), 2 * Cells(r);
    FlattenLength(g, w);
    assert |g| * w == 2 * Cells(r) * Cells(r);
    forall k | 0 <= k < |m.faces|
      ensures FaceWithin(m.faces[k], |m.vertices|)
    {
      var i, t := FlattenElement(g, w, k);
      CellFaceWithin(r, i, t);
    }
  }

  /** Node (i, j) of the lattice is vertex i * R + j, with its colour at the
      same position. */
  lemma GridMeshNode(xi: seq<real>, yi: seq<real>, zi: Grid, amp: Grid, ramp: Ramp, i: nat, j: nat)
    requires |yi| == |xi| && IsSquare(zi, |xi|) && IsSquare(amp, |xi|)
    requires i < |xi| && j < |xi|
    ensures var m, r := GridMesh(xi, yi, zi, amp, ramp), |xi|;
      && i * r + j < |m.vertices| && i * r + j < |m.colours|
      && m.vertices[i * r + j] == Vec3(xi[j], yi[i], zi[i][j])
      && m.colours[i * r + j] == Colour(ramp, amp[i][j])
  {
    FlattenAt(VertexGrid(xi, yi, zi), |xi|, i, j);
    FlattenAt(ColourGrid(amp, ramp), |xi|, i, j);
  }

  /** When every amplitude of the grid lies in the ramp's range, every vertex
      colour lies in the unit cube. */
  lemma GridMeshColoursInUnit(xi: seq<real>, yi: seq<real>, zi: Grid, amp: Grid, ramp: Ramp)
    requires |yi| == |xi| && IsSquare(zi, |xi|) && IsSquare(amp, |xi|)
    requires forall i, j :: 0 <= i < |amp| && 0 <= j < |amp[i]| ==> InRange(ramp, amp[i][j])
    ensures forall k :: 0 <= k < |GridMesh(xi, yi, zi, amp, ramp).colours| ==>
      UnitColour(GridMesh(xi, yi, zi, amp, ramp).colours[k])
  {
    var cs := Flatten(ColourGrid(amp, ramp));
    forall k | 0 <= k < |cs| ensures UnitColour(cs[k]) {
      var i, j := FlattenElement(ColourGrid(amp, ramp), |xi|, k);
    }
  }

  /** The vertex and colour loops: `for i in range(R): for j in range(R):`
      appending one vertex and one colour per node. */
  method AssembleNodes(xi: seq<real>, yi: seq<real>, zi: Grid, amp: Grid, ramp: Ramp)
    returns (vertices: seq<Vec3>, colours: seq<Rgb>)
    requires |yi| == |xi| && IsSquare(zi, |xi|) && IsSquare(amp, |xi|)
    ensures vertices == GridMesh(xi, yi, zi, amp, ramp).vertices
    ensures colours == GridMesh(xi, yi, zi, amp, ramp).colours
  {
    var r := |xi|;
    ghost var vg, cg := VertexGrid(xi, yi, zi), ColourGrid(amp, ramp);
    vertices, colours := [], [];
    for i := 0 to r
      invariant vertices == Flatten(vg[..i])
      invariant colours == Flatten(cg[..i])
    {
      for j := 0 to r
        invariant vertices == Flatten(vg[..i]) + vg[i][..j]
        invariant colours == Flatten(cg[..i]) + cg[i][..j]
      {
        vertices := vertices + [Vec3(xi[j], yi[i], zi[i][j])];
        colours := colours + [Colour(ramp, amp[i][j])];
        assert vg[i][..j + 1] == vg[i][..j] + [vg[i][j]];
        assert cg[i][..j + 1] == cg[i][..j] + [cg[i][j]];
      }
      assert vg[..i + 1][..i] == vg[..i] && vg[i][..r] == vg[i];
      assert cg[..i + 1][..i] == cg[..i] && cg[i][..r] == cg[i];
    }
    assert vg[..r] == vg && cg[..r] == cg;
  }

  /** The face loops: `for i in range(R - 1): for j in range(R - 1):`
      appending the two triangles of cell (i, j). */
  method AssembleFaces(r: nat) returns (faces: seq<Face>)
    ensures faces == MeshFaces(r)
  {
    var cells := if r == 0 then 0 else r - 1;
    ghost var fg := FaceGrid(r);
    faces := [];
    for i := 0 to cells
      invariant faces == Flatten(fg[..i])
    {
      for j := 0 to cells
        invariant faces == Flatten(fg[..i]) + fg[i][..2 * j]
      {
        var idx := NodeIndex(r, i, j);
        CellFaces(r, i, j);
        faces := faces + [Face(idx, idx + 1, idx + r), Face(idx + 1, idx + r + 1, idx + r)];
        assert fg[i][..2 * j + 2] == fg[i][..2 * j] + [fg[i][2 * j], fg[i][2 * j + 1]];
      }
      assert fg[..i + 1][..i] == fg[..i] && fg[i][..2 * cells] == fg[i];
    }
    assert fg[..cells] == fg;
  }

  /** Vertex, colour and face loops together. */
  method AssembleMesh(xi: seq<real>, yi: seq<real>, zi: Grid, amp: Grid, ramp: Ramp) returns (m: Mesh)
    requires |yi| == |xi| && IsSquare(zi, |xi|) && IsSquare(amp, |xi|)
    ensures m == GridMesh(xi, yi, zi, amp, ramp)
    ensures WellFormed(m) && |m.vertices| == |xi| * |xi|
    ensures |m.faces| == 2 * Cells(|xi|) * Cells(|xi|)
  {
    var vertices, colours := AssembleNodes(xi, yi, zi, amp, ramp);
    var faces := AssembleFaces(|xi|);
    m := Mesh(vertices, colours, faces);
    GridMeshShape(xi, yi, zi, amp, ramp);
  }
}
