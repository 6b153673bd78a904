/** The values that flow through the pipeline: survey points, mesh vertices,
    floating-point vertex colours, triangles and meshes. */
module Geometry {

  /** One survey sample after numeric coercion: position and signal amplitude. */
  datatype Point = Point(x: real, y: real, z: real, amp: real)

  datatype Vec3 = Vec3(x: real, y: real, z: real)

  /** A mesh vertex colour, each component nominally in [0, 1]. */
  datatype Rgb = Rgb(r: real, g: real, b: real)

  /** A triangle given by three 0-based vertex indices. */
  datatype Face = Face(a: nat, b: nat, c: nat)

  /** Vertices, one colour per vertex, and triangles over the vertices. */
  datatype Mesh = Mesh(vertices: seq<Vec3>, colours: seq<Rgb>, faces: seq<Face>)

  predicate FaceWithin(f: Face, n: nat)
  {
    f.a < n && f.b < n && f.c < n
  }

  /** The mesh invariant: as many colours as vertices, and every face index
      names a vertex. */
  predicate WellFormed(m: Mesh)
  {
    && |m.colours| == |m.vertices|
    && forall k :: 0 <= k < |m.faces| ==> FaceWithin(m.faces[k], |m.vertices|)
  }

  predicate UnitColour(c: Rgb)
  {
    0.0 <= c.r <= 1.0 && 0.0 <= c.g <= 1.0 && 0.0 <= c.b <= 1.0
  }

  function Xs(pts: seq<Point>): (r: seq<real>)
    ensures |r| == |pts| && forall k :: 0 <= k < |pts| ==> r[k] == pts[k].x
  {
    seq(|pts|, k requires 0 <= k < |pts| => pts[k].x)
  }

  function Ys(pts: seq<Point>): (r: seq<real>)
    ensures |r| == |pts| && forall k :: 0 <= k < |pts| ==> r[k] == pts[k].y
  {
    seq(|pts|, k requires 0 <= k < |pts| => pts[k].y)
  }

  function Zs(pts: seq<Point>): (r: seq<real>)
    ensures |r| == |pts| && forall k :: 0 <= k < |pts| ==> r[k] == pts[k].z
  {
    seq(|pts|, k requires 0 <= k < |pts| => pts[k].z)
  }

  function Amps(pts: seq<Point>): (r: seq<real>)
    ensures |r| == |pts| && forall k :: 0 <= k < |pts| ==> r[k] == pts[k].amp
  {
    seq(|pts|, k requires 0 <= k < |pts| => pts[k].amp)
  }
}
