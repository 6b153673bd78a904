/** The two file writers, `write_obj_mesh` (Wavefront OBJ text) and
    `write_ply_fast` (ASCII PLY), modelled as the sequences of lines they
    emit.  Numbers inside a line are kept as values: the decimal formatting
    (`%.6f`, `%.4f`, `%d`) is not modelled.  Each writer is paired with a
    reader that recovers what was written. */
module Serialise {
  import opened Wrappers
  import opened Geometry
  import opened Palette

  // ------------------------------------------------------------------ OBJ

  /** One line of an OBJ file: the leading comment with the counts, a vertex
      line (with the informal trailing RGB when colours are given), or a
      face line with 1-based indices. */
  datatype ObjLine =
    | CountComment(vertexCount: nat, faceCount: nat)
    | VertexLine(x: real, y: real, z: real)
    | ColouredVertexLine(x: real, y: real, z: real, red: real, green: real, blue: real)
    | FaceLine(first: nat, second: nat, third: nat)

  /** The i-th vertex line: coloured exactly when a colour list is given. */
  function VertexAt(vertices: seq<Vec3>, colours: Option<seq<Rgb>>, i: nat): (l: ObjLine)
    requires i < |vertices|
    requires colours.Some? ==> |colours.value| >= |vertices|
    ensures l.ColouredVertexLine? <==> colours.Some?
  {
    var v := vertices[i];
    match colours
    case Some(cs) => ColouredVertexLine(v.x, v.y, v.z, cs[i].r, cs[i].g, cs[i].b)
    case None => VertexLine(v.x, v.y, v.z)
  }

  /** Face indices are written shifted from 0-based to 1-based. */
  function FaceAt(f: Face): ObjLine
  {
    FaceLine(f.a + 1, f.b + 1, f.c + 1)
  }

  /** The whole OBJ file: the count comment, one line per vertex, then one
      line per face.  Only the first |vertices| colours are read. */
  function ObjFile(vertices: seq<Vec3>, faces: seq<Face>, colours: Option<seq<Rgb>>): (lines: seq<ObjLine>)
    requires colours.Some? ==> |colours.value| >= |vertices|
    ensures |lines| == 1 + |vertices| + |faces|
  {
    [CountComment(|vertices|, |faces|)]
      + seq(|vertices|, i requires 0 <= i < |vertices| => VertexAt(vertices, colours, i))
      + seq(|faces|, k requires 0 <= k < |faces| => FaceAt(faces[k]))
  }

  /** One `f.write` per vertex and per face, in the source's order. */
  method WriteObjMesh(vertices: seq<Vec3>, faces: seq<Face>, colours: Option<seq<Rgb>>) returns (lines: seq<ObjLine>)
    requires colours.Some? ==> |colours.value| >= |vertices|
    ensures lines == ObjFile(vertices, faces, colours)
  {
    lines := [CountComment(|vertices|, |faces|)];
    for i := 0 to |vertices|
      invariant |lines| == 1 + i
      invariant lines[0] == CountComment(|vertices|, |faces|)
      invariant forall k :: 0 <= k < i ==> lines[1 + k] == VertexAt(vertices, colours, k)
    {
      var v := vertices[i];
      if colours.Some? {
        var c := colours.value[i];
        lines := lines + [ColouredVertexLine(v.x, v.y, v.z, c.r, c.g, c.b)];
      } else {
        lines := lines + [VertexLine(v.x, v.y, v.z)];
      }
    }
    for k := 0 to |faces|
      invariant |lines| == 1 + |vertices| + k
      invariant lines[0] == CountComment(|vertices|, |faces|)
      invariant forall i :: 0 <= i < |vertices| ==> lines[1 + i] == VertexAt(vertices, colours, i)
      invariant forall j :: 0 <= j < k ==> lines[1 + |vertices| + j] == FaceAt(faces[j])
    {
      var f := faces[k];
      lines := lines + [FaceLine(f.a + 1, f.b + 1, f.c + 1)];
    }
  }

  /** The header states the counts of the lines that follow; the vertex
      lines carry a colour exactly when colours were supplied; every face
      index of a well-formed mesh lies in 1..|vertices|. */
  lemma ObjFileLayout(vertices: seq<Vec3>, faces: seq<Face>, colours: Option<seq<Rgb>>)
    requires colours.Some? ==> |colours.value| >= |vertices|
    ensures var lines := ObjFile(vertices, faces, colours);
      && lines[0] == CountComment(|vertices|, |faces|)
      && (forall i :: 1 <= i <= |vertices| ==>
            (lines[i].ColouredVertexLine? <==> colours.Some?) && (lines[i].VertexLine? <==> colours.None?))
      && (forall k :: 1 + |vertices| <= k < |lines| ==> lines[k].FaceLine?)
      && (forall k :: 0 <= k < |faces| && FaceWithin(faces[k], |vertices|) ==>
            var l := lines[1 + |vertices| + k];
            1 <= l.first <= |vertices| && 1 <= l.second <= |vertices| && 1 <= l.third <= |vertices|)
  {
    var lines := ObjFile(vertices, faces, colours);
    forall i | 1 <= i <= |vertices|
      ensures (lines[i].ColouredVertexLine? <==> colours.Some?) && (lines[i].VertexLine? <==> colours.None?)
    {
      assert lines[i] == VertexAt(vertices, colours, i - 1);
    }
    forall k | 1 + |vertices| <= k < |lines| ensures lines[k].FaceLine? {
      assert lines[k] == FaceAt(faces[k - 1 - |vertices|]);
    }
  }

  /** What an OBJ reader recovers: vertices, the colours if the vertex
      lines carry any, and 0-based faces. */
  datatype ObjContent = ObjContent(vertices: seq<Vec3>, colours: Option<seq<Rgb>>, faces: seq<Face>)

  function LineVertex(l: ObjLine): Vec3
    requires l.VertexLine? || l.ColouredVertexLine?
  {
    Vec3(l.x, l.y, l.z)
  }

  /** Reads back an OBJ file: the count comment must match the lines that
      follow, the vertex lines must be all plain or all coloured, and face
      indices must be 1-based. */
  function ReadObj(lines: seq<ObjLine>): Option<ObjContent>
  {
    if |lines| == 0 || !lines[0].CountComment? then None
    else
      var n, m := lines[0].vertexCount, lines[0].faceCount;
      if |lines| != 1 + n + m then None
      else if !VertexLines(lines, n) || !FaceLines(lines, n) then None
      else Some(ObjContent(ReadVertices(lines, n), ReadColours(lines, n), ReadFaces(lines, n, m)))
  }

  /** Lines 1 .. n are vertex lines. */
  predicate VertexLines(lines: seq<ObjLine>, n: nat)
    requires n < |lines|
  {
    forall k :: 1 <= k <= n ==> lines[k].VertexLine? || lines[k].ColouredVertexLine?
  }

  /** The lines after the n vertex lines are faces with 1-based indices. */
  predicate FaceLines(lines: seq<ObjLine>, n: nat)
  {
    forall k :: 1 + n <= k < |lines| ==> lines[k].FaceLine? && lines[k].first >= 1 && lines[k].second >= 1 && lines[k].third >= 1
  }

  function ReadVertices(lines: seq<ObjLine>, n: nat): (vs: seq<Vec3>)
    requires n < |lines| && VertexLines(lines, n)
    ensures |vs| == n
  {
    seq(n, i requires 0 <= i < n => LineVertex(lines[1 + i]))
  }

  /** The colours, when there are vertex lines and all of them carry one. */
  function ReadColours(lines: seq<ObjLine>, n: nat): (cs: Option<seq<Rgb>>)
    requires n < |lines|
  {
    if n > 0 && forall k :: 1 <= k <= n ==> lines[k].ColouredVertexLine?
    then Some(seq(n, i requires 0 <= i < n => Rgb(lines[1 + i].red, lines[1 + i].green, lines[1 + i].blue)))
    else None
  }

  function ReadFaces(lines: seq<ObjLine>, n: nat, m: nat): (fs: seq<Face>)
    requires |lines| == 1 + n + m && FaceLines(lines, n)
    ensures |fs| == m
  {
    seq(m, k requires 0 <= k < m => Face(lines[1 + n + k].first - 1, lines[1 + n + k].second - 1, lines[1 + n + k].third - 1))
  }

  /** Reading a written mesh gives back its vertices and faces, and its
      colours whenever there are vertices to carry them. */
  lemma ObjRoundTrip(vertices: seq<Vec3>, faces: seq<Face>, colours: Option<seq<Rgb>>)
    requires colours.Some? ==> |colours.value| == |vertices|
    ensures ReadObj(ObjFile(vertices, faces, colours))
      == Some(ObjContent(vertices, if |vertices| == 0 then None else colours, faces))
  {
    ObjFaceLines(vertices, faces, colours);
    ObjVerticesRead(vertices, faces, colours);
    ObjFacesRead(vertices, faces, colours);
    ObjColoursRead(vertices, faces, colours);
  }

  lemma ObjFaceLines(vertices: seq<Vec3>, faces: seq<Face>, colours: Option<seq<Rgb>>)
    requires colours.Some? ==> |colours.value| >= |vertices|
    ensures FaceLines(ObjFile(vertices, faces, colours), |vertices|)
  {
    var lines, n := ObjFile(vertices, faces, colours), |vertices|;
    forall k | 1 + n <= k < |lines|
      ensures lines[k].FaceLine? && lines[k].first >= 1 && lines[k].second >= 1 && lines[k].third >= 1
    {
      assert lines[k] == FaceAt(faces[k - 1 - n]);
    }
  }

  lemma ObjVerticesRead(vertices: seq<Vec3>, faces: seq<Face>, colours: Option<seq<Rgb>>)
    requires colours.Some? ==> |colours.value| >= |vertices|
    ensures var lines := ObjFile(vertices, faces, colours);
      VertexLines(lines, |vertices|) && ReadVertices(lines, |vertices|) == vertices
  {
    var lines, n := ObjFile(vertices, faces, colours), |vertices|;
    forall i | 0 <= i < n ensures lines[1 + i] == VertexAt(vertices, colours, i) {
    }
    assert VertexLines(lines, n);
  }

  lemma ObjFacesRead(vertices: seq<Vec3>, faces: seq<Face>, colours: Option<seq<Rgb>>)
    requires colours.Some? ==> |colours.value| >= |vertices|
    ensures var lines := ObjFile(vertices, faces, colours);
      FaceLines(lines, |vertices|) && ReadFaces(lines, |vertices|, |faces|) == faces
  {
    var lines, n := ObjFile(vertices, faces, colours), |vertices|;
    ObjFaceLines(vertices, faces, colours);
    forall k | 0 <= k < |faces| ensures ReadFaces(lines, n, |faces|)[k] == faces[k] {
      assert lines[1 + n + k] == FaceAt(faces[k]);
    }
  }

  lemma ObjColoursRead(vertices: seq<Vec3>, faces: seq<Face>, colours: Option<seq<Rgb>>)
    requires colours.Some? ==> |colours.value| == |vertices|
    ensures ReadColours(ObjFile(vertices, faces, colours), |vertices|) == if |vertices| == 0 then None else colours
  {
    var lines, n := ObjFile(vertices, faces, colours), |vertices|;
    if n > 0 {
      forall i | 0 <= i < n ensures lines[1 + i] == VertexAt(vertices, colours, i) {
      }
      if colours.Some? {
        var cs := ReadColours(lines, n);
        assert cs.Some?;
        forall i | 0 <= i < n ensures cs.value[i] == colours.value[i] {
          assert lines[1 + i] == VertexAt(vertices, colours, i);
        }
        assert cs.value == colours.value;
      } else {
        assert !lines[1].ColouredVertexLine?;
      }
    }
  }

  // ------------------------------------------------------------------ PLY

  /** One line of an ASCII PLY file: a fixed header line, the vertex count
      line, or a body row `x y z red green blue`. */
  datatype PlyLine =
    | HeaderText(text: string)
    | ElementVertex(count: nat)
    | Row(x: real, y: real, z: real, red: nat, green: nat, blue: nat)

  /** The ten header lines for n points. */
  function PlyHeader(n: nat): (h: seq<PlyLine>)
    ensures |h| == 10
  {
    [HeaderText("ply"), HeaderText("format ascii 1.0"), ElementVertex(n),
     HeaderText("property float x"), HeaderText("property float y"), HeaderText("property float z"),
     HeaderText("property uchar red"), HeaderText("property uchar green"), HeaderText("property uchar blue"),
     HeaderText("end_header")]
  }

  /** `astype(np.uint8)`: an integer wrapped into 0..255. */
  function Byte(v: int): (b: nat)
    ensures b < 256 && (0 <= v < 256 ==> b == v)
    ensures (v - b) % 256 == 0
  {
    v % 256
  }

  function RowAt(points: seq<Vec3>, colours: seq<Rgb8>, k: nat): PlyLine
    requires |colours| == |points| && k < |points|
  {
    var p, c := points[k], colours[k];
    Row(p.x, p.y, p.z, Byte(c.r), Byte(c.g), Byte(c.b))
  }

  /** The whole PLY file.  `np.column_stack` raises unless there is exactly
      one colour per point. */
  function PlyFile(points: seq<Vec3>, colours: seq<Rgb8>): (lines: seq<PlyLine>)
    requires |colours| == |points|
  {
    PlyHeader(|points|) + seq(|points|, k requires 0 <= k < |points| => RowAt(points, colours, k))
  }

  /** The declared vertex count is the number of body rows, and the colour
      components of every row are bytes. */
  lemma PlyFileLayout(points: seq<Vec3>, colours: seq<Rgb8>)
    requires |colours| == |points|
    ensures var lines := PlyFile(points, colours);
      && |lines| == 10 + |points| && lines[2] == ElementVertex(|points|)
      && forall k :: 10 <= k < |lines| ==> lines[k].Row? && lines[k].red < 256 && lines[k].green < 256 && lines[k].blue < 256
  {
    var lines := PlyFile(points, colours);
    forall k | 10 <= k < |lines|
      ensures lines[k].Row? && lines[k].red < 256 && lines[k].green < 256 && lines[k].blue < 256
    {
      assert lines[k] == RowAt(points, colours, k - 10);
    }
  }

  /** Reads back an ASCII PLY file as written above. */
  function ReadPly(lines: seq<PlyLine>): Option<(seq<Vec3>, seq<Rgb8>)>
  {
    if |lines| < 10 || !lines[2].ElementVertex? then None
    else
      var n := lines[2].count;
      if lines[..10] != PlyHeader(n) || |lines| != 10 + n then None
      else if !(forall k :: 10 <= k < |lines| ==> lines[k].Row?) then None
      else
        Some((seq(n, k requires 0 <= k < n => Vec3(lines[10 + k].x, lines[10 + k].y, lines[10 + k].z)),
              seq(n, k requires 0 <= k < n => Rgb8(lines[10 + k].red, lines[10 + k].green, lines[10 + k].blue))))
  }

  function Wrapped(colours: seq<Rgb8>): (w: seq<Rgb8>)
    ensures |w| == |colours|
    ensures forall k :: 0 <= k < |colours| && ByteRange(colours[k]) ==> w[k] == colours[k]
  {
    seq(|colours|, k requires 0 <= k < |colours| => Rgb8(Byte(colours[k].r), Byte(colours[k].g), Byte(colours[k].b)))
  }

  /** Reading a written PLY file gives back the points and the colours
      wrapped to bytes; colours already in 0..255 come back unchanged. */
  lemma PlyRoundTrip(points: seq<Vec3>, colours: seq<Rgb8>)
    requires |colours| == |points|
    ensures ReadPly(PlyFile(points, colours)) == Some((points, Wrapped(colours)))
    ensures (forall k :: 0 <= k < |colours| ==> ByteRange(colours[k])) ==> Wrapped(colours) == colours
  {
    var lines := PlyFile(points, colours);
    PlyFileLayout(points, colours);
    assert lines[..10] == PlyHeader(|points|);
    var r := ReadPly(lines).value;
    forall k | 0 <= k < |points| ensures r.0[k] == points[k] && r.1[k] == Wrapped(colours)[k] {
      assert lines[10 + k] == RowAt(points, colours, k);
    }
    assert r.0 == points && r.1 == Wrapped(colours);
  }
}
