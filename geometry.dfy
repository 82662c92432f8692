/** Geodesic sphere construction: the 12-vertex, 20-face icosahedron, split
    round by round into four faces per face. Every split appends three fresh
    midpoint vertices per face and never merges midpoints that adjacent faces
    share. Coordinates are carried, but the square-root numerics (the golden
    ratio and `normalize`) are supplied by the caller as `Numerics`; every
    property proved here is about indices and lengths. */
module Geometry {

  datatype Point3D = Point3D(x: real, y: real, z: real)

  /** A face is a slice of vertex indices; a well-formed one has three. */
  type Face = seq<int>

  datatype Mesh = Mesh(vertices: seq<Point3D>, faces: seq<Face>)

  /** The floating-point operations the construction relies on and which
      exact reals cannot express: phi = (1 + sqrt 5) / 2, and the projection
      of a point onto the unit sphere. */
  datatype Numerics = Numerics(phi: real, normalize: Point3D -> Point3D)

  function Midpoint(p1: Point3D, p2: Point3D): (m: Point3D)
    ensures m.x - p1.x == p2.x - m.x
    ensures m.y - p1.y == p2.y - m.y
    ensures m.z - p1.z == p2.z - m.z
  {
    Point3D((p1.x + p2.x) / 2.0, (p1.y + p2.y) / 2.0, (p1.z + p2.z) / 2.0)
  }

  lemma MidpointSymmetric(p1: Point3D, p2: Point3D)
    ensures Midpoint(p1, p2) == Midpoint(p2, p1)
  {
  }

  function IcosahedronVertices(t: real): seq<Point3D>
  {
    [ Point3D(-1.0, t, 0.0), Point3D(1.0, t, 0.0), Point3D(-1.0, -t, 0.0), Point3D(1.0, -t, 0.0),
      Point3D(0.0, -1.0, t), Point3D(0.0, 1.0, t), Point3D(0.0, -1.0, -t), Point3D(0.0, 1.0, -t),
      Point3D(t, 0.0, -1.0), Point3D(t, 0.0, 1.0), Point3D(-t, 0.0, -1.0), Point3D(-t, 0.0, 1.0) ]
  }

  function IcosahedronFaces(): seq<Face>
  {
    [ [0, 11, 5], [0, 5, 1], [0, 1, 7], [0, 7, 10], [0, 10, 11],
      [1, 5, 9], [5, 11, 4], [11, 10, 2], [10, 7, 6], [7, 1, 8],
      [3, 9, 4], [3, 4, 2], [3, 2, 6], [3, 6, 8], [3, 8, 9],
      [4, 9, 5], [2, 4, 11], [6, 2, 10], [8, 6, 7], [9, 8, 1] ]
  }

  function Icosahedron(num: Numerics): Mesh
  {
    Mesh(IcosahedronVertices(num.phi), IcosahedronFaces())
  }

  /** A face with exactly three indices, each naming one of `n` vertices. */
  predicate ValidFace(f: Face, n: int)
  {
    |f| == 3 && 0 <= f[0] < n && 0 <= f[1] < n && 0 <= f[2] < n
  }

  predicate FacesValid(faces: seq<Face>, n: int)
  {
    forall i :: 0 <= i < |faces| ==> ValidFace(faces[i], n)
  }

  predicate WellFormed(m: Mesh)
  {
    FacesValid(m.faces, |m.vertices|)
  }

  lemma IcosahedronWellFormed(num: Numerics)
    ensures WellFormed(Icosahedron(num))
    ensures |Icosahedron(num).vertices| == 12 && |Icosahedron(num).faces| == 20
  {
  }

  /** Vertex `i`, read only where the source reads it: at an index that
      SphereWellFormed proves is always in bounds. */
  function VertexAt(vs: seq<Point3D>, i: int): Point3D
  {
    if 0 <= i < |vs| then vs[i] else Point3D(0.0, 0.0, 0.0)
  }

  function Corner(f: Face, c: int): int
  {
    if 0 <= c < |f| then f[c] else 0
  }

  /** The midpoint vertex a round appends for the edge between vertices i
      and j, projected back onto the sphere. */
  function EdgeMidpoint(num: Numerics, vs: seq<Point3D>, i: int, j: int): Point3D
  {
    num.normalize(Midpoint(VertexAt(vs, i), VertexAt(vs, j)))
  }

  /** The three midpoints a round appends for face f, for its edges from
      corner 0 to 1, from 1 to 2 and from 2 to 0. */
  function FaceMidpoints(num: Numerics, vs: seq<Point3D>, f: Face): seq<Point3D>
  {
    var a, b, c := Corner(f, 0), Corner(f, 1), Corner(f, 2);
    [EdgeMidpoint(num, vs, a, b), EdgeMidpoint(num, vs, b, c), EdgeMidpoint(num, vs, c, a)]
  }

  /** The four faces that replace `f` when the midpoints of its edges 0, 1, 2
      have the indices mid, mid + 1, mid + 2: three corner faces, then the
      central one. */
  function Children(f: Face, mid: int): seq<Face>
  {
    var a, b, c := Corner(f, 0), Corner(f, 1), Corner(f, 2);
    [[a, mid, mid + 2], [b, mid + 1, mid], [c, mid + 2, mid + 1], [mid, mid + 1, mid + 2]]
  }

  /** The vertices a round appends for the faces `fs`, in face order: the three
      edge midpoints of each face, never shared with a neighbouring face. */
  function RoundMidpoints(num: Numerics, vs: seq<Point3D>, fs: seq<Face>): seq<Point3D>
    decreases |fs|
  {
    if fs == [] then []
    else
      var k := |fs| - 1;
      RoundMidpoints(num, vs, fs[..k])
        + FaceMidpoints(num, vs, fs[k])
  }

  /** The faces a round produces for `fs` when the first appended vertex has
      index n: the children of each face, in face order. */
  function RoundFaces(fs: seq<Face>, n: int): seq<Face>
    decreases |fs|
  {
    if fs == [] then []
    else
      var k := |fs| - 1;
      RoundFaces(fs[..k], n) + Children(fs[k], n + 3 * k)
  }

  /** One subdivision round: the midpoints are appended after every existing
      vertex, and each face is replaced by its four children. A round gives
      four faces per face and three more vertices per face, and keeps every
      face index in bounds (SubdivideWellFormed). */
  function Subdivide(num: Numerics, m: Mesh): (r: Mesh)
    ensures |r.faces| == 4 * |m.faces|
    ensures |r.vertices| == |m.vertices| + 3 * |m.faces|
  {
    RoundMidpointsLength(num, m.vertices, m.faces);
    RoundFacesLength(m.faces, |m.vertices|);
    var r := Mesh(m.vertices + RoundMidpoints(num, m.vertices, m.faces), RoundFaces(m.faces, |m.vertices|));
    r
  }

  /** The mesh after `n` subdivision rounds of the icosahedron. Every round
      keeps the icosahedron's balance of eight more faces than vertices: the
      three vertices appended per face make up for the three faces it gains. */
  function Sphere(num: Numerics, n: nat): (m: Mesh)
    ensures |m.vertices| + 8 == |m.faces|
  {
    if n == 0 then
      IcosahedronWellFormed(num);
      Icosahedron(num)
    else Subdivide(num, Sphere(num, n - 1))
  }

  /** A negative round count performs no rounds. */
  function Rounds(subdivisions: int): nat
  {
    if subdivisions < 0 then 0 else subdivisions
  }

  function Pow4(n: nat): (p: nat)
    ensures 1 <= p
  {
    if n == 0 then 1 else 4 * Pow4(n - 1)
  }

  lemma {:induction false} RoundMidpointsLength(num: Numerics, vs: seq<Point3D>, fs: seq<Face>)
    ensures |RoundMidpoints(num, vs, fs)| == 3 * |fs|
    decreases |fs|
  {
    if fs != [] {
      RoundMidpointsLength(num, vs, fs[..|fs| - 1]);
    }
  }

  lemma {:induction false} RoundFacesLength(fs: seq<Face>, n: int)
    ensures |RoundFaces(fs, n)| == 4 * |fs|
    decreases |fs|
  {
    if fs != [] {
      RoundFacesLength(fs[..|fs| - 1], n);
    }
  }

  /** The faces a round produces have three indices each, all below the
      vertex count after the round. */
  lemma {:induction false} RoundFacesValid(fs: seq<Face>, n: int)
    requires FacesValid(fs, n)
    ensures FacesValid(RoundFaces(fs, n), n + 3 * |fs|)
    decreases |fs|
  {
    if fs != [] {
      var k := |fs| - 1;
      RoundFacesValid(fs[..k], n);
      RoundFacesLength(fs[..k], n);
      assert ValidFace(fs[k], n);
      var prev := RoundFaces(fs[..k], n);
      var out := RoundFaces(fs, n);
      assert out == prev + Children(fs[k], n + 3 * k);
      forall i | 0 <= i < |out|
        ensures ValidFace(out[i], n + 3 * |fs|)
      {
        if i < |prev| {
          assert ValidFace(prev[i], n + 3 * k);
        }
      }
    }
  }

  /** A round keeps every face index in bounds. */
  lemma SubdivideWellFormed(num: Numerics, m: Mesh)
    requires WellFormed(m)
    ensures WellFormed(Subdivide(num, m))
  {
    RoundFacesValid(m.faces, |m.vertices|);
  }

  /** A round keeps the old vertices, unchanged, as a prefix. */
  lemma SubdivideKeepsVertices(num: Numerics, m: Mesh)
    ensures Subdivide(num, m).vertices[..|m.vertices|] == m.vertices
  {
  }

  /** Every face of every round has three indices, all naming existing
      vertices. */
  lemma {:induction false} SphereWellFormed(num: Numerics, n: nat)
    ensures WellFormed(Sphere(num, n))
  {
    if n == 0 {
      IcosahedronWellFormed(num);
    } else {
      SphereWellFormed(num, n - 1);
      SubdivideWellFormed(num, Sphere(num, n - 1));
    }
  }

  /** Round zero is the icosahedron itself. */
  lemma SphereBase(num: Numerics)
    ensures WellFormed(Sphere(num, 0))
    ensures |Sphere(num, 0).vertices| == 12 && |Sphere(num, 0).faces| == 20
  {
    IcosahedronWellFormed(num);
  }

  /** Each round multiplies the face count by four. */
  lemma {:induction false} SphereFaceCount(num: Numerics, n: nat)
    ensures |Sphere(num, n).faces| == 20 * Pow4(n)
  {
    if n == 0 {
      SphereBase(num);
    } else {
      SphereFaceCount(num, n - 1);
    }
  }

  /** The vertex count after n rounds. */
  lemma SphereVertexCount(num: Numerics, n: nat)
    ensures |Sphere(num, n).vertices| == 12 + 20 * (Pow4(n) - 1)
  {
    SphereFaceCount(num, n);
  }

  /** Subdivision only appends: the vertices of an earlier round are a prefix
      of the vertices of every later round. */
  lemma {:induction false} SpherePrefix(num: Numerics, m: nat, n: nat)
    requires m <= n
    ensures |Sphere(num, m).vertices| <= |Sphere(num, n).vertices|
    ensures Sphere(num, n).vertices[..|Sphere(num, m).vertices|] == Sphere(num, m).vertices
  {
    if m < n {
      SpherePrefix(num, m, n - 1);
      SubdivideKeepsVertices(num, Sphere(num, n - 1));
      PrefixTransitive(Sphere(num, m).vertices, Sphere(num, n - 1).vertices, Sphere(num, n).vertices);
    }
  }

  lemma PrefixTransitive<T>(a: seq<T>, b: seq<T>, c: seq<T>)
    requires |a| <= |b| <= |c| && c[..|b|] == b && b[..|a|] == a
    ensures c[..|a|] == a
  {
    assert c[..|a|] == c[..|b|][..|a|];
  }

  /** Extending the processed prefix by face k appends its three midpoints
      and its four children. */
  lemma RoundStep(num: Numerics, start: seq<Point3D>, faces: seq<Face>, k: int)
    requires 0 <= k < |faces|
    ensures RoundMidpoints(num, start, faces[..k + 1])
            == RoundMidpoints(num, start, faces[..k])
               + FaceMidpoints(num, start, faces[k])
    ensures RoundFaces(faces[..k + 1], |start|) == RoundFaces(faces[..k], |start|) + Children(faces[k], |start| + 3 * k)
  {
    assert faces[..k + 1][..k] == faces[..k];
  }

  /** One pass of the subdivision loop: for each face in order, append the
      normalized midpoints of its edges 0-1, 1-2 and 2-0 and emit its four
      children. The corners are read from the growing vertex list, but every
      corner index lies below |start|, so they are the vertices of the
      previous round. */
  method SubdivideRound(num: Numerics, start: seq<Point3D>, faces: seq<Face>)
    returns (vertices: seq<Point3D>, newFaces: seq<Face>)
    requires FacesValid(faces, |start|)
    ensures Mesh(vertices, newFaces) == Subdivide(num, Mesh(start, faces))
  {
    vertices, newFaces := start, [];
    var k := 0;
    while k < |faces|
      invariant 0 <= k <= |faces|
      invariant vertices == start + RoundMidpoints(num, start, faces[..k])
      invariant newFaces == RoundFaces(faces[..k], |start|)
    {
      var face := faces[k];
      assert ValidFace(face, |start|);
      RoundStep(num, start, faces, k);
      ghost var prevMids := RoundMidpoints(num, start, faces[..k]);
      assert |vertices| == |start| + 3 * k by {
        RoundMidpointsLength(num, start, faces[..k]);
      }
      var mid01 := num.normalize(Midpoint(vertices[face[0]], vertices[face[1]]));
      var mid12 := num.normalize(Midpoint(vertices[face[1]], vertices[face[2]]));
      var mid20 := num.normalize(Midpoint(vertices[face[2]], vertices[face[0]]));
      assert [mid01, mid12, mid20] == FaceMidpoints(num, start, face);
      var mid01Idx, mid12Idx, mid20Idx := |vertices|, |vertices| + 1, |vertices| + 2;
      vertices := vertices + [mid01, mid12, mid20];
      assert vertices == start + (prevMids + FaceMidpoints(num, start, face));
      var children := [[face[0], mid01Idx, mid20Idx], [face[1], mid12Idx, mid01Idx],
                       [face[2], mid20Idx, mid12Idx], [mid01Idx, mid12Idx, mid20Idx]];
      assert children == Children(face, |start| + 3 * k);
      newFaces := newFaces + children;
      k := k + 1;
    }
    assert faces[..|faces|] == faces;
  }

  /** The geodesic sphere after `subdivisions` rounds (none when negative):
      20 * 4^n faces, 12 + 20 * (4^n - 1) vertices, every face index valid. */
  method CreateSphere(num: Numerics, subdivisions: int) returns (vertices: seq<Point3D>, faces: seq<Face>)
    ensures Mesh(vertices, faces) == Sphere(num, Rounds(subdivisions))
    ensures |faces| == 20 * Pow4(Rounds(subdivisions))
    ensures |vertices| == 12 + 20 * (Pow4(Rounds(subdivisions)) - 1)
    ensures FacesValid(faces, |vertices|)
  {
    vertices := IcosahedronVertices(num.phi);
    faces := IcosahedronFaces();
    var i := 0;
    while i < subdivisions
      invariant 0 <= i <= Rounds(subdivisions)
      invariant Mesh(vertices, faces) == Sphere(num, i)
    {
      assert FacesValid(faces, |vertices|) by {
        SphereWellFormed(num, i);
      }
      vertices, faces := SubdivideRound(num, vertices, faces);
      i := i + 1;
    }
    assert i == Rounds(subdivisions);
    SphereWellFormed(num, i);
    SphereFaceCount(num, i);
    SphereVertexCount(num, i);
  }
}
