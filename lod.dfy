/** Level of detail: the zoom factor picks how many subdivision rounds the
    drawn sphere gets. */
module Lod {
  import opened Geometry

  /** Rounds of subdivision for a zoom factor. Below 50 and from 50 to 100
      are separate bands that both give one round. */
  function GetLOD(scale: real): (lod: int)
    ensures 1 <= lod <= 4
    ensures lod == 1 <==> scale < 100.0
    ensures lod == 2 <==> 100.0 <= scale < 200.0
    ensures lod == 3 <==> 200.0 <= scale < 400.0
    ensures lod == 4 <==> 400.0 <= scale
  {
    if scale < 50.0 then 1
    else if scale < 100.0 then 1
    else if scale < 200.0 then 2
    else if scale < 400.0 then 3
    else 4
  }

  /** Zooming in never lowers the level of detail. */
  lemma GetLODMonotone(a: real, b: real)
    requires a <= b
    ensures GetLOD(a) <= GetLOD(b)
  {
  }

  /** Each doubling of the zoom from 100 up to 400 adds one round. */
  lemma GetLODDoubling(scale: real)
    requires 100.0 <= scale < 200.0 || 200.0 <= scale < 400.0
    ensures GetLOD(2.0 * scale) == GetLOD(scale) + 1
  {
  }

  /** The largest mesh the renderer ever asks for: four rounds, 5120 faces
      and 5112 vertices. */
  lemma LodMeshBound(num: Numerics, scale: real)
    ensures |Sphere(num, Rounds(GetLOD(scale))).faces| <= 5120
    ensures |Sphere(num, Rounds(GetLOD(scale))).vertices| <= 5112
    ensures 80 <= |Sphere(num, Rounds(GetLOD(scale))).faces|
  {
    var n := Rounds(GetLOD(scale));
    SphereFaceCount(num, n);
    SphereVertexCount(num, n);
    assert Pow4(1) == 4 && Pow4(2) == 16 && Pow4(3) == 64 && Pow4(4) == 256;
  }
}
