/** The process-wide memo of generated spheres, keyed by the requested round
    count. A hit returns the stored mesh; a miss builds the sphere once and
    stores it under its key. */
module MeshCache {
  import opened Geometry

  class SphereCache {
    /** The numerics every stored sphere was built with. */
    const num: Numerics
    var entries: map<int, Mesh>
    /** How many spheres the cache has built so far. */
    ghost var builds: nat

    /** Every stored mesh is the sphere for its key. */
    ghost predicate Valid()
      reads this
    {
      forall k :: k in entries ==> entries[k] == Sphere(num, Rounds(k))
    }

    constructor (num: Numerics)
      ensures Valid()
      ensures this.num == num && entries == map[] && builds == 0
    {
      this.num := num;
      entries := map[];
      builds := 0;
    }

    /** The sphere for `subdivisions` rounds. A stored mesh is returned as it
        is and nothing changes; otherwise the sphere is built, stored under
        the key, and no other key is touched. */
    method GetSphereData(subdivisions: int) returns (vertices: seq<Point3D>, faces: seq<Face>)
      requires Valid()
      modifies this
      ensures Valid()
      ensures Mesh(vertices, faces) == Sphere(num, Rounds(subdivisions))
      ensures subdivisions in entries && entries[subdivisions] == Mesh(vertices, faces)
      ensures subdivisions in old(entries) ==>
                entries == old(entries) && builds == old(builds)
                && Mesh(vertices, faces) == old(entries)[subdivisions]
      ensures subdivisions !in old(entries) ==>
                entries == old(entries)[subdivisions := Mesh(vertices, faces)]
                && builds == old(builds) + 1
    {
      var key := subdivisions;
      if key in entries {
        var cached := entries[key];
        return cached.vertices, cached.faces;
      }
      vertices, faces := CreateSphere(num, subdivisions);
      entries := entries[key := Mesh(vertices, faces)];
      builds := builds + 1;
    }
  }
}
