/**
 * What the two procedural mesh builders share: the `UInt32` index type of
 * their index buffers, the mesh part that describes the buffers, and the
 * vocabulary for the winding of triangles.
 */
module MeshBuffers {
  import opened Linear

  /** Swift's `UInt32`; converting an `Int` outside this range traps. */
  type UInt32 = x: int | 0 <= x < 0x1_0000_0000

  const UInt32Limit: int := 0x1_0000_0000

  datatype BoundingBox = BoundingBox(min: Vec3, max: Vec3)

  /** `p` lies inside the box `b`, faces included. */
  predicate Contains(b: BoundingBox, p: Vec3)
  {
    b.min.x <= p.x <= b.max.x && b.min.y <= p.y <= b.max.y && b.min.z <= p.z <= b.max.z
  }

  datatype Topology = Triangle

  /** `LowLevelMesh.Part`: how many indices are drawn, as what, inside which bounds. */
  datatype Part = Part(indexCount: nat, topology: Topology, bounds: BoundingBox)

  /** `p` walked the other way round. */
  function Flipped(p: seq<int>): seq<int>
    requires |p| == 3
  {
    [p[0], p[2], p[1]]
  }

  /** `p` with every index moved by `k`. */
  function Shifted(p: seq<int>, k: int): seq<int>
    requires |p| == 3
  {
    [p[0] + k, p[1] + k, p[2] + k]
  }

  /** The triangle `p` walks the directed edge `u -> v`. */
  predicate HasEdge(p: seq<int>, u: int, v: int)
    requires |p| == 3
  {
    (p[0] == u && p[1] == v) || (p[1] == u && p[2] == v) || (p[2] == u && p[0] == v)
  }

  /** The three corners of `p` are different vertices. */
  predicate Distinct3(p: seq<int>)
    requires |p| == 3
  {
    p[0] != p[1] && p[1] != p[2] && p[0] != p[2]
  }

  /** The first (`h` = 0) or second (`h` = 1) triangle of a panel. */
  function Half(q: seq<int>, h: nat): (t: seq<int>)
    requires |q| == 6 && h < 2
    ensures |t| == 3
  {
    [q[3 * h], q[3 * h + 1], q[3 * h + 2]]
  }

  /**
   * Six consecutive index writes starting at `at`, each converting a vertex
   * number to `UInt32`, which traps unless the number is in range.
   */
  method StoreSix(indices: array<UInt32>, at: nat, q: seq<int>)
    requires at + 6 <= indices.Length && |q| == 6
    requires forall t | 0 <= t < 6 :: 0 <= q[t] < UInt32Limit
    modifies indices
    ensures indices[..at] == old(indices[..at])
    ensures indices[at..at + 6] == q
  {
    indices[at] := q[0];
    indices[at + 1] := q[1];
    indices[at + 2] := q[2];
    indices[at + 3] := q[3];
    indices[at + 4] := q[4];
    indices[at + 5] := q[5];
  }
}
