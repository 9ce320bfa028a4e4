/**
 * `MeshResource.generateSpecificSphere(radius:latitudeBands:longitudeBands:)`:
 * a UV sphere written into a low-level mesh. Vertex `la * (long + 1) + lo`
 * sits at latitude step `la` and longitude step `lo`; every quad between two
 * latitude rings becomes two triangles.
 */
module SphereMesh {
  import opened Linear
  import opened MeshBuffers
  import opened GridIndex

  /** The colour every sphere vertex carries (`0xFFFFFFFF`, opaque white). */
  const White: UInt32 := 0xFFFF_FFFF

  /** `MyVertex`: a position and a packed colour. */
  datatype SphereVertex = SphereVertex(position: Vec3, color: UInt32)

  function VertexCount(lat: nat, long: nat): nat { (lat + 1) * (long + 1) }

  function IndexCount(lat: nat, long: nat): nat { lat * long * 6 }

  /** The point at latitude step `la` and longitude step `lo`, scaled by `radius`. */
  function SpherePosition(trig: Trig, radius: real, lat: nat, long: nat, la: nat, lo: nat): Vec3
    requires lat > 0 && long > 0
  {
    var theta := Theta(trig, lat, la);
    var phi := Phi(trig, long, lo);
    SpherePoint(trig.sin(theta), trig.cos(theta), trig.sin(phi), trig.cos(phi), radius)
  }

  /** The polar angle of latitude step `la`: `la` steps of π / lat. */
  function Theta(trig: Trig, lat: nat, la: nat): real
    requires lat > 0
  {
    la as real * trig.pi / lat as real
  }

  /** The azimuth of longitude step `lo`: `lo` steps of 2π / long. */
  function Phi(trig: Trig, long: nat, lo: nat): real
    requires long > 0
  {
    lo as real * 2.0 * trig.pi / long as real
  }

  /**
   * `SIMD3(cosPhi * sinTheta, cosTheta, sinPhi * sinTheta) * radius`: the
   * pole is on the y axis.
   */
  function SpherePoint(sinTheta: real, cosTheta: real, sinPhi: real, cosPhi: real, radius: real): Vec3
  {
    Vec3(cosPhi * sinTheta * radius, cosTheta * radius, sinPhi * sinTheta * radius)
  }

  /** With both angle pairs on the unit circle, the point is at distance `radius`. */
  lemma SpherePointOnSphere(sinTheta: real, cosTheta: real, sinPhi: real, cosPhi: real, radius: real)
    requires sinTheta * sinTheta + cosTheta * cosTheta == 1.0
    requires sinPhi * sinPhi + cosPhi * cosPhi == 1.0
    ensures Dot(SpherePoint(sinTheta, cosTheta, sinPhi, cosPhi, radius),
                SpherePoint(sinTheta, cosTheta, sinPhi, cosPhi, radius)) == radius * radius
  {
    OnSphere(radius, sinTheta, cosTheta, sinPhi, cosPhi);
    var p := SpherePoint(sinTheta, cosTheta, sinPhi, cosPhi, radius);
    assert p.x == radius * sinTheta * cosPhi && p.y == radius * cosTheta && p.z == radius * sinTheta * sinPhi;
  }

  /** The vertex the loops store in slot `k`. */
  function VertexAt(trig: Trig, radius: real, lat: nat, long: nat, k: nat): SphereVertex
    requires lat > 0 && long > 0
  {
    SphereVertex(SpherePosition(trig, radius, lat, long, k / (long + 1), k % (long + 1)), White)
  }

  /** Slot `la * (long + 1) + lo` is a vertex slot holding the vertex of step (la, lo). */
  lemma VertexSlot(trig: Trig, radius: real, lat: nat, long: nat, la: nat, lo: nat)
    requires lat > 0 && long > 0 && la <= lat && lo <= long
    ensures la * (long + 1) + lo < VertexCount(lat, long)
    ensures VertexAt(trig, radius, lat, long, la * (long + 1) + lo)
      == SphereVertex(SpherePosition(trig, radius, lat, long, la, lo), White)
  {
    RowMajor(long + 1, lat + 1, la, lo);
  }

  /** The first `n` vertex slots are written. */
  ghost predicate VerticesDone(buf: seq<SphereVertex>, n: int, trig: Trig, radius: real, lat: nat, long: nat)
    requires lat > 0 && long > 0
  {
    0 <= n <= |buf| && forall k | 0 <= k < n :: buf[k] == VertexAt(trig, radius, lat, long, k)
  }

  lemma VerticesExtend(before: seq<SphereVertex>, after: seq<SphereVertex>, n: nat,
                       trig: Trig, radius: real, lat: nat, long: nat)
    requires lat > 0 && long > 0 && n < |before|
    requires VerticesDone(before, n, trig, radius, lat, long)
    requires after == before[n := VertexAt(trig, radius, lat, long, n)]
    ensures VerticesDone(after, n + 1, trig, radius, lat, long)
  {
  }

  /** The body of the vertex loop: the vertex at (la, lo) goes to slot `vertexIndex`. */
  method StoreVertex(vertices: array<SphereVertex>, vertexIndex: nat, trig: Trig, radius: real,
                     lat: nat, long: nat, la: nat, lo: nat)
    requires lat > 0 && long > 0 && la <= lat && lo <= long
    requires vertices.Length == VertexCount(lat, long)
    requires vertexIndex == la * (long + 1) + lo
    requires VerticesDone(vertices[..], vertexIndex, trig, radius, lat, long)
    modifies vertices
    ensures VerticesDone(vertices[..], vertexIndex + 1, trig, radius, lat, long)
  {
    var position := SpherePosition(trig, radius, lat, long, la, lo);
    VertexSlot(trig, radius, lat, long, la, lo);
    ghost var before := vertices[..];
    vertices[vertexIndex] := SphereVertex(position, White);
    VerticesExtend(before, vertices[..], vertexIndex, trig, radius, lat, long);
  }

  /**
   * The vertex loops: `(lat + 1) * (long + 1)` slots, each written once, in
   * order, with the vertex of its own (latitude, longitude) step.
   */
  method FillSphereVertices(vertices: array<SphereVertex>, trig: Trig, radius: real, lat: nat, long: nat)
    returns (vertexIndex: nat)
    requires lat > 0 && long > 0
    requires vertices.Length == VertexCount(lat, long)
    modifies vertices
    ensures vertexIndex == VertexCount(lat, long)
    ensures forall k | 0 <= k < VertexCount(lat, long) :: vertices[k] == VertexAt(trig, radius, lat, long, k)
  {
    vertexIndex := 0;
    for la := 0 to lat + 1
      invariant vertexIndex == la * (long + 1)
      invariant VerticesDone(vertices[..], vertexIndex, trig, radius, lat, long)
    {
      for lo := 0 to long + 1
        invariant vertexIndex == la * (long + 1) + lo
        invariant VerticesDone(vertices[..], vertexIndex, trig, radius, lat, long)
      {
        StoreVertex(vertices, vertexIndex, trig, radius, lat, long, la, lo);
        vertexIndex := vertexIndex + 1;
      }
    }
  }

  // ---------------------------------------------------------------------
  // Indices.

  /** The six indices of quad (la, lo): triangles (first, second, first+1) and (second, second+1, first+1). */
  function SphereQuad(long: nat, la: nat, lo: nat): seq<int>
  {
    var first := la * (long + 1) + lo;
    var second := first + long + 1;
    [first, second, first + 1, second, second + 1, first + 1]
  }

  /** Quad number `q` in loop order. */
  function QuadPanel(long: nat, q: nat): seq<int>
    requires long > 0
  {
    SphereQuad(long, q / long, q % long)
  }

  /** The index the loops store in slot `k`. */
  function IndexAt(long: nat, k: nat): int
    requires long > 0
  {
    QuadPanel(long, k / 6)[k % 6]
  }

  /** The first `n` entries of `a` are those of the finished index buffer. */
  ghost predicate Filled(a: seq<int>, n: nat, long: nat)
    requires long > 0
  {
    n <= |a| && forall k | 0 <= k < n :: a[k] == IndexAt(long, k)
  }

  /** Writing quad `q` after the quads before it extends the filled prefix. */
  lemma QuadFilled(a: seq<int>, b: seq<int>, long: nat, q: nat)
    requires long > 0 && |a| == |b| && 6 * q + 6 <= |a|
    requires Filled(a, 6 * q, long)
    requires b[..6 * q] == a[..6 * q] && b[6 * q..6 * q + 6] == QuadPanel(long, q)
    ensures Filled(b, 6 * q + 6, long)
  {
    forall k | 0 <= k < 6 * q + 6
      ensures b[k] == IndexAt(long, k)
    {
      if k < 6 * q {
        assert b[k] == b[..6 * q][k];
      } else {
        assert k / 6 == q && k % 6 == k - 6 * q;
        assert b[k] == b[6 * q..6 * q + 6][k - 6 * q];
      }
    }
  }

  /** Quad number `la * long + lo` is quad (la, lo). */
  lemma QuadNumber(lat: nat, long: nat, la: nat, lo: nat)
    requires la < lat && lo < long
    ensures la * long + lo < lat * long
    ensures QuadPanel(long, la * long + lo) == SphereQuad(long, la, lo)
  {
    RowMajor(long, lat, la, lo);
  }

  /**
   * The body of the index loop: the six indices of quad (la, lo), as
   * `UInt32`s, right after those of the quads before it.
   */
  method StoreQuad(indices: array<UInt32>, index: nat, lat: nat, long: nat, la: nat, lo: nat)
    requires VertexCount(lat, long) <= UInt32Limit
    requires la < lat && lo < long
    requires indices.Length == IndexCount(lat, long)
    requires index == 6 * (la * long + lo)
    requires Filled(indices[..], index, long)
    modifies indices
    ensures Filled(indices[..], index + 6, long)
  {
    QuadInRange(lat, long, la, lo);
    QuadNumber(lat, long, la, lo);
    var first := (la * (long + 1)) + lo;
    var second := first + long + 1;
    assert second + 1 < UInt32Limit;
    ghost var before := indices[..];
    StoreSix(indices, index, [first, second, first + 1, second, second + 1, first + 1]);
    QuadFilled(before, indices[..], long, la * long + lo);
  }

  /** The largest index of quad (la, lo), `second + 1`, still names a vertex. */
  lemma QuadInRange(lat: nat, long: nat, la: nat, lo: nat)
    requires la < lat && lo < long
    ensures la * (long + 1) + lo + long + 2 < VertexCount(lat, long)
  {
    assert la * (long + 1) + lo + long + 2 < (la + 2) * (long + 1);
    MulMonotone(la + 2, lat + 1, long + 1);
  }

  /**
   * The index loops: `lat * long * 6` slots, each written once, in order,
   * with the indices of its own quad.
   */
  method FillSphereIndices(indices: array<UInt32>, lat: nat, long: nat) returns (index: nat)
    requires lat > 0 && long > 0
    requires VertexCount(lat, long) <= UInt32Limit
    requires indices.Length == IndexCount(lat, long)
    modifies indices
    ensures index == IndexCount(lat, long)
    ensures forall k | 0 <= k < IndexCount(lat, long) :: indices[k] == IndexAt(long, k)
  {
    index := 0;
    ghost var q := 0;
    for la := 0 to lat
      invariant index == 6 * q && q == la * long
      invariant Filled(indices[..], index, long)
    {
      for lo := 0 to long
        invariant index == 6 * q && q == la * long + lo
        invariant Filled(indices[..], index, long)
      {
        StoreQuad(indices, index, lat, long, la, lo);
        index := index + 6;
        q := q + 1;
      }
      assert la * long + long == (la + 1) * long;
    }
  }

  // ---------------------------------------------------------------------
  // What the buffers promise.

  /** The index buffer is read three slots at a time: triangle `h` of quad `q` is slots `6q + 3h ..`. */
  lemma TriangleInBuffer(lat: nat, long: nat, q: nat, h: nat)
    requires long > 0 && q < lat * long && h < 2
    ensures 6 * q + 3 * h + 2 < IndexCount(lat, long)
    ensures Half(QuadPanel(long, q), h)
      == [IndexAt(long, 6 * q + 3 * h), IndexAt(long, 6 * q + 3 * h + 1), IndexAt(long, 6 * q + 3 * h + 2)]
  {
    assert (6 * q + 3 * h) / 6 == q && (6 * q + 3 * h) % 6 == 3 * h;
    assert (6 * q + 3 * h + 1) / 6 == q && (6 * q + 3 * h + 1) % 6 == 3 * h + 1;
    assert (6 * q + 3 * h + 2) / 6 == q && (6 * q + 3 * h + 2) % 6 == 3 * h + 2;
  }

  /** Every stored index names one of the `(lat + 1) * (long + 1)` vertices. */
  lemma {:induction false} IndexInRange(lat: nat, long: nat, k: nat)
    requires lat > 0 && long > 0 && k < IndexCount(lat, long)
    ensures 0 <= IndexAt(long, k) < VertexCount(lat, long)
  {
    var q := k / 6;
    assert q < lat * long;
    var la, lo := q / long, q % long;
    if la >= lat {
      MulMonotone(lat, la, long);
      assert false;
    }
    QuadInRange(lat, long, la, lo);
  }

  /** The three corners of every triangle are distinct vertices, since `long >= 1`. */
  lemma TriangleNondegenerate(long: nat, q: nat, h: nat)
    requires long > 0 && h < 2
    ensures Distinct3(Half(QuadPanel(long, q), h))
  {
  }

  /** The triangle count: a third of the index count, two per quad. */
  lemma TriangleCount(lat: nat, long: nat)
    ensures IndexCount(lat, long) / 3 == 2 * lat * long
  {
    assert IndexCount(lat, long) == 3 * (2 * lat * long);
  }

  /** `BoundingBox(min: [-radius, -radius, -radius], max: [radius, radius, radius])`. */
  function SphereBounds(radius: real): (b: BoundingBox)
    ensures b.min == Scale(-1.0, b.max)
    ensures b.max.x == b.max.y == b.max.z == radius
  {
    BoundingBox(Vec3(-radius, -radius, -radius), Vec3(radius, radius, radius))
  }

  /** Every vertex lies on the sphere of the given radius. */
  lemma PositionOnSphere(trig: Trig, radius: real, lat: nat, long: nat, la: nat, lo: nat)
    requires lat > 0 && long > 0 && Pythagorean(trig)
    ensures Dot(SpherePosition(trig, radius, lat, long, la, lo), SpherePosition(trig, radius, lat, long, la, lo))
      == radius * radius
  {
    var theta, phi := Theta(trig, lat, la), Phi(trig, long, lo);
    SpherePointOnSphere(trig.sin(theta), trig.cos(theta), trig.sin(phi), trig.cos(phi), radius);
  }

  /** The declared bounds contain every vertex of a sphere of non-negative radius. */
  lemma VertexInBounds(trig: Trig, radius: real, lat: nat, long: nat, k: nat)
    requires lat > 0 && long > 0 && Pythagorean(trig) && radius >= 0.0
    ensures Contains(SphereBounds(radius), VertexAt(trig, radius, lat, long, k).position)
  {
    var p := VertexAt(trig, radius, lat, long, k).position;
    PositionOnSphere(trig, radius, lat, long, k / (long + 1), k % (long + 1));
    InCube(p, radius);
  }

  /**
   * `generateSpecificSphere`: a vertex buffer and an index buffer of the
   * sizes the descriptor declares, filled by the loops, described by one
   * part of triangles inside the radius cube. `UInt32(_)` traps on an index
   * of `2^32` or more, so the vertex count must stay below that.
   */
  method GenerateSpecificSphere(radius: real, lat: nat, long: nat, trig: Trig)
    returns (vertices: array<SphereVertex>, indices: array<UInt32>, parts: seq<Part>)
    requires lat > 0 && long > 0
    requires VertexCount(lat, long) <= UInt32Limit
    ensures fresh(vertices) && fresh(indices)
    ensures vertices.Length == VertexCount(lat, long) && indices.Length == IndexCount(lat, long)
    ensures forall k | 0 <= k < VertexCount(lat, long) :: vertices[k] == VertexAt(trig, radius, lat, long, k)
    ensures forall k | 0 <= k < IndexCount(lat, long) :: indices[k] == IndexAt(long, k)
    ensures parts == [Part(IndexCount(lat, long), Triangle, SphereBounds(radius))]
  {
    vertices := new SphereVertex[VertexCount(lat, long)](_ => SphereVertex(Vec3(0.0, 0.0, 0.0), 0));
    indices := new UInt32[IndexCount(lat, long)](_ => 0);
    var vertexIndex := FillSphereVertices(vertices, trig, radius, lat, long);
    var index := FillSphereIndices(indices, lat, long);
    parts := [Part(IndexCount(lat, long), Triangle, SphereBounds(radius))];
  }
}
