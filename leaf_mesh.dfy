/**
 * The leaf blade of the breathing-leaves scene (`Entity.leafMesh`): a vertex
 * buffer holding a front and a back surface sampled on a grid of
 * `(WidthSegments + 1) x (HeightSegments + 1)` points plus a strip of four
 * side vertices per row, and a `UInt32` index buffer of triangles over them.
 * The buffers are filled by nested loops advancing a counter, as in the
 * source, whose segment counts are the constants 3 and 12.
 */
module LeafMesh {
  import opened Linear
  import opened MeshBuffers

  const WidthSegments: nat := 3
  const HeightSegments: nat := 12
  const Depth: real := 0.05

  /** How far the blade's midline bulges along z at its widest: `sin(v * pi) * 0.15`. */
  const ZCurve: real := 0.15

  const VertsPerSurface: nat := (WidthSegments + 1) * (HeightSegments + 1)

  const VertexCount: nat := (WidthSegments + 1) * (HeightSegments + 1) * 2 + (HeightSegments + 1) * 4

  const IndexCount: nat := WidthSegments * HeightSegments * 12 + HeightSegments * 12

  /**
   * The value of `sin(v * pi)` for the sample `v`. Sine is not computed here:
   * the shape takes it as a parameter, and what the bounds need of it is that
   * it lies in `[0, 1]` on `[0, 1]`.
   */
  ghost predicate IsSinPiOnUnit(sinPi: real -> real)
  {
    forall v :: 0.0 <= v <= 1.0 ==> 0.0 <= sinPi(v) <= 1.0
  }

  /**
   * `leafShape(v, u)`: the point of a blade of the given height at height
   * fraction `v` and width fraction `u`. The width follows a sine bulge
   * trimmed by `0.3 (1 - v)^2` at the top and `0.9 v^2` at the bottom, and
   * the midline curves along z by `0.15 sin(v pi)`.
   */
  function LeafShape(height: real, sinPi: real -> real, v: real, u: real): Vec3
  {
    Vec3((u - 0.5) * LeafWidth(height, sinPi, v), v * height - height / 2.0, sinPi(v) * ZCurve)
  }

  /**
   * The blade's width at height fraction `v`: the sine bulge `curve`, trimmed,
   * times the full width `height * 0.5`.
   */
  function LeafWidth(height: real, sinPi: real -> real, v: real): real
  {
    sinPi(v) * Trim(v) * (height * 0.5)
  }

  /**
   * The factor trimming the sine bulge of the width at height fraction `v`:
   * `0.3 (1 - v)^2` off for a larger top end, `0.9 v^2` off for a smaller
   * bottom end.
   */
  function Trim(v: real): real
  {
    var topAdjust := (1.0 - v) * (1.0 - v) * 0.3;
    var bottomAdjust := v * v * 0.9;
    1.0 - topAdjust - bottomAdjust
  }

  /** The z offset of the front (0) and back (1) face. */
  function FaceOffset(face: nat): real
  {
    if face == 0 then Depth / 2.0 else -Depth / 2.0
  }

  /**
   * A vertex of the buffer, recorded by what its position is computed from:
   * the shape's sample `(v, u)` and the z offset `dz` of its face.
   */
  datatype LeafVertex = LeafVertex(v: real, u: real, dz: real)

  /** Where a vertex lies: `leafShape(v, u)` moved by `dz` along z. */
  function Position(height: real, sinPi: real -> real, p: LeafVertex): Vec3
  {
    Add(LeafShape(height, sinPi, p.v, p.u), Vec3(0.0, 0.0, p.dz))
  }

  /** The vertex of surface `s` at row `i`, column `j`. */
  function SurfaceVertex(s: nat, i: nat, j: nat): LeafVertex
  {
    LeafVertex(i as real / HeightSegments as real, j as real / WidthSegments as real, FaceOffset(s))
  }

  /**
   * Side vertex `m` of row `i`: left front, left back, right front and right
   * back for `m` = 0, 1, 2, 3.
   */
  function SideVertex(i: nat, m: nat): LeafVertex
  {
    LeafVertex(i as real / HeightSegments as real, if m < 2 then 0.0 else 1.0, FaceOffset(m % 2))
  }

  /** Where vertex `(s, i, j)` of the surfaces is stored. */
  function SurfaceSlot(s: nat, i: nat, j: nat): (k: nat)
    requires s < 2 && i <= HeightSegments && j <= WidthSegments
    ensures s * VertsPerSurface <= k < (s + 1) * VertsPerSurface
  {
    s * VertsPerSurface + i * (WidthSegments + 1) + j
  }

  /** Where side vertex `m` of row `i` is stored: after both surfaces. */
  function SideSlot(i: nat, m: nat): (k: nat)
    requires i <= HeightSegments && m < 4
    ensures 2 * VertsPerSurface <= k < VertexCount
  {
    2 * VertsPerSurface + i * 4 + m
  }

  /**
   * The vertex stored at position `k` of the buffer: positions below
   * `2 * VertsPerSurface` hold the two surfaces row by row, the rest hold the
   * side vertices four to a row.
   */
  function VertexAt(k: nat): LeafVertex
    requires k < VertexCount
  {
    if k < 2 * VertsPerSurface then
      SurfaceVertex(k / VertsPerSurface, k % VertsPerSurface / (WidthSegments + 1), k % (WidthSegments + 1))
    else
      SideVertex((k - 2 * VertsPerSurface) / 4, (k - 2 * VertsPerSurface) % 4)
  }

  /** The surface vertex `(s, i, j)` is the one stored at its slot. */
  lemma SurfaceSlotHolds(s: nat, i: nat, j: nat)
    requires s < 2 && i <= HeightSegments && j <= WidthSegments
    ensures VertexAt(SurfaceSlot(s, i, j)) == SurfaceVertex(s, i, j)
  {
    assert VertsPerSurface == 52;
    assert i * (WidthSegments + 1) + j < 52;
  }

  /** The side vertex `m` of row `i` is the one stored at its slot. */
  lemma SideSlotHolds(i: nat, m: nat)
    requires i <= HeightSegments && m < 4
    ensures VertexAt(SideSlot(i, m)) == SideVertex(i, m)
  {
  }

  /**
   * The vertex loops of `leafMesh`: both surfaces row by row, then four side
   * vertices per row. The buffer ends up holding `VertexAt` at every
   * position, and the counter ends at the buffer's capacity.
   */
  method FillVertices(vertices: array<LeafVertex>) returns (vertexIndex: nat)
    requires vertices.Length == VertexCount
    modifies vertices
    ensures vertexIndex == VertexCount
    ensures forall k | 0 <= k < VertexCount :: vertices[k] == VertexAt(k)
  {
    vertexIndex := FillSurfaceVertices(vertices);
    vertexIndex := FillSideVertices(vertices, vertexIndex);
  }

  /** The surface loops of `FillVertices`: the front grid, then the back grid. */
  method FillSurfaceVertices(vertices: array<LeafVertex>) returns (vertexIndex: nat)
    requires vertices.Length == VertexCount
    modifies vertices
    ensures vertexIndex == 2 * VertsPerSurface
    ensures forall k | 0 <= k < vertexIndex :: vertices[k] == VertexAt(k)
  {
    vertexIndex := 0;
    for surface := 0 to 2
      invariant vertexIndex == surface * VertsPerSurface
      invariant forall k | 0 <= k < vertexIndex :: vertices[k] == VertexAt(k)
    {
      for i := 0 to HeightSegments + 1
        invariant vertexIndex == surface * VertsPerSurface + i * (WidthSegments + 1)
        invariant forall k | 0 <= k < vertexIndex :: vertices[k] == VertexAt(k)
      {
        for j := 0 to WidthSegments + 1
          invariant vertexIndex == surface * VertsPerSurface + i * (WidthSegments + 1) + j
          invariant forall k | 0 <= k < vertexIndex :: vertices[k] == VertexAt(k)
        {
          SurfaceSlotHolds(surface, i, j);
          vertices[vertexIndex] := SurfaceVertex(surface, i, j);
          vertexIndex := vertexIndex + 1;
        }
      }
    }
  }

  /** The side loop of `FillVertices`: four vertices per row, after both grids. */
  method FillSideVertices(vertices: array<LeafVertex>, start: nat) returns (vertexIndex: nat)
    requires vertices.Length == VertexCount && start == 2 * VertsPerSurface
    requires forall k | 0 <= k < start :: vertices[k] == VertexAt(k)
    modifies vertices
    ensures vertexIndex == VertexCount
    ensures forall k | 0 <= k < vertexIndex :: vertices[k] == VertexAt(k)
  {
    vertexIndex := start;
    for i := 0 to HeightSegments + 1
      invariant vertexIndex == 2 * VertsPerSurface + i * 4
      invariant forall k | 0 <= k < vertexIndex :: vertices[k] == VertexAt(k)
    {
      SideSlotHolds(i, 0);
      SideSlotHolds(i, 1);
      SideSlotHolds(i, 2);
      SideSlotHolds(i, 3);
      vertices[vertexIndex] := SideVertex(i, 0);
      vertices[vertexIndex + 1] := SideVertex(i, 1);
      vertices[vertexIndex + 2] := SideVertex(i, 2);
      vertices[vertexIndex + 3] := SideVertex(i, 3);
      vertexIndex := vertexIndex + 4;
    }
  }

  /** The quads of one surface: one per cell of the grid. */
  const QuadsPerSurface: nat := WidthSegments * HeightSegments

  /**
   * The index buffer is a run of panels of six indices (two triangles): the
   * quads of the front surface, those of the back surface, then the left
   * and the right wall of each row of sides.
   */
  const PanelCount: nat := 2 * QuadsPerSurface + 2 * HeightSegments

  /**
   * The two triangles of the quad at row `i`, column `j` of surface `s`, with
   * `a`, `b` its corners on row `i` and `c`, `d` those on row `i + 1`:
   * `(a, c, b), (c, d, b)` on the front, `(a, b, c), (c, b, d)` on the back.
   */
  function SurfaceQuad(s: nat, i: nat, j: nat): (q: seq<int>)
    requires s < 2 && i < HeightSegments && j < WidthSegments
    ensures |q| == 6
  {
    var a := SurfaceSlot(s, i, j);
    var b := a + 1;
    var c := SurfaceSlot(s, i + 1, j);
    var d := c + 1;
    if s == 0 then [a, c, b, c, d, b] else [a, b, c, c, b, d]
  }

  /**
   * The two triangles of wall `w` (0 left, 1 right) of side row `i`: with `a`,
   * `b` the left front and back side vertices of row `i` and `c`, `d` those
   * of row `i + 1`, the left wall is `(a, c, b), (b, c, d)` and the right
   * wall `(a, b, c), (b, d, c)` moved two vertices on.
   */
  function SideWall(i: nat, w: nat): (q: seq<int>)
    requires i < HeightSegments && w < 2
    ensures |q| == 6
  {
    var a := SideSlot(i, 0);
    var b := a + 1;
    var c := a + 4;
    var d := c + 1;
    if w == 0 then [a, c, b, b, c, d] else [a + 2, b + 2, c + 2, b + 2, d + 2, c + 2]
  }

  /** The panel number of quad `(s, i, j)`. */
  function QuadPanel(s: nat, i: nat, j: nat): (p: nat)
    requires s < 2 && i < HeightSegments && j < WidthSegments
    ensures p < 2 * QuadsPerSurface
  {
    s * QuadsPerSurface + i * WidthSegments + j
  }

  /** The panel number of wall `w` of side row `i`. */
  function WallPanel(i: nat, w: nat): (p: nat)
    requires i < HeightSegments && w < 2
    ensures 2 * QuadsPerSurface <= p < PanelCount
  {
    2 * QuadsPerSurface + i * 2 + w
  }

  /** Panel `p` of the index buffer, in the order the loops write them. */
  function Panel(p: nat): (q: seq<int>)
    requires p < PanelCount
    ensures |q| == 6
  {
    if p < 2 * QuadsPerSurface then
      SurfaceQuad(p / QuadsPerSurface, p % QuadsPerSurface / WidthSegments, p % WidthSegments)
    else
      SideWall((p - 2 * QuadsPerSurface) / 2, (p - 2 * QuadsPerSurface) % 2)
  }

  /** The index stored at position `k` of the buffer. */
  function IndexAt(k: nat): int
    requires k < IndexCount
  {
    Panel(k / 6)[k % 6]
  }

  lemma QuadPanelHolds(s: nat, i: nat, j: nat)
    requires s < 2 && i < HeightSegments && j < WidthSegments
    ensures Panel(QuadPanel(s, i, j)) == SurfaceQuad(s, i, j)
  {
    assert QuadsPerSurface == 36;
    assert i * WidthSegments + j < 36;
  }

  lemma WallPanelHolds(i: nat, w: nat)
    requires i < HeightSegments && w < 2
    ensures Panel(WallPanel(i, w)) == SideWall(i, w)
  {
  }

  /** The first `n` entries of `a` are those of the finished index buffer. */
  ghost predicate Filled(a: seq<int>, n: nat)
  {
    n <= |a| && n <= IndexCount && forall k | 0 <= k < n :: a[k] == IndexAt(k)
  }

  /** Writing panel `p` after the panels before it extends the filled prefix. */
  lemma PanelFilled(a: seq<int>, b: seq<int>, p: nat)
    requires p < PanelCount && |a| == |b| == IndexCount
    requires Filled(a, 6 * p)
    requires b[..6 * p] == a[..6 * p] && b[6 * p..6 * p + 6] == Panel(p)
    ensures Filled(b, 6 * p + 6)
  {
    forall k | 0 <= k < 6 * p + 6
      ensures b[k] == IndexAt(k)
    {
      if k < 6 * p {
        assert b[k] == b[..6 * p][k];
      } else {
        assert k / 6 == p && k % 6 == k - 6 * p;
        assert b[k] == b[6 * p..6 * p + 6][k - 6 * p];
      }
    }
  }

  /**
   * The index loops of `leafMesh`: six indices per quad of each surface, then
   * twelve per row of sides. The buffer ends up holding `IndexAt` at every
   * position and the counter ends at the buffer's capacity; every conversion
   * to `UInt32` is in range.
   */
  method FillIndices(indices: array<UInt32>) returns (index: nat)
    requires indices.Length == IndexCount
    modifies indices
    ensures index == IndexCount
    ensures forall k | 0 <= k < IndexCount :: indices[k] == IndexAt(k)
  {
    index := FillSurfaceIndices(indices);
    index := FillSideIndices(indices, index);
    assert forall k | 0 <= k < IndexCount :: indices[..][k] == IndexAt(k);
  }

  /** The surface loops of `FillIndices`: the quads of the front, then of the back surface. */
  method FillSurfaceIndices(indices: array<UInt32>) returns (index: nat)
    requires indices.Length == IndexCount
    modifies indices
    ensures index == 6 * (2 * QuadsPerSurface)
    ensures Filled(indices[..], index)
  {
    index := 0;
    for surface := 0 to 2
      invariant index == 6 * (surface * QuadsPerSurface)
      invariant Filled(indices[..], index)
    {
      for i := 0 to HeightSegments
        invariant index == 6 * (surface * QuadsPerSurface + i * WidthSegments)
        invariant Filled(indices[..], index)
      {
        for j := 0 to WidthSegments
          invariant index == 6 * (surface * QuadsPerSurface + i * WidthSegments + j)
          invariant Filled(indices[..], index)
        {
          ghost var before := indices[..];
          StoreQuad(indices, index, surface, i, j);
          QuadPanelHolds(surface, i, j);
          PanelFilled(before, indices[..], QuadPanel(surface, i, j));
          index := index + 6;
        }
      }
    }
  }

  /** The side loop of `FillIndices`: the left and right wall of each row, after the surfaces. */
  method FillSideIndices(indices: array<UInt32>, start: nat) returns (index: nat)
    requires indices.Length == IndexCount
    requires start == 6 * (2 * QuadsPerSurface) && Filled(indices[..], start)
    modifies indices
    ensures index == IndexCount
    ensures Filled(indices[..], index)
  {
    index := start;
    for i := 0 to HeightSegments
      invariant index == 6 * (2 * QuadsPerSurface + i * 2)
      invariant Filled(indices[..], index)
    {
      ghost var before := indices[..];
      StoreWall(indices, index, i, 0);
      WallPanelHolds(i, 0);
      PanelFilled(before, indices[..], WallPanel(i, 0));
      before := indices[..];
      StoreWall(indices, index + 6, i, 1);
      WallPanelHolds(i, 1);
      PanelFilled(before, indices[..], WallPanel(i, 1));
      index := index + 12;
    }
  }

  /**
   * The body of the surface loops: the corners `a`, `b`, `c`, `d` of quad
   * `(surface, i, j)` and its two triangles, written at `index`.
   */
  method StoreQuad(indices: array<UInt32>, index: nat, surface: nat, i: nat, j: nat)
    requires surface < 2 && i < HeightSegments && j < WidthSegments
    requires index + 6 <= indices.Length
    modifies indices
    ensures indices[..index] == old(indices[..index])
    ensures indices[index..index + 6] == SurfaceQuad(surface, i, j)
  {
    var surfaceOffset := surface * VertsPerSurface;
    var a := surfaceOffset + i * (WidthSegments + 1) + j;
    var b := a + 1;
    var c := surfaceOffset + (i + 1) * (WidthSegments + 1) + j;
    var d := c + 1;
    if surface == 0 {
      StoreSix(indices, index, [a, c, b, c, d, b]);
    } else {
      StoreSix(indices, index, [a, b, c, c, b, d]);
    }
  }

  /**
   * Half of the body of the side loop: the left wall (`wall` 0) of row `i`,
   * or the right wall (`wall` 1), on the vertices two further on.
   */
  method StoreWall(indices: array<UInt32>, index: nat, i: nat, wall: nat)
    requires i < HeightSegments && wall < 2
    requires index + 6 <= indices.Length
    modifies indices
    ensures indices[..index] == old(indices[..index])
    ensures indices[index..index + 6] == SideWall(i, wall)
  {
    var sideVertexStart := VertsPerSurface * 2;
    var a := sideVertexStart + i * 4;
    var b := a + 1;
    var c := a + 4;
    var d := c + 1;
    if wall == 0 {
      StoreSix(indices, index, [a, c, b, b, c, d]);
    } else {
      StoreSix(indices, index, [a + 2, b + 2, c + 2, b + 2, d + 2, c + 2]);
    }
  }

  /** Triangle `h` of panel `p`: triangle `2 * p + h` of the index buffer. */
  function PanelTriangle(p: nat, h: nat): (t: seq<int>)
    requires p < PanelCount && h < 2
    ensures |t| == 3
  {
    Half(Panel(p), h)
  }

  /** Triangle `h` of panel `p` is entries `6p + 3h` to `6p + 3h + 2` of the buffer. */
  lemma TriangleInBuffer(p: nat, h: nat)
    requires p < PanelCount && h < 2
    ensures 6 * p + 3 * h + 2 < IndexCount
    ensures PanelTriangle(p, h) == [IndexAt(6 * p + 3 * h), IndexAt(6 * p + 3 * h + 1), IndexAt(6 * p + 3 * h + 2)]
  {
    assert (6 * p + 3 * h) / 6 == p && (6 * p + 3 * h) % 6 == 3 * h;
    assert (6 * p + 3 * h + 1) / 6 == p && (6 * p + 3 * h + 1) % 6 == 3 * h + 1;
    assert (6 * p + 3 * h + 2) / 6 == p && (6 * p + 3 * h + 2) % 6 == 3 * h + 2;
  }

  /** A quad's six indices stay inside the block of its own surface. */
  lemma QuadWithinSurface(s: nat, i: nat, j: nat)
    requires s < 2 && i < HeightSegments && j < WidthSegments
    ensures forall t | 0 <= t < 6 :: s * VertsPerSurface <= SurfaceQuad(s, i, j)[t] < (s + 1) * VertsPerSurface
  {
    assert (i + 1) * (WidthSegments + 1) + j + 1 < VertsPerSurface;
  }

  /** A wall's six indices stay among the side vertices. */
  lemma WallWithinSides(i: nat, w: nat)
    requires i < HeightSegments && w < 2
    ensures forall t | 0 <= t < 6 :: 2 * VertsPerSurface <= SideWall(i, w)[t] < VertexCount
  {
  }

  /**
   * Every index of the buffer names a vertex of the buffer: the indices of
   * the surface quads lie in their own surface's block of `VertsPerSurface`
   * vertices, those of the walls in the side strip after both surfaces.
   */
  lemma {:induction false} IndexInRange(k: nat)
    requires k < IndexCount
    ensures 0 <= IndexAt(k) < VertexCount
    ensures k < 6 * (2 * QuadsPerSurface) ==>
      var s := k / (6 * QuadsPerSurface);
      s * VertsPerSurface <= IndexAt(k) < (s + 1) * VertsPerSurface
    ensures 6 * (2 * QuadsPerSurface) <= k ==> 2 * VertsPerSurface <= IndexAt(k)
  {
    PanelInRange(k / 6);
    assert k / (6 * QuadsPerSurface) == k / 6 / QuadsPerSurface;
  }

  /** The bounds of `IndexInRange`, panel by panel. */
  lemma PanelInRange(p: nat)
    requires p < PanelCount
    ensures p < 2 * QuadsPerSurface ==>
      var s := p / QuadsPerSurface;
      forall t | 0 <= t < 6 :: s * VertsPerSurface <= Panel(p)[t] < (s + 1) * VertsPerSurface
    ensures 2 * QuadsPerSurface <= p ==> forall t | 0 <= t < 6 :: 2 * VertsPerSurface <= Panel(p)[t] < VertexCount
  {
    if p < 2 * QuadsPerSurface {
      QuadWithinSurface(p / QuadsPerSurface, p % QuadsPerSurface / WidthSegments, p % WidthSegments);
    } else {
      WallWithinSides((p - 2 * QuadsPerSurface) / 2, (p - 2 * QuadsPerSurface) % 2);
    }
  }

  /** No triangle of the buffer repeats a vertex. */
  lemma TriangleNondegenerate(p: nat, h: nat)
    requires p < PanelCount && h < 2
    ensures Distinct3(PanelTriangle(p, h))
  {
  }

  /**
   * The back surface is the front surface turned over: each triangle of a
   * back quad is the same triangle of the front quad moved by
   * `VertsPerSurface` and walked the other way round, so the two faces point
   * away from each other.
   */
  lemma BackFaceMirrorsFront(i: nat, j: nat, h: nat)
    requires i < HeightSegments && j < WidthSegments && h < 2
    ensures PanelTriangle(QuadPanel(1, i, j), h) == Shifted(Flipped(PanelTriangle(QuadPanel(0, i, j), h)), VertsPerSurface)
  {
    QuadPanelHolds(0, i, j);
    QuadPanelHolds(1, i, j);
  }

  /**
   * The right wall of each side row is the left wall moved two vertices on
   * (from the left to the right rim) and walked the other way round.
   */
  lemma RightWallMirrorsLeft(i: nat, h: nat)
    requires i < HeightSegments && h < 2
    ensures PanelTriangle(WallPanel(i, 1), h) == Shifted(Flipped(PanelTriangle(WallPanel(i, 0), h)), 2)
  {
    WallPanelHolds(i, 0);
    WallPanelHolds(i, 1);
  }

  /**
   * The two triangles of every panel share a diagonal and walk it in
   * opposite directions, so each quad is consistently oriented.
   */
  lemma PanelDiagonalShared(p: nat)
    requires p < PanelCount
    ensures var t := PanelTriangle(p, 0);
      HasEdge(t, t[1], t[2]) && HasEdge(PanelTriangle(p, 1), t[2], t[1])
  {
  }

  /**
   * Each side vertex repeats a rim vertex of a surface: the left pair those
   * of column 0, the right pair those of column `WidthSegments`, front then
   * back.
   */
  lemma SideVerticesOnRim(i: nat, m: nat)
    requires i <= HeightSegments && m < 4
    ensures VertexAt(SideSlot(i, m)) == VertexAt(SurfaceSlot(m % 2, i, if m < 2 then 0 else WidthSegments))
  {
    SideSlotHolds(i, m);
    SurfaceSlotHolds(m % 2, i, if m < 2 then 0 else WidthSegments);
  }

  /**
   * The bounds `leafMesh` declares for its part: half the blade's width
   * either side in x, half its height either side in y, and half the depth
   * either side in z.
   */
  function DeclaredBounds(height: real): (b: BoundingBox)
    ensures b.max.z == Depth / 2.0
  {
    var width := height * 0.5;
    BoundingBox(Vec3(-width / 2.0, -height / 2.0, -Depth / 2.0), Vec3(width / 2.0, height / 2.0, Depth / 2.0))
  }

  /** The declared bounds with the top in z raised by the midline's bulge `ZCurve`. */
  function LeafBounds(height: real): (b: BoundingBox)
    ensures b.min == DeclaredBounds(height).min
    ensures b.max == DeclaredBounds(height).max.(z := ZCurve + Depth / 2.0)
  {
    var width := height * 0.5;
    BoundingBox(Vec3(-width / 2.0, -height / 2.0, -Depth / 2.0), Vec3(width / 2.0, height / 2.0, ZCurve + Depth / 2.0))
  }

  /**
   * The declared bounds leave out the front vertex at the middle of the
   * blade's left edge (row 6, where `v = 0.5` and `sin(v * pi) = 1`): it
   * lies at `z = 0.15 + 0.025`, above the declared top `0.025`, whatever the
   * height.
   */
  lemma DeclaredBoundsMissMidline(height: real, sinPi: real -> real)
    requires sinPi(0.5) == 1.0
    ensures VertexAt(SurfaceSlot(0, 6, 0)) == LeafVertex(0.5, 0.0, Depth / 2.0)
    ensures Position(height, sinPi, VertexAt(SurfaceSlot(0, 6, 0))).z == ZCurve + Depth / 2.0
    ensures !Contains(DeclaredBounds(height), Position(height, sinPi, VertexAt(SurfaceSlot(0, 6, 0))))
  {
    SurfaceSlotHolds(0, 6, 0);
  }

  /** The width factor `1 - 0.3 (1 - v)^2 - 0.9 v^2` lies in `[0, 1]` for `v` in `[0, 1]`. */
  lemma TrimInUnit(v: real)
    requires 0.0 <= v <= 1.0
    ensures 0.0 <= Trim(v) <= 1.0
  {
    var f := Trim(v);
    assert f == 0.1 + 0.6 * ((1.0 - v) * (1.0 + 2.0 * v));
    MulNonneg(1.0 - v, 1.0 + 2.0 * v);
    assert 1.0 - f == 1.2 * ((v - 0.25) * (v - 0.25)) + 0.225;
    SquareNonneg(v - 0.25);
  }

  /** The blade is never wider than `height * 0.5`. */
  lemma WidthWithin(height: real, sinPi: real -> real, v: real)
    requires height >= 0.0 && 0.0 <= sinPi(v) <= 1.0 && 0.0 <= v <= 1.0
    ensures 0.0 <= LeafWidth(height, sinPi, v) <= height * 0.5
  {
    TrimInUnit(v);
    MulNonneg(sinPi(v), Trim(v));
    MulNonneg(sinPi(v), 1.0 - Trim(v));
    MulNonneg(1.0 - sinPi(v) * Trim(v), height * 0.5);
    MulNonneg(sinPi(v) * Trim(v), height * 0.5);
  }

  /** The height fraction `v` in `[0, 1]` puts `y` within half the height of the middle. */
  lemma HeightWithin(v: real, height: real)
    requires 0.0 <= v <= 1.0 && height >= 0.0
    ensures -height / 2.0 <= v * height - height / 2.0 <= height / 2.0
  {
    MulNonneg(v, height);
    MulNonneg(1.0 - v, height);
    assert (1.0 - v) * height == height - v * height;
  }

  /**
   * The shape sampled in the unit square lies within half the blade's width
   * and height of the middle, and between the flat midline and its bulge
   * `ZCurve` in z, given that `sin(v * pi)` lies in `[0, 1]`.
   */
  lemma ShapeWithin(height: real, sinPi: real -> real, v: real, u: real)
    requires height >= 0.0 && 0.0 <= sinPi(v) <= 1.0
    requires 0.0 <= v <= 1.0 && 0.0 <= u <= 1.0
    ensures -(height * 0.5) / 2.0 <= LeafShape(height, sinPi, v, u).x <= (height * 0.5) / 2.0
    ensures -height / 2.0 <= LeafShape(height, sinPi, v, u).y <= height / 2.0
    ensures 0.0 <= LeafShape(height, sinPi, v, u).z <= ZCurve
  {
    WidthWithin(height, sinPi, v);
    MulNonneg(1.0 - u, LeafWidth(height, sinPi, v));
    MulNonneg(u, LeafWidth(height, sinPi, v));
    HeightWithin(v, height);
  }

  /**
   * Any point of the shape sampled in the unit square and moved by half the
   * depth either way lies inside `LeafBounds`, given that `sin(v * pi)` lies
   * in `[0, 1]`.
   */
  lemma PositionInBounds(height: real, sinPi: real -> real, p: LeafVertex)
    requires height >= 0.0 && IsSinPiOnUnit(sinPi)
    requires 0.0 <= p.v <= 1.0 && 0.0 <= p.u <= 1.0 && (p.dz == Depth / 2.0 || p.dz == -Depth / 2.0)
    ensures Contains(LeafBounds(height), Position(height, sinPi, p))
  {
    ShapeWithin(height, sinPi, p.v, p.u);
  }

  /** Every vertex of the buffer is sampled in the unit square, half the depth off the midline. */
  lemma VertexSampled(k: nat)
    requires k < VertexCount
    ensures 0.0 <= VertexAt(k).v <= 1.0 && 0.0 <= VertexAt(k).u <= 1.0
    ensures VertexAt(k).dz == Depth / 2.0 || VertexAt(k).dz == -Depth / 2.0
  {
    if k < 2 * VertsPerSurface {
      assert k % VertsPerSurface / (WidthSegments + 1) <= HeightSegments;
    }
  }

  /** Every vertex of the buffer lies inside `LeafBounds`. */
  lemma {:induction false} VertexInLeafBounds(height: real, sinPi: real -> real, k: nat)
    requires height >= 0.0 && IsSinPiOnUnit(sinPi) && k < VertexCount
    ensures Contains(LeafBounds(height), Position(height, sinPi, VertexAt(k)))
  {
    VertexSampled(k);
    PositionInBounds(height, sinPi, VertexAt(k));
  }

  /**
   * `leafMesh(height:)` as written: buffers with room for `VertexCount`
   * vertices and `IndexCount` indices, filled by the vertex and index loops,
   * and one part drawing all the indices as triangles, with the bounds the
   * source declares, `DeclaredBounds`, which miss the bulge of the midline
   * (`DeclaredBoundsMissMidline`).
   */
  method MakeLeafMesh(height: real) returns (vertices: array<LeafVertex>, indices: array<UInt32>, parts: seq<Part>)
    ensures fresh(vertices) && fresh(indices)
    ensures vertices.Length == VertexCount && indices.Length == IndexCount
    ensures forall k | 0 <= k < VertexCount :: vertices[k] == VertexAt(k)
    ensures forall k | 0 <= k < IndexCount :: indices[k] == IndexAt(k)
    ensures parts == [Part(IndexCount, Triangle, DeclaredBounds(height))]
  {
    vertices := new LeafVertex[VertexCount](_ => LeafVertex(0.0, 0.0, 0.0));
    indices := new UInt32[IndexCount](_ => 0);
    var vertexIndex := FillVertices(vertices);
    var index := FillIndices(indices);
    parts := [Part(IndexCount, Triangle, DeclaredBounds(height))];
  }

  /**
   * The leaf mesh with the bounds corrected to `LeafBounds`: the same
   * buffers, and a part whose bounds contain every vertex at any height,
   * for any `sinPi` that keeps `sin(v * pi)` in `[0, 1]`.
   */
  method MakeCorrectedLeafMesh(height: real, ghost sinPi: real -> real)
    returns (vertices: array<LeafVertex>, indices: array<UInt32>, parts: seq<Part>)
    requires height >= 0.0 && IsSinPiOnUnit(sinPi)
    ensures fresh(vertices) && fresh(indices)
    ensures vertices.Length == VertexCount && indices.Length == IndexCount
    ensures forall k | 0 <= k < VertexCount :: vertices[k] == VertexAt(k)
    ensures forall k | 0 <= k < IndexCount :: indices[k] == IndexAt(k)
    ensures parts == [Part(IndexCount, Triangle, LeafBounds(height))]
    ensures forall k | 0 <= k < VertexCount :: Contains(parts[0].bounds, Position(height, sinPi, vertices[k]))
  {
    vertices, indices, parts := MakeLeafMesh(height);
    parts := [Part(IndexCount, Triangle, LeafBounds(height))];
    forall k | 0 <= k < VertexCount
      ensures Contains(parts[0].bounds, Position(height, sinPi, vertices[k]))
    {
      VertexInLeafBounds(height, sinPi, k);
    }
  }
}
