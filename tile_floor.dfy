/**
 * The tile floors: a square grid of textured plane tiles centred on the
 * origin. The volume view fits an 8 x 8 grid to the smaller side of its
 * window, upright in the x-y plane; the immersive view lays a 16 x 16 grid
 * of 1 m tiles flat on the floor.
 */
module TileFloor {
  import opened Linear
  import GridIndex

  /** The side of the volume view's grid, in tiles. */
  const VolumeGridSize: nat := 8

  /** The side of the immersive view's grid, in tiles. */
  const ImmersiveGridSize: nat := 16

  /** The immersive view's tile side, in metres. */
  const ImmersiveTileSize: real := 1.0

  /** A rotation given as an angle about an axis. */
  datatype Rotation = NoRotation | AxisAngle(angle: real, axis: Vec3)

  /** A tile: the translation and rotation of its entity, and the side of its square mesh. */
  datatype Tile = Tile(translation: Vec3, rotation: Rotation, side: real)

  /**
   * The centring formula shared by both views: the offset of column (or
   * row) `i` of a `gridSize`-tile grid of `tileSize` tiles.
   */
  function Offset(gridSize: nat, tileSize: real, i: nat): real
  {
    i as real * tileSize - (gridSize as int - 1) as real * tileSize / 2.0
  }

  /** Offsets mirror about the centre: column `i` against column `gridSize - 1 - i`. */
  lemma OffsetsSymmetric(gridSize: nat, tileSize: real, i: nat)
    requires i < gridSize
    ensures Offset(gridSize, tileSize, i) == -Offset(gridSize, tileSize, gridSize - 1 - i)
  {
    var j := gridSize - 1 - i;
    assert i as real * tileSize + j as real * tileSize == (gridSize as int - 1) as real * tileSize;
  }

  /** Neighbouring columns are exactly one tile apart. */
  lemma AdjacentSpacing(gridSize: nat, tileSize: real, i: nat)
    ensures Offset(gridSize, tileSize, i + 1) - Offset(gridSize, tileSize, i) == tileSize
  {
    assert (i + 1) as real * tileSize == i as real * tileSize + tileSize;
  }

  /** With tiles of positive size, different columns have different offsets. */
  lemma OffsetInjective(gridSize: nat, tileSize: real, i: nat, j: nat)
    requires tileSize > 0.0
    requires Offset(gridSize, tileSize, i) == Offset(gridSize, tileSize, j)
    ensures i == j
  {
    assert (i as real - j as real) * tileSize == 0.0;
  }

  /**
   * Every tile lies inside the square of side `gridSize * tileSize`
   * centred on the origin: its edges are within half that side.
   */
  lemma TileWithinGrid(gridSize: nat, tileSize: real, i: nat)
    requires i < gridSize && 0.0 <= tileSize
    ensures -(gridSize as real * tileSize) / 2.0 <= Offset(gridSize, tileSize, i) - tileSize / 2.0
    ensures Offset(gridSize, tileSize, i) + tileSize / 2.0 <= (gridSize as real * tileSize) / 2.0
  {
    MulNonneg(i as real, tileSize);
    MulNonneg(gridSize as real - (i + 1) as real, tileSize);
    assert (gridSize as real - (i + 1) as real) * tileSize == gridSize as real * tileSize - (i + 1) as real * tileSize;
    assert (i + 1) as real * tileSize == i as real * tileSize + tileSize;
  }

  // ---------------------------------------------------------------------
  // The volume view.

  /** The volume view's tile side: the smaller of the window's width and height, over 8. */
  function VolumeTileSize(size: Vec3): (t: real)
    ensures VolumeGridSize as real * t == if size.x <= size.y then size.x else size.y
  {
    (if size.x <= size.y then size.x else size.y) / VolumeGridSize as real
  }

  /** The volume view's tile at `row`, `column`: upright, at z = 0. */
  function VolumeTile(tileSize: real, row: nat, column: nat): Tile
  {
    Tile(Vec3(Offset(VolumeGridSize, tileSize, column), Offset(VolumeGridSize, tileSize, row), 0.0),
         NoRotation, tileSize)
  }

  /**
   * The volume view's `RealityView` closure: the tiles it adds to the
   * content, row by row.
   */
  method VolumeGrid(size: Vec3) returns (tiles: seq<Tile>)
    ensures |tiles| == VolumeGridSize * VolumeGridSize
    ensures forall k | 0 <= k < |tiles| ::
      tiles[k] == VolumeTile(VolumeTileSize(size), k / VolumeGridSize, k % VolumeGridSize)
  {
    var gridSize := VolumeGridSize;
    var tileSize := (if size.x <= size.y then size.x else size.y) / gridSize as real;
    tiles := [];
    for row := 0 to gridSize
      invariant |tiles| == row * gridSize
      invariant forall k | 0 <= k < |tiles| :: tiles[k] == VolumeTile(tileSize, k / gridSize, k % gridSize)
    {
      for column := 0 to gridSize
        invariant |tiles| == row * gridSize + column
        invariant forall k | 0 <= k < |tiles| :: tiles[k] == VolumeTile(tileSize, k / gridSize, k % gridSize)
      {
        var x := column as real * tileSize - (gridSize - 1) as real * tileSize / 2.0;
        var y := row as real * tileSize - (gridSize - 1) as real * tileSize / 2.0;
        GridIndex.RowMajor(gridSize, gridSize, row, column);
        assert Tile(Vec3(x, y, 0.0), NoRotation, tileSize) == VolumeTile(tileSize, row, column);
        tiles := tiles + [Tile(Vec3(x, y, 0.0), NoRotation, tileSize)];
      }
    }
  }

  /**
   * The volume grid exactly spans the window's smaller side, and every tile
   * stays within it, at z = 0.
   */
  lemma VolumeGridFits(size: Vec3, row: nat, column: nat)
    requires row < VolumeGridSize && column < VolumeGridSize
    requires 0.0 <= size.x && 0.0 <= size.y
    ensures var t := VolumeTileSize(size);
      var half := (if size.x <= size.y then size.x else size.y) / 2.0;
      var tile := VolumeTile(t, row, column);
      && -half <= tile.translation.x - t / 2.0 && tile.translation.x + t / 2.0 <= half
      && -half <= tile.translation.y - t / 2.0 && tile.translation.y + t / 2.0 <= half
      && tile.translation.z == 0.0
  {
    var t := VolumeTileSize(size);
    TileWithinGrid(VolumeGridSize, t, row);
    TileWithinGrid(VolumeGridSize, t, column);
  }

  // ---------------------------------------------------------------------
  // The immersive view.

  /** The immersive view's tile at `row`, `column`: on the floor, turned a quarter about x. */
  function ImmersiveTile(pi: real, row: nat, column: nat): Tile
  {
    Tile(Vec3(Offset(ImmersiveGridSize, ImmersiveTileSize, column), 0.0,
              Offset(ImmersiveGridSize, ImmersiveTileSize, row)),
         AxisAngle(-pi * 0.5, Vec3(1.0, 0.0, 0.0)), ImmersiveTileSize)
  }

  /** The immersive view's `RealityView` closure; `pi` is `Float.pi`. */
  method ImmersiveGrid(pi: real) returns (tiles: seq<Tile>)
    ensures |tiles| == ImmersiveGridSize * ImmersiveGridSize
    ensures forall k | 0 <= k < |tiles| ::
      tiles[k] == ImmersiveTile(pi, k / ImmersiveGridSize, k % ImmersiveGridSize)
  {
    var gridSize := ImmersiveGridSize;
    var tileSize := ImmersiveTileSize;
    tiles := [];
    for row := 0 to gridSize
      invariant |tiles| == row * gridSize
      invariant forall k | 0 <= k < |tiles| :: tiles[k] == ImmersiveTile(pi, k / gridSize, k % gridSize)
    {
      for column := 0 to gridSize
        invariant |tiles| == row * gridSize + column
        invariant forall k | 0 <= k < |tiles| :: tiles[k] == ImmersiveTile(pi, k / gridSize, k % gridSize)
      {
        var x := column as real * tileSize - (gridSize - 1) as real * tileSize / 2.0;
        var z := row as real * tileSize - (gridSize - 1) as real * tileSize / 2.0;
        GridIndex.RowMajor(gridSize, gridSize, row, column);
        tiles := tiles + [Tile(Vec3(x, 0.0, z), AxisAngle(-pi * 0.5, Vec3(1.0, 0.0, 0.0)), tileSize)];
      }
    }
  }

  /**
   * Immersive tiles lie on the floor (y = 0), share one rotation, and cover
   * the 16 m square centred on the origin, from -8 to 8 on x and z.
   */
  lemma ImmersiveTilesOnFloor(pi: real, row: nat, column: nat)
    requires row < ImmersiveGridSize && column < ImmersiveGridSize
    ensures var tile := ImmersiveTile(pi, row, column);
      && tile.translation.y == 0.0
      && tile.rotation == ImmersiveTile(pi, 0, 0).rotation
      && -8.0 <= tile.translation.x - 0.5 && tile.translation.x + 0.5 <= 8.0
      && -8.0 <= tile.translation.z - 0.5 && tile.translation.z + 0.5 <= 8.0
  {
    TileWithinGrid(ImmersiveGridSize, ImmersiveTileSize, row);
    TileWithinGrid(ImmersiveGridSize, ImmersiveTileSize, column);
  }

  /** Distinct grid cells get distinct tiles in both views. */
  lemma CellsDistinct(tileSize: real, pi: real, r1: nat, c1: nat, r2: nat, c2: nat)
    requires tileSize > 0.0
    requires (r1, c1) != (r2, c2)
    ensures VolumeTile(tileSize, r1, c1).translation != VolumeTile(tileSize, r2, c2).translation
    ensures ImmersiveTile(pi, r1, c1).translation != ImmersiveTile(pi, r2, c2).translation
  {
    if Offset(VolumeGridSize, tileSize, c1) == Offset(VolumeGridSize, tileSize, c2) &&
       Offset(VolumeGridSize, tileSize, r1) == Offset(VolumeGridSize, tileSize, r2) {
      OffsetInjective(VolumeGridSize, tileSize, c1, c2);
      OffsetInjective(VolumeGridSize, tileSize, r1, r2);
    }
    if Offset(ImmersiveGridSize, ImmersiveTileSize, c1) == Offset(ImmersiveGridSize, ImmersiveTileSize, c2) &&
       Offset(ImmersiveGridSize, ImmersiveTileSize, r1) == Offset(ImmersiveGridSize, ImmersiveTileSize, r2) {
      OffsetInjective(ImmersiveGridSize, ImmersiveTileSize, c1, c2);
      OffsetInjective(ImmersiveGridSize, ImmersiveTileSize, r1, r2);
    }
  }
}
