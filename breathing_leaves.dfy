/**
 * The rest of the breathing-leaves demo: the Fibonacci lattice that places
 * the leaves on a sphere, the leaf entity each point receives, and the
 * red-shade noise texture. Trigonometry and square roots are parameters
 * (`Trig`), random draws are an oracle (`Draws`).
 */
module BreathingLeaves {
  import opened Linear
  import opened Wrappers
  import opened GridIndex

  /** Number of leaves `getFibonacciLattice` places when not told otherwise. */
  const DefaultEntityCount: nat := 60

  /** The part of a leaf entity the lattice sets up. */
  datatype LeafEntity = LeafEntity(name: string, position: Vec3, scale: Vec3, leafHeight: real)

  datatype EntityPositionPair = EntityPositionPair(entity: LeafEntity, initialPosition: Vec3)

  /**
   * `pedalEntity(boundingBox:)`: an entity named "Leaf" at the origin whose
   * mesh is `LeafMesh.MakeLeafMesh(leafHeight)` and whose depth is scaled by
   * the same tenth of the box height the mesh is built at.
   */
  function PedalEntity(boundingBox: Vec3): (e: LeafEntity)
    ensures e.name == "Leaf"
    ensures e.position == Vec3(0.0, 0.0, 0.0)
    ensures e.scale.x == 1.0 && e.scale.y == 1.0
    ensures e.scale.z == e.leafHeight == boundingBox.y * 0.1
  {
    var leafHeight := boundingBox.y * 0.1;
    LeafEntity("Leaf", Vec3(0.0, 0.0, 0.0), Vec3(1.0, 1.0, boundingBox.y * 0.1), leafHeight)
  }

  /** The cosine of the polar angle of point `i` out of `count`. */
  function CosTheta(i: nat, count: nat): real
  {
    1.0 - 2.0 * (i + 1) as real / (count + 1) as real
  }

  /** The polar angle of lattice point `i`. */
  function Theta(trig: Trig, i: nat, count: nat): real
  {
    trig.acos(CosTheta(i, count))
  }

  /** The azimuth of lattice point `i`: `i` turns of the golden angle. */
  function Phi(trig: Trig, i: nat): real
  {
    i as real * trig.pi * (1.0 + trig.sqrt(5.0))
  }

  /** Lattice point `i` of `count` on the sphere of the given radius. */
  function LatticePoint(trig: Trig, radius: real, i: nat, count: nat): Vec3
  {
    Vec3(radius * trig.sin(Theta(trig, i, count)) * trig.cos(Phi(trig, i)),
         radius * trig.sin(Theta(trig, i, count)) * trig.sin(Phi(trig, i)),
         radius * trig.cos(Theta(trig, i, count)))
  }

  /** The pair the lattice loop builds for point `i`. */
  function LatticePair(trig: Trig, boundingBox: Vec3, i: nat, count: nat): (r: EntityPositionPair)
    ensures r.entity.position == r.initialPosition
    ensures r.initialPosition == LatticePoint(trig, boundingBox.z * 0.45, i, count)
    ensures r.entity == PedalEntity(boundingBox).(position := r.initialPosition)
  {
    var position := LatticePoint(trig, boundingBox.z * 0.45, i, count);
    EntityPositionPair(PedalEntity(boundingBox).(position := position), position)
  }

  /**
   * `getFibonacciLattice(entityCount:boundingBox:)`: one leaf per lattice
   * point, in order, each placed at the point it remembers as its initial
   * position.
   */
  method FibonacciLattice(entityCount: nat, boundingBox: Vec3, trig: Trig)
    returns (entities: seq<EntityPositionPair>)
    ensures |entities| == entityCount
    ensures forall k | 0 <= k < entityCount :: entities[k] == LatticePair(trig, boundingBox, k, entityCount)
    ensures forall k | 0 <= k < entityCount :: entities[k].entity.position == entities[k].initialPosition
  {
    var radius := boundingBox.z * 0.45;
    entities := [];
    for i := 0 to entityCount
      invariant |entities| == i
      invariant forall k | 0 <= k < i :: entities[k] == LatticePair(trig, boundingBox, k, entityCount)
    {
      var theta := trig.acos(1.0 - 2.0 * (i + 1) as real / (entityCount + 1) as real);
      var phi := i as real * trig.pi * (1.0 + trig.sqrt(5.0));
      var x := radius * trig.sin(theta) * trig.cos(phi);
      var y := radius * trig.sin(theta) * trig.sin(phi);
      var z := radius * trig.cos(theta);
      var position := Vec3(x, y, z);
      assert theta == Theta(trig, i, entityCount);
      assert phi == Phi(trig, i);
      assert position == LatticePoint(trig, radius, i, entityCount);
      var entity := PedalEntity(boundingBox);
      entity := entity.(position := position);
      entities := entities + [EntityPositionPair(entity, position)];
    }
  }

  /** The polar cosines lie strictly inside (-1, 1). */
  lemma CosThetaInside(i: nat, count: nat)
    requires i < count
    ensures -1.0 < CosTheta(i, count) < 1.0
  {
    var n := (count + 1) as real;
    assert 0.0 < (i + 1) as real < n;
    assert 0.0 < 2.0 * (i + 1) as real / n < 2.0;
  }

  /** Later points have strictly smaller polar cosines. */
  lemma CosThetaDescends(i: nat, j: nat, count: nat)
    requires i < j
    ensures CosTheta(j, count) < CosTheta(i, count)
  {
    var n := (count + 1) as real;
    assert 2.0 * (i + 1) as real < 2.0 * (j + 1) as real;
    DivMonotone(2.0 * (i + 1) as real, 2.0 * (j + 1) as real, n);
  }

  lemma DivMonotone(a: real, b: real, n: real)
    requires a < b && n > 0.0
    ensures a / n < b / n
  {
    assert b / n - a / n == (b - a) / n;
  }

  /**
   * The lattice points are spread over the sphere in strictly descending
   * height: point `j` lies below point `i` whenever `i < j`.
   */
  lemma LatticeDescends(trig: Trig, radius: real, i: nat, j: nat, count: nat)
    requires CosInvertsAcos(trig) && radius > 0.0
    requires i < j < count
    ensures LatticePoint(trig, radius, j, count).z < LatticePoint(trig, radius, i, count).z
    ensures LatticePoint(trig, radius, i, count).z == radius * CosTheta(i, count)
  {
    CosThetaInside(i, count);
    CosThetaInside(j, count);
    CosThetaDescends(i, j, count);
    assert trig.cos(trig.acos(CosTheta(i, count))) == CosTheta(i, count);
    assert trig.cos(trig.acos(CosTheta(j, count))) == CosTheta(j, count);
  }

  /** Every lattice point lies on the sphere of the given radius. */
  lemma LatticeOnSphere(trig: Trig, radius: real, i: nat, count: nat)
    requires Pythagorean(trig)
    ensures Dot(LatticePoint(trig, radius, i, count), LatticePoint(trig, radius, i, count)) == radius * radius
  {
    var s, c := trig.sin(Theta(trig, i, count)), trig.cos(Theta(trig, i, count));
    var sp, cp := trig.sin(Phi(trig, i)), trig.cos(Phi(trig, i));
    OnSphere(radius, s, c, sp, cp);
  }

  // ---------------------------------------------------------------------
  // The red-shade noise texture.

  /** The texture size `pedalEntity` asks for. */
  const NoiseWidth: nat := 50
  const NoiseHeight: nat := 10

  /**
   * The random draws of the noise loop, one triple per pixel (row, column):
   * `CGFloat.random(in:)` over the source's three ranges.
   */
  datatype Draws = Draws(red: (int, int) -> real, green: (int, int) -> real, blue: (int, int) -> real)

  /** Every draw lies in the range it was drawn from. */
  ghost predicate DrawsInRange(d: Draws)
  {
    (forall y, x :: 0.5 <= d.red(y, x) <= 1.0) &&
    (forall y, x :: 0.0 <= d.green(y, x) <= 0.5) &&
    (forall y, x :: 0.0 <= d.blue(y, x) <= 0.375)
  }

  /** `UInt32(f * 255)`: scale to a byte and truncate toward zero. */
  function Channel(f: real): (c: int)
    requires 0.0 <= f <= 1.0
    ensures 0 <= c <= 255
    ensures c as real <= f * 255.0 < c as real + 1.0
  {
    (f * 255.0).Floor
  }

  /** `UInt32(f * 255)` as the 32-bit word the pixel is packed from. */
  function ChannelWord(f: real): (w: bv32)
    requires 0.0 <= f <= 1.0
    ensures w < 256
  {
    Channel(f) as bv32
  }

  /** Byte `shift / 8` of a 32-bit pixel. */
  function ByteAt(p: bv32, shift: nat): bv32
    requires shift <= 24
  {
    (p >> shift) & 0xFF
  }

  /** `(alpha << 24) | (blue << 16) | (green << 8) | red` with alpha 255. */
  function PackPixel(red: bv32, green: bv32, blue: bv32): bv32
  {
    (255 << 24) | (blue << 16) | (green << 8) | red
  }

  /** Packing channels below 256 loses nothing: each byte reads back. */
  lemma UnpackPack(red: bv32, green: bv32, blue: bv32)
    requires red < 256 && green < 256 && blue < 256
    ensures ByteAt(PackPixel(red, green, blue), 0) == red
    ensures ByteAt(PackPixel(red, green, blue), 8) == green
    ensures ByteAt(PackPixel(red, green, blue), 16) == blue
    ensures ByteAt(PackPixel(red, green, blue), 24) == 255
  {
  }

  /** The colour the loop writes for pixel (y, x). */
  function NoisePixel(d: Draws, y: int, x: int): bv32
    requires DrawsInRange(d)
  {
    PackPixel(ChannelWord(d.red(y, x)), ChannelWord(d.green(y, x)), ChannelWord(d.blue(y, x)))
  }

  /**
   * Every pixel is opaque and a shade of red: its red byte is the red draw
   * as a byte, at least 127; its green byte is at most 127 and its blue byte
   * at most 95.
   */
  lemma NoisePixelIsRedShade(d: Draws, y: int, x: int)
    requires DrawsInRange(d)
    ensures ByteAt(NoisePixel(d, y, x), 24) == 255
    ensures ByteAt(NoisePixel(d, y, x), 0) == ChannelWord(d.red(y, x))
    ensures ByteAt(NoisePixel(d, y, x), 8) == ChannelWord(d.green(y, x))
    ensures ByteAt(NoisePixel(d, y, x), 16) == ChannelWord(d.blue(y, x))
    ensures 127 <= Channel(d.red(y, x)) && Channel(d.green(y, x)) <= 127 && Channel(d.blue(y, x)) <= 95
  {
    UnpackPack(ChannelWord(d.red(y, x)), ChannelWord(d.green(y, x)), ChannelWord(d.blue(y, x)));
  }

  /** Two pixels share a buffer slot only if they are the same pixel. */
  lemma PixelIndexInjective(width: nat, height: nat, y: nat, x: nat, y': nat, x': nat)
    requires y < height && x < width && y' < height && x' < width
    requires y * width + x == y' * width + x'
    ensures y == y' && x == x'
  {
    RowMajor(width, height, y, x);
    RowMajor(width, height, y', x');
  }

  /** The first `n` slots of `buf` hold their pixels' colours. */
  ghost predicate PixelsDone(buf: seq<bv32>, n: int, width: nat, d: Draws)
    requires DrawsInRange(d)
  {
    0 <= n <= |buf| && (n == 0 || width > 0) && forall k | 0 <= k < n :: buf[k] == NoisePixel(d, k / width, k % width)
  }

  lemma PixelsExtend(before: seq<bv32>, after: seq<bv32>, n: nat, width: nat, d: Draws)
    requires DrawsInRange(d) && width > 0 && n < |before|
    requires PixelsDone(before, n, width, d)
    requires after == before[n := NoisePixel(d, n / width, n % width)]
    ensures PixelsDone(after, n + 1, width, d)
  {
  }

  /** The body of the pixel loop: pixel (y, x) is coloured, in order. */
  method StorePixel(pixelBuffer: array<bv32>, width: nat, height: nat, y: nat, x: nat, draws: Draws)
    requires DrawsInRange(draws) && y < height && x < width
    requires pixelBuffer.Length == width * height
    requires PixelsDone(pixelBuffer[..], y * width + x, width, draws)
    modifies pixelBuffer
    ensures PixelsDone(pixelBuffer[..], y * width + x + 1, width, draws)
  {
    var color := NoisePixel(draws, y, x);
    RowMajor(width, height, y, x);
    ghost var before := pixelBuffer[..];
    pixelBuffer[y * width + x] := color;
    PixelsExtend(before, pixelBuffer[..], y * width + x, width, draws);
  }

  /**
   * `createRandomRedShadeNoiseImage(width:height:)`. `bitmapReady` stands for
   * all three of its fallible calls succeeding: `CGContext(...)` creating the
   * context, `context.data` being non-nil, and `makeImage()` returning an
   * image. If any of them fails the result is `None`; the pixels written
   * before a failing `makeImage()` are then lost, so the flag is tested up
   * front. Otherwise every slot `k` of the `width * height` buffer holds
   * the colour of pixel (k / width, k % width), so each slot is written once,
   * by its own pixel.
   */
  method RedShadeNoiseImage(width: nat, height: nat, bitmapReady: bool, draws: Draws)
    returns (image: Option<seq<bv32>>)
    requires DrawsInRange(draws)
    ensures !bitmapReady <==> image.None?
    ensures image.Some? ==> |image.value| == width * height
    ensures image.Some? ==> forall k | 0 <= k < width * height ::
      image.value[k] == NoisePixel(draws, k / width, k % width)
  {
    if !bitmapReady {
      return None;
    }
    var pixelBuffer := new bv32[width * height];
    for y := 0 to height
      invariant PixelsDone(pixelBuffer[..], y * width, width, draws)
    {
      for x := 0 to width
        invariant PixelsDone(pixelBuffer[..], y * width + x, width, draws)
      {
        StorePixel(pixelBuffer, width, height, y, x, draws);
      }
      assert y * width + width == (y + 1) * width;
    }
    MulMonotone(height, height, width);
    return Some(pixelBuffer[..]);
  }
}
