/**
 * Two value conversions of the extensions file: `simd_float4x4`'s `Codable`
 * conformance, which writes a matrix as the list of its columns, and the
 * per-face classification lookup of a scene-reconstruction mesh.
 */
module GeometryCoding {
  import opened Wrappers
  import opened Linear

  // ---------------------------------------------------------------------
  // simd_float4x4 as a list of columns.

  /** `encode(to:)`: the four columns, in order. */
  function EncodeMatrix(m: Matrix4): (cols: seq<Vec4>)
    ensures |cols| == 4
  {
    [m.c0, m.c1, m.c2, m.c3]
  }

  /**
   * `init(from:)`: a matrix from the first four entries of the decoded list.
   * The source indexes the list without checking its length, which traps on
   * fewer than four entries; entries past the fourth are ignored.
   */
  function DecodeMatrix(cols: seq<Vec4>): (m: Matrix4)
    requires |cols| >= 4
  {
    Matrix4(cols[0], cols[1], cols[2], cols[3])
  }

  /** Decoding an encoding gives the matrix back. */
  lemma DecodeEncode(m: Matrix4)
    ensures DecodeMatrix(EncodeMatrix(m)) == m
  {
  }

  /** Encoding a decoded list gives back its first four entries. */
  lemma EncodeDecode(cols: seq<Vec4>)
    requires |cols| >= 4
    ensures EncodeMatrix(DecodeMatrix(cols)) == cols[..4]
  {
  }

  /** Two matrices with the same encoding are the same matrix. */
  lemma EncodeInjective(m: Matrix4, n: Matrix4)
    requires EncodeMatrix(m) == EncodeMatrix(n)
    ensures m == n
  {
    DecodeEncode(m);
    DecodeEncode(n);
  }

  // ---------------------------------------------------------------------
  // Face classifications.

  /**
   * `MeshAnchor.MeshClassification`, with its raw values as the framework
   * declares them (0 for `none` up to 13 for `plant`).
   */
  datatype MeshClassification =
    | NoClassification | Wall | Floor | Ceiling | Table | Seat | Window | Door
    | Stairs | Bed | Cabinet | HomeAppliance | Tv | Plant

  /** `MeshClassification(rawValue:)`: `None` for a value outside 0 ..= 13. */
  function FromRaw(raw: int): (c: Option<MeshClassification>)
    ensures c.Some? <==> 0 <= raw <= 13
    ensures c.Some? ==> RawValue(c.value) == raw
  {
    match raw
    case 0 => Some(NoClassification)
    case 1 => Some(Wall)
    case 2 => Some(Floor)
    case 3 => Some(Ceiling)
    case 4 => Some(Table)
    case 5 => Some(Seat)
    case 6 => Some(Window)
    case 7 => Some(Door)
    case 8 => Some(Stairs)
    case 9 => Some(Bed)
    case 10 => Some(Cabinet)
    case 11 => Some(HomeAppliance)
    case 12 => Some(Tv)
    case 13 => Some(Plant)
    case _ => None
  }

  function RawValue(c: MeshClassification): (raw: int)
    ensures 0 <= raw <= 13
  {
    match c
    case NoClassification => 0
    case Wall => 1
    case Floor => 2
    case Ceiling => 3
    case Table => 4
    case Seat => 5
    case Window => 6
    case Door => 7
    case Stairs => 8
    case Bed => 9
    case Cabinet => 10
    case HomeAppliance => 11
    case Tv => 12
    case Plant => 13
  }

  /** Every classification survives the trip through its raw value. */
  lemma FromRawValue(c: MeshClassification)
    ensures FromRaw(RawValue(c)) == Some(c)
  {
  }

  /** A geometry source of one unsigned byte per face: its buffer, offset and stride. */
  datatype ByteSource = ByteSource(buffer: seq<bv8>, offset: int, stride: int)

  /** The byte position face `index` is read from. */
  function FacePosition(source: ByteSource, index: int): int
  {
    source.offset + source.stride * index
  }

  /**
   * `classificationOf(faceWithIndex:)`: `none` when the geometry has no
   * classification source, otherwise the classification whose raw value is
   * the byte at `offset + stride * index`, and `none` for a byte that is no
   * raw value. The read itself is a raw memory access that must land inside
   * the buffer.
   */
  function ClassificationOf(classifications: Option<ByteSource>, index: int): (c: MeshClassification)
    requires classifications.Some? ==>
      0 <= FacePosition(classifications.value, index) < |classifications.value.buffer|
  {
    match classifications
    case None => NoClassification
    case Some(source) =>
      var value := source.buffer[FacePosition(source, index)] as int;
      FromRaw(value).GetOr(NoClassification)
  }

  /**
   * The lookup returns `none` exactly when there is no source, the byte is
   * 0, or the byte is past the last raw value; otherwise the classification
   * carries the byte as its raw value.
   */
  lemma ClassificationOfReadsByte(classifications: Option<ByteSource>, index: int)
    requires classifications.Some? ==>
      0 <= FacePosition(classifications.value, index) < |classifications.value.buffer|
    ensures classifications.None? ==> ClassificationOf(classifications, index) == NoClassification
    ensures classifications.Some? ==>
      var b := classifications.value.buffer[FacePosition(classifications.value, index)] as int;
      (b <= 13 ==> RawValue(ClassificationOf(classifications, index)) == b) &&
      (b > 13 ==> ClassificationOf(classifications, index) == NoClassification)
  {
    if classifications.Some? {
      var b := classifications.value.buffer[FacePosition(classifications.value, index)] as int;
      if b <= 13 {
        assert FromRaw(b).Some?;
      }
    }
  }
}
