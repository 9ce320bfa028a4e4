/**
 * The triangle-count getters of the triangle-count demo: a mesh resource
 * reports a third of the index count of its first part that has triangle
 * indices, and an entity reports the count of its model's mesh, or 0.
 */
module TriangleCount {
  import opened Wrappers
  import opened MeshBuffers
  import SphereMesh

  /** A part of a mesh, with its triangle indices when it has them. */
  datatype MeshPart = MeshPart(triangleIndices: Option<seq<UInt32>>)

  datatype MeshModel = MeshModel(parts: seq<MeshPart>)

  /** `MeshResource.contents`: its models, each with its parts. */
  datatype MeshResource = MeshResource(models: seq<MeshModel>)

  /** An entity, with the mesh of its `ModelComponent` when it has one. */
  datatype MeshEntity = MeshEntity(mesh: Option<MeshResource>)

  /** The parts of all models, in the order the getter visits them. */
  function AllParts(models: seq<MeshModel>): (r: seq<MeshPart>)
    ensures forall i | 0 <= i < |models| :: forall p | p in models[i].parts :: p in r
  {
    if models == [] then [] else models[0].parts + AllParts(models[1..])
  }

  /** The triangle indices of the first part in `parts` that has them. */
  function FirstIndexed(parts: seq<MeshPart>): (r: Option<seq<UInt32>>)
    ensures r.None? <==> forall i | 0 <= i < |parts| :: parts[i].triangleIndices.None?
    ensures r.Some? ==> exists i | 0 <= i < |parts| ::
      parts[i].triangleIndices == r && forall j | 0 <= j < i :: parts[j].triangleIndices.None?
  {
    if parts == [] then None
    else if parts[0].triangleIndices.Some? then parts[0].triangleIndices
    else
      var r := FirstIndexed(parts[1..]);
      assert forall i | 1 <= i < |parts| :: parts[i] == parts[1..][i - 1];
      if r.Some? then
        var i :| 0 <= i < |parts[1..]| && parts[1..][i].triangleIndices == r
                 && forall j | 0 <= j < i :: parts[1..][j].triangleIndices.None?;
        assert parts[i + 1].triangleIndices == r;
        r
      else r
  }

  /** The inner loop of `MeshResource.triangleCount`: over one model's parts. */
  function PartsTriangleCount(parts: seq<MeshPart>): Option<nat>
  {
    if parts == [] then None
    else match parts[0].triangleIndices
      case Some(indices) => Some(|indices| / 3)
      case None => PartsTriangleCount(parts[1..])
  }

  /** The outer loop: the first model whose parts yield a count, else 0. */
  function ModelsTriangleCount(models: seq<MeshModel>): nat
  {
    if models == [] then 0
    else match PartsTriangleCount(models[0].parts)
      case Some(count) => count
      case None => ModelsTriangleCount(models[1..])
  }

  /** `MeshResource.triangleCount`. */
  function ResourceTriangleCount(mesh: MeshResource): nat
  {
    ModelsTriangleCount(mesh.models)
  }

  /** Over one model, the inner loop answers with the first indexed part. */
  lemma {:induction false} PartsCountIsFirstIndexed(parts: seq<MeshPart>)
    ensures PartsTriangleCount(parts) == match FirstIndexed(parts)
      case Some(indices) => Some(|indices| / 3)
      case None => None
  {
    if parts != [] && parts[0].triangleIndices.None? {
      PartsCountIsFirstIndexed(parts[1..]);
    }
  }

  /** The search among the parts of the first model comes first. */
  lemma {:induction false} FirstIndexedAppend(a: seq<MeshPart>, b: seq<MeshPart>)
    ensures FirstIndexed(a + b) == if FirstIndexed(a).Some? then FirstIndexed(a) else FirstIndexed(b)
  {
    if a != [] {
      assert (a + b)[1..] == a[1..] + b;
      FirstIndexedAppend(a[1..], b);
    } else {
      assert a + b == b;
    }
  }

  /**
   * The nested loops of `MeshResource.triangleCount` return a third of the
   * index count of the first part, over all models in order, that has
   * triangle indices, and 0 when no part has them.
   */
  lemma {:induction false} TriangleCountIsFirstIndexed(mesh: MeshResource)
    ensures ResourceTriangleCount(mesh) == match FirstIndexed(AllParts(mesh.models))
      case Some(indices) => |indices| / 3
      case None => 0
  {
    ModelsCountIsFirstIndexed(mesh.models);
  }

  lemma {:induction false} ModelsCountIsFirstIndexed(models: seq<MeshModel>)
    ensures ModelsTriangleCount(models) == match FirstIndexed(AllParts(models))
      case Some(indices) => |indices| / 3
      case None => 0
  {
    if models != [] {
      PartsCountIsFirstIndexed(models[0].parts);
      FirstIndexedAppend(models[0].parts, AllParts(models[1..]));
      ModelsCountIsFirstIndexed(models[1..]);
    }
  }

  /** A mesh with no triangle indices anywhere reports 0 triangles. */
  lemma NoIndexedPartCountsZero(mesh: MeshResource)
    requires forall m | m in mesh.models :: forall p | p in m.parts :: p.triangleIndices.None?
    ensures ResourceTriangleCount(mesh) == 0
  {
    TriangleCountIsFirstIndexed(mesh);
    var all := AllParts(mesh.models);
    if FirstIndexed(all).Some? {
      var i :| 0 <= i < |all| && all[i].triangleIndices.Some?;
      AllPartsFromModels(mesh.models, i);
    }
  }

  /** Every part in the flattened list is a part of one of the models. */
  lemma {:induction false} AllPartsFromModels(models: seq<MeshModel>, i: nat)
    requires i < |AllParts(models)|
    ensures exists m | m in models :: AllParts(models)[i] in m.parts
  {
    if i < |models[0].parts| {
      assert AllParts(models)[i] == models[0].parts[i];
      assert models[0] in models;
    } else {
      AllPartsFromModels(models[1..], i - |models[0].parts|);
      var m :| m in models[1..] && AllParts(models[1..])[i - |models[0].parts|] in m.parts;
      assert m in models;
    }
  }

  /** `Entity.meshResource`: the mesh of the entity's model component, if any. */
  function MeshOf(e: MeshEntity): Option<MeshResource>
  {
    e.mesh
  }

  /** `Entity.triangleCount`: the mesh's count, or 0 without a model component. */
  function EntityTriangleCount(e: MeshEntity): (r: nat)
    ensures MeshOf(e).None? ==> r == 0
    ensures MeshOf(e).Some? ==> r == ResourceTriangleCount(MeshOf(e).value)
  {
    match MeshOf(e)
    case Some(mesh) => ResourceTriangleCount(mesh)
    case None => 0
  }

  /**
   * An entity showing the generated sphere (one model, one part of
   * `lat * long * 6` indices) reports `2 * lat * long` triangles.
   */
  lemma SphereEntityTriangleCount(lat: nat, long: nat, indices: seq<UInt32>)
    requires |indices| == SphereMesh.IndexCount(lat, long)
    ensures EntityTriangleCount(MeshEntity(Some(MeshResource([MeshModel([MeshPart(Some(indices))])]))))
      == 2 * lat * long
  {
    SphereMesh.TriangleCount(lat, long);
  }
}
