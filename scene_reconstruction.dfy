/**
 * The scene-reconstruction provider: each mesh anchor becomes a static,
 * collidable, input-targetable entity under `rootEntity`, recorded in
 * `meshEntities`. The entity's mesh is the anchor's faces turned into
 * triangle polygons.
 *
 * As for the plane provider, the class's methods are proved against step
 * functions on a `State` value.
 */
module SceneReconstruction {
  import opened Wrappers
  import opened Linear
  import opened SceneGraph
  import opened MeshBuffers

  // ---------------------------------------------------------------------
  // Faces and polygon primitives.

  /**
   * `MeshAnchor.Geometry.faces`: the number of faces, the width of one index
   * in bytes, and the buffer read as a `UInt32` at a byte offset.
   */
  datatype FaceBuffer = FaceBuffer(count: nat, bytesPerIndex: nat, wordAt: nat -> UInt32)

  /** `MeshDescriptor.Primitives.polygons`: per-face vertex counts and the indices. */
  datatype Polygons = Polygons(faceSizes: seq<nat>, indices: seq<UInt32>)

  /** The vertex count of every face of a scene-reconstruction mesh. */
  const FaceSize: nat := 3

  /**
   * The primitive lists of `generateModelEntity`: one size of 3 per face,
   * and three indices per face, index `k` read at byte offset
   * `k * bytesPerIndex`.
   */
  function PolygonsOf(faces: FaceBuffer): (p: Polygons)
    ensures |p.faceSizes| == faces.count
    ensures forall f | 0 <= f < |p.faceSizes| :: p.faceSizes[f] == FaceSize
    ensures |p.indices| == FaceSize * faces.count
    ensures forall k | 0 <= k < |p.indices| :: p.indices[k] == faces.wordAt(k * faces.bytesPerIndex)
  {
    Polygons(seq(faces.count, _ => FaceSize),
             seq(FaceSize * faces.count, k requires 0 <= k => faces.wordAt(k * faces.bytesPerIndex)))
  }

  function Sum(s: seq<nat>): nat
  {
    if s == [] then 0 else s[0] + Sum(s[1..])
  }

  lemma {:induction false} SumOfConstant(s: seq<nat>, c: nat)
    requires forall i | 0 <= i < |s| :: s[i] == c
    ensures Sum(s) == c * |s|
  {
    if s != [] {
      SumOfConstant(s[1..], c);
    }
  }

  /**
   * The face sizes add up to the number of indices, as a polygon
   * descriptor requires: the lists describe `faces.count` whole triangles.
   */
  lemma PolygonsConsistent(faces: FaceBuffer)
    ensures Sum(PolygonsOf(faces).faceSizes) == |PolygonsOf(faces).indices|
  {
    SumOfConstant(PolygonsOf(faces).faceSizes, FaceSize);
  }

  /**
   * The corners of face `f` are the three consecutive indices from `3 * f`,
   * read at consecutive index widths of the buffer.
   */
  lemma FaceCorners(faces: FaceBuffer, f: nat)
    requires f < faces.count
    ensures var p := PolygonsOf(faces);
      var w := faces.bytesPerIndex;
      3 * f + 2 < |p.indices| &&
      p.indices[3 * f] == faces.wordAt(3 * f * w) &&
      p.indices[3 * f + 1] == faces.wordAt(3 * f * w + w) &&
      p.indices[3 * f + 2] == faces.wordAt(3 * f * w + 2 * w)
  {
    var w := faces.bytesPerIndex;
    assert (3 * f + 1) * w == 3 * f * w + w;
    assert (3 * f + 2) * w == 3 * f * w + 2 * w;
  }

  // ---------------------------------------------------------------------
  // Anchors, updates and entities.

  /** A collision shape generated from an anchor's mesh. */
  type ShapeId = nat

  /** A `MeshAnchor`: identifier, pose and faces. */
  datatype MeshAnchor = MeshAnchor(id: AnchorId, originFromAnchor: Matrix4, faces: FaceBuffer)

  datatype AnchorUpdate = AnchorUpdate(event: AnchorEvent, anchor: MeshAnchor)

  /** A `CollisionComponent`: its shapes and whether it is static. */
  datatype Collision = Collision(shapes: seq<ShapeId>, isStatic: bool)

  /**
   * A mesh entity: its pose, its mesh's primitives, its collision component
   * if any, whether it has an input target and a static physics body.
   */
  datatype MeshEntity = MeshEntity(
    transform: Matrix4,
    mesh: Polygons,
    collision: Option<Collision>,
    inputTarget: bool,
    staticBody: bool)

  /** `generateModelEntity`: a bare model entity showing the anchor's faces. */
  function ModelEntityOf(faces: FaceBuffer): (e: MeshEntity)
    ensures e.mesh == PolygonsOf(faces) && e.transform == Identity
    ensures e.collision.None? && !e.inputTarget && !e.staticBody
  {
    MeshEntity(Identity, PolygonsOf(faces), None, false, false)
  }

  /** The entity an added anchor gets, once it is posed and made collidable. */
  function AddedEntity(anchor: MeshAnchor, shape: ShapeId): MeshEntity
  {
    ModelEntityOf(anchor.faces).(
      transform := anchor.originFromAnchor,
      collision := Some(Collision([shape], true)),
      inputTarget := true,
      staticBody := true)
  }

  /** `meshEntities`, `rootEntity`'s children, the entity arena and the next handle. */
  datatype State = State(
    meshEntities: map<AnchorId, EntityId>,
    children: seq<EntityId>,
    entities: map<EntityId, MeshEntity>,
    nextEntity: EntityId)

  function Initial(): (s: State)
    ensures Valid(s) && s.meshEntities == map[] && s.children == []
  {
    State(map[], [], map[], 0)
  }

  /**
   * Every table entry names a created entity that is a child of
   * `rootEntity`, no two entries share one, and the children are created
   * entities without repetition. (An anchor added twice leaves its first
   * entity under the root with no entry, so children and table values need
   * not correspond one to one.)
   */
  ghost predicate Valid(s: State)
  {
    && (forall e | e in s.entities :: e < s.nextEntity)
    && (forall e | e in s.children :: e in s.entities)
    && (forall a | a in s.meshEntities :: s.meshEntities[a] in s.children)
    && Injective(s.meshEntities)
    && NoDuplicates(s.children)
  }

  // ---------------------------------------------------------------------
  // The step.

  /**
   * `processMeshAnchorUpdate`, given the outcome of generating the anchor's
   * static collision shape (`None` when it failed). A failed generation
   * ignores the update, whatever its kind. An added anchor gets a fresh
   * entity, stored under its id and appended to the root's children. An
   * update of a known anchor re-poses its entity and replaces its collision
   * shapes; of an unknown one, does nothing. A removal detaches the entity
   * and drops the entry.
   */
  function ProcessStep(s: State, update: AnchorUpdate, shape: Option<ShapeId>): (r: State)
    requires Valid(s)
  {
    if shape.None? then s
    else
      var id := update.anchor.id;
      match update.event
      case Added =>
        var e := s.nextEntity;
        State(s.meshEntities[id := e], s.children + [e],
              s.entities[e := AddedEntity(update.anchor, shape.value)], s.nextEntity + 1)
      case Updated =>
        if id !in s.meshEntities then s
        else
          var e := s.meshEntities[id];
          var before := s.entities[e];
          var collision := match before.collision
            case Some(c) => Some(c.(shapes := [shape.value]))
            case None => None;
          s.(entities := s.entities[e := before.(transform := update.anchor.originFromAnchor,
                                              collision := collision)])
      case Removed =>
        if id !in s.meshEntities then s
        else s.(meshEntities := s.meshEntities - {id},
                children := Without(s.children, s.meshEntities[id]))
  }

  // ---------------------------------------------------------------------
  // Properties of the step.

  /** A failed shape generation leaves the state as it was. */
  lemma ShapeFailureIgnored(s: State, update: AnchorUpdate)
    requires Valid(s)
    ensures ProcessStep(s, update, None) == s
  {
  }

  /**
   * An added anchor maps to a fresh entity posed at the anchor, collidable
   * by the generated shape, input-targetable, static, showing the anchor's
   * faces, and appended to the root's children; other entries stay.
   */
  lemma AddedStores(s: State, anchor: MeshAnchor, shape: ShapeId)
    requires Valid(s)
    ensures var r := ProcessStep(s, AnchorUpdate(Added, anchor), Some(shape));
      && anchor.id in r.meshEntities
      && var e := r.meshEntities[anchor.id];
      && e !in s.entities
      && r.children == s.children + [e]
      && r.entities[e].transform == anchor.originFromAnchor
      && r.entities[e].collision == Some(Collision([shape], true))
      && r.entities[e].inputTarget && r.entities[e].staticBody
      && r.entities[e].mesh == PolygonsOf(anchor.faces)
      && (forall a | a in s.meshEntities && a != anchor.id :: a in r.meshEntities && r.meshEntities[a] == s.meshEntities[a])
      && (forall x | x in s.entities :: x in r.entities && r.entities[x] == s.entities[x])
  {
  }

  /**
   * Adding an anchor that is already in the table leaves its first entity
   * under the root but no longer reachable from the table.
   */
  lemma AddedTwiceOrphans(s: State, anchor: MeshAnchor, shape: ShapeId)
    requires Valid(s)
    requires anchor.id in s.meshEntities
    ensures var r := ProcessStep(s, AnchorUpdate(Added, anchor), Some(shape));
      && s.meshEntities[anchor.id] in r.children
      && s.meshEntities[anchor.id] !in r.meshEntities.Values
  {
    var r := ProcessStep(s, AnchorUpdate(Added, anchor), Some(shape));
    var first := s.meshEntities[anchor.id];
    forall a | a in r.meshEntities ensures r.meshEntities[a] != first {
      if a != anchor.id {
        assert r.meshEntities[a] == s.meshEntities[a];
      }
    }
  }

  /** An update of an anchor not in the table does nothing. */
  lemma UpdatedUnknownIgnored(s: State, anchor: MeshAnchor, shape: Option<ShapeId>)
    requires Valid(s)
    requires anchor.id !in s.meshEntities
    ensures ProcessStep(s, AnchorUpdate(Updated, anchor), shape) == s
  {
  }

  /**
   * An update of a known anchor changes only its entity's pose and
   * collision shapes; the table, the children, every other entity and the
   * rest of this one stay as they were.
   */
  lemma UpdatedChangesPoseAndShapes(s: State, anchor: MeshAnchor, shape: ShapeId)
    requires Valid(s)
    requires anchor.id in s.meshEntities
    ensures var r := ProcessStep(s, AnchorUpdate(Updated, anchor), Some(shape));
      var e := s.meshEntities[anchor.id];
      && r.meshEntities == s.meshEntities
      && r.children == s.children
      && r.nextEntity == s.nextEntity
      && r.entities.Keys == s.entities.Keys
      && (forall x | x in s.entities && x != e :: r.entities[x] == s.entities[x])
      && r.entities[e].transform == anchor.originFromAnchor
      && r.entities[e].mesh == s.entities[e].mesh
      && r.entities[e].inputTarget == s.entities[e].inputTarget
      && r.entities[e].staticBody == s.entities[e].staticBody
      && r.entities[e].collision.Some? == s.entities[e].collision.Some?
      && (r.entities[e].collision.Some? ==>
            r.entities[e].collision.value == Collision([shape], s.entities[e].collision.value.isStatic))
  {
  }

  /** A removal drops only the anchor's entry and detaches only its entity. */
  lemma RemovedDeletesKey(s: State, anchor: MeshAnchor, shape: ShapeId)
    requires Valid(s)
    ensures var r := ProcessStep(s, AnchorUpdate(Removed, anchor), Some(shape));
      && anchor.id !in r.meshEntities
      && r.meshEntities.Keys == s.meshEntities.Keys - {anchor.id}
      && (forall a | a in r.meshEntities :: r.meshEntities[a] == s.meshEntities[a])
      && (forall x :: x in r.children <==>
            x in s.children && (anchor.id !in s.meshEntities || x != s.meshEntities[anchor.id]))
      && r.entities == s.entities
  {
  }

  /** Every step keeps the table's entities under the root, once each. */
  lemma {:induction false} ProcessKeepsValid(s: State, update: AnchorUpdate, shape: Option<ShapeId>)
    requires Valid(s)
    ensures Valid(ProcessStep(s, update, shape))
  {
    var r := ProcessStep(s, update, shape);
    var id := update.anchor.id;
    if shape.Some? {
      match update.event {
        case Added =>
          var e := s.nextEntity;
          assert e !in s.children;
          forall i, j | 0 <= i < j < |r.children| ensures r.children[i] != r.children[j] {
            if j == |s.children| {
              assert r.children[i] == s.children[i];
            }
          }
          forall a, b | a in r.meshEntities && b in r.meshEntities && a != b
            ensures r.meshEntities[a] != r.meshEntities[b]
          {
            if a != id && b != id {
              assert r.meshEntities[a] == s.meshEntities[a];
            }
          }
        case Updated =>
        case Removed =>
          if id in s.meshEntities {
            var e := s.meshEntities[id];
            WithoutKeepsNoDuplicates(s.children, e);
            forall a | a in r.meshEntities ensures r.meshEntities[a] in r.children {
              assert r.meshEntities[a] == s.meshEntities[a] != e;
            }
          }
      }
    }
  }

  // ---------------------------------------------------------------------
  // The provider.

  class SceneReconstructionModel {
    var meshEntities: map<AnchorId, EntityId>
    /** The children of `rootEntity`. */
    var rootChildren: seq<EntityId>
    var entities: map<EntityId, MeshEntity>
    var nextEntity: EntityId

    function Snapshot(): State
      reads this
    {
      State(meshEntities, rootChildren, entities, nextEntity)
    }

    ghost predicate Inv()
      reads this
    {
      Valid(Snapshot())
    }

    constructor()
      ensures Snapshot() == Initial() && Inv()
    {
      meshEntities := map[];
      rootChildren := [];
      entities := map[];
      nextEntity := 0;
    }

    /**
     * `processMeshAnchorUpdate`; `shape` is the result of the shape
     * generation it awaits.
     */
    method ProcessMeshAnchorUpdate(update: AnchorUpdate, shape: Option<ShapeId>)
      requires Inv()
      modifies this
      ensures Snapshot() == ProcessStep(old(Snapshot()), update, shape)
      ensures Inv()
    {
      ProcessKeepsValid(Snapshot(), update, shape);
      if shape.None? {
        return;
      }
      var anchor := update.anchor;
      match update.event {
        case Added =>
          var entity := nextEntity;
          nextEntity := nextEntity + 1;
          var model := ModelEntityOf(anchor.faces);
          model := model.(transform := anchor.originFromAnchor);
          model := model.(collision := Some(Collision([shape.value], true)));
          model := model.(inputTarget := true);
          model := model.(staticBody := true);
          entities := entities[entity := model];
          meshEntities := meshEntities[anchor.id := entity];
          rootChildren := rootChildren + [entity];
        case Updated =>
          if anchor.id !in meshEntities {
            return;
          }
          var entity := meshEntities[anchor.id];
          var model := entities[entity].(transform := anchor.originFromAnchor);
          if model.collision.Some? {
            model := model.(collision := Some(model.collision.value.(shapes := [shape.value])));
          }
          entities := entities[entity := model];
        case Removed =>
          if anchor.id in meshEntities {
            rootChildren := Without(rootChildren, meshEntities[anchor.id]);
          }
          meshEntities := meshEntities - {anchor.id};
      }
    }
  }
}
