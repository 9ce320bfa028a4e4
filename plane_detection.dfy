/**
 * The plane-detection provider: every plane anchor the session reports gets
 * an entity under `contentEntity`, carrying a "plane" child sized to the
 * anchor's extent and coloured by its classification. The table from anchor
 * to entity is kept in `entityMap`.
 *
 * The provider is a class whose fields are the table, the child list of
 * `contentEntity` and the entity arena; each method is proved against a step
 * function on the `State` value, and the lemmas about the step functions
 * carry the properties.
 */
module PlaneDetection {
  import opened Linear
  import opened SceneGraph

  // ---------------------------------------------------------------------
  // Classifications and their colours.

  /**
   * `PlaneAnchor.Classification`. `Unlisted` stands for any case the
   * framework adds later, which the colour switch handles as
   * `@unknown default`.
   */
  datatype Classification =
    | Wall | Floor | Ceiling | Table | Door | Seat | Window
    | Undetermined | NotAvailable | Unknown | Unlisted

  /** The stock `UIColor`s the colour switch picks from. */
  datatype Hue =
    | Blue | Red | Green | Yellow | Brown | SystemPink | Orange
    | LightGray | Gray | Black | Purple

  /** A `UIColor`: a hue with its alpha component. */
  datatype Color = Color(hue: Hue, alpha: real)

  /** The alpha of a stock colour that was not given another one. */
  const OpaqueAlpha: real := 1.0

  /** The alpha every known classification is drawn with. */
  const PlaneAlpha: real := 0.65

  /**
   * `Classification.color`: total; every known classification is drawn at
   * alpha 0.65, and an unlisted one in plain (opaque) purple.
   */
  function ColorOf(c: Classification): (r: Color)
    ensures !c.Unlisted? <==> r.alpha == PlaneAlpha
    ensures c.Unlisted? ==> r == Color(Purple, OpaqueAlpha)
    ensures r.hue == Purple <==> c.Unlisted?
  {
    match c
    case Wall => Color(Blue, PlaneAlpha)
    case Floor => Color(Red, PlaneAlpha)
    case Ceiling => Color(Green, PlaneAlpha)
    case Table => Color(Yellow, PlaneAlpha)
    case Door => Color(Brown, PlaneAlpha)
    case Seat => Color(SystemPink, PlaneAlpha)
    case Window => Color(Orange, PlaneAlpha)
    case Undetermined => Color(LightGray, PlaneAlpha)
    case NotAvailable => Color(Gray, PlaneAlpha)
    case Unknown => Color(Black, PlaneAlpha)
    case Unlisted => Color(Purple, OpaqueAlpha)
  }

  /** No two classifications share a colour. */
  lemma ColorsDistinct(c: Classification, d: Classification)
    requires ColorOf(c) == ColorOf(d)
    ensures c == d
  {
  }

  // ---------------------------------------------------------------------
  // Anchors, updates and entities.

  /**
   * A `PlaneAnchor`: its identifier, classification, the width and height of
   * its extent, the extent's pose in the anchor and the anchor's pose in the
   * world.
   */
  datatype PlaneAnchor = PlaneAnchor(
    id: AnchorId,
    classification: Classification,
    width: real,
    height: real,
    anchorFromExtent: Matrix4,
    originFromAnchor: Matrix4)

  /** An `AnchorUpdate<PlaneAnchor>`. */
  datatype AnchorUpdate = AnchorUpdate(event: AnchorEvent, anchor: PlaneAnchor)

  /** The "plane" child: a plane mesh of the given size, its pose and colour. */
  datatype PlaneChild = PlaneChild(width: real, height: real, transform: Matrix4, color: Color)

  /** The entity made for an anchor: its pose and its one "plane" child. */
  datatype AnchorEntity = AnchorEntity(transform: Matrix4, plane: PlaneChild)

  /**
   * The provider's state: `entityMap`, the children of `contentEntity`, every
   * entity created so far (detached ones included) and the next fresh handle.
   */
  datatype State = State(
    entityMap: map<AnchorId, EntityId>,
    children: seq<EntityId>,
    entities: map<EntityId, AnchorEntity>,
    nextEntity: EntityId)

  /** The state before the first update. */
  function Initial(): (s: State)
    ensures Valid(s) && s.entityMap == map[] && s.children == []
  {
    State(map[], [], map[], 0)
  }

  /**
   * The invariant: every table entry names a created entity; handles below
   * `nextEntity` are the created ones; the child list of `contentEntity`
   * holds each table value exactly once and nothing else.
   */
  ghost predicate Valid(s: State)
  {
    && (forall a | a in s.entityMap :: s.entityMap[a] in s.entities)
    && (forall e | e in s.entities :: e < s.nextEntity)
    && Injective(s.entityMap)
    && NoDuplicates(s.children)
    && (forall e :: e in s.children <==> e in s.entityMap.Values)
    && |s.children| == |s.entityMap|
  }

  // ---------------------------------------------------------------------
  // Step functions.

  /** The plane child an anchor describes, drawn in the given colour. */
  function PlaneOf(anchor: PlaneAnchor, color: Color): PlaneChild
  {
    PlaneChild(anchor.width, anchor.height, anchor.anchorFromExtent, color)
  }

  /**
   * `updatePlane`: a known anchor's plane child takes the new extent and
   * pose (and keeps its colour); an unknown anchor gets a fresh entity with a
   * plane child coloured by its classification, stored in the table and
   * appended to `contentEntity`'s children. Either way the entity then
   * takes the anchor's pose.
   */
  function UpdatePlaneStep(s: State, anchor: PlaneAnchor): (r: State)
    requires Valid(s)
  {
    if anchor.id in s.entityMap then
      var e := s.entityMap[anchor.id];
      s.(entities := s.entities[e := AnchorEntity(anchor.originFromAnchor,
                                                  PlaneOf(anchor, s.entities[e].plane.color))])
    else
      var e := s.nextEntity;
      State(s.entityMap[anchor.id := e],
            s.children + [e],
            s.entities[e := AnchorEntity(anchor.originFromAnchor,
                                         PlaneOf(anchor, ColorOf(anchor.classification)))],
            s.nextEntity + 1)
  }

  /**
   * `removePlane`: the anchor's entity leaves `contentEntity` and its entry
   * leaves the table; an unknown anchor changes nothing.
   */
  function RemovePlaneStep(s: State, anchor: PlaneAnchor): (r: State)
  {
    if anchor.id in s.entityMap then
      s.(entityMap := s.entityMap - {anchor.id},
         children := Without(s.children, s.entityMap[anchor.id]))
    else s
  }

  /**
   * One iteration of `processPlaneDetectionUpdates`: window anchors are
   * skipped; added and updated anchors go to `updatePlane`, removed ones to
   * `removePlane`.
   */
  function ProcessStep(s: State, update: AnchorUpdate): (r: State)
    requires Valid(s)
  {
    if update.anchor.classification == Window then s
    else match update.event
      case Added => UpdatePlaneStep(s, update.anchor)
      case Updated => UpdatePlaneStep(s, update.anchor)
      case Removed => RemovePlaneStep(s, update.anchor)
  }

  // ---------------------------------------------------------------------
  // Properties of the steps.

  /**
   * After `updatePlane` the anchor is in the table, mapped to an entity with
   * the anchor's pose and extent; every other entry is unchanged; a new
   * entity is created and parented exactly when the anchor was absent.
   */
  lemma UpdatePlaneInserts(s: State, anchor: PlaneAnchor)
    requires Valid(s)
    ensures var r := UpdatePlaneStep(s, anchor);
      && r.entityMap.Keys == s.entityMap.Keys + {anchor.id}
      && (forall a | a in s.entityMap && a != anchor.id :: r.entityMap[a] == s.entityMap[a])
      && r.entities[r.entityMap[anchor.id]].transform == anchor.originFromAnchor
      && r.entities[r.entityMap[anchor.id]].plane.width == anchor.width
      && r.entities[r.entityMap[anchor.id]].plane.height == anchor.height
      && r.entities[r.entityMap[anchor.id]].plane.transform == anchor.anchorFromExtent
      && (anchor.id in s.entityMap <==> r.nextEntity == s.nextEntity)
      && (anchor.id in s.entityMap ==> r.children == s.children)
      && (anchor.id !in s.entityMap ==>
            r.entityMap[anchor.id] !in s.entities && r.children == s.children + [r.entityMap[anchor.id]])
  {
  }

  /** A plane keeps the colour of the classification it was first seen with. */
  lemma ColorFixedAtCreation(s: State, anchor: PlaneAnchor)
    requires Valid(s)
    ensures var r := UpdatePlaneStep(s, anchor);
      r.entities[r.entityMap[anchor.id]].plane.color ==
        if anchor.id in s.entityMap then s.entities[s.entityMap[anchor.id]].plane.color
        else ColorOf(anchor.classification)
  {
  }

  /** Entities not mapped from the anchor are untouched by `updatePlane`. */
  lemma UpdatePlaneLeavesOthers(s: State, anchor: PlaneAnchor, e: EntityId)
    requires Valid(s)
    requires e in s.entities
    requires anchor.id !in s.entityMap || e != s.entityMap[anchor.id]
    ensures e in UpdatePlaneStep(s, anchor).entities
    ensures UpdatePlaneStep(s, anchor).entities[e] == s.entities[e]
  {
  }

  /**
   * `removePlane` deletes only the anchor's entry and detaches only its
   * entity.
   */
  lemma RemovePlaneDeletesOnly(s: State, anchor: PlaneAnchor)
    requires Valid(s)
    ensures var r := RemovePlaneStep(s, anchor);
      && anchor.id !in r.entityMap
      && r.entityMap.Keys == s.entityMap.Keys - {anchor.id}
      && (forall a | a in r.entityMap :: r.entityMap[a] == s.entityMap[a])
      && (forall e :: e in r.children <==>
            e in s.children && (anchor.id !in s.entityMap || e != s.entityMap[anchor.id]))
      && r.entities == s.entities
  {
  }

  /** Added and updated events are handled the same way. */
  lemma AddedLikeUpdated(s: State, anchor: PlaneAnchor)
    requires Valid(s)
    ensures ProcessStep(s, AnchorUpdate(Added, anchor)) == ProcessStep(s, AnchorUpdate(Updated, anchor))
  {
  }

  /**
   * A window anchor changes nothing, whatever the event; in particular an
   * anchor first reported as a window never enters the table.
   */
  lemma WindowSkipped(s: State, update: AnchorUpdate)
    requires Valid(s)
    requires update.anchor.classification == Window
    ensures ProcessStep(s, update) == s
    ensures update.anchor.id !in s.entityMap ==> update.anchor.id !in ProcessStep(s, update).entityMap
  {
  }

  /** Cardinality of a map that gains one new key. */
  lemma {:induction false} InsertNewKey(m: map<AnchorId, EntityId>, k: AnchorId, v: EntityId)
    requires k !in m
    ensures |m[k := v]| == |m| + 1
  {
    assert m[k := v].Keys == m.Keys + {k};
  }

  /** Cardinality of a map that loses one of its keys. */
  lemma {:induction false} RemoveKey(m: map<AnchorId, EntityId>, k: AnchorId)
    requires k in m
    ensures |m - {k}| == |m| - 1
  {
    assert (m - {k}).Keys == m.Keys - {k};
  }

  /** `updatePlane` keeps the table and `contentEntity`'s children in step. */
  lemma {:induction false} UpdatePlaneKeepsValid(s: State, anchor: PlaneAnchor)
    requires Valid(s)
    ensures Valid(UpdatePlaneStep(s, anchor))
  {
    var r := UpdatePlaneStep(s, anchor);
    if anchor.id !in s.entityMap {
      var e := s.nextEntity;
      assert e !in s.entities;
      assert e !in s.entityMap.Values;
      InsertNewKey(s.entityMap, anchor.id, e);
      forall x ensures x in r.children <==> x in r.entityMap.Values {
        if x in r.entityMap.Values {
          var a :| a in r.entityMap && r.entityMap[a] == x;
          if a != anchor.id {
            assert s.entityMap[a] == x;
          }
        }
        if x in s.entityMap.Values {
          var a :| a in s.entityMap && s.entityMap[a] == x;
          assert a in r.entityMap && r.entityMap[a] == x;
        }
        if x == e {
          assert anchor.id in r.entityMap && r.entityMap[anchor.id] == x;
        }
        assert x in r.children <==> x in s.children || x == e;
      }
      forall i, j | 0 <= i < j < |r.children| ensures r.children[i] != r.children[j] {
        if j == |s.children| {
          assert r.children[i] in s.entityMap.Values by {
            assert r.children[i] == s.children[i];
          }
        }
      }
    } else {
      assert r.entityMap == s.entityMap;
    }
  }

  /** `removePlane` keeps the table and `contentEntity`'s children in step. */
  lemma {:induction false} RemovePlaneKeepsValid(s: State, anchor: PlaneAnchor)
    requires Valid(s)
    ensures Valid(RemovePlaneStep(s, anchor))
  {
    if anchor.id in s.entityMap {
      var r := RemovePlaneStep(s, anchor);
      var e := s.entityMap[anchor.id];
      WithoutKeepsNoDuplicates(s.children, e);
      WithoutPresentOnce(s.children, e);
      RemoveKey(s.entityMap, anchor.id);
      assert r.children == Without(s.children, e);
      forall x ensures x in r.children <==> x in r.entityMap.Values {
        if x in r.entityMap.Values {
          var a :| a in r.entityMap && r.entityMap[a] == x;
          assert a != anchor.id && s.entityMap[a] == x;
          assert x != e;
          assert x in s.children;
        }
        if x in r.children {
          assert x in s.entityMap.Values && x != e;
          var a :| a in s.entityMap && s.entityMap[a] == x;
          assert a != anchor.id;
          assert a in r.entityMap && r.entityMap[a] == x;
        }
      }
    }
  }

  /**
   * Every step keeps `contentEntity`'s children in one-to-one
   * correspondence with the values of `entityMap`.
   */
  lemma ProcessKeepsValid(s: State, update: AnchorUpdate)
    requires Valid(s)
    ensures Valid(ProcessStep(s, update))
  {
    UpdatePlaneKeepsValid(s, update.anchor);
    RemovePlaneKeepsValid(s, update.anchor);
  }

  // ---------------------------------------------------------------------
  // The provider.

  class PlaneDetectionModel {
    var entityMap: map<AnchorId, EntityId>
    /** The children of `contentEntity`, in the order they were added. */
    var contentChildren: seq<EntityId>
    /** Every entity created so far, by handle. */
    var entities: map<EntityId, AnchorEntity>
    var nextEntity: EntityId

    function Snapshot(): State
      reads this
    {
      State(entityMap, contentChildren, entities, nextEntity)
    }

    ghost predicate Inv()
      reads this
    {
      Valid(Snapshot())
    }

    constructor()
      ensures Snapshot() == Initial() && Inv()
    {
      entityMap := map[];
      contentChildren := [];
      entities := map[];
      nextEntity := 0;
    }

    method UpdatePlane(anchor: PlaneAnchor)
      requires Inv()
      modifies this
      ensures Snapshot() == UpdatePlaneStep(old(Snapshot()), anchor)
      ensures Inv()
    {
      UpdatePlaneKeepsValid(Snapshot(), anchor);
      if anchor.id in entityMap {
        var entity := entityMap[anchor.id];
        var plane := entities[entity].plane;
        entities := entities[entity := entities[entity].(plane := PlaneOf(anchor, plane.color))];
      } else {
        var entity := nextEntity;
        nextEntity := nextEntity + 1;
        var plane := PlaneOf(anchor, ColorOf(anchor.classification));
        entities := entities[entity := AnchorEntity(Identity, plane)];
        entityMap := entityMap[anchor.id := entity];
        contentChildren := contentChildren + [entity];
      }
      var entity := entityMap[anchor.id];
      entities := entities[entity := entities[entity].(transform := anchor.originFromAnchor)];
    }

    method RemovePlane(anchor: PlaneAnchor)
      requires Inv()
      modifies this
      ensures Snapshot() == RemovePlaneStep(old(Snapshot()), anchor)
      ensures Inv()
    {
      RemovePlaneKeepsValid(Snapshot(), anchor);
      if anchor.id in entityMap {
        contentChildren := Without(contentChildren, entityMap[anchor.id]);
      }
      entityMap := entityMap - {anchor.id};
    }

    /** The body of the `for await` loop of `processPlaneDetectionUpdates`. */
    method ProcessUpdate(update: AnchorUpdate)
      requires Inv()
      modifies this
      ensures Snapshot() == ProcessStep(old(Snapshot()), update)
      ensures Inv()
    {
      if update.anchor.classification == Window {
        return;
      }
      match update.event {
        case Added => UpdatePlane(update.anchor);
        case Updated => UpdatePlane(update.anchor);
        case Removed => RemovePlane(update.anchor);
      }
    }
  }
}
