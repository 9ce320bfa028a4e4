/**
 * The image-tracking provider: the first update for a tracked image creates a
 * small sphere marker under `contentEntity` and records it in `entityMap`;
 * every update that reports the image as tracked moves the marker to the
 * image's pose. There is no removal path.
 */
module ImageTracking {
  import opened Linear
  import opened SceneGraph

  /** The radius of the marker sphere. */
  const MarkerRadius: real := 0.05

  /** An `ImageAnchor`: identifier, whether it is tracked now, and its pose. */
  datatype ImageAnchor = ImageAnchor(id: AnchorId, isTracked: bool, originFromAnchor: Matrix4)

  /** A marker: its pose and the radius of its sphere mesh. */
  datatype Marker = Marker(transform: Matrix4, radius: real)

  /** `entityMap`, `contentEntity`'s children, the entity arena and the next handle. */
  datatype State = State(
    entityMap: map<AnchorId, EntityId>,
    children: seq<EntityId>,
    entities: map<EntityId, Marker>,
    nextEntity: EntityId)

  function Initial(): (s: State)
    ensures Valid(s) && s.entityMap == map[] && s.children == []
  {
    State(map[], [], map[], 0)
  }

  /**
   * Every entry names a created entity, no two entries share one, and the
   * children of `contentEntity` are exactly the table's values, once each.
   */
  ghost predicate Valid(s: State)
  {
    && (forall a | a in s.entityMap :: s.entityMap[a] in s.entities)
    && (forall e | e in s.entities :: e < s.nextEntity)
    && Injective(s.entityMap)
    && NoDuplicates(s.children)
    && (forall e :: e in s.children <==> e in s.entityMap.Values)
  }

  /**
   * `updateImage`: an anchor not yet in the table gets a fresh marker at the
   * identity pose, stored and appended to `contentEntity`'s children; then,
   * if the anchor is tracked, its marker takes the anchor's pose.
   */
  function UpdateImageStep(s: State, anchor: ImageAnchor): (r: State)
    requires Valid(s)
  {
    var s1 :=
      if anchor.id in s.entityMap then s
      else
        var e := s.nextEntity;
        State(s.entityMap[anchor.id := e], s.children + [e],
              s.entities[e := Marker(Identity, MarkerRadius)], s.nextEntity + 1);
    if anchor.isTracked then
      var e := s1.entityMap[anchor.id];
      s1.(entities := s1.entities[e := s1.entities[e].(transform := anchor.originFromAnchor)])
    else s1
  }

  /**
   * The first update for an anchor creates exactly one marker, records it
   * and parents it; a later one creates none and leaves the children alone.
   */
  lemma CreatesOnlyOnFirstUpdate(s: State, anchor: ImageAnchor)
    requires Valid(s)
    ensures var r := UpdateImageStep(s, anchor);
      && anchor.id in r.entityMap
      && (anchor.id !in s.entityMap ==>
            && r.nextEntity == s.nextEntity + 1
            && r.entityMap[anchor.id] == s.nextEntity
            && r.children == s.children + [s.nextEntity]
            && r.entities.Keys == s.entities.Keys + {s.nextEntity}
            && r.entities[s.nextEntity].radius == MarkerRadius)
      && (anchor.id in s.entityMap ==>
            && r.nextEntity == s.nextEntity
            && r.entityMap == s.entityMap
            && r.children == s.children
            && r.entities.Keys == s.entities.Keys)
  {
  }

  /**
   * Poses are written only for a tracked anchor: a tracked one puts its
   * marker at its pose, an untracked one leaves every existing marker's pose
   * alone and a new marker at the identity pose.
   */
  lemma TransformOnlyWhenTracked(s: State, anchor: ImageAnchor)
    requires Valid(s)
    ensures var r := UpdateImageStep(s, anchor);
      && (anchor.isTracked ==> r.entities[r.entityMap[anchor.id]].transform == anchor.originFromAnchor)
      && (!anchor.isTracked ==>
            && (forall e | e in s.entities :: r.entities[e] == s.entities[e])
            && r.entities[r.entityMap[anchor.id]].transform ==
                 if anchor.id in s.entityMap then s.entities[s.entityMap[anchor.id]].transform
                 else Identity)
  {
  }

  /** Markers of other anchors are untouched by an update. */
  lemma OthersUntouched(s: State, anchor: ImageAnchor, e: EntityId)
    requires Valid(s)
    requires e in s.entities
    requires anchor.id !in s.entityMap || e != s.entityMap[anchor.id]
    ensures e in UpdateImageStep(s, anchor).entities
    ensures UpdateImageStep(s, anchor).entities[e] == s.entities[e]
  {
  }

  /** `updateImage` keeps the table and the children in step. */
  lemma {:induction false} UpdateKeepsValid(s: State, anchor: ImageAnchor)
    requires Valid(s)
    ensures Valid(UpdateImageStep(s, anchor))
  {
    if anchor.id !in s.entityMap {
      var r := UpdateImageStep(s, anchor);
      var e := s.nextEntity;
      assert e !in s.entityMap.Values;
      forall x ensures x in r.children <==> x in r.entityMap.Values {
        if x in r.entityMap.Values {
          var a :| a in r.entityMap && r.entityMap[a] == x;
          if a != anchor.id {
            assert s.entityMap[a] == x;
          }
        }
        if x in s.entityMap.Values {
          var a :| a in s.entityMap && s.entityMap[a] == x;
          assert a in r.entityMap && r.entityMap[a] == x;
        }
        if x == e {
          assert anchor.id in r.entityMap && r.entityMap[anchor.id] == x;
        }
        assert x in r.children <==> x in s.children || x == e;
      }
      forall i, j | 0 <= i < j < |r.children| ensures r.children[i] != r.children[j] {
        if j == |s.children| {
          assert r.children[i] in s.entityMap.Values by {
            assert r.children[i] == s.children[i];
          }
        }
      }
    }
  }

  /** The state after a sequence of updates, in order. */
  function Run(s: State, anchors: seq<ImageAnchor>): (r: State)
    requires Valid(s)
    ensures Valid(r)
    decreases |anchors|
  {
    if anchors == [] then s
    else
      UpdateKeepsValid(s, anchors[0]);
      Run(UpdateImageStep(s, anchors[0]), anchors[1..])
  }

  /**
   * `entityMap` only grows: over any run of updates every entry stays,
   * mapped to the same marker, and every anchor seen has an entry.
   */
  lemma {:induction false} TableOnlyGrows(s: State, anchors: seq<ImageAnchor>)
    requires Valid(s)
    ensures var r := Run(s, anchors);
      && (forall a | a in s.entityMap :: a in r.entityMap && r.entityMap[a] == s.entityMap[a])
      && (forall i | 0 <= i < |anchors| :: anchors[i].id in r.entityMap)
    decreases |anchors|
  {
    if anchors != [] {
      var s1 := UpdateImageStep(s, anchors[0]);
      UpdateKeepsValid(s, anchors[0]);
      TableOnlyGrows(s1, anchors[1..]);
      assert forall i | 1 <= i < |anchors| :: anchors[i] == anchors[1..][i - 1];
    }
  }

  /** One update creates a marker exactly when it adds a table entry. */
  lemma StepCounts(s: State, anchor: ImageAnchor)
    requires Valid(s)
    ensures var r := UpdateImageStep(s, anchor);
      r.nextEntity - s.nextEntity == |r.entityMap| - |s.entityMap| <= 1
  {
    if anchor.id !in s.entityMap {
      var r := UpdateImageStep(s, anchor);
      assert r.entityMap.Keys == s.entityMap.Keys + {anchor.id};
    }
  }

  /**
   * However many updates arrive, each anchor gets one marker: the number of
   * markers created equals the number of table entries added.
   */
  lemma {:induction false} OneMarkerPerAnchor(s: State, anchors: seq<ImageAnchor>)
    requires Valid(s)
    ensures var r := Run(s, anchors);
      r.nextEntity - s.nextEntity == |r.entityMap| - |s.entityMap|
    decreases |anchors|
  {
    if anchors != [] {
      StepCounts(s, anchors[0]);
      UpdateKeepsValid(s, anchors[0]);
      OneMarkerPerAnchor(UpdateImageStep(s, anchors[0]), anchors[1..]);
    }
  }

  class ImageTrackingModel {
    var entityMap: map<AnchorId, EntityId>
    /** The children of `contentEntity`. */
    var contentChildren: seq<EntityId>
    var entities: map<EntityId, Marker>
    var nextEntity: EntityId

    function Snapshot(): State
      reads this
    {
      State(entityMap, contentChildren, entities, nextEntity)
    }

    ghost predicate Inv()
      reads this
    {
      Valid(Snapshot())
    }

    constructor()
      ensures Snapshot() == Initial() && Inv()
    {
      entityMap := map[];
      contentChildren := [];
      entities := map[];
      nextEntity := 0;
    }

    method UpdateImage(anchor: ImageAnchor)
      requires Inv()
      modifies this
      ensures Snapshot() == UpdateImageStep(old(Snapshot()), anchor)
      ensures Inv()
    {
      UpdateKeepsValid(Snapshot(), anchor);
      if anchor.id !in entityMap {
        var entity := nextEntity;
        nextEntity := nextEntity + 1;
        entities := entities[entity := Marker(Identity, MarkerRadius)];
        entityMap := entityMap[anchor.id := entity];
        contentChildren := contentChildren + [entity];
      }
      if anchor.isTracked {
        var entity := entityMap[anchor.id];
        entities := entities[entity := entities[entity].(transform := anchor.originFromAnchor)];
      }
    }
  }
}
