/**
 * The scene-tree searches of the `Entity` extension: upward walks from an
 * entity through its parents, and depth-first searches through its
 * descendants. An entity is a node of a tree of names; the entity a walk
 * starts from is given by its path of child positions from the root, so its
 * parent is the path without its last step.
 */
module EntityTree {
  import opened Wrappers

  datatype Entity = Entity(name: string, hasModelComponent: bool, children: seq<Entity>)

  type Path = seq<nat>

  // ---------------------------------------------------------------------
  // Name predicates.

  /** `String.contains`: `part` occurs in `s` as a contiguous run. */
  predicate Contains(s: string, part: string)
  {
    exists i | 0 <= i <= |s| - |part| :: OccursAt(s, part, i)
  }

  /** `part` occurs in `s` starting at position `i`. */
  predicate OccursAt(s: string, part: string, i: nat)
  {
    i + |part| <= |s| && s[i..i + |part|] == part
  }

  /** `String.hasPrefix`. */
  predicate HasPrefix(s: string, prefix: string)
  {
    |prefix| <= |s| && s[..|prefix|] == prefix
  }

  /** A prefix is a contiguous run of the string. */
  lemma PrefixIsContained(s: string, prefix: string)
    requires HasPrefix(s, prefix)
    ensures Contains(s, prefix)
  {
    assert OccursAt(s, prefix, 0);
  }

  // ---------------------------------------------------------------------
  // Walking up.

  /** `path` leads from `root` to an entity. */
  predicate ValidPath(root: Entity, path: Path)
    decreases |path|
  {
    path == [] || (path[0] < |root.children| && ValidPath(root.children[path[0]], path[1..]))
  }

  /** The entity at the end of `path`. */
  function At(root: Entity, path: Path): Entity
    requires ValidPath(root, path)
    decreases |path|
  {
    if path == [] then root else At(root.children[path[0]], path[1..])
  }

  /** Every prefix of a valid path is valid: the ancestors of an entity exist. */
  lemma {:induction false} PrefixValid(root: Entity, path: Path, k: nat)
    requires ValidPath(root, path) && k <= |path|
    ensures ValidPath(root, path[..k])
    decreases |path|
  {
    if k > 0 {
      assert path[..k][1..] == path[1..][..k - 1];
      PrefixValid(root.children[path[0]], path[1..], k - 1);
    }
  }

  /**
   * The upward walk shared by `subscript(parentMatching:)`,
   * `getParentHasPrefix` and `getParentName`: the entity itself when its
   * name matches, otherwise the walk from its parent, and nothing past the
   * root. The result is the path of the entity found.
   */
  function WalkUp(root: Entity, path: Path, matches: string -> bool): (r: Option<Path>)
    requires ValidPath(root, path)
    ensures r.Some? ==> |r.value| <= |path| && r.value == path[..|r.value|]
    ensures r.Some? ==> ValidPath(root, r.value) && matches(At(root, r.value).name)
    ensures r.Some? ==> forall k | |r.value| < k <= |path| ::
      ValidPath(root, path[..k]) && !matches(At(root, path[..k]).name)
    ensures r.None? ==> forall k | 0 <= k <= |path| ::
      ValidPath(root, path[..k]) && !matches(At(root, path[..k]).name)
    decreases |path|
  {
    if matches(At(root, path).name) then
      assert path[..|path|] == path;
      Some(path)
    else if path == [] then
      assert forall k | 0 <= k <= |path| :: path[..k] == path;
      None
    else
      var parent := path[..|path| - 1];
      PrefixValid(root, path, |path| - 1);
      assert forall k | 0 <= k <= |parent| :: parent[..k] == path[..k];
      assert path[..|path|] == path;
      WalkUp(root, parent, matches)
  }

  /** `subscript(parentMatching:)`: the nearest self-or-ancestor whose name contains `target`. */
  function ParentMatching(root: Entity, path: Path, target: string): Option<Path>
    requires ValidPath(root, path)
  {
    WalkUp(root, path, name => Contains(name, target))
  }

  /** `getParentHasPrefix(nameBeginsWith:)`: the nearest self-or-ancestor whose name starts with `prefix`. */
  function ParentHasPrefix(root: Entity, path: Path, prefix: string): Option<Path>
    requires ValidPath(root, path)
  {
    WalkUp(root, path, name => HasPrefix(name, prefix))
  }

  /** `getParentName(withName:)`: the nearest self-or-ancestor named exactly `name`. */
  function ParentNamed(root: Entity, path: Path, name: string): Option<Path>
    requires ValidPath(root, path)
  {
    WalkUp(root, path, n => n == name)
  }

  /** The three upward walks find what they promise, nearest first. */
  lemma ParentWalksSound(root: Entity, path: Path, s: string)
    requires ValidPath(root, path)
    ensures ParentMatching(root, path, s).Some? ==> Contains(At(root, ParentMatching(root, path, s).value).name, s)
    ensures ParentHasPrefix(root, path, s).Some? ==> HasPrefix(At(root, ParentHasPrefix(root, path, s).value).name, s)
    ensures ParentNamed(root, path, s).Some? ==> At(root, ParentNamed(root, path, s).value).name == s
    ensures ParentNamed(root, path, s).None? <==>
      forall k | 0 <= k <= |path| :: ValidPath(root, path[..k]) && At(root, path[..k]).name != s
  {
    var r := ParentNamed(root, path, s);
    if r.Some? {
      assert ValidPath(root, path[..|r.value|]) && At(root, path[..|r.value|]).name == s;
    }
  }

  /**
   * Where an entity's own name has the prefix, `getParentHasPrefix` stops
   * there, so it never lands farther up than `parentMatching` with the same
   * string.
   */
  lemma PrefixWalkNoHigherThanContains(root: Entity, path: Path, s: string)
    requires ValidPath(root, path)
    requires ParentHasPrefix(root, path, s).Some?
    ensures ParentMatching(root, path, s).Some?
    ensures |ParentHasPrefix(root, path, s).value| <= |ParentMatching(root, path, s).value|
  {
    var p := ParentHasPrefix(root, path, s).value;
    PrefixIsContained(At(root, p).name, s);
    assert p == path[..|p|];
  }

  // ---------------------------------------------------------------------
  // Searching down.

  /** The entity followed by its descendants, depth first, children in order. */
  function PreOrder(e: Entity): (r: seq<Entity>)
    ensures |r| >= 1 && r[0] == e
    decreases e, 1
  {
    [e] + PreOrderAll(e.children)
  }

  function PreOrderAll(es: seq<Entity>): seq<Entity>
    decreases es, 0
  {
    if es == [] then [] else PreOrder(es[0]) + PreOrderAll(es[1..])
  }

  /** The first entity of `es` whose name matches. */
  function FindFirst(es: seq<Entity>, matches: string -> bool): (r: Option<Entity>)
    ensures r.None? <==> forall i | 0 <= i < |es| :: !matches(es[i].name)
    ensures r.Some? ==> exists i | 0 <= i < |es| ::
      es[i] == r.value && matches(es[i].name) && forall j | 0 <= j < i :: !matches(es[j].name)
  {
    if es == [] then None
    else if matches(es[0].name) then Some(es[0])
    else
      var r := FindFirst(es[1..], matches);
      assert forall i | 1 <= i < |es| :: es[i] == es[1..][i - 1];
      if r.Some? then
        var i :| 0 <= i < |es[1..]| && es[1..][i] == r.value && matches(es[1..][i].name)
                 && forall j | 0 <= j < i :: !matches(es[1..][j].name);
        assert es[i + 1] == r.value;
        r
      else r
  }

  lemma {:induction false} FindFirstAppend(a: seq<Entity>, b: seq<Entity>, matches: string -> bool)
    ensures FindFirst(a + b, matches) == if FindFirst(a, matches).Some? then FindFirst(a, matches) else FindFirst(b, matches)
  {
    if a == [] {
      assert a + b == b;
    } else {
      assert (a + b)[1..] == a[1..] + b;
      FindFirstAppend(a[1..], b, matches);
    }
  }

  /**
   * The depth-first search shared by `subscript(descendentMatching:)` and
   * `getSelfOrDescendent(withName:)`: the entity itself when its name
   * matches, otherwise the first hit among its children's searches, in order.
   */
  function SearchDown(e: Entity, matches: string -> bool): Option<Entity>
    decreases e, 1
  {
    if matches(e.name) then Some(e) else SearchChildren(e.children, matches)
  }

  function SearchChildren(es: seq<Entity>, matches: string -> bool): Option<Entity>
    decreases es, 0
  {
    if es == [] then None
    else
      var hit := SearchDown(es[0], matches);
      if hit.Some? then hit else SearchChildren(es[1..], matches)
  }

  /** The depth-first search returns the first match in pre-order. */
  lemma {:induction false} SearchDownIsFirstInPreOrder(e: Entity, matches: string -> bool)
    ensures SearchDown(e, matches) == FindFirst(PreOrder(e), matches)
    decreases e, 1
  {
    FindFirstAppend([e], PreOrderAll(e.children), matches);
    SearchChildrenIsFirstInPreOrder(e.children, matches);
  }

  lemma {:induction false} SearchChildrenIsFirstInPreOrder(es: seq<Entity>, matches: string -> bool)
    ensures SearchChildren(es, matches) == FindFirst(PreOrderAll(es), matches)
    decreases es, 0
  {
    if es != [] {
      SearchDownIsFirstInPreOrder(es[0], matches);
      SearchChildrenIsFirstInPreOrder(es[1..], matches);
      FindFirstAppend(PreOrder(es[0]), PreOrderAll(es[1..]), matches);
    }
  }

  /** `subscript(descendentMatching:)`. */
  function DescendentMatching(e: Entity, target: string): (r: Option<Entity>)
    ensures r == FindFirst(PreOrder(e), name => Contains(name, target))
  {
    SearchDownIsFirstInPreOrder(e, name => Contains(name, target));
    SearchDown(e, name => Contains(name, target))
  }

  /** `getSelfOrDescendent(withName:)`. */
  function SelfOrDescendent(e: Entity, name: string): (r: Option<Entity>)
    ensures r == FindFirst(PreOrder(e), n => n == name)
    ensures r.Some? ==> r.value.name == name && r.value in PreOrder(e)
  {
    SearchDownIsFirstInPreOrder(e, n => n == name);
    SearchDown(e, n => n == name)
  }

  /**
   * `descendentsWithModelComponent`: for each child in order, the child when
   * it has a model component, then the same list for the child.
   */
  function ModelDescendants(e: Entity): seq<Entity>
    decreases e, 1
  {
    ModelDescendantsAll(e.children)
  }

  function ModelDescendantsAll(es: seq<Entity>): seq<Entity>
    decreases es, 0
  {
    if es == [] then []
    else (if es[0].hasModelComponent then [es[0]] else []) + ModelDescendants(es[0]) + ModelDescendantsAll(es[1..])
  }

  /** The entities of `es` that have a model component, in order. */
  function WithModel(es: seq<Entity>): (r: seq<Entity>)
    ensures forall x | x in r :: x in es && x.hasModelComponent
    ensures forall x | x in es && x.hasModelComponent :: x in r
  {
    if es == [] then []
    else (if es[0].hasModelComponent then [es[0]] else []) + WithModel(es[1..])
  }

  lemma {:induction false} WithModelAppend(a: seq<Entity>, b: seq<Entity>)
    ensures WithModel(a + b) == WithModel(a) + WithModel(b)
  {
    if a == [] {
      assert a + b == b;
    } else {
      assert (a + b)[1..] == a[1..] + b;
      WithModelAppend(a[1..], b);
    }
  }

  /**
   * `descendentsWithModelComponent` lists exactly the strict descendants
   * that have a model component, in pre-order; the entity itself is left
   * out even when it has one.
   */
  lemma {:induction false} ModelDescendantsArePreOrder(e: Entity)
    ensures ModelDescendants(e) == WithModel(PreOrder(e)[1..])
    decreases e, 1
  {
    assert PreOrder(e)[1..] == PreOrderAll(e.children);
    ModelDescendantsAllArePreOrder(e.children);
  }

  lemma {:induction false} ModelDescendantsAllArePreOrder(es: seq<Entity>)
    ensures ModelDescendantsAll(es) == WithModel(PreOrderAll(es))
    decreases es, 0
  {
    if es != [] {
      ModelDescendantsArePreOrder(es[0]);
      ModelDescendantsAllArePreOrder(es[1..]);
      var pre := PreOrder(es[0]);
      assert pre == [es[0]] + pre[1..];
      WithModelAppend(pre, PreOrderAll(es[1..]));
      WithModelAppend([es[0]], pre[1..]);
    }
  }
}
