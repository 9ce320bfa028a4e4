/**
 * Entities of the scene graph as handles into an arena: an entity is named by
 * the number it was given when it was created, and a parent's child list is a
 * sequence of such handles. Anchor identifiers (`UUID`s) are numbers too.
 */
module SceneGraph {

  type EntityId = nat

  type AnchorId = nat

  /** No two anchors share an entity. */
  ghost predicate Injective(m: map<AnchorId, EntityId>)
  {
    forall a, b | a in m && b in m && a != b :: m[a] != m[b]
  }

  /** The kind of an anchor update delivered by a data provider. */
  datatype AnchorEvent = Added | Updated | Removed

  /** No handle occurs twice in `s`. */
  predicate NoDuplicates(s: seq<EntityId>)
  {
    forall i, j | 0 <= i < j < |s| :: s[i] != s[j]
  }

  /** `removeFromParent()`: the child list with every occurrence of `e` taken out. */
  function Without(s: seq<EntityId>, e: EntityId): (r: seq<EntityId>)
    ensures e !in r
    ensures forall x :: x in r <==> x in s && x != e
    ensures |r| <= |s|
  {
    if s == [] then []
    else if s[0] == e then Without(s[1..], e)
    else [s[0]] + Without(s[1..], e)
  }

  /** The head of a list without duplicates does not occur in its tail. */
  lemma HeadNotInTail(s: seq<EntityId>)
    requires s != [] && NoDuplicates(s)
    ensures s[0] !in s[1..]
  {
    forall x | x in s[1..] ensures x != s[0] {
      var k :| 0 <= k < |s[1..]| && s[1..][k] == x;
      assert s[k + 1] == x;
    }
  }

  lemma {:induction false} WithoutKeepsNoDuplicates(s: seq<EntityId>, e: EntityId)
    requires NoDuplicates(s)
    ensures NoDuplicates(Without(s, e))
  {
    if s != [] {
      assert NoDuplicates(s[1..]);
      WithoutKeepsNoDuplicates(s[1..], e);
      HeadNotInTail(s);
    }
  }

  /** A child removed that was present exactly once shortens the list by one. */
  lemma {:induction false} WithoutPresentOnce(s: seq<EntityId>, e: EntityId)
    requires NoDuplicates(s) && e in s
    ensures |Without(s, e)| == |s| - 1
  {
    assert NoDuplicates(s[1..]);
    if s[0] == e {
      HeadNotInTail(s);
      assert Without(s[1..], e) == s[1..] by { WithoutAbsent(s[1..], e); }
    } else {
      WithoutPresentOnce(s[1..], e);
    }
  }

  lemma {:induction false} WithoutAbsent(s: seq<EntityId>, e: EntityId)
    requires e !in s
    ensures Without(s, e) == s
  {
    if s != [] {
      WithoutAbsent(s[1..], e);
    }
  }
}
