/** Target inheritance: an entity marked to inherit its parent's target has its
    own Target overwritten with its parent's, in place, one child at a time. */
module Targets {
  import opened Ecs
  import opened Combat

  /** What a child reads from its parent: the parent's target, or no target when
      the parent has no Target component. */
  function ParentTarget(p: EntityId, targets: map<EntityId, Target>): Target
  {
    if p in targets then targets[p] else NoTarget
  }

  /** One iteration: the child `e` takes its parent's current target, if `e` has a
      Target component to overwrite. */
  function CopyOne(targets: map<EntityId, Target>, e: EntityId, parents: map<EntityId, EntityId>)
    : (targets': map<EntityId, Target>)
    requires e in parents
    ensures targets'.Keys == targets.Keys
    ensures forall x :: x in targets && x != e ==> targets'[x] == targets[x]
    ensures e in targets ==> targets'[e] == ParentTarget(parents[e], targets)
  {
    if e in targets then targets[e := ParentTarget(parents[e], targets)] else targets
  }

  /** The children of `order` processed one after another. */
  function CopyAll(order: seq<EntityId>, targets: map<EntityId, Target>, parents: map<EntityId, EntityId>)
    : (targets': map<EntityId, Target>)
    requires forall e :: e in order ==> e in parents
    ensures targets'.Keys == targets.Keys
    decreases |order|
  {
    if order == [] then targets
    else CopyOne(CopyAll(order[..|order| - 1], targets, parents), order[|order| - 1], parents)
  }

  /** `copy_targets_from_parents` over the inheriting entities with a parent,
      visited in `order`. */
  method CopyTargetsFromParents(order: seq<EntityId>, inheriting: set<EntityId>, parents: map<EntityId, EntityId>,
                                targets: map<EntityId, Target>)
    returns (targets': map<EntityId, Target>)
    requires IsOrderOf(order, inheriting * parents.Keys)
    ensures targets' == CopyAll(order, targets, parents)
    ensures targets'.Keys == targets.Keys
  {
    targets' := targets;
    assert forall e :: e in order ==> e in parents;
    var i := 0;
    while i < |order|
      invariant 0 <= i <= |order|
      invariant forall e :: e in order[..i] ==> e in parents
      invariant targets' == CopyAll(order[..i], targets, parents)
    {
      assert order[..i + 1][..i] == order[..i];
      var e := order[i];
      assert e in order;
      var parentTarget := if parents[e] in targets' then targets'[parents[e]] else NoTarget;
      if e in targets' {
        targets' := targets'[e := parentTarget];
      }
      i := i + 1;
    }
    assert order[..|order|] == order;
  }

  /** Entities that are not visited keep their targets. */
  lemma {:induction false} UnvisitedKeepTargets(order: seq<EntityId>, targets: map<EntityId, Target>,
                                                parents: map<EntityId, EntityId>, x: EntityId)
    requires forall e :: e in order ==> e in parents
    requires x in targets && x !in order
    ensures CopyAll(order, targets, parents)[x] == targets[x]
    decreases |order|
  {
    if order != [] {
      UnvisitedKeepTargets(order[..|order| - 1], targets, parents, x);
    }
  }

  /** When no parent is itself visited, the iteration order does not matter: every
      visited child with a Target ends with its parent's target as it was before
      the call. */
  lemma {:induction false} CopyAllClosedForm(order: seq<EntityId>, targets: map<EntityId, Target>,
                                             parents: map<EntityId, EntityId>)
    requires forall e :: e in order ==> e in parents
    requires forall e :: e in order ==> parents[e] !in order
    ensures forall e :: e in order && e in targets ==>
      CopyAll(order, targets, parents)[e] == ParentTarget(parents[e], targets)
    decreases |order|
  {
    if order != [] {
      var prefix := order[..|order| - 1];
      var last := order[|order| - 1];
      CopyAllClosedForm(prefix, targets, parents);
      var before := CopyAll(prefix, targets, parents);
      if parents[last] in targets {
        UnvisitedKeepTargets(prefix, targets, parents, parents[last]);
      }
      assert ParentTarget(parents[last], before) == ParentTarget(parents[last], targets);
    }
  }

  /** With a chain of inheritance (2 inherits from 1, which inherits from 0), the
      result depends on the iteration order: visiting the grandchild first hands
      it its parent's old target, visiting it last hands it the grandparent's. */
  lemma ChainDependsOnOrder()
    ensures var targets := map[0 := Some(10), 1 := Some(11), 2 := Some(12)];
      var parents := map[1 := 0, 2 := 1];
      CopyAll([2, 1], targets, parents)[2] == Some(11) &&
      CopyAll([1, 2], targets, parents)[2] == Some(10)
  {
    var targets := map[0 := Some(10), 1 := Some(11), 2 := Some(12)];
    var parents := map[1 := 0, 2 := 1];
    assert [2, 1][..1] == [2] && [2][..0] == [];
    assert [1, 2][..1] == [1] && [1][..0] == [];
    assert CopyAll([2], targets, parents) == CopyOne(targets, 2, parents);
    assert CopyAll([1], targets, parents) == CopyOne(targets, 1, parents);
  }
}
