/** Collecting the mesh filters under the target nodes. */
module FilterCollection {
  import opened SceneModel

  /** The mesh filters under every target, target by target, each target's filters
      in the host's traversal order. Nothing is deduplicated. */
  function Gather(scene: Scene, targets: seq<NodeId>): seq<MeshFilter>
  {
    if targets == [] then []
    else Gather(scene, targets[..|targets| - 1]) + scene.ComponentsInChildren(targets[|targets| - 1])
  }

  /** The collection loop of CombineSelectedMeshes. */
  method CollectFilters(scene: Scene, targets: seq<NodeId>) returns (meshFilters: seq<MeshFilter>)
    ensures meshFilters == Gather(scene, targets)
  {
    meshFilters := [];
    for i := 0 to |targets|
      invariant meshFilters == Gather(scene, targets[..i])
    {
      assert targets[..i + 1][..i] == targets[..i];
      meshFilters := meshFilters + scene.ComponentsInChildren(targets[i]);
    }
    assert targets[..|targets|] == targets;
  }

  /** A filter is collected exactly when it lies under one of the targets. */
  lemma {:induction false} GatherMembers(scene: Scene, targets: seq<NodeId>, f: MeshFilter)
    ensures f in Gather(scene, targets) <==>
      exists i :: 0 <= i < |targets| && f in scene.ComponentsInChildren(targets[i])
  {
    if targets != [] {
      var init := targets[..|targets| - 1];
      GatherMembers(scene, init, f);
      if f in scene.ComponentsInChildren(targets[|targets| - 1]) {
        assert 0 <= |targets| - 1 < |targets|;
      }
      if exists i :: 0 <= i < |targets| - 1 && f in scene.ComponentsInChildren(targets[i]) {
        var i :| 0 <= i < |targets| - 1 && f in scene.ComponentsInChildren(targets[i]);
        assert init[i] == targets[i];
      }
    }
  }

  /** Every target adds all of its filters: a filter is collected at least as
      often as it lies under any one target. */
  lemma {:induction false} GatherCountsTarget(scene: Scene, targets: seq<NodeId>, i: nat, f: MeshFilter)
    requires i < |targets|
    ensures multiset(Gather(scene, targets))[f] >= multiset(scene.ComponentsInChildren(targets[i]))[f]
  {
    var init := targets[..|targets| - 1];
    if i < |targets| - 1 {
      GatherCountsTarget(scene, init, i, f);
      assert init[i] == targets[i];
    }
  }

  /** Two different target positions contribute separately to the collected filters. */
  lemma {:induction false} GatherCountsTwoTargets(scene: Scene, targets: seq<NodeId>, i: nat, j: nat, f: MeshFilter)
    requires i < j < |targets|
    ensures multiset(Gather(scene, targets))[f] >=
      multiset(scene.ComponentsInChildren(targets[i]))[f] + multiset(scene.ComponentsInChildren(targets[j]))[f]
  {
    var init := targets[..|targets| - 1];
    assert init[i] == targets[i];
    if j < |targets| - 1 {
      GatherCountsTwoTargets(scene, init, i, j, f);
      assert init[j] == targets[j];
    } else {
      GatherCountsTarget(scene, init, i, f);
    }
  }

  /** Selecting a node together with one of its descendants collects the
      descendant's filters twice: the collection does not deduplicate. */
  lemma OverlappingTargetsCollectTwice(scene: Scene, targets: seq<NodeId>, parent: nat, child: nat, f: MeshFilter)
    requires scene.SubtreesNested()
    requires parent < |targets| && child < |targets| && parent != child
    requires scene.IsChildOf(targets[child], targets[parent])
    requires f in scene.ComponentsInChildren(targets[child])
    ensures multiset(Gather(scene, targets))[f] >= 2
  {
    assert f in scene.ComponentsInChildren(targets[parent]);
    if parent < child {
      GatherCountsTwoTargets(scene, targets, parent, child, f);
    } else {
      GatherCountsTwoTargets(scene, targets, child, parent, f);
    }
  }
}
