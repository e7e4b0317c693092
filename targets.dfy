/** Choosing the coordinate root and the target nodes of a combine, from the
    current selection, the active transform and the prefab being edited (if any). */
module TargetResolution {
  import opened SceneModel

  /** The root the geometry is expressed in and the nodes whose mesh filters are
      collected; or the null dereference of a missing first selected object. */
  datatype Resolution = Resolved(root: NodeId, targets: seq<NodeId>) | NullRoot

  /** The selected objects that still exist, in selection order. */
  function Present(selection: seq<Option<NodeId>>): seq<NodeId>
  {
    if selection == [] then []
    else
      var rest := Present(selection[..|selection| - 1]);
      match selection[|selection| - 1]
      case Some(n) => rest + [n]
      case None => rest
  }

  /** Whether a selected node is kept as a target while editing the prefab rooted at `root`. */
  predicate InPrefab(scene: Scene, n: NodeId, root: NodeId) {
    scene.IsChildOf(n, root) || n == root
  }

  /** The nodes that lie in the prefab rooted at `root`, in their original order. */
  function InSubtree(scene: Scene, nodes: seq<NodeId>, root: NodeId): seq<NodeId>
  {
    if nodes == [] then []
    else
      var rest := InSubtree(scene, nodes[..|nodes| - 1], root);
      var n := nodes[|nodes| - 1];
      if InPrefab(scene, n, root) then rest + [n] else rest
  }

  /** What target resolution computes. In a prefab stage the root is the prefab's
      root and the targets are the present selected nodes inside it, or the root
      alone when there are none. Otherwise the root is the active transform, else
      the first selected object, and every present selected node is a target. */
  function Resolve(scene: Scene, selection: seq<Option<NodeId>>, active: Option<NodeId>,
                   prefabRoot: Option<NodeId>): Resolution
    requires |selection| > 0
  {
    match prefabRoot
    case Some(root) =>
      var kept := InSubtree(scene, Present(selection), root);
      Resolved(root, if kept == [] then [root] else kept)
    case None =>
      match (if active.Some? then active else selection[0])
      case Some(root) => Resolved(root, Present(selection))
      case None => NullRoot
  }

  /** The root and target computation of CombineSelectedMeshes, run on a non-empty selection. */
  method ResolveTargets(scene: Scene, selection: seq<Option<NodeId>>, active: Option<NodeId>,
                        prefabRoot: Option<NodeId>) returns (r: Resolution)
    requires |selection| > 0
    ensures r == Resolve(scene, selection, active, prefabRoot)
  {
    match prefabRoot {
      case Some(root) =>
        var targets := SelectedInPrefab(scene, selection, root);
        if targets == [] {
          targets := [root];
        }
        r := Resolved(root, targets);
      case None =>
        var root := active;
        if root.None? {
          root := selection[0];
        }
        match root {
          case None =>
            r := NullRoot;
          case Some(rt) =>
            var targets := SelectedNodes(selection);
            r := Resolved(rt, targets);
        }
    }
  }

  /** The prefab-stage loop: the selected nodes that are the prefab root or lie under it, in selection order. */
  method SelectedInPrefab(scene: Scene, selection: seq<Option<NodeId>>, root: NodeId) returns (targets: seq<NodeId>)
    ensures targets == InSubtree(scene, Present(selection), root)
  {
    targets := [];
    for i := 0 to |selection|
      invariant targets == InSubtree(scene, Present(selection[..i]), root)
    {
      assert selection[..i + 1][..i] == selection[..i];
      var before := Present(selection[..i]);
      match selection[i] {
        case Some(n) =>
          assert (before + [n])[..|before|] == before;
          if InPrefab(scene, n, root) {
            targets := targets + [n];
          }
        case None =>
      }
    }
    assert selection[..|selection|] == selection;
  }

  /** The scene loop: every selected node that still exists, in selection order. */
  method SelectedNodes(selection: seq<Option<NodeId>>) returns (targets: seq<NodeId>)
    ensures targets == Present(selection)
  {
    targets := [];
    for i := 0 to |selection|
      invariant targets == Present(selection[..i])
    {
      assert selection[..i + 1][..i] == selection[..i];
      if selection[i].Some? {
        targets := targets + [selection[i].value];
      }
    }
    assert selection[..|selection|] == selection;
  }


  /** A node is present exactly when some selection slot holds it. */
  lemma {:induction false} PresentMembers(selection: seq<Option<NodeId>>, n: NodeId)
    ensures n in Present(selection) <==> Some(n) in selection
  {
    if selection != [] {
      var init := selection[..|selection| - 1];
      PresentMembers(init, n);
      assert selection == init + [selection[|selection| - 1]];
    }
  }

  /** Filtering missing objects keeps order: it distributes over concatenation. */
  lemma {:induction false} PresentConcat(a: seq<Option<NodeId>>, b: seq<Option<NodeId>>)
    ensures Present(a + b) == Present(a) + Present(b)
  {
    if b == [] {
      assert a + b == a;
    } else {
      var init := b[..|b| - 1];
      PresentConcat(a, init);
      assert (a + b)[..|a + b| - 1] == a + init;
    }
  }

  /** A node is kept exactly when it is one of the given nodes and lies in the prefab. */
  lemma {:induction false} InSubtreeMembers(scene: Scene, nodes: seq<NodeId>, root: NodeId, n: NodeId)
    ensures n in InSubtree(scene, nodes, root) <==> n in nodes && scene.IsChildOf(n, root)
  {
    IsChildOfSelf(scene, root);
    if nodes != [] {
      var init := nodes[..|nodes| - 1];
      InSubtreeMembers(scene, init, root, n);
      assert nodes == init + [nodes[|nodes| - 1]];
    }
  }

  /** Keeping the prefab's nodes preserves order: it distributes over concatenation. */
  lemma {:induction false} InSubtreeConcat(scene: Scene, a: seq<NodeId>, b: seq<NodeId>, root: NodeId)
    ensures InSubtree(scene, a + b, root) == InSubtree(scene, a, root) + InSubtree(scene, b, root)
  {
    if b == [] {
      assert a + b == a;
    } else {
      var init := b[..|b| - 1];
      InSubtreeConcat(scene, a, init, root);
      assert (a + b)[..|a + b| - 1] == a + init;
    }
  }

  /** In a prefab stage: the prefab root is the root; the targets are never empty,
      all lie in the prefab, and are exactly the present selected nodes inside
      it, or just the root when the selection holds none of them. */
  lemma PrefabTargets(scene: Scene, selection: seq<Option<NodeId>>, active: Option<NodeId>, root: NodeId)
    requires |selection| > 0
    ensures var r := Resolve(scene, selection, active, Some(root));
      && r == Resolved(root, r.targets)
      && |r.targets| > 0
      && (forall n :: n in r.targets ==> scene.IsChildOf(n, root))
      && ((exists m :: Some(m) in selection && scene.IsChildOf(m, root)) ==>
            forall n :: n in r.targets <==> Some(n) in selection && scene.IsChildOf(n, root))
      && ((forall m :: Some(m) in selection ==> !scene.IsChildOf(m, root)) ==> r.targets == [root])
  {
    var kept := InSubtree(scene, Present(selection), root);
    IsChildOfSelf(scene, root);
    forall n: NodeId
      ensures n in kept <==> Some(n) in selection && scene.IsChildOf(n, root)
    {
      InSubtreeMembers(scene, Present(selection), root, n);
      PresentMembers(selection, n);
    }
    if exists m :: Some(m) in selection && scene.IsChildOf(m, root) {
      var m :| Some(m) in selection && scene.IsChildOf(m, root);
      assert m in kept;
    }
    if kept != [] {
      assert kept[0] in kept;
    }
  }

  /** Outside a prefab stage: the root is the active transform if there is one,
      else the first selected object, and a missing first object is a null
      dereference; every present selected node is a target, in order. */
  lemma SceneTargets(scene: Scene, selection: seq<Option<NodeId>>, active: Option<NodeId>)
    requires |selection| > 0
    ensures var r := Resolve(scene, selection, active, None);
      && (active.Some? ==> r == Resolved(active.value, Present(selection)))
      && (active.None? && selection[0].Some? ==> r == Resolved(selection[0].value, Present(selection)))
      && (active.None? && selection[0].None? ==> r == NullRoot)
      && (r.Resolved? ==> forall n :: n in r.targets <==> Some(n) in selection)
  {
    forall n: NodeId
      ensures n in Present(selection) <==> Some(n) in selection
    {
      PresentMembers(selection, n);
    }
  }
}
