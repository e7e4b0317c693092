/** The "Combine selected meshes" menu command: resolve the targets, collect
    their mesh filters, bucket every submesh by material, merge each bucket into
    a single-submesh mesh, compose those into one mesh with one submesh per
    material, attach it with the matching material array to a new object, and
    switch off the original renderers. */
module MeshCombinerTool {
  import opened SceneModel
  import opened TargetResolution
  import opened FilterCollection
  import opened MaterialGrouping

  /** The early exits, all taken before anything is created or changed. The
      null root is the exception thrown when there is no active transform and
      the first selected object is missing. */
  datatype Failure = EmptySelection | NullRootObject | NoMeshFilters | NoCombineInstances

  /** The new "CombinedMesh" object: its mesh, its material array and its parent
      (the root inside a prefab stage, the scene's top level otherwise). */
  datatype CombinedObject = CombinedObject(mesh: Mesh, sharedMaterials: seq<Material>, parent: Option<NodeId>)

  datatype Outcome = Aborted(reason: Failure) | Succeeded(combined: CombinedObject)

  /** One temporary mesh per bucket, its submeshes merged into one, instance transforms applied. */
  function PerMaterialMeshes(perMaterial: seq<Bucket>): seq<Mesh>
  {
    seq(|perMaterial|, i requires 0 <= i < |perMaterial| => Combined(perMaterial[i].instances, true, true))
  }

  /** The final mesh: the temporary meshes composed without merging submeshes and without applying transforms. */
  function FinalMesh(meshesPerMaterial: seq<Mesh>): Mesh
  {
    Combined(seq(|meshesPerMaterial|, i requires 0 <= i < |meshesPerMaterial| =>
               CombineInstance(meshesPerMaterial[i], 0, Identity)), false, false)
  }

  /** Enumerates the dictionary once, filling the temporary meshes and the
      material order from the same entry, so both lists stay index-aligned. */
  method BuildPerMaterial(perMaterial: seq<Bucket>) returns (meshesPerMaterial: seq<Mesh>, materialOrder: seq<Material>)
    ensures |meshesPerMaterial| == |materialOrder| == |perMaterial|
    ensures forall i :: 0 <= i < |perMaterial| ==>
      && materialOrder[i] == perMaterial[i].material
      && meshesPerMaterial[i].Combined? && meshesPerMaterial[i].mergeSubMeshes && meshesPerMaterial[i].useMatrices
      && meshesPerMaterial[i] == Combined(perMaterial[i].instances, true, true)
      && SubMeshCount(meshesPerMaterial[i]) == 1
  {
    meshesPerMaterial := [];
    materialOrder := [];
    for i := 0 to |perMaterial|
      invariant |meshesPerMaterial| == |materialOrder| == i
      invariant forall j :: 0 <= j < i ==>
        materialOrder[j] == perMaterial[j].material && meshesPerMaterial[j] == Combined(perMaterial[j].instances, true, true)
    {
      var tmp := Combined(perMaterial[i].instances, true, true);
      meshesPerMaterial := meshesPerMaterial + [tmp];
      materialOrder := materialOrder + [perMaterial[i].material];
    }
  }

  /** Fills the final combine instances by index and composes the final mesh:
      one submesh per temporary mesh, submesh i taken from temporary mesh i. */
  method ComposeFinal(meshesPerMaterial: seq<Mesh>) returns (finalMesh: Mesh)
    ensures finalMesh.Combined? && !finalMesh.mergeSubMeshes && !finalMesh.useMatrices
    ensures SubMeshCount(finalMesh) == |meshesPerMaterial|
    ensures forall i :: 0 <= i < |meshesPerMaterial| ==>
      finalMesh.instances[i] == CombineInstance(meshesPerMaterial[i], 0, Identity)
  {
    var finalCIs := new CombineInstance[|meshesPerMaterial|];
    for i := 0 to |meshesPerMaterial|
      invariant forall j :: 0 <= j < i ==> finalCIs[j] == CombineInstance(meshesPerMaterial[j], 0, Identity)
    {
      finalCIs[i] := CombineInstance(meshesPerMaterial[i], 0, Identity);
    }
    finalMesh := Combined(finalCIs[..], false, false);
  }

  /** The renderers on the collected filters, whether or not the filter has a mesh. */
  ghost function RenderersOf(filters: seq<MeshFilter>): set<MeshRenderer>
  {
    set f | f in filters && f.renderer != null :: f.renderer
  }

  /** Switches off the renderer of every collected filter; no other renderer changes. */
  method DisableRenderers(meshFilters: seq<MeshFilter>)
    modifies RenderersOf(meshFilters)
    ensures forall r :: r in RenderersOf(meshFilters) ==> !r.enabled
  {
    for i := 0 to |meshFilters|
      invariant forall j :: 0 <= j < i && meshFilters[j].renderer != null ==> !meshFilters[j].renderer.enabled
    {
      var mr := meshFilters[i].renderer;
      if mr != null {
        mr.enabled := false;
      }
    }
  }

  /** The collected filters are scene filters, so their renderers are scene renderers. */
  lemma CollectedRenderers(scene: Scene, targets: seq<NodeId>)
    ensures RenderersOf(Gather(scene, targets)) <= scene.Renderers()
  {
    forall r | r in RenderersOf(Gather(scene, targets))
      ensures r in scene.Renderers()
    {
      var f :| f in Gather(scene, targets) && f.renderer == r;
      GatherMembers(scene, targets, f);
      var i :| 0 <= i < |targets| && f in scene.ComponentsInChildren(targets[i]);
      var t := targets[i];
      var j :| 0 <= j < |scene.inChildren[t]| && scene.inChildren[t][j] == f;
    }
  }

  /** What a successful run attaches to the new object, given the dictionary. */
  function Combination(perMaterial: seq<Bucket>, root: NodeId, prefabRoot: Option<NodeId>): CombinedObject
  {
    CombinedObject(FinalMesh(PerMaterialMeshes(perMaterial)), Materials(perMaterial),
                   if prefabRoot.Some? then Some(root) else None)
  }

  /** The command, over the scene, the selection (a missing entry is a destroyed
      object), the active transform and the root of the prefab being edited. The
      ghost `keys` are the materials the visited submeshes were bucketed under. */
  method CombineSelectedMeshes(scene: Scene, selection: seq<Option<NodeId>>, active: Option<NodeId>,
                               prefabRoot: Option<NodeId>)
    returns (outcome: Outcome, ghost keys: seq<Material>)
    modifies scene.Renderers()
    ensures |selection| == 0 ==> outcome == Aborted(EmptySelection)
    ensures |selection| > 0 ==>
      match Resolve(scene, selection, active, prefabRoot)
      case NullRoot => outcome == Aborted(NullRootObject)
      case Resolved(root, targets) =>
        var filters := Gather(scene, targets);
        var es := Entries(filters, WorldToLocal(root));
        if filters == [] then outcome == Aborted(NoMeshFilters)
        else
          && Resolves(es, keys)
          && (forall k :: 0 <= k < |es| && es[k].slot == null ==> fresh(keys[k]))
          && (if TotalSubMeshes(filters) == 0 then outcome == Aborted(NoCombineInstances)
              else outcome == Succeeded(Combination(Group(es, keys), root, prefabRoot)))
          && (outcome.Succeeded? ==>
                forall r :: r in scene.Renderers() ==> r.enabled == (old(r.enabled) && r !in RenderersOf(filters)))
    ensures outcome.Aborted? ==> forall r :: r in scene.Renderers() ==> r.enabled == old(r.enabled)
  {
    keys := [];
    if |selection| == 0 {
      outcome := Aborted(EmptySelection);
      return;
    }
    var resolution := ResolveTargets(scene, selection, active, prefabRoot);
    if resolution.NullRoot? {
      outcome := Aborted(NullRootObject);
      return;
    }
    var root := resolution.root;
    var meshFilters := CollectFilters(scene, resolution.targets);
    if |meshFilters| == 0 {
      outcome := Aborted(NoMeshFilters);
      return;
    }
    var perMaterial;
    perMaterial, keys := GroupByMaterial(meshFilters, root);
    GroupEmpty(meshFilters, WorldToLocal(root), keys);
    if |perMaterial| == 0 {
      outcome := Aborted(NoCombineInstances);
      return;
    }
    var meshesPerMaterial, materialOrder := BuildPerMaterial(perMaterial);
    var finalMesh := ComposeFinal(meshesPerMaterial);
    assert meshesPerMaterial == PerMaterialMeshes(perMaterial);
    assert materialOrder == Materials(perMaterial);
    assert finalMesh == FinalMesh(meshesPerMaterial);
    var parent := if prefabRoot.Some? then Some(root) else None;
    CollectedRenderers(scene, resolution.targets);
    DisableRenderers(meshFilters);
    outcome := Succeeded(CombinedObject(finalMesh, materialOrder, parent));
  }

  /** The invariant of the combined object: it has one submesh per distinct
      material, in first-seen order, and submesh i merges exactly the visited
      submeshes that render with material i, so the mesh and the material array
      never fall out of step. */
  lemma CombinedMeshPairing(entries: seq<Entry>, keys: seq<Material>, root: NodeId, prefabRoot: Option<NodeId>)
    requires |entries| == |keys|
    ensures var c := Combination(Group(entries, keys), root, prefabRoot);
      && c.sharedMaterials == FirstSeen(keys)
      && Distinct(c.sharedMaterials)
      && (forall m :: m in c.sharedMaterials <==> m in keys)
      && SubMeshCount(c.mesh) == |c.sharedMaterials|
      && forall i :: 0 <= i < |c.sharedMaterials| ==>
           && c.mesh.instances[i] == CombineInstance(Combined(Select(entries, keys, c.sharedMaterials[i]), true, true), 0, Identity)
           && SubMeshCount(c.mesh.instances[i].mesh) == 1
  {
    var g := Group(entries, keys);
    GroupOrder(entries, keys);
    GroupKeys(entries, keys);
    GroupContents(entries, keys);
    var c := Combination(g, root, prefabRoot);
    forall i | 0 <= i < |c.sharedMaterials|
      ensures c.mesh.instances[i] == CombineInstance(Combined(Select(entries, keys, c.sharedMaterials[i]), true, true), 0, Identity)
    {
      assert c.sharedMaterials[i] == g[i].material;
    }
  }

  /** Worked example: A has a two-submesh mesh rendered with [x, y], B a
      one-submesh mesh rendered with [x]. The result has materials [x, y] and two
      submeshes: the first merges A's submesh 0 with B's submesh 0, the second
      holds A's submesh 1; all of them expressed in the root's space. */
  lemma TwoObjectsExample(fA: MeshFilter, fB: MeshFilter, x: Material, y: Material, keys: seq<Material>, root: NodeId)
    requires x != y
    requires fA.sharedMesh == Some(Imported(1, 2)) && fA.renderer != null && fA.renderer.sharedMaterials == [x, y]
    requires fB.sharedMesh == Some(Imported(2, 1)) && fB.renderer != null && fB.renderer.sharedMaterials == [x]
    requires Resolves(Entries([fA, fB], WorldToLocal(root)), keys)
    ensures var c := Combination(Group(Entries([fA, fB], WorldToLocal(root)), keys), root, None);
      && c.sharedMaterials == [x, y]
      && SubMeshCount(c.mesh) == 2
      && c.mesh.instances[0].mesh == Combined([
           CombineInstance(Imported(1, 2), 0, Mul(WorldToLocal(root), LocalToWorld(fA.node))),
           CombineInstance(Imported(2, 1), 0, Mul(WorldToLocal(root), LocalToWorld(fB.node)))], true, true)
      && c.mesh.instances[1].mesh == Combined([
           CombineInstance(Imported(1, 2), 1, Mul(WorldToLocal(root), LocalToWorld(fA.node)))], true, true)
  {
    var toRoot := WorldToLocal(root);
    var ciA0 := CombineInstance(Imported(1, 2), 0, Mul(toRoot, LocalToWorld(fA.node)));
    var ciA1 := CombineInstance(Imported(1, 2), 1, Mul(toRoot, LocalToWorld(fA.node)));
    var ciB0 := CombineInstance(Imported(2, 1), 0, Mul(toRoot, LocalToWorld(fB.node)));
    TwoObjectsEntries(fA, fB, x, y, toRoot);
    var es := Entries([fA, fB], toRoot);
    assert keys == [x, y, x];
    TwoObjectsGroup(ciA0, ciA1, ciB0, x, y);
    var g := Group(es, keys);
    assert Materials(g) == [x, y];
  }

  /** The entries of the worked example: A's submeshes 0 and 1, then B's submesh 0. */
  lemma TwoObjectsEntries(fA: MeshFilter, fB: MeshFilter, x: Material, y: Material, toRoot: Matrix)
    requires fA.sharedMesh == Some(Imported(1, 2)) && fA.renderer != null && fA.renderer.sharedMaterials == [x, y]
    requires fB.sharedMesh == Some(Imported(2, 1)) && fB.renderer != null && fB.renderer.sharedMaterials == [x]
    ensures Entries([fA, fB], toRoot) == [
      Entry(CombineInstance(Imported(1, 2), 0, Mul(toRoot, LocalToWorld(fA.node))), x),
      Entry(CombineInstance(Imported(1, 2), 1, Mul(toRoot, LocalToWorld(fA.node))), y),
      Entry(CombineInstance(Imported(2, 1), 0, Mul(toRoot, LocalToWorld(fB.node))), x)]
  {
    var ciA0 := CombineInstance(Imported(1, 2), 0, Mul(toRoot, LocalToWorld(fA.node)));
    var ciA1 := CombineInstance(Imported(1, 2), 1, Mul(toRoot, LocalToWorld(fA.node)));
    var ciB0 := CombineInstance(Imported(2, 1), 0, Mul(toRoot, LocalToWorld(fB.node)));
    assert SubMeshEntries(fA, toRoot, 1) == [Entry(ciA0, x)];
    assert FilterEntries(fA, toRoot) == [Entry(ciA0, x), Entry(ciA1, y)];
    assert SubMeshEntries(fB, toRoot, 1) == [Entry(ciB0, x)];
    assert FilterEntries(fB, toRoot) == [Entry(ciB0, x)];
    assert [fA, fB][..1] == [fA];
    assert [fA][..0] == [];
    assert Entries([fA], toRoot) == FilterEntries(fA, toRoot);
  }

  /** The dictionary of the worked example: x collects A.0 and B.0, y collects A.1. */
  lemma TwoObjectsGroup(ciA0: CombineInstance, ciA1: CombineInstance, ciB0: CombineInstance, x: Material, y: Material)
    requires x != y
    ensures Group([Entry(ciA0, x), Entry(ciA1, y), Entry(ciB0, x)], [x, y, x]) ==
      [Bucket(x, [ciA0, ciB0]), Bucket(y, [ciA1])]
  {
    var es := [Entry(ciA0, x), Entry(ciA1, y), Entry(ciB0, x)];
    var keys := [x, y, x];
    assert es[..2] == [Entry(ciA0, x), Entry(ciA1, y)] && es[..2][..1] == es[..1] && es[..1][..0] == [];
    assert keys[..2] == [x, y] && keys[..2][..1] == keys[..1] && keys[..1][..0] == [];
    assert Group(es[..1], keys[..1]) == [Bucket(x, [ciA0])];
    var g2 := Group(es[..2], keys[..2]);
    assert g2 == [Bucket(x, [ciA0]), Bucket(y, [ciA1])];
    assert Find(g2, x) == 0;
    assert [ciA0] + [ciB0] == [ciA0, ciB0];
  }
}
