# Mesh combiner and batch rename: a Dafny model

This project models the two Unity editor menu scripts of the repository.

**Combine selected meshes** (`MeshCombinerTool.CombineSelectedMeshes`):
- An empty selection aborts.
- It picks a root and a list of target nodes. Inside a prefab stage these are the prefab root and the selected nodes within the prefab. Otherwise the root is the active transform, or failing that the first selected object, and every selected object is a target.
- It collects the `MeshFilter`s under every target.
- It buckets every submesh of every filter that has both a mesh and a `MeshRenderer` under the material that submesh renders with. An empty material slot gets a newly allocated fallback material.
- It merges each bucket into a temporary single-submesh mesh and composes those meshes into one final mesh, one submesh per material.
- It attaches the final mesh and the matching material array to a new object, then switches off every collected renderer.

**Rename** (`RenameSelected.RenameObjects`, `RenameObjectsMadera`): renames the selected objects to `Piso_1, Piso_2, …` or `Madera_1, Madera_2, …`.

Modules:
- `SceneModel` (scene.dfy) holds the host objects:
  - nodes are numbers, and the hierarchy is a parent map;
  - matrices are symbolic terms multiplied by `Mul`;
  - meshes are either imported assets with a submesh count, or a record of the three arguments a `CombineMeshes` call was given (instances, merge submeshes, use matrices);
  - `Material`, `MeshRenderer` and `MeshFilter` are classes, because Unity compares them by identity;
  - `MeshRenderer.enabled` is the only field the command writes.
- `TargetResolution` (targets.dfy) chooses the root and the targets.
- `FilterCollection` (collect.dfy) collects the filters.
- `MaterialGrouping` (grouping.dfy) holds the material choice and the find-or-create bucketing. The `Dictionary<Material, List<CombineInstance>>` is an association list kept in insertion order. C# does not promise that enumeration order, but the code relies on it when it builds the two parallel lists; treating it as insertion order is a modelling choice.
- `MeshCombinerTool` (combiner.dfy) builds the per-material lists and the final mesh, disables the renderers and runs the whole command.
- `RenameSelected` (rename.dfy) holds the rename loop and its two menu entries.

Each stateful step is a method proved against a specification function: `Resolve`, `Gather`, `Entries` with `Group`, `PerMaterialMeshes`, `FinalMesh` and `Label`. The lemmas are stated about those functions. `CombineSelectedMeshes` returns the materials the submeshes were bucketed under as a ghost result (`keys`). Its postcondition says that:
- each key is the chosen slot material, or a fresh object that no other submesh uses;
- the result is the `Combination` of `Group(entries, keys)`;
- exactly the collected renderers were switched off.

The model follows the code in these details:
- The command aborts for lack of geometry only when no `MeshFilter` at all was collected (line 49). A filter without a renderer or mesh still counts as collected.
- Renderers are disabled for every collected filter, even one whose mesh is missing (lines 152-160 do not test `sharedMesh`).
- A missing material does not map to one shared stand-in. Each empty slot gets a material of its own (line 72), so each such submesh ends up in a bucket by itself (`FallbackBuckets`).
- Outside a prefab stage, with no active transform and a destroyed first selected object, line 39 dereferences null. The model reports this as the `NullRootObject` abort. It happens before any change.

## Model

| member | source | states |
|---|---|---|
| `TargetResolution.ResolveTargets` | Assets/MeshCombinerTool.cs:19-42 | The two target loops compute `Resolve`: in a prefab stage, the present selected nodes inside the prefab (or the root alone); otherwise the root is the active transform, else the first selection, and the targets are all present selected nodes |
| `TargetResolution.SelectedInPrefab` | Assets/MeshCombinerTool.cs:28-33 | The prefab-stage loop keeps exactly the present selected nodes that are the root or lie under it, in selection order (`InSubtree` of `Present`) |
| `TargetResolution.SelectedNodes` | Assets/MeshCombinerTool.cs:40-41 | The scene loop keeps exactly the present selected nodes, in selection order (`Present`) |
| `TargetResolution.PrefabTargets` | Assets/MeshCombinerTool.cs:25-35 | In a prefab stage the root is the prefab root. The targets are never empty and all lie in the prefab. They are exactly the present selected nodes that are the root or its descendants, or `[root]` when there are none |
| `TargetResolution.SceneTargets` | Assets/MeshCombinerTool.cs:36-42 | Outside a prefab stage the root is the active transform if there is one, else the first selected object. A missing first object gives `NullRoot`. The targets are exactly the present selected nodes |
| `TargetResolution.PresentMembers` | Assets/MeshCombinerTool.cs:40-41 | A node is a target exactly when some selection slot holds it (destroyed objects are skipped) |
| `TargetResolution.PresentConcat` | Assets/MeshCombinerTool.cs:40-41 | Skipping destroyed objects distributes over concatenation, so targets keep selection order |
| `TargetResolution.InSubtreeMembers` | Assets/MeshCombinerTool.cs:28-33 | A node is kept in the prefab branch exactly when it is given and `IsChildOf` the root |
| `TargetResolution.InSubtreeConcat` | Assets/MeshCombinerTool.cs:28-33 | The prefab filter distributes over concatenation, so kept targets keep selection order |
| `SceneModel.IsChildOfSelf` | Assets/MeshCombinerTool.cs:31 | `IsChildOf` holds of a node and itself, so the extra `== root` test adds nothing |
| `FilterCollection.CollectFilters` | Assets/MeshCombinerTool.cs:45-47 | The collected list is `Gather`: each target's filters, target after target |
| `FilterCollection.GatherMembers` | Assets/MeshCombinerTool.cs:46-47 | A filter is collected exactly when it lies under some target |
| `FilterCollection.GatherCountsTarget` | Assets/MeshCombinerTool.cs:46-47 | A filter is collected at least as often as it occurs under any single target |
| `FilterCollection.GatherCountsTwoTargets` | Assets/MeshCombinerTool.cs:46-47 | Two target positions add their occurrences of a filter separately |
| `FilterCollection.OverlappingTargetsCollectTwice` | Assets/MeshCombinerTool.cs:46-47 | When a selected node and a selected descendant are both targets, the descendant's filters are collected at least twice; nothing deduplicates them |
| `MaterialGrouping.ChooseMaterial` | Assets/MeshCombinerTool.cs:71 | The chosen slot is one of the renderer's slots. It is `mats[sub]` when in range. Out of range it is slot 0, or empty when there are no slots. It is empty exactly when that slot is empty, or, out of range, when there are no slots or slot 0 is empty |
| `MaterialGrouping.Find` | Assets/MeshCombinerTool.cs:74 | The dictionary lookup returns the first bucket with the key, or reports that none has it |
| `MaterialGrouping.FilterEntriesShape` | Assets/MeshCombinerTool.cs:61-82 | A filter without a mesh or renderer contributes nothing. Any other filter contributes one entry per submesh index `0..subMeshCount-1`, in index order, with its mesh, its chosen slot, and the transform into the root's space `Mul(toRoot, LocalToWorld(node))`; the command passes `toRoot = WorldToLocal(root)` |
| `MaterialGrouping.EntriesConcat` | Assets/MeshCombinerTool.cs:59-83 | Entries of consecutive filters follow one another: filters are visited in order |
| `MaterialGrouping.EntriesCount` | Assets/MeshCombinerTool.cs:59-83 | The number of entries equals the sum of `subMeshCount` over filters with a mesh and a renderer |
| `MaterialGrouping.FirstSeenKeys` | Assets/MeshCombinerTool.cs:74-75 | The first-seen key order lists every key used, once each |
| `MaterialGrouping.GroupOrder` | Assets/MeshCombinerTool.cs:74-75 | The dictionary's keys, in enumeration order, are the materials in the order first seen |
| `MaterialGrouping.GroupKeys` | Assets/MeshCombinerTool.cs:74-75 | Bucket keys are pairwise distinct and are exactly the materials used |
| `MaterialGrouping.GroupContents` | Assets/MeshCombinerTool.cs:74-81 | Each bucket holds exactly the instances visited under its key, in visiting order |
| `MaterialGrouping.GroupSize` | Assets/MeshCombinerTool.cs:74-81 | The buckets together hold exactly as many instances as were visited, so each entry lands in exactly one bucket |
| `MaterialGrouping.SelectUnique` | Assets/MeshCombinerTool.cs:74-81 | A key used by a single entry selects exactly that entry |
| `MaterialGrouping.LoneKeyBucket` | Assets/MeshCombinerTool.cs:72-81 | A key used by a single entry has a bucket holding only that entry |
| `MaterialGrouping.FallbackBuckets` | Assets/MeshCombinerTool.cs:71-81 | Every submesh with an empty slot sits alone in its own bucket under its fallback material |
| `MaterialGrouping.GroupEmpty` | Assets/MeshCombinerTool.cs:85-89 | No bucket is created exactly when no filter with a mesh and a renderer has a submesh |
| `MaterialGrouping.GroupByMaterial` | Assets/MeshCombinerTool.cs:56-83 | The grouping loop yields `Group(Entries(filters), keys)`. Each key is the chosen slot material, or a freshly allocated fallback that no other entry uses |
| `MaterialGrouping.GroupSubMeshes` | Assets/MeshCombinerTool.cs:68-82 | The submesh loop of one filter appends its entries and keeps the earlier keys. Fallbacks are fresh and distinct from every other key |
| `MaterialGrouping.AddSubMesh` | Assets/MeshCombinerTool.cs:70-81 | One submesh: the key is the chosen slot or, for an empty slot, a freshly allocated material. Its instance is inserted under that key, so the dictionary becomes `Group` of one more entry and the keys still resolve the slots |
| `MaterialGrouping.SubMeshEntriesShape` | Assets/MeshCombinerTool.cs:68-81 | The submesh loop visits indices 0 .. n - 1 in order, one entry each |
| `MeshCombinerTool.BuildPerMaterial` | Assets/MeshCombinerTool.cs:92-105 | `meshesPerMaterial` and `materialOrder` have one element per bucket. Element i of each comes from bucket i: its material, and a mesh combined from the bucket's instances with submeshes merged and matrices applied, so it has one submesh |
| `MeshCombinerTool.ComposeFinal` | Assets/MeshCombinerTool.cs:108-119 | The final mesh is combined without merging submeshes or applying matrices, and has one submesh per temporary mesh. Submesh i is submesh 0 of temporary mesh i, with the identity transform |
| `MeshCombinerTool.DisableRenderers` | Assets/MeshCombinerTool.cs:152-160 | Every renderer of a collected filter ends disabled. No other renderer or field is written |
| `MeshCombinerTool.CollectedRenderers` | Assets/MeshCombinerTool.cs:152-160 | The renderers reached through collected filters are renderers of the scene |
| `MeshCombinerTool.CombineSelectedMeshes` | Assets/MeshCombinerTool.cs:11-174 | Empty selection, null root, no filters and no buckets each abort with no renderer changed. Otherwise the result is `Combination(Group(entries, keys))`, and the enabled flags are cleared for exactly the collected renderers |
| `MeshCombinerTool.CombinedMeshPairing` | Assets/MeshCombinerTool.cs:95-149 | The attached materials are the distinct materials in first-seen order. The final mesh has one submesh per material, and submesh i merges exactly the submeshes visited under material i |
| `MeshCombinerTool.TwoObjectsExample` | Assets/MeshCombinerTool.cs:56-119 | A with slots [x, y] on two submeshes and B with [x] on one give materials [x, y] and two submeshes: {A.0, B.0} and {A.1} |
| `RenameSelected.DecimalString` | Assets/RenameSelected.cs:13 | The number suffix is a non-empty string of decimal digits with no leading zero |
| `RenameSelected.DecimalRoundTrip` | Assets/RenameSelected.cs:13 | Reading the decimal suffix back gives the number |
| `RenameSelected.LabelNumber` | Assets/RenameSelected.cs:13 | Each name is the prefix followed by the digits of i + 1: numbering is 1-based |
| `RenameSelected.LabelsDistinct` | Assets/RenameSelected.cs:11-14 | Different positions get different names under the same prefix |
| `RenameSelected.FirstMissing` | Assets/RenameSelected.cs:11-13 | The loop reaches exactly the positions before the first destroyed object, since renaming that entry throws |
| `RenameSelected.RenameWithPrefix` | Assets/RenameSelected.cs:9-14 | The selection array is unchanged. Every object before the first destroyed entry is named prefix + (i + 1), with an object listed twice keeping the name of its last such position. Objects only after that entry keep their names, and its frame lets only the `name` field change. The result reports whether every entry was present or the loop stopped with an exception |
| `RenameSelected.RenameObjects` | Assets/RenameSelected.cs:7-15 | Every object before the first destroyed entry is named `Piso_` + (i + 1); the result reports whether the loop stopped early |
| `RenameSelected.RenameObjectsMadera` | Assets/RenameSelected.cs:18-26 | Every object before the first destroyed entry is named `Madera_` + (i + 1); the result reports whether the loop stopped early |

## Left out

- Geometry merging inside `Mesh.CombineMeshes` (lines 102, 119) is a library call. The model records the three arguments of each call and the submesh count Unity gives the result: one when merging submeshes, one per instance otherwise.
- `Matrix4x4` arithmetic (lines 57, 80, 114) is floating point. Matrices are symbolic terms, so an entry's transform is the term `Mul(WorldToLocal(root), LocalToWorld(node))`.
- Asset persistence (`AssetDatabase.IsValidFolder`, `CreateFolder`, `GenerateUniqueAssetPath`, `CreateAsset`, `SaveAssets`, `Path.Combine`; lines 139-146) is file I/O through the host.
- Creating the container object and its components (lines 122-136) is reduced to the returned `CombinedObject`: its mesh, its material array and its parent. The name "CombinedMesh" is left out.
- `Undo.*`, `EditorSceneManager.MarkSceneDirty`, `Selection.activeGameObject`, and the `Debug.Log*` messages are editor UI and logging side effects.
- `Object.DestroyImmediate` of the temporary meshes (lines 163-164), `Shader.Find`, and mesh names built from `GetInstanceID` are host resource management and cosmetic naming.
- `GetComponentsInChildren` traversal is not modelled. The scene gives each node the ordered filter list that call returns; a node absent from that map has none.
- The `mf == null` test of line 61 is not a separate case: `GetComponentsInChildren` never returns null entries.
- Prefab-stage detection, the selection and the active transform are parameters of the command.
- `IsChildOf` walks at most as many parent links as the scene has. This is exact for an acyclic hierarchy, which Unity guarantees.
- Renderer material arrays and filter meshes are constants of the model, because the core never writes them.
- A destroyed entry in the rename selection is a null reference. The exception that renaming it throws is reported only as `completed == false`; the exception object and its message are not modelled.
- For game objects, only the name and the active flag are modelled; the active flag stands for the state a rename leaves alone.
- Integer width is not modelled. The rename suffix `i + 1` is bounded by the selection length, so it cannot overflow a 32-bit `int`.
