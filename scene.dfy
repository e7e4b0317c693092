/** The host objects the mesh combiner reads and writes: scene nodes and their
    hierarchy, meshes, materials, mesh filters and mesh renderers. Everything
    the editor computes in floating point (matrices, vertex data) stays symbolic. */
module SceneModel {

  datatype Option<+T> = None | Some(value: T)

  /** A scene node (a Transform), identified by an opaque number. */
  type NodeId = nat

  /** A 4x4 transform matrix kept as a term: the tool only ever multiplies the
      root's world-to-local matrix with a node's local-to-world matrix, and uses
      the identity for already merged geometry. */
  datatype Matrix =
    | Identity
    | WorldToLocal(node: NodeId)
    | LocalToWorld(node: NodeId)
    | Mul(left: Matrix, right: Matrix)

  /** A mesh is either an imported asset with a number of submeshes, or the
      result of a CombineMeshes call, recorded by what the call was given. */
  datatype Mesh =
    | Imported(id: nat, subMeshes: nat)
    | Combined(instances: seq<CombineInstance>, mergeSubMeshes: bool, useMatrices: bool)

  /** One piece of geometry handed to CombineMeshes: a submesh of a mesh and the
      transform to apply to it. */
  datatype CombineInstance = CombineInstance(mesh: Mesh, subMeshIndex: nat, transform: Matrix)

  /** Submesh count of a mesh. A combined mesh built with mergeSubMeshes has one
      submesh; built without it, one submesh per combine instance. */
  function SubMeshCount(m: Mesh): nat {
    match m
    case Imported(_, k) => k
    case Combined(cis, merge, _) => if merge then 1 else |cis|
  }

  /** A material is an opaque handle compared by identity. */
  class Material {
    constructor ()
    {
    }
  }

  /** A MeshRenderer: its material slots (a slot may be empty) and its enabled flag. */
  class MeshRenderer {
    const sharedMaterials: seq<Material?>
    var enabled: bool

    constructor (materials: seq<Material?>)
      ensures sharedMaterials == materials && enabled
    {
      sharedMaterials := materials;
      enabled := true;
    }
  }

  /** A MeshFilter: its shared mesh (possibly missing), the MeshRenderer on the
      same game object (possibly missing) and the node it sits on. */
  class MeshFilter {
    const sharedMesh: Option<Mesh>
    const renderer: MeshRenderer?
    const node: NodeId

    constructor (mesh: Option<Mesh>, r: MeshRenderer?, n: NodeId)
      ensures sharedMesh == mesh && renderer == r && node == n
    {
      sharedMesh := mesh;
      renderer := r;
      node := n;
    }
  }

  /** `n` is `ancestor` or lies below it, found by walking at most `fuel` parent links. */
  predicate AncestorWithin(parent: map<NodeId, NodeId>, n: NodeId, ancestor: NodeId, fuel: nat)
    decreases fuel
  {
    n == ancestor || (fuel > 0 && n in parent && AncestorWithin(parent, parent[n], ancestor, fuel - 1))
  }

  /** The scene: the parent link of every non-top-level node, and for each node the
      mesh filters that GetComponentsInChildren(includeInactive: true) returns for
      it, in the host's traversal order. */
  datatype Scene = Scene(parent: map<NodeId, NodeId>, inChildren: map<NodeId, seq<MeshFilter>>) {

    /** Transform.IsChildOf: `n` is `ancestor` itself or a descendant of it. In a
        tree a parent chain has at most |parent| links, so that bounds the walk. */
    predicate IsChildOf(n: NodeId, ancestor: NodeId) {
      AncestorWithin(parent, n, ancestor, |parent|)
    }

    /** The mesh filters on `t` and its descendants; a node with none is left out of the map. */
    function ComponentsInChildren(t: NodeId): seq<MeshFilter> {
      if t in inChildren then inChildren[t] else []
    }

    /** Every mesh renderer reachable through a mesh filter of the scene. */
    ghost function Renderers(): set<MeshRenderer> {
      set t, i | t in inChildren && 0 <= i < |inChildren[t]| && inChildren[t][i].renderer != null
        :: inChildren[t][i].renderer
    }

    /** The filter sets follow the hierarchy: whatever lies under a child lies under its ancestors. */
    ghost predicate SubtreesNested() {
      forall c, p, f :: IsChildOf(c, p) && f in ComponentsInChildren(c) ==> f in ComponentsInChildren(p)
    }
  }

  /** IsChildOf is reflexive, which makes the extra `== root` test of the prefab branch redundant. */
  lemma IsChildOfSelf(scene: Scene, n: NodeId)
    ensures scene.IsChildOf(n, n)
  {
  }
}
