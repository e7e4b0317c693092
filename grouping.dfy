/** Bucketing every submesh of the collected mesh filters by the material it
    renders with. The dictionary keyed by material is modelled as an association
    list in insertion order, the order the enumeration that follows relies on. */
module MaterialGrouping {
  import opened SceneModel

  /** The material slot a submesh renders with: its own slot when it has one,
      else the first slot, else none. */
  function ChooseMaterial(mats: seq<Material?>, sub: nat): (m: Material?)
    ensures m != null ==> m in mats
    ensures sub < |mats| ==> m == mats[sub]
    ensures sub >= |mats| && |mats| > 0 ==> m == mats[0]
    ensures sub >= |mats| && mats == [] ==> m == null
    ensures m == null <==> if sub < |mats| then mats[sub] == null else mats == [] || mats[0] == null
  {
    if sub < |mats| then mats[sub] else if |mats| > 0 then mats[0] else null
  }

  /** A filter takes part only if it has a mesh and a renderer. */
  predicate Combinable(mf: MeshFilter) {
    mf.sharedMesh.Some? && mf.renderer != null
  }

  /** One visited submesh: the combine instance made for it and the material slot chosen for it. */
  datatype Entry = Entry(instance: CombineInstance, slot: Material?)

  /** The entry made for submesh index `sub` of a combinable filter, transformed into the root's space. */
  function SubMeshEntry(mf: MeshFilter, toRoot: Matrix, sub: nat): Entry
    requires Combinable(mf)
  {
    Entry(CombineInstance(mf.sharedMesh.value, sub, Mul(toRoot, LocalToWorld(mf.node))),
          ChooseMaterial(mf.renderer.sharedMaterials, sub))
  }

  /** The entries of submesh indices 0 .. n - 1 of a combinable filter, in index order. */
  function SubMeshEntries(mf: MeshFilter, toRoot: Matrix, n: nat): seq<Entry>
    requires Combinable(mf)
  {
    if n == 0 then [] else SubMeshEntries(mf, toRoot, n - 1) + [SubMeshEntry(mf, toRoot, n - 1)]
  }

  /** The entries of one filter, one per submesh index; none unless it has a mesh and a renderer. */
  function FilterEntries(mf: MeshFilter, toRoot: Matrix): seq<Entry>
  {
    if !Combinable(mf) then [] else SubMeshEntries(mf, toRoot, SubMeshCount(mf.sharedMesh.value))
  }

  /** The entries of all filters, in visiting order. */
  function Entries(filters: seq<MeshFilter>, toRoot: Matrix): seq<Entry>
  {
    if filters == [] then []
    else Entries(filters[..|filters| - 1], toRoot) + FilterEntries(filters[|filters| - 1], toRoot)
  }

  /** The number of submeshes of the combinable filters. */
  function TotalSubMeshes(filters: seq<MeshFilter>): nat
  {
    if filters == [] then 0
    else
      var mf := filters[|filters| - 1];
      TotalSubMeshes(filters[..|filters| - 1]) + if Combinable(mf) then SubMeshCount(mf.sharedMesh.value) else 0
  }

  /** One dictionary entry: a material and the instances that render with it. */
  datatype Bucket = Bucket(material: Material, instances: seq<CombineInstance>)

  /** The position of the bucket for `m`, or |buckets| when there is none. */
  function Find(buckets: seq<Bucket>, m: Material): (i: nat)
    ensures i <= |buckets|
    ensures i < |buckets| ==> buckets[i].material == m
    ensures forall j :: 0 <= j < i ==> buckets[j].material != m
  {
    if buckets == [] then 0
    else if buckets[0].material == m then 0
    else 1 + Find(buckets[1..], m)
  }

  /** Find-or-create: append `ci` to the bucket of `m`, adding that bucket at the end if it is new. */
  function Insert(buckets: seq<Bucket>, m: Material, ci: CombineInstance): seq<Bucket>
  {
    var i := Find(buckets, m);
    if i < |buckets| then buckets[i := Bucket(m, buckets[i].instances + [ci])]
    else buckets + [Bucket(m, [ci])]
  }

  /** The dictionary after visiting `entries`, entry k under material `keys[k]`. */
  function Group(entries: seq<Entry>, keys: seq<Material>): seq<Bucket>
    requires |entries| == |keys|
  {
    if entries == [] then []
    else
      var n := |entries| - 1;
      Insert(Group(entries[..n], keys[..n]), keys[n], entries[n].instance)
  }

  /** The keys of the dictionary in enumeration order. */
  function Materials(buckets: seq<Bucket>): seq<Material>
  {
    seq(|buckets|, i requires 0 <= i < |buckets| => buckets[i].material)
  }

  /** The distinct keys in the order they were first seen. */
  function FirstSeen(keys: seq<Material>): seq<Material>
  {
    if keys == [] then []
    else
      var rest := FirstSeen(keys[..|keys| - 1]);
      if keys[|keys| - 1] in rest then rest else rest + [keys[|keys| - 1]]
  }

  /** The instances of the entries whose key is `m`, in visiting order. */
  function Select(entries: seq<Entry>, keys: seq<Material>, m: Material): seq<CombineInstance>
    requires |entries| == |keys|
  {
    if entries == [] then []
    else
      var n := |entries| - 1;
      var rest := Select(entries[..n], keys[..n], m);
      if keys[n] == m then rest + [entries[n].instance] else rest
  }

  /** The number of instances held by all buckets. */
  function Size(buckets: seq<Bucket>): nat
  {
    if buckets == [] then 0 else Size(buckets[..|buckets| - 1]) + |buckets[|buckets| - 1].instances|
  }

  predicate Distinct(s: seq<Material>) {
    forall i, j :: 0 <= i < j < |s| ==> s[i] != s[j]
  }

  /** The materials `keys` resolve the chosen slots of `entries`: a chosen material
      is kept, and an empty slot gets a material used by no other entry. */
  ghost predicate Resolves(entries: seq<Entry>, keys: seq<Material>) {
    && |keys| == |entries|
    && (forall k :: 0 <= k < |entries| && entries[k].slot != null ==> keys[k] == entries[k].slot)
    && (forall k :: 0 <= k < |entries| && entries[k].slot == null ==> KeyUnique(keys, k))
  }

  /** No other position of `keys` holds the key at position k. */
  ghost predicate KeyUnique(keys: seq<Material>, k: nat) {
    k < |keys| && forall j :: 0 <= j < |keys| && j != k ==> keys[j] != keys[k]
  }

  /** Resolving one more entry: a chosen material is kept and must differ from
      every fallback so far; a fallback must differ from every key so far. */
  lemma ResolvesStep(entries: seq<Entry>, keys: seq<Material>, e: Entry, m: Material)
    requires Resolves(entries, keys)
    requires e.slot != null ==> m == e.slot
    requires e.slot != null ==> forall k :: 0 <= k < |entries| && entries[k].slot == null ==> keys[k] != m
    requires e.slot == null ==> m !in keys
    ensures Resolves(entries + [e], keys + [m])
  {
  }

  /** The grouping loop of CombineSelectedMeshes. Every submesh of a combinable
      filter gets a material: the chosen slot, or a freshly allocated fallback
      when the slot is empty, so a fallback key differs from every other key. */
  method GroupByMaterial(filters: seq<MeshFilter>, root: NodeId)
    returns (perMaterial: seq<Bucket>, ghost keys: seq<Material>)
    ensures var es := Entries(filters, WorldToLocal(root));
      && Resolves(es, keys)
      && perMaterial == Group(es, keys)
      && (forall k :: 0 <= k < |es| && es[k].slot == null ==> fresh(keys[k]))
  {
    var rootWorldToLocal := WorldToLocal(root);
    perMaterial := [];
    keys := [];
    ghost var visited: seq<Entry> := [];
    for i := 0 to |filters|
      invariant visited == Entries(filters[..i], rootWorldToLocal)
      invariant Resolves(visited, keys)
      invariant perMaterial == Group(visited, keys)
      invariant forall k :: 0 <= k < |visited| && visited[k].slot == null ==> fresh(keys[k])
    {
      var mf := filters[i];
      assert filters[..i + 1][..i] == filters[..i];
      if mf.sharedMesh.None? || mf.renderer == null {
        continue;
      }
      ghost var previous := keys;
      perMaterial, keys := GroupSubMeshes(perMaterial, visited, keys, mf, rootWorldToLocal);
      visited := visited + FilterEntries(mf, rootWorldToLocal);
      assert forall k :: 0 <= k < |previous| ==> keys[k] == previous[k];
    }
    assert filters[..|filters|] == filters;
  }

  /** The loop over the submeshes of one combinable filter: each submesh index
      adds one instance to the bucket of its material. */
  method GroupSubMeshes(perMaterial: seq<Bucket>, ghost visited: seq<Entry>, ghost keys: seq<Material>,
                        mf: MeshFilter, toRoot: Matrix)
    returns (perMaterial': seq<Bucket>, ghost keys': seq<Material>)
    requires Combinable(mf)
    requires Resolves(visited, keys) && perMaterial == Group(visited, keys)
    requires forall k :: 0 <= k < |visited| && visited[k].slot == null ==> keys[k] !in mf.renderer.sharedMaterials
    ensures var es := visited + FilterEntries(mf, toRoot);
      && Resolves(es, keys')
      && perMaterial' == Group(es, keys')
      && keys'[..|keys|] == keys
      && (forall k :: |keys| <= k < |es| && es[k].slot == null ==> fresh(keys'[k]))
  {
    ghost var mats := mf.renderer.sharedMaterials;
    var subMeshCount := SubMeshCount(mf.sharedMesh.value);
    ghost var seen := visited;
    perMaterial', keys' := perMaterial, keys;
    for sub := 0 to subMeshCount
      invariant seen == visited + SubMeshEntries(mf, toRoot, sub)
      invariant Resolves(seen, keys') && perMaterial' == Group(seen, keys')
      invariant |keys| <= |keys'| && keys'[..|keys|] == keys
      invariant forall k :: 0 <= k < |seen| && seen[k].slot == null ==> keys'[k] !in mats
      invariant forall k :: |keys| <= k < |seen| && seen[k].slot == null ==> fresh(keys'[k])
    {
      perMaterial', seen, keys' := AddSubMesh(perMaterial', visited, keys, seen, keys', mf, toRoot, sub);
    }
  }

  /** One submesh of a combinable filter: its chosen material, or a new fallback
      when the slot is empty, gets the submesh's instance added to its bucket.
      `visited` and `base` are the entries and keys before this filter, `seen`
      and `keys` those before this submesh; `seen'` and `keys'` extend them by
      this submesh's entry and key. */
  method AddSubMesh(perMaterial: seq<Bucket>, ghost visited: seq<Entry>, ghost base: seq<Material>,
                    ghost seen: seq<Entry>, ghost keys: seq<Material>, mf: MeshFilter, toRoot: Matrix, sub: nat)
    returns (perMaterial': seq<Bucket>, ghost seen': seq<Entry>, ghost keys': seq<Material>)
    requires Combinable(mf)
    requires seen == visited + SubMeshEntries(mf, toRoot, sub)
    requires Resolves(seen, keys) && perMaterial == Group(seen, keys)
    requires |base| <= |keys| && keys[..|base|] == base
    requires forall k :: 0 <= k < |seen| && seen[k].slot == null ==> keys[k] !in mf.renderer.sharedMaterials
    ensures seen' == visited + SubMeshEntries(mf, toRoot, sub + 1)
    ensures Resolves(seen', keys') && perMaterial' == Group(seen', keys')
    ensures |base| <= |keys'| && keys'[..|base|] == base
    ensures forall k :: 0 <= k < |seen'| && seen'[k].slot == null ==> keys'[k] !in mf.renderer.sharedMaterials
    ensures |seen'| == |seen| + 1 && forall k :: 0 <= k < |seen| ==> seen'[k] == seen[k] && keys'[k] == keys[k]
    ensures seen'[|seen|] == SubMeshEntry(mf, toRoot, sub)
    ensures seen'[|seen|].slot != null ==> keys'[|seen|] == seen'[|seen|].slot
    ensures seen'[|seen|].slot == null ==> fresh(keys'[|seen|])
  {
    var chosen := ChooseMaterial(mf.renderer.sharedMaterials, sub);
    var ci := CombineInstance(mf.sharedMesh.value, sub, Mul(toRoot, LocalToWorld(mf.node)));
    ghost var e := SubMeshEntry(mf, toRoot, sub);
    var mat: Material;
    if chosen == null {
      mat := new Material();
      assert mat !in keys;
    } else {
      mat := chosen;
      assert forall k :: 0 <= k < |seen| && seen[k].slot == null ==> keys[k] != mat;
    }
    ResolvesStep(seen, keys, e, mat);
    GroupSnoc(seen, keys, e, mat);
    AppendOne(visited, SubMeshEntries(mf, toRoot, sub), e);
    PrefixOfAppend(keys, mat, |base|);
    perMaterial' := Insert(perMaterial, mat, ci);
    seen', keys' := seen + [e], keys + [mat];
  }

  /** Concatenation is associative. */
  lemma Assoc<T>(a: seq<T>, b: seq<T>, c: seq<T>)
    ensures (a + b) + c == a + (b + c)
  {
  }

  /** Appending one element after a concatenation. */
  lemma AppendOne<T>(a: seq<T>, b: seq<T>, x: T)
    ensures (a + b) + [x] == a + (b + [x])
  {
  }

  /** Appending leaves a prefix alone. */
  lemma PrefixOfAppend<T>(s: seq<T>, x: T, n: nat)
    requires n <= |s|
    ensures (s + [x])[..n] == s[..n]
  {
  }

  /** Visiting one more filter appends its entries. */
  lemma EntriesSnoc(filters: seq<MeshFilter>, mf: MeshFilter, toRoot: Matrix)
    ensures Entries(filters + [mf], toRoot) == Entries(filters, toRoot) + FilterEntries(mf, toRoot)
  {
    assert (filters + [mf])[..|filters|] == filters;
  }

  /** Visiting one more entry inserts its instance under its key. */
  lemma GroupSnoc(entries: seq<Entry>, keys: seq<Material>, e: Entry, m: Material)
    requires |entries| == |keys|
    ensures Group(entries + [e], keys + [m]) == Insert(Group(entries, keys), m, e.instance)
  {
    assert (entries + [e])[..|entries|] == entries;
    assert (keys + [m])[..|keys|] == keys;
  }

  /** Entries of consecutive filter lists follow each other: filters are visited in order. */
  lemma {:induction false} EntriesConcat(a: seq<MeshFilter>, b: seq<MeshFilter>, toRoot: Matrix)
    ensures Entries(a + b, toRoot) == Entries(a, toRoot) + Entries(b, toRoot)
  {
    if b == [] {
      assert a + b == a;
    } else {
      var init := b[..|b| - 1];
      assert b == init + [b[|b| - 1]];
      EntriesConcat(a, init, toRoot);
      EntriesConcatStep(a, init, b[|b| - 1], toRoot);
    }
  }

  /** The inductive step of EntriesConcat: appending one filter to the second list. */
  lemma EntriesConcatStep(a: seq<MeshFilter>, init: seq<MeshFilter>, last: MeshFilter, toRoot: Matrix)
    requires Entries(a + init, toRoot) == Entries(a, toRoot) + Entries(init, toRoot)
    ensures Entries(a + (init + [last]), toRoot) == Entries(a, toRoot) + Entries(init + [last], toRoot)
  {
    AppendOne(a, init, last);
    EntriesSnoc(a + init, last, toRoot);
    EntriesSnoc(init, last, toRoot);
    Assoc(Entries(a, toRoot), Entries(init, toRoot), FilterEntries(last, toRoot));
  }

  /** A combinable filter contributes one entry per submesh index, in index order,
      each made from its mesh, transformed into the root's space, with the material
      slot chosen for that index; any other filter contributes nothing. */
  lemma FilterEntriesShape(mf: MeshFilter, toRoot: Matrix)
    ensures !Combinable(mf) ==> FilterEntries(mf, toRoot) == []
    ensures Combinable(mf) ==>
      var mesh := mf.sharedMesh.value;
      && |FilterEntries(mf, toRoot)| == SubMeshCount(mesh)
      && forall sub :: 0 <= sub < SubMeshCount(mesh) ==>
           FilterEntries(mf, toRoot)[sub].instance.mesh == mesh &&
           FilterEntries(mf, toRoot)[sub].instance.subMeshIndex == sub &&
           FilterEntries(mf, toRoot)[sub].instance.transform == Mul(toRoot, LocalToWorld(mf.node)) &&
           FilterEntries(mf, toRoot)[sub].slot == ChooseMaterial(mf.renderer.sharedMaterials, sub)
  {
    if Combinable(mf) {
      SubMeshEntriesShape(mf, toRoot, SubMeshCount(mf.sharedMesh.value));
    }
  }

  /** The first n submesh entries are those of indices 0 .. n - 1, in order. */
  lemma {:induction false} SubMeshEntriesShape(mf: MeshFilter, toRoot: Matrix, n: nat)
    requires Combinable(mf)
    ensures |SubMeshEntries(mf, toRoot, n)| == n
    ensures forall sub :: 0 <= sub < n ==> SubMeshEntries(mf, toRoot, n)[sub] == SubMeshEntry(mf, toRoot, sub)
  {
    if n > 0 {
      SubMeshEntriesShape(mf, toRoot, n - 1);
    }
  }


  /** There is exactly one entry per submesh of every combinable filter. */
  lemma {:induction false} EntriesCount(filters: seq<MeshFilter>, toRoot: Matrix)
    ensures |Entries(filters, toRoot)| == TotalSubMeshes(filters)
  {
    if filters != [] {
      EntriesCount(filters[..|filters| - 1], toRoot);
      FilterEntriesShape(filters[|filters| - 1], toRoot);
    }
  }

  /** The first-seen keys are exactly the keys, each once. */
  lemma {:induction false} FirstSeenKeys(keys: seq<Material>)
    ensures Distinct(FirstSeen(keys))
    ensures forall m :: m in FirstSeen(keys) <==> m in keys
  {
    if keys != [] {
      var init := keys[..|keys| - 1];
      FirstSeenKeys(init);
      assert keys == init + [keys[|keys| - 1]];
    }
  }

  lemma MaterialsMembers(buckets: seq<Bucket>, m: Material)
    ensures m in Materials(buckets) <==> Find(buckets, m) < |buckets|
  {
    var f := Find(buckets, m);
    if m in Materials(buckets) {
      var i :| 0 <= i < |buckets| && Materials(buckets)[i] == m;
      assert buckets[i].material == m;
    }
    if f < |buckets| {
      assert Materials(buckets)[f] == m;
    }
  }

  /** Find-or-create adds a key only when it is new, at the end. */
  lemma InsertMaterials(buckets: seq<Bucket>, m: Material, ci: CombineInstance)
    ensures Materials(Insert(buckets, m, ci)) ==
      if m in Materials(buckets) then Materials(buckets) else Materials(buckets) + [m]
  {
    MaterialsMembers(buckets, m);
  }

  /** The dictionary enumerates its keys in first-seen order. */
  lemma {:induction false} GroupOrder(entries: seq<Entry>, keys: seq<Material>)
    requires |entries| == |keys|
    ensures Materials(Group(entries, keys)) == FirstSeen(keys)
  {
    if entries != [] {
      var n := |entries| - 1;
      GroupOrder(entries[..n], keys[..n]);
      InsertMaterials(Group(entries[..n], keys[..n]), keys[n], entries[n].instance);
    }
  }

  /** The bucket keys are pairwise distinct and are exactly the keys used. */
  lemma GroupKeys(entries: seq<Entry>, keys: seq<Material>)
    requires |entries| == |keys|
    ensures Distinct(Materials(Group(entries, keys)))
    ensures forall m :: m in Materials(Group(entries, keys)) <==> m in keys
  {
    GroupOrder(entries, keys);
    FirstSeenKeys(keys);
  }

  /** No entry has a key that was never used. */
  lemma {:induction false} SelectAbsent(entries: seq<Entry>, keys: seq<Material>, m: Material)
    requires |entries| == |keys|
    requires m !in keys
    ensures Select(entries, keys, m) == []
  {
    if entries != [] {
      var n := |entries| - 1;
      SelectAbsent(entries[..n], keys[..n], m);
    }
  }

  lemma SelectStep(entries: seq<Entry>, keys: seq<Material>, m: Material)
    requires |entries| == |keys| > 0
    ensures var n := |entries| - 1;
      Select(entries, keys, m) ==
        if keys[n] == m then Select(entries[..n], keys[..n], m) + [entries[n].instance]
        else Select(entries[..n], keys[..n], m)
  {
  }

  /** Every bucket holds exactly the instances visited under its key, in visiting order. */
  lemma {:induction false} GroupContents(entries: seq<Entry>, keys: seq<Material>)
    requires |entries| == |keys|
    ensures forall i :: 0 <= i < |Group(entries, keys)| ==>
      Group(entries, keys)[i].instances == Select(entries, keys, Group(entries, keys)[i].material)
  {
    if entries != [] {
      var n := |entries| - 1;
      var g0 := Group(entries[..n], keys[..n]);
      GroupContents(entries[..n], keys[..n]);
      assert forall i :: 0 <= i < |g0| ==> g0[i].instances == Select(entries[..n], keys[..n], g0[i].material);
      GroupKeys(entries[..n], keys[..n]);
      var k := keys[n];
      var g := Insert(g0, k, entries[n].instance);
      var f := Find(g0, k);
      var x := entries[n].instance;
      forall i | 0 <= i < |g|
        ensures g[i].instances == Select(entries, keys, g[i].material)
      {
        SelectStep(entries, keys, g[i].material);
        if f < |g0| {
          if i == f {
            assert g[i] == Bucket(k, g0[f].instances + [x]);
            assert g0[f].instances == Select(entries[..n], keys[..n], k);
            assert g[i].instances == Select(entries, keys, g[i].material);
          } else {
            assert g[i] == g0[i];
            assert Materials(g0)[i] == g0[i].material && Materials(g0)[f] == k;
            assert g0[i].material != k;
            assert g0[i].instances == Select(entries[..n], keys[..n], g0[i].material);
            assert g[i].instances == Select(entries, keys, g[i].material);
          }
        } else if i < |g0| {
          assert g[i] == g0[i];
          assert g0[i].material != k;
          assert g0[i].instances == Select(entries[..n], keys[..n], g0[i].material);
          assert g[i].instances == Select(entries, keys, g[i].material);
        } else {
          assert g[i] == Bucket(k, [x]);
          MaterialsMembers(g0, k);
          SelectAbsent(entries[..n], keys[..n], k);
          assert g[i].instances == Select(entries, keys, g[i].material);
        }
      }
    }
  }

  lemma {:induction false} SizeUpdate(buckets: seq<Bucket>, i: nat, b: Bucket)
    requires i < |buckets|
    ensures Size(buckets[i := b]) + |buckets[i].instances| == Size(buckets) + |b.instances|
  {
    var n := |buckets| - 1;
    if i < n {
      SizeUpdate(buckets[..n], i, b);
      assert buckets[i := b][..n] == buckets[..n][i := b];
    } else {
      assert buckets[i := b][..n] == buckets[..n];
    }
  }

  /** Each visited entry lands in exactly one bucket: the buckets hold as many instances as were visited. */
  lemma {:induction false} GroupSize(entries: seq<Entry>, keys: seq<Material>)
    requires |entries| == |keys|
    ensures Size(Group(entries, keys)) == |entries|
  {
    if entries != [] {
      var n := |entries| - 1;
      var g0 := Group(entries[..n], keys[..n]);
      GroupSize(entries[..n], keys[..n]);
      var f := Find(g0, keys[n]);
      if f < |g0| {
        SizeUpdate(g0, f, Bucket(keys[n], g0[f].instances + [entries[n].instance]));
      } else {
        assert (g0 + [Bucket(keys[n], [entries[n].instance])])[..|g0|] == g0;
      }
    }
  }

  /** A key used by a single entry selects exactly that entry. */
  lemma {:induction false} SelectUnique(entries: seq<Entry>, keys: seq<Material>, k: nat)
    requires |entries| == |keys| && k < |keys|
    requires forall j :: 0 <= j < |keys| && j != k ==> keys[j] != keys[k]
    ensures Select(entries, keys, keys[k]) == [entries[k].instance]
  {
    var n := |entries| - 1;
    if k < n {
      SelectUnique(entries[..n], keys[..n], k);
    } else {
      assert keys[k] !in keys[..n];
      SelectAbsent(entries[..n], keys[..n], keys[k]);
    }
  }

  /** A key used by a single entry, such as a freshly allocated fallback material,
      gets a bucket of its own holding only that entry. */
  lemma LoneKeyBucket(entries: seq<Entry>, keys: seq<Material>, k: nat)
    requires |entries| == |keys| && k < |keys|
    requires forall j :: 0 <= j < |keys| && j != k ==> keys[j] != keys[k]
    ensures Bucket(keys[k], [entries[k].instance]) in Group(entries, keys)
  {
    var g := Group(entries, keys);
    GroupKeys(entries, keys);
    GroupContents(entries, keys);
    SelectUnique(entries, keys, k);
    MaterialsMembers(g, keys[k]);
    var f := Find(g, keys[k]);
    assert g[f] == Bucket(keys[k], [entries[k].instance]);
  }

  /** No bucket is made exactly when no combinable filter has a submesh. */
  lemma GroupEmpty(filters: seq<MeshFilter>, toRoot: Matrix, keys: seq<Material>)
    requires |keys| == |Entries(filters, toRoot)|
    ensures Group(Entries(filters, toRoot), keys) == [] <==> TotalSubMeshes(filters) == 0
  {
    var es := Entries(filters, toRoot);
    EntriesCount(filters, toRoot);
    GroupSize(es, keys);
  }

  /** Every submesh that had no material ends up alone in a bucket of its own. */
  lemma FallbackBuckets(entries: seq<Entry>, keys: seq<Material>)
    requires Resolves(entries, keys)
    ensures forall k :: 0 <= k < |entries| && entries[k].slot == null ==>
      Bucket(keys[k], [entries[k].instance]) in Group(entries, keys)
  {
    forall k | 0 <= k < |entries| && entries[k].slot == null
      ensures Bucket(keys[k], [entries[k].instance]) in Group(entries, keys)
    {
      LoneKeyBucket(entries, keys, k);
    }
  }
}
