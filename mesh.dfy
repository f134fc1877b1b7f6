// Mesh ingestion of src/wgleng/rendering/Mesh.cpp: `MeshImpl::Load` folds a
// mesh's material palette into the registry's append-only material list
// (reusing any entry from slot 1 on within 0.004 of a colour), remaps the
// vertices' material ids, computes the bounding box and optionally expands
// triangles into line pairs; `MeshRegistry` keeps meshes by name.  GL names
// are inputs; the vertex and index buffers are the uploaded sequences.

module Mesh {
  import opened Common
  import opened Glm

  /** `Vertex` (Vertex.h). */
  datatype Vertex = Vertex(position: Vec3, normal: Vec3, materialId: int)

  /** `Material` (Vertex.h). */
  datatype Material = Material(diffuse: Vec4)

  /** The registry's initial slot 0: magenta. */
  const DefaultMaterial := Material(Vec4(1.0, 0.0, 1.0, 1.0))

  /** The dedup tolerance on `length(a.diffuse - b.diffuse)`. */
  const MaterialEpsilon: real := 0.004

  /** `FLT_MAX`, the starting bounds of the box. */
  const FltMax: real := 340282346638528859811704183484516925440.0

  function DistSq4(a: Vec4, b: Vec4): real { Dot4(Sub4(a, b), Sub4(a, b)) }

  /** `glm::length(a.diffuse - b.diffuse) < 0.004`, squared. */
  predicate SameMaterial(a: Material, b: Material)
  {
    DistSq4(a.diffuse, b.diffuse) < MaterialEpsilon * MaterialEpsilon
  }

  // ------------------------------------------------------------ materials

  /** The dedup scan from slot j upwards: the first entry close to m. */
  function FindFrom(reg: seq<Material>, m: Material, j: nat): (r: Option<nat>)
    ensures r.Some? ==> j <= r.value < |reg| && SameMaterial(reg[r.value], m) &&
                        forall t :: j <= t < r.value ==> !SameMaterial(reg[t], m)
    ensures r.None? ==> forall t :: j <= t < |reg| ==> !SameMaterial(reg[t], m)
    decreases |reg| - j
  {
    if j >= |reg| then None
    else if SameMaterial(reg[j], m) then Some(j)
    else FindFrom(reg, m, j + 1)
  }

  /** Slot 0 is never matched: the scan starts at 1. */
  function FindMaterial(reg: seq<Material>, m: Material): Option<nat>
  {
    FindFrom(reg, m, 1)
  }

  /** One palette entry: its first close slot, or a new slot appended at the end. */
  function DedupStep(reg: seq<Material>, m: Material): (seq<Material>, nat)
  {
    var f := FindMaterial(reg, m);
    if f.Some? then (reg, f.value) else (reg + [m], |reg|)
  }

  /** The registry after a whole palette, and `mappedMaterials`. */
  function Dedup(reg: seq<Material>, mats: seq<Material>): (r: (seq<Material>, seq<nat>))
    ensures |r.1| == |mats| && reg <= r.0 && |r.0| <= |reg| + |mats|
  {
    if mats == [] then (reg, [])
    else
      var p := Dedup(reg, mats[..|mats| - 1]);
      var s := DedupStep(p.0, mats[|mats| - 1]);
      (s.0, p.1 + [s.1])
  }

  /** The first close slot at or after j is p when p is close and nothing in [j, p) is. */
  lemma {:induction false} FirstMatch(reg: seq<Material>, m: Material, j: nat, p: nat)
    requires j <= p < |reg| && SameMaterial(reg[p], m)
    requires forall t :: j <= t < p ==> !SameMaterial(reg[t], m)
    ensures FindFrom(reg, m, j) == Some(p)
    decreases p - j
  {
    if j < p {
      FirstMatch(reg, m, j + 1, p);
    }
  }

  /** One step: the slot holds a close material; an old slot is never 0, a new one holds the material itself. */
  lemma StepFacts(reg: seq<Material>, m: Material)
    ensures DedupStep(reg, m).1 < |DedupStep(reg, m).0|
    ensures SameMaterial(DedupStep(reg, m).0[DedupStep(reg, m).1], m)
    ensures DedupStep(reg, m).1 < |reg| ==> 1 <= DedupStep(reg, m).1
    ensures DedupStep(reg, m).1 >= |reg| ==> DedupStep(reg, m).1 == |reg| && DedupStep(reg, m).0 == reg + [m]
  {
  }

  /** On a non-empty registry the step's slot is the first close one from 1 on. */
  lemma StepFirst(reg: seq<Material>, m: Material)
    requires 1 <= |reg|
    ensures 1 <= DedupStep(reg, m).1
    ensures forall t :: 1 <= t < DedupStep(reg, m).1 ==> !SameMaterial(DedupStep(reg, m).0[t], m)
  {
    var s := DedupStep(reg, m);
    if FindMaterial(reg, m).None? {
      forall t | 1 <= t < s.1 ensures !SameMaterial(s.0[t], m) {
        assert s.0[t] == reg[t];
      }
    }
  }

  /**
   * After a palette: every `mappedMaterials[i]` is a slot of the registry
   * within 0.004 of material i, and a reused old slot is never slot 0.
   */
  lemma DedupMapsValid(reg: seq<Material>, mats: seq<Material>, i: nat)
    requires i < |mats|
    ensures Dedup(reg, mats).1[i] < |Dedup(reg, mats).0|
    ensures SameMaterial(Dedup(reg, mats).0[Dedup(reg, mats).1[i]], mats[i])
    ensures Dedup(reg, mats).1[i] < |reg| ==> 1 <= Dedup(reg, mats).1[i]
  {
    DedupAt(reg, mats, i);
    DedupPrefix(reg, mats, i + 1);
    var before := Dedup(reg, mats[..i]).0;
    StepFacts(before, mats[i]);
    var p := Dedup(reg, mats).1[i];
    assert Dedup(reg, mats[..i + 1]).0[p] == Dedup(reg, mats).0[p];
  }

  /** Every slot a palette appends holds one of its entries. */
  lemma {:induction false} DedupNewSlots(reg: seq<Material>, mats: seq<Material>, j: nat)
    requires |reg| <= j < |Dedup(reg, mats).0|
    ensures Dedup(reg, mats).0[j] in mats
  {
    var n := |mats| - 1;
    var p := Dedup(reg, mats[..n]);
    assert Dedup(reg, mats).0 == DedupStep(p.0, mats[n]).0;
    if j < |p.0| {
      DedupNewSlots(reg, mats[..n], j);
      assert p.0 <= DedupStep(p.0, mats[n]).0;
      assert mats[..n] <= mats;
    } else {
      StepFacts(p.0, mats[n]);
    }
  }

  /** Prefixes of a palette give prefixes of the result. */
  lemma {:induction false} DedupPrefix(reg: seq<Material>, mats: seq<Material>, k: nat)
    requires k <= |mats|
    ensures Dedup(reg, mats[..k]).0 <= Dedup(reg, mats).0
    ensures Dedup(reg, mats[..k]).1 == Dedup(reg, mats).1[..k]
    decreases |mats|
  {
    if k < |mats| {
      var n := |mats| - 1;
      DedupPrefix(reg, mats[..n], k);
      assert mats[..n][..k] == mats[..k];
      assert mats[..n] == mats[..|mats| - 1];
    } else {
      assert mats[..k] == mats;
    }
  }

  /** Entry k of a palette is the step on the registry left by the entries before it. */
  lemma DedupAt(reg: seq<Material>, mats: seq<Material>, k: nat)
    requires k < |mats|
    ensures Dedup(reg, mats).1[k] == DedupStep(Dedup(reg, mats[..k]).0, mats[k]).1
    ensures DedupStep(Dedup(reg, mats[..k]).0, mats[k]).0 == Dedup(reg, mats[..k + 1]).0
  {
    DedupPrefix(reg, mats, k + 1);
    assert mats[..k + 1][..k] == mats[..k];
    assert Dedup(reg, mats[..k + 1]).1[k] == Dedup(reg, mats).1[k];
  }

  /**
   * A colour repeated in one palette reuses the slot of its first
   * occurrence, provided the registry is not empty (slot 0 is never reused).
   */
  lemma RepeatReuses(reg: seq<Material>, mats: seq<Material>, i: nat, k: nat)
    requires 1 <= |reg| && i < k < |mats| && mats[i] == mats[k]
    ensures Dedup(reg, mats).1[i] == Dedup(reg, mats).1[k]
  {
    var before := Dedup(reg, mats[..i]).0;
    var after := Dedup(reg, mats[..i + 1]).0;
    var atK := Dedup(reg, mats[..k]).0;
    DedupAt(reg, mats, i);
    DedupAt(reg, mats, k);
    var p := Dedup(reg, mats).1[i];
    StepFacts(before, mats[i]);
    StepFirst(before, mats[i]);
    DedupPrefix(reg, mats[..k], i + 1);
    assert mats[..k][..i + 1] == mats[..i + 1];
    FirstMatchPrefix(after, atK, mats[k], p);
  }

  /** A first close slot stays first when the registry grows at the end. */
  lemma FirstMatchPrefix(a: seq<Material>, b: seq<Material>, m: Material, p: nat)
    requires a <= b && 1 <= p < |a| && SameMaterial(a[p], m)
    requires forall t :: 1 <= t < p ==> !SameMaterial(a[t], m)
    ensures FindMaterial(b, m) == Some(p)
  {
    forall t | 1 <= t < p ensures !SameMaterial(b[t], m) {
      assert b[t] == a[t];
    }
    assert b[p] == a[p];
    FirstMatch(b, m, 1, p);
  }

  /** A palette whose every entry has a close slot from 1 on leaves the registry as it is. */
  lemma {:induction false} DedupKeeps(reg: seq<Material>, mats: seq<Material>, w: seq<nat>)
    requires |w| == |mats|
    requires forall i :: 0 <= i < |mats| ==> 1 <= w[i] < |reg| && SameMaterial(reg[w[i]], mats[i])
    ensures Dedup(reg, mats).0 == reg
  {
    if mats != [] {
      var n := |mats| - 1;
      DedupKeeps(reg, mats[..n], w[..n]);
      FirstMatchExists(reg, mats[n], 1, w[n]);
    }
  }

  lemma {:induction false} FirstMatchExists(reg: seq<Material>, m: Material, j: nat, p: nat)
    requires j <= p < |reg| && SameMaterial(reg[p], m)
    ensures FindFrom(reg, m, j).Some?
    decreases p - j
  {
    if j < p && !SameMaterial(reg[j], m) {
      FirstMatchExists(reg, m, j + 1, p);
    }
  }

  /** Loading the same palette a second time appends nothing, unless the registry was empty. */
  lemma ReloadAppendsNothing(reg: seq<Material>, mats: seq<Material>)
    requires 1 <= |reg|
    ensures var r := Dedup(reg, mats).0; Dedup(r, mats).0 == r
  {
    var (r, mapped) := Dedup(reg, mats);
    forall i | 0 <= i < |mats| ensures 1 <= mapped[i] < |r| && SameMaterial(r[mapped[i]], mats[i]) {
      DedupMapsValid(reg, mats, i);
    }
    DedupKeeps(r, mats, mapped);
  }

  /**
   * On an emptied registry the first new material takes slot 0, and since
   * slot 0 is never matched the same colour right after it gets slot 1.
   */
  lemma ClearedRegistrySlots(a: Material)
    ensures Dedup([], [a]) == ([a], [0])
    ensures Dedup([], [a, a]) == ([a, a], [0, 1])
  {
    var empty: seq<Material> := [];
    var none: seq<nat> := [];
    assert [a][..0] == empty;
    assert Dedup(empty, empty) == (empty, none);
    assert FindMaterial(empty, a) == None;
    assert empty + [a] == [a] && none + [0] == [0];
    assert DedupStep(empty, a) == ([a], 0);
    assert Dedup(empty, [a]) == ([a], [0]);
    assert [a, a][..1] == [a];
    assert FindMaterial([a], a) == None;
    assert [a] + [a] == [a, a] && [0] + [1] == [0, 1];
    assert DedupStep([a], a) == ([a, a], 1);
  }

  /** The registry grows by appending only, by at most one slot per palette entry. */
  lemma DedupAppendOnly(reg: seq<Material>, mats: seq<Material>)
    ensures var r := Dedup(reg, mats).0;
      |reg| <= |r| <= |reg| + |mats| && forall j :: 0 <= j < |reg| ==> r[j] == reg[j]
  {
    var r := Dedup(reg, mats).0;
    assert reg <= r;
    forall j | 0 <= j < |reg| ensures r[j] == reg[j] {
      assert r[..|reg|][j] == r[j];
    }
  }

  // ------------------------------------------------------------- vertices

  /** The vertex loop: a negative material id becomes 0, any other goes through the mapping. */
  function Remap(v: Vertex, mapped: seq<nat>): (r: Vertex)
    requires v.materialId < |mapped|
    ensures r.position == v.position && r.normal == v.normal
  {
    if v.materialId < 0 then v.(materialId := 0) else v.(materialId := mapped[v.materialId])
  }

  function RemapAll(vs: seq<Vertex>, mapped: seq<nat>): (r: seq<Vertex>)
    requires forall i :: 0 <= i < |vs| ==> vs[i].materialId < |mapped|
    ensures |r| == |vs|
  {
    seq(|vs|, i requires 0 <= i < |vs| => Remap(vs[i], mapped))
  }

  /** After Load every vertex names a registry slot; a non-negative id names one close to its palette entry. */
  lemma RemappedIdsValid(reg: seq<Material>, mats: seq<Material>, vs: seq<Vertex>, i: nat)
    requires 1 <= |reg| && i < |vs| && forall k :: 0 <= k < |vs| ==> vs[k].materialId < |mats|
    ensures var (r, mapped) := Dedup(reg, mats);
      0 <= RemapAll(vs, mapped)[i].materialId < |r| &&
      (vs[i].materialId < 0 ==> RemapAll(vs, mapped)[i].materialId == 0) &&
      (vs[i].materialId >= 0 ==> SameMaterial(r[RemapAll(vs, mapped)[i].materialId], mats[vs[i].materialId]))
  {
    if vs[i].materialId >= 0 {
      DedupMapsValid(reg, mats, vs[i].materialId);
    }
  }

  // ----------------------------------------------------------------- aabb

  /** The box folded over the vertices from (FLT_MAX, -FLT_MAX) with glm::min / glm::max. */
  function Bounds(vs: seq<Vertex>): (Vec3, Vec3)
  {
    if vs == [] then (Vec3(FltMax, FltMax, FltMax), Vec3(-FltMax, -FltMax, -FltMax))
    else
      var b := Bounds(vs[..|vs| - 1]);
      (Min3(b.0, vs[|vs| - 1].position), Max3(b.1, vs[|vs| - 1].position))
  }

  /** Every vertex lies inside the box, componentwise. */
  lemma {:induction false} BoundsContain(vs: seq<Vertex>, i: nat)
    requires i < |vs|
    ensures Le3(Bounds(vs).0, vs[i].position) && Le3(vs[i].position, Bounds(vs).1)
  {
    var n := |vs| - 1;
    if i < n {
      BoundsContain(vs[..n], i);
      assert vs[..n][i] == vs[i];
    }
  }

  // ------------------------------------------------------------ wireframe

  /** Each triangle (a, b, c) becomes the three lines (a, b), (b, c), (c, a). */
  function Wireframe(idx: seq<U32>): (r: seq<U32>)
    requires |idx| % 3 == 0
    ensures |r| == 2 * |idx|
  {
    if idx == [] then []
    else
      var n := |idx| - 3;
      Wireframe(idx[..n]) + [idx[n], idx[n + 1], idx[n + 1], idx[n + 2], idx[n + 2], idx[n]]
  }

  /** Line pair 3t .. 3t+2 of the output comes from triangle t. */
  lemma {:induction false} WireframeAt(idx: seq<U32>, t: nat)
    requires |idx| % 3 == 0 && 3 * t < |idx|
    ensures Wireframe(idx)[6 * t..6 * t + 6] ==
      [idx[3 * t], idx[3 * t + 1], idx[3 * t + 1], idx[3 * t + 2], idx[3 * t + 2], idx[3 * t]]
  {
    var n := |idx| - 3;
    if 3 * t < n {
      WireframeAt(idx[..n], t);
      var w := Wireframe(idx[..n]);
      assert Wireframe(idx)[..6 * n / 3] == w;
    }
  }

  // --------------------------------------------------------------- classes

  /**
   * `MeshImpl`: a mesh's GL names, draw count and box.  `vertexData` and
   * `indexData` are what the VBO and EBO were last given.
   */
  class MeshImpl {
    const name: string
    const vao: nat
    const vbo: nat
    const ebo: nat
    var drawCount: nat
    var aabbMin: Vec3
    var aabbMax: Vec3
    var vertexData: seq<Vertex>
    var indexData: seq<U32>

    /** The constructor takes the generated names; the box starts at 0 and nothing is uploaded. */
    constructor (name: string, vao: nat, vbo: nat, ebo: nat)
      ensures this.name == name && this.vao == vao && this.vbo == vbo && this.ebo == ebo
      ensures drawCount == 0 && aabbMin == Vec3(0.0, 0.0, 0.0) && aabbMax == Vec3(0.0, 0.0, 0.0)
      ensures vertexData == [] && indexData == []
    {
      this.name, this.vao, this.vbo, this.ebo := name, vao, vbo, ebo;
      drawCount := 0;
      aabbMin, aabbMax := Vec3(0.0, 0.0, 0.0), Vec3(0.0, 0.0, 0.0);
      vertexData, indexData := [], [];
    }

    /**
     * Load: fold the palette into the registry, upload the remapped vertices
     * and the (possibly expanded) indices, and take the box when asked.
     */
    method Load(registry: MeshRegistry, vertices: seq<Vertex>, materials: seq<Material>,
                indices: seq<U32>, createAabb: bool, wireframe: bool)
      requires forall i :: 0 <= i < |vertices| ==> vertices[i].materialId < |materials|
      requires wireframe ==> |indices| % 3 == 0
      modifies this, registry
      ensures registry.materials == Dedup(old(registry.materials), materials).0
      ensures registry.meshes == old(registry.meshes)
      ensures vertexData == RemapAll(vertices, Dedup(old(registry.materials), materials).1)
      ensures indexData == if wireframe then Wireframe(indices) else indices
      ensures drawCount == |indexData|
      ensures createAabb ==> (aabbMin, aabbMax) == Bounds(vertexData)
      ensures !createAabb ==> aabbMin == old(aabbMin) && aabbMax == old(aabbMax)
    {
      var mapped := MapMaterials(registry, materials);
      var verts := RemapVertices(vertices, mapped);
      if createAabb {
        aabbMin, aabbMax := ComputeAabb(verts);
      }
      var finalIndices := indices;
      if wireframe {
        finalIndices := WireframeIndices(indices);
      }
      vertexData := verts;
      indexData := finalIndices;
      drawCount := |finalIndices|;
    }

    /** Unload: both buffers emptied and nothing left to draw. */
    method Unload()
      modifies this
      ensures drawCount == 0 && vertexData == [] && indexData == []
      ensures aabbMin == old(aabbMin) && aabbMax == old(aabbMax)
    {
      vertexData, indexData := [], [];
      drawCount := 0;
    }
  }

  /** Load's palette loop (lines 21-38): one registry scan, and possibly one append, per entry. */
  method MapMaterials(registry: MeshRegistry, materials: seq<Material>) returns (mapped: seq<nat>)
    modifies registry
    ensures (registry.materials, mapped) == Dedup(old(registry.materials), materials)
    ensures registry.meshes == old(registry.meshes)
  {
    mapped := [];
    var i := 0;
    while i < |materials|
      invariant 0 <= i <= |materials|
      invariant (registry.materials, mapped) == Dedup(old(registry.materials), materials[..i])
      invariant registry.meshes == old(registry.meshes)
    {
      var id := MapMaterial(registry, materials[i]);
      assert materials[..i + 1][..i] == materials[..i];
      mapped := mapped + [id];
      i := i + 1;
    }
    assert materials[..i] == materials;
  }

  /** One palette entry (lines 23-37): the first close slot from 1 on, or a new slot at the end. */
  method MapMaterial(registry: MeshRegistry, material: Material) returns (id: nat)
    modifies registry
    ensures (registry.materials, id) == DedupStep(old(registry.materials), material)
    ensures registry.meshes == old(registry.meshes)
  {
    var j := 1;
    while j < |registry.materials|
      invariant 1 <= j && (j == 1 || j <= |registry.materials|)
      invariant forall t :: 1 <= t < j ==> !SameMaterial(registry.materials[t], material)
    {
      if DistSq4(registry.materials[j].diffuse, material.diffuse) < MaterialEpsilon * MaterialEpsilon {
        FirstMatch(registry.materials, material, 1, j);
        return j;
      }
      j := j + 1;
    }
    assert FindMaterial(registry.materials, material).None?;
    registry.CreateMaterial(material);
    id := |registry.materials| - 1;
  }

  /** Load's vertex loop (lines 41-50). */
  method RemapVertices(vertices: seq<Vertex>, mapped: seq<nat>) returns (verts: seq<Vertex>)
    requires forall i :: 0 <= i < |vertices| ==> vertices[i].materialId < |mapped|
    ensures verts == RemapAll(vertices, mapped)
  {
    verts := [];
    var i := 0;
    while i < |vertices|
      invariant 0 <= i <= |vertices| && |verts| == i
      invariant forall k :: 0 <= k < i ==> verts[k] == Remap(vertices[k], mapped)
    {
      var v := vertices[i];
      if v.materialId < 0 {
        v := v.(materialId := 0);
      } else {
        v := v.(materialId := mapped[v.materialId]);
      }
      verts := verts + [v];
      i := i + 1;
    }
  }

  /** Load's box loop (lines 53-60). */
  method ComputeAabb(verts: seq<Vertex>) returns (lo: Vec3, hi: Vec3)
    ensures (lo, hi) == Bounds(verts)
  {
    lo := Vec3(FltMax, FltMax, FltMax);
    hi := Vec3(-FltMax, -FltMax, -FltMax);
    var i := 0;
    while i < |verts|
      invariant 0 <= i <= |verts|
      invariant (lo, hi) == Bounds(verts[..i])
    {
      assert verts[..i + 1][..i] == verts[..i];
      lo := Min3(lo, verts[i].position);
      hi := Max3(hi, verts[i].position);
      i := i + 1;
    }
    assert verts[..i] == verts;
  }

  /** Load's wireframe loop (lines 63-75). */
  method WireframeIndices(indices: seq<U32>) returns (w: seq<U32>)
    requires |indices| % 3 == 0
    ensures w == Wireframe(indices)
  {
    w := [];
    var i := 0;
    while i < |indices|
      invariant 0 <= i <= |indices| && i % 3 == 0
      invariant w == Wireframe(indices[..i])
    {
      assert indices[..i + 3][..i] == indices[..i];
      w := w + [indices[i], indices[i + 1], indices[i + 1], indices[i + 2], indices[i + 2], indices[i]];
      i := i + 3;
    }
    assert indices[..i] == indices;
  }

  /** `MeshRegistry`: meshes by name and the shared material list. */
  class MeshRegistry {
    var meshes: map<string, MeshImpl>
    var materials: seq<Material>

    /** The static initial state: no meshes, the default material in slot 0. */
    constructor ()
      ensures meshes == map[] && materials == [DefaultMaterial]
    {
      meshes, materials := map[], [DefaultMaterial];
    }

    /** Create: an existing name keeps its mesh (emplace does not replace); a new one gets a new mesh. */
    method Create(name: string, vao: nat, vbo: nat, ebo: nat) returns (m: MeshImpl)
      modifies this
      ensures old(name in meshes) ==> m == old(meshes[name]) && meshes == old(meshes)
      ensures old(name !in meshes) ==>
        fresh(m) && meshes == old(meshes)[name := m] && m.name == name && m.drawCount == 0 && m.vertexData == [] && m.indexData == []
      ensures materials == old(materials)
    {
      if name in meshes {
        return meshes[name];
      }
      m := new MeshImpl(name, vao, vbo, ebo);
      meshes := meshes[name := m];
    }

    /** Get: the mesh under the name, or null. */
    function Get(name: string): (m: MeshImpl?)
      reads this
      ensures name in meshes <==> m != null
      ensures name in meshes ==> m == meshes[name]
    {
      if name in meshes then meshes[name] else null
    }

    method Destroy(name: string)
      modifies this
      ensures meshes == old(meshes) - {name} && name !in meshes
      ensures materials == old(materials)
    {
      meshes := meshes - {name};
    }

    method CreateMaterial(material: Material)
      modifies this
      ensures materials == old(materials) + [material] && meshes == old(meshes)
    {
      materials := materials + [material];
    }

    /** Clear: no meshes and no materials at all, not even the default slot. */
    method Clear()
      modifies this
      ensures meshes == map[] && materials == []
    {
      meshes, materials := map[], [];
    }
  }
}
