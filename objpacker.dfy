// The offline converter objpacker/main.cpp: every regular `.obj` file of
// the model folder is read (the parsed OBJ data is an input), its faces are
// flattened to vertices tagged with the face's material, given flat normals,
// deduplicated into an index buffer through a hash map, and written as a C++
// header whose initialiser lists wrap every 150 (or 1000) entries.
// The vertex hash, `glm::normalize` and the float text of `std::format` are
// parameters; file output is the text each path receives.

module ObjPacker {
  import opened Common
  import opened Glm
  import opened Decimal

  /** `Material`: the diffuse colour. */
  datatype Material = Material(diffuse: Vec4)

  /** `Vertex`: the material id defaults to -1, no material. */
  datatype Vertex = Vertex(position: Vec3, normal: Vec3, materialId: int)

  const VertexEpsilon: real := 0.0001
  const NoMaterial: int := -1
  /** `prevNormal`'s start, used while every triangle so far was degenerate. */
  const FirstNormal := Vec3(0.0, 1.0, 0.0)
  const Zero3 := Vec3(0.0, 0.0, 0.0)
  /** Entries per line of the material and vertex lists, and of the index list. */
  const EntryWrap: nat := 150
  const IndexWrap: nat := 1000
  /** What starts each line of a list. */
  const LineBreak: string := "\n   "
  const OutFolder: string := "src/meshes"

  function Abs(x: real): real { if x < 0.0 then -x else x }

  // ------------------------------------------------------------ equality

  /** `Vertex::operator==`: x of position and normal within 1e-4, the same material id. */
  predicate VertexEq(a: Vertex, b: Vertex)
  {
    Abs(a.position.x - b.position.x) < VertexEpsilon &&
    Abs(a.normal.x - b.normal.x) < VertexEpsilon &&
    a.materialId == b.materialId
  }

  /** The comparison is reflexive and symmetric and never looks at y or z. */
  lemma VertexEqFacts(a: Vertex, b: Vertex, p: Vec3, n: Vec3)
    ensures VertexEq(a, a)
    ensures VertexEq(a, b) <==> VertexEq(b, a)
    ensures VertexEq(a, a.(position := Vec3(a.position.x, p.y, p.z), normal := Vec3(a.normal.x, n.y, n.z)))
  {
  }

  /** It is not transitive: three vertices 0.00006 apart along x. */
  lemma VertexEqNotTransitive()
    ensures var a := Vertex(Zero3, Zero3, 0);
      var b := Vertex(Vec3(0.00006, 0.0, 0.0), Zero3, 0);
      var c := Vertex(Vec3(0.00012, 0.0, 0.0), Zero3, 0);
      VertexEq(a, b) && VertexEq(b, c) && !VertexEq(a, c)
  {
  }

  // ---------------------------------------------------------- generateIndices

  /** `std::hash<Vertex>`: over all fields of position, normal and material id. */
  type Hash = Vertex -> int

  /** `unordered_map::find` finds a key only in v's hash bucket: same hash code, and equal. */
  predicate Matches(key: Vertex, v: Vertex, hash: Hash)
  {
    hash(key) == hash(v) && VertexEq(v, key)
  }

  /** The map lookup over the keys inserted so far; of several matching keys the earliest. */
  function LookupFrom(keys: seq<Vertex>, v: Vertex, hash: Hash, j: nat): (r: Option<nat>)
    ensures r.Some? ==> j <= r.value < |keys| && Matches(keys[r.value], v, hash) &&
                        forall t :: j <= t < r.value ==> !Matches(keys[t], v, hash)
    ensures r.None? ==> forall t :: j <= t < |keys| ==> !Matches(keys[t], v, hash)
    decreases |keys| - j
  {
    if j >= |keys| then None
    else if Matches(keys[j], v, hash) then Some(j)
    else LookupFrom(keys, v, hash, j + 1)
  }

  function Lookup(keys: seq<Vertex>, v: Vertex, hash: Hash): Option<nat>
  {
    LookupFrom(keys, v, hash, 0)
  }

  /** One input vertex: the index of its key, or a new key at the end. */
  function IndexStep(keys: seq<Vertex>, v: Vertex, hash: Hash): (seq<Vertex>, nat)
  {
    var f := Lookup(keys, v, hash);
    if f.Some? then (keys, f.value) else (keys + [v], |keys|)
  }

  /** `generateIndices`: the new vertices and one index per input vertex. */
  function Indexed(vs: seq<Vertex>, hash: Hash): (r: (seq<Vertex>, seq<nat>))
    ensures |r.1| == |vs| && |r.0| <= |vs|
  {
    if vs == [] then ([], [])
    else
      var p := Indexed(vs[..|vs| - 1], hash);
      var s := IndexStep(p.0, vs[|vs| - 1], hash);
      (s.0, p.1 + [s.1])
  }

  lemma {:induction false} IndexedPrefix(vs: seq<Vertex>, hash: Hash, k: nat)
    requires k <= |vs|
    ensures Indexed(vs[..k], hash).0 <= Indexed(vs, hash).0
    ensures Indexed(vs[..k], hash).1 == Indexed(vs, hash).1[..k]
    decreases |vs|
  {
    if k < |vs| {
      var n := |vs| - 1;
      IndexedPrefix(vs[..n], hash, k);
      assert vs[..n][..k] == vs[..k];
    } else {
      assert vs[..k] == vs;
    }
  }

  /** Vertex k is the step on the keys left by the vertices before it. */
  lemma IndexedAt(vs: seq<Vertex>, hash: Hash, k: nat)
    requires k < |vs|
    ensures Indexed(vs, hash).1[k] == IndexStep(Indexed(vs[..k], hash).0, vs[k], hash).1
    ensures IndexStep(Indexed(vs[..k], hash).0, vs[k], hash).0 == Indexed(vs[..k + 1], hash).0
  {
    IndexedPrefix(vs, hash, k + 1);
    var pre := vs[..k + 1];
    assert pre[..|pre| - 1] == vs[..k] && pre[|pre| - 1] == vs[k];
    var p := Indexed(vs[..k], hash);
    var s := IndexStep(p.0, vs[k], hash);
    assert Indexed(pre, hash) == (s.0, p.1 + [s.1]);
    assert Indexed(pre, hash).1[k] == Indexed(vs, hash).1[k];
  }

  /** Every index names a new vertex that equals the input vertex and hashes like it. */
  lemma IndexedSound(vs: seq<Vertex>, hash: Hash, i: nat)
    requires i < |vs|
    ensures Indexed(vs, hash).1[i] < |Indexed(vs, hash).0|
    ensures Matches(Indexed(vs, hash).0[Indexed(vs, hash).1[i]], vs[i], hash)
  {
    IndexedAt(vs, hash, i);
    IndexedPrefix(vs, hash, i + 1);
    var p := Indexed(vs, hash).1[i];
    var before := Indexed(vs[..i], hash).0;
    var after := Indexed(vs[..i + 1], hash).0;
    if Lookup(before, vs[i], hash).None? {
      assert after[p] == vs[i];
    }
    assert after[p] == Indexed(vs, hash).0[p];
  }

  /**
   * A vertex that matches no key so far gets index |newVertices| and is
   * appended as it is; any other gets the index of an earlier key.
   */
  lemma IndexedNew(vs: seq<Vertex>, hash: Hash, i: nat)
    requires i < |vs|
    ensures var before := Indexed(vs[..i], hash).0;
      (Lookup(before, vs[i], hash).None? ==>
         Indexed(vs, hash).1[i] == |before| && Indexed(vs[..i + 1], hash).0 == before + [vs[i]]) &&
      (Lookup(before, vs[i], hash).Some? ==>
         Indexed(vs, hash).1[i] < |before| && Indexed(vs[..i + 1], hash).0 == before)
  {
    IndexedAt(vs, hash, i);
  }

  /** An exact repeat of a vertex gets the same index as its first occurrence. */
  lemma IndexedRepeat(vs: seq<Vertex>, hash: Hash, i: nat, k: nat)
    requires i < k < |vs| && vs[i] == vs[k]
    ensures Indexed(vs, hash).1[i] == Indexed(vs, hash).1[k]
  {
    var before := Indexed(vs[..i], hash).0;
    var after := Indexed(vs[..i + 1], hash).0;
    var atK := Indexed(vs[..k], hash).0;
    IndexedAt(vs, hash, i);
    IndexedAt(vs, hash, k);
    var p := Indexed(vs, hash).1[i];
    assert p < |after| && Matches(after[p], vs[i], hash) &&
           forall t :: 0 <= t < p ==> !Matches(after[t], vs[i], hash) by {
      if Lookup(before, vs[i], hash).None? {
        assert after == before + [vs[i]];
        forall t | 0 <= t < p ensures !Matches(after[t], vs[i], hash) {
          assert after[t] == before[t];
        }
      }
    }
    IndexedPrefix(vs[..k], hash, i + 1);
    assert vs[..k][..i + 1] == vs[..i + 1];
    LookupKeepsFirst(after, atK, vs[k], hash, p);
  }

  lemma LookupKeepsFirst(a: seq<Vertex>, b: seq<Vertex>, v: Vertex, hash: Hash, p: nat)
    requires a <= b && p < |a| && Matches(a[p], v, hash)
    requires forall t :: 0 <= t < p ==> !Matches(a[t], v, hash)
    ensures Lookup(b, v, hash) == Some(p)
  {
    forall t | 0 <= t < p ensures !Matches(b[t], v, hash) {
      assert b[t] == a[t];
    }
    assert b[p] == a[p];
    LookupFirst(b, v, hash, 0, p);
  }

  lemma {:induction false} LookupFirst(keys: seq<Vertex>, v: Vertex, hash: Hash, j: nat, p: nat)
    requires j <= p < |keys| && Matches(keys[p], v, hash)
    requires forall t :: j <= t < p ==> !Matches(keys[t], v, hash)
    ensures LookupFrom(keys, v, hash, j) == Some(p)
    decreases p - j
  {
    if j < p {
      LookupFirst(keys, v, hash, j + 1, p);
    }
  }

  /**
   * Vertices with different hash codes never share an index, however close
   * they are: the hash covers every field while the comparison looks at x only.
   */
  lemma IndexedHashSeparates(vs: seq<Vertex>, hash: Hash, i: nat, k: nat)
    requires i < |vs| && k < |vs| && hash(vs[i]) != hash(vs[k])
    ensures Indexed(vs, hash).1[i] != Indexed(vs, hash).1[k]
  {
    IndexedSound(vs, hash, i);
    IndexedSound(vs, hash, k);
  }

  /** There are no new vertices exactly when there are no input vertices. */
  lemma IndexedEmpty(vs: seq<Vertex>, hash: Hash)
    ensures Indexed(vs, hash).0 == [] <==> vs == []
  {
    if vs != [] {
      IndexedSound(vs, hash, 0);
    }
  }

  /** generateIndices (lines 138-156); the hash map's keys are the new vertices. */
  method GenerateIndices(vertices: seq<Vertex>, hash: Hash) returns (newVertices: seq<Vertex>, indices: seq<nat>)
    ensures (newVertices, indices) == Indexed(vertices, hash)
  {
    newVertices, indices := [], [];
    var i := 0;
    while i < |vertices|
      invariant 0 <= i <= |vertices|
      invariant (newVertices, indices) == Indexed(vertices[..i], hash)
    {
      assert vertices[..i + 1][..i] == vertices[..i];
      var it := Lookup(newVertices, vertices[i], hash);
      if it.None? {
        indices := indices + [|newVertices|];
        newVertices := newVertices + [vertices[i]];
      } else {
        indices := indices + [it.value];
      }
      i := i + 1;
    }
    assert vertices[..i] == vertices;
  }

  // ------------------------------------------------------- generateFlatNormals

  function Cross(a: Vec3, b: Vec3): Vec3
  {
    Vec3(a.y * b.z - a.z * b.y, a.z * b.x - a.x * b.z, a.x * b.y - a.y * b.x)
  }

  /** `glm::normalize`, applied only to a non-zero vector. */
  type Normalize = Vec3 -> Vec3

  /**
   * A triangle's normal: the normalised cross product of its edges, or the
   * previous normal when the triangle is degenerate (where normalize yields NaN).
   */
  function FaceNormal(p1: Vec3, p2: Vec3, p3: Vec3, prev: Vec3, normalize: Normalize): Vec3
  {
    var c := Cross(Sub3(p2, p1), Sub3(p3, p1));
    if c == Zero3 then prev else normalize(c)
  }

  /** `prevNormal` after the first t triangles. */
  function NormalAfter(vs: seq<Vertex>, t: nat, normalize: Normalize): Vec3
    requires 3 * t <= |vs|
  {
    if t == 0 then FirstNormal
    else FaceNormal(vs[3 * t - 3].position, vs[3 * t - 2].position, vs[3 * t - 1].position,
                    NormalAfter(vs, t - 1, normalize), normalize)
  }

  /** The normal vertex k receives: that of its triangle. */
  function NormalOf(vs: seq<Vertex>, k: nat, normalize: Normalize): Vec3
    requires k < |vs| && |vs| % 3 == 0
  {
    TriangleFits(|vs|, k);
    NormalAfter(vs, k / 3 + 1, normalize)
  }

  lemma TriangleFits(n: nat, k: nat)
    requires k < n && n % 3 == 0
    ensures 3 * (k / 3 + 1) <= n && k / 3 * 3 <= k < k / 3 * 3 + 3
  {
  }

  /** Every vertex with its triangle's normal. */
  function FlatNormals(vs: seq<Vertex>, normalize: Normalize): (r: seq<Vertex>)
    requires |vs| % 3 == 0
    ensures |r| == |vs|
  {
    seq(|vs|, k requires 0 <= k < |vs| => vs[k].(normal := NormalOf(vs, k, normalize)))
  }

  /** generateFlatNormals (lines 158-169) on a vector whose size is a multiple of 3. */
  method GenerateFlatNormals(a: array<Vertex>, normalize: Normalize)
    requires a.Length % 3 == 0
    modifies a
    ensures a[..] == FlatNormals(old(a[..]), normalize)
  {
    ghost var orig := a[..];
    ghost var t := 0;
    ghost var m := a.Length / 3;
    assert a.Length == 3 * m;
    var prevNormal := FirstNormal;
    var i := 0;
    while i < a.Length
      invariant 0 <= i <= a.Length && i == 3 * t
      invariant prevNormal == NormalAfter(orig, t, normalize)
      invariant forall k :: 0 <= k < i ==> a[k] == orig[k].(normal := NormalOf(orig, k, normalize))
      invariant forall k :: i <= k < a.Length ==> a[k] == orig[k]
    {
      prevNormal := FlatNormalStep(a, i, t, m, prevNormal, normalize, orig);
      i, t := i + 3, t + 1;
    }
    assert a[..] == FlatNormals(orig, normalize);
  }

  /** One iteration of the loop of generateFlatNormals: the triangle at i gets its normal. */
  method FlatNormalStep(a: array<Vertex>, i: nat, ghost t: nat, ghost m: nat, prevNormal: Vec3,
                        normalize: Normalize, ghost orig: seq<Vertex>)
    returns (normal: Vec3)
    requires |orig| == a.Length == 3 * m && i == 3 * t && i < a.Length
    requires prevNormal == NormalAfter(orig, t, normalize)
    requires forall k :: i <= k < a.Length ==> a[k] == orig[k]
    modifies a
    ensures i + 3 <= a.Length && normal == NormalAfter(orig, t + 1, normalize)
    ensures forall k :: 0 <= k < a.Length && (k < i || i + 3 <= k) ==> a[k] == old(a[k])
    ensures forall k :: i <= k < i + 3 ==> a[k] == orig[k].(normal := NormalOf(orig, k, normalize))
  {
    assert a[i] == orig[i] && a[i + 1] == orig[i + 1] && a[i + 2] == orig[i + 2];
    normal := FaceNormal(a[i].position, a[i + 1].position, a[i + 2].position, prevNormal, normalize);
    NextNormal(orig, t, normalize);
    SetTriangleNormal(a, i, normal);
  }

  /** Triangle t gets the normal after t + 1 triangles, and so does each of its vertices. */
  lemma NextNormal(vs: seq<Vertex>, t: nat, normalize: Normalize)
    requires |vs| % 3 == 0 && 3 * t + 3 <= |vs|
    ensures NormalAfter(vs, t + 1, normalize) ==
      FaceNormal(vs[3 * t].position, vs[3 * t + 1].position, vs[3 * t + 2].position, NormalAfter(vs, t, normalize), normalize)
    ensures forall k :: 3 * t <= k < 3 * t + 3 ==> NormalOf(vs, k, normalize) == NormalAfter(vs, t + 1, normalize)
  {
    forall k | 3 * t <= k < 3 * t + 3 ensures k / 3 == t {
    }
  }

  /** The inner loop of line 167: the three vertices of the triangle at i get the normal. */
  method SetTriangleNormal(a: array<Vertex>, i: nat, normal: Vec3)
    requires i + 3 <= a.Length
    modifies a
    ensures forall k :: 0 <= k < a.Length && (k < i || i + 3 <= k) ==> a[k] == old(a[k])
    ensures forall k :: i <= k < i + 3 ==> a[k] == old(a[k]).(normal := normal)
  {
    for j := 0 to 3
      invariant forall k :: 0 <= k < a.Length && (k < i || i + j <= k) ==> a[k] == old(a[k])
      invariant forall k :: i <= k < i + j ==> a[k] == old(a[k]).(normal := normal)
    {
      a[i + j] := a[i + j].(normal := normal);
    }
  }

  /** The three vertices of a triangle share one normal; a degenerate one repeats the previous triangle's, or (0, 1, 0) for the first. */
  lemma FlatNormalFacts(vs: seq<Vertex>, normalize: Normalize, t: nat)
    requires |vs| % 3 == 0 && 3 * t < |vs|
    ensures NormalOf(vs, 3 * t, normalize) == NormalOf(vs, 3 * t + 1, normalize) == NormalOf(vs, 3 * t + 2, normalize)
    ensures Cross(Sub3(vs[3 * t + 1].position, vs[3 * t].position), Sub3(vs[3 * t + 2].position, vs[3 * t].position)) == Zero3 ==>
      NormalOf(vs, 3 * t, normalize) == (if t == 0 then FirstNormal else NormalOf(vs, 3 * t - 1, normalize))
  {
    assert (3 * t) / 3 == t && (3 * t + 1) / 3 == t && (3 * t + 2) / 3 == t;
    assert NormalAfter(vs, t + 1, normalize) ==
      FaceNormal(vs[3 * t].position, vs[3 * t + 1].position, vs[3 * t + 2].position, NormalAfter(vs, t, normalize), normalize);
    if t > 0 {
      assert (3 * t - 1) / 3 == t - 1;
    }
  }

  // ---------------------------------------------------------------- loadModel

  /** One tinyobj shape: its indices' `vertex_index` and its per-face `material_ids`. */
  datatype Shape = Shape(indices: seq<nat>, materialIds: seq<int>)

  /** A parsed OBJ file: positions, shapes, and the diffuse colour of each material. */
  datatype ObjModel = ObjModel(positions: seq<Vec3>, shapes: seq<Shape>, diffuse: seq<Vec3>)

  /** What the triangulating reader guarantees: whole triangles, and indices into the positions. */
  predicate ShapeFits(s: Shape, positions: seq<Vec3>)
  {
    |s.indices| % 3 == 0 && forall k :: 0 <= k < |s.indices| ==> s.indices[k] < |positions|
  }

  predicate WellFormed(m: ObjModel)
  {
    forall s :: 0 <= s < |m.shapes| ==> ShapeFits(m.shapes[s], m.positions)
  }

  /** Index k of a shape belongs to face k / 3 and takes its material, or -1 past the list. */
  function FaceMaterial(s: Shape, k: nat): int
  {
    if k / 3 < |s.materialIds| then s.materialIds[k / 3] else NoMaterial
  }

  /** A shape's vertices before normals: position, zero normal, face material. */
  function ShapeVertices(s: Shape, positions: seq<Vec3>): (r: seq<Vertex>)
    requires ShapeFits(s, positions)
    ensures |r| == |s.indices|
  {
    seq(|s.indices|, k requires 0 <= k < |s.indices| => Vertex(positions[s.indices[k]], Zero3, FaceMaterial(s, k)))
  }

  /** All shapes' vertices, shape after shape. */
  function AllVertices(shapes: seq<Shape>, positions: seq<Vec3>): (r: seq<Vertex>)
    requires forall s :: 0 <= s < |shapes| ==> ShapeFits(shapes[s], positions)
    ensures |r| % 3 == 0
  {
    if shapes == [] then []
    else AllVertices(shapes[..|shapes| - 1], positions) + ShapeVertices(shapes[|shapes| - 1], positions)
  }

  /** The count of vertices of the shapes before s. */
  function Offset(shapes: seq<Shape>, s: nat): nat
    requires s <= |shapes|
  {
    if s == 0 then 0 else Offset(shapes, s - 1) + |shapes[s - 1].indices|
  }

  /** Index k of shape s becomes vertex Offset(s) + k, with that index's position and face material. */
  lemma {:induction false} AllVerticesAt(shapes: seq<Shape>, positions: seq<Vec3>, s: nat, k: nat)
    requires forall t :: 0 <= t < |shapes| ==> ShapeFits(shapes[t], positions)
    requires s < |shapes| && k < |shapes[s].indices|
    ensures Offset(shapes, s) + k < |AllVertices(shapes, positions)|
    ensures AllVertices(shapes, positions)[Offset(shapes, s) + k] ==
      Vertex(positions[shapes[s].indices[k]], Zero3, FaceMaterial(shapes[s], k))
  {
    var n := |shapes| - 1;
    var init := shapes[..n];
    OffsetPrefix(shapes, n);
    AllVerticesLength(init, positions);
    if s < n {
      AllVerticesAt(init, positions, s, k);
      OffsetPrefix(shapes, s);
      assert init[s] == shapes[s];
      assert Offset(init, s) == Offset(shapes, s) by { OffsetOfPrefix(shapes, n, s); }
    } else {
      OffsetOfPrefix(shapes, n, n);
    }
  }

  lemma {:induction false} AllVerticesLength(shapes: seq<Shape>, positions: seq<Vec3>)
    requires forall t :: 0 <= t < |shapes| ==> ShapeFits(shapes[t], positions)
    ensures |AllVertices(shapes, positions)| == Offset(shapes, |shapes|)
  {
    if shapes != [] {
      var n := |shapes| - 1;
      AllVerticesLength(shapes[..n], positions);
      OffsetOfPrefix(shapes, n, n);
    }
  }

  lemma OffsetPrefix(shapes: seq<Shape>, s: nat)
    requires s < |shapes|
    ensures Offset(shapes, s + 1) == Offset(shapes, s) + |shapes[s].indices|
  {
  }

  /** Offsets only look at the shapes before. */
  lemma {:induction false} OffsetOfPrefix(shapes: seq<Shape>, n: nat, s: nat)
    requires s <= n <= |shapes|
    ensures Offset(shapes[..n], s) == Offset(shapes, s)
  {
    if s > 0 {
      OffsetOfPrefix(shapes, n, s - 1);
      assert shapes[..n][s - 1] == shapes[s - 1];
    }
  }

  /** The materials: diffuse r, g, b with alpha 1. */
  function MaterialsOf(diffuse: seq<Vec3>): (r: seq<Material>)
    ensures |r| == |diffuse|
  {
    seq(|diffuse|, k requires 0 <= k < |diffuse| => Material(Vec4(diffuse[k].x, diffuse[k].y, diffuse[k].z, 1.0)))
  }

  /** What loadModel returns: all empty when parsing failed. */
  function Loaded(parsed: Option<ObjModel>, hash: Hash, normalize: Normalize): (seq<Vertex>, seq<Material>, seq<nat>)
    requires parsed.Some? ==> WellFormed(parsed.value)
  {
    if parsed.None? then ([], [], [])
    else
      var m := parsed.value;
      var ix := Indexed(FlatNormals(AllVertices(m.shapes, m.positions), normalize), hash);
      (ix.0, MaterialsOf(m.diffuse), ix.1)
  }

  /** loadModel (lines 190-255), with SmoothNormals false. */
  method LoadModel(parsed: Option<ObjModel>, hash: Hash, normalize: Normalize)
    returns (vertices: seq<Vertex>, materials: seq<Material>, indices: seq<nat>)
    requires parsed.Some? ==> WellFormed(parsed.value)
    ensures (vertices, materials, indices) == Loaded(parsed, hash, normalize)
  {
    if parsed.None? {
      return [], [], [];
    }
    var m := parsed.value;
    var flat := LoadVertices(m);
    var a := new Vertex[|flat|](k requires 0 <= k < |flat| => flat[k]);
    assert a[..] == flat;
    GenerateFlatNormals(a, normalize);
    vertices, indices := GenerateIndices(a[..], hash);
    materials := ConvertMaterials(m.diffuse);
  }

  /** The material loop of loadModel (lines 246-251). */
  method ConvertMaterials(diffuse: seq<Vec3>) returns (materials: seq<Material>)
    ensures materials == MaterialsOf(diffuse)
  {
    materials := [];
    var i := 0;
    while i < |diffuse|
      invariant 0 <= i <= |diffuse| && |materials| == i
      invariant forall k :: 0 <= k < i ==> materials[k] == Material(Vec4(diffuse[k].x, diffuse[k].y, diffuse[k].z, 1.0))
    {
      materials := materials + [Material(Vec4(diffuse[i].x, diffuse[i].y, diffuse[i].z, 1.0))];
      i := i + 1;
    }
  }

  /** The vertex loop of loadModel (lines 213-235): faces are counted per shape. */
  method LoadVertices(m: ObjModel) returns (vertices: seq<Vertex>)
    requires WellFormed(m)
    ensures vertices == AllVertices(m.shapes, m.positions)
  {
    vertices := [];
    var s := 0;
    while s < |m.shapes|
      invariant 0 <= s <= |m.shapes|
      invariant vertices == AllVertices(m.shapes[..s], m.positions)
    {
      var shape := m.shapes[s];
      var faceId := 0;
      ghost var before := vertices;
      while faceId < |shape.indices|
        invariant 0 <= faceId <= |shape.indices|
        invariant vertices == before + ShapeVertices(shape, m.positions)[..faceId]
      {
        var materialId := faceId / 3;
        var vertex := Vertex(m.positions[shape.indices[faceId]], Zero3, NoMaterial);
        if materialId < |shape.materialIds| {
          vertex := vertex.(materialId := shape.materialIds[materialId]);
        }
        assert ShapeVertices(shape, m.positions)[..faceId + 1] == ShapeVertices(shape, m.positions)[..faceId] + [vertex];
        vertices := vertices + [vertex];
        faceId := faceId + 1;
      }
      assert ShapeVertices(shape, m.positions)[..faceId] == ShapeVertices(shape, m.positions);
      assert m.shapes[..s + 1][..s] == m.shapes[..s];
      s := s + 1;
    }
    assert m.shapes[..s] == m.shapes;
  }

  /** A model has vertices after loading exactly when it parsed and has at least one face index. */
  lemma LoadedEmpty(parsed: Option<ObjModel>, hash: Hash, normalize: Normalize)
    requires parsed.Some? ==> WellFormed(parsed.value)
    ensures Loaded(parsed, hash, normalize).0 == [] <==>
      parsed.None? || AllVertices(parsed.value.shapes, parsed.value.positions) == []
  {
    if parsed.Some? {
      var m := parsed.value;
      IndexedEmpty(FlatNormals(AllVertices(m.shapes, m.positions), normalize), hash);
    }
  }

  // ------------------------------------------------------------ embedVertices

  /** `std::format("{}", x)` of a float. */
  type RealText = real -> string

  /** `{{r,g,b,a}},` */
  function MaterialEntry(m: Material, fmt: RealText): string
  {
    "{{" + fmt(m.diffuse.x) + "," + fmt(m.diffuse.y) + "," + fmt(m.diffuse.z) + "," + fmt(m.diffuse.w) + "}},"
  }

  /** `{{px,py,pz},{nx,ny,nz},id},` */
  function VertexEntry(v: Vertex, fmt: RealText): string
  {
    "{{" + fmt(v.position.x) + "," + fmt(v.position.y) + "," + fmt(v.position.z) + "},{" +
    fmt(v.normal.x) + "," + fmt(v.normal.y) + "," + fmt(v.normal.z) + "}," + IntText(v.materialId) + "},"
  }

  function IndexEntry(i: nat): string
  {
    NatText(i) + ","
  }

  /** A list body: a line break before entries 0, width, 2 width, ... */
  function Wrapped(entries: seq<string>, width: nat): string
    requires width > 0
  {
    if entries == [] then ""
    else
      var n := |entries| - 1;
      Wrapped(entries[..n], width) + (if n % width == 0 then LineBreak else "") + entries[n]
  }

  function TotalLength(entries: seq<string>): nat
  {
    if entries == [] then 0 else TotalLength(entries[..|entries| - 1]) + |entries[|entries| - 1]|
  }

  /** The body holds the entries and one line break per started group of `width` entries. */
  lemma {:induction false} WrappedLength(entries: seq<string>, width: nat)
    requires width > 0
    ensures |Wrapped(entries, width)| == TotalLength(entries) + |LineBreak| * ((|entries| + width - 1) / width)
  {
    if entries != [] {
      var n := |entries| - 1;
      WrappedLength(entries[..n], width);
      BreakCount(n, width);
    }
  }

  /** Entry n starts a new group exactly when n is a multiple of the width. */
  lemma BreakCount(n: nat, w: nat)
    requires w > 0
    ensures (n + w) / w == (n + w - 1) / w + (if n % w == 0 then 1 else 0)
  {
    var q, r := n / w, n % w;
    assert n == q * w + r;
    assert (q + 1) * w == q * w + w;
    DivUnique(n + w, w, q + 1, r);
    if r == 0 {
      DivUnique(n + w - 1, w, q, w - 1);
    } else {
      DivUnique(n + w - 1, w, q + 1, r - 1);
    }
  }

  lemma DivUnique(a: int, w: int, q: int, r: int)
    requires w > 0 && 0 <= r < w && a == q * w + r
    ensures a / w == q
  {
    var q', r' := a / w, a % w;
    assert a == q' * w + r';
    if q < q' {
      assert (q' - q) * w == r - r';
      MulAtLeast(q' - q, w);
    } else if q' < q {
      assert (q - q') * w == r' - r;
      MulAtLeast(q - q', w);
    }
  }

  lemma {:induction false} MulAtLeast(d: int, w: int)
    requires d >= 1 && w > 0
    ensures d * w >= w
    decreases d
  {
    if d > 1 {
      MulAtLeast(d - 1, w);
      assert d * w == (d - 1) * w + w;
    }
  }

  /** A non-empty list body starts with a line break. */
  lemma {:induction false} WrappedStartsWithBreak(entries: seq<string>, width: nat)
    requires width > 0 && entries != []
    ensures LineBreak <= Wrapped(entries, width)
  {
    var n := |entries| - 1;
    if n > 0 {
      WrappedStartsWithBreak(entries[..n], width);
    }
  }

  function MaterialEntries(ms: seq<Material>, fmt: RealText): (r: seq<string>)
    ensures |r| == |ms|
  {
    seq(|ms|, k requires 0 <= k < |ms| => MaterialEntry(ms[k], fmt))
  }

  function VertexEntries(vs: seq<Vertex>, fmt: RealText): (r: seq<string>)
    ensures |r| == |vs|
  {
    seq(|vs|, k requires 0 <= k < |vs| => VertexEntry(vs[k], fmt))
  }

  function IndexEntries(idx: seq<nat>): (r: seq<string>)
    ensures |r| == |idx|
  {
    seq(|idx|, k requires 0 <= k < |idx| => IndexEntry(idx[k]))
  }

  const Header: string := "#pragma once\n\n#include <stdint.h>\n#include <wgleng/rendering/Vertex.h>\n\n"

  /** One array: its count constant `<stem>_<name>Count`, then its initialiser list `<stem>_<plural>[]`. */
  function Section(stem: string, elem: string, name: string, plural: string, count: nat, body: string): string
  {
    "constexpr uint32_t " + stem + "_" + name + "Count = " + NatText(count) + ";\n" +
    "const " + elem + " " + stem + "_" + plural + "[] = {" + body + "\n};\n"
  }

  /** The generated header. */
  function EmbedText(stem: string, vs: seq<Vertex>, ms: seq<Material>, idx: seq<nat>, fmt: RealText): string
  {
    Header +
    Section(stem, "Material", "material", "materials", |ms|, Wrapped(MaterialEntries(ms, fmt), EntryWrap)) +
    Section(stem, "Vertex", "vertex", "vertices", |vs|, Wrapped(VertexEntries(vs, fmt), EntryWrap)) +
    Section(stem, "uint32_t", "index", "indices", |idx|, Wrapped(IndexEntries(idx), IndexWrap))
  }

  /**
   * The header of a model with no materials, vertices or indices: the counts
   * `<stem>_materialCount`, `<stem>_vertexCount`, `<stem>_indexCount` and the
   * arrays `<stem>_materials`, `<stem>_vertices`, `<stem>_indices`.
   */
  lemma EmbedNamesEmpty(stem: string, fmt: RealText)
    ensures EmbedText(stem, [], [], [], fmt) ==
      Header +
      ("constexpr uint32_t " + stem + "_" + "material" + "Count = 0;\n" + "const " + "Material" + " " + stem + "_" + "materials" + "[] = {\n};\n") +
      ("constexpr uint32_t " + stem + "_" + "vertex" + "Count = 0;\n" + "const " + "Vertex" + " " + stem + "_" + "vertices" + "[] = {\n};\n") +
      ("constexpr uint32_t " + stem + "_" + "index" + "Count = 0;\n" + "const " + "uint32_t" + " " + stem + "_" + "indices" + "[] = {\n};\n")
  {
    assert MaterialEntries([], fmt) == [] && VertexEntries([], fmt) == [] && IndexEntries([]) == [];
    assert Wrapped([], EntryWrap) == "" && Wrapped([], IndexWrap) == "";
    SectionEmpty(stem, "Material", "material", "materials");
    SectionEmpty(stem, "Vertex", "vertex", "vertices");
    SectionEmpty(stem, "uint32_t", "index", "indices");
  }

  /** An empty array's section. */
  lemma SectionEmpty(stem: string, elem: string, name: string, plural: string)
    ensures Section(stem, elem, name, plural, 0, "") ==
      "constexpr uint32_t " + stem + "_" + name + "Count = 0;\n" + "const " + elem + " " + stem + "_" + plural + "[] = {\n};\n"
  {
    assert NatText(0) == "0";
  }

  /** embedVertices (lines 77-131): nothing is written when the file does not open. */
  method EmbedVertices(vertices: seq<Vertex>, materials: seq<Material>, indices: seq<nat>,
                       stem: string, canOpen: bool, fmt: RealText) returns (out: Option<string>)
    ensures canOpen ==> out == Some(EmbedText(stem, vertices, materials, indices, fmt))
    ensures !canOpen ==> out == None
  {
    if !canOpen {
      return None;
    }
    var text := Header;
    var body := WriteList(MaterialEntries(materials, fmt), EntryWrap);
    text := text + Section(stem, "Material", "material", "materials", |materials|, body);
    body := WriteList(VertexEntries(vertices, fmt), EntryWrap);
    text := text + Section(stem, "Vertex", "vertex", "vertices", |vertices|, body);
    body := WriteList(IndexEntries(indices), IndexWrap);
    text := text + Section(stem, "uint32_t", "index", "indices", |indices|, body);
    return Some(text);
  }

  /** One of the counter loops of embedVertices. */
  method WriteList(entries: seq<string>, width: nat) returns (body: string)
    requires width > 0
    ensures body == Wrapped(entries, width)
  {
    body := "";
    var counter := 0;
    while counter < |entries|
      invariant 0 <= counter <= |entries| && body == Wrapped(entries[..counter], width)
    {
      assert entries[..counter + 1][..counter] == entries[..counter];
      if counter % width == 0 {
        body := body + LineBreak;
      }
      body := body + entries[counter];
      counter := counter + 1;
    }
    assert entries[..counter] == entries;
  }

  // --------------------------------------------------------------------- main

  /** A directory entry: its file name and whether it is a regular file. */
  datatype DirEntry = DirEntry(name: string, regular: bool)

  /** The position of the last '.', if any. */
  function LastDot(s: string): (r: Option<nat>)
    ensures r.Some? ==> r.value < |s| && s[r.value] == '.' && forall k :: r.value < k < |s| ==> s[k] != '.'
    ensures r.None? ==> forall k :: 0 <= k < |s| ==> s[k] != '.'
  {
    if s == [] then None
    else if s[|s| - 1] == '.' then Some(|s| - 1)
    else LastDot(s[..|s| - 1])
  }

  /** `path::extension`: from the last '.', unless the name is `.`, `..` or starts with its only dot. */
  function Extension(name: string): (r: string)
    ensures r == [] || (r[0] == '.' && forall k :: 0 < k < |r| ==> r[k] != '.')
    ensures |r| <= |name| && r == name[|name| - |r|..]
  {
    var d := LastDot(name);
    if name == "." || name == ".." || d.None? || d.value == 0 then "" else name[d.value..]
  }

  /** `path::stem`: the name without its extension. */
  function Stem(name: string): (r: string)
    ensures r + Extension(name) == name
  {
    name[..|name| - |Extension(name)|]
  }

  /** `outFolder / filename` with the extension replaced by `.h`. */
  function OutPath(name: string): string
  {
    OutFolder + "/" + Stem(name) + ".h"
  }

  /** One directory entry: the header it is written to, if it is a regular `.obj` file whose model has vertices and whose header opens. */
  function Convert(f: DirEntry, parse: string -> Option<ObjModel>, hash: Hash,
                   normalize: Normalize, fmt: RealText, opens: string -> bool): Option<(string, string)>
    requires forall name :: parse(name).Some? ==> WellFormed(parse(name).value)
  {
    if !f.regular || Extension(f.name) != ".obj" then None
    else
      var m := Loaded(parse(f.name), hash, normalize);
      if m.0 == [] || !opens(OutPath(f.name)) then None
      else Some((OutPath(f.name), EmbedText(Stem(f.name), m.0, m.1, m.2, fmt)))
  }

  /** The values present in a sequence of options, in order. */
  function Somes<T>(s: seq<Option<T>>): seq<T>
  {
    if s == [] then []
    else Somes(s[..|s| - 1]) + (if s[|s| - 1].Some? then [s[|s| - 1].value] else [])
  }

  /** Value k of the filter comes from the option at i. */
  lemma {:induction false} SomesSound<T>(s: seq<Option<T>>, k: nat) returns (i: nat)
    requires k < |Somes(s)|
    ensures i < |s| && s[i] == Some(Somes(s)[k])
  {
    var n := |s| - 1;
    var rest := Somes(s[..n]);
    if k < |rest| {
      i := SomesSound(s[..n], k);
      assert s[i] == s[..n][i];
    } else {
      i := n;
    }
  }

  lemma {:induction false} SomesComplete<T>(s: seq<Option<T>>, i: nat)
    requires i < |s| && s[i].Some?
    ensures s[i].value in Somes(s)
  {
    var n := |s| - 1;
    if i < n {
      assert s[..n][i] == s[i];
      SomesComplete(s[..n], i);
    }
  }

  /** The conversion of each directory entry. */
  function Conversions(files: seq<DirEntry>, parse: string -> Option<ObjModel>, hash: Hash,
                       normalize: Normalize, fmt: RealText, opens: string -> bool): (r: seq<Option<(string, string)>>)
    requires forall name :: parse(name).Some? ==> WellFormed(parse(name).value)
    ensures |r| == |files|
  {
    seq(|files|, k requires 0 <= k < |files| => Convert(files[k], parse, hash, normalize, fmt, opens))
  }

  /** What the converter writes, in directory order. */
  function Packed(files: seq<DirEntry>, parse: string -> Option<ObjModel>, hash: Hash,
                  normalize: Normalize, fmt: RealText, opens: string -> bool): seq<(string, string)>
    requires forall name :: parse(name).Some? ==> WellFormed(parse(name).value)
  {
    Somes(Conversions(files, parse, hash, normalize, fmt, opens))
  }

  /** main (lines 257-276): the input folder's listing and the parsed files are inputs. */
  method PackModels(files: seq<DirEntry>, parse: string -> Option<ObjModel>, hash: Hash,
                    normalize: Normalize, fmt: RealText, opens: string -> bool) returns (written: seq<(string, string)>)
    requires forall name :: parse(name).Some? ==> WellFormed(parse(name).value)
    ensures written == Packed(files, parse, hash, normalize, fmt, opens)
  {
    ghost var cs := Conversions(files, parse, hash, normalize, fmt, opens);
    written := [];
    var i := 0;
    while i < |files|
      invariant 0 <= i <= |files|
      invariant written == Somes(cs[..i])
    {
      var file := files[i];
      assert cs[..i + 1][..i] == cs[..i];
      assert cs[i] == Convert(file, parse, hash, normalize, fmt, opens);
      if file.regular && Extension(file.name) == ".obj" {
        var vertices, materials, indices := LoadModel(parse(file.name), hash, normalize);
        if vertices != [] {
          var out := EmbedVertices(vertices, materials, indices, Stem(file.name), opens(OutPath(file.name)), fmt);
          if out.Some? {
            written := written + [(OutPath(file.name), out.value)];
          }
        }
      }
      i := i + 1;
    }
    assert cs[..i] == cs;
  }

  /** A header is written for an entry exactly when it is a regular `.obj` file whose model has vertices and whose path opens; it is named `src/meshes/<stem>.h`. */
  lemma ConvertFacts(f: DirEntry, parse: string -> Option<ObjModel>, hash: Hash,
                     normalize: Normalize, fmt: RealText, opens: string -> bool)
    requires forall name :: parse(name).Some? ==> WellFormed(parse(name).value)
    ensures Convert(f, parse, hash, normalize, fmt, opens).Some? <==>
      f.regular && Extension(f.name) == ".obj" && Loaded(parse(f.name), hash, normalize).0 != [] && opens(OutPath(f.name))
    ensures Convert(f, parse, hash, normalize, fmt, opens).Some? ==>
      Convert(f, parse, hash, normalize, fmt, opens).value.0 == OutFolder + "/" + Stem(f.name) + ".h"
  {
  }

  /** Every header written is the conversion of some entry. */
  lemma PackedSound(files: seq<DirEntry>, parse: string -> Option<ObjModel>, hash: Hash,
                    normalize: Normalize, fmt: RealText, opens: string -> bool, k: nat)
    requires forall name :: parse(name).Some? ==> WellFormed(parse(name).value)
    requires k < |Packed(files, parse, hash, normalize, fmt, opens)|
    ensures exists i :: 0 <= i < |files| && Convert(files[i], parse, hash, normalize, fmt, opens) ==
                        Some(Packed(files, parse, hash, normalize, fmt, opens)[k])
  {
    var cs := Conversions(files, parse, hash, normalize, fmt, opens);
    var i := SomesSound(cs, k);
    assert cs[i] == Convert(files[i], parse, hash, normalize, fmt, opens);
  }

  /** Every entry that converts is written. */
  lemma PackedComplete(files: seq<DirEntry>, parse: string -> Option<ObjModel>, hash: Hash,
                       normalize: Normalize, fmt: RealText, opens: string -> bool, i: nat)
    requires forall name :: parse(name).Some? ==> WellFormed(parse(name).value)
    requires i < |files| && Convert(files[i], parse, hash, normalize, fmt, opens).Some?
    ensures Convert(files[i], parse, hash, normalize, fmt, opens).value in Packed(files, parse, hash, normalize, fmt, opens)
  {
    var cs := Conversions(files, parse, hash, normalize, fmt, opens);
    assert cs[i] == Convert(files[i], parse, hash, normalize, fmt, opens);
    SomesComplete(cs, i);
  }
}
