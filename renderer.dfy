// The renderer's per-frame CPU work (src/wgleng/rendering/Renderer.cpp):
// turning the scene's mesh components into model matrices, culling and
// batching them per view into one upload buffer, sizing the model uniform
// buffer, dispatching the batched draws, and the settings/state caches.
//
// GL calls are recorded in an event log; GPU-side state is not modelled.

module Renderer {
  import opened Common
  import opened Glm
  import opened Components
  import opened FrustumCulling
  import opened Batching
  import opened CsmBuffer
  import opened RenderSettings
  import opened RenderDispatch

  // ------------------------------------------------------------ the resolver

  /** The group `<RigidBodyComponent, MeshComponent>`. */
  predicate InRigidGroup(e: Entity) { e.rigidBody.Some? && e.meshComp.Some? }

  /** The group `<TransformComponent>` with a MeshComponent and without a RigidBodyComponent. */
  predicate InTransformGroup(e: Entity) { e.transform.Some? && e.meshComp.Some? && e.rigidBody.None? }

  /** A rigid-body instance is drawn iff it has a body and is neither hidden nor persistently hidden. */
  predicate RigidDrawn(e: Entity)
    requires InRigidGroup(e)
  {
    e.rigidBody.value.body.Some? && !e.meshComp.value.hidden && !e.meshComp.value.hiddenPersistent
  }

  /** A transform instance is drawn iff it is neither hidden nor persistently hidden. */
  predicate TransformDrawn(e: Entity)
    requires InTransformGroup(e)
  {
    !e.meshComp.value.hidden && !e.meshComp.value.hiddenPersistent
  }

  /** The model matrix of a rigid-body instance: the body's origin moved by the local offset. */
  function RigidModel(ops: GlmOps, pose: BodyPose, mc: MeshComponent): Mat4
  {
    var objPos := Add3(pose.origin, mc.position);
    ops.modelMatrix(Sub3(objPos, mc.position), mc.position, pose.euler, Radians3(ops, mc.rotation), mc.scale)
  }

  /** The model matrix of a transform instance: positions and rotations composed, scales multiplied. */
  function TransformModel(ops: GlmOps, t: TransformComponent, mc: MeshComponent): Mat4
  {
    ops.modelMatrix(t.position, mc.position, Radians3(ops, t.rotation), Radians3(ops, mc.rotation),
                    Mul3(t.scale, mc.scale))
  }

  /** A matrix of a mesh, as pushed into `meshMatrices[mesh]`. */
  type Item = (MeshId, Mat4)

  function RigidItem(ops: GlmOps, e: Entity): Option<Item>
    requires InRigidGroup(e)
  {
    var mc := e.meshComp.value;
    if !RigidDrawn(e) then None
    else Some((mc.mesh, WithHighlightCell(RigidModel(ops, e.rigidBody.value.body.value, mc), mc.highlightId as real)))
  }

  function TransformItem(ops: GlmOps, e: Entity): Option<Item>
    requires InTransformGroup(e)
  {
    var mc := e.meshComp.value;
    if !TransformDrawn(e) then None
    else Some((mc.mesh, WithHighlightCell(TransformModel(ops, e.transform.value, mc), mc.highlightId as real)))
  }

  /** The entity after the rigid-body pass. */
  function AfterRigid(e: Entity): Entity
  {
    if !InRigidGroup(e) then e
    else
      var mc := e.meshComp.value;
      if !RigidDrawn(e) then e.(meshComp := Some(mc.(hidden := false, highlightId := 0)))
      else e.(meshComp := Some(mc.(highlightId := 0)))
  }

  /** The entity after the transform pass. */
  function AfterTransform(e: Entity): Entity
  {
    if !InTransformGroup(e) then e
    else
      var mc := e.meshComp.value;
      if !TransformDrawn(e) then e.(meshComp := Some(mc.(hidden := false)))
      else e.(meshComp := Some(mc.(highlightId := 0)))
  }

  /** The entity after both passes. */
  function Resolved(e: Entity): Entity { AfterTransform(AfterRigid(e)) }

  /** What the rigid-body pass pushes for one entity. */
  function RigidOut(ops: GlmOps, e: Entity): seq<Item>
  {
    if InRigidGroup(e) && RigidItem(ops, e).Some? then [RigidItem(ops, e).value] else []
  }

  /** What the transform pass pushes for one entity. */
  function TransformOut(ops: GlmOps, e: Entity): seq<Item>
  {
    if InTransformGroup(e) && TransformItem(ops, e).Some? then [TransformItem(ops, e).value] else []
  }

  /** The matrices the rigid-body pass pushes, in registry order. */
  function RigidItems(ops: GlmOps, es: seq<Entity>): seq<Item>
    decreases |es|
  {
    if es == [] then [] else RigidItems(ops, es[..|es| - 1]) + RigidOut(ops, es[|es| - 1])
  }

  /** The matrices the transform pass pushes, in registry order. */
  function TransformItems(ops: GlmOps, es: seq<Entity>): seq<Item>
    decreases |es|
  {
    if es == [] then [] else TransformItems(ops, es[..|es| - 1]) + TransformOut(ops, es[|es| - 1])
  }

  lemma RigidItemsSnoc(ops: GlmOps, es: seq<Entity>, i: nat)
    requires i < |es|
    ensures RigidItems(ops, es[..i + 1]) == RigidItems(ops, es[..i]) + RigidOut(ops, es[i])
  {
    assert es[..i + 1][..i] == es[..i];
  }

  lemma TransformItemsSnoc(ops: GlmOps, es: seq<Entity>, i: nat)
    requires i < |es|
    ensures TransformItems(ops, es[..i + 1]) == TransformItems(ops, es[..i]) + TransformOut(ops, es[i])
  {
    assert es[..i + 1][..i] == es[..i];
  }

  /** The transform pass pushes the same for two registries that agree on what it pushes per entity. */
  lemma {:induction false} TransformItemsSame(ops: GlmOps, es: seq<Entity>, es': seq<Entity>)
    requires |es| == |es'|
    requires forall i :: 0 <= i < |es| ==> TransformOut(ops, es[i]) == TransformOut(ops, es'[i])
    ensures TransformItems(ops, es) == TransformItems(ops, es')
    decreases |es|
  {
    if es != [] {
      var n := |es| - 1;
      TransformItemsSame(ops, es[..n], es'[..n]);
    }
  }

  lemma GatherSnoc(g: Meshes, xs: seq<Item>, ys: seq<Item>)
    requires |ys| <= 1
    ensures Gather(g, xs + ys) == if ys == [] then Gather(g, xs) else Push(Gather(g, xs), ys[0])
  {
    if ys == [] {
      assert xs + ys == xs;
    } else {
      assert (xs + ys)[..|xs + ys| - 1] == xs;
    }
  }

  /**
   * `meshMatrices`: a matrix list per mesh, and the order in which the meshes
   * were first inserted. The map's iteration order is not this order but a
   * parameter of UpdateRenderableMeshes; this one shows that such an order exists.
   */
  datatype Meshes = Meshes(mm: map<MeshId, seq<Mat4>>, order: seq<MeshId>)

  /** `meshMatrices[mesh].push_back(model)`: an absent key is inserted with an empty list first. */
  function Push(g: Meshes, it: Item): Meshes
  {
    if it.0 in g.mm then Meshes(g.mm[it.0 := g.mm[it.0] + [it.1]], g.order)
    else Meshes(g.mm[it.0 := [it.1]], g.order + [it.0])
  }

  function Gather(g: Meshes, items: seq<Item>): Meshes
    decreases |items|
  {
    if items == [] then g
    else Push(Gather(g, items[..|items| - 1]), items[|items| - 1])
  }

  /** `meshMatrices` after both passes over the registry. */
  function Collect(ops: GlmOps, es: seq<Entity>): Meshes
  {
    Gather(Gather(Meshes(map[], []), RigidItems(ops, es)), TransformItems(ops, es))
  }

  /** The matrices of the items of mesh m, in order. */
  function MatsOf(items: seq<Item>, m: MeshId): seq<Mat4>
    decreases |items|
  {
    if items == [] then []
    else
      var it := items[|items| - 1];
      MatsOf(items[..|items| - 1], m) + (if it.0 == m then [it.1] else [])
  }

  function Lookup(g: Meshes, m: MeshId): seq<Mat4> { if m in g.mm then g.mm[m] else [] }

  /** The order lists every key of the map exactly once: a possible iteration order of the map. */
  predicate IterationOrder(order: seq<MeshId>, mm: map<MeshId, seq<Mat4>>)
  {
    Keyed(order, mm) && Distinct(order) && forall m :: m in mm ==> m in order
  }

  /** The insertion order is one iteration order of the collected map. */
  predicate WellFormed(g: Meshes)
  {
    IterationOrder(g.order, g.mm)
  }

  lemma {:induction false} MatsOfAppend(xs: seq<Item>, ys: seq<Item>, m: MeshId)
    ensures MatsOf(xs + ys, m) == MatsOf(xs, m) + MatsOf(ys, m)
    decreases |ys|
  {
    if ys == [] {
      assert xs + ys == xs;
    } else {
      var ys' := ys[..|ys| - 1];
      assert (xs + ys)[..|xs + ys| - 1] == xs + ys';
      MatsOfAppend(xs, ys', m);
    }
  }

  /**
   * Gathering items keeps the order well formed, keeps the meshes already
   * present at their places, inserts a mesh iff one of its items arrives, and
   * appends to each mesh's list exactly its items, in order.
   */
  lemma GatherFacts(g: Meshes, items: seq<Item>)
    requires WellFormed(g)
    ensures var r := Gather(g, items);
      WellFormed(r) &&
      |g.order| <= |r.order| && r.order[..|g.order|] == g.order &&
      (forall m :: m in r.mm <==> m in g.mm || MatsOf(items, m) != []) &&
      (forall m :: Lookup(r, m) == Lookup(g, m) + MatsOf(items, m))
  {
    GatherShape(g, items);
    GatherKeys(g, items);
    GatherLookup(g, items);
  }

  lemma {:induction false} GatherShape(g: Meshes, items: seq<Item>)
    requires WellFormed(g)
    ensures var r := Gather(g, items);
      WellFormed(r) && |g.order| <= |r.order| && r.order[..|g.order|] == g.order
    decreases |items|
  {
    if items != [] {
      var xs := items[..|items| - 1];
      var it := items[|items| - 1];
      GatherShape(g, xs);
      var p := Gather(g, xs);
      assert Gather(g, items) == Push(p, it);
      if it.0 !in p.mm {
        assert it.0 !in p.order;
        assert Push(p, it).order == p.order + [it.0];
        assert (p.order + [it.0])[..|g.order|] == p.order[..|g.order|];
      }
    }
  }

  lemma {:induction false} GatherKeys(g: Meshes, items: seq<Item>)
    ensures var r := Gather(g, items);
      forall m :: m in r.mm <==> m in g.mm || MatsOf(items, m) != []
    decreases |items|
  {
    if items != [] {
      var xs := items[..|items| - 1];
      var it := items[|items| - 1];
      GatherKeys(g, xs);
      var r := Push(Gather(g, xs), it);
      assert Gather(g, items) == r;
      forall m ensures m in r.mm <==> m in g.mm || MatsOf(items, m) != [] {
        assert MatsOf(items, m) == MatsOf(xs, m) + (if it.0 == m then [it.1] else []);
      }
    }
  }

  lemma {:induction false} GatherLookup(g: Meshes, items: seq<Item>)
    ensures var r := Gather(g, items);
      forall m :: Lookup(r, m) == Lookup(g, m) + MatsOf(items, m)
    decreases |items|
  {
    if items != [] {
      var xs := items[..|items| - 1];
      var it := items[|items| - 1];
      GatherLookup(g, xs);
      var r := Push(Gather(g, xs), it);
      assert Gather(g, items) == r;
      forall m ensures Lookup(r, m) == Lookup(g, m) + MatsOf(items, m) {
        assert MatsOf(items, m) == MatsOf(xs, m) + (if it.0 == m then [it.1] else []);
      }
    }
  }

  /**
   * `meshMatrices` after both passes: each mesh is listed once, and its list
   * holds the matrices the rigid-body pass pushed for it, then those the
   * transform pass pushed for it, each in registry order.
   */
  lemma CollectFacts(ops: GlmOps, es: seq<Entity>)
    ensures var g := Collect(ops, es);
      var items := RigidItems(ops, es) + TransformItems(ops, es);
      WellFormed(g) &&
      (forall m :: m in g.mm <==> MatsOf(items, m) != []) &&
      (forall m :: Lookup(g, m) == MatsOf(items, m))
  {
    var e0 := Meshes(map[], []);
    var rs, ts := RigidItems(ops, es), TransformItems(ops, es);
    var g1 := Gather(e0, rs);
    assert Collect(ops, es) == Gather(g1, ts);
    GatherShape(e0, rs);
    GatherShape(g1, ts);
    CollectKeys(ops, es);
    CollectLookup(ops, es);
  }

  lemma CollectKeys(ops: GlmOps, es: seq<Entity>)
    ensures var g := Collect(ops, es);
      forall m :: m in g.mm <==> MatsOf(RigidItems(ops, es) + TransformItems(ops, es), m) != []
  {
    var e0 := Meshes(map[], []);
    var rs, ts := RigidItems(ops, es), TransformItems(ops, es);
    var g1 := Gather(e0, rs);
    assert Collect(ops, es) == Gather(g1, ts);
    GatherKeys(e0, rs);
    GatherKeys(g1, ts);
    forall m ensures MatsOf(rs + ts, m) == MatsOf(rs, m) + MatsOf(ts, m) {
      MatsOfAppend(rs, ts, m);
    }
  }

  lemma CollectLookup(ops: GlmOps, es: seq<Entity>)
    ensures var g := Collect(ops, es);
      forall m :: Lookup(g, m) == MatsOf(RigidItems(ops, es) + TransformItems(ops, es), m)
  {
    var e0 := Meshes(map[], []);
    var rs, ts := RigidItems(ops, es), TransformItems(ops, es);
    var g1 := Gather(e0, rs);
    assert Collect(ops, es) == Gather(g1, ts);
    GatherLookup(e0, rs);
    GatherLookup(g1, ts);
    forall m ensures MatsOf(rs + ts, m) == MatsOf(rs, m) + MatsOf(ts, m) {
      MatsOfAppend(rs, ts, m);
    }
  }

  /**
   * What both passes do to one entity: a rigid-body instance always ends up
   * shown with highlight 0; a transform instance ends up shown, and with
   * highlight 0 iff it was drawn; an entity in neither group is untouched.
   * Only the mesh component changes, and `hiddenPersistent` never does. An
   * entity contributes a matrix iff it is drawn, and that matrix carries the
   * entity's highlight id in its m[3][3] cell.
   */
  lemma ResolvedEntity(ops: GlmOps, e: Entity)
    ensures var r := Resolved(e);
      r.rigidBody == e.rigidBody && r.transform == e.transform && r.meshComp.Some? == e.meshComp.Some?
    ensures InRigidGroup(e) ==>
      var mc := e.meshComp.value;
      Resolved(e).meshComp == Some(mc.(hidden := false, highlightId := 0)) &&
      (RigidItem(ops, e).Some? <==> RigidDrawn(e)) &&
      (RigidItem(ops, e).Some? ==> RigidItem(ops, e).value.0 == mc.mesh &&
                                   HighlightCell(RigidItem(ops, e).value.1) == mc.highlightId as real)
    ensures InTransformGroup(e) ==>
      var mc := e.meshComp.value;
      Resolved(e).meshComp == Some(mc.(hidden := false, highlightId := if TransformDrawn(e) then 0 else mc.highlightId)) &&
      (TransformItem(ops, e).Some? <==> TransformDrawn(e)) &&
      (TransformItem(ops, e).Some? ==> TransformItem(ops, e).value.0 == mc.mesh &&
                                       HighlightCell(TransformItem(ops, e).value.1) == mc.highlightId as real)
    ensures !InRigidGroup(e) && !InTransformGroup(e) ==> Resolved(e) == e
  {
  }

  /** Entity e, in the rigid-body group, pushes item it. */
  predicate RigidPushes(ops: GlmOps, e: Entity, it: Item) { InRigidGroup(e) && RigidItem(ops, e) == Some(it) }

  /** Entity e, in the transform group, pushes item it. */
  predicate TransformPushes(ops: GlmOps, e: Entity, it: Item) { InTransformGroup(e) && TransformItem(ops, e) == Some(it) }

  /** The rigid-body pass pushes exactly the matrices of the drawn rigid-body instances. */
  lemma RigidItemsOfDrawn(ops: GlmOps, es: seq<Entity>, it: Item)
    ensures it in RigidItems(ops, es) <==> exists i :: 0 <= i < |es| && RigidPushes(ops, es[i], it)
  {
    RigidItemsSound(ops, es, it);
    if exists i :: 0 <= i < |es| && RigidPushes(ops, es[i], it) {
      var i :| 0 <= i < |es| && RigidPushes(ops, es[i], it);
      RigidItemsComplete(ops, es, it, i);
    }
  }

  lemma {:induction false} RigidItemsSound(ops: GlmOps, es: seq<Entity>, it: Item)
    ensures it in RigidItems(ops, es) ==> exists i :: 0 <= i < |es| && RigidPushes(ops, es[i], it)
    decreases |es|
  {
    if es != [] && it in RigidItems(ops, es) {
      var n := |es| - 1;
      var pre := es[..n];
      assert RigidItems(ops, es) == RigidItems(ops, pre) + RigidOut(ops, es[n]);
      if it in RigidItems(ops, pre) {
        RigidItemsSound(ops, pre, it);
        var i :| 0 <= i < n && RigidPushes(ops, pre[i], it);
        assert es[i] == pre[i];
      } else {
        assert RigidPushes(ops, es[n], it);
      }
    }
  }

  lemma InJoin(a: seq<Item>, b: seq<Item>, x: Item)
    ensures x in a + b <==> x in a || x in b
  {
  }

  lemma {:induction false} RigidItemsComplete(ops: GlmOps, es: seq<Entity>, it: Item, i: nat)
    requires i < |es| && RigidPushes(ops, es[i], it)
    ensures it in RigidItems(ops, es)
    decreases |es|
  {
    var n := |es| - 1;
    RigidItemsSnoc(ops, es, n);
    assert es[..n + 1] == es;
    if i < n {
      assert es[..n][i] == es[i];
      RigidItemsComplete(ops, es[..n], it, i);
      InJoin(RigidItems(ops, es[..n]), RigidOut(ops, es[n]), it);
    } else {
      RigidOutPushes(ops, es[n], it);
      InJoin(RigidItems(ops, es[..n]), RigidOut(ops, es[n]), it);
    }
  }

  /** The one item an entity of the group pushes. */
  lemma RigidOutPushes(ops: GlmOps, e: Entity, it: Item)
    requires RigidPushes(ops, e, it)
    ensures it in RigidOut(ops, e)
  {
  }




  /** The transform pass pushes exactly the matrices of the drawn transform instances. */
  lemma TransformItemsOfDrawn(ops: GlmOps, es: seq<Entity>, it: Item)
    ensures it in TransformItems(ops, es) <==> exists i :: 0 <= i < |es| && TransformPushes(ops, es[i], it)
  {
    TransformItemsSound(ops, es, it);
    if exists i :: 0 <= i < |es| && TransformPushes(ops, es[i], it) {
      var i :| 0 <= i < |es| && TransformPushes(ops, es[i], it);
      TransformItemsComplete(ops, es, it, i);
    }
  }

  lemma {:induction false} TransformItemsSound(ops: GlmOps, es: seq<Entity>, it: Item)
    ensures it in TransformItems(ops, es) ==> exists i :: 0 <= i < |es| && TransformPushes(ops, es[i], it)
    decreases |es|
  {
    if es != [] && it in TransformItems(ops, es) {
      var n := |es| - 1;
      var pre := es[..n];
      assert TransformItems(ops, es) == TransformItems(ops, pre) + TransformOut(ops, es[n]);
      if it in TransformItems(ops, pre) {
        TransformItemsSound(ops, pre, it);
        var i :| 0 <= i < n && TransformPushes(ops, pre[i], it);
        assert es[i] == pre[i];
      } else {
        assert TransformPushes(ops, es[n], it);
      }
    }
  }

  lemma {:induction false} TransformItemsComplete(ops: GlmOps, es: seq<Entity>, it: Item, i: nat)
    requires i < |es| && TransformPushes(ops, es[i], it)
    ensures it in TransformItems(ops, es)
    decreases |es|
  {
    var n := |es| - 1;
    TransformItemsSnoc(ops, es, n);
    assert es[..n + 1] == es;
    if i < n {
      assert es[..n][i] == es[i];
      TransformItemsComplete(ops, es[..n], it, i);
      InJoin(TransformItems(ops, es[..n]), TransformOut(ops, es[n]), it);
    } else {
      TransformOutPushes(ops, es[n], it);
      InJoin(TransformItems(ops, es[..n]), TransformOut(ops, es[n]), it);
    }
  }

  /** The one item an entity of the group pushes. */
  lemma TransformOutPushes(ops: GlmOps, e: Entity, it: Item)
    requires TransformPushes(ops, e, it)
    ensures it in TransformOut(ops, e)
  {
  }




  // ------------------------------------------------------------- the culler

  /**
   * The test the batcher runs for view v: the frustum of the v-th view matrix
   * (0 is the camera's projection x view, 1 + i cascade i's light-space
   * matrix) against the mesh's AABB under the model matrix.
   */
  function CullerOf(views: seq<Mat4>, aabbOf: MeshId -> (Vec3, Vec3)): Culler
  {
    (v: nat, mesh: MeshId, m: Mat4) => v < |views| && AabbVisibleModel(Planes(views[v]), aabbOf(mesh).0, aabbOf(mesh).1, m)
  }

  /** Clearing the highlight cell before culling does not change what is culled. */
  lemma CullingIgnoresHighlight(views: seq<Mat4>, aabbOf: MeshId -> (Vec3, Vec3), v: nat, mesh: MeshId, m: Mat4)
    requires v < |views|
    ensures Passes(CullerOf(views, aabbOf), v, mesh, m) ==
            AabbVisibleModel(Planes(views[v]), aabbOf(mesh).0, aabbOf(mesh).1, m)
  {
    HighlightCellIrrelevant(Planes(views[v]), aabbOf(mesh).0, aabbOf(mesh).1, m, 0.0);
  }

  // ------------------------------------------------------------- the state

  /** `RenderableState`: the upload buffer and the batches of the camera view and of each cascade. */
  class RenderableState {
    var matricesToUpload: seq<Mat4>
    var worldBatch: seq<MeshBatch>
    var csmBatches: seq<seq<MeshBatch>>

    constructor ()
      ensures matricesToUpload == [] && worldBatch == [] && csmBatches == []
    {
      matricesToUpload, worldBatch, csmBatches := [], [], [];
    }
  }

  /** A uniform-buffer offset alignment: GL guarantees it is positive. */
  type Alignment = x: nat | x > 0 witness 256

  /** `m_modelUniform`: its size in bytes and the matrices last uploaded. */
  /** `requiredSize` of UpdateUniforms: room for n matrices plus one full range, as a `uint32_t`. */
  function RequiredSize(n: nat): U32
  {
    ToU32((n + MatricesPerUniformBuffer) * MatrixBytes)
  }

  /**
   * The model buffer's size after UpdateUniforms: unchanged when it is at
   * least `requiredSize`, otherwise `requiredSize` plus 256 more matrices,
   * the sum taken in 32 bits (`size_t` is 32 bits on wasm32).
   */
  function GrownSize(size: nat, n: nat): nat
  {
    if size < RequiredSize(n) then ToU32(RequiredSize(n) + MatrixBytes * MatricesPerUniformBuffer) else size
  }

  /** When neither 32-bit sum wraps, the grown buffer holds n matrices plus one full range. */
  lemma GrownSizeCovers(size: nat, n: nat)
    requires (n + 2 * MatricesPerUniformBuffer) * MatrixBytes < 0x1_0000_0000
    ensures GrownSize(size, n) >= (n + MatricesPerUniformBuffer) * MatrixBytes
    ensures size >= (n + MatricesPerUniformBuffer) * MatrixBytes ==> GrownSize(size, n) == size
    ensures size < (n + MatricesPerUniformBuffer) * MatrixBytes ==>
      GrownSize(size, n) == (n + 2 * MatricesPerUniformBuffer) * MatrixBytes
  {
    assert RequiredSize(n) == (n + MatricesPerUniformBuffer) * MatrixBytes;
    assert RequiredSize(n) + MatrixBytes * MatricesPerUniformBuffer == (n + 2 * MatricesPerUniformBuffer) * MatrixBytes;
  }

  /**
   * Just below 2^26 matrices the required size still fits 32 bits, but adding
   * the headroom wraps: from an empty buffer, 2^26 - 300 matrices give a
   * buffer of 13568 bytes, smaller than required.
   */
  lemma GrownSizeHeadroomWraps()
    ensures RequiredSize(0x400_0000 - 300) == 0x1_0000_0000 - 2816
    ensures GrownSize(0, 0x400_0000 - 300) == 13568
    ensures GrownSize(0, 0x400_0000 - 300) < RequiredSize(0x400_0000 - 300)
  {
    assert (0x400_0000 - 300 + MatricesPerUniformBuffer) * MatrixBytes == 0x1_0000_0000 - 2816;
    assert 0x1_0000_0000 - 2816 + MatrixBytes * MatricesPerUniformBuffer == 0x1_0000_0000 + 13568;
  }

  class ModelUniform {
    var size: nat
    var contents: seq<Mat4>
    /** `GetOffsetAlignment()`, GL_UNIFORM_BUFFER_OFFSET_ALIGNMENT. */
    const offsetAlignment: Alignment

    constructor (offsetAlignment: Alignment)
      ensures this.offsetAlignment == offsetAlignment && size == 0 && contents == []
    {
      this.offsetAlignment := offsetAlignment;
      size, contents := 0, [];
    }
  }

  /** The GL state the renderer caches to skip redundant calls. */
  datatype GlCache = GlCache(framebuffer: nat, renderSizeX: nat, renderSizeY: nat, faceCullingFront: bool)

  /** Forcing the default settings onto themselves rebuilds every shader with three cascades. */
  lemma DefaultsApplied()
    ensures ReloadMask(DefaultSettings, DefaultSettings, true) == AllShaders != NoShaders
    ensures Selects(AllShaders, CsmPrograms)
    ensures Applied(DefaultSettings, DefaultSettings, true) == DefaultSettings
    ensures |ShadowMapPreset(ShadowsMedium).1| == 3
  {
  }

  /** One more cascade in the shadow pass, with the tracked framebuffer it leaves bound. */
  lemma ShadowEventsStep(fbos: seq<nat>, lists: seq<seq<MeshBatch>>, vaoOf: MeshId -> nat, drawCountOf: MeshId -> nat, fb: nat, i: nat)
    requires i < |fbos| <= |lists|
    ensures ShadowEvents(fbos[..i + 1], lists, vaoOf, drawCountOf, fb) ==
      ShadowEvents(fbos[..i], lists, vaoOf, drawCountOf, fb) +
      (CascadeStart(i, fbos[i], LastFbo(fbos[..i], fb)) + Dispatch(lists[i], vaoOf, drawCountOf, Triangles, 0))
    ensures LastFbo(fbos[..i + 1], fb) == fbos[i]
  {
    assert fbos[..i + 1][..i] == fbos[..i];
  }

  lemma AppendAssociates(a: seq<GlEvent>, b: seq<GlEvent>, c: seq<GlEvent>, d: seq<GlEvent>)
    ensures a + b + c + d == a + (b + (c + d))
  {
  }

  class Renderer {
    const state: RenderableState
    const modelUniform: ModelUniform
    const csm: CSMBuffer

    var settings: Settings
    var showWireframe: bool
    var viewportWidth: int
    var viewportHeight: int

    var currentFramebuffer: nat
    var currentRenderSizeX: nat
    var currentRenderSizeY: nat
    var faceCullingFront: bool

    var shadersLoading: bool
    /** The programs rebuilt so far, in build order. */
    var programs: seq<Recipe>
    /** `m_csmPrograms.size()`. */
    var csmProgramCount: nat
    /** `m_materialCount`: the material count last uploaded. */
    var materialCount: nat
    var materialUploads: nat

    var totalDrawnTriangleCount: nat
    var totalDrawnEntityCount: nat

    /** The GL calls issued so far. */
    var gl: seq<GlEvent>

    /** Shaders are built synchronously, so no call leaves shaders loading. */
    ghost predicate Valid()
      reads this, csm
    {
      !shadersLoading && csm.Valid()
    }

    function Cache(): GlCache
      reads this
    {
      GlCache(currentFramebuffer, currentRenderSizeX, currentRenderSizeY, faceCullingFront)
    }

    /**
     * The constructor (lines 19-32): a 640x480 viewport, the default settings
     * applied with force (so every program is built and the MEDIUM shadow
     * preset installed), and back-face culling.
     */
    constructor (offsetAlignment: Alignment, inp: ReloadInputs)
      ensures fresh(state) && fresh(modelUniform) && fresh(csm)
      ensures state.matricesToUpload == [] && state.worldBatch == [] && state.csmBatches == []
      ensures modelUniform.offsetAlignment == offsetAlignment && modelUniform.size == 0
      ensures viewportWidth == 640 && viewportHeight == 480
      ensures settings == DefaultSettings && Valid()
      ensures csm.cascadeSplits == ShadowMapPreset(ShadowsMedium).1
      ensures programs == Rebuilt(AllShaders, DefaultSettings, inp.(cascadeCount := 3))
      ensures csmProgramCount == 3
      ensures Cache() == GlCache(0, 0, 0, false)
    {
      state := new RenderableState();
      modelUniform := new ModelUniform(offsetAlignment);
      csm := new CSMBuffer(0, 0, []);
      settings := DefaultSettings;
      showWireframe := false;
      viewportWidth, viewportHeight := 640, 480;
      currentFramebuffer, currentRenderSizeX, currentRenderSizeY, faceCullingFront := 0, 0, 0, false;
      shadersLoading := false;
      programs, csmProgramCount := [], 0;
      materialCount, materialUploads := 0, 0;
      totalDrawnTriangleCount, totalDrawnEntityCount := 0, 0;
      gl := [];
      new;
      SetSettings(DefaultSettings, true, inp);
      DefaultsApplied();
      gl := gl + [CullFace(false)];
    }

    /**
     * The two component passes of UpdateRenderableMeshes: reset the per-frame
     * flags of every mesh component and collect the model matrices per mesh.
     */
    method ResolveMeshes(reg: Registry, ops: GlmOps) returns (g: Meshes)
      modifies reg
      ensures |reg.entities| == |old(reg.entities)|
      ensures forall i :: 0 <= i < |reg.entities| ==> reg.entities[i] == Resolved(old(reg.entities)[i])
      ensures g == Collect(ops, old(reg.entities))
    {
      ghost var es := reg.entities;
      var g1 := RigidPass(reg, ops);
      ghost var es1 := reg.entities;
      g := TransformPass(reg, ops, g1);
      assert TransformItems(ops, es1) == TransformItems(ops, es) by {
        forall i | 0 <= i < |es| ensures TransformOut(ops, es1[i]) == TransformOut(ops, es[i]) {
          assert es1[i] == AfterRigid(es[i]);
        }
        TransformItemsSame(ops, es1, es);
      }
      forall i | 0 <= i < |reg.entities| ensures reg.entities[i] == Resolved(es[i]) {
        assert es1[i] == AfterRigid(es[i]);
      }
    }

    /** The rigid-body group walk (lines 452-480). */
    method RigidPass(reg: Registry, ops: GlmOps) returns (g: Meshes)
      modifies reg
      ensures |reg.entities| == |old(reg.entities)|
      ensures forall i :: 0 <= i < |reg.entities| ==> reg.entities[i] == AfterRigid(old(reg.entities)[i])
      ensures g == Gather(Meshes(map[], []), RigidItems(ops, old(reg.entities)))
    {
      ghost var es := reg.entities;
      var mm: map<MeshId, seq<Mat4>> := map[];
      var order: seq<MeshId> := [];
      var i := 0;
      while i < |reg.entities|
        invariant 0 <= i <= |reg.entities| == |es|
        invariant forall j :: 0 <= j < |es| ==> reg.entities[j] == if j < i then AfterRigid(es[j]) else es[j]
        invariant Meshes(mm, order) == Gather(Meshes(map[], []), RigidItems(ops, es[..i]))
      {
        assert Gather(Meshes(map[], []), RigidItems(ops, es[..i + 1])) ==
               if RigidOut(ops, es[i]) == [] then Meshes(mm, order) else Push(Meshes(mm, order), RigidOut(ops, es[i])[0]) by {
          RigidItemsSnoc(ops, es, i);
          GatherSnoc(Meshes(map[], []), RigidItems(ops, es[..i]), RigidOut(ops, es[i]));
        }
        mm, order := RigidEntity(reg, ops, i, mm, order);
        i := i + 1;
      }
      assert es[..i] == es;
      g := Meshes(mm, order);
    }

    /** One entity of the rigid-body walk: update its mesh component and push its matrix. */
    method RigidEntity(reg: Registry, ops: GlmOps, i: nat, mm: map<MeshId, seq<Mat4>>, order: seq<MeshId>)
      returns (mm': map<MeshId, seq<Mat4>>, order': seq<MeshId>)
      requires i < |reg.entities|
      modifies reg
      ensures reg.entities == old(reg.entities)[i := AfterRigid(old(reg.entities)[i])]
      ensures var out := RigidOut(ops, old(reg.entities)[i]);
        Meshes(mm', order') == if out == [] then Meshes(mm, order) else Push(Meshes(mm, order), out[0])
    {
      mm', order' := mm, order;
      var e := reg.entities[i];
      if e.rigidBody.Some? && e.meshComp.Some? {
        var mc := e.meshComp.value;
        var body := e.rigidBody.value.body;
        if body.None? || mc.hidden || mc.hiddenPersistent {
          reg.entities := reg.entities[i := e.(meshComp := Some(mc.(hidden := false, highlightId := 0)))];
        } else {
          var pose := body.value;
          var objPos := Add3(pose.origin, mc.position);
          var model := ops.modelMatrix(Sub3(objPos, mc.position), mc.position, pose.euler,
                                       Radians3(ops, mc.rotation), mc.scale);
          model := model.(c3 := model.c3.(w := mc.highlightId as real));
          reg.entities := reg.entities[i := e.(meshComp := Some(mc.(highlightId := 0)))];
          assert RigidOut(ops, e) == [(mc.mesh, model)];
          if mc.mesh in mm' {
            mm' := mm'[mc.mesh := mm'[mc.mesh] + [model]];
          } else {
            mm' := mm'[mc.mesh := [model]];
            order' := order' + [mc.mesh];
          }
        }
      }
    }

    /** The transform group walk (lines 481-498), continuing the map of the rigid-body walk. */
    method TransformPass(reg: Registry, ops: GlmOps, g0: Meshes) returns (g: Meshes)
      modifies reg
      ensures |reg.entities| == |old(reg.entities)|
      ensures forall i :: 0 <= i < |reg.entities| ==> reg.entities[i] == AfterTransform(old(reg.entities)[i])
      ensures g == Gather(g0, TransformItems(ops, old(reg.entities)))
    {
      ghost var es := reg.entities;
      var mm: map<MeshId, seq<Mat4>>, order: seq<MeshId> := g0.mm, g0.order;
      var i := 0;
      while i < |reg.entities|
        invariant 0 <= i <= |reg.entities| == |es|
        invariant forall j :: 0 <= j < |es| ==> reg.entities[j] == if j < i then AfterTransform(es[j]) else es[j]
        invariant Meshes(mm, order) == Gather(g0, TransformItems(ops, es[..i]))
      {
        assert Gather(g0, TransformItems(ops, es[..i + 1])) ==
               if TransformOut(ops, es[i]) == [] then Meshes(mm, order) else Push(Meshes(mm, order), TransformOut(ops, es[i])[0]) by {
          TransformItemsSnoc(ops, es, i);
          GatherSnoc(g0, TransformItems(ops, es[..i]), TransformOut(ops, es[i]));
        }
        mm, order := TransformEntity(reg, ops, i, mm, order);
        i := i + 1;
      }
      assert es[..i] == es;
      g := Meshes(mm, order);
    }

    /** One entity of the transform walk: update its mesh component and push its matrix. */
    method TransformEntity(reg: Registry, ops: GlmOps, i: nat, mm: map<MeshId, seq<Mat4>>, order: seq<MeshId>)
      returns (mm': map<MeshId, seq<Mat4>>, order': seq<MeshId>)
      requires i < |reg.entities|
      modifies reg
      ensures reg.entities == old(reg.entities)[i := AfterTransform(old(reg.entities)[i])]
      ensures var out := TransformOut(ops, old(reg.entities)[i]);
        Meshes(mm', order') == if out == [] then Meshes(mm, order) else Push(Meshes(mm, order), out[0])
    {
      mm', order' := mm, order;
      var e := reg.entities[i];
      if e.transform.Some? && e.meshComp.Some? && e.rigidBody.None? {
        var t := e.transform.value;
        var mc := e.meshComp.value;
        if mc.hidden || mc.hiddenPersistent {
          reg.entities := reg.entities[i := e.(meshComp := Some(mc.(hidden := false)))];
        } else {
          var model := ops.modelMatrix(t.position, mc.position, Radians3(ops, t.rotation),
                                       Radians3(ops, mc.rotation), Mul3(t.scale, mc.scale));
          model := model.(c3 := model.c3.(w := mc.highlightId as real));
          reg.entities := reg.entities[i := e.(meshComp := Some(mc.(highlightId := 0)))];
          assert TransformOut(ops, e) == [(mc.mesh, model)];
          if mc.mesh in mm' {
            mm' := mm'[mc.mesh := mm'[mc.mesh] + [model]];
          } else {
            mm' := mm'[mc.mesh := [model]];
            order' := order' + [mc.mesh];
          }
        }
      }
    }

    /**
     * UpdateRenderableMeshes: resolve the components, then cull and batch the
     * matrices of every mesh for the camera view and for each cascade. The
     * hash map `meshMatrices` is walked in `order`, any listing of its keys
     * once each (the standard library does not fix it). The result is the
     * batching specification `FramePass` run on the collected matrices in
     * that order, with view 0 stored as `worldBatch` and view 1 + i as
     * `csmBatches[i]`.
     */
    method UpdateRenderableMeshes(reg: Registry, ops: GlmOps, projxview: Mat4, csmMatrices: seq<Mat4>,
                                  aabbOf: MeshId -> (Vec3, Vec3), order: seq<MeshId>)
      requires IterationOrder(order, Collect(ops, reg.entities).mm)
      modifies reg, state
      ensures |reg.entities| == |old(reg.entities)|
      ensures forall i :: 0 <= i < |reg.entities| ==> reg.entities[i] == Resolved(old(reg.entities)[i])
      ensures var mm := Collect(ops, old(reg.entities)).mm;
        var f := FramePass(CullerOf([projxview] + csmMatrices, aabbOf), 1 + |csmMatrices|, order, mm,
                           modelUniform.offsetAlignment);
        state.matricesToUpload == f.upload && state.worldBatch == f.lists[0] && state.csmBatches == f.lists[1..]
    {
      var g := ResolveMeshes(reg, ops);

      // setup batching
      state.matricesToUpload := [];
      state.worldBatch := [];
      state.csmBatches := seq(|csmMatrices|, _ => []);

      // setup frustum culling
      ghost var views := [projxview] + csmMatrices;
      var frustums := MakeFrustums(projxview, csmMatrices);
      BatchFrame(frustums, views, aabbOf, order, g.mm);
    }

    /** One frustum for the camera view and one per cascade matrix (lines 509-520). */
    method MakeFrustums(projxview: Mat4, csmMatrices: seq<Mat4>) returns (frustums: seq<Frustum>)
      ensures |frustums| == 1 + |csmMatrices|
      ensures forall j :: 0 <= j < |frustums| ==>
        frustums[j].planes.Length == 6 && frustums[j].planes[..] == Planes(([projxview] + csmMatrices)[j])
    {
      ghost var views := [projxview] + csmMatrices;
      var first := new Frustum(projxview);
      frustums := [first];
      var n := 0;
      while n < |csmMatrices|
        invariant 0 <= n <= |csmMatrices| && |frustums| == n + 1
        invariant forall j :: 0 <= j < |frustums| ==> frustums[j].planes.Length == 6 && frustums[j].planes[..] == Planes(views[j])
      {
        var fr := new Frustum(csmMatrices[n]);
        frustums := frustums + [fr];
        n := n + 1;
      }
    }

    /** The batching loop over all views (lines 522-566), into the cleared state. */
    method BatchFrame(frustums: seq<Frustum>, ghost views: seq<Mat4>, aabbOf: MeshId -> (Vec3, Vec3),
                      order: seq<MeshId>, mm: map<MeshId, seq<Mat4>>)
      requires |frustums| == |views| > 0
      requires forall j :: 0 <= j < |frustums| ==> frustums[j].planes.Length == 6 && frustums[j].planes[..] == Planes(views[j])
      requires Keyed(order, mm)
      requires state.matricesToUpload == [] && state.worldBatch == []
      requires |state.csmBatches| == |views| - 1 && forall j :: 0 <= j < |state.csmBatches| ==> state.csmBatches[j] == []
      modifies state
      ensures var f := FramePass(CullerOf(views, aabbOf), |views|, order, mm, modelUniform.offsetAlignment);
        state.matricesToUpload == f.upload && state.worldBatch == f.lists[0] && state.csmBatches == f.lists[1..]
    {
      var alignment := modelUniform.offsetAlignment;
      ghost var csmCount := |views| - 1;
      ghost var vis := CullerOf(views, aabbOf);
      var currentUboOffset: nat := 0;
      ghost var lists: seq<seq<MeshBatch>> := [];
      var i := 0;
      while i < |frustums|
        modifies state
        invariant 0 <= i <= |frustums| && |lists| == i
        invariant Frame(state.matricesToUpload, currentUboOffset, lists) == FramePass(vis, i, order, mm, alignment)
        invariant |state.csmBatches| == csmCount
        invariant i > 0 ==> state.worldBatch == lists[0]
        invariant forall j :: 0 <= j < csmCount ==> state.csmBatches[j] == if j + 1 < i then lists[j + 1] else []
      {
        ghost var f := Frame(state.matricesToUpload, currentUboOffset, lists);
        var batches;
        currentUboOffset, batches := BatchView(frustums[i], views, aabbOf, i, order, mm, currentUboOffset);
        assert Frame(state.matricesToUpload, currentUboOffset, lists + [batches]) == FramePass(vis, i + 1, order, mm, alignment);
        StoreView(i, batches);
        lists := lists + [batches];
        i := i + 1;
      }
      assert state.csmBatches == lists[1..];
    }

    /** View 0's batches become `worldBatch`, view 1 + i's become `csmBatches[i]` (lines 561-564). */
    method StoreView(view: nat, batches: seq<MeshBatch>)
      requires view == 0 || view - 1 < |state.csmBatches|
      modifies state
      ensures state.matricesToUpload == old(state.matricesToUpload)
      ensures state.worldBatch == if view == 0 then batches else old(state.worldBatch)
      ensures state.csmBatches == if view == 0 then old(state.csmBatches) else old(state.csmBatches)[view - 1 := batches]
    {
      if view == 0 {
        state.worldBatch := batches;
      } else {
        state.csmBatches := state.csmBatches[view - 1 := batches];
      }
    }

    /** One view of the batching loop (lines 525-565): every mesh in the map's order. */
    method BatchView(frustum: Frustum, ghost views: seq<Mat4>, aabbOf: MeshId -> (Vec3, Vec3), view: nat,
                     order: seq<MeshId>, mm: map<MeshId, seq<Mat4>>, offset: nat)
      returns (currentUboOffset: nat, batches: seq<MeshBatch>)
      requires view < |views| && frustum.planes.Length == 6 && frustum.planes[..] == Planes(views[view])
      requires Keyed(order, mm)
      modifies state
      ensures var c := ViewPass(Cursor(old(state.matricesToUpload), offset, [], MeshBatch(0, offset, 0)),
                                CullerOf(views, aabbOf), view, order, mm, modelUniform.offsetAlignment);
        state.matricesToUpload == c.upload && currentUboOffset == c.offset && batches == c.done
      ensures state.worldBatch == old(state.worldBatch) && state.csmBatches == old(state.csmBatches)
    {
      ghost var vis := CullerOf(views, aabbOf);
      ghost var start := Cursor(state.matricesToUpload, offset, [], MeshBatch(0, offset, 0));
      currentUboOffset, batches := offset, [];
      var j := 0;
      while j < |order|
        modifies state
        invariant 0 <= j <= |order|
        invariant var c := ViewPass(start, vis, view, order[..j], mm, modelUniform.offsetAlignment);
          state.matricesToUpload == c.upload && currentUboOffset == c.offset && batches == c.done
        invariant state.worldBatch == old(state.worldBatch) && state.csmBatches == old(state.csmBatches)
      {
        var mesh := order[j];
        assert order[..j + 1][..j] == order[..j];
        currentUboOffset, batches := BatchMesh(frustum, views, aabbOf, view, mesh, mm[mesh], currentUboOffset, batches);
        j := j + 1;
      }
      assert order[..j] == order;
    }

    /** One mesh of one view (lines 528-564): cull its matrices, append the survivors, cut batches. */
    method BatchMesh(frustum: Frustum, ghost views: seq<Mat4>, aabbOf: MeshId -> (Vec3, Vec3), view: nat,
                     mesh: MeshId, mats: seq<Mat4>, offset: nat, done: seq<MeshBatch>)
      returns (currentUboOffset: nat, batches: seq<MeshBatch>)
      requires view < |views| && frustum.planes.Length == 6 && frustum.planes[..] == Planes(views[view])
      modifies state
      ensures var c := MeshPass(Cursor(old(state.matricesToUpload), offset, done, MeshBatch(mesh, offset, 0)),
                                CullerOf(views, aabbOf), view, mesh, mats, modelUniform.offsetAlignment);
        state.matricesToUpload == c.upload && currentUboOffset == c.offset && batches == c.done
      ensures state.worldBatch == old(state.worldBatch) && state.csmBatches == old(state.csmBatches)
    {
      ghost var vis := CullerOf(views, aabbOf);
      var alignment := modelUniform.offsetAlignment;
      currentUboOffset, batches := offset, done;
      var batch := MeshBatch(mesh, currentUboOffset, 0);
      ghost var c0 := Cursor(state.matricesToUpload, offset, done, batch);
      var aabb := aabbOf(mesh);
      var k := 0;
      while k < |mats|
        modifies state
        invariant 0 <= k <= |mats|
        invariant Cursor(state.matricesToUpload, currentUboOffset, batches, batch) == Feed(c0, vis, view, mesh, mats[..k], alignment)
        invariant state.worldBatch == old(state.worldBatch) && state.csmBatches == old(state.csmBatches)
      {
        assert mats[..k + 1][..k] == mats[..k];
        currentUboOffset, batches, batch := FeedMatrix(frustum, views, aabbOf, view, mesh, mats[k], currentUboOffset, batches, batch);
        k := k + 1;
      }
      assert mats[..k] == mats;
      if batch.instanceCount != 0 {
        // fix ubo offset alignment
        var padding := alignment - (currentUboOffset * MatrixBytes) % alignment;
        currentUboOffset := currentUboOffset + padding / MatrixBytes;
        state.matricesToUpload := Resize(state.matricesToUpload, currentUboOffset);
        // save batch
        batches := batches + [batch];
      }
    }

    /** One matrix of the mesh loop (lines 533-561): cull it, append it, cut a full batch. */
    method FeedMatrix(frustum: Frustum, ghost views: seq<Mat4>, aabbOf: MeshId -> (Vec3, Vec3), view: nat,
                      mesh: MeshId, mat: Mat4, offset: nat, done: seq<MeshBatch>, open: MeshBatch)
      returns (currentUboOffset: nat, batches: seq<MeshBatch>, batch: MeshBatch)
      requires view < |views| && frustum.planes.Length == 6 && frustum.planes[..] == Planes(views[view])
      modifies state
      ensures Cursor(state.matricesToUpload, currentUboOffset, batches, batch) ==
        Step(Cursor(old(state.matricesToUpload), offset, done, open),
             Passes(CullerOf(views, aabbOf), view, mesh, mat), mat, modelUniform.offsetAlignment)
      ensures state.worldBatch == old(state.worldBatch) && state.csmBatches == old(state.csmBatches)
    {
      var alignment := modelUniform.offsetAlignment;
      currentUboOffset, batches, batch := offset, done, open;
      var aabb := aabbOf(mesh);
      var fixedMat := mat.(c3 := mat.c3.(w := 0.0)); // remove extra data
      var visible := frustum.IsAabbVisibleModel(aabb.0, aabb.1, fixedMat);
      assert visible == Passes(CullerOf(views, aabbOf), view, mesh, mat);
      if visible {
        state.matricesToUpload := state.matricesToUpload + [mat];
        batch := batch.(instanceCount := batch.instanceCount + 1);
        currentUboOffset := currentUboOffset + 1;
        if batch.instanceCount == MatricesPerUniformBuffer {
          // fix ubo offset alignment
          var padding := alignment - (currentUboOffset * MatrixBytes) % alignment;
          currentUboOffset := currentUboOffset + padding / MatrixBytes;
          state.matricesToUpload := Resize(state.matricesToUpload, currentUboOffset);
          // save batch
          batches := batches + [batch];
          batch := batch.(instanceOffset := currentUboOffset, instanceCount := 0);
        }
      }
    }

    // ------------------------------------------------------- cached setters

    /** SetFramebuffer (lines 304-308): bind only when it differs from the cached one. */
    method SetFramebuffer(framebuffer: nat)
      modifies this
      ensures Cache() == old(Cache()).(framebuffer := framebuffer)
      ensures gl == old(gl) + (if old(currentFramebuffer) == framebuffer then [] else [BindFramebuffer(framebuffer)])
      ensures settings == old(settings) && programs == old(programs) && csmProgramCount == old(csmProgramCount)
      ensures totalDrawnTriangleCount == old(totalDrawnTriangleCount) && totalDrawnEntityCount == old(totalDrawnEntityCount)
    {
      if currentFramebuffer == framebuffer {
        return;
      }
      gl := gl + [BindFramebuffer(framebuffer)];
      currentFramebuffer := framebuffer;
    }

    /** SetRenderSize (lines 309-314): set the viewport only when the size differs. */
    method SetRenderSize(x: nat, y: nat)
      modifies this
      ensures Cache() == old(Cache()).(renderSizeX := x, renderSizeY := y)
      ensures gl == old(gl) + (if old(currentRenderSizeX) == x && old(currentRenderSizeY) == y then [] else [Viewport(x, y)])
      ensures settings == old(settings) && programs == old(programs)
    {
      if currentRenderSizeX == x && currentRenderSizeY == y {
        return;
      }
      gl := gl + [Viewport(x, y)];
      currentRenderSizeX := x;
      currentRenderSizeY := y;
    }

    /** SetFaceCullingFront (lines 315-319). */
    method SetFaceCullingFront()
      modifies this
      ensures Cache() == old(Cache()).(faceCullingFront := true)
      ensures gl == old(gl) + (if old(faceCullingFront) then [] else [CullFace(true)])
      ensures settings == old(settings) && programs == old(programs)
    {
      if faceCullingFront {
        return;
      }
      gl := gl + [CullFace(true)];
      faceCullingFront := true;
    }

    /** SetFaceCullingBack (lines 320-324). */
    method SetFaceCullingBack()
      modifies this
      ensures Cache() == old(Cache()).(faceCullingFront := false)
      ensures gl == old(gl) + (if !old(faceCullingFront) then [] else [CullFace(false)])
      ensures settings == old(settings) && programs == old(programs)
    {
      if !faceCullingFront {
        return;
      }
      gl := gl + [CullFace(false)];
      faceCullingFront := false;
    }

    /** ShowWireframe (Renderer.h:60). */
    method ShowWireframe(show: bool)
      modifies this
      ensures showWireframe == show && Cache() == old(Cache()) && gl == old(gl) && settings == old(settings)
    {
      showWireframe := show;
    }

    // ------------------------------------------------------------ settings

    /**
     * ReloadShaders (lines 94-259): nothing for NONE or while shaders are
     * loading; otherwise the selected programs are rebuilt, the cascade
     * programs one per cascade, and SetupUniforms clears the loading flag.
     */
    method ReloadShaders(shaders: ShaderMask, inp: ReloadInputs)
      modifies this
      ensures var i := inp.(cascadeCount := csm.GetFrustumCount());
        programs == old(programs) + (if shaders == NoShaders || old(shadersLoading) then [] else Rebuilt(shaders, settings, i))
      ensures csmProgramCount ==
        if shaders != NoShaders && !old(shadersLoading) && Selects(shaders, CsmPrograms) then csm.GetFrustumCount() else old(csmProgramCount)
      ensures shaders == NoShaders || old(shadersLoading) ==> shadersLoading == old(shadersLoading)
      ensures shaders != NoShaders && !old(shadersLoading) ==> !shadersLoading
      ensures settings == old(settings) && gl == old(gl) && Cache() == old(Cache())
      ensures viewportWidth == old(viewportWidth) && viewportHeight == old(viewportHeight)
    {
      if shaders == NoShaders {
        return;
      }
      if shadersLoading {
        return;
      }
      shadersLoading := true;
      var i := inp.(cascadeCount := csm.GetFrustumCount());
      programs := programs + Rebuilt(shaders, settings, i);
      if Selects(shaders, CsmPrograms) {
        csmProgramCount := csm.GetFrustumCount();
      }
      // SetupUniforms
      shadersLoading := false;
    }

    /**
     * SetSettings (lines 325-360): store what changed (the resolution record
     * only on a size change), resize the render targets on a size change,
     * install the shadow preset on a shadow change, then reload what the
     * mask selects; with force everything is stored and ALL reloaded.
     */
    method SetSettings(s: Settings, force: bool, inp: ReloadInputs)
      requires Valid()
      modifies this, csm
      ensures settings == Applied(old(settings), s, force)
      ensures var sized := force || old(settings).resolution.width != s.resolution.width ||
                           old(settings).resolution.height != s.resolution.height;
        gl == old(gl) + (if sized then [ResizeTargets(s.resolution.width, s.resolution.height)] else [])
      ensures var shadowed := force || old(settings).shadows != s.shadows;
        (shadowed ==> csm.width == ShadowMapPreset(s.shadows).0 && csm.height == ShadowMapPreset(s.shadows).0 &&
                      csm.cascadeSplits == ShadowMapPreset(s.shadows).1) &&
        (!shadowed ==> csm.width == old(csm.width) && csm.height == old(csm.height) &&
                       csm.cascadeSplits == old(csm.cascadeSplits) && csm.fbos == old(csm.fbos))
      ensures var mask := ReloadMask(old(settings), s, force);
        programs == old(programs) + (if mask == NoShaders then [] else Rebuilt(mask, settings, inp.(cascadeCount := csm.GetFrustumCount()))) &&
        csmProgramCount == if Selects(mask, CsmPrograms) then csm.GetFrustumCount() else old(csmProgramCount)
      ensures Valid() && Cache() == old(Cache())
      ensures viewportWidth == old(viewportWidth) && viewportHeight == old(viewportHeight)
    {
      var shaders := StoreSettings(s, force);
      ReloadShaders(shaders, inp);
    }

    /** The part of SetSettings before ReloadShaders (lines 326-358). */
    method StoreSettings(s: Settings, force: bool) returns (shaders: ShaderMask)
      requires Valid()
      modifies this, csm
      ensures shaders == ReloadMask(old(settings), s, force)
      ensures settings == Applied(old(settings), s, force)
      ensures var sized := force || old(settings).resolution.width != s.resolution.width ||
                           old(settings).resolution.height != s.resolution.height;
        gl == old(gl) + (if sized then [ResizeTargets(s.resolution.width, s.resolution.height)] else [])
      ensures var shadowed := force || old(settings).shadows != s.shadows;
        (shadowed ==> csm.width == ShadowMapPreset(s.shadows).0 && csm.height == ShadowMapPreset(s.shadows).0 &&
                      csm.cascadeSplits == ShadowMapPreset(s.shadows).1) &&
        (!shadowed ==> csm.width == old(csm.width) && csm.height == old(csm.height) &&
                       csm.cascadeSplits == old(csm.cascadeSplits) && csm.fbos == old(csm.fbos))
      ensures Valid() && Cache() == old(Cache()) && programs == old(programs) && csmProgramCount == old(csmProgramCount)
      ensures viewportWidth == old(viewportWidth) && viewportHeight == old(viewportHeight)
    {
      ghost var before := settings;
      shaders := NoShaders;
      if force || settings.resolution.width != s.resolution.width || settings.resolution.height != s.resolution.height {
        settings := settings.(resolution := s.resolution);
        gl := gl + [ResizeTargets(settings.resolution.width, settings.resolution.height)];
      }
      var fxaaBits := NoShaders;
      if force || settings.fxaa != s.fxaa {
        settings := settings.(fxaa := s.fxaa);
        fxaaBits := FxaaShader;
      }
      var shadowBits := NoShaders;
      if force || settings.shadows != s.shadows {
        settings := settings.(shadows := s.shadows);
        shadowBits := LightingShader | CsmShader;
        var preset := ShadowMapPreset(settings.shadows);
        csm.ResizeAndSetCascades(preset.0, preset.0, preset.1);
      }
      var outlineBits := NoShaders;
      if force || settings.outlines != s.outlines {
        settings := settings.(outlines := s.outlines);
        outlineBits := LightingShader;
      }
      shaders := fxaaBits | shadowBits | outlineBits;
      if force {
        shaders := AllShaders;
      }
    }

    /**
     * SetViewportSize (lines 34-44): nothing when the size is unchanged;
     * otherwise store it and, with automatic resolution, apply the settings
     * with the new size. Only the size differs from the stored settings, so
     * SetSettings resizes the render targets when the stored resolution
     * differs, keeps the shadow maps and reloads no program.
     */
    method SetViewportSize(width: int, height: int, inp: ReloadInputs)
      requires Valid()
      modifies this, csm
      ensures old(viewportWidth) == width && old(viewportHeight) == height ==>
        settings == old(settings) && gl == old(gl) && programs == old(programs)
      ensures viewportWidth == width && viewportHeight == height
      ensures (old(viewportWidth) != width || old(viewportHeight) != height) && old(settings).resolution.automatic ==>
        var s := old(settings).(resolution := old(settings).resolution.(width := width, height := height));
        settings == s && settings == Applied(old(settings), s, false) &&
        gl == old(gl) + (if old(settings).resolution.width != width || old(settings).resolution.height != height
                         then [ResizeTargets(width, height)] else [])
      ensures !old(settings).resolution.automatic ==> settings == old(settings) && gl == old(gl)
      ensures programs == old(programs) && csmProgramCount == old(csmProgramCount)
      ensures csm.width == old(csm.width) && csm.height == old(csm.height) &&
              csm.cascadeSplits == old(csm.cascadeSplits) && csm.fbos == old(csm.fbos)
      ensures Valid() && Cache() == old(Cache())
    {
      if viewportWidth == width && viewportHeight == height {
        return;
      }
      viewportWidth := width;
      viewportHeight := height;
      if settings.resolution.automatic {
        var newSettings := settings.(resolution := settings.resolution.(width := width, height := height));
        ReloadMaskFacts(settings, newSettings, false);
        SetSettings(newSettings, false, inp);
      }
    }

    // ---------------------------------------------------------- uniforms

    /**
     * UpdateUniforms, material and model-matrix parts (lines 589-610): the
     * materials are re-uploaded when their count changed; the model buffer
     * grows to the 32-bit required size plus 256 more matrices (the sum in
     * 32 bits too) when it is smaller than the required size, then receives
     * the matrices. When neither sum wraps it holds the matrices plus one
     * full 256-matrix range. The camera update, the camera, lighting and
     * cascade uploads and the 1024-slot bound of the material copy are not
     * modelled.
     */
    method UpdateUniforms(materials: nat)
      modifies this, modelUniform
      ensures materialCount == materials
      ensures materialUploads == old(materialUploads) + (if old(materialCount) != materials then 1 else 0)
      ensures modelUniform.size == GrownSize(old(modelUniform.size), |state.matricesToUpload|)
      ensures modelUniform.contents == state.matricesToUpload
      ensures (|state.matricesToUpload| + 2 * MatricesPerUniformBuffer) * MatrixBytes < 0x1_0000_0000 ==>
        modelUniform.size >= (|state.matricesToUpload| + MatricesPerUniformBuffer) * MatrixBytes
      ensures gl == old(gl) && settings == old(settings) && Cache() == old(Cache())
    {
      if materialCount != materials {
        materialUploads := materialUploads + 1;
        materialCount := materials;
      }
      // resize ubo if needed
      var mats := state.matricesToUpload;
      var requiredSize := ToU32((|mats| + MatricesPerUniformBuffer) * MatrixBytes);
      if modelUniform.size < requiredSize {
        modelUniform.size := ToU32(requiredSize + MatrixBytes * MatricesPerUniformBuffer);
      }
      // upload matrices
      modelUniform.contents := mats;
      if (|mats| + 2 * MatricesPerUniformBuffer) * MatrixBytes < 0x1_0000_0000 {
        GrownSizeCovers(old(modelUniform.size), |mats|);
      }
    }

    // ------------------------------------------------------------ draws

    /** The batch loop shared by both passes (lines 622-632, 646-656). */
    method DrawBatches(bs: seq<MeshBatch>, vaoOf: MeshId -> nat, drawCountOf: MeshId -> nat, mode: DrawMode)
      returns (vertexCount: nat, entityCount: nat)
      modifies this
      ensures gl == old(gl) + Dispatch(bs, vaoOf, drawCountOf, mode, 0)
      ensures vertexCount == VertexTotal(bs, drawCountOf) && entityCount == SumCounts(bs)
      ensures settings == old(settings) && Cache() == old(Cache()) && programs == old(programs) && showWireframe == old(showWireframe)
      ensures totalDrawnTriangleCount == old(totalDrawnTriangleCount) && totalDrawnEntityCount == old(totalDrawnEntityCount)
    {
      vertexCount, entityCount := 0, 0;
      var issued: seq<GlEvent> := [];
      var currentVao := 0;
      var i := 0;
      while i < |bs|
        modifies {}
        invariant 0 <= i <= |bs|
        invariant issued == Dispatch(bs[..i], vaoOf, drawCountOf, mode, 0)
        invariant currentVao == LastVao(bs[..i], vaoOf, 0)
        invariant vertexCount == VertexTotal(bs[..i], drawCountOf) && entityCount == SumCounts(bs[..i])
      {
        var batch := bs[i];
        assert bs[..i + 1][..i] == bs[..i];
        ghost var e := BatchEvents(batch, vaoOf, drawCountOf, mode, currentVao);
        var vao := vaoOf(batch.mesh);
        if currentVao != vao {
          issued := issued + [BindVertexArray(vao)];
          currentVao := vao;
        }
        issued := issued + [BindModelRange(batch.instanceOffset * MatrixBytes, MatricesPerUniformBuffer * MatrixBytes),
                            DrawInstanced(mode, drawCountOf(batch.mesh), batch.instanceCount)];
        assert issued == Dispatch(bs[..i], vaoOf, drawCountOf, mode, 0) + e;
        vertexCount := vertexCount + batch.instanceCount * drawCountOf(batch.mesh);
        entityCount := entityCount + batch.instanceCount;
        i := i + 1;
      }
      assert bs[..i] == bs;
      gl := gl + issued;
    }

    /**
     * RenderMeshes (lines 640-662): the mesh program, then the camera
     * view's batches drawn as lines in wireframe mode and as triangles
     * otherwise; the totals grow by the triangles and instances drawn.
     */
    method RenderMeshes(vaoOf: MeshId -> nat, drawCountOf: MeshId -> nat)
      modifies this
      ensures var mode := if showWireframe then Lines else Triangles;
        gl == old(gl) + [UseProgram("mesh", 0)] + Dispatch(state.worldBatch, vaoOf, drawCountOf, mode, 0)
      ensures totalDrawnTriangleCount == old(totalDrawnTriangleCount) + VertexTotal(state.worldBatch, drawCountOf) / 3
      ensures totalDrawnEntityCount == old(totalDrawnEntityCount) + SumCounts(state.worldBatch)
      ensures settings == old(settings) && Cache() == old(Cache()) && programs == old(programs)
    {
      var drawType := if showWireframe then Lines else Triangles;
      gl := gl + [UseProgram("mesh", 0)];
      var vertexCount, entityCount := DrawBatches(state.worldBatch, vaoOf, drawCountOf, drawType);
      var triCount := vertexCount / 3;
      totalDrawnTriangleCount := totalDrawnTriangleCount + triCount;
      totalDrawnEntityCount := totalDrawnEntityCount + entityCount;
    }

    /** Cascade i of RenderShadowMaps (lines 616-632), extending the calls of cascades 0..i-1. */
    method RenderCascade(fbos: seq<nat>, lists: seq<seq<MeshBatch>>, i: nat, vaoOf: MeshId -> nat, drawCountOf: MeshId -> nat,
                         ghost base: seq<GlEvent>, ghost fb: nat)
      returns (vertexCount: nat, entityCount: nat)
      requires i < |fbos| <= |lists|
      requires gl == base + ShadowEvents(fbos[..i], lists, vaoOf, drawCountOf, fb)
      requires currentFramebuffer == LastFbo(fbos[..i], fb)
      modifies this
      ensures gl == base + ShadowEvents(fbos[..i + 1], lists, vaoOf, drawCountOf, fb)
      ensures currentFramebuffer == LastFbo(fbos[..i + 1], fb)
      ensures currentRenderSizeX == old(currentRenderSizeX) && currentRenderSizeY == old(currentRenderSizeY)
      ensures faceCullingFront == old(faceCullingFront)
      ensures vertexCount == VertexTotal(lists[i], drawCountOf) && entityCount == SumCounts(lists[i])
      ensures settings == old(settings) && programs == old(programs)
      ensures totalDrawnTriangleCount == old(totalDrawnTriangleCount) && totalDrawnEntityCount == old(totalDrawnEntityCount)
    {
      ShadowEventsStep(fbos, lists, vaoOf, drawCountOf, fb, i);
      ghost var prior := ShadowEvents(fbos[..i], lists, vaoOf, drawCountOf, fb);
      ghost var start := CascadeStart(i, fbos[i], currentFramebuffer);
      ghost var draws := Dispatch(lists[i], vaoOf, drawCountOf, Triangles, 0);
      assert ShadowEvents(fbos[..i + 1], lists, vaoOf, drawCountOf, fb) == prior + (start + draws);
      gl := gl + [UseProgram("csm", i)];
      SetFramebuffer(fbos[i]);
      gl := gl + [ClearDepth];
      assert gl == base + prior + start;
      vertexCount, entityCount := DrawBatches(lists[i], vaoOf, drawCountOf, Triangles);
      assert gl == base + prior + start + draws;
      AppendAssociates(base, prior, start, draws);
    }

    /**
     * RenderShadowMaps (lines 612-639): per cascade framebuffer, the
     * cascade's program, its framebuffer (through the cache), a depth
     * clear and the cascade's batches as triangles; the triangle total
     * grows by the vertices of all cascades divided by 3.
     */
    method RenderShadowMaps(vaoOf: MeshId -> nat, drawCountOf: MeshId -> nat)
      requires |csm.fbos| <= |state.csmBatches| && |csm.fbos| <= csmProgramCount
      modifies this
      ensures gl == old(gl) + ShadowEvents(csm.fbos, state.csmBatches, vaoOf, drawCountOf, old(currentFramebuffer))
      ensures Cache() == old(Cache()).(framebuffer := LastFbo(csm.fbos, old(currentFramebuffer)))
      ensures totalDrawnTriangleCount == old(totalDrawnTriangleCount) + ShadowVertexTotal(state.csmBatches, |csm.fbos|, drawCountOf) / 3
      ensures totalDrawnEntityCount == old(totalDrawnEntityCount) + SumCounts(Flatten(state.csmBatches, |csm.fbos|))
      ensures settings == old(settings) && programs == old(programs)
    {
      var fbos := csm.fbos;
      var lists := state.csmBatches;
      var vertexCount, entityCount := 0, 0;
      var i := 0;
      while i < |fbos|
        invariant 0 <= i <= |fbos|
        invariant gl == old(gl) + ShadowEvents(fbos[..i], lists, vaoOf, drawCountOf, old(currentFramebuffer))
        invariant currentFramebuffer == LastFbo(fbos[..i], old(currentFramebuffer))
        invariant currentRenderSizeX == old(currentRenderSizeX) && currentRenderSizeY == old(currentRenderSizeY)
        invariant faceCullingFront == old(faceCullingFront)
        invariant vertexCount == ShadowVertexTotal(lists, i, drawCountOf) && entityCount == SumCounts(Flatten(lists, i))
        invariant settings == old(settings) && programs == old(programs)
        invariant totalDrawnTriangleCount == old(totalDrawnTriangleCount) && totalDrawnEntityCount == old(totalDrawnEntityCount)
      {
        var v, e := RenderCascade(fbos, lists, i, vaoOf, drawCountOf, old(gl), old(currentFramebuffer));
        SumCountsAppend(Flatten(lists, i), lists[i]);
        vertexCount := vertexCount + v;
        entityCount := entityCount + e;
        i := i + 1;
      }
      assert fbos[..i] == fbos;
      var triCount := vertexCount / 3;
      totalDrawnTriangleCount := totalDrawnTriangleCount + triCount;
      totalDrawnEntityCount := totalDrawnEntityCount + entityCount;
    }
  }
}
