// The GL calls the renderer issues, recorded as events, and what the batched
// draw loops of RenderMeshes and RenderShadowMaps (Renderer.cpp:612-662)
// issue for a list of batches.

module RenderDispatch {
  import opened Common
  import opened Batching
  import Glm

  datatype DrawMode = Triangles | Lines

  datatype GlEvent =
    | BindFramebuffer(fbo: nat)
    | Viewport(x: nat, y: nat)
    | CullFace(front: bool)
    | ResizeTargets(targetWidth: int, targetHeight: int)
    | UseProgram(name: string, index: nat)
    | ClearDepth
    | BindVertexArray(vao: nat)
    | BindModelRange(offset: nat, size: nat)
    | DrawInstanced(mode: DrawMode, count: nat, instances: nat)

  /** The byte range bound for each batch: 256 matrices from the batch's first slot. */
  const ModelRangeBytes: nat := MatricesPerUniformBuffer * MatrixBytes

  /** The VAO bound after the batches: the last batch's, or `start` if there is none. */
  function LastVao(bs: seq<MeshBatch>, vaoOf: MeshId -> nat, start: nat): nat
  {
    if bs == [] then start else vaoOf(bs[|bs| - 1].mesh)
  }

  /** The calls for one batch while `current` is bound (lines 624-630). */
  function BatchEvents(b: MeshBatch, vaoOf: MeshId -> nat, drawCountOf: MeshId -> nat, mode: DrawMode, current: nat): seq<GlEvent>
  {
    (if vaoOf(b.mesh) != current then [BindVertexArray(vaoOf(b.mesh))] else []) +
    [BindModelRange(b.instanceOffset * MatrixBytes, ModelRangeBytes), DrawInstanced(mode, drawCountOf(b.mesh), b.instanceCount)]
  }

  /** The calls for a batch list, starting with `start` as the tracked VAO. */
  function Dispatch(bs: seq<MeshBatch>, vaoOf: MeshId -> nat, drawCountOf: MeshId -> nat, mode: DrawMode, start: nat): seq<GlEvent>
    decreases |bs|
  {
    if bs == [] then []
    else
      var prior := bs[..|bs| - 1];
      Dispatch(prior, vaoOf, drawCountOf, mode, start) + BatchEvents(bs[|bs| - 1], vaoOf, drawCountOf, mode, LastVao(prior, vaoOf, start))
  }

  /** `vertexCount` summed over the batches: instances times the mesh's index count. */
  function VertexTotal(bs: seq<MeshBatch>, drawCountOf: MeshId -> nat): nat
    decreases |bs|
  {
    if bs == [] then 0 else VertexTotal(bs[..|bs| - 1], drawCountOf) + bs[|bs| - 1].instanceCount * drawCountOf(bs[|bs| - 1].mesh)
  }

  // ------------------------------------------------------------- filters

  function Draws(evs: seq<GlEvent>): seq<GlEvent>
    decreases |evs|
  {
    if evs == [] then []
    else Draws(evs[..|evs| - 1]) + (if evs[|evs| - 1].DrawInstanced? then [evs[|evs| - 1]] else [])
  }

  function VaoBinds(evs: seq<GlEvent>): seq<nat>
    decreases |evs|
  {
    if evs == [] then []
    else VaoBinds(evs[..|evs| - 1]) + (if evs[|evs| - 1].BindVertexArray? then [evs[|evs| - 1].vao] else [])
  }

  function Ranges(evs: seq<GlEvent>): seq<(nat, nat)>
    decreases |evs|
  {
    if evs == [] then []
    else Ranges(evs[..|evs| - 1]) + (if evs[|evs| - 1].BindModelRange? then [(evs[|evs| - 1].offset, evs[|evs| - 1].size)] else [])
  }

  lemma {:induction false} FiltersAppend(xs: seq<GlEvent>, ys: seq<GlEvent>)
    ensures Draws(xs + ys) == Draws(xs) + Draws(ys)
    ensures VaoBinds(xs + ys) == VaoBinds(xs) + VaoBinds(ys)
    ensures Ranges(xs + ys) == Ranges(xs) + Ranges(ys)
    decreases |ys|
  {
    if ys == [] {
      assert xs + ys == xs;
    } else {
      assert (xs + ys)[..|xs + ys| - 1] == xs + ys[..|ys| - 1];
      FiltersAppend(xs, ys[..|ys| - 1]);
    }
  }

  // --------------------------------------------------- reference definitions

  /** The draw each batch should issue. */
  function DrawOf(b: MeshBatch, drawCountOf: MeshId -> nat, mode: DrawMode): GlEvent
  {
    DrawInstanced(mode, drawCountOf(b.mesh), b.instanceCount)
  }

  /** The VAOs of the batches' meshes, in batch order. */
  function VaosOf(bs: seq<MeshBatch>, vaoOf: MeshId -> nat): (r: seq<nat>)
    ensures |r| == |bs| && forall i :: 0 <= i < |bs| ==> r[i] == vaoOf(bs[i].mesh)
  {
    seq<nat>(|bs|, i requires 0 <= i < |bs| => vaoOf(bs[i].mesh))
  }

  /**
   * Run-length view of a VAO sequence: the values at which it changes,
   * reading from the front with `current` already bound.
   */
  function Rebinds(vaos: seq<nat>, current: nat): seq<nat>
    decreases |vaos|
  {
    if vaos == [] then []
    else (if vaos[0] != current then [vaos[0]] else []) + Rebinds(vaos[1..], vaos[0])
  }

  lemma {:induction false} RebindsSnoc(vaos: seq<nat>, v: nat, current: nat)
    ensures Rebinds(vaos + [v], current) ==
      Rebinds(vaos, current) + (if v != (if vaos == [] then current else vaos[|vaos| - 1]) then [v] else [])
    decreases |vaos|
  {
    var w := vaos + [v];
    if vaos == [] {
      assert w[1..] == [];
    } else {
      var tail := vaos[1..];
      var last := if tail == [] then vaos[0] else tail[|tail| - 1];
      var head := if vaos[0] != current then [vaos[0]] else [];
      var extra := if v != last then [v] else [];
      assert last == vaos[|vaos| - 1];
      assert Rebinds(w, current) == head + Rebinds(tail + [v], vaos[0]) by {
        assert w[0] == vaos[0] && w[1..] == tail + [v];
      }
      assert Rebinds(tail + [v], vaos[0]) == Rebinds(tail, vaos[0]) + extra by {
        RebindsSnoc(tail, v, vaos[0]);
      }
      assert Rebinds(vaos, current) == head + Rebinds(tail, vaos[0]);
      assert head + (Rebinds(tail, vaos[0]) + extra) == (head + Rebinds(tail, vaos[0])) + extra;
    }
  }

  /** A rebind list never repeats the VAO already bound: it differs from `current` and from its predecessor. */
  lemma {:induction false} RebindsChange(vaos: seq<nat>, current: nat)
    ensures var r := Rebinds(vaos, current);
      (r != [] ==> r[0] != current) && forall i :: 0 < i < |r| ==> r[i] != r[i - 1]
    decreases |vaos|
  {
    if vaos != [] {
      RebindsChange(vaos[1..], vaos[0]);
      var rest := Rebinds(vaos[1..], vaos[0]);
      var r := Rebinds(vaos, current);
      if vaos[0] != current {
        assert r == [vaos[0]] + rest;
        forall i | 0 < i < |r| ensures r[i] != r[i - 1] {
          if i > 1 { assert r[i] == rest[i - 1] && r[i - 1] == rest[i - 2]; }
        }
      } else {
        assert r == rest;
        RebindsHead(vaos[1..], vaos[0]);
      }
    }
  }

  /** Without a change at the front, the first rebind differs from what was bound. */
  lemma RebindsHead(vaos: seq<nat>, current: nat)
    ensures Rebinds(vaos, current) != [] ==> Rebinds(vaos, current)[0] != current
  {
    if vaos != [] && vaos[0] == current {
      assert Rebinds(vaos, current) == Rebinds(vaos[1..], current);
      RebindsHead(vaos[1..], current);
    }
  }

  // ----------------------------------------------------------- properties

  /**
   * The draw loop issues exactly one draw per batch, in batch order, each
   * with the mesh's index count, the draw mode and the batch's instance count.
   */
  lemma {:induction false} DispatchDraws(bs: seq<MeshBatch>, vaoOf: MeshId -> nat, drawCountOf: MeshId -> nat, mode: DrawMode, start: nat)
    ensures var d := Draws(Dispatch(bs, vaoOf, drawCountOf, mode, start));
      |d| == |bs| && forall i :: 0 <= i < |bs| ==> d[i] == DrawOf(bs[i], drawCountOf, mode)
    decreases |bs|
  {
    if bs != [] {
      var prior := bs[..|bs| - 1];
      var b := bs[|bs| - 1];
      var cur := LastVao(prior, vaoOf, start);
      var p := Dispatch(prior, vaoOf, drawCountOf, mode, start);
      var e := BatchEvents(b, vaoOf, drawCountOf, mode, cur);
      var r := Draws(p) + [DrawOf(b, drawCountOf, mode)];
      assert Draws(Dispatch(bs, vaoOf, drawCountOf, mode, start)) == r by {
        assert Dispatch(bs, vaoOf, drawCountOf, mode, start) == p + e;
        FiltersAppend(p, e);
        BatchEventsFilters(b, vaoOf, drawCountOf, mode, cur);
      }
      DispatchDraws(prior, vaoOf, drawCountOf, mode, start);
      forall i | 0 <= i < |bs| ensures r[i] == DrawOf(bs[i], drawCountOf, mode) {
        if i < |prior| {
          assert bs[i] == prior[i];
        }
      }
    }
  }

  /** Each batch binds the 256-matrix range starting at its first slot, in batch order. */
  lemma {:induction false} DispatchRanges(bs: seq<MeshBatch>, vaoOf: MeshId -> nat, drawCountOf: MeshId -> nat, mode: DrawMode, start: nat)
    ensures var r := Ranges(Dispatch(bs, vaoOf, drawCountOf, mode, start));
      |r| == |bs| && forall i :: 0 <= i < |bs| ==> r[i] == (bs[i].instanceOffset * MatrixBytes, ModelRangeBytes)
    decreases |bs|
  {
    if bs != [] {
      var prior := bs[..|bs| - 1];
      var b := bs[|bs| - 1];
      var cur := LastVao(prior, vaoOf, start);
      var p := Dispatch(prior, vaoOf, drawCountOf, mode, start);
      var e := BatchEvents(b, vaoOf, drawCountOf, mode, cur);
      var r := Ranges(p) + [(b.instanceOffset * MatrixBytes, ModelRangeBytes)];
      assert Ranges(Dispatch(bs, vaoOf, drawCountOf, mode, start)) == r by {
        assert Dispatch(bs, vaoOf, drawCountOf, mode, start) == p + e;
        FiltersAppend(p, e);
        BatchEventsFilters(b, vaoOf, drawCountOf, mode, cur);
      }
      DispatchRanges(prior, vaoOf, drawCountOf, mode, start);
      forall i | 0 <= i < |bs| ensures r[i] == (bs[i].instanceOffset * MatrixBytes, ModelRangeBytes) {
        if i < |prior| {
          assert bs[i] == prior[i];
        }
      }
    }
  }

  /**
   * Every range bound while drawing a view's batches lies inside a model
   * buffer of `size` bytes once the buffer holds the frame's matrices plus
   * 256 more: the size UpdateUniforms guarantees when neither of its 32-bit
   * sums wraps.
   */
  lemma DispatchRangesInside(vis: Culler, views: nat, order: seq<MeshId>, mm: map<MeshId, seq<Glm.Mat4>>, alignment: nat,
                             v: nat, size: nat, vaoOf: MeshId -> nat, drawCountOf: MeshId -> nat, mode: DrawMode, start: nat)
    requires alignment > 0 && Keyed(order, mm) && Distinct(order) && v < views
    requires (|FramePass(vis, views, order, mm, alignment).upload| + MatricesPerUniformBuffer) * MatrixBytes <= size
    ensures var r := Ranges(Dispatch(FramePass(vis, views, order, mm, alignment).lists[v], vaoOf, drawCountOf, mode, start));
      forall i :: 0 <= i < |r| ==> r[i].0 + r[i].1 <= size
  {
    var f := FramePass(vis, views, order, mm, alignment);
    var bs := f.lists[v];
    BatchCounts(vis, views, order, mm, alignment);
    BatchContents(vis, views, order, mm, alignment);
    DispatchRanges(bs, vaoOf, drawCountOf, mode, start);
    forall i | 0 <= i < |bs| ensures bs[i].instanceOffset * MatrixBytes + ModelRangeBytes <= size {
      assert bs[i] in bs;
      assert End(bs[i]) <= |f.upload|;
    }
  }

  /**
   * The VAO is bound exactly where it changes: the binds are the run-length
   * view of the batches' VAOs, starting from the tracked `currentVao`.
   */
  lemma {:induction false} DispatchBinds(bs: seq<MeshBatch>, vaoOf: MeshId -> nat, drawCountOf: MeshId -> nat, mode: DrawMode, start: nat)
    ensures VaoBinds(Dispatch(bs, vaoOf, drawCountOf, mode, start)) == Rebinds(VaosOf(bs, vaoOf), start)
    decreases |bs|
  {
    if bs != [] {
      var prior := bs[..|bs| - 1];
      var b := bs[|bs| - 1];
      var cur := LastVao(prior, vaoOf, start);
      var p := Dispatch(prior, vaoOf, drawCountOf, mode, start);
      var e := BatchEvents(b, vaoOf, drawCountOf, mode, cur);
      var extra := if vaoOf(b.mesh) != cur then [vaoOf(b.mesh)] else [];
      assert VaoBinds(Dispatch(bs, vaoOf, drawCountOf, mode, start)) == VaoBinds(p) + extra by {
        assert Dispatch(bs, vaoOf, drawCountOf, mode, start) == p + e;
        FiltersAppend(p, e);
        BatchEventsFilters(b, vaoOf, drawCountOf, mode, cur);
      }
      DispatchBinds(prior, vaoOf, drawCountOf, mode, start);
      var vs := VaosOf(prior, vaoOf);
      assert VaosOf(bs, vaoOf) == vs + [vaoOf(b.mesh)];
      RebindsSnoc(vs, vaoOf(b.mesh), start);
      assert (if vs == [] then start else vs[|vs| - 1]) == cur;
    }
  }

  /** The filters of one event. */
  lemma FiltersOne(e: GlEvent)
    ensures Draws([e]) == (if e.DrawInstanced? then [e] else [])
    ensures VaoBinds([e]) == (if e.BindVertexArray? then [e.vao] else [])
    ensures Ranges([e]) == (if e.BindModelRange? then [(e.offset, e.size)] else [])
  {
    assert [e][..0] == [];
  }

  lemma BatchEventsFilters(b: MeshBatch, vaoOf: MeshId -> nat, drawCountOf: MeshId -> nat, mode: DrawMode, current: nat)
    ensures var e := BatchEvents(b, vaoOf, drawCountOf, mode, current);
      Draws(e) == [DrawOf(b, drawCountOf, mode)] &&
      Ranges(e) == [(b.instanceOffset * MatrixBytes, ModelRangeBytes)] &&
      VaoBinds(e) == (if vaoOf(b.mesh) != current then [vaoOf(b.mesh)] else [])
  {
    var r := BindModelRange(b.instanceOffset * MatrixBytes, ModelRangeBytes);
    var d := DrawOf(b, drawCountOf, mode);
    var bind: seq<GlEvent> := if vaoOf(b.mesh) != current then [BindVertexArray(vaoOf(b.mesh))] else [];
    assert BatchEvents(b, vaoOf, drawCountOf, mode, current) == bind + [r] + [d];
    FiltersOne(r);
    FiltersOne(d);
    if vaoOf(b.mesh) != current {
      FiltersOne(BindVertexArray(vaoOf(b.mesh)));
    }
    FiltersAppend(bind, [r]);
    FiltersAppend(bind + [r], [d]);
  }

  // ------------------------------------------------------ the shadow pass

  /** The framebuffer bound after the cascades: the last one's, or `start`. */
  function LastFbo(fbos: seq<nat>, start: nat): nat
  {
    if fbos == [] then start else fbos[|fbos| - 1]
  }

  /**
   * RenderShadowMaps for cascades 0..|fbos|-1: use the cascade program,
   * bind its framebuffer when it is not bound already, clear depth, draw the
   * cascade's batches with triangles from VAO 0.
   */
  function ShadowEvents(fbos: seq<nat>, lists: seq<seq<MeshBatch>>, vaoOf: MeshId -> nat, drawCountOf: MeshId -> nat, fb: nat): seq<GlEvent>
    requires |fbos| <= |lists|
    decreases |fbos|
  {
    if fbos == [] then []
    else
      var n := |fbos| - 1;
      var before := LastFbo(fbos[..n], fb);
      ShadowEvents(fbos[..n], lists, vaoOf, drawCountOf, fb) + CascadeStart(n, fbos[n], before) +
      Dispatch(lists[n], vaoOf, drawCountOf, Triangles, 0)
  }

  /** The calls before cascade n's draws (lines 617-620). */
  function CascadeStart(n: nat, fbo: nat, bound: nat): seq<GlEvent>
  {
    [UseProgram("csm", n)] + (if fbo != bound then [BindFramebuffer(fbo)] else []) + [ClearDepth]
  }

  /** All cascades' batch lists, one after the other. */
  function Flatten(lists: seq<seq<MeshBatch>>, n: nat): seq<MeshBatch>
    requires n <= |lists|
  {
    if n == 0 then [] else Flatten(lists, n - 1) + lists[n - 1]
  }

  /** The vertices summed over the first n cascades. */
  function ShadowVertexTotal(lists: seq<seq<MeshBatch>>, n: nat, drawCountOf: MeshId -> nat): nat
    requires n <= |lists|
  {
    if n == 0 then 0 else ShadowVertexTotal(lists, n - 1, drawCountOf) + VertexTotal(lists[n - 1], drawCountOf)
  }

  /** Draw lists that match their batch lists can be put one after the other. */
  lemma DrawsMatchAppend(d1: seq<GlEvent>, b1: seq<MeshBatch>, d2: seq<GlEvent>, b2: seq<MeshBatch>, drawCountOf: MeshId -> nat)
    requires |d1| == |b1| && forall i :: 0 <= i < |b1| ==> d1[i] == DrawOf(b1[i], drawCountOf, Triangles)
    requires |d2| == |b2| && forall i :: 0 <= i < |b2| ==> d2[i] == DrawOf(b2[i], drawCountOf, Triangles)
    ensures var d, all := d1 + d2, b1 + b2;
      |d| == |all| && forall i :: 0 <= i < |all| ==> d[i] == DrawOf(all[i], drawCountOf, Triangles)
  {
    var d, all := d1 + d2, b1 + b2;
    forall i | 0 <= i < |all| ensures d[i] == DrawOf(all[i], drawCountOf, Triangles) {
      if i >= |b1| { assert d[i] == d2[i - |b1|] && all[i] == b2[i - |b1|]; }
    }
  }

  /** The shadow pass draws every batch of the first |fbos| cascades, cascade by cascade, once each. */
  lemma {:induction false} ShadowDraws(fbos: seq<nat>, lists: seq<seq<MeshBatch>>, vaoOf: MeshId -> nat, drawCountOf: MeshId -> nat, fb: nat)
    requires |fbos| <= |lists|
    ensures var d := Draws(ShadowEvents(fbos, lists, vaoOf, drawCountOf, fb)); var all := Flatten(lists, |fbos|);
      |d| == |all| && forall i :: 0 <= i < |all| ==> d[i] == DrawOf(all[i], drawCountOf, Triangles)
    decreases |fbos|
  {
    if fbos != [] {
      var n := |fbos| - 1;
      var before := LastFbo(fbos[..n], fb);
      var head := ShadowEvents(fbos[..n], lists, vaoOf, drawCountOf, fb);
      var mid := CascadeStart(n, fbos[n], before);
      var tail := Dispatch(lists[n], vaoOf, drawCountOf, Triangles, 0);
      assert |fbos[..n]| == n;
      assert Draws(ShadowEvents(fbos, lists, vaoOf, drawCountOf, fb)) == Draws(head) + Draws(tail) by {
        assert ShadowEvents(fbos, lists, vaoOf, drawCountOf, fb) == head + mid + tail;
        FiltersAppend(head, mid);
        FiltersAppend(head + mid, tail);
        MidDrawsNothing(n, fbos[n], before);
      }
      assert Flatten(lists, |fbos|) == Flatten(lists, n) + lists[n];
      ShadowDraws(fbos[..n], lists, vaoOf, drawCountOf, fb);
      DispatchDraws(lists[n], vaoOf, drawCountOf, Triangles, 0);
      DrawsMatchAppend(Draws(head), Flatten(lists, n), Draws(tail), lists[n], drawCountOf);
    }
  }

  lemma MidDrawsNothing(n: nat, fbo: nat, before: nat)
    ensures Draws(CascadeStart(n, fbo, before)) == []
  {
    var u := UseProgram("csm", n);
    var f: seq<GlEvent> := if fbo != before then [BindFramebuffer(fbo)] else [];
    FiltersOne(u);
    FiltersOne(ClearDepth);
    if fbo != before { FiltersOne(BindFramebuffer(fbo)); }
    FiltersAppend([u], f);
    FiltersAppend([u] + f, [ClearDepth]);
  }

  /** Which framebuffers get bound: cascade n's unless it is already the bound one. */
  lemma ShadowBindsOnlyOnChange(fbos: seq<nat>, lists: seq<seq<MeshBatch>>, vaoOf: MeshId -> nat, drawCountOf: MeshId -> nat, fb: nat)
    requires 0 < |fbos| <= |lists|
    ensures var n := |fbos| - 1; var e := ShadowEvents(fbos, lists, vaoOf, drawCountOf, fb);
      var k := |ShadowEvents(fbos[..n], lists, vaoOf, drawCountOf, fb)|;
      e[k] == UseProgram("csm", n) &&
      (fbos[n] != LastFbo(fbos[..n], fb) <==> e[k + 1] == BindFramebuffer(fbos[n]))
  {
  }
}
