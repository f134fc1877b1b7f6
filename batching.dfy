// The per-frame instance batcher of Renderer::UpdateRenderableMeshes, as a
// specification.  The method that runs the loops in place lives in
// renderer.dfy and is proved equal to `FramePass`; this module states and
// proves what the batches it produces look like.
//
// Views are numbered as the renderer numbers them: view 0 is the camera,
// view 1 + i is shadow cascade i.  Every view walks the meshes in one fixed
// order (the hash map's iteration order, which the lemmas leave arbitrary),
// culls each of the mesh's matrices, appends the survivors to one shared
// upload buffer and cuts them into batches of at most 256; after every batch
// the running offset is padded up to the uniform-buffer offset alignment.

module Batching {
  import opened Common
  import opened Glm

  /** `Renderer::MeshBatch`: `instanceCount` matrices starting at slot `instanceOffset`. */
  datatype MeshBatch = MeshBatch(mesh: MeshId, instanceOffset: nat, instanceCount: nat)

  /** `m_matricesPerUniformBuffer`. */
  const MatricesPerUniformBuffer: nat := 256
  /** `sizeof(glm::mat4)`. */
  const MatrixBytes: nat := 64

  /** One past the last slot of b. */
  function End(b: MeshBatch): nat { b.instanceOffset + b.instanceCount }

  // ------------------------------------------------------------ padding

  /**
   * The offset after `padding = alignment - (off * 64 % alignment);
   * off += padding / 64`.  Never smaller than `off`.
   */
  function PaddedOffset(off: nat, alignment: nat): (r: nat)
    requires alignment > 0
    ensures r >= off
  {
    off + (alignment - (off * MatrixBytes) % alignment) / MatrixBytes
  }

  /** The byte offset of slot `off` is a multiple of the alignment. */
  predicate Aligned(off: nat, alignment: nat)
    requires alignment > 0
  {
    (off * MatrixBytes) % alignment == 0
  }

  lemma MulAtLeast(m: int, t: int)
    requires m > 0 && t >= 1
    ensures m * t >= m
  {
    assert m * t == m + m * (t - 1);
    assert m * (t - 1) >= 0;
  }

  lemma MulAtMost(m: int, t: int)
    requires m > 0 && t <= -1
    ensures m * t <= -m
  {
    assert m * t == -m + m * (t + 1);
    assert m * (t + 1) <= 0;
  }

  lemma ModUnique(x: int, m: int, d: int, r: int)
    requires m > 0 && 0 <= r < m && x == m * d + r
    ensures x % m == r && x / m == d
  {
    var d2, r2 := x / m, x % m;
    assert x == m * d2 + r2;
    var t := d - d2;
    assert m * d - m * d2 == m * t;
    assert m * t == r2 - r;
    if t >= 1 {
      MulAtLeast(m, t);
    } else if t <= -1 {
      MulAtMost(m, t);
    }
  }

  lemma ModScale(off: nat, q: nat)
    requires q > 0
    ensures (64 * off) % (64 * q) == 64 * (off % q)
  {
    var d, r := off / q, off % q;
    assert off == q * d + r;
    assert 64 * off == (64 * q) * d + 64 * r;
    ModUnique(64 * off, 64 * q, d, 64 * r);
  }

  /**
   * For an alignment that is a positive multiple of 64 bytes, padding lands on an
   * aligned slot, skips between 1 and alignment/64 slots, and skips the full
   * alignment/64 slots when the offset was aligned already.
   */
  lemma PaddingFacts(off: nat, alignment: nat)
    requires alignment > 0 && alignment % MatrixBytes == 0
    ensures Aligned(PaddedOffset(off, alignment), alignment)
    ensures 1 <= PaddedOffset(off, alignment) - off <= alignment / MatrixBytes
    ensures Aligned(off, alignment) ==> PaddedOffset(off, alignment) - off == alignment / MatrixBytes
  {
    var q := alignment / 64;
    assert alignment == 64 * q;
    ModScale(off, q);
    var r := off % q;
    assert (off * MatrixBytes) % alignment == 64 * r;
    assert alignment - 64 * r == 64 * (q - r);
    ModUnique(64 * (q - r), 64, q - r, 0);
    var p := PaddedOffset(off, alignment);
    assert p == off + (q - r);
    assert off == q * (off / q) + r;
    assert p == q * (off / q + 1);
    ModUnique(p * 64, alignment, off / q + 1, 0);
  }

  /** A second batch of one mesh, after a full first one at 0, starts at 260 with 256-byte alignment. */
  lemma SecondChunkAt260()
    ensures PaddedOffset(MatricesPerUniformBuffer, 256) == 260
  {
  }

  // ------------------------------------------------------ batch layout

  /**
   * The batches are laid out one after the other from `start`: the first starts
   * at `start` and each later one at the padded end of the one before.
   */
  predicate Chained(bs: seq<MeshBatch>, start: nat, alignment: nat)
    requires alignment > 0
  {
    (|bs| > 0 ==> bs[0].instanceOffset == start) &&
    forall i :: 0 < i < |bs| ==> bs[i].instanceOffset == PaddedOffset(End(bs[i - 1]), alignment)
  }

  /** Where the layout ends: the padded end of the last batch, or `start` if there is none. */
  function LayoutEnd(bs: seq<MeshBatch>, start: nat, alignment: nat): nat
    requires alignment > 0
  {
    if bs == [] then start else PaddedOffset(End(bs[|bs| - 1]), alignment)
  }

  lemma ChainedSnoc(bs: seq<MeshBatch>, b: MeshBatch, start: nat, alignment: nat)
    requires alignment > 0 && Chained(bs, start, alignment)
    requires b.instanceOffset == LayoutEnd(bs, start, alignment)
    ensures Chained(bs + [b], start, alignment)
    ensures LayoutEnd(bs + [b], start, alignment) == PaddedOffset(End(b), alignment)
  {
  }

  lemma {:induction false} ChainedAppend(xs: seq<MeshBatch>, ys: seq<MeshBatch>, start: nat, alignment: nat)
    requires alignment > 0 && Chained(xs, start, alignment)
    requires Chained(ys, LayoutEnd(xs, start, alignment), alignment)
    ensures Chained(xs + ys, start, alignment)
    ensures LayoutEnd(xs + ys, start, alignment) == LayoutEnd(ys, LayoutEnd(xs, start, alignment), alignment)
  {
    if ys == [] {
      assert xs + ys == xs;
    } else {
      var zs := xs + ys;
      forall i | 0 < i < |zs|
        ensures zs[i].instanceOffset == PaddedOffset(End(zs[i - 1]), alignment)
      {
        if i >= |xs| {
          assert zs[i] == ys[i - |xs|];
          if i > |xs| { assert zs[i - 1] == ys[i - 1 - |xs|]; }
        }
      }
      assert zs[0] == if xs == [] then ys[0] else xs[0];
    }
  }

  /** Laid-out batches start at or after `start` and end at or before the layout end. */
  lemma {:induction false} ChainedWithin(bs: seq<MeshBatch>, start: nat, alignment: nat)
    requires alignment > 0 && Chained(bs, start, alignment)
    ensures forall i :: 0 <= i < |bs| ==> start <= bs[i].instanceOffset && End(bs[i]) <= LayoutEnd(bs, start, alignment)
    ensures start <= LayoutEnd(bs, start, alignment)
    decreases |bs|
  {
    if bs != [] {
      var init := bs[..|bs| - 1];
      assert Chained(init, start, alignment) by {
        forall i | 0 < i < |init| ensures init[i].instanceOffset == PaddedOffset(End(init[i - 1]), alignment) {
          assert init[i] == bs[i];
          assert init[i - 1] == bs[i - 1];
        }
      }
      ChainedWithin(init, start, alignment);
      assert bs[|bs| - 1].instanceOffset == LayoutEnd(init, start, alignment);
      forall i | 0 <= i < |bs| ensures start <= bs[i].instanceOffset && End(bs[i]) <= LayoutEnd(bs, start, alignment) {
        if i < |bs| - 1 { assert bs[i] == init[i]; }
      }
    }
  }

  /**
   * Laid-out batches never overlap and appear in increasing slot order; with an
   * alignment that is a positive multiple of 64 there is at least one padding slot
   * between any two of them.
   */
  lemma {:induction false} ChainedOrdered(bs: seq<MeshBatch>, start: nat, alignment: nat, i: nat, j: nat)
    requires alignment > 0 && Chained(bs, start, alignment)
    requires i < j < |bs|
    ensures End(bs[i]) <= bs[j].instanceOffset
    ensures alignment % MatrixBytes == 0 ==> End(bs[i]) < bs[j].instanceOffset
    decreases j - i
  {
    PaddingAtLeastOne(End(bs[j - 1]), alignment);
    if i < j - 1 {
      ChainedOrdered(bs, start, alignment, i, j - 1);
    }
  }

  lemma PaddingAtLeastOne(off: nat, alignment: nat)
    requires alignment > 0
    ensures alignment % MatrixBytes == 0 ==> off < PaddedOffset(off, alignment)
  {
    if alignment % MatrixBytes == 0 {
      PaddingFacts(off, alignment);
    }
  }

  /** From an aligned start, every batch of the layout starts on an aligned slot, and so does its end. */
  lemma ChainedAligned(bs: seq<MeshBatch>, start: nat, alignment: nat)
    requires alignment > 0 && alignment % MatrixBytes == 0 && Chained(bs, start, alignment)
    requires Aligned(start, alignment)
    ensures forall i :: 0 <= i < |bs| ==> Aligned(bs[i].instanceOffset, alignment)
    ensures Aligned(LayoutEnd(bs, start, alignment), alignment)
  {
    forall i | 0 <= i < |bs| ensures Aligned(bs[i].instanceOffset, alignment) {
      if i > 0 { PaddingFacts(End(bs[i - 1]), alignment); }
    }
    if bs != [] { PaddingFacts(End(bs[|bs| - 1]), alignment); }
  }

  // ------------------------------------------------- slots and filters

  /** `up[lo..hi]`, or nothing when the range is not inside `up`. */
  function Slice(up: seq<Mat4>, lo: nat, hi: nat): seq<Mat4>
  {
    if lo <= hi <= |up| then up[lo..hi] else []
  }

  /** The matrices the batches bs point at, batch after batch. */
  function Slots(up: seq<Mat4>, bs: seq<MeshBatch>): seq<Mat4>
    decreases |bs|
  {
    if bs == [] then [] else Slots(up, bs[..|bs| - 1]) + Slice(up, bs[|bs| - 1].instanceOffset, End(bs[|bs| - 1]))
  }

  /** The batches of bs that belong to mesh m, in order. */
  function OfMesh(bs: seq<MeshBatch>, m: MeshId): seq<MeshBatch>
    decreases |bs|
  {
    if bs == [] then []
    else OfMesh(bs[..|bs| - 1], m) + (if bs[|bs| - 1].mesh == m then [bs[|bs| - 1]] else [])
  }

  /** The total instance count of bs. */
  function SumCounts(bs: seq<MeshBatch>): nat
    decreases |bs|
  {
    if bs == [] then 0 else SumCounts(bs[..|bs| - 1]) + bs[|bs| - 1].instanceCount
  }

  /** Every batch of bs ends at or before slot n. */
  predicate Within(bs: seq<MeshBatch>, n: nat)
  {
    forall b :: b in bs ==> End(b) <= n
  }

  /** Every batch holds between 1 and 256 instances. */
  predicate CountsInRange(bs: seq<MeshBatch>)
  {
    forall b :: b in bs ==> 1 <= b.instanceCount <= MatricesPerUniformBuffer
  }

  lemma SlotsSnoc(up: seq<Mat4>, bs: seq<MeshBatch>, b: MeshBatch)
    ensures Slots(up, bs + [b]) == Slots(up, bs) + Slice(up, b.instanceOffset, End(b))
  {
    assert (bs + [b])[..|bs|] == bs;
  }

  lemma {:induction false} SlotsAppend(up: seq<Mat4>, xs: seq<MeshBatch>, ys: seq<MeshBatch>)
    ensures Slots(up, xs + ys) == Slots(up, xs) + Slots(up, ys)
    decreases |ys|
  {
    if ys == [] {
      assert xs + ys == xs;
    } else {
      var ys0, y := ys[..|ys| - 1], ys[|ys| - 1];
      SnocSplit(xs, ys);
      SlotsAppend(up, xs, ys0);
      SlotsSnocJoin(up, xs, ys0, y);
    }
  }

  /** ys is its front followed by its last element, and so is xs + ys. */
  lemma SnocSplit(xs: seq<MeshBatch>, ys: seq<MeshBatch>)
    requires ys != []
    ensures ys == ys[..|ys| - 1] + [ys[|ys| - 1]]
    ensures xs + ys == (xs + ys[..|ys| - 1]) + [ys[|ys| - 1]]
  {
  }

  /** One step of SlotsAppend: appending y on both sides keeps the split. */
  lemma SlotsSnocJoin(up: seq<Mat4>, xs: seq<MeshBatch>, ys0: seq<MeshBatch>, y: MeshBatch)
    requires Slots(up, xs + ys0) == Slots(up, xs) + Slots(up, ys0)
    ensures Slots(up, (xs + ys0) + [y]) == Slots(up, xs) + Slots(up, ys0 + [y])
  {
    SlotsSnoc(up, xs + ys0, y);
    SlotsSnoc(up, ys0, y);
    AssociateMats(Slots(up, xs), Slots(up, ys0), Slice(up, y.instanceOffset, End(y)));
  }

  lemma AssociateMats(a: seq<Mat4>, b: seq<Mat4>, c: seq<Mat4>)
    ensures (a + b) + c == a + (b + c)
  {
  }

  /** Slots only read the part of the buffer the batches lie in. */
  lemma {:induction false} SlotsPrefix(up: seq<Mat4>, up2: seq<Mat4>, bs: seq<MeshBatch>, n: nat)
    requires n <= |up| && n <= |up2| && up[..n] == up2[..n] && Within(bs, n)
    ensures Slots(up, bs) == Slots(up2, bs)
    decreases |bs|
  {
    if bs != [] {
      var b := bs[|bs| - 1];
      assert b in bs;
      var init := bs[..|bs| - 1];
      assert Within(init, n) by {
        forall x | x in init ensures End(x) <= n { assert x in bs; }
      }
      SlotsPrefix(up, up2, init, n);
      if b.instanceOffset <= End(b) {
        assert up[b.instanceOffset..End(b)] == up[..n][b.instanceOffset..End(b)];
        assert up2[b.instanceOffset..End(b)] == up2[..n][b.instanceOffset..End(b)];
      }
    }
  }

  /** Batches inside the buffer point at exactly as many matrices as they count. */
  lemma {:induction false} SlotsLength(up: seq<Mat4>, bs: seq<MeshBatch>)
    requires Within(bs, |up|)
    ensures |Slots(up, bs)| == SumCounts(bs)
    decreases |bs|
  {
    if bs != [] {
      var init := bs[..|bs| - 1];
      assert bs[|bs| - 1] in bs;
      assert Within(init, |up|) by {
        forall x | x in init ensures End(x) <= |up| { assert x in bs; }
      }
      SlotsLength(up, init);
    }
  }

  lemma {:induction false} SumCountsAppend(xs: seq<MeshBatch>, ys: seq<MeshBatch>)
    ensures SumCounts(xs + ys) == SumCounts(xs) + SumCounts(ys)
    decreases |ys|
  {
    if ys == [] {
      assert xs + ys == xs;
    } else {
      assert (xs + ys)[..|xs + ys| - 1] == xs + ys[..|ys| - 1];
      SumCountsAppend(xs, ys[..|ys| - 1]);
    }
  }

  lemma {:induction false} OfMeshAppend(xs: seq<MeshBatch>, ys: seq<MeshBatch>, m: MeshId)
    ensures OfMesh(xs + ys, m) == OfMesh(xs, m) + OfMesh(ys, m)
    decreases |ys|
  {
    if ys == [] {
      assert xs + ys == xs;
    } else {
      assert (xs + ys)[..|xs + ys| - 1] == xs + ys[..|ys| - 1];
      OfMeshAppend(xs, ys[..|ys| - 1], m);
    }
  }

  /** OfMesh keeps exactly the batches of bs that belong to m. */
  lemma {:induction false} OfMeshMembers(bs: seq<MeshBatch>, m: MeshId)
    ensures forall b :: b in OfMesh(bs, m) <==> b in bs && b.mesh == m
    decreases |bs|
  {
    if bs != [] {
      OfMeshMembers(bs[..|bs| - 1], m);
      assert bs == bs[..|bs| - 1] + [bs[|bs| - 1]];
    }
  }

  lemma OfMeshNone(bs: seq<MeshBatch>, m: MeshId)
    requires forall b :: b in bs ==> b.mesh != m
    ensures OfMesh(bs, m) == []
  {
    OfMeshMembers(bs, m);
    if OfMesh(bs, m) != [] {
      assert OfMesh(bs, m)[0] in OfMesh(bs, m);
    }
  }

  lemma {:induction false} OfMeshAll(bs: seq<MeshBatch>, m: MeshId)
    requires forall b :: b in bs ==> b.mesh == m
    ensures OfMesh(bs, m) == bs
    decreases |bs|
  {
    if bs != [] {
      assert bs[|bs| - 1] in bs;
      var init := bs[..|bs| - 1];
      forall b | b in init ensures b.mesh == m { assert b in bs; }
      OfMeshAll(init, m);
      assert OfMesh(bs, m) == OfMesh(init, m) + [bs[|bs| - 1]];
      assert bs == init + [bs[|bs| - 1]];
    }
  }

  /** A run of batches laid out from `start` lies inside the buffer when the buffer reaches the layout end. */
  lemma ChainedInside(bs: seq<MeshBatch>, start: nat, alignment: nat, n: nat)
    requires alignment > 0 && Chained(bs, start, alignment) && LayoutEnd(bs, start, alignment) <= n
    ensures Within(bs, n)
  {
    ChainedWithin(bs, start, alignment);
    forall b | b in bs ensures End(b) <= n {
      var i :| 0 <= i < |bs| && bs[i] == b;
    }
  }

  // ------------------------------------------------------ the batcher

  /** The value a slot gets when `vector::resize` grows the upload buffer over padding. */
  const Filler: Mat4 := Zero4

  /** `vector::resize(n)` on the upload buffer. */
  function Resize(s: seq<Mat4>, n: nat): (r: seq<Mat4>)
    ensures |r| == n
    ensures n >= |s| ==> r[..|s|] == s
    ensures n <= |s| ==> r == s[..n]
  {
    if n <= |s| then s[..n] else s + seq(n - |s|, _ => Filler)
  }

  /**
   * `FrustumCulling::IsAabbVisible(aabbMin, aabbMax, model)` for the frustum of a
   * view and the AABB of a mesh: the culling test seen by the batcher.
   */
  type Culler = (nat, MeshId, Mat4) -> bool

  /** The batcher's running state: the upload buffer, `currentUboOffset`, the view's batches and the batch being filled. */
  datatype Cursor = Cursor(upload: seq<Mat4>, offset: nat, done: seq<MeshBatch>, open: MeshBatch)

  /** A matrix is culled with its highlight cell cleared. */
  function Passes(vis: Culler, view: nat, mesh: MeshId, m: Mat4): bool
  {
    vis(view, mesh, WithHighlightCell(m, 0.0))
  }

  /** The matrices of `mats` that pass the culling test of the view, in order. */
  function Visible(vis: Culler, view: nat, mesh: MeshId, mats: seq<Mat4>): seq<Mat4>
    decreases |mats|
  {
    if mats == [] then []
    else
      var last := mats[|mats| - 1];
      Visible(vis, view, mesh, mats[..|mats| - 1]) + (if Passes(vis, view, mesh, last) then [last] else [])
  }

  /** Pad `currentUboOffset` to the alignment and resize the buffer to it. */
  function Pad(c: Cursor, alignment: nat): Cursor
    requires alignment > 0
  {
    var off := PaddedOffset(c.offset, alignment);
    c.(upload := Resize(c.upload, off), offset := off)
  }

  /** Append a visible matrix to the buffer and to the open batch. */
  function Grow(c: Cursor, mat: Mat4): Cursor
  {
    c.(upload := c.upload + [mat], offset := c.offset + 1,
       open := c.open.(instanceCount := c.open.instanceCount + 1))
  }

  /** Save a full open batch and open the next one at the padded offset. */
  function Flush(c: Cursor, alignment: nat): Cursor
    requires alignment > 0
  {
    var padded := Pad(c, alignment);
    padded.(done := padded.done + [c.open], open := MeshBatch(c.open.mesh, padded.offset, 0))
  }

  /** One matrix of the inner loop: cull it, append it, and flush a full chunk. */
  function Step(c: Cursor, passes: bool, mat: Mat4, alignment: nat): Cursor
    requires alignment > 0
  {
    if !passes then c
    else if Grow(c, mat).open.instanceCount == MatricesPerUniformBuffer then Flush(Grow(c, mat), alignment)
    else Grow(c, mat)
  }

  /** All matrices of one mesh through `Step`. */
  function Feed(c: Cursor, vis: Culler, view: nat, mesh: MeshId, mats: seq<Mat4>, alignment: nat): Cursor
    requires alignment > 0
    decreases |mats|
  {
    if mats == [] then c
    else
      var last := mats[|mats| - 1];
      Step(Feed(c, vis, view, mesh, mats[..|mats| - 1], alignment), Passes(vis, view, mesh, last), last, alignment)
  }

  /** After a mesh's matrices: a non-empty open batch is padded and saved, an empty one dropped. */
  function Close(c: Cursor, alignment: nat): Cursor
    requires alignment > 0
  {
    if c.open.instanceCount == 0 then c
    else
      var padded := Pad(c, alignment);
      padded.(done := padded.done + [c.open])
  }

  /** One mesh of one view: open a batch at the current offset, feed the matrices, close. */
  function MeshPass(c: Cursor, vis: Culler, view: nat, mesh: MeshId, mats: seq<Mat4>, alignment: nat): Cursor
    requires alignment > 0
  {
    Close(Feed(c.(open := MeshBatch(mesh, c.offset, 0)), vis, view, mesh, mats, alignment), alignment)
  }

  /** Every mesh key of the order has a matrix list. */
  predicate Keyed(order: seq<MeshId>, mm: map<MeshId, seq<Mat4>>)
  {
    forall m :: m in order ==> m in mm
  }

  /** The meshes of a map iteration order are pairwise different. */
  predicate Distinct(order: seq<MeshId>)
  {
    forall i, j :: 0 <= i < j < |order| ==> order[i] != order[j]
  }

  /** All meshes of one view, in the map's iteration order. */
  function ViewPass(c: Cursor, vis: Culler, view: nat, order: seq<MeshId>, mm: map<MeshId, seq<Mat4>>, alignment: nat): Cursor
    requires alignment > 0 && Keyed(order, mm)
    decreases |order|
  {
    if order == [] then c
    else
      var k := order[|order| - 1];
      MeshPass(ViewPass(c, vis, view, order[..|order| - 1], mm, alignment), vis, view, k, mm[k], alignment)
  }

  /** The batcher's output: the upload buffer, the final offset and one batch list per view. */
  datatype Frame = Frame(upload: seq<Mat4>, offset: nat, lists: seq<seq<MeshBatch>>)

  /** The cursor a view starts from: the frame's buffer and offset and an empty batch list. */
  function ViewStart(f: Frame): Cursor
  {
    Cursor(f.upload, f.offset, [], MeshBatch(0, f.offset, 0))
  }

  /** Views 0 .. views-1 batched one after the other into one upload buffer. */
  function FramePass(vis: Culler, views: nat, order: seq<MeshId>, mm: map<MeshId, seq<Mat4>>, alignment: nat): (r: Frame)
    requires alignment > 0 && Keyed(order, mm)
    ensures |r.lists| == views
    decreases views
  {
    if views == 0 then Frame([], 0, [])
    else
      var f := FramePass(vis, views - 1, order, mm, alignment);
      var c := ViewPass(ViewStart(f), vis, views - 1, order, mm, alignment);
      Frame(c.upload, c.offset, f.lists + [c.done])
  }

  /** The number of matrices that pass the view's test over all meshes of the order. */
  function VisibleTotal(vis: Culler, view: nat, order: seq<MeshId>, mm: map<MeshId, seq<Mat4>>): nat
    requires Keyed(order, mm)
    decreases |order|
  {
    if order == [] then 0
    else
      var k := order[|order| - 1];
      VisibleTotal(vis, view, order[..|order| - 1], mm) + |Visible(vis, view, k, mm[k])|
  }

  // -------------------------------------------------------- invariants

  /** Every batch of bs is a full chunk of mesh m. */
  predicate FullChunks(bs: seq<MeshBatch>, m: MeshId)
  {
    forall b :: b in bs ==> b.mesh == m && b.instanceCount == MatricesPerUniformBuffer
  }

  /**
   * The state inside one mesh's matrix loop, started from s, once the matrices `seen`
   * passed the test: the chunks flushed so far follow the view's earlier batches and
   * are laid out from the mesh's start offset; the open batch starts at the layout end
   * and holds the rest; `currentUboOffset` is the buffer length; the buffer below the
   * start is untouched; and the chunks and the open batch hold `seen`, in order.
   */
  predicate FeedInv(s: Cursor, c: Cursor, mesh: MeshId, seen: seq<Mat4>, alignment: nat)
    requires alignment > 0
  {
    FeedShape(s, c, mesh, seen, alignment) && c.open.instanceCount < MatricesPerUniformBuffer
  }

  /** `FeedInv` without the bound on the open batch: the state between an append and the flush check. */
  predicate FeedShape(s: Cursor, c: Cursor, mesh: MeshId, seen: seq<Mat4>, alignment: nat)
    requires alignment > 0
  {
    FeedLayout(s, c, mesh, alignment) && FeedSlots(s, c, seen)
  }

  /** The batch side of `FeedShape`. */
  predicate FeedLayout(s: Cursor, c: Cursor, mesh: MeshId, alignment: nat)
    requires alignment > 0
  {
    s.offset == |s.upload| &&
    |s.done| <= |c.done| && c.done[..|s.done|] == s.done &&
    FullChunks(c.done[|s.done|..], mesh) &&
    Chained(c.done[|s.done|..], s.offset, alignment) &&
    c.open.mesh == mesh &&
    c.open.instanceOffset == LayoutEnd(c.done[|s.done|..], s.offset, alignment) &&
    c.offset == |c.upload| && c.offset == c.open.instanceOffset + c.open.instanceCount
  }

  /** The buffer side of `FeedShape`. */
  predicate FeedSlots(s: Cursor, c: Cursor, seen: seq<Mat4>)
  {
    |s.done| <= |c.done| && c.open.instanceOffset <= |c.upload| &&
    s.offset <= |c.upload| && c.upload[..s.offset] == s.upload &&
    Slots(c.upload, c.done[|s.done|..]) + c.upload[c.open.instanceOffset..] == seen
  }

  lemma FeedGrow(s: Cursor, c: Cursor, mesh: MeshId, seen: seq<Mat4>, x: Mat4, alignment: nat)
    requires alignment > 0 && FeedInv(s, c, mesh, seen, alignment)
    ensures FeedShape(s, Grow(c, x), mesh, seen + [x], alignment)
  {
    var E := c.done[|s.done|..];
    var start := c.open.instanceOffset;
    ChainedInside(E, s.offset, alignment, start);
    GrowBuffer(c.upload, x, E, start, s.offset, s.upload, seen);
  }

  /** The buffer side of an append: the prefix and the done batches keep their matrices, and x joins the tail. */
  lemma GrowBuffer(u: seq<Mat4>, x: Mat4, E: seq<MeshBatch>, start: nat, sOff: nat, sUp: seq<Mat4>, seen: seq<Mat4>)
    requires sOff <= |u| && u[..sOff] == sUp && start <= |u| && Within(E, start)
    requires Slots(u, E) + u[start..] == seen
    ensures sOff <= |u + [x]| && (u + [x])[..sOff] == sUp
    ensures Slots(u + [x], E) + (u + [x])[start..] == seen + [x]
  {
    var up := u + [x];
    assert up[..|u|] == u;
    assert up[..start] == u[..start];
    SlotsPrefix(u, up, E, start);
    assert up[start..] == u[start..] + [x];
    assert up[..sOff] == sUp;
    AssociateMats(Slots(u, E), u[start..], [x]);
  }

  /** Growing the buffer keeps every prefix and what batches inside it point at. */
  lemma ResizeKeeps(up: seq<Mat4>, n: nat, bs: seq<MeshBatch>)
    requires |up| <= n && Within(bs, |up|)
    ensures forall k :: 0 <= k <= |up| ==> Resize(up, n)[..k] == up[..k]
    ensures Slots(Resize(up, n), bs) == Slots(up, bs)
  {
    var r := Resize(up, n);
    forall k | 0 <= k <= |up| ensures r[..k] == up[..k] {
      assert r[..k] == r[..|up|][..k];
    }
    SlotsPrefix(up, r, bs, |up|);
  }

  /** The open batch of a shaped state covers the tail of the buffer from its offset. */
  lemma OpenSlots(s: Cursor, c: Cursor, mesh: MeshId, seen: seq<Mat4>, alignment: nat)
    requires alignment > 0 && FeedShape(s, c, mesh, seen, alignment)
    ensures Within(c.done[|s.done|..] + [c.open], |c.upload|)
    ensures Slots(c.upload, c.done[|s.done|..] + [c.open]) == seen
  {
    var E := c.done[|s.done|..];
    var o := c.open;
    ChainedInside(E, s.offset, alignment, o.instanceOffset);
    assert (E + [o])[..|E|] == E;
    assert Slice(c.upload, o.instanceOffset, End(o)) == c.upload[o.instanceOffset..];
  }

  /** The batch side of a flush: the chunk joins the laid-out run and the next batch opens at its end. */
  lemma FlushBatches(prior: seq<MeshBatch>, done: seq<MeshBatch>, o: MeshBatch, start: nat, alignment: nat)
    requires alignment > 0 && |prior| <= |done| && done[..|prior|] == prior
    requires Chained(done[|prior|..], start, alignment)
    requires o.instanceOffset == LayoutEnd(done[|prior|..], start, alignment)
    ensures (done + [o])[..|prior|] == prior
    ensures (done + [o])[|prior|..] == done[|prior|..] + [o]
    ensures Chained((done + [o])[|prior|..], start, alignment)
    ensures LayoutEnd((done + [o])[|prior|..], start, alignment) == PaddedOffset(End(o), alignment)
  {
    assert (done + [o])[|prior|..] == done[|prior|..] + [o];
    ChainedSnoc(done[|prior|..], o, start, alignment);
  }

  lemma FeedFlush(s: Cursor, c: Cursor, mesh: MeshId, seen: seq<Mat4>, alignment: nat)
    requires alignment > 0 && FeedShape(s, c, mesh, seen, alignment)
    requires c.open.instanceCount == MatricesPerUniformBuffer
    ensures FeedInv(s, Flush(c, alignment), mesh, seen, alignment)
  {
    var E := c.done[|s.done|..];
    var o := c.open;
    var p := PaddedOffset(c.offset, alignment);
    var up := Resize(c.upload, p);
    var done := c.done + [o];
    assert Flush(c, alignment) == Cursor(up, p, done, MeshBatch(mesh, p, 0));
    assert |s.done| <= |done| && done[..|s.done|] == s.done && done[|s.done|..] == E + [o] &&
      FullChunks(done[|s.done|..], mesh) && Chained(done[|s.done|..], s.offset, alignment) &&
      p == LayoutEnd(done[|s.done|..], s.offset, alignment) by {
      FlushBatches(s.done, c.done, o, s.offset, alignment);
    }
    assert s.offset <= |up| && up[..s.offset] == s.upload && Slots(up, E + [o]) + up[p..] == seen by {
      OpenSlots(s, c, mesh, seen, alignment);
      PadBuffer(c.upload, E + [o], p, s.offset, s.upload, seen);
    }
  }

  /** The buffer side of a flush or close: padding keeps the prefix and what the batches point at. */
  lemma PadBuffer(u: seq<Mat4>, bs: seq<MeshBatch>, p: nat, sOff: nat, sUp: seq<Mat4>, seen: seq<Mat4>)
    requires |u| <= p && Within(bs, |u|) && Slots(u, bs) == seen && sOff <= |u| && u[..sOff] == sUp
    ensures sOff <= |Resize(u, p)| && Resize(u, p)[..sOff] == sUp
    ensures Slots(Resize(u, p), bs) == seen && Resize(u, p)[p..] == []
    ensures Slots(Resize(u, p), bs) + Resize(u, p)[p..] == seen
  {
    ResizeKeeps(u, p, bs);
    assert Resize(u, p)[p..] == [];
  }

  lemma FeedInvStep(s: Cursor, c: Cursor, mesh: MeshId, seen: seq<Mat4>, passes: bool, x: Mat4, alignment: nat)
    requires alignment > 0 && FeedInv(s, c, mesh, seen, alignment)
    ensures FeedInv(s, Step(c, passes, x, alignment), mesh, if passes then seen + [x] else seen, alignment)
  {
    if passes {
      FeedGrow(s, c, mesh, seen, x, alignment);
      if Grow(c, x).open.instanceCount == MatricesPerUniformBuffer {
        FeedFlush(s, Grow(c, x), mesh, seen + [x], alignment);
      }
    }
  }

  /** The invariant holds after any prefix of a mesh's matrices. */
  lemma {:induction false} FeedAll(s: Cursor, vis: Culler, view: nat, mesh: MeshId, mats: seq<Mat4>, alignment: nat)
    requires alignment > 0 && s.offset == |s.upload|
    ensures FeedInv(s, Feed(s.(open := MeshBatch(mesh, s.offset, 0)), vis, view, mesh, mats, alignment),
                    mesh, Visible(vis, view, mesh, mats), alignment)
    decreases |mats|
  {
    var c0 := s.(open := MeshBatch(mesh, s.offset, 0));
    if mats == [] {
      assert c0.done[|s.done|..] == [];
      assert c0.upload[..s.offset] == s.upload;
    } else {
      var init, last := mats[..|mats| - 1], mats[|mats| - 1];
      FeedAll(s, vis, view, mesh, init, alignment);
      FeedInvStep(s, Feed(c0, vis, view, mesh, init, alignment), mesh, Visible(vis, view, mesh, init),
                  Passes(vis, view, mesh, last), last, alignment);
    }
  }

  /**
   * What one mesh pass from s leaves: the view's earlier batches, then batches of
   * this mesh only, each with 1 to 256 instances, laid out from the mesh's start
   * offset up to `currentUboOffset`, which is the buffer length; the buffer below
   * the start is untouched, and the new batches hold `seen`, in order.
   */
  predicate MeshOut(s: Cursor, r: Cursor, mesh: MeshId, seen: seq<Mat4>, alignment: nat)
    requires alignment > 0
  {
    MeshLayout(s, r, mesh, alignment) && MeshSlots(s, r, seen)
  }

  /** The batch side of `MeshOut`. */
  predicate MeshLayout(s: Cursor, r: Cursor, mesh: MeshId, alignment: nat)
    requires alignment > 0
  {
    s.offset == |s.upload| &&
    |s.done| <= |r.done| && r.done[..|s.done|] == s.done &&
    (forall b :: b in r.done[|s.done|..] ==> b.mesh == mesh) && CountsInRange(r.done[|s.done|..]) &&
    Chained(r.done[|s.done|..], s.offset, alignment) &&
    r.offset == |r.upload| && r.offset == LayoutEnd(r.done[|s.done|..], s.offset, alignment)
  }

  /** The buffer side of `MeshOut`. */
  predicate MeshSlots(s: Cursor, r: Cursor, seen: seq<Mat4>)
  {
    |s.done| <= |r.done| && s.offset <= |r.upload| && r.upload[..s.offset] == s.upload &&
    Slots(r.upload, r.done[|s.done|..]) == seen
  }

  lemma CloseNonEmpty(s: Cursor, c: Cursor, mesh: MeshId, seen: seq<Mat4>, alignment: nat)
    requires alignment > 0 && FeedInv(s, c, mesh, seen, alignment) && c.open.instanceCount > 0
    ensures MeshOut(s, Close(c, alignment), mesh, seen, alignment)
  {
    CloseLayout(s, c, mesh, alignment);
    CloseSlots(s, c, mesh, seen, alignment);
  }

  lemma CloseLayout(s: Cursor, c: Cursor, mesh: MeshId, alignment: nat)
    requires alignment > 0 && FeedLayout(s, c, mesh, alignment)
    requires 0 < c.open.instanceCount <= MatricesPerUniformBuffer
    ensures MeshLayout(s, Close(c, alignment), mesh, alignment)
  {
    var E := c.done[|s.done|..];
    var o := c.open;
    var p := PaddedOffset(c.offset, alignment);
    var done := c.done + [o];
    assert Close(c, alignment).done == done && Close(c, alignment).offset == p;
    assert |Close(c, alignment).upload| == p;
    assert |s.done| <= |done| && done[..|s.done|] == s.done && done[|s.done|..] == E + [o] &&
      Chained(done[|s.done|..], s.offset, alignment) &&
      p == LayoutEnd(done[|s.done|..], s.offset, alignment) by {
      FlushBatches(s.done, c.done, o, s.offset, alignment);
    }
    ChunksSnoc(E, o, mesh);
  }

  /** Full chunks of a mesh followed by a non-empty batch of it make a run of that mesh with counts in range. */
  lemma ChunksSnoc(E: seq<MeshBatch>, o: MeshBatch, mesh: MeshId)
    requires FullChunks(E, mesh) && o.mesh == mesh && 0 < o.instanceCount <= MatricesPerUniformBuffer
    ensures (forall b :: b in E + [o] ==> b.mesh == mesh) && CountsInRange(E + [o])
  {
  }

  lemma CloseSlots(s: Cursor, c: Cursor, mesh: MeshId, seen: seq<Mat4>, alignment: nat)
    requires alignment > 0 && FeedShape(s, c, mesh, seen, alignment) && c.open.instanceCount > 0
    ensures MeshSlots(s, Close(c, alignment), seen)
  {
    var E := c.done[|s.done|..];
    var o := c.open;
    var p := PaddedOffset(c.offset, alignment);
    var done := c.done + [o];
    assert Close(c, alignment) == Cursor(Resize(c.upload, p), p, done, o);
    assert done[|s.done|..] == E + [o];
    OpenSlots(s, c, mesh, seen, alignment);
    PadBuffer(c.upload, E + [o], p, s.offset, s.upload, seen);
  }

  lemma CloseEmpty(s: Cursor, c: Cursor, mesh: MeshId, seen: seq<Mat4>, alignment: nat)
    requires alignment > 0 && FeedInv(s, c, mesh, seen, alignment) && c.open.instanceCount == 0
    ensures MeshOut(s, Close(c, alignment), mesh, seen, alignment)
  {
    assert c.upload[c.open.instanceOffset..] == [];
  }

  /** One mesh pass lays out exactly the mesh's visible matrices, in chunks of at most 256. */
  lemma MeshPassOut(s: Cursor, vis: Culler, view: nat, mesh: MeshId, mats: seq<Mat4>, alignment: nat)
    requires alignment > 0 && s.offset == |s.upload|
    ensures MeshOut(s, MeshPass(s, vis, view, mesh, mats, alignment), mesh, Visible(vis, view, mesh, mats), alignment)
  {
    var c := Feed(s.(open := MeshBatch(mesh, s.offset, 0)), vis, view, mesh, mats, alignment);
    FeedAll(s, vis, view, mesh, mats, alignment);
    if c.open.instanceCount == 0 {
      CloseEmpty(s, c, mesh, Visible(vis, view, mesh, mats), alignment);
    } else {
      CloseNonEmpty(s, c, mesh, Visible(vis, view, mesh, mats), alignment);
    }
  }

  /**
   * The state of a view's mesh loop, started from vs, after the meshes of `prefix`:
   * the view's batches are laid out from the view's start offset up to
   * `currentUboOffset`, which is the buffer length; the buffer below the start is
   * untouched; every batch has 1 to 256 instances and a mesh of the prefix; the
   * batches of each mesh of the prefix hold its visible matrices, in order; and the
   * counts add up to the number of visible matrices.
   */
  predicate ViewInv(vs: Cursor, c: Cursor, vis: Culler, view: nat, prefix: seq<MeshId>, mm: map<MeshId, seq<Mat4>>, alignment: nat)
    requires alignment > 0 && Keyed(prefix, mm)
  {
    vs.offset == |vs.upload| && vs.done == [] &&
    ViewLayout(vs, c, alignment) && ViewBatches(c.done, prefix) &&
    ViewSlots(c, vis, view, prefix, mm) && SumCounts(c.done) == VisibleTotal(vis, view, prefix, mm)
  }

  /** The view's batches are laid out from the view's start up to `currentUboOffset`, the buffer length. */
  predicate ViewLayout(vs: Cursor, c: Cursor, alignment: nat)
    requires alignment > 0
  {
    Chained(c.done, vs.offset, alignment) &&
    c.offset == |c.upload| && c.offset == LayoutEnd(c.done, vs.offset, alignment) &&
    vs.offset <= |c.upload| && c.upload[..vs.offset] == vs.upload
  }

  /** Every batch has 1 to 256 instances and a mesh of the order. */
  predicate ViewBatches(bs: seq<MeshBatch>, order: seq<MeshId>)
  {
    CountsInRange(bs) && forall b :: b in bs ==> b.mesh in order
  }

  /** The batches of each mesh of the order hold that mesh's visible matrices, in order. */
  predicate ViewSlots(c: Cursor, vis: Culler, view: nat, order: seq<MeshId>, mm: map<MeshId, seq<Mat4>>)
    requires Keyed(order, mm)
  {
    forall m :: m in order ==> Slots(c.upload, OfMesh(c.done, m)) == Visible(vis, view, m, mm[m])
  }

  /** The batches of an earlier mesh are untouched by a later mesh's pass. */
  lemma OtherMeshKept(c: Cursor, r: Cursor, k: MeshId, m: MeshId, seen: seq<Mat4>, alignment: nat)
    requires alignment > 0 && MeshLayout(c, r, k, alignment) && m != k
    requires c.offset <= |r.upload| && r.upload[..c.offset] == c.upload
    requires Within(c.done, c.offset)
    ensures Slots(r.upload, OfMesh(r.done, m)) == Slots(c.upload, OfMesh(c.done, m))
  {
    var B := r.done[|c.done|..];
    assert r.done == c.done + B;
    OfMeshAppend(c.done, B, m);
    OfMeshNone(B, m);
    assert OfMesh(r.done, m) == OfMesh(c.done, m);
    OfMeshMembers(c.done, m);
    assert Within(OfMesh(c.done, m), c.offset);
    assert r.upload[..c.offset] == c.upload[..c.offset];
    SlotsPrefix(c.upload, r.upload, OfMesh(c.done, m), c.offset);
  }

  /** The batches of the mesh just passed are exactly the new ones. */
  lemma NewMeshSlots(c: Cursor, r: Cursor, k: MeshId, seen: seq<Mat4>, alignment: nat)
    requires alignment > 0 && MeshOut(c, r, k, seen, alignment)
    requires forall b :: b in c.done ==> b.mesh != k
    ensures Slots(r.upload, OfMesh(r.done, k)) == seen
    ensures SumCounts(r.done) == SumCounts(c.done) + |seen|
  {
    var B := r.done[|c.done|..];
    assert r.done == c.done + B;
    NewMeshBatches(c.done, B, k);
    assert SumCounts(r.done) == SumCounts(c.done) + |seen| by {
      SumCountsAppend(c.done, B);
      ChainedInside(B, c.offset, alignment, |r.upload|);
      SlotsLength(r.upload, B);
    }
  }

  /** When only the new batches B are of mesh k, the batches of k are exactly B. */
  lemma NewMeshBatches(done: seq<MeshBatch>, B: seq<MeshBatch>, k: MeshId)
    requires forall b :: b in done ==> b.mesh != k
    requires forall b :: b in B ==> b.mesh == k
    ensures OfMesh(done + B, k) == B
  {
    OfMeshAppend(done, B, k);
    OfMeshNone(done, k);
    OfMeshAll(B, k);
  }

  lemma ViewStepLayout(vs: Cursor, c: Cursor, r: Cursor, k: MeshId, seen: seq<Mat4>, alignment: nat)
    requires alignment > 0 && MeshLayout(c, r, k, alignment) && ViewLayout(vs, c, alignment)
    requires c.offset <= |r.upload| && r.upload[..c.offset] == c.upload
    ensures ViewLayout(vs, r, alignment)
  {
    var B := r.done[|c.done|..];
    assert r.done == c.done + B;
    ChainedAppend(c.done, B, vs.offset, alignment);
    assert r.upload[..vs.offset] == r.upload[..c.offset][..vs.offset];
  }

  lemma ViewStepBatches(c: Cursor, r: Cursor, prefix: seq<MeshId>, k: MeshId, seen: seq<Mat4>, alignment: nat)
    requires alignment > 0 && MeshLayout(c, r, k, alignment) && ViewBatches(c.done, prefix)
    ensures ViewBatches(r.done, prefix + [k])
  {
    var B := r.done[|c.done|..];
    assert r.done == c.done + B;
    forall b | b in r.done ensures 1 <= b.instanceCount <= MatricesPerUniformBuffer && b.mesh in prefix + [k] {
      if b !in c.done { assert b in B; }
    }
  }

  lemma ViewStepSlots(vs: Cursor, c: Cursor, r: Cursor, vis: Culler, view: nat, prefix: seq<MeshId>, k: MeshId, mm: map<MeshId, seq<Mat4>>, alignment: nat)
    requires alignment > 0 && Keyed(prefix + [k], mm) && k !in prefix
    requires MeshOut(c, r, k, Visible(vis, view, k, mm[k]), alignment)
    requires ViewLayout(vs, c, alignment) && ViewBatches(c.done, prefix)
    requires Keyed(prefix, mm) && ViewSlots(c, vis, view, prefix, mm)
    ensures ViewSlots(r, vis, view, prefix + [k], mm)
  {
    var seen := Visible(vis, view, k, mm[k]);
    assert Within(c.done, c.offset) by {
      ChainedInside(c.done, vs.offset, alignment, c.offset);
    }
    forall m | m in prefix + [k]
      ensures Slots(r.upload, OfMesh(r.done, m)) == Visible(vis, view, m, mm[m])
    {
      if m == k {
        NewMeshSlots(c, r, k, seen, alignment);
      } else {
        OtherMeshKept(c, r, k, m, seen, alignment);
      }
    }
  }

  lemma ViewStep(vs: Cursor, c: Cursor, vis: Culler, view: nat, prefix: seq<MeshId>, k: MeshId, mm: map<MeshId, seq<Mat4>>, alignment: nat)
    requires alignment > 0 && Keyed(prefix + [k], mm) && k !in prefix
    requires ViewInv(vs, c, vis, view, prefix, mm, alignment)
    ensures ViewInv(vs, MeshPass(c, vis, view, k, mm[k], alignment), vis, view, prefix + [k], mm, alignment)
  {
    var r := MeshPass(c, vis, view, k, mm[k], alignment);
    var seen := Visible(vis, view, k, mm[k]);
    MeshPassOut(c, vis, view, k, mm[k], alignment);
    assert Keyed(prefix, mm);
    ViewStepLayout(vs, c, r, k, seen, alignment);
    ViewStepBatches(c, r, prefix, k, seen, alignment);
    ViewStepSlots(vs, c, r, vis, view, prefix, k, mm, alignment);
    assert SumCounts(r.done) == SumCounts(c.done) + |seen| by {
      assert forall b :: b in c.done ==> b.mesh != k;
      NewMeshSlots(c, r, k, seen, alignment);
    }
    assert (prefix + [k])[..|prefix|] == prefix;
  }

  /** The view invariant holds after the whole mesh order. */
  lemma {:induction false} ViewAll(vs: Cursor, vis: Culler, view: nat, order: seq<MeshId>, mm: map<MeshId, seq<Mat4>>, alignment: nat)
    requires alignment > 0 && Keyed(order, mm) && Distinct(order)
    requires vs.offset == |vs.upload| && vs.done == []
    ensures ViewInv(vs, ViewPass(vs, vis, view, order, mm, alignment), vis, view, order, mm, alignment)
    decreases |order|
  {
    if order == [] {
      assert vs.upload[..vs.offset] == vs.upload;
    } else {
      var init, k := order[..|order| - 1], order[|order| - 1];
      assert order == init + [k];
      assert Keyed(init, mm);
      assert Distinct(init) by {
        forall i, j | 0 <= i < j < |init| ensures init[i] != init[j] { assert init[i] == order[i] && init[j] == order[j]; }
      }
      assert k !in init;
      ViewAll(vs, vis, view, init, mm, alignment);
      ViewStep(vs, ViewPass(vs, vis, view, init, mm, alignment), vis, view, init, k, mm, alignment);
    }
  }

  /** The batch lists of all views, one after the other. */
  function Concat(ls: seq<seq<MeshBatch>>): seq<MeshBatch>
    decreases |ls|
  {
    if ls == [] then [] else Concat(ls[..|ls| - 1]) + ls[|ls| - 1]
  }

  /**
   * One view's batch list inside the buffer `up`: every batch lies inside the buffer,
   * has 1 to 256 instances and a mesh of the order; the batches of each mesh hold
   * exactly the mesh's matrices that pass this view's test, in resolver order; and the
   * counts add up to the number of matrices that pass.
   */
  predicate ViewOk(up: seq<Mat4>, l: seq<MeshBatch>, vis: Culler, view: nat, order: seq<MeshId>, mm: map<MeshId, seq<Mat4>>)
    requires Keyed(order, mm)
  {
    Within(l, |up|) && ViewBatches(l, order) &&
    (forall m :: m in order ==> Slots(up, OfMesh(l, m)) == Visible(vis, view, m, mm[m])) &&
    SumCounts(l) == VisibleTotal(vis, view, order, mm)
  }

  /**
   * The batcher's result: all views' batches, concatenated, are laid out from slot 0
   * up to the final `currentUboOffset`, which is the buffer length, and every view's
   * list is as `ViewOk` says.
   */
  predicate FrameInv(f: Frame, vis: Culler, order: seq<MeshId>, mm: map<MeshId, seq<Mat4>>, alignment: nat)
    requires alignment > 0 && Keyed(order, mm)
  {
    Chained(Concat(f.lists), 0, alignment) &&
    f.offset == |f.upload| && f.offset == LayoutEnd(Concat(f.lists), 0, alignment) &&
    forall v :: 0 <= v < |f.lists| ==> ViewOk(f.upload, f.lists[v], vis, v, order, mm)
  }

  lemma ViewOkGrow(up: seq<Mat4>, up2: seq<Mat4>, l: seq<MeshBatch>, vis: Culler, view: nat, order: seq<MeshId>, mm: map<MeshId, seq<Mat4>>)
    requires Keyed(order, mm) && |up| <= |up2| && up2[..|up|] == up
    requires ViewOk(up, l, vis, view, order, mm)
    ensures ViewOk(up2, l, vis, view, order, mm)
  {
    forall m | m in order ensures Slots(up2, OfMesh(l, m)) == Visible(vis, view, m, mm[m]) {
      OfMeshMembers(l, m);
      assert up[..|up|] == up;
      SlotsPrefix(up, up2, OfMesh(l, m), |up|);
    }
  }

  lemma ViewOkFromInv(vs: Cursor, c: Cursor, vis: Culler, view: nat, order: seq<MeshId>, mm: map<MeshId, seq<Mat4>>, alignment: nat)
    requires alignment > 0 && Keyed(order, mm) && ViewInv(vs, c, vis, view, order, mm, alignment)
    ensures ViewOk(c.upload, c.done, vis, view, order, mm)
  {
    ChainedInside(c.done, vs.offset, alignment, |c.upload|);
  }

  lemma FrameStep(f: Frame, vis: Culler, order: seq<MeshId>, mm: map<MeshId, seq<Mat4>>, alignment: nat)
    requires alignment > 0 && Keyed(order, mm) && Distinct(order) && FrameInv(f, vis, order, mm, alignment)
    ensures var c := ViewPass(ViewStart(f), vis, |f.lists|, order, mm, alignment);
      FrameInv(Frame(c.upload, c.offset, f.lists + [c.done]), vis, order, mm, alignment)
  {
    var vs := ViewStart(f);
    var c := ViewPass(vs, vis, |f.lists|, order, mm, alignment);
    ViewAll(vs, vis, |f.lists|, order, mm, alignment);
    ViewOkFromInv(vs, c, vis, |f.lists|, order, mm, alignment);
    FrameLayoutStep(f, c, alignment);
    FrameViewsStep(f, c.upload, c.done, vis, order, mm);
  }

  /** A view's batches extend the frame's layout. */
  lemma FrameLayoutStep(f: Frame, c: Cursor, alignment: nat)
    requires alignment > 0 && Chained(Concat(f.lists), 0, alignment) && f.offset == LayoutEnd(Concat(f.lists), 0, alignment)
    requires ViewLayout(ViewStart(f), c, alignment)
    ensures Chained(Concat(f.lists + [c.done]), 0, alignment)
    ensures c.offset == |c.upload| && c.offset == LayoutEnd(Concat(f.lists + [c.done]), 0, alignment)
  {
    var ls := f.lists + [c.done];
    assert ls[..|ls| - 1] == f.lists;
    assert Concat(ls) == Concat(f.lists) + c.done;
    ChainedAppend(Concat(f.lists), c.done, 0, alignment);
  }

  /** Earlier views keep their lists in the grown buffer, and the new view's list is as `ViewOk` says. */
  lemma FrameViewsStep(f: Frame, up: seq<Mat4>, l: seq<MeshBatch>, vis: Culler, order: seq<MeshId>, mm: map<MeshId, seq<Mat4>>)
    requires Keyed(order, mm)
    requires forall v :: 0 <= v < |f.lists| ==> ViewOk(f.upload, f.lists[v], vis, v, order, mm)
    requires |f.upload| <= |up| && up[..|f.upload|] == f.upload
    requires ViewOk(up, l, vis, |f.lists|, order, mm)
    ensures forall v :: 0 <= v < |f.lists + [l]| ==> ViewOk(up, (f.lists + [l])[v], vis, v, order, mm)
  {
    var ls := f.lists + [l];
    forall v | 0 <= v < |ls| ensures ViewOk(up, ls[v], vis, v, order, mm) {
      if v < |f.lists| {
        assert ls[v] == f.lists[v];
        ViewOkGrow(f.upload, up, f.lists[v], vis, v, order, mm);
      }
    }
  }

  /** The batcher's result for any number of views. */
  lemma {:induction false} FrameAll(vis: Culler, views: nat, order: seq<MeshId>, mm: map<MeshId, seq<Mat4>>, alignment: nat)
    requires alignment > 0 && Keyed(order, mm) && Distinct(order)
    ensures FrameInv(FramePass(vis, views, order, mm, alignment), vis, order, mm, alignment)
    ensures |FramePass(vis, views, order, mm, alignment).lists| == views
    decreases views
  {
    if views > 0 {
      var f := FramePass(vis, views - 1, order, mm, alignment);
      var c := ViewPass(ViewStart(f), vis, views - 1, order, mm, alignment);
      FrameAll(vis, views - 1, order, mm, alignment);
      FrameStep(f, vis, order, mm, alignment);
      assert FramePass(vis, views, order, mm, alignment) == Frame(c.upload, c.offset, f.lists + [c.done]);
    }
  }

  // ------------------------------------------------ what the batcher promises

  /** One batch list per view; every batch has 1 to 256 instances and a mesh of the order. */
  lemma BatchCounts(vis: Culler, views: nat, order: seq<MeshId>, mm: map<MeshId, seq<Mat4>>, alignment: nat)
    requires alignment > 0 && Keyed(order, mm) && Distinct(order)
    ensures var f := FramePass(vis, views, order, mm, alignment);
      |f.lists| == views &&
      forall v, b :: 0 <= v < views && b in f.lists[v] ==>
        1 <= b.instanceCount <= MatricesPerUniformBuffer && b.mesh in order
  {
    FrameAll(vis, views, order, mm, alignment);
  }

  /**
   * The batches of mesh m in view v point at exactly the matrices of m that pass
   * view v's test (with the highlight cell cleared), in resolver order, and the
   * buffer `currentUboOffset` ends at is as long as the offset.
   */
  lemma BatchContents(vis: Culler, views: nat, order: seq<MeshId>, mm: map<MeshId, seq<Mat4>>, alignment: nat)
    requires alignment > 0 && Keyed(order, mm) && Distinct(order)
    ensures var f := FramePass(vis, views, order, mm, alignment);
      f.offset == |f.upload| &&
      forall v, m :: 0 <= v < views && m in order ==>
        Within(f.lists[v], |f.upload|) &&
        Slots(f.upload, OfMesh(f.lists[v], m)) == Visible(vis, v, m, mm[m])
  {
    FrameAll(vis, views, order, mm, alignment);
  }

  /** Within one view, the instance counts add up to the number of matrices that pass its test. */
  lemma ViewTotals(vis: Culler, views: nat, order: seq<MeshId>, mm: map<MeshId, seq<Mat4>>, alignment: nat)
    requires alignment > 0 && Keyed(order, mm) && Distinct(order)
    ensures var f := FramePass(vis, views, order, mm, alignment);
      forall v :: 0 <= v < views ==> SumCounts(f.lists[v]) == VisibleTotal(vis, v, order, mm)
  {
    FrameAll(vis, views, order, mm, alignment);
  }

  lemma {:induction false} SumCountsPositive(bs: seq<MeshBatch>)
    requires CountsInRange(bs) && bs != []
    ensures SumCounts(bs) > 0
  {
    assert bs[|bs| - 1] in bs;
  }

  /** A mesh none of whose matrices pass a view's test, or no mesh of the order, has no batch in that view. */
  lemma NoBatchWithoutVisible(vis: Culler, views: nat, order: seq<MeshId>, mm: map<MeshId, seq<Mat4>>, alignment: nat, v: nat, m: MeshId)
    requires alignment > 0 && Keyed(order, mm) && Distinct(order) && v < views
    requires m in order ==> Visible(vis, v, m, mm[m]) == []
    ensures OfMesh(FramePass(vis, views, order, mm, alignment).lists[v], m) == []
  {
    var f := FramePass(vis, views, order, mm, alignment);
    FrameAll(vis, views, order, mm, alignment);
    var l := f.lists[v];
    assert ViewOk(f.upload, l, vis, v, order, mm);
    OfMeshMembers(l, m);
    if m in order {
      var ob := OfMesh(l, m);
      assert Within(ob, |f.upload|);
      SlotsLength(f.upload, ob);
      if ob != [] {
        assert CountsInRange(ob);
        SumCountsPositive(ob);
      }
    } else {
      OfMeshNone(l, m);
    }
  }

  /**
   * With an alignment that is a positive multiple of 64 bytes, every batch of every
   * view starts on an aligned byte offset, and so does the buffer's end.
   */
  lemma BatchesAligned(vis: Culler, views: nat, order: seq<MeshId>, mm: map<MeshId, seq<Mat4>>, alignment: nat)
    requires alignment > 0 && alignment % MatrixBytes == 0 && Keyed(order, mm) && Distinct(order)
    ensures var f := FramePass(vis, views, order, mm, alignment);
      var all := Concat(f.lists);
      (forall i :: 0 <= i < |all| ==> Aligned(all[i].instanceOffset, alignment)) &&
      Aligned(|f.upload|, alignment)
  {
    var f := FramePass(vis, views, order, mm, alignment);
    FrameAll(vis, views, order, mm, alignment);
    ChainedAligned(Concat(f.lists), 0, alignment);
  }

  /**
   * With an alignment that is a positive multiple of 64 bytes, every batch is followed
   * by 1 to alignment/64 padding slots before the next batch (of any view) or the end
   * of the buffer, and by the full alignment/64 when its end is aligned already.
   */
  lemma PaddingAfterBatches(vis: Culler, views: nat, order: seq<MeshId>, mm: map<MeshId, seq<Mat4>>, alignment: nat)
    requires alignment > 0 && alignment % MatrixBytes == 0 && Keyed(order, mm) && Distinct(order)
    ensures var f := FramePass(vis, views, order, mm, alignment);
      PaddedAfter(Concat(f.lists), |f.upload|, alignment)
  {
    var f := FramePass(vis, views, order, mm, alignment);
    assert Chained(Concat(f.lists), 0, alignment) && |f.upload| == LayoutEnd(Concat(f.lists), 0, alignment) by {
      FrameAll(vis, views, order, mm, alignment);
    }
    ChainedPadding(Concat(f.lists), 0, alignment, |f.upload|);
  }

  /**
   * Each batch of bs is followed by 1 to alignment/64 padding slots before the next
   * batch or slot n, and by exactly alignment/64 when its end is aligned already.
   */
  predicate PaddedAfter(bs: seq<MeshBatch>, n: nat, alignment: nat)
  {
    forall i :: 0 <= i < |bs| ==>
      var next := if i + 1 < |bs| then bs[i + 1].instanceOffset else n;
      End(bs[i]) < next && next - End(bs[i]) <= alignment / MatrixBytes &&
      (Aligned(End(bs[i]), alignment) ==> next - End(bs[i]) == alignment / MatrixBytes)
  }

  lemma ChainedPadding(bs: seq<MeshBatch>, start: nat, alignment: nat, n: nat)
    requires alignment > 0 && alignment % MatrixBytes == 0 && Chained(bs, start, alignment)
    requires n == LayoutEnd(bs, start, alignment)
    ensures PaddedAfter(bs, n, alignment)
  {
    forall i | 0 <= i < |bs|
      ensures var next := if i + 1 < |bs| then bs[i + 1].instanceOffset else n;
        End(bs[i]) < next && next - End(bs[i]) <= alignment / MatrixBytes &&
        (Aligned(End(bs[i]), alignment) ==> next - End(bs[i]) == alignment / MatrixBytes)
    {
      var next := if i + 1 < |bs| then bs[i + 1].instanceOffset else n;
      assert next == PaddedOffset(End(bs[i]), alignment);
      PaddingFacts(End(bs[i]), alignment);
    }
  }

  /** Batch ranges of all views are pairwise disjoint and strictly increase in offset, in view order. */
  lemma BatchesDisjoint(vis: Culler, views: nat, order: seq<MeshId>, mm: map<MeshId, seq<Mat4>>, alignment: nat)
    requires alignment > 0 && alignment % MatrixBytes == 0 && Keyed(order, mm) && Distinct(order)
    ensures var all := Concat(FramePass(vis, views, order, mm, alignment).lists);
      forall i, j :: 0 <= i < j < |all| ==> End(all[i]) < all[j].instanceOffset
  {
    var f := FramePass(vis, views, order, mm, alignment);
    FrameAll(vis, views, order, mm, alignment);
    var all := Concat(f.lists);
    forall i, j | 0 <= i < j < |all| ensures End(all[i]) < all[j].instanceOffset {
      ChainedOrdered(all, 0, alignment, i, j);
    }
  }
}
