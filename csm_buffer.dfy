// Cascaded shadow maps (CSMBuffer.cpp): the camera frustum is cut at the
// cascade splits, and each slice gets an orthographic light-space matrix
// fitted around its eight world-space corners.  The buffer object keeps the
// split list and one framebuffer per cascade.

module CsmBuffer {
  import opened Glm

  // ------------------------------------------------------------ corners

  /** The NDC corner with index x*4 + y*2 + z: (2x-1, 2y-1, 2z-1, 1). */
  function NdcCorner(i: nat): (r: Vec4)
    requires i < 8
    ensures r.w == 1.0
    ensures r.x == (if i / 4 == 0 then -1.0 else 1.0)
    ensures r.y == (if (i / 2) % 2 == 0 then -1.0 else 1.0)
    ensures r.z == (if i % 2 == 0 then -1.0 else 1.0)
  {
    Vec4(2.0 * ((i / 4) as real) - 1.0, 2.0 * (((i / 2) % 2) as real) - 1.0, 2.0 * ((i % 2) as real) - 1.0, 1.0)
  }

  /**
   * `pt / pt.w`.  At w == 0 the float division yields infinities or NaN,
   * which this model does not represent; the point is then kept as it is.
   */
  function Homogenize(pt: Vec4): (r: Vec4)
    ensures pt.w != 0.0 ==> r.w == 1.0 && Scale4(r, pt.w) == pt
  {
    if pt.w == 0.0 then pt else Vec4(pt.x / pt.w, pt.y / pt.w, pt.z / pt.w, pt.w / pt.w)
  }

  /** World-space corner i of the frustum whose inverse projection-view is inv. */
  function WorldCorner(inv: Mat4, i: nat): Vec4
    requires i < 8
  {
    Homogenize(MulVec(inv, NdcCorner(i)))
  }

  /** The eight corners, indexed x*4 + y*2 + z. */
  function WorldCorners(inv: Mat4): (cs: seq<Vec4>)
    ensures |cs| == 8
    ensures forall i :: 0 <= i < 8 ==> cs[i] == WorldCorner(inv, i)
  {
    seq(8, i requires 0 <= i < 8 => WorldCorner(inv, i))
  }

  lemma CornerIndex(x: nat, y: nat, z: nat)
    requires x < 2 && y < 2 && z < 2
    ensures var i := x * 4 + y * 2 + z; i < 8 && i / 4 == x && (i / 2) % 2 == y && i % 2 == z
  {
    if x == 0 {
      if y == 0 { if z == 0 {} else {} } else { if z == 0 {} else {} }
    } else {
      if y == 0 { if z == 0 {} else {} } else { if z == 0 {} else {} }
    }
  }

  /**
   * GetFrustumCornersWorldSpace (lines 35-49): exactly eight corners, the
   * one at x*4 + y*2 + z unprojected from NDC (2x-1, 2y-1, 2z-1).
   */
  method FrustumCornersWorldSpace(ops: GlmOps, proj: Mat4, view: Mat4) returns (corners: seq<Vec4>)
    ensures corners == WorldCorners(ops.inverse(MatMul(proj, view)))
  {
    var invProjView := ops.inverse(MatMul(proj, view));
    corners := [];
    var x := 0;
    while x < 2
      invariant 0 <= x <= 2 && |corners| == x * 4
      invariant forall i :: 0 <= i < |corners| ==> corners[i] == WorldCorner(invProjView, i)
    {
      var y := 0;
      while y < 2
        invariant 0 <= y <= 2 && |corners| == x * 4 + y * 2
        invariant forall i :: 0 <= i < |corners| ==> corners[i] == WorldCorner(invProjView, i)
      {
        var z := 0;
        while z < 2
          invariant 0 <= z <= 2 && |corners| == x * 4 + y * 2 + z
          invariant forall i :: 0 <= i < |corners| ==> corners[i] == WorldCorner(invProjView, i)
        {
          CornerIndex(x, y, z);
          var xyz := Vec3(2.0 * (x as real) - 1.0, 2.0 * (y as real) - 1.0, 2.0 * (z as real) - 1.0);
          assert Point(xyz) == NdcCorner(x * 4 + y * 2 + z);
          var pt := MulVec(invProjView, Point(xyz));
          corners := corners + [Homogenize(pt)];
          z := z + 1;
        }
        y := y + 1;
      }
      x := x + 1;
    }
    assert corners == WorldCorners(invProjView);
  }

  // ------------------------------------------------------------- fitting

  /** The sum of the xyz parts of cs[..n]. */
  function SumXyz(cs: seq<Vec4>, n: nat): Vec3
    requires n <= |cs|
  {
    if n == 0 then Vec3(0.0, 0.0, 0.0) else Add3(SumXyz(cs, n - 1), Xyz(cs[n - 1]))
  }

  /** The mean of the xyz parts of the eight corners. */
  function Center(cs: seq<Vec4>): (c: Vec3)
    requires |cs| == 8
    ensures Scale3(c, 8.0) == SumXyz(cs, 8)
  {
    var s := SumXyz(cs, 8);
    Vec3(s.x / 8.0, s.y / 8.0, s.z / 8.0)
  }

  /** Running minimum of the points, started at float max as the loop starts it. */
  function LowOf(ps: seq<Vec3>, n: nat): Vec3
    requires n <= |ps|
  {
    if n == 0 then Vec3(FltMax, FltMax, FltMax) else Min3(LowOf(ps, n - 1), ps[n - 1])
  }

  /** Running maximum of the points, started at float lowest. */
  function HighOf(ps: seq<Vec3>, n: nat): Vec3
    requires n <= |ps|
  {
    if n == 0 then Vec3(-FltMax, -FltMax, -FltMax) else Max3(HighOf(ps, n - 1), ps[n - 1])
  }

  /** The bounds folded over ps[..n] contain every point of ps[..n]. */
  lemma {:induction false} LowHighContain(ps: seq<Vec3>, n: nat)
    requires n <= |ps|
    ensures forall j :: 0 <= j < n ==> Le3(LowOf(ps, n), ps[j]) && Le3(ps[j], HighOf(ps, n))
  {
    if n > 0 {
      LowHighContain(ps, n - 1);
    }
  }

  /** The corners in light space: `lightView * v`, xyz part. */
  function LightSpace(lightView: Mat4, cs: seq<Vec4>): (ps: seq<Vec3>)
    ensures |ps| == |cs|
    ensures forall j :: 0 <= j < |cs| ==> ps[j] == Xyz(MulVec(lightView, cs[j]))
  {
    seq(|cs|, j requires 0 <= j < |cs| => Xyz(MulVec(lightView, cs[j])))
  }

  /**
   * The z adjustment: minZ is multiplied or divided by 1, maxZ divided by
   * 10 when negative and multiplied by 10 otherwise.
   */
  function AdjustMinZ(minZ: real): real { if minZ < 0.0 then minZ * 1.0 else minZ / 1.0 }
  function AdjustMaxZ(maxZ: real): real { if maxZ < 0.0 then maxZ / 10.0 else maxZ * 10.0 }

  /** The adjustment leaves minZ as it is and never lowers maxZ. */
  lemma ZAdjustment(minZ: real, maxZ: real)
    ensures AdjustMinZ(minZ) == minZ
    ensures AdjustMaxZ(maxZ) >= maxZ
    ensures maxZ > 0.0 ==> AdjustMaxZ(maxZ) > maxZ
  {
  }

  /** The camera data the cascades read (Camera.h). */
  datatype CameraInfo = CameraInfo(nearPlane: real, fov: real, aspectRatio: real, view: Mat4, up: Vec3)

  /** The near plane of cascade i: the camera's for the first, else the previous split. */
  function CascadeNear(cam: CameraInfo, splits: seq<real>, i: nat): real
    requires i < |splits|
  {
    if i == 0 then cam.nearPlane else splits[i - 1]
  }

  /** The light view of a slice: looking at the corners' mean from lightDir away. */
  function LightView(ops: GlmOps, cam: CameraInfo, lightDir: Vec3, cs: seq<Vec4>): Mat4
    requires |cs| == 8
  {
    var center := Center(cs);
    ops.lookAt(Add3(center, lightDir), center, cam.up)
  }

  /** The corners of the slice [nearPlane, farPlane] of the camera frustum. */
  function SliceCorners(ops: GlmOps, cam: CameraInfo, nearPlane: real, farPlane: real): seq<Vec4>
  {
    var proj := ops.perspective(ops.radians(cam.fov), cam.aspectRatio, nearPlane, farPlane);
    WorldCorners(ops.inverse(MatMul(proj, cam.view)))
  }

  /**
   * The light-space matrix of one slice: the orthographic box around the
   * light-space corners (z adjusted), times the light view.
   */
  function SliceMatrix(ops: GlmOps, cam: CameraInfo, lightDir: Vec3, nearPlane: real, farPlane: real): Mat4
  {
    var cs := SliceCorners(ops, cam, nearPlane, farPlane);
    var lightView := LightView(ops, cam, lightDir, cs);
    var ps := LightSpace(lightView, cs);
    var lo, hi := LowOf(ps, 8), HighOf(ps, 8);
    MatMul(ops.ortho(lo.x, hi.x, lo.y, hi.y, -AdjustMaxZ(hi.z), -AdjustMinZ(lo.z)), lightView)
  }

  /** Matrix i of GetLightSpaceMatrices. */
  function CascadeMatrix(ops: GlmOps, cam: CameraInfo, lightDir: Vec3, splits: seq<real>, i: nat): Mat4
    requires i < |splits|
  {
    SliceMatrix(ops, cam, lightDir, CascadeNear(cam, splits, i), splits[i])
  }

  /** Consecutive cascades share their boundary: cascade i starts where i-1 ends. */
  lemma CascadesShareBoundaries(cam: CameraInfo, splits: seq<real>, i: nat)
    requires 0 < i < |splits|
    ensures CascadeNear(cam, splits, i) == splits[i - 1]
    ensures CascadeNear(cam, splits, 0) == cam.nearPlane
  {
  }

  /**
   * The fitted box holds every light-space corner of its slice, also after
   * the z adjustment.
   */
  lemma SliceBoxContainsCorners(ops: GlmOps, cam: CameraInfo, lightDir: Vec3, nearPlane: real, farPlane: real)
    ensures var cs := SliceCorners(ops, cam, nearPlane, farPlane);
      var ps := LightSpace(LightView(ops, cam, lightDir, cs), cs);
      var lo, hi := LowOf(ps, 8), HighOf(ps, 8);
      (forall j :: 0 <= j < 8 ==>
        lo.x <= ps[j].x <= hi.x && lo.y <= ps[j].y <= hi.y &&
        AdjustMinZ(lo.z) <= ps[j].z <= AdjustMaxZ(hi.z))
  {
    var cs := SliceCorners(ops, cam, nearPlane, farPlane);
    var ps := LightSpace(LightView(ops, cam, lightDir, cs), cs);
    LowHighContain(ps, 8);
    ZAdjustment(LowOf(ps, 8).z, HighOf(ps, 8).z);
  }

  // --------------------------------------------------------------- class

  /** `m_texDepth` and `m_fbos` hold GL names; `nextName` stands for GL's name allocator. */
  class CSMBuffer {
    var width: nat
    var height: nat
    var cascadeSplits: seq<real>
    var fbos: seq<nat>
    var texDepth: nat
    var nextName: nat

    /** One framebuffer per cascade, each a name not handed out before. */
    ghost predicate Valid()
      reads this
    {
      |fbos| == |cascadeSplits| &&
      (forall i :: 0 <= i < |fbos| ==> fbos[i] < nextName) &&
      (forall i, j :: 0 <= i < j < |fbos| ==> fbos[i] != fbos[j])
    }

    function GetFrustumCount(): (n: nat)
      reads this
      ensures n == |cascadeSplits|
    {
      |cascadeSplits|
    }

    constructor (width: nat, height: nat, cascadeSplits: seq<real>)
      ensures Valid()
      ensures this.width == width && this.height == height && this.cascadeSplits == cascadeSplits
    {
      this.width := width;
      this.height := height;
      this.cascadeSplits := cascadeSplits;
      fbos := [];
      texDepth := 0;
      nextName := 1;
      new;
      Create();
    }

    /**
     * Create (lines 129-173): with no cascade it reports the error and
     * allocates nothing; otherwise one new framebuffer per cascade and a
     * depth texture array.
     */
    method Create()
      requires fbos == []
      modifies this
      ensures Valid()
      ensures width == old(width) && height == old(height) && cascadeSplits == old(cascadeSplits)
      ensures cascadeSplits == [] ==> fbos == [] && texDepth == old(texDepth) && nextName == old(nextName)
      ensures cascadeSplits != [] ==> forall i :: 0 <= i < |fbos| ==> old(nextName) <= fbos[i]
      ensures cascadeSplits != [] ==> texDepth != 0
    {
      if GetFrustumCount() == 0 {
        // Error: CSMBuffer requires at least one cascade.
        return;
      }
      texDepth := nextName + GetFrustumCount();
      var names: seq<nat> := [];
      while |names| < GetFrustumCount()
        modifies {}
        invariant |names| <= |cascadeSplits|
        invariant forall i :: 0 <= i < |names| ==> names[i] == nextName + i
      {
        names := names + [nextName + |names|];
      }
      fbos := names;
      nextName := texDepth + 1;
    }

    /** Destroy (lines 174-179): deletes the framebuffers and the texture. */
    method Destroy()
      modifies this
      ensures fbos == [] && texDepth == 0
      ensures width == old(width) && height == old(height) && cascadeSplits == old(cascadeSplits)
      ensures nextName == old(nextName)
    {
      fbos := [];
      texDepth := 0;
    }

    /** SetCascades (lines 22-26): store the splits, then recreate. */
    method SetCascades(cascadeSplits: seq<real>)
      modifies this
      ensures Valid()
      ensures this.cascadeSplits == cascadeSplits && width == old(width) && height == old(height)
    {
      this.cascadeSplits := cascadeSplits;
      Destroy();
      Create();
    }

    /** Resize (lines 28-33): store the size, then recreate. */
    method Resize(width: nat, height: nat)
      modifies this
      ensures Valid()
      ensures this.width == width && this.height == height && cascadeSplits == old(cascadeSplits)
    {
      this.width := width;
      this.height := height;
      Destroy();
      Create();
    }

    /**
     * ResizeAndSetCascades, called at Renderer.cpp:341-350 but declared and
     * defined nowhere in the sources: assumed to store size and splits and
     * recreate once, leaving the fields Resize then SetCascades would leave.
     */
    method ResizeAndSetCascades(width: nat, height: nat, cascadeSplits: seq<real>)
      modifies this
      ensures Valid()
      ensures this.width == width && this.height == height && this.cascadeSplits == cascadeSplits
    {
      this.width := width;
      this.height := height;
      this.cascadeSplits := cascadeSplits;
      Destroy();
      Create();
    }

    /**
     * GetLightSpaceMatrices (lines 82-126): one matrix per split, matrix i
     * fitted around the slice [CascadeNear(i), split i].
     */
    method GetLightSpaceMatrices(ops: GlmOps, cam: CameraInfo, lightDir: Vec3) returns (ms: seq<Mat4>)
      ensures |ms| == GetFrustumCount()
      ensures forall i :: 0 <= i < |ms| ==> ms[i] == CascadeMatrix(ops, cam, lightDir, cascadeSplits, i)
    {
      ms := [];
      var i := 0;
      while i < GetFrustumCount()
        invariant 0 <= i <= |cascadeSplits| && |ms| == i
        invariant forall j :: 0 <= j < i ==> ms[j] == CascadeMatrix(ops, cam, lightDir, cascadeSplits, j)
      {
        var nearPlane := if i == 0 then cam.nearPlane else cascadeSplits[i - 1];
        var farPlane := cascadeSplits[i];
        var m := FitSlice(ops, cam, lightDir, nearPlane, farPlane);
        ms := ms + [m];
        i := i + 1;
      }
    }
  }

  /** The body of the cascade loop (lines 84-119) for one slice. */
  method FitSlice(ops: GlmOps, cam: CameraInfo, lightDir: Vec3, nearPlane: real, farPlane: real) returns (m: Mat4)
    ensures m == SliceMatrix(ops, cam, lightDir, nearPlane, farPlane)
  {
    var proj := ops.perspective(ops.radians(cam.fov), cam.aspectRatio, nearPlane, farPlane);
    var frustumCorners := FrustumCornersWorldSpace(ops, proj, cam.view);
    var center := CornerCenter(frustumCorners);
    var lightView := ops.lookAt(Add3(center, lightDir), center, cam.up);
    var minX, maxX, minY, maxY, minZ, maxZ := LightBounds(lightView, frustumCorners);
    ghost var cs := SliceCorners(ops, cam, nearPlane, farPlane);
    ghost var lo, hi := LowOf(LightSpace(lightView, cs), 8), HighOf(LightSpace(lightView, cs), 8);
    assert lightView == LightView(ops, cam, lightDir, cs);
    assert Vec3(minX, minY, minZ) == lo && Vec3(maxX, maxY, maxZ) == hi;

    minZ, maxZ := AdjustDepth(minZ, maxZ);

    var lightProjection := ops.ortho(minX, maxX, minY, maxY, -maxZ, -minZ);
    assert lightProjection == ops.ortho(lo.x, hi.x, lo.y, hi.y, -AdjustMaxZ(hi.z), -AdjustMinZ(lo.z));
    m := MatMul(lightProjection, lightView);
  }

  /** The z adjustment of lines 112-118. */
  method AdjustDepth(minZ0: real, maxZ0: real) returns (minZ: real, maxZ: real)
    ensures minZ == AdjustMinZ(minZ0) && maxZ == AdjustMaxZ(maxZ0)
  {
    minZ, maxZ := minZ0, maxZ0;
    // adjust to make nicer/worse shadows
    var zMult := 1.0;
    if minZ < 0.0 { minZ := minZ * zMult; } else { minZ := minZ / zMult; }
    zMult := 10.0;
    if maxZ < 0.0 { maxZ := maxZ / zMult; } else { maxZ := maxZ * zMult; }
  }

  /** The centre loop of lines 87-91: the corners' xyz summed, then divided by 8. */
  method CornerCenter(corners: seq<Vec4>) returns (center: Vec3)
    requires |corners| == 8
    ensures center == Center(corners)
  {
    var sum := Vec3(0.0, 0.0, 0.0);
    var k := 0;
    while k < |corners|
      invariant 0 <= k <= 8 && sum == SumXyz(corners, k)
    {
      sum := Add3(sum, Xyz(corners[k]));
      k := k + 1;
    }
    center := Vec3(sum.x / 8.0, sum.y / 8.0, sum.z / 8.0);
  }

  /** The bounds loop of lines 95-110: the box around the corners in light space. */
  method LightBounds(lightView: Mat4, corners: seq<Vec4>) returns (minX: real, maxX: real, minY: real, maxY: real, minZ: real, maxZ: real)
    ensures var ps := LightSpace(lightView, corners);
      Vec3(minX, minY, minZ) == LowOf(ps, |corners|) && Vec3(maxX, maxY, maxZ) == HighOf(ps, |corners|)
  {
    ghost var ps := LightSpace(lightView, corners);
    maxX, minX, maxY, minY, maxZ, minZ := -FltMax, FltMax, -FltMax, FltMax, -FltMax, FltMax;
    var k := 0;
    while k < |corners|
      invariant 0 <= k <= |corners|
      invariant Vec3(minX, minY, minZ) == LowOf(ps, k) && Vec3(maxX, maxY, maxZ) == HighOf(ps, k)
    {
      var trf := MulVec(lightView, corners[k]);
      maxX := Max(maxX, trf.x);
      minX := Min(minX, trf.x);
      maxY := Max(maxY, trf.y);
      minY := Min(minY, trf.y);
      maxZ := Max(maxZ, trf.z);
      minZ := Min(minZ, trf.z);
      k := k + 1;
    }
  }
}
