// View-frustum culling of axis-aligned boxes (FrustumCulling.cpp).
//
// The six clip planes are read off the rows of the projection-view matrix;
// a box is rejected when all eight of its corners lie strictly behind one
// plane.  The overload that takes a model matrix transforms the corners,
// takes their componentwise bounds and tests that box instead.

module FrustumCulling {
  import opened Glm

  // ---------------------------------------------------------------- planes

  /** The planes in the order left, right, bottom, top, near, far. */
  function Planes(projxview: Mat4): (p: seq<Vec4>)
    ensures |p| == 6
    ensures p[0] == Add4(Row(projxview, 3), Row(projxview, 0))
    ensures p[1] == Sub4(Row(projxview, 3), Row(projxview, 0))
    ensures p[2] == Add4(Row(projxview, 3), Row(projxview, 1))
    ensures p[3] == Sub4(Row(projxview, 3), Row(projxview, 1))
    ensures p[4] == Add4(Row(projxview, 3), Row(projxview, 2))
    ensures p[5] == Sub4(Row(projxview, 3), Row(projxview, 2))
  {
    var t := Transpose(projxview);
    [Add4(t.c3, t.c0), Sub4(t.c3, t.c0), Add4(t.c3, t.c1),
     Sub4(t.c3, t.c1), Add4(t.c3, t.c2), Sub4(t.c3, t.c2)]
  }

  /**
   * What the planes mean: for a point p with clip coordinates c = projxview * p,
   * the planes measure c.w + c.x, c.w - c.x, c.w + c.y, c.w - c.y, c.w + c.z and
   * c.w - c.z, so p is on or inside all six iff -c.w <= c.x, c.y, c.z <= c.w.
   */
  lemma PlanesMeasureClipSpace(projxview: Mat4, p: Vec4)
    ensures var c := MulVec(projxview, p); var g := Planes(projxview);
      Dot4(g[0], p) == c.w + c.x && Dot4(g[1], p) == c.w - c.x &&
      Dot4(g[2], p) == c.w + c.y && Dot4(g[3], p) == c.w - c.y &&
      Dot4(g[4], p) == c.w + c.z && Dot4(g[5], p) == c.w - c.z
  {
    MulVecRow(projxview, p);
    var r0, r1, r2, r3 := Row(projxview, 0), Row(projxview, 1), Row(projxview, 2), Row(projxview, 3);
    DotAddSub(r3, r0, p);
    DotAddSub(r3, r1, p);
    DotAddSub(r3, r2, p);
  }

  lemma DotAddSub(a: Vec4, b: Vec4, p: Vec4)
    ensures Dot4(Add4(a, b), p) == Dot4(a, p) + Dot4(b, p)
    ensures Dot4(Sub4(a, b), p) == Dot4(a, p) - Dot4(b, p)
  {
    assert (a.x + b.x) * p.x == a.x * p.x + b.x * p.x;
    assert (a.y + b.y) * p.y == a.y * p.y + b.y * p.y;
    assert (a.z + b.z) * p.z == a.z * p.z + b.z * p.z;
    assert (a.w + b.w) * p.w == a.w * p.w + b.w * p.w;
    assert (a.x - b.x) * p.x == a.x * p.x - b.x * p.x;
    assert (a.y - b.y) * p.y == a.y * p.y - b.y * p.y;
    assert (a.z - b.z) * p.z == a.z * p.z - b.z * p.z;
    assert (a.w - b.w) * p.w == a.w * p.w - b.w * p.w;
  }

  // ----------------------------------------------------------- plain test

  /**
   * Corner k of the box [mn, mx] in the order the plain test lists them:
   * bit 0 of k picks x, bit 1 picks y, bit 2 picks z (0 = min, 1 = max).
   */
  function Corner(mn: Vec3, mx: Vec3, k: nat): Vec3
    requires k < 8
  {
    Vec3(if k % 2 == 0 then mn.x else mx.x,
         if (k / 2) % 2 == 0 then mn.y else mx.y,
         if k / 4 == 0 then mn.z else mx.z)
  }

  /** All eight corners of the box lie strictly behind plane g. */
  predicate Behind(g: Vec4, mn: Vec3, mx: Vec3) {
    forall k :: 0 <= k < 8 ==> Dot4(g, Point(Corner(mn, mx, k))) < 0.0
  }

  /** The plain IsAabbVisible: no plane has the whole box behind it. */
  predicate AabbVisible(planes: seq<Vec4>, mn: Vec3, mx: Vec3) {
    forall i :: 0 <= i < |planes| ==> !Behind(planes[i], mn, mx)
  }

  // ------------------------------------------------ properties (plain test)

  lemma MulLe(a: real, x: real, y: real)
    requires x <= y
    ensures a >= 0.0 ==> a * x <= a * y
    ensures a <= 0.0 ==> a * y <= a * x
  {
    assert a * y - a * x == a * (y - x);
  }

  /**
   * Over a box, the affine function p |-> dot(g, (p, 1)) is largest at the corner
   * that takes the max side on every axis where g is non-negative.
   */
  lemma MaxCorner(g: Vec4, mn: Vec3, mx: Vec3, p: Vec3) returns (k: nat)
    requires Le3(mn, p) && Le3(p, mx)
    ensures k < 8 && Dot4(g, Point(p)) <= Dot4(g, Point(Corner(mn, mx, k)))
  {
    MulLe(g.x, mn.x, p.x); MulLe(g.x, p.x, mx.x);
    MulLe(g.y, mn.y, p.y); MulLe(g.y, p.y, mx.y);
    MulLe(g.z, mn.z, p.z); MulLe(g.z, p.z, mx.z);
    var kx: nat := if g.x >= 0.0 then 1 else 0;
    var ky: nat := if g.y >= 0.0 then 1 else 0;
    var kz: nat := if g.z >= 0.0 then 1 else 0;
    k := kx + 2 * ky + 4 * kz;
    assert k % 2 == kx && (k / 2) % 2 == ky && k / 4 == kz;
    var c := Vec3(if kx == 0 then mn.x else mx.x, if ky == 0 then mn.y else mx.y, if kz == 0 then mn.z else mx.z);
    assert Corner(mn, mx, k) == c;
    DotLe(g, p, c);
  }

  lemma DotLe(g: Vec4, p: Vec3, c: Vec3)
    requires g.x * p.x <= g.x * c.x && g.y * p.y <= g.y * c.y && g.z * p.z <= g.z * c.z
    ensures Dot4(g, Point(p)) <= Dot4(g, Point(c))
  {
  }

  /** A box with every corner behind g has every point behind g. */
  lemma BehindEveryPoint(g: Vec4, mn: Vec3, mx: Vec3, p: Vec3)
    requires Behind(g, mn, mx) && Le3(mn, p) && Le3(p, mx)
    ensures Dot4(g, Point(p)) < 0.0
  {
    var k := MaxCorner(g, mn, mx, p);
  }

  /** A non-empty box inside a rejected box is rejected too. */
  lemma ContainedBoxRejected(planes: seq<Vec4>, mn: Vec3, mx: Vec3, mn2: Vec3, mx2: Vec3)
    requires Le3(mn, mn2) && Le3(mn2, mx2) && Le3(mx2, mx)
    requires !AabbVisible(planes, mn, mx)
    ensures !AabbVisible(planes, mn2, mx2)
  {
    var i :| 0 <= i < |planes| && Behind(planes[i], mn, mx);
    forall k | 0 <= k < 8
      ensures Dot4(planes[i], Point(Corner(mn2, mx2, k))) < 0.0
    {
      BehindEveryPoint(planes[i], mn, mx, Corner(mn2, mx2, k));
    }
  }

  /** No false negatives: a box holding a point on or inside every plane is visible. */
  lemma InsidePointVisible(planes: seq<Vec4>, mn: Vec3, mx: Vec3, p: Vec3)
    requires Le3(mn, p) && Le3(p, mx)
    requires forall i :: 0 <= i < |planes| ==> Dot4(planes[i], Point(p)) >= 0.0
    ensures AabbVisible(planes, mn, mx)
  {
    forall i | 0 <= i < |planes| ensures !Behind(planes[i], mn, mx) {
      if Behind(planes[i], mn, mx) {
        BehindEveryPoint(planes[i], mn, mx, p);
      }
    }
  }

  // ------------------------------------------------------ model overload

  /** The eight model-space corners, in the order the model overload lists them. */
  function ModelCorners(mn: Vec3, mx: Vec3): seq<Vec3> {
    [Vec3(mn.x, mn.y, mn.z), Vec3(mn.x, mx.y, mn.z), Vec3(mn.x, mn.y, mx.z), Vec3(mn.x, mx.y, mx.z),
     Vec3(mx.x, mn.y, mn.z), Vec3(mx.x, mx.y, mn.z), Vec3(mx.x, mn.y, mx.z), Vec3(mx.x, mx.y, mx.z)]
  }

  /** `glm::vec3(model * glm::vec4(c, 1))` for each corner. */
  function TransformedCorners(model: Mat4, mn: Vec3, mx: Vec3): (cs: seq<Vec3>)
    ensures |cs| == 8
  {
    var m := ModelCorners(mn, mx);
    seq(8, k requires 0 <= k < 8 => Xyz(MulVec(model, Point(m[k]))))
  }

  /** Componentwise minimum of cs[..n], folded from cs[0] as the loop does. */
  function MinOf(cs: seq<Vec3>, n: nat): Vec3
    requires 1 <= n <= |cs|
  {
    if n == 1 then cs[0] else Min3(MinOf(cs, n - 1), cs[n - 1])
  }

  /** Componentwise maximum of cs[..n], folded from cs[0] as the loop does. */
  function MaxOf(cs: seq<Vec3>, n: nat): Vec3
    requires 1 <= n <= |cs|
  {
    if n == 1 then cs[0] else Max3(MaxOf(cs, n - 1), cs[n - 1])
  }

  /** The fold bounds every point it has seen, and the bounds are ordered. */
  lemma {:induction false} BoundsContain(cs: seq<Vec3>, n: nat)
    requires 1 <= n <= |cs|
    ensures forall j :: 0 <= j < n ==> Le3(MinOf(cs, n), cs[j]) && Le3(cs[j], MaxOf(cs, n))
    ensures Le3(MinOf(cs, n), MaxOf(cs, n))
  {
    if n > 1 {
      BoundsContain(cs, n - 1);
    }
  }

  /** The model overload: the plain test on the bounds of the transformed corners. */
  predicate AabbVisibleModel(planes: seq<Vec4>, mn: Vec3, mx: Vec3, model: Mat4) {
    var cs := TransformedCorners(model, mn, mx);
    AabbVisible(planes, MinOf(cs, 8), MaxOf(cs, 8))
  }

  /**
   * Only the xyz of the transformed corners is used, so the model's bottom row,
   * and with it the highlight cell m[3][3], does not affect the outcome.
   */
  lemma ModelTestIgnoresBottomRow(planes: seq<Vec4>, mn: Vec3, mx: Vec3, m1: Mat4, m2: Mat4)
    requires Row(m1, 0) == Row(m2, 0) && Row(m1, 1) == Row(m2, 1) && Row(m1, 2) == Row(m2, 2)
    ensures AabbVisibleModel(planes, mn, mx, m1) == AabbVisibleModel(planes, mn, mx, m2)
  {
    var c1, c2 := TransformedCorners(m1, mn, mx), TransformedCorners(m2, mn, mx);
    forall k | 0 <= k < 8 ensures c1[k] == c2[k] {
      var p := Point(ModelCorners(mn, mx)[k]);
      MulVecRow(m1, p);
      MulVecRow(m2, p);
    }
    assert c1 == c2;
  }

  /** In particular the highlight value written into m[3][3] never changes the test. */
  lemma HighlightCellIrrelevant(planes: seq<Vec4>, mn: Vec3, mx: Vec3, m: Mat4, h: real)
    ensures AabbVisibleModel(planes, mn, mx, WithHighlightCell(m, h)) == AabbVisibleModel(planes, mn, mx, m)
  {
    ModelTestIgnoresBottomRow(planes, mn, mx, WithHighlightCell(m, h), m);
  }

  // ------------------------------------------------------------- the class

  class Frustum {
    /** `m_planes`: left, right, bottom, top, near, far. */
    const planes: array<Vec4>

    constructor (projxview: Mat4)
      ensures planes.Length == 6 && planes[..] == Planes(projxview)
    {
      var t := Transpose(projxview);
      var a := new Vec4[6];
      a[0] := Add4(t.c3, t.c0);
      a[1] := Sub4(t.c3, t.c0);
      a[2] := Add4(t.c3, t.c1);
      a[3] := Sub4(t.c3, t.c1);
      a[4] := Add4(t.c3, t.c2);
      a[5] := Sub4(t.c3, t.c2);
      planes := a;
    }

    /** The plain IsAabbVisible: false iff some plane has all eight corners behind it. */
    method IsAabbVisible(mn: Vec3, mx: Vec3) returns (visible: bool)
      ensures visible == AabbVisible(planes[..], mn, mx)
    {
      var i := 0;
      while i < planes.Length
        invariant 0 <= i <= planes.Length
        invariant forall j :: 0 <= j < i ==> !Behind(planes[j], mn, mx)
      {
        var g := planes[i];
        if Dot4(g, Vec4(mn.x, mn.y, mn.z, 1.0)) < 0.0 &&
           Dot4(g, Vec4(mx.x, mn.y, mn.z, 1.0)) < 0.0 &&
           Dot4(g, Vec4(mn.x, mx.y, mn.z, 1.0)) < 0.0 &&
           Dot4(g, Vec4(mx.x, mx.y, mn.z, 1.0)) < 0.0 &&
           Dot4(g, Vec4(mn.x, mn.y, mx.z, 1.0)) < 0.0 &&
           Dot4(g, Vec4(mx.x, mn.y, mx.z, 1.0)) < 0.0 &&
           Dot4(g, Vec4(mn.x, mx.y, mx.z, 1.0)) < 0.0 &&
           Dot4(g, Vec4(mx.x, mx.y, mx.z, 1.0)) < 0.0
        {
          forall k | 0 <= k < 8 ensures Dot4(g, Point(Corner(mn, mx, k))) < 0.0 {
            if k == 0 {} else if k == 1 {} else if k == 2 {} else if k == 3 {}
            else if k == 4 {} else if k == 5 {} else if k == 6 {} else {}
          }
          assert planes[..][i] == g;
          return false;
        }
        assert Point(Corner(mn, mx, 0)) == Vec4(mn.x, mn.y, mn.z, 1.0);
        assert Point(Corner(mn, mx, 1)) == Vec4(mx.x, mn.y, mn.z, 1.0);
        assert Point(Corner(mn, mx, 2)) == Vec4(mn.x, mx.y, mn.z, 1.0);
        assert Point(Corner(mn, mx, 3)) == Vec4(mx.x, mx.y, mn.z, 1.0);
        assert Point(Corner(mn, mx, 4)) == Vec4(mn.x, mn.y, mx.z, 1.0);
        assert Point(Corner(mn, mx, 5)) == Vec4(mx.x, mn.y, mx.z, 1.0);
        assert Point(Corner(mn, mx, 6)) == Vec4(mn.x, mx.y, mx.z, 1.0);
        assert Point(Corner(mn, mx, 7)) == Vec4(mx.x, mx.y, mx.z, 1.0);
        i := i + 1;
      }
      return true;
    }

    /**
     * The model overload: transform the corners, fold their bounds from corner 0
     * (see BoundsContain for what the fold bounds), then run the plain test.
     */
    method IsAabbVisibleModel(mn: Vec3, mx: Vec3, model: Mat4) returns (visible: bool)
      ensures var cs := TransformedCorners(model, mn, mx);
        visible == AabbVisible(planes[..], MinOf(cs, 8), MaxOf(cs, 8))
    {
      var corners := TransformedCorners(model, mn, mx);
      var newMin, newMax := corners[0], corners[0];
      var i := 1;
      while i < 8
        invariant 1 <= i <= 8
        invariant newMin == MinOf(corners, i) && newMax == MaxOf(corners, i)
      {
        newMin := Min3(newMin, corners[i]);
        newMax := Max3(newMax, corners[i]);
        i := i + 1;
      }
      visible := IsAabbVisible(newMin, newMax);
    }
  }
}
