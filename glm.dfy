// Linear algebra over `real`, laid out as glm lays it out: a `Mat4` is four
// columns, `m[c][r]` is row r of column c, and `m * v` is the sum of the
// columns weighted by the components of v.  The operations glm provides
// beyond this (inverse, perspective, lookAt, ortho, radians, normalize,
// cross, the engine's computeModelMatrix) are not defined here: they are
// handed to the model as the function values of a `GlmOps` record.

module Glm {

  datatype Vec2 = Vec2(x: real, y: real)
  datatype Vec3 = Vec3(x: real, y: real, z: real)
  datatype Vec4 = Vec4(x: real, y: real, z: real, w: real)

  /** Column-major 4x4 matrix: `c3` is glm's `m[3]`, the translation column. */
  datatype Mat4 = Mat4(c0: Vec4, c1: Vec4, c2: Vec4, c3: Vec4)

  function Add3(a: Vec3, b: Vec3): Vec3 { Vec3(a.x + b.x, a.y + b.y, a.z + b.z) }
  function Sub3(a: Vec3, b: Vec3): Vec3 { Vec3(a.x - b.x, a.y - b.y, a.z - b.z) }
  function Mul3(a: Vec3, b: Vec3): Vec3 { Vec3(a.x * b.x, a.y * b.y, a.z * b.z) }
  function Scale3(a: Vec3, k: real): Vec3 { Vec3(a.x * k, a.y * k, a.z * k) }
  function Dot3(a: Vec3, b: Vec3): real { a.x * b.x + a.y * b.y + a.z * b.z }

  /** Squared euclidean distance; `length(a - b) < e` iff `DistSq(a, b) < e * e` for e > 0. */
  function DistSq3(a: Vec3, b: Vec3): real { Dot3(Sub3(a, b), Sub3(a, b)) }

  function Min(a: real, b: real): real { if b < a then b else a }
  function Max(a: real, b: real): real { if a < b then b else a }
  function Min3(a: Vec3, b: Vec3): Vec3 { Vec3(Min(a.x, b.x), Min(a.y, b.y), Min(a.z, b.z)) }
  function Max3(a: Vec3, b: Vec3): Vec3 { Vec3(Max(a.x, b.x), Max(a.y, b.y), Max(a.z, b.z)) }

  /** Componentwise a <= b. */
  predicate Le3(a: Vec3, b: Vec3) { a.x <= b.x && a.y <= b.y && a.z <= b.z }

  function Add4(a: Vec4, b: Vec4): Vec4 { Vec4(a.x + b.x, a.y + b.y, a.z + b.z, a.w + b.w) }
  function Sub4(a: Vec4, b: Vec4): Vec4 { Vec4(a.x - b.x, a.y - b.y, a.z - b.z, a.w - b.w) }
  function Scale4(a: Vec4, k: real): Vec4 { Vec4(a.x * k, a.y * k, a.z * k, a.w * k) }
  function Dot4(a: Vec4, b: Vec4): real { a.x * b.x + a.y * b.y + a.z * b.z + a.w * b.w }

  /** `glm::vec4(p, 1.0f)`. */
  function Point(p: Vec3): Vec4 { Vec4(p.x, p.y, p.z, 1.0) }
  /** `glm::vec3(v)`: drops w. */
  function Xyz(v: Vec4): Vec3 { Vec3(v.x, v.y, v.z) }

  /** `m * v`. */
  function MulVec(m: Mat4, v: Vec4): Vec4 {
    Add4(Add4(Scale4(m.c0, v.x), Scale4(m.c1, v.y)), Add4(Scale4(m.c2, v.z), Scale4(m.c3, v.w)))
  }

  /** `a * b`: column j of the product is `a * b[j]`. */
  function MatMul(a: Mat4, b: Mat4): Mat4 {
    Mat4(MulVec(a, b.c0), MulVec(a, b.c1), MulVec(a, b.c2), MulVec(a, b.c3))
  }

  /** Row r of m, i.e. `glm::transpose(m)[r]`. */
  function Row(m: Mat4, r: nat): Vec4
    requires r < 4
  {
    if r == 0 then Vec4(m.c0.x, m.c1.x, m.c2.x, m.c3.x)
    else if r == 1 then Vec4(m.c0.y, m.c1.y, m.c2.y, m.c3.y)
    else if r == 2 then Vec4(m.c0.z, m.c1.z, m.c2.z, m.c3.z)
    else Vec4(m.c0.w, m.c1.w, m.c2.w, m.c3.w)
  }

  function Transpose(m: Mat4): Mat4 { Mat4(Row(m, 0), Row(m, 1), Row(m, 2), Row(m, 3)) }

  /** Component r of `m * v` is row r of m dotted with v. */
  lemma MulVecRow(m: Mat4, v: Vec4)
    ensures MulVec(m, v).x == Dot4(Row(m, 0), v)
    ensures MulVec(m, v).y == Dot4(Row(m, 1), v)
    ensures MulVec(m, v).z == Dot4(Row(m, 2), v)
    ensures MulVec(m, v).w == Dot4(Row(m, 3), v)
  {
  }

  /** `m[3][3]`: the cell the renderer uses to carry a mesh instance's highlight id. */
  function HighlightCell(m: Mat4): real { m.c3.w }

  /** `m` with `m[3][3] = h`. */
  function WithHighlightCell(m: Mat4, h: real): (r: Mat4)
    ensures HighlightCell(r) == h
    ensures Row(r, 0) == Row(m, 0) && Row(r, 1) == Row(m, 1) && Row(r, 2) == Row(m, 2)
  {
    m.(c3 := m.c3.(w := h))
  }

  /** The all-zero matrix. */
  const Zero4: Mat4 := Mat4(Vec4(0.0, 0.0, 0.0, 0.0), Vec4(0.0, 0.0, 0.0, 0.0),
                            Vec4(0.0, 0.0, 0.0, 0.0), Vec4(0.0, 0.0, 0.0, 0.0))

  /** `std::numeric_limits<float>::max()`. */
  const FltMax: real := 340282346638528859811704183484516925440.0

  /**
   * The glm (and engine) functions the model uses without defining them.
   * `perspective(fovy, aspect, near, far)`, `ortho(l, r, b, t, n, f)`,
   * `lookAt(eye, center, up)`, `modelMatrix(globalPos, localPos, globalRot,
   * localRot, scale)` is computeModelMatrix, `normalizeCross(a, b, c)` is
   * normalize(cross(b - a, c - a)) and `hasNan` is any(isnan(v)).
   */
  datatype GlmOps = GlmOps(
    inverse: Mat4 -> Mat4,
    perspective: (real, real, real, real) -> Mat4,
    lookAt: (Vec3, Vec3, Vec3) -> Mat4,
    ortho: (real, real, real, real, real, real) -> Mat4,
    radians: real -> real,
    modelMatrix: (Vec3, Vec3, Vec3, Vec3, Vec3) -> Mat4,
    normalizeCross: (Vec3, Vec3, Vec3) -> Vec3,
    hasNan: Vec3 -> bool)

  function Radians3(ops: GlmOps, v: Vec3): Vec3 {
    Vec3(ops.radians(v.x), ops.radians(v.y), ops.radians(v.z))
  }
}
