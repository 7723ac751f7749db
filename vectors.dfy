/**
 * Small fixed-size linear algebra used by the simulator: 3-vectors (the
 * source's pointf3, vecf3 and Vector3f) and 3x3 matrices (Matrix3f), over
 * exact reals.
 */
module Vectors {

  datatype Vec3 = Vec3(x: real, y: real, z: real) {
    /** Component `d`, as `v[d]` in the source. */
    function At(d: nat): real
      requires d < 3
    {
      if d == 0 then x else if d == 1 then y else z
    }
  }

  const Zero: Vec3 := Vec3(0.0, 0.0, 0.0)

  function Add(a: Vec3, b: Vec3): Vec3 {
    Vec3(a.x + b.x, a.y + b.y, a.z + b.z)
  }

  function Sub(a: Vec3, b: Vec3): Vec3 {
    Vec3(a.x - b.x, a.y - b.y, a.z - b.z)
  }

  function Neg(a: Vec3): Vec3 {
    Vec3(-a.x, -a.y, -a.z)
  }

  function Scale(s: real, a: Vec3): Vec3 {
    Vec3(s * a.x, s * a.y, s * a.z)
  }

  function Dot(a: Vec3, b: Vec3): real {
    a.x * b.x + a.y * b.y + a.z * b.z
  }

  /** A 3x3 matrix, stored by rows. */
  datatype Mat3 = Mat3(r0: Vec3, r1: Vec3, r2: Vec3) {
    function Row(d: nat): Vec3
      requires d < 3
    {
      if d == 0 then r0 else if d == 1 then r1 else r2
    }

    /** Entry `(d, e)`, as `m(d, e)` in the source. */
    function At(d: nat, e: nat): real
      requires d < 3 && e < 3
    {
      Row(d).At(e)
    }

    /** The rows as a dense `seq<seq<real>>`, the shape of a dynamic Eigen matrix. */
    function Rows(): seq<seq<real>> {
      [[r0.x, r0.y, r0.z], [r1.x, r1.y, r1.z], [r2.x, r2.y, r2.z]]
    }
  }

  const MZero: Mat3 := Mat3(Zero, Zero, Zero)

  const Identity: Mat3 := Mat3(Vec3(1.0, 0.0, 0.0), Vec3(0.0, 1.0, 0.0), Vec3(0.0, 0.0, 1.0))

  function MScale(s: real, m: Mat3): Mat3 {
    Mat3(Scale(s, m.r0), Scale(s, m.r1), Scale(s, m.r2))
  }

  function MSub(a: Mat3, b: Mat3): Mat3 {
    Mat3(Sub(a.r0, b.r0), Sub(a.r1, b.r1), Sub(a.r2, b.r2))
  }

  function MNeg(m: Mat3): Mat3 {
    Mat3(Neg(m.r0), Neg(m.r1), Neg(m.r2))
  }

  /** The outer product `u * v^T`. */
  function Outer(u: Vec3, v: Vec3): Mat3 {
    Mat3(Scale(u.x, v), Scale(u.y, v), Scale(u.z, v))
  }

  /** The product `m * v`. */
  function MatVec(m: Mat3, v: Vec3): Vec3 {
    Vec3(Dot(m.r0, v), Dot(m.r1, v), Dot(m.r2, v))
  }

  predicate IsSymmetric(m: Mat3) {
    m.r0.y == m.r1.x && m.r0.z == m.r2.x && m.r1.z == m.r2.y
  }

  lemma SymmetricAt(m: Mat3, d: nat, e: nat)
    requires IsSymmetric(m) && d < 3 && e < 3
    ensures m.At(d, e) == m.At(e, d)
  {
  }

  lemma MScaleSymmetric(s: real, m: Mat3)
    requires IsSymmetric(m)
    ensures IsSymmetric(MScale(s, m))
  {
  }

  lemma RowsAt(m: Mat3, d: nat, e: nat)
    requires d < 3 && e < 3
    ensures |m.Rows()| == 3 && |m.Rows()[d]| == 3 && m.Rows()[d][e] == m.At(d, e)
  {
  }
}
