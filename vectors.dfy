/**
 * The parts of Unity's Vector3 and Matrix4x4 that the top-surface builder uses.
 * Single-precision floats are modelled as exact reals; the square root of the
 * platform is a parameter (`sqrt`) because it has no exact definition here.
 */
module Vectors {

  datatype Vec3 = Vec3(x: real, y: real, z: real)

  const Zero := Vec3(0.0, 0.0, 0.0)

  /** Vector3.up */
  const Up := Vec3(0.0, 1.0, 0.0)

  function Add(a: Vec3, b: Vec3): Vec3 { Vec3(a.x + b.x, a.y + b.y, a.z + b.z) }

  function Sub(a: Vec3, b: Vec3): Vec3 { Vec3(a.x - b.x, a.y - b.y, a.z - b.z) }

  function Scale(v: Vec3, k: real): Vec3 { Vec3(v.x * k, v.y * k, v.z * k) }

  function Dot(a: Vec3, b: Vec3): real { a.x * b.x + a.y * b.y + a.z * b.z }

  function Cross(a: Vec3, b: Vec3): Vec3
  {
    Vec3(a.y * b.z - a.z * b.y, a.z * b.x - a.x * b.z, a.x * b.y - a.y * b.x)
  }

  /** Vector3.magnitude */
  function Magnitude(v: Vec3, sqrt: real -> real): real { sqrt(Dot(v, v)) }

  /** Vector3.kEpsilon, below which Vector3.Normalize gives the zero vector. */
  const NormalizeEpsilon: real := 0.00001

  /** Vector3.Normalize: the unit vector along `v`, or zero when `v` is (nearly) zero. */
  function Normalize(v: Vec3, sqrt: real -> real): Vec3
  {
    var m := Magnitude(v, sqrt);
    if m > NormalizeEpsilon then Scale(v, 1.0 / m) else Zero
  }

  /**
   * The upper three rows of a Matrix4x4: each row is a linear part and a
   * translation entry. This is all that MultiplyPoint3x4 reads.
   */
  datatype Matrix3x4 = Matrix3x4(row0: Vec3, row1: Vec3, row2: Vec3, translation: Vec3)

  const Identity := Matrix3x4(Vec3(1.0, 0.0, 0.0), Vec3(0.0, 1.0, 0.0), Vec3(0.0, 0.0, 1.0), Zero)

  /** Matrix4x4.MultiplyPoint3x4: the affine image of a point, translation included. */
  function MultiplyPoint3x4(m: Matrix3x4, p: Vec3): Vec3
  {
    Vec3(Dot(m.row0, p) + m.translation.x, Dot(m.row1, p) + m.translation.y, Dot(m.row2, p) + m.translation.z)
  }

  lemma IdentityFixesPoints(p: Vec3)
    ensures MultiplyPoint3x4(Identity, p) == p
  {
  }

  /** A point transform, unlike a vector transform, moves points by the translation. */
  lemma MultiplyPointIsAffine(m: Matrix3x4, p: Vec3, d: Vec3)
    ensures MultiplyPoint3x4(m, Add(p, d))
         == Add(MultiplyPoint3x4(m, p), MultiplyPoint3x4(Matrix3x4(m.row0, m.row1, m.row2, Zero), d))
  {
  }

  /** Normalize of a vector no longer than the epsilon is the zero vector. */
  lemma NormalizeOfShortIsZero(v: Vec3, sqrt: real -> real)
    requires Magnitude(v, sqrt) <= NormalizeEpsilon
    ensures Normalize(v, sqrt) == Zero
  {
  }

  /** With an exact square root, Normalize of a long enough vector has length one. */
  lemma NormalizeHasUnitLength(v: Vec3, sqrt: real -> real)
    requires Magnitude(v, sqrt) > NormalizeEpsilon
    requires Magnitude(v, sqrt) * Magnitude(v, sqrt) == Dot(v, v)
    ensures Dot(Normalize(v, sqrt), Normalize(v, sqrt)) == 1.0
  {
    var m := Magnitude(v, sqrt);
    var k := 1.0 / m;
    ScaledSquaredLength(v, k);
    assert k * k * (m * m) == 1.0;
  }

  lemma ScaledSquaredLength(v: Vec3, k: real)
    ensures Dot(Scale(v, k), Scale(v, k)) == k * k * Dot(v, v)
  {
  }

  /** The cross product of an edge with a multiple of itself is zero: collinear edges span no area. */
  lemma CrossOfParallelIsZero(a: Vec3, k: real)
    ensures Cross(a, Scale(a, k)) == Zero
  {
  }
}
