/**
  Three-dimensional vectors and 3x3 matrices over the reals, with the few
  operations the pose and export code uses. A matrix is stored by rows.
 */
module Linear {

  datatype Vec3 = Vec3(x: real, y: real, z: real)

  datatype Mat3 = Mat3(r0: Vec3, r1: Vec3, r2: Vec3)

  function Dot(a: Vec3, b: Vec3): real {
    a.x * b.x + a.y * b.y + a.z * b.z
  }

  function Neg(v: Vec3): Vec3 {
    Vec3(-v.x, -v.y, -v.z)
  }

  function Add(a: Vec3, b: Vec3): Vec3 {
    Vec3(a.x + b.x, a.y + b.y, a.z + b.z)
  }

  function Col0(m: Mat3): Vec3 { Vec3(m.r0.x, m.r1.x, m.r2.x) }
  function Col1(m: Mat3): Vec3 { Vec3(m.r0.y, m.r1.y, m.r2.y) }
  function Col2(m: Mat3): Vec3 { Vec3(m.r0.z, m.r1.z, m.r2.z) }

  function Transpose(m: Mat3): Mat3 {
    Mat3(Col0(m), Col1(m), Col2(m))
  }

  /** The matrix-vector product m v. */
  function MatVec(m: Mat3, v: Vec3): Vec3 {
    Vec3(Dot(m.r0, v), Dot(m.r1, v), Dot(m.r2, v))
  }

  /** The matrix product a b. */
  function MatMul(a: Mat3, b: Mat3): Mat3 {
    Mat3(
      Vec3(Dot(a.r0, Col0(b)), Dot(a.r0, Col1(b)), Dot(a.r0, Col2(b))),
      Vec3(Dot(a.r1, Col0(b)), Dot(a.r1, Col1(b)), Dot(a.r1, Col2(b))),
      Vec3(Dot(a.r2, Col0(b)), Dot(a.r2, Col1(b)), Dot(a.r2, Col2(b))))
  }

  function Det(m: Mat3): real {
    m.r0.x * (m.r1.y * m.r2.z - m.r1.z * m.r2.y)
    - m.r0.y * (m.r1.x * m.r2.z - m.r1.z * m.r2.x)
    + m.r0.z * (m.r1.x * m.r2.y - m.r1.y * m.r2.x)
  }

  const Identity: Mat3 := Mat3(Vec3(1.0, 0.0, 0.0), Vec3(0.0, 1.0, 0.0), Vec3(0.0, 0.0, 1.0))

  /** A rotation: orthonormal (its transpose is its inverse) with determinant +1. */
  predicate IsRotation(m: Mat3) {
    MatMul(Transpose(m), m) == Identity && MatMul(m, Transpose(m)) == Identity && Det(m) == 1.0
  }

  const Zero: Vec3 := Vec3(0.0, 0.0, 0.0)

  lemma MatVecAdd(m: Mat3, a: Vec3, b: Vec3)
    ensures MatVec(m, Add(a, b)) == Add(MatVec(m, a), MatVec(m, b))
  {
  }

  lemma MatVecNeg(m: Mat3, a: Vec3)
    ensures MatVec(m, Neg(a)) == Neg(MatVec(m, a))
  {
  }

  lemma MatVecMatMul(a: Mat3, b: Mat3, v: Vec3)
    ensures MatVec(a, MatVec(b, v)) == MatVec(MatMul(a, b), v)
  {
  }

  lemma MatVecIdentity(v: Vec3)
    ensures MatVec(Identity, v) == v
  {
  }
}
