/**
 Conversion between quaternions and rotation matrices over exact reals.

 A square root is a parameter: `Root(r, x)` says that r is the non-negative square root of x, and
 every statement holds for whichever real satisfies it.
 */
module Transforms {

  datatype Quaternion = Quaternion(x: real, y: real, z: real, w: real)

  /** Row by row. */
  datatype Matrix = Matrix(m00: real, m01: real, m02: real,
                           m10: real, m11: real, m12: real,
                           m20: real, m21: real, m22: real)

  predicate Root(r: real, x: real) {
    r >= 0.0 && r * r == x
  }

  function SquaredNorm(q: Quaternion): real {
    q.x * q.x + q.y * q.y + q.z * q.z + q.w * q.w
  }

  function Scaled(q: Quaternion, norm: real): Quaternion
    requires norm != 0.0
  {
    Quaternion(q.x / norm, q.y / norm, q.z / norm, q.w / norm)
  }

  function Negated(q: Quaternion): Quaternion {
    Quaternion(-q.x, -q.y, -q.z, -q.w)
  }

  function UnitMatrix(q: Quaternion): Matrix {
    Matrix(1.0 - 2.0 * (q.y * q.y + q.z * q.z), 2.0 * (q.x * q.y - q.z * q.w), 2.0 * (q.x * q.z + q.y * q.w),
           2.0 * (q.x * q.y + q.z * q.w), 1.0 - 2.0 * (q.x * q.x + q.z * q.z), 2.0 * (q.y * q.z - q.x * q.w),
           2.0 * (q.x * q.z - q.y * q.w), 2.0 * (q.y * q.z + q.x * q.w), 1.0 - 2.0 * (q.x * q.x + q.y * q.y))
  }

  /** matrix_from_quaternion; `norm` is the length of `q`. */
  function MatrixFromQuaternion(q: Quaternion, norm: real): Matrix
    requires norm != 0.0
  {
    UnitMatrix(Scaled(q, norm))
  }

  /** The component that the chosen branch of quaternion_from_matrix divides by. */
  datatype Pivot = W | X | Y | Z

  function ChoosePivot(m: Matrix): Pivot {
    if m.m00 + m.m11 + m.m22 > 0.0 then W
    else if m.m00 > m.m11 && m.m00 > m.m22 then X
    else if m.m11 > m.m22 then Y
    else Z
  }

  /** What the chosen branch takes the square root of. */
  function Radicand(m: Matrix): real {
    match ChoosePivot(m)
    case W => m.m00 + m.m11 + m.m22 + 1.0
    case X => 1.0 + m.m00 - m.m11 - m.m22
    case Y => 1.0 + m.m11 - m.m00 - m.m22
    case Z => 1.0 + m.m22 - m.m00 - m.m11
  }

  /** The quaternion before normalisation; `root` is the square root of the radicand. */
  function RawQuaternion(m: Matrix, root: real): Quaternion
    requires root != 0.0
  {
    var s := 2.0 * root;
    match ChoosePivot(m)
    case W => Quaternion((m.m21 - m.m12) / s, (m.m02 - m.m20) / s, (m.m10 - m.m01) / s, 0.25 * s)
    case X => Quaternion(0.25 * s, (m.m01 + m.m10) / s, (m.m02 + m.m20) / s, (m.m21 - m.m12) / s)
    case Y => Quaternion((m.m01 + m.m10) / s, 0.25 * s, (m.m12 + m.m21) / s, (m.m02 - m.m20) / s)
    case Z => Quaternion((m.m02 + m.m20) / s, (m.m12 + m.m21) / s, 0.25 * s, (m.m10 - m.m01) / s)
  }

  /** quaternion_from_matrix; `norm` is the length of the raw quaternion. */
  function QuaternionFromMatrix(m: Matrix, root: real, norm: real): Quaternion
    requires root != 0.0 && norm != 0.0
  {
    var q := Scaled(RawQuaternion(m, root), norm);
    if q.w >= 0.0 then q else Negated(q)
  }

  // ---------------------------------------------------------------------------
  // Rotation matrices
  // ---------------------------------------------------------------------------

  ghost predicate ColumnsOrthonormal(m: Matrix) {
    && m.m00 * m.m00 + m.m10 * m.m10 + m.m20 * m.m20 == 1.0
    && m.m01 * m.m01 + m.m11 * m.m11 + m.m21 * m.m21 == 1.0
    && m.m02 * m.m02 + m.m12 * m.m12 + m.m22 * m.m22 == 1.0
    && m.m00 * m.m01 + m.m10 * m.m11 + m.m20 * m.m21 == 0.0
    && m.m00 * m.m02 + m.m10 * m.m12 + m.m20 * m.m22 == 0.0
    && m.m01 * m.m02 + m.m11 * m.m12 + m.m21 * m.m22 == 0.0
  }

  function Transposed(m: Matrix): Matrix {
    Matrix(m.m00, m.m10, m.m20, m.m01, m.m11, m.m21, m.m02, m.m12, m.m22)
  }

  function Determinant(m: Matrix): real {
    m.m00 * (m.m11 * m.m22 - m.m12 * m.m21) - m.m01 * (m.m10 * m.m22 - m.m12 * m.m20)
        + m.m02 * (m.m10 * m.m21 - m.m11 * m.m20)
  }

  ghost predicate IsRotation(m: Matrix) {
    ColumnsOrthonormal(m) && Determinant(m) == 1.0
  }

  /** Every entry of a rotation equals its cofactor. */
  ghost predicate EqualsCofactors(m: Matrix) {
    && m.m00 == m.m11 * m.m22 - m.m12 * m.m21
    && m.m10 == m.m21 * m.m02 - m.m22 * m.m01
    && m.m20 == m.m01 * m.m12 - m.m02 * m.m11
    && m.m01 == m.m12 * m.m20 - m.m10 * m.m22
    && m.m11 == m.m22 * m.m00 - m.m20 * m.m02
    && m.m21 == m.m02 * m.m10 - m.m00 * m.m12
    && m.m02 == m.m10 * m.m21 - m.m11 * m.m20
    && m.m12 == m.m20 * m.m01 - m.m21 * m.m00
    && m.m22 == m.m00 * m.m11 - m.m01 * m.m10
  }

  /** Unit vectors a, b at right angles, c of length one with (a x b) . c == 1: then a x b == c. */
  lemma CrossProduct(a0: real, a1: real, a2: real, b0: real, b1: real, b2: real, c0: real, c1: real, c2: real)
    requires a0 * a0 + a1 * a1 + a2 * a2 == 1.0 && b0 * b0 + b1 * b1 + b2 * b2 == 1.0
    requires a0 * b0 + a1 * b1 + a2 * b2 == 0.0 && c0 * c0 + c1 * c1 + c2 * c2 == 1.0
    requires (a1 * b2 - a2 * b1) * c0 + (a2 * b0 - a0 * b2) * c1 + (a0 * b1 - a1 * b0) * c2 == 1.0
    ensures c0 == a1 * b2 - a2 * b1 && c1 == a2 * b0 - a0 * b2 && c2 == a0 * b1 - a1 * b0
  {
    var d0, d1, d2 := a1 * b2 - a2 * b1, a2 * b0 - a0 * b2, a0 * b1 - a1 * b0;
    Lagrange(a0, a1, a2, b0, b1, b2);
    ZeroDistance(d0, d1, d2, c0, c1, c2);
  }

  lemma Lagrange(a0: real, a1: real, a2: real, b0: real, b1: real, b2: real)
    requires a0 * a0 + a1 * a1 + a2 * a2 == 1.0 && b0 * b0 + b1 * b1 + b2 * b2 == 1.0
    requires a0 * b0 + a1 * b1 + a2 * b2 == 0.0
    ensures
      var d0, d1, d2 := a1 * b2 - a2 * b1, a2 * b0 - a0 * b2, a0 * b1 - a1 * b0;
      d0 * d0 + d1 * d1 + d2 * d2 == 1.0
  {
    var d0, d1, d2 := a1 * b2 - a2 * b1, a2 * b0 - a0 * b2, a0 * b1 - a1 * b0;
    var aa, bb, ab := a0 * a0 + a1 * a1 + a2 * a2, b0 * b0 + b1 * b1 + b2 * b2, a0 * b0 + a1 * b1 + a2 * b2;
    assert d0 * d0 + d1 * d1 + d2 * d2 == aa * bb - ab * ab;
  }

  lemma ZeroDistance(d0: real, d1: real, d2: real, c0: real, c1: real, c2: real)
    requires d0 * d0 + d1 * d1 + d2 * d2 == 1.0 && c0 * c0 + c1 * c1 + c2 * c2 == 1.0
    requires d0 * c0 + d1 * c1 + d2 * c2 == 1.0
    ensures d0 == c0 && d1 == c1 && d2 == c2
  {
    var e0, e1, e2 := d0 - c0, d1 - c1, d2 - c2;
    assert e0 * e0 + e1 * e1 + e2 * e2 == 0.0;
    SquareZero(e0, e1 * e1 + e2 * e2);
    SquareZero(e1, e0 * e0 + e2 * e2);
    SquareZero(e2, e0 * e0 + e1 * e1);
  }

  lemma SquareZero(e: real, rest: real)
    requires e * e + rest == 0.0 && rest >= 0.0
    ensures e == 0.0
  {
    var square := e * e;
    assert square == -rest;
    if e != 0.0 {
      PositiveSquare(e, square);
      assert false;
    }
  }

  lemma PositiveSquare(e: real, square: real)
    requires e != 0.0 && square == e * e
    ensures square > 0.0
  {
    SameSignProduct(e, e, square);
  }

  lemma SameSignProduct(a: real, b: real, product: real)
    requires (a > 0.0 && b > 0.0) || (a < 0.0 && b < 0.0)
    requires product == a * b
    ensures product > 0.0
  {
  }

  lemma RotationEqualsCofactors(m: Matrix)
    requires IsRotation(m)
    ensures EqualsCofactors(m)
  {
    TripleProducts(m);
    FirstColumn(m);
    SecondColumn(m);
    ThirdColumn(m);
  }

  lemma FirstColumn(m: Matrix)
    requires ColumnsOrthonormal(m)
    requires (m.m11 * m.m22 - m.m21 * m.m12) * m.m00 + (m.m21 * m.m02 - m.m01 * m.m22) * m.m10
        + (m.m01 * m.m12 - m.m11 * m.m02) * m.m20 == 1.0
    ensures m.m00 == m.m11 * m.m22 - m.m12 * m.m21 && m.m10 == m.m21 * m.m02 - m.m22 * m.m01
        && m.m20 == m.m01 * m.m12 - m.m02 * m.m11
  {
    CrossProduct(m.m01, m.m11, m.m21, m.m02, m.m12, m.m22, m.m00, m.m10, m.m20);
  }

  lemma SecondColumn(m: Matrix)
    requires ColumnsOrthonormal(m)
    requires (m.m12 * m.m20 - m.m22 * m.m10) * m.m01 + (m.m22 * m.m00 - m.m02 * m.m20) * m.m11
        + (m.m02 * m.m10 - m.m12 * m.m00) * m.m21 == 1.0
    ensures m.m01 == m.m12 * m.m20 - m.m10 * m.m22 && m.m11 == m.m22 * m.m00 - m.m20 * m.m02
        && m.m21 == m.m02 * m.m10 - m.m00 * m.m12
  {
    CrossProduct(m.m02, m.m12, m.m22, m.m00, m.m10, m.m20, m.m01, m.m11, m.m21);
  }

  lemma ThirdColumn(m: Matrix)
    requires ColumnsOrthonormal(m)
    requires (m.m10 * m.m21 - m.m20 * m.m11) * m.m02 + (m.m20 * m.m01 - m.m00 * m.m21) * m.m12
        + (m.m00 * m.m11 - m.m10 * m.m01) * m.m22 == 1.0
    ensures m.m02 == m.m10 * m.m21 - m.m11 * m.m20 && m.m12 == m.m20 * m.m01 - m.m21 * m.m00
        && m.m22 == m.m00 * m.m11 - m.m01 * m.m10
  {
    CrossProduct(m.m00, m.m10, m.m20, m.m01, m.m11, m.m21, m.m02, m.m12, m.m22);
  }

  // The determinant expanded along each row and each column, for the entries a b c / d e f / g h i.

  function ScalarDeterminant(a: real, b: real, c: real, d: real, e: real, f: real, g: real, h: real, i: real): real {
    a * (e * i - f * h) - b * (d * i - f * g) + c * (d * h - e * g)
  }

  lemma SecondRowExpansion(a: real, b: real, c: real, d: real, e: real, f: real, g: real, h: real, i: real)
    ensures ScalarDeterminant(a, b, c, d, e, f, g, h, i)
        == d * (h * c - i * b) + e * (i * a - g * c) + f * (g * b - h * a)
  {
  }

  lemma ThirdRowExpansion(a: real, b: real, c: real, d: real, e: real, f: real, g: real, h: real, i: real)
    ensures ScalarDeterminant(a, b, c, d, e, f, g, h, i)
        == g * (b * f - c * e) + h * (c * d - a * f) + i * (a * e - b * d)
  {
  }

  lemma TransposedDeterminant(a: real, b: real, c: real, d: real, e: real, f: real, g: real, h: real, i: real)
    ensures ScalarDeterminant(a, b, c, d, e, f, g, h, i) == ScalarDeterminant(a, d, g, b, e, h, c, f, i)
  {
  }

  /** The determinant as each column times the cross product of the other two. */
  lemma TripleProducts(m: Matrix)
    ensures Determinant(m) == (m.m11 * m.m22 - m.m21 * m.m12) * m.m00 + (m.m21 * m.m02 - m.m01 * m.m22) * m.m10
        + (m.m01 * m.m12 - m.m11 * m.m02) * m.m20
    ensures Determinant(m) == (m.m12 * m.m20 - m.m22 * m.m10) * m.m01 + (m.m22 * m.m00 - m.m02 * m.m20) * m.m11
        + (m.m02 * m.m10 - m.m12 * m.m00) * m.m21
    ensures Determinant(m) == (m.m10 * m.m21 - m.m20 * m.m11) * m.m02 + (m.m20 * m.m01 - m.m00 * m.m21) * m.m12
        + (m.m00 * m.m11 - m.m10 * m.m01) * m.m22
  {
    TransposedDeterminant(m.m00, m.m01, m.m02, m.m10, m.m11, m.m12, m.m20, m.m21, m.m22);
    SecondRowExpansion(m.m00, m.m10, m.m20, m.m01, m.m11, m.m21, m.m02, m.m12, m.m22);
    ThirdRowExpansion(m.m00, m.m10, m.m20, m.m01, m.m11, m.m21, m.m02, m.m12, m.m22);
  }

  /** The transpose of a rotation is orthonormal too: its rows have length one and are at right angles. */
  lemma RotationRowsOrthonormal(m: Matrix)
    requires IsRotation(m)
    ensures ColumnsOrthonormal(Transposed(m))
  {
    RotationEqualsCofactors(m);
    RowNorms(m);
    RowProducts(m);
  }

  /** The determinant as each row times its cofactors. */
  lemma RowExpansions(m: Matrix)
    ensures Determinant(m) == m.m00 * (m.m11 * m.m22 - m.m12 * m.m21) + m.m01 * (m.m12 * m.m20 - m.m10 * m.m22)
        + m.m02 * (m.m10 * m.m21 - m.m11 * m.m20)
    ensures Determinant(m) == m.m10 * (m.m21 * m.m02 - m.m22 * m.m01) + m.m11 * (m.m22 * m.m00 - m.m20 * m.m02)
        + m.m12 * (m.m20 * m.m01 - m.m21 * m.m00)
    ensures Determinant(m) == m.m20 * (m.m01 * m.m12 - m.m02 * m.m11) + m.m21 * (m.m02 * m.m10 - m.m00 * m.m12)
        + m.m22 * (m.m00 * m.m11 - m.m01 * m.m10)
  {
    SecondRowExpansion(m.m00, m.m01, m.m02, m.m10, m.m11, m.m12, m.m20, m.m21, m.m22);
    ThirdRowExpansion(m.m00, m.m01, m.m02, m.m10, m.m11, m.m12, m.m20, m.m21, m.m22);
  }

  lemma RowNorms(m: Matrix)
    requires EqualsCofactors(m) && Determinant(m) == 1.0
    ensures m.m00 * m.m00 + m.m01 * m.m01 + m.m02 * m.m02 == 1.0
    ensures m.m10 * m.m10 + m.m11 * m.m11 + m.m12 * m.m12 == 1.0
    ensures m.m20 * m.m20 + m.m21 * m.m21 + m.m22 * m.m22 == 1.0
  {
    RowExpansions(m);
  }

  lemma RowProducts(m: Matrix)
    requires EqualsCofactors(m)
    ensures m.m00 * m.m10 + m.m01 * m.m11 + m.m02 * m.m12 == 0.0
    ensures m.m00 * m.m20 + m.m01 * m.m21 + m.m02 * m.m22 == 0.0
    ensures m.m10 * m.m20 + m.m11 * m.m21 + m.m12 * m.m22 == 0.0
  {
    assert (m.m11 * m.m22 - m.m12 * m.m21) * m.m10 + (m.m12 * m.m20 - m.m10 * m.m22) * m.m11
        + (m.m10 * m.m21 - m.m11 * m.m20) * m.m12 == 0.0;
    assert (m.m11 * m.m22 - m.m12 * m.m21) * m.m20 + (m.m12 * m.m20 - m.m10 * m.m22) * m.m21
        + (m.m10 * m.m21 - m.m11 * m.m20) * m.m22 == 0.0;
    assert (m.m21 * m.m02 - m.m22 * m.m01) * m.m20 + (m.m22 * m.m00 - m.m20 * m.m02) * m.m21
        + (m.m20 * m.m01 - m.m21 * m.m00) * m.m22 == 0.0;
  }

  // ---------------------------------------------------------------------------
  // The products of a quaternion's components, read off a matrix
  // ---------------------------------------------------------------------------

  /** Four times the product of each two components. */
  datatype Form = Form(xx: real, yy: real, zz: real, ww: real,
                       xy: real, xz: real, xw: real, yz: real, yw: real, zw: real)

  function QuaternionForm(q: Quaternion): Form {
    Form(4.0 * (q.x * q.x), 4.0 * (q.y * q.y), 4.0 * (q.z * q.z), 4.0 * (q.w * q.w),
         4.0 * (q.x * q.y), 4.0 * (q.x * q.z), 4.0 * (q.x * q.w), 4.0 * (q.y * q.z), 4.0 * (q.y * q.w),
             4.0 * (q.z * q.w))
  }

  function MatrixForm(m: Matrix): Form {
    Form(1.0 + m.m00 - m.m11 - m.m22, 1.0 + m.m11 - m.m00 - m.m22, 1.0 + m.m22 - m.m00 - m.m11,
        1.0 + m.m00 + m.m11 + m.m22,
         m.m01 + m.m10, m.m02 + m.m20, m.m21 - m.m12, m.m12 + m.m21, m.m02 - m.m20, m.m10 - m.m01)
  }

  /** The two definitions above with every product of components as a variable of its own. */
  lemma LinearForm(f: Form)
    requires f.xx + f.yy + f.zz + f.ww == 4.0
    ensures MatrixForm(FormMatrix(f)) == f
  {
  }

  function FormMatrix(f: Form): Matrix {
    Matrix(1.0 - (f.yy + f.zz) / 2.0, (f.xy - f.zw) / 2.0, (f.xz + f.yw) / 2.0,
           (f.xy + f.zw) / 2.0, 1.0 - (f.xx + f.zz) / 2.0, (f.yz - f.xw) / 2.0,
           (f.xz - f.yw) / 2.0, (f.yz + f.xw) / 2.0, 1.0 - (f.xx + f.yy) / 2.0)
  }

  lemma UnitMatrixOfForm(q: Quaternion)
    ensures UnitMatrix(q) == FormMatrix(QuaternionForm(q))
  {
    var m, n := UnitMatrix(q), FormMatrix(QuaternionForm(q));
    assert m.m00 == n.m00 && m.m01 == n.m01 && m.m02 == n.m02;
    assert m.m10 == n.m10 && m.m11 == n.m11 && m.m12 == n.m12;
    assert m.m20 == n.m20 && m.m21 == n.m21 && m.m22 == n.m22;
  }

  lemma UnitMatrixForm(q: Quaternion)
    requires SquaredNorm(q) == 1.0
    ensures MatrixForm(UnitMatrix(q)) == QuaternionForm(q)
  {
    UnitMatrixOfForm(q);
    LinearForm(QuaternionForm(q));
  }

  /** The form determines the matrix. */
  lemma FormDeterminesMatrix(q: Quaternion, m: Matrix)
    requires MatrixForm(m) == QuaternionForm(q)
    ensures SquaredNorm(q) == 1.0 && UnitMatrix(q) == m
  {
    UnitMatrixOfForm(q);
    var f := QuaternionForm(q);
    assert f.xx + f.yy + f.zz + f.ww == 4.0;
    MatrixOfMatrixForm(m);
  }

  lemma MatrixOfMatrixForm(m: Matrix)
    ensures FormMatrix(MatrixForm(m)) == m
  {
  }

  /** The laws that the entries of a rotation obey. */
  datatype Law = Columns | Rows | Cofactors

  ghost predicate Obeys(m: Matrix, law: Law) {
    match law
    case Columns => ColumnsOrthonormal(m)
    case Rows => ColumnsOrthonormal(Transposed(m))
    case Cofactors => EqualsCofactors(m)
  }

  ghost predicate ObeysAll(m: Matrix) {
    forall law: Law :: Obeys(m, law)
  }

  lemma LawHolds(m: Matrix, law: Law)
    requires ObeysAll(m)
    ensures Obeys(m, law)
  {
  }

  /** The row of w times itself is ww times the form. */
  ghost predicate RankOneW(f: Form) {
    && f.xw * f.xw == f.ww * f.xx && f.yw * f.yw == f.ww * f.yy && f.zw * f.zw == f.ww * f.zz
    && f.xw * f.yw == f.ww * f.xy && f.xw * f.zw == f.ww * f.xz && f.yw * f.zw == f.ww * f.yz
  }

  /** The row of x times itself is xx times the form. */
  ghost predicate RankOneX(f: Form) {
    && f.xy * f.xy == f.xx * f.yy && f.xz * f.xz == f.xx * f.zz && f.xw * f.xw == f.xx * f.ww
    && f.xy * f.xz == f.xx * f.yz && f.xy * f.xw == f.xx * f.yw && f.xz * f.xw == f.xx * f.zw
  }

  /** The row of y times itself is yy times the form. */
  ghost predicate RankOneY(f: Form) {
    && f.xy * f.xy == f.yy * f.xx && f.yz * f.yz == f.yy * f.zz && f.yw * f.yw == f.yy * f.ww
    && f.xy * f.yz == f.yy * f.xz && f.xy * f.yw == f.yy * f.xw && f.yz * f.yw == f.yy * f.zw
  }

  /** The row of z times itself is zz times the form. */
  ghost predicate RankOneZ(f: Form) {
    && f.xz * f.xz == f.zz * f.xx && f.yz * f.yz == f.zz * f.yy && f.zw * f.zw == f.zz * f.ww
    && f.xz * f.yz == f.zz * f.xy && f.xz * f.zw == f.zz * f.xw && f.yz * f.zw == f.zz * f.yw
  }

  // Six identities between the entries a b c / d e f / g h i of a rotation. Renaming the axes x to y to z
  // gives the others.

  lemma SquareXY(a: real, b: real, c: real, d: real, e: real, f: real, i: real)
    requires i == a * e - b * d && c * c + f * f + i * i == 1.0
    requires a * a + b * b + c * c == 1.0 && d * d + e * e + f * f == 1.0
    ensures (b + d) * (b + d) == (1.0 + a - e - i) * (1.0 + e - a - i)
  {
    assert (b + d) * (b + d) == b * b + d * d + 2.0 * (b * d);
    assert (1.0 + a - e - i) * (1.0 + e - a - i) == 1.0 - 2.0 * i + i * i - a * a - e * e + 2.0 * (a * e);
  }

  lemma SquareXW(a: real, d: real, e: real, f: real, g: real, h: real, i: real)
    requires a == e * i - f * h && a * a + d * d + g * g == 1.0
    requires d * d + e * e + f * f == 1.0 && g * g + h * h + i * i == 1.0
    ensures (h - f) * (h - f) == (1.0 + a + e + i) * (1.0 + a - e - i)
  {
    assert (h - f) * (h - f) == h * h + f * f - 2.0 * (f * h);
    assert (1.0 + a + e + i) * (1.0 + a - e - i) == 1.0 + 2.0 * a + a * a - e * e - i * i - 2.0 * (e * i);
  }

  lemma ProductXWYW(a: real, b: real, c: real, d: real, e: real, f: real, g: real, h: real, i: real)
    requires d == h * c - i * b && b == f * g - d * i
    requires a * b + d * e + g * h == 0.0 && a * d + b * e + c * f == 0.0
    ensures (h - f) * (c - g) == (1.0 + a + e + i) * (b + d)
  {
    assert (h - f) * (c - g) == h * c - g * h - c * f + f * g;
    assert (1.0 + a + e + i) * (b + d) == b + d + a * b + a * d + b * e + d * e + i * b + d * i;
  }

  lemma ProductXYXZ(a: real, b: real, c: real, d: real, e: real, f: real, g: real, h: real, i: real)
    requires f == g * b - h * a && h == c * d - a * f
    requires b * c + e * f + h * i == 0.0 && d * g + e * h + f * i == 0.0
    ensures (b + d) * (c + g) == (1.0 + a - e - i) * (f + h)
  {
    assert (b + d) * (c + g) == b * c + g * b + c * d + d * g;
    assert (1.0 + a - e - i) * (f + h) == f + h + a * f + h * a - e * f - e * h - f * i - h * i;
  }

  lemma ProductXYXW(a: real, b: real, c: real, d: real, e: real, f: real, g: real, h: real, i: real)
    requires c == d * h - e * g && g == b * f - c * e
    requires a * g + b * h + c * i == 0.0 && a * c + d * f + g * i == 0.0
    ensures (b + d) * (h - f) == (1.0 + a - e - i) * (c - g)
  {
    assert (b + d) * (h - f) == b * h - b * f + d * h - d * f;
    assert (1.0 + a - e - i) * (c - g) == c - g + a * c - a * g - c * e + e * g - c * i + g * i;
  }

  lemma ProductXZXW(a: real, b: real, c: real, d: real, e: real, f: real, g: real, h: real, i: real)
    requires d == h * c - i * b && b == f * g - d * i
    requires a * b + d * e + g * h == 0.0 && a * d + b * e + c * f == 0.0
    ensures (c + g) * (h - f) == (1.0 + a - e - i) * (d - b)
  {
    assert (c + g) * (h - f) == h * c - c * f + g * h - f * g;
    assert (1.0 + a - e - i) * (d - b) == d - b + a * d - a * b - d * e + b * e - d * i + i * b;
  }

  /** The same rotation with the axes renamed: x for y, y for z, z for x. */
  function Renamed(m: Matrix): Matrix {
    Matrix(m.m11, m.m12, m.m10, m.m21, m.m22, m.m20, m.m01, m.m02, m.m00)
  }

  lemma RenamedColumns(m: Matrix)
    requires ColumnsOrthonormal(m)
    ensures ColumnsOrthonormal(Renamed(m))
  {
  }

  lemma RenamedRows(m: Matrix)
    requires ColumnsOrthonormal(Transposed(m))
    ensures ColumnsOrthonormal(Transposed(Renamed(m)))
  {
    RenamedColumns(Transposed(m));
    RenamedTransposed(m);
  }

  lemma RenamedTransposed(m: Matrix)
    ensures Transposed(Renamed(m)) == Renamed(Transposed(m))
  {
  }

  lemma RenamedFirstColumn(m: Matrix)
    requires EqualsCofactors(m)
    ensures
      var n := Renamed(m);
      n.m00 == n.m11 * n.m22 - n.m12 * n.m21 && n.m10 == n.m21 * n.m02 - n.m22 * n.m01
      && n.m20 == n.m01 * n.m12 - n.m02 * n.m11
  {
  }

  lemma RenamedSecondColumn(m: Matrix)
    requires EqualsCofactors(m)
    ensures
      var n := Renamed(m);
      n.m01 == n.m12 * n.m20 - n.m10 * n.m22 && n.m11 == n.m22 * n.m00 - n.m20 * n.m02
      && n.m21 == n.m02 * n.m10 - n.m00 * n.m12
  {
  }

  lemma RenamedThirdColumn(m: Matrix)
    requires EqualsCofactors(m)
    ensures
      var n := Renamed(m);
      n.m02 == n.m10 * n.m21 - n.m11 * n.m20 && n.m12 == n.m20 * n.m01 - n.m21 * n.m00
      && n.m22 == n.m00 * n.m11 - n.m01 * n.m10
  {
  }

  lemma RenamedCofactors(m: Matrix)
    requires EqualsCofactors(m)
    ensures EqualsCofactors(Renamed(m))
  {
    RenamedFirstColumn(m);
    RenamedSecondColumn(m);
    RenamedThirdColumn(m);
  }

  lemma RenamedLaw(m: Matrix, law: Law)
    requires Obeys(m, law)
    ensures Obeys(Renamed(m), law)
  {
    match law
    case Columns => RenamedColumns(m);
    case Rows => RenamedRows(m);
    case Cofactors => RenamedCofactors(m);
  }

  lemma RenamedObeysAll(m: Matrix)
    requires ObeysAll(m)
    ensures ObeysAll(Renamed(m))
  {
    forall law: Law ensures Obeys(Renamed(m), law) {
      LawHolds(m, law);
      RenamedLaw(m, law);
    }
  }

  lemma SquareXYOf(m: Matrix)
    requires ObeysAll(m)
    ensures var f := MatrixForm(m); f.xy * f.xy == f.xx * f.yy
  {
    LawHolds(m, Columns);
    LawHolds(m, Rows);
    LawHolds(m, Cofactors);
    SquareXY(m.m00, m.m01, m.m02, m.m10, m.m11, m.m12, m.m22);
  }

  lemma SquareXWOf(m: Matrix)
    requires ObeysAll(m)
    ensures var f := MatrixForm(m); f.xw * f.xw == f.ww * f.xx
  {
    LawHolds(m, Columns);
    LawHolds(m, Rows);
    LawHolds(m, Cofactors);
    SquareXW(m.m00, m.m10, m.m11, m.m12, m.m20, m.m21, m.m22);
  }

  lemma ProductXWYWOf(m: Matrix)
    requires ObeysAll(m)
    ensures var f := MatrixForm(m); f.xw * f.yw == f.ww * f.xy
  {
    LawHolds(m, Columns);
    LawHolds(m, Rows);
    LawHolds(m, Cofactors);
    ProductXWYW(m.m00, m.m01, m.m02, m.m10, m.m11, m.m12, m.m20, m.m21, m.m22);
  }

  lemma ProductXYXZOf(m: Matrix)
    requires ObeysAll(m)
    ensures var f := MatrixForm(m); f.xy * f.xz == f.xx * f.yz
  {
    LawHolds(m, Columns);
    LawHolds(m, Rows);
    LawHolds(m, Cofactors);
    ProductXYXZ(m.m00, m.m01, m.m02, m.m10, m.m11, m.m12, m.m20, m.m21, m.m22);
  }

  lemma ProductXYXWOf(m: Matrix)
    requires ObeysAll(m)
    ensures var f := MatrixForm(m); f.xy * f.xw == f.xx * f.yw
  {
    LawHolds(m, Columns);
    LawHolds(m, Rows);
    LawHolds(m, Cofactors);
    ProductXYXW(m.m00, m.m01, m.m02, m.m10, m.m11, m.m12, m.m20, m.m21, m.m22);
  }

  lemma ProductXZXWOf(m: Matrix)
    requires ObeysAll(m)
    ensures var f := MatrixForm(m); f.xz * f.xw == f.xx * f.zw
  {
    LawHolds(m, Columns);
    LawHolds(m, Rows);
    LawHolds(m, Cofactors);
    ProductXZXW(m.m00, m.m01, m.m02, m.m10, m.m11, m.m12, m.m20, m.m21, m.m22);
  }

  /** The form of a renamed rotation is the form with its components renamed. */
  function RenamedForm(f: Form): Form {
    Form(f.yy, f.zz, f.xx, f.ww, f.yz, f.xy, f.yw, f.xz, f.zw, f.xw)
  }

  lemma FormOfRenamed(m: Matrix)
    ensures MatrixForm(Renamed(m)) == RenamedForm(MatrixForm(m))
  {
  }

  /** The part of the row of w that renaming makes the rest of. */
  ghost predicate PartOfW(f: Form) {
    f.xw * f.xw == f.ww * f.xx && f.xw * f.yw == f.ww * f.xy
  }

  lemma PartOfWOf(m: Matrix)
    requires ObeysAll(m)
    ensures PartOfW(MatrixForm(m))
  {
    SquareXWOf(m);
    ProductXWYWOf(m);
  }

  lemma PartsOfW(f: Form)
    requires PartOfW(f) && PartOfW(RenamedForm(f)) && PartOfW(RenamedForm(RenamedForm(f)))
    ensures RankOneW(f)
  {
  }

  lemma RowYFromX(f: Form)
    requires RankOneX(RenamedForm(f))
    ensures RankOneY(f)
  {
  }

  lemma RowZFromY(f: Form)
    requires RankOneY(RenamedForm(f))
    ensures RankOneZ(f)
  {
  }

  lemma PivotW(m: Matrix)
    requires ObeysAll(m)
    ensures RankOneW(MatrixForm(m))
  {
    var n := Renamed(m);
    RenamedObeysAll(m);
    RenamedObeysAll(n);
    PartOfWOf(m);
    PartOfWOf(n);
    PartOfWOf(Renamed(n));
    FormOfRenamed(m);
    FormOfRenamed(n);
    PartsOfW(MatrixForm(m));
  }

  lemma SquareXZOf(m: Matrix)
    requires ObeysAll(m)
    ensures var f := MatrixForm(m); f.xz * f.xz == f.xx * f.zz
  {
    RenamedObeysAll(m);
    RenamedObeysAll(Renamed(m));
    FormOfRenamed(m);
    FormOfRenamed(Renamed(m));
    SquareXYOf(Renamed(Renamed(m)));
  }

  lemma PivotX(m: Matrix)
    requires ObeysAll(m)
    ensures RankOneX(MatrixForm(m))
  {
    SquareXYOf(m);
    SquareXZOf(m);
    SquareXWOf(m);
    ProductXYXZOf(m);
    ProductXYXWOf(m);
    ProductXZXWOf(m);
  }

  lemma PivotY(m: Matrix)
    requires ObeysAll(m)
    ensures RankOneY(MatrixForm(m))
  {
    RenamedObeysAll(m);
    FormOfRenamed(m);
    PivotX(Renamed(m));
    RowYFromX(MatrixForm(m));
  }

  lemma PivotZ(m: Matrix)
    requires ObeysAll(m)
    ensures RankOneZ(MatrixForm(m))
  {
    RenamedObeysAll(m);
    FormOfRenamed(m);
    PivotY(Renamed(m));
    RowZFromY(MatrixForm(m));
  }

  // ---------------------------------------------------------------------------
  // From a rotation to its quaternion
  // ---------------------------------------------------------------------------

  /** Whatever the matrix, the chosen branch takes the root of at least one: it never divides by less than two. */
  lemma RadicandAtLeastOne(m: Matrix, root: real)
    requires Root(root, Radicand(m))
    ensures Radicand(m) >= 1.0 && root >= 1.0
  {
    if root < 1.0 {
      SmallSquare(root, root);
      assert false;
    }
  }

  lemma SmallSquare(a: real, b: real)
    requires 0.0 <= a < 1.0 && 0.0 <= b < 1.0
    ensures a * b < 1.0
  {
    assert a * b <= 1.0 * b;
  }

  lemma QuotientProduct(a: real, b: real, root: real, p: real, k: real, u: real, v: real)
    requires root > 0.0 && p > 0.0 && root * root == p && a * b == p * k
    requires u == a / (2.0 * root) && v == b / (2.0 * root)
    ensures 4.0 * (u * v) == k
  {
    Unquotient(a, root, u);
    Unquotient(b, root, v);
    Regroup(a, b, root, p, u, v);
    CancelFactor(p, 4.0 * (u * v), k);
  }

  lemma Unquotient(a: real, root: real, u: real)
    requires root > 0.0 && u == a / (2.0 * root)
    ensures a == 2.0 * (u * root)
  {
    assert u * (2.0 * root) == a;
  }

  lemma Regroup(a: real, b: real, root: real, p: real, u: real, v: real)
    requires a == 2.0 * (u * root) && b == 2.0 * (v * root) && root * root == p
    ensures a * b == p * (4.0 * (u * v))
  {
    assert a * b == 4.0 * ((u * v) * (root * root));
  }

  lemma CancelFactor(p: real, a: real, b: real)
    requires p > 0.0 && p * a == p * b
    ensures a == b
  {
    assert p * (a - b) == 0.0;
  }

  lemma QuotientPivot(a: real, root: real, u: real, h: real)
    requires root > 0.0 && u == a / (2.0 * root) && h == 0.25 * (2.0 * root)
    ensures 4.0 * (h * u) == a
  {
    Unquotient(a, root, u);
  }

  lemma RotationLaw(m: Matrix, law: Law)
    requires IsRotation(m)
    ensures Obeys(m, law)
  {
    match law
    case Columns =>
    case Rows => RotationRowsOrthonormal(m);
    case Cofactors => RotationEqualsCofactors(m);
  }

  lemma RotationObeysAll(m: Matrix)
    requires IsRotation(m)
    ensures ObeysAll(m)
  {
    forall law: Law ensures Obeys(m, law) {
      RotationLaw(m, law);
    }
  }

  /** One row of the form, divided by twice the root of its pivot, gives back the whole form. */
  lemma PivotQuotients(p: real, a: real, b: real, c: real, aa: real, bb: real, cc: real, ab: real, ac: real, bc: real,
          root: real, u: real, v: real, t: real, h: real)
    requires root > 0.0 && p > 0.0 && root * root == p
    requires a * a == p * aa && b * b == p * bb && c * c == p * cc && a * b == p * ab && a * c == p * ac
        && b * c == p * bc
    requires u == a / (2.0 * root) && v == b / (2.0 * root) && t == c / (2.0 * root) && h == 0.25 * (2.0 * root)
    ensures 4.0 * (u * u) == aa && 4.0 * (v * v) == bb && 4.0 * (t * t) == cc
    ensures 4.0 * (u * v) == ab && 4.0 * (u * t) == ac && 4.0 * (v * t) == bc
    ensures 4.0 * (h * u) == a && 4.0 * (h * v) == b && 4.0 * (h * t) == c
    ensures 4.0 * (h * h) == p
  {
    QuotientProduct(a, a, root, p, aa, u, u);
    QuotientProduct(b, b, root, p, bb, v, v);
    QuotientProduct(c, c, root, p, cc, t, t);
    QuotientProduct(a, b, root, p, ab, u, v);
    QuotientProduct(a, c, root, p, ac, u, t);
    QuotientProduct(b, c, root, p, bc, v, t);
    QuotientPivot(a, root, u, h);
    QuotientPivot(b, root, v, h);
    QuotientPivot(c, root, t, h);
  }

  lemma Assemble(q: Quaternion, f: Form)
    requires 4.0 * (q.x * q.x) == f.xx && 4.0 * (q.y * q.y) == f.yy && 4.0 * (q.z * q.z) == f.zz
        && 4.0 * (q.w * q.w) == f.ww
    requires 4.0 * (q.x * q.y) == f.xy && 4.0 * (q.x * q.z) == f.xz && 4.0 * (q.x * q.w) == f.xw
    requires 4.0 * (q.y * q.z) == f.yz && 4.0 * (q.y * q.w) == f.yw && 4.0 * (q.z * q.w) == f.zw
    ensures QuaternionForm(q) == f
  {
  }

  lemma FormFromPivotW(f: Form, root: real, q: Quaternion)
    requires root > 0.0 && f.ww > 0.0 && root * root == f.ww
    requires RankOneW(f)
    requires q.x == f.xw / (2.0 * root) && q.y == f.yw / (2.0 * root) && q.z == f.zw / (2.0 * root)
        && q.w == 0.25 * (2.0 * root)
    ensures QuaternionForm(q) == f
  {
    PivotQuotients(f.ww, f.xw, f.yw, f.zw, f.xx, f.yy, f.zz, f.xy, f.xz, f.yz,
                   root, q.x, q.y, q.z, q.w);
    Assemble(q, f);
  }

  lemma RawFormW(m: Matrix, root: real)
    requires IsRotation(m) && ChoosePivot(m) == W && Root(root, Radicand(m)) && root > 0.0
    ensures QuaternionForm(RawQuaternion(m, root)) == MatrixForm(m)
  {
    RotationObeysAll(m);
    PivotW(m);
    RadicandAtLeastOne(m, root);
    FormFromPivotW(MatrixForm(m), root, RawQuaternion(m, root));
  }

  lemma FormFromPivotX(f: Form, root: real, q: Quaternion)
    requires root > 0.0 && f.xx > 0.0 && root * root == f.xx
    requires RankOneX(f)
    requires q.x == 0.25 * (2.0 * root) && q.y == f.xy / (2.0 * root) && q.z == f.xz / (2.0 * root)
        && q.w == f.xw / (2.0 * root)
    ensures QuaternionForm(q) == f
  {
    PivotQuotients(f.xx, f.xy, f.xz, f.xw, f.yy, f.zz, f.ww, f.yz, f.yw, f.zw,
                   root, q.y, q.z, q.w, q.x);
    Assemble(q, f);
  }

  lemma RawFormX(m: Matrix, root: real)
    requires IsRotation(m) && ChoosePivot(m) == X && Root(root, Radicand(m)) && root > 0.0
    ensures QuaternionForm(RawQuaternion(m, root)) == MatrixForm(m)
  {
    RotationObeysAll(m);
    PivotX(m);
    RadicandAtLeastOne(m, root);
    FormFromPivotX(MatrixForm(m), root, RawQuaternion(m, root));
  }

  lemma FormFromPivotY(f: Form, root: real, q: Quaternion)
    requires root > 0.0 && f.yy > 0.0 && root * root == f.yy
    requires RankOneY(f)
    requires q.x == f.xy / (2.0 * root) && q.y == 0.25 * (2.0 * root) && q.z == f.yz / (2.0 * root)
        && q.w == f.yw / (2.0 * root)
    ensures QuaternionForm(q) == f
  {
    PivotQuotients(f.yy, f.xy, f.yz, f.yw, f.xx, f.zz, f.ww, f.xz, f.xw, f.zw,
                   root, q.x, q.z, q.w, q.y);
    Assemble(q, f);
  }

  lemma RawFormY(m: Matrix, root: real)
    requires IsRotation(m) && ChoosePivot(m) == Y && Root(root, Radicand(m)) && root > 0.0
    ensures QuaternionForm(RawQuaternion(m, root)) == MatrixForm(m)
  {
    RotationObeysAll(m);
    PivotY(m);
    RadicandAtLeastOne(m, root);
    FormFromPivotY(MatrixForm(m), root, RawQuaternion(m, root));
  }

  lemma FormFromPivotZ(f: Form, root: real, q: Quaternion)
    requires root > 0.0 && f.zz > 0.0 && root * root == f.zz
    requires RankOneZ(f)
    requires q.x == f.xz / (2.0 * root) && q.y == f.yz / (2.0 * root) && q.z == 0.25 * (2.0 * root)
        && q.w == f.zw / (2.0 * root)
    ensures QuaternionForm(q) == f
  {
    PivotQuotients(f.zz, f.xz, f.yz, f.zw, f.xx, f.yy, f.ww, f.xy, f.xw, f.yw,
                   root, q.x, q.y, q.w, q.z);
    Assemble(q, f);
  }

  lemma RawFormZ(m: Matrix, root: real)
    requires IsRotation(m) && ChoosePivot(m) == Z && Root(root, Radicand(m)) && root > 0.0
    ensures QuaternionForm(RawQuaternion(m, root)) == MatrixForm(m)
  {
    RotationObeysAll(m);
    PivotZ(m);
    RadicandAtLeastOne(m, root);
    FormFromPivotZ(MatrixForm(m), root, RawQuaternion(m, root));
  }

  lemma RawFormIsMatrixForm(m: Matrix, root: real)
    requires IsRotation(m) && Root(root, Radicand(m)) && root > 0.0
    ensures QuaternionForm(RawQuaternion(m, root)) == MatrixForm(m)
  {
    match ChoosePivot(m)
    case W => RawFormW(m, root);
    case X => RawFormX(m, root);
    case Y => RawFormY(m, root);
    case Z => RawFormZ(m, root);
  }

  lemma UnitRoot(norm: real)
    requires Root(norm, 1.0)
    ensures norm == 1.0
  {
    if norm < 1.0 {
      SmallSquare(norm, norm);
      assert false;
    }
    if norm > 1.0 {
      LargeSquare(norm, norm);
      assert false;
    }
  }

  lemma LargeSquare(a: real, b: real)
    requires a > 1.0 && b > 1.0
    ensures a * b > 1.0
  {
    assert a * b >= 1.0 * b;
  }

  lemma NegatedForm(q: Quaternion)
    ensures QuaternionForm(Negated(q)) == QuaternionForm(q)
  {
    var n := Negated(q);
    NegatedProduct(q.x, q.x, n.x, n.x);
    NegatedProduct(q.y, q.y, n.y, n.y);
    NegatedProduct(q.z, q.z, n.z, n.z);
    NegatedProduct(q.w, q.w, n.w, n.w);
    NegatedProduct(q.x, q.y, n.x, n.y);
    NegatedProduct(q.x, q.z, n.x, n.z);
    NegatedProduct(q.x, q.w, n.x, n.w);
    NegatedProduct(q.y, q.z, n.y, n.z);
    NegatedProduct(q.y, q.w, n.y, n.w);
    NegatedProduct(q.z, q.w, n.z, n.w);
  }

  lemma NegatedProduct(a: real, b: real, c: real, d: real)
    requires c == -a && d == -b
    ensures c * d == a * b
  {
  }

  lemma ScaledByOne(q: Quaternion)
    ensures Scaled(q, 1.0) == q
  {
  }

  /** The result of quaternion_from_matrix has the matrix's form whatever the sign it chose. */
  lemma ResultForm(m: Matrix, root: real, norm: real)
    requires IsRotation(m) && Root(root, Radicand(m)) && root > 0.0
    requires Root(norm, SquaredNorm(RawQuaternion(m, root)))
    ensures norm == 1.0
    ensures QuaternionForm(QuaternionFromMatrix(m, root, norm)) == MatrixForm(m)
  {
    var raw := RawQuaternion(m, root);
    RawFormIsMatrixForm(m, root);
    FormDeterminesMatrix(raw, m);
    UnitRoot(norm);
    ScaledByOne(raw);
    NegatedForm(raw);
  }

  /**
   For every rotation matrix the conversion divides by at least two, yields a unit quaternion with
   w >= 0, and converting that quaternion back gives the very same matrix.
   */
  lemma RotationRoundTrip(m: Matrix, root: real, norm: real)
    requires IsRotation(m) && Root(root, Radicand(m)) && root > 0.0
    requires Root(norm, SquaredNorm(RawQuaternion(m, root)))
    ensures 2.0 * root >= 2.0 && norm == 1.0
    ensures SquaredNorm(QuaternionFromMatrix(m, root, norm)) == 1.0
    ensures QuaternionFromMatrix(m, root, norm).w >= 0.0
    ensures MatrixFromQuaternion(QuaternionFromMatrix(m, root, norm), 1.0) == m
  {
    RadicandAtLeastOne(m, root);
    ResultForm(m, root, norm);
    var q := QuaternionFromMatrix(m, root, norm);
    FormDeterminesMatrix(q, m);
    ScaledByOne(q);
  }

  // ---------------------------------------------------------------------------
  // From a quaternion to its rotation and back
  // ---------------------------------------------------------------------------

  /** What makes the column of x in the form's matrix a unit vector. */
  ghost predicate NormRelations(xx: real, yy: real, zz: real, ww: real, xy: real, xz: real, yw: real, zw: real) {
    && xy * xy == xx * yy && xz * xz == xx * zz && yw * yw == ww * yy && zw * zw == ww * zz
    && xy * zw == xz * yw
  }

  /** The laws that the products of one quaternion's components obey. */
  datatype FormLaw = NormX | NormY | NormZ | RowX | RowY | RowZ | RowW

  ghost predicate FormObeys(f: Form, law: FormLaw) {
    match law
    case NormX => NormRelations(f.xx, f.yy, f.zz, f.ww, f.xy, f.xz, f.yw, f.zw)
    case NormY => NormRelations(f.yy, f.zz, f.xx, f.ww, f.yz, f.xy, f.zw, f.xw)
    case NormZ => NormRelations(f.zz, f.xx, f.yy, f.ww, f.xz, f.yz, f.xw, f.yw)
    case RowX => RankOneX(f)
    case RowY => RankOneY(f)
    case RowZ => RankOneZ(f)
    case RowW => RankOneW(f)
  }

  /** ... and the sum of its squares when it has length one. */
  ghost predicate UnitForm(f: Form) {
    f.xx + f.yy + f.zz + f.ww == 4.0 && forall law: FormLaw :: FormObeys(f, law)
  }

  lemma FormLawHolds(f: Form, law: FormLaw)
    requires UnitForm(f)
    ensures FormObeys(f, law)
  {
  }

  lemma QuaternionObeys(q: Quaternion, f: Form, law: FormLaw)
    requires f == QuaternionForm(q)
    ensures FormObeys(f, law)
  {
    match law
    case NormX =>
      FormHasSquares(q, f);
      FormCrossFactors(q, f);
    case NormY =>
      FormHasSquares(q, f);
      FormCrossFactors(q, f);
    case NormZ =>
      FormHasSquares(q, f);
      FormCrossFactors(q, f);
    case RowX => FormHasRankOneX(q, f);
    case RowY => FormHasRankOneY(q, f);
    case RowZ => FormHasRankOneZ(q, f);
    case RowW => FormHasRankOneW(q, f);
  }

  lemma QuaternionHasUnitForm(q: Quaternion)
    requires SquaredNorm(q) == 1.0
    ensures UnitForm(QuaternionForm(q))
  {
    forall law: FormLaw ensures FormObeys(QuaternionForm(q), law) {
      QuaternionObeys(q, QuaternionForm(q), law);
    }
  }

  lemma FormHasSquares(q: Quaternion, f: Form)
    requires f == QuaternionForm(q)
    ensures f.xy * f.xy == f.xx * f.yy && f.xz * f.xz == f.xx * f.zz && f.yz * f.yz == f.yy * f.zz
    ensures f.xw * f.xw == f.ww * f.xx && f.yw * f.yw == f.ww * f.yy && f.zw * f.zw == f.ww * f.zz
  {
    FormHasRankOneX(q, f);
    FormHasRankOneY(q, f);
    FormHasRankOneW(q, f);
  }

  lemma FormCrossFactors(q: Quaternion, f: Form)
    requires f == QuaternionForm(q)
    ensures f.xy * f.zw == f.xz * f.yw && f.yz * f.xw == f.xy * f.zw
  {
    CrossFactors(q.x, q.y, q.z, q.w, f.xy, f.zw, f.xz, f.yw);
    CrossFactors(q.y, q.z, q.x, q.w, f.yz, f.xw, f.xy, f.zw);
  }

  lemma FormHasRankOneX(q: Quaternion, f: Form)
    requires f == QuaternionForm(q)
    ensures RankOneX(f)
  {
    CommonFactors(q.x, q.y, q.z, q.w, f.xx, f.yy, f.zz, f.ww, f.xy, f.xz, f.xw, f.yz, f.yw, f.zw);
  }

  lemma FormHasRankOneY(q: Quaternion, f: Form)
    requires f == QuaternionForm(q)
    ensures RankOneY(f)
  {
    CommonFactors(q.y, q.x, q.z, q.w, f.yy, f.xx, f.zz, f.ww, f.xy, f.yz, f.yw, f.xz, f.xw, f.zw);
  }

  lemma FormHasRankOneZ(q: Quaternion, f: Form)
    requires f == QuaternionForm(q)
    ensures RankOneZ(f)
  {
    CommonFactors(q.z, q.x, q.y, q.w, f.zz, f.xx, f.yy, f.ww, f.xz, f.yz, f.zw, f.xy, f.xw, f.yw);
  }

  lemma FormHasRankOneW(q: Quaternion, f: Form)
    requires f == QuaternionForm(q)
    ensures RankOneW(f)
  {
    CommonFactors(q.w, q.x, q.y, q.z, f.ww, f.xx, f.yy, f.zz, f.xw, f.yw, f.zw, f.xy, f.xz, f.yz);
  }

  lemma CommonFactors(p: real, a: real, b: real, c: real,
          pp: real, aa: real, bb: real, cc: real, pa: real, pb: real, pc: real, ab: real, ac: real,
          bc: real)
    requires pp == 4.0 * (p * p) && aa == 4.0 * (a * a) && bb == 4.0 * (b * b) && cc == 4.0 * (c * c)
    requires pa == 4.0 * (p * a) && pb == 4.0 * (p * b) && pc == 4.0 * (p * c)
    requires ab == 4.0 * (a * b) && ac == 4.0 * (a * c) && bc == 4.0 * (b * c)
    ensures pa * pa == pp * aa && pb * pb == pp * bb && pc * pc == pp * cc
    ensures pa * pb == pp * ab && pa * pc == pp * ac && pb * pc == pp * bc
  {
    CrossFactors(p, a, p, a, pa, pa, pp, aa);
    CrossFactors(p, b, p, b, pb, pb, pp, bb);
    CrossFactors(p, c, p, c, pc, pc, pp, cc);
    CrossFactors(p, a, p, b, pa, pb, pp, ab);
    CrossFactors(p, a, p, c, pa, pc, pp, ac);
    CrossFactors(p, b, p, c, pb, pc, pp, bc);
  }

  lemma CrossFactors(a: real, b: real, c: real, d: real, ab: real, cd: real, ac: real, bd: real)
    requires ab == 4.0 * (a * b) && cd == 4.0 * (c * d) && ac == 4.0 * (a * c) && bd == 4.0 * (b * d)
    ensures ab * cd == ac * bd
  {
    assert ab * cd == 16.0 * (((a * b) * c) * d);
    assert ac * bd == 16.0 * (((a * b) * c) * d);
  }

  /** The squared length of a column of the form's matrix. */
  function ColumnSquare(yy: real, zz: real, xy: real, xz: real, yw: real, zw: real): real {
    var a, b, c := 1.0 - (yy + zz) / 2.0, (xy + zw) / 2.0, (xz - yw) / 2.0;
    a * a + b * b + c * c
  }

  lemma ColumnNorm(xx: real, yy: real, zz: real, ww: real, xy: real, xz: real, yw: real, zw: real)
    requires xx + yy + zz + ww == 4.0
    requires NormRelations(xx, yy, zz, ww, xy, xz, yw, zw)
    ensures ColumnSquare(yy, zz, xy, xz, yw, zw) == 1.0
  {
    var s := yy + zz;
    var a, b, c := 1.0 - s / 2.0, (xy + zw) / 2.0, (xz - yw) / 2.0;
    assert 4.0 * (b * b) + 4.0 * (c * c) == (xx + ww) * s;
    assert xx + ww == 4.0 - s;
    assert 4.0 * (a * a) == 4.0 - 4.0 * s + s * s;
  }

  lemma ColumnProduct(xx: real, yy: real, zz: real, ww: real, xy: real, xz: real, xw: real, yz: real, yw: real,
          zw: real)
    requires xx + yy + zz + ww == 4.0
    requires xz * yz == zz * xy && xz * xw == xx * zw && yz * yw == yy * zw && xw * yw == ww * xy
    ensures
      var a, b, c := 1.0 - (yy + zz) / 2.0, (xy + zw) / 2.0, (xz - yw) / 2.0;
      var d, e, f := (xy - zw) / 2.0, 1.0 - (xx + zz) / 2.0, (yz + xw) / 2.0;
      a * d + b * e + c * f == 0.0
  {
    var a, b, c := 1.0 - (yy + zz) / 2.0, (xy + zw) / 2.0, (xz - yw) / 2.0;
    var d, e, f := (xy - zw) / 2.0, 1.0 - (xx + zz) / 2.0, (yz + xw) / 2.0;
    assert 4.0 * (c * f) == zz * xy + xx * zw - yy * zw - ww * xy;
    assert xy * (xx + yy + zz + ww) == 4.0 * xy;
  }

  lemma CrossDiagonal(xx: real, yy: real, zz: real, ww: real, xy: real, xz: real, xw: real, yz: real)
    requires xx + yy + zz + ww == 4.0
    requires yz * yz == yy * zz && xw * xw == ww * xx
    ensures
      (1.0 - (xx + zz) / 2.0) * (1.0 - (xx + yy) / 2.0) - (yz + xw) / 2.0 * ((yz - xw) / 2.0) == 1.0 - (yy + zz) / 2.0
  {
    assert 4.0 * ((yz + xw) / 2.0 * ((yz - xw) / 2.0)) == yy * zz - ww * xx;
    assert xx * (xx + yy + zz + ww) == 4.0 * xx;
  }

  lemma CrossBelow(xx: real, yy: real, zz: real, ww: real, xy: real, xz: real, xw: real, yz: real, yw: real, zw: real)
    requires xx + yy + zz + ww == 4.0
    requires yz * xz == zz * xy && yz * yw == yy * zw && xw * xz == xx * zw && xw * yw == ww * xy
    ensures
      (yz + xw) / 2.0 * ((xz + yw) / 2.0) - (1.0 - (xx + yy) / 2.0) * ((xy - zw) / 2.0) == (xy + zw) / 2.0
  {
    assert 4.0 * ((yz + xw) / 2.0 * ((xz + yw) / 2.0)) == zz * xy + yy * zw + xx * zw + ww * xy;
    assert xy * (xx + yy + zz + ww) == 4.0 * xy;
  }

  lemma CrossBottom(xx: real, yy: real, zz: real, ww: real, xy: real, xz: real, xw: real, yz: real, yw: real,
          zw: real)
    requires xx + yy + zz + ww == 4.0
    requires xy * yz == yy * xz && xy * xw == xx * yw && zw * yz == zz * yw && zw * xw == ww * xz
    ensures
      (xy - zw) / 2.0 * ((yz - xw) / 2.0) - (xz + yw) / 2.0 * (1.0 - (xx + zz) / 2.0) == (xz - yw) / 2.0
  {
    assert 4.0 * ((xy - zw) / 2.0 * ((yz - xw) / 2.0)) == yy * xz - xx * yw - zz * yw + ww * xz;
    assert xz * (xx + yy + zz + ww) == 4.0 * xz;
  }

  // The first column of the form's matrix is the cross product of the other two.

  lemma FirstCross(f: Form)
    requires UnitForm(f)
    ensures var m := FormMatrix(f); m.m11 * m.m22 - m.m21 * m.m12 == m.m00
  {
    FormLawHolds(f, RowY);
    FormLawHolds(f, RowW);
    CrossDiagonal(f.xx, f.yy, f.zz, f.ww, f.xy, f.xz, f.xw, f.yz);
  }

  lemma SecondCross(f: Form)
    requires UnitForm(f)
    ensures var m := FormMatrix(f); m.m21 * m.m02 - m.m22 * m.m01 == m.m10
  {
    FormLawHolds(f, RowX);
    FormLawHolds(f, RowY);
    FormLawHolds(f, RowZ);
    FormLawHolds(f, RowW);
    CrossBelow(f.xx, f.yy, f.zz, f.ww, f.xy, f.xz, f.xw, f.yz, f.yw, f.zw);
  }

  lemma ThirdCross(f: Form)
    requires UnitForm(f)
    ensures var m := FormMatrix(f); m.m01 * m.m12 - m.m02 * m.m11 == m.m20
  {
    FormLawHolds(f, RowX);
    FormLawHolds(f, RowY);
    FormLawHolds(f, RowZ);
    FormLawHolds(f, RowW);
    CrossBottom(f.xx, f.yy, f.zz, f.ww, f.xy, f.xz, f.xw, f.yz, f.yw, f.zw);
  }

  /** The six equations that make columns orthonormal. */
  datatype ColumnLaw = FirstNorm | SecondNorm | ThirdNorm | FirstSecond | SecondThird | ThirdFirst

  ghost predicate ColumnsObey(m: Matrix, law: ColumnLaw) {
    match law
    case FirstNorm => m.m00 * m.m00 + m.m10 * m.m10 + m.m20 * m.m20 == 1.0
    case SecondNorm => m.m11 * m.m11 + m.m21 * m.m21 + m.m01 * m.m01 == 1.0
    case ThirdNorm => m.m22 * m.m22 + m.m02 * m.m02 + m.m12 * m.m12 == 1.0
    case FirstSecond => m.m00 * m.m01 + m.m10 * m.m11 + m.m20 * m.m21 == 0.0
    case SecondThird => m.m11 * m.m12 + m.m21 * m.m22 + m.m01 * m.m02 == 0.0
    case ThirdFirst => m.m22 * m.m20 + m.m02 * m.m00 + m.m12 * m.m10 == 0.0
  }

  lemma FirstNormOfForm(f: Form)
    requires UnitForm(f)
    ensures ColumnSquare(f.yy, f.zz, f.xy, f.xz, f.yw, f.zw) == 1.0
  {
    FormLawHolds(f, NormX);
    ColumnNorm(f.xx, f.yy, f.zz, f.ww, f.xy, f.xz, f.yw, f.zw);
  }

  lemma FirstColumnNorm(f: Form)
    requires UnitForm(f)
    ensures var m := FormMatrix(f); m.m00 * m.m00 + m.m10 * m.m10 + m.m20 * m.m20 == 1.0
  {
    FirstNormOfForm(f);
  }

  lemma SecondNormOfForm(f: Form)
    requires UnitForm(f)
    ensures ColumnSquare(f.zz, f.xx, f.yz, f.xy, f.zw, f.xw) == 1.0
  {
    FormLawHolds(f, NormY);
    ColumnNorm(f.yy, f.zz, f.xx, f.ww, f.yz, f.xy, f.zw, f.xw);
  }

  lemma SecondColumnNorm(f: Form)
    requires UnitForm(f)
    ensures var m := FormMatrix(f); m.m11 * m.m11 + m.m21 * m.m21 + m.m01 * m.m01 == 1.0
  {
    SecondNormOfForm(f);
  }

  lemma ThirdNormOfForm(f: Form)
    requires UnitForm(f)
    ensures ColumnSquare(f.xx, f.yy, f.xz, f.yz, f.xw, f.yw) == 1.0
  {
    FormLawHolds(f, NormZ);
    ColumnNorm(f.zz, f.xx, f.yy, f.ww, f.xz, f.yz, f.xw, f.yw);
  }

  lemma ThirdColumnNorm(f: Form)
    requires UnitForm(f)
    ensures var m := FormMatrix(f); m.m22 * m.m22 + m.m02 * m.m02 + m.m12 * m.m12 == 1.0
  {
    ThirdNormOfForm(f);
  }

  lemma FirstColumnProduct(f: Form)
    requires UnitForm(f)
    ensures var m := FormMatrix(f); m.m00 * m.m01 + m.m10 * m.m11 + m.m20 * m.m21 == 0.0
  {
    FormLawHolds(f, RowX);
    FormLawHolds(f, RowY);
    FormLawHolds(f, RowZ);
    FormLawHolds(f, RowW);
    ColumnProduct(f.xx, f.yy, f.zz, f.ww, f.xy, f.xz, f.xw, f.yz, f.yw, f.zw);
  }

  lemma SecondColumnProduct(f: Form)
    requires UnitForm(f)
    ensures var m := FormMatrix(f); m.m11 * m.m12 + m.m21 * m.m22 + m.m01 * m.m02 == 0.0
  {
    FormLawHolds(f, RowX);
    FormLawHolds(f, RowY);
    FormLawHolds(f, RowZ);
    FormLawHolds(f, RowW);
    ColumnProduct(f.yy, f.zz, f.xx, f.ww, f.yz, f.xy, f.yw, f.xz, f.zw, f.xw);
  }

  lemma ThirdColumnProduct(f: Form)
    requires UnitForm(f)
    ensures var m := FormMatrix(f); m.m22 * m.m20 + m.m02 * m.m00 + m.m12 * m.m10 == 0.0
  {
    FormLawHolds(f, RowX);
    FormLawHolds(f, RowY);
    FormLawHolds(f, RowZ);
    FormLawHolds(f, RowW);
    ColumnProduct(f.zz, f.xx, f.yy, f.ww, f.xz, f.yz, f.zw, f.xy, f.xw, f.yw);
  }

  lemma OrthonormalColumns(m: Matrix)
    requires forall law: ColumnLaw :: ColumnsObey(m, law)
    ensures ColumnsOrthonormal(m)
  {
    assert ColumnsObey(m, FirstNorm) && ColumnsObey(m, SecondNorm) && ColumnsObey(m, ThirdNorm);
    assert ColumnsObey(m, FirstSecond) && ColumnsObey(m, SecondThird) && ColumnsObey(m, ThirdFirst);
  }

  lemma CrossGivesDeterminant(m: Matrix)
    requires ColumnsOrthonormal(m)
    requires m.m11 * m.m22 - m.m21 * m.m12 == m.m00 && m.m21 * m.m02 - m.m22 * m.m01 == m.m10
        && m.m01 * m.m12 - m.m02 * m.m11 == m.m20
    ensures Determinant(m) == 1.0
  {
    TripleProducts(m);
  }

  lemma FormColumnsObey(f: Form, law: ColumnLaw)
    requires UnitForm(f)
    ensures ColumnsObey(FormMatrix(f), law)
  {
    match law
    case FirstNorm => FirstColumnNorm(f);
    case SecondNorm => SecondColumnNorm(f);
    case ThirdNorm => ThirdColumnNorm(f);
    case FirstSecond => FirstColumnProduct(f);
    case SecondThird => SecondColumnProduct(f);
    case ThirdFirst => ThirdColumnProduct(f);
  }

  lemma FormColumnsOrthonormal(f: Form)
    requires UnitForm(f)
    ensures ColumnsOrthonormal(FormMatrix(f))
  {
    forall law: ColumnLaw ensures ColumnsObey(FormMatrix(f), law) {
      FormColumnsObey(f, law);
    }
    OrthonormalColumns(FormMatrix(f));
  }

  lemma FormMatrixIsRotation(f: Form)
    requires UnitForm(f)
    ensures IsRotation(FormMatrix(f))
  {
    FormColumnsOrthonormal(f);
    FirstCross(f);
    SecondCross(f);
    ThirdCross(f);
    CrossGivesDeterminant(FormMatrix(f));
  }

  lemma ScaledIsUnit(q: Quaternion, norm: real)
    requires norm > 0.0 && Root(norm, SquaredNorm(q))
    ensures SquaredNorm(Scaled(q, norm)) == 1.0
  {
    var k := norm * norm;
    SameSignProduct(norm, norm, k);
    ScaledSquare(q.x, norm, k);
    ScaledSquare(q.y, norm, k);
    ScaledSquare(q.z, norm, k);
    ScaledSquare(q.w, norm, k);
    SumOfShares(q.x * q.x, q.y * q.y, q.z * q.z, q.w * q.w, k);
  }

  lemma ScaledSquare(a: real, norm: real, k: real)
    requires norm > 0.0 && k > 0.0 && k == norm * norm
    ensures (a / norm) * (a / norm) == (a * a) / k
  {
    var u := a / norm;
    assert u * norm == a;
    assert (u * norm) * (u * norm) == (u * u) * k;
  }

  lemma SumOfShares(a: real, b: real, c: real, d: real, k: real)
    requires k > 0.0 && a + b + c + d == k
    ensures a / k + b / k + c / k + d / k == 1.0
  {
    assert k * (a / k) == a && k * (b / k) == b && k * (c / k) == c && k * (d / k) == d;
    CancelFactor(k, a / k + b / k + c / k + d / k, 1.0);
  }

  /** For every nonzero quaternion the matrix is a rotation: rows and columns orthonormal, determinant one. */
  lemma MatrixIsRotation(q: Quaternion, norm: real)
    requires norm > 0.0 && Root(norm, SquaredNorm(q))
    ensures IsRotation(MatrixFromQuaternion(q, norm))
    ensures ColumnsOrthonormal(Transposed(MatrixFromQuaternion(q, norm)))
  {
    var u := Scaled(q, norm);
    ScaledIsUnit(q, norm);
    QuaternionHasUnitForm(u);
    FormMatrixIsRotation(QuaternionForm(u));
    UnitMatrixOfForm(u);
    RotationRowsOrthonormal(MatrixFromQuaternion(q, norm));
  }

  lemma SameUpToSign(p: Quaternion, q: Quaternion)
    requires QuaternionForm(p) == QuaternionForm(q)
    ensures p == q || p == Negated(q)
  {
    AlignedWithX(p, q);
    AlignedWithY(p, q);
    AlignedWithZ(p, q);
    OneSign(p, q);
  }

  lemma AlignedWithX(p: Quaternion, q: Quaternion)
    requires QuaternionForm(p) == QuaternionForm(q)
    ensures Aligned(p.x, p.y, q.x, q.y) && Aligned(p.x, p.z, q.x, q.z) && Aligned(p.x, p.w, q.x, q.w)
  {
    SameSigns(p.x, p.y, q.x, q.y);
    SameSigns(p.x, p.z, q.x, q.z);
    SameSigns(p.x, p.w, q.x, q.w);
  }

  lemma AlignedWithY(p: Quaternion, q: Quaternion)
    requires QuaternionForm(p) == QuaternionForm(q)
    ensures Aligned(p.y, p.z, q.y, q.z) && Aligned(p.y, p.w, q.y, q.w)
  {
    SameSigns(p.y, p.z, q.y, q.z);
    SameSigns(p.y, p.w, q.y, q.w);
  }

  lemma AlignedWithZ(p: Quaternion, q: Quaternion)
    requires QuaternionForm(p) == QuaternionForm(q)
    ensures Aligned(p.z, p.w, q.z, q.w)
  {
    SameSigns(p.z, p.w, q.z, q.w);
  }

  predicate Aligned(a: real, b: real, c: real, d: real) {
    (a == c && b == d) || (a == -c && b == -d)
  }

  lemma OneSign(p: Quaternion, q: Quaternion)
    requires Aligned(p.x, p.y, q.x, q.y) && Aligned(p.x, p.z, q.x, q.z) && Aligned(p.x, p.w, q.x, q.w)
    requires Aligned(p.y, p.z, q.y, q.z) && Aligned(p.y, p.w, q.y, q.w) && Aligned(p.z, p.w, q.z, q.w)
    ensures p == q || p == Negated(q)
  {
  }

  /** Two components that keep their squares and their product change sign together. */
  lemma SameSigns(a: real, b: real, c: real, d: real)
    requires 4.0 * (a * a) == 4.0 * (c * c) && 4.0 * (b * b) == 4.0 * (d * d) && 4.0 * (a * b) == 4.0 * (c * d)
    ensures Aligned(a, b, c, d)
  {
    EqualSquares(a, c);
    EqualSquares(b, d);
    if a == c && b == -d {
      assert c * d == 0.0;
    } else if a == -c && b == d {
      assert c * d == 0.0;
    }
  }

  lemma EqualSquares(a: real, b: real)
    requires a * a == b * b
    ensures a == b || a == -b
  {
    assert (a - b) * (a + b) == 0.0;
  }

  /**
   For every nonzero quaternion, converting to a matrix and back gives the normalised quaternion or its
   negation, whichever has w >= 0, and the division on the way is by at least two.
   */
  lemma QuaternionRoundTrip(q: Quaternion, norm: real, root: real, norm2: real)
    requires norm > 0.0 && Root(norm, SquaredNorm(q))
    requires root > 0.0 && Root(root, Radicand(MatrixFromQuaternion(q, norm)))
    requires Root(norm2, SquaredNorm(RawQuaternion(MatrixFromQuaternion(q, norm), root)))
    ensures norm2 == 1.0 && 2.0 * root >= 2.0
    ensures
      var r, u := QuaternionFromMatrix(MatrixFromQuaternion(q, norm), root, norm2), Scaled(q, norm);
      && (r == u || r == Negated(u))
      && r.w >= 0.0
  {
    var m, u := MatrixFromQuaternion(q, norm), Scaled(q, norm);
    MatrixIsRotation(q, norm);
    RadicandAtLeastOne(m, root);
    ResultForm(m, root, norm2);
    ScaledIsUnit(q, norm);
    UnitMatrixForm(u);
    SameUpToSign(QuaternionFromMatrix(m, root, norm2), u);
  }
}
