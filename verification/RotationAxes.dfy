/**
 Which rotation a quaternion's matrix is: the one that the quaternion itself performs on vectors, by the
 Hamilton product.
 */
module RotationAxes {
  import opened Transforms

  datatype Part = PartX | PartY | PartZ | PartW

  function PartOf(q: Quaternion, p: Part): real {
    match p
    case PartX => q.x
    case PartY => q.y
    case PartZ => q.z
    case PartW => q.w
  }

  /** The Hamilton product, part by part. */
  function ProductPart(a: Quaternion, b: Quaternion, p: Part): real {
    match p
    case PartX => a.w * b.x + a.x * b.w + a.y * b.z - a.z * b.y
    case PartY => a.w * b.y - a.x * b.z + a.y * b.w + a.z * b.x
    case PartZ => a.w * b.z + a.x * b.y - a.y * b.x + a.z * b.w
    case PartW => a.w * b.w - a.x * b.x - a.y * b.y - a.z * b.z
  }

  ghost predicate IsProduct(a: Quaternion, b: Quaternion, product: Quaternion) {
    forall p: Part :: PartOf(product, p) == ProductPart(a, b, p)
  }

  function Conjugate(q: Quaternion): Quaternion {
    Quaternion(-q.x, -q.y, -q.z, q.w)
  }

  /** A vector as a quaternion without scalar part. */
  function Vector(a: real, b: real, c: real): Quaternion {
    Quaternion(a, b, c, 0.0)
  }

  /** The unit quaternion turns v into q v q*. */
  ghost predicate Turns(q: Quaternion, v: Quaternion, turned: Quaternion) {
    exists t :: IsProduct(q, v, t) && IsProduct(t, Conjugate(q), turned)
  }

  lemma FirstAxisX(q: Quaternion)
    requires SquaredNorm(q) == 1.0
    ensures ProductPart(Quaternion(q.w, q.z, -q.y, -q.x), Conjugate(q), PartX) == UnitMatrix(q).m00
  {
  }

  lemma FirstAxisY(q: Quaternion)
    ensures ProductPart(Quaternion(q.w, q.z, -q.y, -q.x), Conjugate(q), PartY) == UnitMatrix(q).m10
  {
  }

  lemma FirstAxisZ(q: Quaternion)
    ensures ProductPart(Quaternion(q.w, q.z, -q.y, -q.x), Conjugate(q), PartZ) == UnitMatrix(q).m20
  {
  }

  lemma FirstAxisW(q: Quaternion)
    ensures ProductPart(Quaternion(q.w, q.z, -q.y, -q.x), Conjugate(q), PartW) == 0.0
  {
  }

  lemma FirstAxisTurned(q: Quaternion)
    requires SquaredNorm(q) == 1.0
    ensures
      var m := UnitMatrix(q);
      Turns(q, Vector(1.0, 0.0, 0.0), Vector(m.m00, m.m10, m.m20))
  {
    var m, t := UnitMatrix(q), Quaternion(q.w, q.z, -q.y, -q.x);
    forall p: Part ensures PartOf(Vector(m.m00, m.m10, m.m20), p) == ProductPart(t, Conjugate(q), p) {
      match p
      case PartX => FirstAxisX(q);
      case PartY => FirstAxisY(q);
      case PartZ => FirstAxisZ(q);
      case PartW => FirstAxisW(q);
    }
    assert IsProduct(q, Vector(1.0, 0.0, 0.0), t);
    assert IsProduct(t, Conjugate(q), Vector(m.m00, m.m10, m.m20));
  }

  lemma SecondAxisX(q: Quaternion)
    ensures ProductPart(Quaternion(-q.z, q.w, q.x, -q.y), Conjugate(q), PartX) == UnitMatrix(q).m01
  {
  }

  lemma SecondAxisY(q: Quaternion)
    requires SquaredNorm(q) == 1.0
    ensures ProductPart(Quaternion(-q.z, q.w, q.x, -q.y), Conjugate(q), PartY) == UnitMatrix(q).m11
  {
  }

  lemma SecondAxisZ(q: Quaternion)
    ensures ProductPart(Quaternion(-q.z, q.w, q.x, -q.y), Conjugate(q), PartZ) == UnitMatrix(q).m21
  {
  }

  lemma SecondAxisW(q: Quaternion)
    ensures ProductPart(Quaternion(-q.z, q.w, q.x, -q.y), Conjugate(q), PartW) == 0.0
  {
  }

  lemma SecondAxisTurned(q: Quaternion)
    requires SquaredNorm(q) == 1.0
    ensures
      var m := UnitMatrix(q);
      Turns(q, Vector(0.0, 1.0, 0.0), Vector(m.m01, m.m11, m.m21))
  {
    var m, t := UnitMatrix(q), Quaternion(-q.z, q.w, q.x, -q.y);
    forall p: Part ensures PartOf(Vector(m.m01, m.m11, m.m21), p) == ProductPart(t, Conjugate(q), p) {
      match p
      case PartX => SecondAxisX(q);
      case PartY => SecondAxisY(q);
      case PartZ => SecondAxisZ(q);
      case PartW => SecondAxisW(q);
    }
    assert IsProduct(q, Vector(0.0, 1.0, 0.0), t);
    assert IsProduct(t, Conjugate(q), Vector(m.m01, m.m11, m.m21));
  }

  lemma ThirdAxisX(q: Quaternion)
    ensures ProductPart(Quaternion(q.y, -q.x, q.w, -q.z), Conjugate(q), PartX) == UnitMatrix(q).m02
  {
  }

  lemma ThirdAxisY(q: Quaternion)
    ensures ProductPart(Quaternion(q.y, -q.x, q.w, -q.z), Conjugate(q), PartY) == UnitMatrix(q).m12
  {
  }

  lemma ThirdAxisZ(q: Quaternion)
    requires SquaredNorm(q) == 1.0
    ensures ProductPart(Quaternion(q.y, -q.x, q.w, -q.z), Conjugate(q), PartZ) == UnitMatrix(q).m22
  {
  }

  lemma ThirdAxisW(q: Quaternion)
    ensures ProductPart(Quaternion(q.y, -q.x, q.w, -q.z), Conjugate(q), PartW) == 0.0
  {
  }

  lemma ThirdAxisTurned(q: Quaternion)
    requires SquaredNorm(q) == 1.0
    ensures
      var m := UnitMatrix(q);
      Turns(q, Vector(0.0, 0.0, 1.0), Vector(m.m02, m.m12, m.m22))
  {
    var m, t := UnitMatrix(q), Quaternion(q.y, -q.x, q.w, -q.z);
    forall p: Part ensures PartOf(Vector(m.m02, m.m12, m.m22), p) == ProductPart(t, Conjugate(q), p) {
      match p
      case PartX => ThirdAxisX(q);
      case PartY => ThirdAxisY(q);
      case PartZ => ThirdAxisZ(q);
      case PartW => ThirdAxisW(q);
    }
    assert IsProduct(q, Vector(0.0, 0.0, 1.0), t);
    assert IsProduct(t, Conjugate(q), Vector(m.m02, m.m12, m.m22));
  }

  /** The columns of the matrix are where the quaternion, scaled to length one, turns the three axes. */
  lemma MatrixTurnsAxes(q: Quaternion, norm: real)
    requires norm > 0.0 && Root(norm, SquaredNorm(q))
    ensures
      var m, u := MatrixFromQuaternion(q, norm), Scaled(q, norm);
      && Turns(u, Vector(1.0, 0.0, 0.0), Vector(m.m00, m.m10, m.m20))
      && Turns(u, Vector(0.0, 1.0, 0.0), Vector(m.m01, m.m11, m.m21))
      && Turns(u, Vector(0.0, 0.0, 1.0), Vector(m.m02, m.m12, m.m22))
  {
    ScaledIsUnit(q, norm);
    FirstAxisTurned(Scaled(q, norm));
    SecondAxisTurned(Scaled(q, norm));
    ThirdAxisTurned(Scaled(q, norm));
  }
}
