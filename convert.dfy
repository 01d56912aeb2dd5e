/** Position and vector conversions between the Cartesian and spherical
    descriptions, and between the planet-fixed (IAU) and magnetic-dipole
    (MAG) Cartesian frames. Angles are radians; a spherical position is
    (r, theta, phi) with theta the colatitude and phi the east longitude. */
module Convert {
  import opened Numerics

  /** The Euclidean radius of a Cartesian position, `sqrt(x^2 + y^2 + z^2)`. */
  function Radius(m: Math, p: Vec3): real {
    m.sqrt(SqNorm(p))
  }

  /** Cartesian position to (r, theta, phi). At the origin the f64 code divides
      0 by 0; the model asks for a non-zero radius instead. */
  function PosXyzToRtp(m: Math, p: Vec3): Vec3
    requires Radius(m, p) != 0.0
  {
    var r := Radius(m, p);
    Vec3(r, m.acos(p.c2 / r), m.atan2(p.c1, p.c0))
  }

  /** (r, theta, phi) to a Cartesian position. */
  function PosRtpToXyz(m: Math, q: Vec3): Vec3 {
    SphericalPoint(q.c0, m.sin(q.c1), m.cos(q.c1), m.sin(q.c2), m.cos(q.c2))
  }

  /** The point at radius `r` whose colatitude has sine and cosine `st`, `ct`
      and whose longitude has sine and cosine `sp`, `cp`. */
  function SphericalPoint(r: real, st: real, ct: real, sp: real, cp: real): Vec3 {
    Vec3(r * st * cp, r * st * sp, r * ct)
  }

  /** A vector's Cartesian components to its (r, theta, phi) components at
      the point with colatitude `theta` and longitude `phi`. */
  function VecXyzToRtp(m: Math, a: Vec3, theta: real, phi: real): Vec3 {
    ToSphericalBasis(a, m.sin(theta), m.cos(theta), m.sin(phi), m.cos(phi))
  }

  /** A vector's (r, theta, phi) components to its Cartesian components. */
  function VecRtpToXyz(m: Math, a: Vec3, theta: real, phi: real): Vec3 {
    ToCartesianBasis(a, m.sin(theta), m.cos(theta), m.sin(phi), m.cos(phi))
  }

  /** The basis change of `VecXyzToRtp` in terms of the sines and cosines
      `st`, `ct` of theta and `sp`, `cp` of phi. */
  function ToSphericalBasis(a: Vec3, st: real, ct: real, sp: real, cp: real): Vec3 {
    Vec3(a.c0 * st * cp + a.c1 * st * sp + a.c2 * ct,
         a.c0 * ct * cp + a.c1 * ct * sp - a.c2 * st,
         -(a.c0 * sp) + a.c1 * cp)
  }

  /** The basis change of `VecRtpToXyz`, likewise. */
  function ToCartesianBasis(a: Vec3, st: real, ct: real, sp: real, cp: real): Vec3 {
    Vec3(a.c0 * st * cp + a.c1 * ct * cp - a.c2 * sp,
         a.c0 * st * sp + a.c1 * ct * sp + a.c2 * cp,
         a.c0 * ct - a.c1 * st)
  }

  function RotX(m: Math, angle: real): Mat3 {
    Mat3(Vec3(1.0, 0.0, 0.0),
         Vec3(0.0, m.cos(angle), -m.sin(angle)),
         Vec3(0.0, m.sin(angle), m.cos(angle)))
  }

  function RotY(m: Math, angle: real): Mat3 {
    Mat3(Vec3(m.cos(angle), 0.0, m.sin(angle)),
         Vec3(0.0, 1.0, 0.0),
         Vec3(-m.sin(angle), 0.0, m.cos(angle)))
  }

  function RotZ(m: Math, angle: real): Mat3 {
    Mat3(Vec3(m.cos(angle), -m.sin(angle), 0.0),
         Vec3(m.sin(angle), m.cos(angle), 0.0),
         Vec3(0.0, 0.0, 1.0))
  }

  /** IAU to MAG: rotate by -phiD about z, then by -thetaD about y. */
  function VecIauToMag(m: Math, a: Vec3, thetaD: real, phiD: real): Vec3 {
    MatVec(MatMul(RotY(m, -thetaD), RotZ(m, -phiD)), a)
  }

  /** MAG to IAU: rotate by thetaD about y, then by phiD about z. */
  function VecMagToIau(m: Math, a: Vec3, thetaD: real, phiD: real): Vec3 {
    MatVec(MatMul(RotZ(m, phiD), RotY(m, thetaD)), a)
  }

  // ----- basis conversions -----

  lemma ToCartesianThenBack(a: Vec3, st: real, ct: real, sp: real, cp: real)
    requires OnCircle(st, ct) && OnCircle(sp, cp)
    ensures ToSphericalBasis(ToCartesianBasis(a, st, ct, sp, cp), st, ct, sp, cp) == a
  {
  }

  lemma ToSphericalThenBack(a: Vec3, st: real, ct: real, sp: real, cp: real)
    requires OnCircle(st, ct) && OnCircle(sp, cp)
    ensures ToCartesianBasis(ToSphericalBasis(a, st, ct, sp, cp), st, ct, sp, cp) == a
  {
    var b := ToSphericalBasis(a, st, ct, sp, cp);
    var u := a.c0 * cp + a.c1 * sp;
    assert b.c0 == a.c2 * ct + u * st && b.c1 == u * ct - a.c2 * st;
    RotationUndone(a.c2, u, st, ct);
    RotationUndone(a.c0, a.c1, sp, cp);
    var c := ToCartesianBasis(b, st, ct, sp, cp);
    assert c.c0 == (b.c0 * st + b.c1 * ct) * cp - b.c2 * sp;
    assert c.c1 == (b.c0 * st + b.c1 * ct) * sp + b.c2 * cp;
  }

  lemma ToSphericalKeepsNorm(a: Vec3, st: real, ct: real, sp: real, cp: real)
    requires OnCircle(st, ct) && OnCircle(sp, cp)
    ensures SqNorm(ToSphericalBasis(a, st, ct, sp, cp)) == SqNorm(a)
  {
    var u := a.c0 * cp + a.c1 * sp;
    RotationKeepsSquaredLength(a.c0, a.c1, sp, cp);
    RotationKeepsSquaredLength(u, a.c2, ct, st);
    var b := ToSphericalBasis(a, st, ct, sp, cp);
    assert b.c0 == u * st + a.c2 * ct;
    assert b.c1 == -(a.c2 * st - u * ct);
    assert b.c2 == a.c1 * cp - a.c0 * sp;
  }

  /** The two basis conversions undo each other, given only that the sines
      and cosines of theta and phi lie on the unit circle. */
  lemma VecRtpToXyzThenBack(m: Math, a: Vec3, theta: real, phi: real)
    requires OnCircle(m.sin(theta), m.cos(theta)) && OnCircle(m.sin(phi), m.cos(phi))
    ensures VecXyzToRtp(m, VecRtpToXyz(m, a, theta, phi), theta, phi) == a
  {
    ToCartesianThenBack(a, m.sin(theta), m.cos(theta), m.sin(phi), m.cos(phi));
  }

  lemma VecXyzToRtpThenBack(m: Math, a: Vec3, theta: real, phi: real)
    requires OnCircle(m.sin(theta), m.cos(theta)) && OnCircle(m.sin(phi), m.cos(phi))
    ensures VecRtpToXyz(m, VecXyzToRtp(m, a, theta, phi), theta, phi) == a
  {
    ToSphericalThenBack(a, m.sin(theta), m.cos(theta), m.sin(phi), m.cos(phi));
  }

  /** Both basis conversions are rotations: they keep the squared length. */
  lemma VecXyzToRtpKeepsNorm(m: Math, a: Vec3, theta: real, phi: real)
    requires OnCircle(m.sin(theta), m.cos(theta)) && OnCircle(m.sin(phi), m.cos(phi))
    ensures SqNorm(VecXyzToRtp(m, a, theta, phi)) == SqNorm(a)
  {
    ToSphericalKeepsNorm(a, m.sin(theta), m.cos(theta), m.sin(phi), m.cos(phi));
  }

  lemma VecRtpToXyzKeepsNorm(m: Math, a: Vec3, theta: real, phi: real)
    requires OnCircle(m.sin(theta), m.cos(theta)) && OnCircle(m.sin(phi), m.cos(phi))
    ensures SqNorm(VecRtpToXyz(m, a, theta, phi)) == SqNorm(a)
  {
    var st, ct, sp, cp := m.sin(theta), m.cos(theta), m.sin(phi), m.cos(phi);
    var b := ToCartesianBasis(a, st, ct, sp, cp);
    ToCartesianThenBack(a, st, ct, sp, cp);
    ToSphericalKeepsNorm(b, st, ct, sp, cp);
  }

  // ----- positions -----

  /** A spherical position lies at distance r from the origin. */
  lemma PosRtpToXyzSquaredRadius(m: Math, q: Vec3)
    requires Lawful(m)
    ensures SqNorm(PosRtpToXyz(m, q)) == q.c0 * q.c0
  {
    assert AngleLaws(m, q.c1) && AngleLaws(m, q.c2);
    SphericalPointSquaredRadius(q.c0, m.sin(q.c1), m.cos(q.c1), m.sin(q.c2), m.cos(q.c2));
  }

  lemma SphericalPointSquaredRadius(r: real, st: real, ct: real, sp: real, cp: real)
    requires OnCircle(st, ct) && OnCircle(sp, cp)
    ensures SqNorm(SphericalPoint(r, st, ct, sp, cp)) == r * r
  {
    assert (r * st * cp) * (r * st * cp) + (r * st * sp) * (r * st * sp) == (r * st) * (r * st) * (sp * sp + cp * cp);
    assert (r * st) * (r * st) + (r * ct) * (r * ct) == r * r * (st * st + ct * ct);
  }

  /** The radius is the positive root of the squared length, and the
      colatitude's cosine z / r lies in the domain of acos. */
  lemma PosXyzToRtpRadius(m: Math, p: Vec3)
    requires Lawful(m) && Radius(m, p) != 0.0
    ensures 0.0 < PosXyzToRtp(m, p).c0
    ensures PosXyzToRtp(m, p).c0 * PosXyzToRtp(m, p).c0 == SqNorm(p)
    ensures -1.0 <= p.c2 / PosXyzToRtp(m, p).c0 <= 1.0
  {
    SquaresNonNegative(p.c0, p.c1, p.c2);
    assert SqrtLaws(m, SqNorm(p));
    CosineInRange(p.c2, PlanarSqNorm(p.c0, p.c1), Radius(m, p));
  }

  lemma CosineInRange(z: real, s: real, r: real)
    requires 0.0 <= s && z * z + s == r * r && 0.0 <= r && r != 0.0
    ensures 0.0 < r && -1.0 <= z / r <= 1.0
  {
    if z > r {
      SquareStrictlyIncreasing(r, z);
      assert false;
    }
    if -z > r {
      SquareStrictlyIncreasing(r, -z);
      assert false;
    }
  }

  /** Converting a non-zero Cartesian position to spherical and back gives the
      position again. */
  lemma PosXyzToRtpThenBack(m: Math, p: Vec3)
    requires Lawful(m) && Radius(m, p) != 0.0
    ensures PosRtpToXyz(m, PosXyzToRtp(m, p)) == p
  {
    PosXyzToRtpRadius(m, p);
    var r := Radius(m, p);
    var theta := m.acos(p.c2 / r);
    var phi := m.atan2(p.c1, p.c0);
    var rho := m.sqrt(PlanarSqNorm(p.c0, p.c1));
    SquaresNonNegative(p.c0, p.c1, p.c2);
    assert AcosLaws(m, p.c2 / r) && AngleLaws(m, theta);
    assert SqrtLaws(m, PlanarSqNorm(p.c0, p.c1)) && Atan2Laws(m, p.c1, p.c0);
    SphericalRoundTrip(p, r, m.sin(theta), m.cos(theta), rho, m.sin(phi), m.cos(phi));
  }

  /** The algebra of the position round trip: with r the radius, (st, ct)
      the sine and cosine of the colatitude and (sp, cp) those of the
      azimuth, which the cylindrical radius rho scales back to x and y. */
  lemma SphericalRoundTrip(p: Vec3, r: real, st: real, ct: real, rho: real, sp: real, cp: real)
    requires r * r == SqNorm(p) && 0.0 < r && ct == p.c2 / r
    requires 0.0 <= st && OnCircle(st, ct)
    requires 0.0 <= rho && rho * rho == PlanarSqNorm(p.c0, p.c1)
    requires rho * cp == p.c0 && rho * sp == p.c1
    ensures SphericalPoint(r, st, ct, sp, cp) == p
  {
    assert r * ct == p.c2;
    assert (r * st) * (r * st) == r * r - (r * ct) * (r * ct) by {
      assert (r * st) * (r * st) + (r * ct) * (r * ct) == r * r * (st * st + ct * ct);
    }
    if 0.0 < st {
      MulPositive(r, st);
    }
    NonNegativeSquareRootUnique(r * st, rho);
  }

  // ----- rotations -----

  /** Each rotation leaves the coordinate along its own axis unchanged. */
  lemma RotXKeepsX(m: Math, angle: real, v: Vec3)
    ensures MatVec(RotX(m, angle), v).c0 == v.c0
  {
  }

  lemma RotYKeepsY(m: Math, angle: real, v: Vec3)
    ensures MatVec(RotY(m, angle), v).c1 == v.c1
  {
  }

  lemma RotZKeepsZ(m: Math, angle: real, v: Vec3)
    ensures MatVec(RotZ(m, angle), v).c2 == v.c2
  {
  }

  /** A rotation followed by the rotation by the opposite angle, in either
      order, is the identity. */
  lemma RotXInverse(m: Math, angle: real)
    requires Lawful(m)
    ensures MatMul(RotX(m, angle), RotX(m, -angle)) == Identity
    ensures MatMul(RotX(m, -angle), RotX(m, angle)) == Identity
  {
    assert AngleLaws(m, angle);
    var s, c := m.sin(angle), m.cos(angle);
    assert RotX(m, angle) == Mat3(Vec3(1.0, 0.0, 0.0), Vec3(0.0, c, -s), Vec3(0.0, s, c));
    assert RotX(m, -angle) == Mat3(Vec3(1.0, 0.0, 0.0), Vec3(0.0, c, s), Vec3(0.0, -s, c));
    RotationXAlgebra(s, c);
  }

  lemma RotationXAlgebra(s: real, c: real)
    requires OnCircle(s, c)
    ensures MatMul(Mat3(Vec3(1.0, 0.0, 0.0), Vec3(0.0, c, -s), Vec3(0.0, s, c)), Mat3(Vec3(1.0, 0.0, 0.0), Vec3(0.0, c, s), Vec3(0.0, -s, c))) == Identity
    ensures MatMul(Mat3(Vec3(1.0, 0.0, 0.0), Vec3(0.0, c, s), Vec3(0.0, -s, c)), Mat3(Vec3(1.0, 0.0, 0.0), Vec3(0.0, c, -s), Vec3(0.0, s, c))) == Identity
  {
  }

  lemma RotYInverse(m: Math, angle: real)
    requires Lawful(m)
    ensures MatMul(RotY(m, angle), RotY(m, -angle)) == Identity
    ensures MatMul(RotY(m, -angle), RotY(m, angle)) == Identity
  {
    assert AngleLaws(m, angle);
    var s, c := m.sin(angle), m.cos(angle);
    assert RotY(m, angle) == Mat3(Vec3(c, 0.0, s), Vec3(0.0, 1.0, 0.0), Vec3(-s, 0.0, c));
    assert RotY(m, -angle) == Mat3(Vec3(c, 0.0, -s), Vec3(0.0, 1.0, 0.0), Vec3(s, 0.0, c));
    RotationYAlgebra(s, c);
  }

  lemma RotationYAlgebra(s: real, c: real)
    requires OnCircle(s, c)
    ensures MatMul(Mat3(Vec3(c, 0.0, s), Vec3(0.0, 1.0, 0.0), Vec3(-s, 0.0, c)), Mat3(Vec3(c, 0.0, -s), Vec3(0.0, 1.0, 0.0), Vec3(s, 0.0, c))) == Identity
    ensures MatMul(Mat3(Vec3(c, 0.0, -s), Vec3(0.0, 1.0, 0.0), Vec3(s, 0.0, c)), Mat3(Vec3(c, 0.0, s), Vec3(0.0, 1.0, 0.0), Vec3(-s, 0.0, c))) == Identity
  {
  }

  lemma RotZInverse(m: Math, angle: real)
    requires Lawful(m)
    ensures MatMul(RotZ(m, angle), RotZ(m, -angle)) == Identity
    ensures MatMul(RotZ(m, -angle), RotZ(m, angle)) == Identity
  {
    assert AngleLaws(m, angle);
    var s, c := m.sin(angle), m.cos(angle);
    assert RotZ(m, angle) == Mat3(Vec3(c, -s, 0.0), Vec3(s, c, 0.0), Vec3(0.0, 0.0, 1.0));
    assert RotZ(m, -angle) == Mat3(Vec3(c, s, 0.0), Vec3(-s, c, 0.0), Vec3(0.0, 0.0, 1.0));
    RotationZAlgebra(s, c);
  }

  lemma RotationZAlgebra(s: real, c: real)
    requires OnCircle(s, c)
    ensures MatMul(Mat3(Vec3(c, -s, 0.0), Vec3(s, c, 0.0), Vec3(0.0, 0.0, 1.0)), Mat3(Vec3(c, s, 0.0), Vec3(-s, c, 0.0), Vec3(0.0, 0.0, 1.0))) == Identity
    ensures MatMul(Mat3(Vec3(c, s, 0.0), Vec3(-s, c, 0.0), Vec3(0.0, 0.0, 1.0)), Mat3(Vec3(c, -s, 0.0), Vec3(s, c, 0.0), Vec3(0.0, 0.0, 1.0))) == Identity
  {
  }

  /** MAG to IAU undoes IAU to MAG, and the other way round. */
  lemma VecIauToMagThenBack(m: Math, a: Vec3, thetaD: real, phiD: real)
    requires Lawful(m)
    ensures VecMagToIau(m, VecIauToMag(m, a, thetaD, phiD), thetaD, phiD) == a
  {
    RotYInverse(m, thetaD);
    RotZInverse(m, phiD);
    UndoTwoMatrices(RotY(m, -thetaD), RotZ(m, -phiD), RotY(m, thetaD), RotZ(m, phiD), a);
  }

  lemma VecMagToIauThenBack(m: Math, a: Vec3, thetaD: real, phiD: real)
    requires Lawful(m)
    ensures VecIauToMag(m, VecMagToIau(m, a, thetaD, phiD), thetaD, phiD) == a
  {
    RotZInverse(m, phiD);
    RotYInverse(m, thetaD);
    UndoTwoMatrices(RotZ(m, phiD), RotY(m, thetaD), RotZ(m, -phiD), RotY(m, -thetaD), a);
  }

  /** If `c` undoes `a` and `d` undoes `b`, then `d c` undoes `a b`. */
  lemma UndoTwoMatrices(a: Mat3, b: Mat3, c: Mat3, d: Mat3, v: Vec3)
    requires MatMul(c, a) == Identity && MatMul(d, b) == Identity
    ensures MatVec(MatMul(d, c), MatVec(MatMul(a, b), v)) == v
  {
    var w := MatVec(b, v);
    MatMulAssociatesOnVectors(a, b, v);
    MatMulAssociatesOnVectors(d, c, MatVec(a, w));
    MatMulAssociatesOnVectors(c, a, w);
    MatMulAssociatesOnVectors(d, b, v);
  }
}
