/** The stand-alone vector helpers: a Cartesian vector to spherical
    components at its own direction, spherical components back to Cartesian
    ones at a given (theta, phi), and that conversion over the rows of an
    array, serially and row-parallel. */
module Aux {
  import opened Numerics
  import Convert
  import Field

  /** The cylindrical radius `sqrt(x^2 + y^2)` of a vector. */
  function CylindricalRadius(m: Math, a: Vec3): real {
    m.sqrt(PlanarSqNorm(a.c0, a.c1))
  }

  /** `convert_vec_xyz_to_rtp` as written: theta is taken as
      `acos(z / sqrt(x^2 + y^2))` and phi as `atan2(y, x)`, and the vector is
      expressed in the spherical basis at those angles. The f64 code divides
      by the cylindrical radius, which the model asks to be non-zero. */
  function ConvertVecXyzToRtpAsWritten(m: Math, a: Vec3): Vec3
    requires CylindricalRadius(m, a) != 0.0
  {
    var theta := m.acos(a.c2 / CylindricalRadius(m, a));
    var phi := m.atan2(a.c1, a.c0);
    Convert.VecXyzToRtp(m, a, theta, phi)
  }

  /** The conversion with theta the colatitude of the vector's own
      direction, `acos(z / sqrt(x^2 + y^2 + z^2))`, as the standard
      Cartesian-to-spherical transform defines it. */
  function ConvertVecXyzToRtp(m: Math, a: Vec3): Vec3
    requires Convert.Radius(m, a) != 0.0
  {
    var q := Convert.PosXyzToRtp(m, a);
    Convert.VecXyzToRtp(m, a, q.c1, q.c2)
  }

  /** phi is the vector's own azimuth, so its phi component vanishes; this
      holds whatever theta is, hence for the code as written. */
  lemma AsWrittenHasNoAzimuthalComponent(m: Math, a: Vec3)
    requires Lawful(m)
    requires CylindricalRadius(m, a) != 0.0
    ensures ConvertVecXyzToRtpAsWritten(m, a).c2 == 0.0
  {
    var phi := m.atan2(a.c1, a.c0);
    assert Atan2Laws(m, a.c1, a.c0);
    AzimuthCancels(a.c0, a.c1, CylindricalRadius(m, a), m.sin(phi), m.cos(phi));
  }

  lemma AzimuthCancels(x: real, y: real, rho: real, sp: real, cp: real)
    requires rho * cp == x && rho * sp == y
    ensures -(x * sp) + y * cp == 0.0
  {
    assert x * sp == rho * cp * sp;
    assert y * cp == rho * sp * cp;
  }

  /** As written, the vector (1, 0, 1) is given theta = acos(1) = 0 instead
      of its colatitude pi/4, and comes out as (1, 1, 0) rather than the
      purely radial (sqrt 2, 0, 0). */
  lemma AsWrittenIsNotRadial(m: Math)
    requires Lawful(m)
    ensures CylindricalRadius(m, Vec3(1.0, 0.0, 1.0)) == 1.0
    ensures ConvertVecXyzToRtpAsWritten(m, Vec3(1.0, 0.0, 1.0)) == Vec3(1.0, 1.0, 0.0)
  {
    var a := Vec3(1.0, 0.0, 1.0);
    assert PlanarSqNorm(a.c0, a.c1) == 1.0;
    assert SqrtLaws(m, 1.0);
    SquareRootOfOne(m.sqrt(1.0));
    var theta := m.acos(1.0);
    var phi := m.atan2(0.0, 1.0);
    assert AcosLaws(m, 1.0) && AngleLaws(m, theta);
    SineWhereCosineIsOne(m.sin(theta), m.cos(theta));
    assert Atan2Laws(m, 0.0, 1.0);
    assert m.cos(phi) == 1.0 && m.sin(phi) == 0.0;
  }

  lemma SquareRootOfOne(s: real)
    requires 0.0 <= s && s * s == 1.0
    ensures s == 1.0
  {
    NonNegativeSquareRootUnique(s, 1.0);
  }

  lemma SineWhereCosineIsOne(s: real, c: real)
    requires c == 1.0 && OnCircle(s, c) && 0.0 <= s
    ensures s == 0.0
  {
    NonNegativeSquareRootUnique(s, 0.0);
  }

  /** With the colatitude of the vector's own direction, the vector is purely
      radial there: its r component is its length and the other two vanish. */
  lemma VectorIsRadialAtItsOwnDirection(m: Math, a: Vec3)
    requires Lawful(m)
    requires Convert.Radius(m, a) != 0.0
    ensures ConvertVecXyzToRtp(m, a) == Vec3(Convert.Radius(m, a), 0.0, 0.0)
  {
    var q := Convert.PosXyzToRtp(m, a);
    Convert.PosXyzToRtpThenBack(m, a);
    assert AngleLaws(m, q.c1) && AngleLaws(m, q.c2);
    SphericalPointIsRadial(q.c0, m.sin(q.c1), m.cos(q.c1), m.sin(q.c2), m.cos(q.c2));
  }

  lemma SphericalPointIsRadial(r: real, st: real, ct: real, sp: real, cp: real)
    requires OnCircle(st, ct) && OnCircle(sp, cp)
    ensures Convert.ToSphericalBasis(Convert.SphericalPoint(r, st, ct, sp, cp), st, ct, sp, cp) == Vec3(r, 0.0, 0.0)
  {
    assert (r * st * cp) * st * cp + (r * st * sp) * st * sp + (r * ct) * ct
        == r * (st * st * (cp * cp + sp * sp) + ct * ct);
    assert (r * st * cp) * ct * cp + (r * st * sp) * ct * sp - (r * ct) * st
        == r * st * ct * (cp * cp + sp * sp - 1.0);
    assert -((r * st * cp) * sp) + (r * st * sp) * cp == 0.0;
  }

  /** `convert_vec_rtp_to_xyz`: the spherical components (Br, Btheta, Bphi)
      at colatitude `theta` and longitude `phi` in the Cartesian basis; the
      same map as the position-dependent conversion of the field module. */
  function ConvertVecRtpToXyz(m: Math, a: Vec3, theta: real, phi: real): (r: Vec3)
    ensures r == Convert.VecRtpToXyz(m, a, theta, phi)
  {
    var st, ct, sp, cp := m.sin(theta), m.cos(theta), m.sin(phi), m.cos(phi);
    Vec3(a.c0 * st * cp + a.c1 * ct * cp - a.c2 * sp,
         a.c0 * st * sp + a.c1 * ct * sp + a.c2 * cp,
         a.c0 * ct - a.c1 * st)
  }

  /** The corrected conversion and `convert_vec_rtp_to_xyz` at the vector's
      own angles undo each other. */
  lemma ConvertVecXyzToRtpThenBack(m: Math, a: Vec3)
    requires Lawful(m)
    requires Convert.Radius(m, a) != 0.0
    ensures ConvertVecRtpToXyz(m, ConvertVecXyzToRtp(m, a), Convert.PosXyzToRtp(m, a).c1, Convert.PosXyzToRtp(m, a).c2) == a
  {
    var q := Convert.PosXyzToRtp(m, a);
    assert AngleLaws(m, q.c1) && AngleLaws(m, q.c2);
    Convert.VecXyzToRtpThenBack(m, a, q.c1, q.c2);
  }

  /** `convert_vec_rtp_to_xyz` keeps the length of the vector. */
  lemma ConvertVecRtpToXyzKeepsNorm(m: Math, a: Vec3, theta: real, phi: real)
    requires Lawful(m)
    ensures SqNorm(ConvertVecRtpToXyz(m, a, theta, phi)) == SqNorm(a)
  {
    assert AngleLaws(m, theta) && AngleLaws(m, phi);
    Convert.VecRtpToXyzKeepsNorm(m, a, theta, phi);
  }

  /** Row i of `val` converted at the theta and phi stored in columns 1 and 2
      of row i of `positions`. */
  function ConvertedRow(m: Math, val: array2<real>, positions: array2<real>, i: nat): Vec3
    requires i < val.Length0 && 3 <= val.Length1
    requires i < positions.Length0 && 3 <= positions.Length1
    reads val, positions
  {
    ConvertVecRtpToXyz(m, Field.RowOf(val, i), positions[i, 1], positions[i, 2])
  }

  /** `convert_arr_rtp_to_xyz_serial`: a zero array of `val`'s shape whose
      first three columns of row i receive the converted row i; columns past
      the third stay zero. Rows of `positions` past those of `val` are not
      read. */
  method ConvertArrRtpToXyzSerial(m: Math, val: array2<real>, positions: array2<real>) returns (result: array2<real>)
    requires 3 <= val.Length1
    requires val.Length0 <= positions.Length0 && 3 <= positions.Length1
    ensures fresh(result)
    ensures result.Length0 == val.Length0 && result.Length1 == val.Length1
    ensures forall i :: 0 <= i < val.Length0 ==> Field.RowOf(result, i) == ConvertedRow(m, val, positions, i)
    ensures forall i, j :: 0 <= i < val.Length0 && 3 <= j < val.Length1 ==> result[i, j] == 0.0
  {
    result := new real[val.Length0, val.Length1]((_, _) => 0.0);
    var i := 0;
    while i < val.Length0
      invariant 0 <= i <= val.Length0
      invariant forall k :: 0 <= k < i ==> Field.RowOf(result, k) == ConvertedRow(m, val, positions, k)
      invariant forall k, j :: 0 <= k < val.Length0 && 3 <= j < val.Length1 ==> result[k, j] == 0.0
    {
      var tmp := ConvertVecRtpToXyz(m, Field.RowOf(val, i), positions[i, 1], positions[i, 2]);
      Field.AssignRow(result, i, tmp);
      i := i + 1;
    }
  }

  /** `convert_arr_rtp_to_xyz_parallel`: the rows of the result, `val` and
      `positions` are zipped, so the two inputs have the same number of rows;
      every row is converted on its own and the result is the serial one. */
  method ConvertArrRtpToXyzParallel(m: Math, val: array2<real>, positions: array2<real>) returns (result: array2<real>)
    requires 3 <= val.Length1
    requires val.Length0 == positions.Length0 && 3 <= positions.Length1
    ensures fresh(result)
    ensures result.Length0 == val.Length0 && result.Length1 == val.Length1
    ensures forall i :: 0 <= i < val.Length0 ==> Field.RowOf(result, i) == ConvertedRow(m, val, positions, i)
    ensures forall i, j :: 0 <= i < val.Length0 && 3 <= j < val.Length1 ==> result[i, j] == 0.0
  {
    result := new real[val.Length0, val.Length1]((_, _) => 0.0);
    forall i, j | 0 <= i < val.Length0 && 0 <= j < 3 {
      result[i, j] := Component(ConvertedRow(m, val, positions, i), j);
    }
  }
}
