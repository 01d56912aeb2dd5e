/** The behaviour every field model shares: evaluation in Cartesian
    coordinates on top of the spherical `calc_field`, and evaluation over an
    (N, 3) array of positions, serially and row-parallel. */
module Field {
  import opened Numerics
  import Convert

  /** `calc_field`: a field model as a map from a spherical position
      (r, theta, phi) to the field components (Br, Btheta, Bphi). */
  type FieldFn = Vec3 -> Vec3

  /** `calc_field_xyz`: converts the Cartesian position to (r, theta, phi),
      evaluates the field there and turns its components into (Bx, By, Bz)
      with the converted theta and phi. */
  function CalcFieldXyz(m: Math, f: FieldFn, p: Vec3): Vec3
    requires Convert.Radius(m, p) != 0.0
  {
    var q := Convert.PosXyzToRtp(m, p);
    Convert.VecRtpToXyz(m, f(q), q.c1, q.c2)
  }

  /** The Cartesian field, taken back to the spherical basis at the converted
      angles, is the spherical field at the converted position. */
  lemma CalcFieldXyzThenBack(m: Math, f: FieldFn, p: Vec3)
    requires Lawful(m)
    requires Convert.Radius(m, p) != 0.0
    ensures Convert.VecXyzToRtp(m, CalcFieldXyz(m, f, p), Convert.PosXyzToRtp(m, p).c1, Convert.PosXyzToRtp(m, p).c2)
         == f(Convert.PosXyzToRtp(m, p))
  {
    var q := Convert.PosXyzToRtp(m, p);
    assert AngleLaws(m, q.c1) && AngleLaws(m, q.c2);
    Convert.VecRtpToXyzThenBack(m, f(q), q.c1, q.c2);
  }

  /** Under the laws of the transcendental functions the Cartesian field has
      the length of the spherical one. */
  lemma CalcFieldXyzKeepsNorm(m: Math, f: FieldFn, p: Vec3)
    requires Lawful(m)
    requires Convert.Radius(m, p) != 0.0
    ensures SqNorm(CalcFieldXyz(m, f, p)) == SqNorm(f(Convert.PosXyzToRtp(m, p)))
  {
    var q := Convert.PosXyzToRtp(m, p);
    assert AngleLaws(m, q.c1) && AngleLaws(m, q.c2);
    Convert.VecRtpToXyzKeepsNorm(m, f(q), q.c1, q.c2);
  }

  /** Row i of an array with at least three columns, read as a vector. */
  function RowOf(a: array2<real>, i: nat): Vec3
    requires i < a.Length0 && 3 <= a.Length1
    reads a
  {
    Vec3(a[i, 0], a[i, 1], a[i, 2])
  }

  /** `x.assign(v)` on the first three columns of row i: the other rows and
      any further columns stay. */
  method AssignRow(result: array2<real>, i: nat, v: Vec3)
    requires i < result.Length0 && 3 <= result.Length1
    modifies result
    ensures RowOf(result, i) == v
    ensures forall k :: 0 <= k < result.Length0 && k != i ==> RowOf(result, k) == old(RowOf(result, k))
    ensures forall k, j :: 0 <= k < result.Length0 && 3 <= j < result.Length1 ==> result[k, j] == old(result[k, j])
  {
    result[i, 0] := v.c0;
    result[i, 1] := v.c1;
    result[i, 2] := v.c2;
  }

  /** `map_calc_field`: row i of the (N, 3) result is the field at the
      spherical position in row i of `positions`; with no rows the result is
      0 x 3. `positions` is only read. */
  method MapCalcField(f: FieldFn, positions: array2<real>) returns (result: array2<real>)
    requires 3 <= positions.Length1
    ensures fresh(result)
    ensures result.Length0 == positions.Length0 && result.Length1 == 3
    ensures forall i :: 0 <= i < positions.Length0 ==> RowOf(result, i) == f(RowOf(positions, i))
  {
    result := new real[positions.Length0, 3]((_, _) => 0.0);
    var i := 0;
    while i < positions.Length0
      invariant 0 <= i <= positions.Length0
      invariant forall k :: 0 <= k < i ==> RowOf(result, k) == f(RowOf(positions, k))
    {
      AssignRow(result, i, f(RowOf(positions, i)));
      i := i + 1;
    }
  }

  /** `parmap_calc_field`: every row is computed on its own, which the
      simultaneous assignment states; the contract is that of `MapCalcField`,
      so the two return equal arrays. */
  method ParmapCalcField(f: FieldFn, positions: array2<real>) returns (result: array2<real>)
    requires 3 <= positions.Length1
    ensures fresh(result)
    ensures result.Length0 == positions.Length0 && result.Length1 == 3
    ensures forall i :: 0 <= i < positions.Length0 ==> RowOf(result, i) == f(RowOf(positions, i))
  {
    result := new real[positions.Length0, 3]((_, _) => 0.0);
    forall i, j | 0 <= i < positions.Length0 && 0 <= j < 3 {
      result[i, j] := Component(f(RowOf(positions, i)), j);
    }
  }

  /** Every row of `positions`, read as a Cartesian point, is off the origin. */
  ghost predicate OffOrigin(m: Math, positions: array2<real>)
    requires 3 <= positions.Length1
    reads positions
  {
    forall i :: 0 <= i < positions.Length0 ==> Convert.Radius(m, RowOf(positions, i)) != 0.0
  }

  /** `map_calc_field_xyz`: row i of the result is `calc_field_xyz` of row i
      of `positions`. */
  method MapCalcFieldXyz(m: Math, f: FieldFn, positions: array2<real>) returns (result: array2<real>)
    requires 3 <= positions.Length1 && OffOrigin(m, positions)
    ensures fresh(result)
    ensures result.Length0 == positions.Length0 && result.Length1 == 3
    ensures forall i :: 0 <= i < positions.Length0 ==> RowOf(result, i) == CalcFieldXyz(m, f, RowOf(positions, i))
  {
    result := new real[positions.Length0, 3]((_, _) => 0.0);
    var i := 0;
    while i < positions.Length0
      invariant 0 <= i <= positions.Length0
      invariant forall k :: 0 <= k < i ==> RowOf(result, k) == CalcFieldXyz(m, f, RowOf(positions, k))
    {
      AssignRow(result, i, CalcFieldXyz(m, f, RowOf(positions, i)));
      i := i + 1;
    }
  }

  /** `parmap_calc_field_xyz`, with the contract of `MapCalcFieldXyz`. */
  method ParmapCalcFieldXyz(m: Math, f: FieldFn, positions: array2<real>) returns (result: array2<real>)
    requires 3 <= positions.Length1 && OffOrigin(m, positions)
    ensures fresh(result)
    ensures result.Length0 == positions.Length0 && result.Length1 == 3
    ensures forall i :: 0 <= i < positions.Length0 ==> RowOf(result, i) == CalcFieldXyz(m, f, RowOf(positions, i))
  {
    result := new real[positions.Length0, 3]((_, _) => 0.0);
    forall i, j | 0 <= i < positions.Length0 && 0 <= j < 3 {
      result[i, j] := Component(CalcFieldXyz(m, f, RowOf(positions, i)), j);
    }
  }
}
