/** The current-sheet (CON2020-style) field: its six parameters, how they
    are chosen and read back, and how the axisymmetric disc field, computed
    in the magnetic-dipole frame in cylindrical components, becomes a
    spherical field vector in the planet-fixed frame. The analytic disc
    formulas themselves are a parameter. */
module CurrentSheet {
  import opened Numerics
  import Convert

  /** An f64 parameter value; NaN is what marks "no outer edge" for r_1. */
  datatype F64 = Num(v: real) | NaN

  /** Why construction fails (the source panics with these messages). */
  datatype Error =
    | ParamsRequired
    | MissingParam(key: string)
    | UnknownFieldType(name: string)

  datatype Result<T> = Ok(value: T) | Err(error: Error)

  /** The sheet's inner edge r_0, outer edge r_1 (NaN when the sheet is
      semi-infinite), half-thickness d, current constant mu0*I/2 and the
      dipole tilt theta_d and longitude phi_d, in radians. */
  datatype CurrentSheetField = CurrentSheetField(
    r0: real, r1: F64, d: real, mu0I2: real, thetaD: real, phiD: real)

  type Params = map<string, F64>

  /** The keys a "Custom" parameter map must hold, in the order they are
      checked. */
  const ParamNames: seq<string> := ["r_0", "r_1", "d", "mu0_i_2", "theta_d", "phi_d"]

  /** The model keeps NaN only where the program gives it a meaning: every
      given parameter other than r_1 is a number. */
  predicate NumericExceptOuterEdge(p: Params) {
    forall k :: k in p && k in ParamNames && k != "r_1" ==> p[k].Num?
  }

  /** The first of `keys` missing from `p`, if any. */
  function FirstMissing(keys: seq<string>, p: Params): (r: Option<string>)
    ensures r.None? <==> forall k :: k in keys ==> k in p
    ensures r.Some? ==> exists i :: 0 <= i < |keys| && keys[i] == r.value && r.value !in p
                                    && forall j :: 0 <= j < i ==> keys[j] in p
  {
    if keys == [] then None
    else if keys[0] !in p then Some(keys[0])
    else
      var rest := FirstMissing(keys[1..], p);
      assert forall k :: k in keys ==> k == keys[0] || k in keys[1..];
      if rest.Some? then
        assert exists i :: 1 <= i < |keys| && keys[i] == rest.value && rest.value !in p
                           && forall j :: 1 <= j < i ==> keys[j] in p;
        rest
      else
        rest
  }

  /** The CON2020 preset. */
  function Con2020(m: Math): CurrentSheetField {
    CurrentSheetField(7.8, Num(51.4), 3.6, 139.6, 9.3 * m.pi / 180.0, 204.2 * m.pi / 180.0)
  }

  /** The field built from a parameter map that holds all six keys. */
  function FromParams(p: Params): CurrentSheetField
    requires forall k :: k in ParamNames ==> k in p
    requires NumericExceptOuterEdge(p)
  {
    CurrentSheetField(p["r_0"].v, p["r_1"], p["d"].v, p["mu0_i_2"].v, p["theta_d"].v, p["phi_d"].v)
  }

  /** `CurrentSheetField::new`: the CON2020 preset (any parameters are
      ignored), or the six values of a "Custom" map; no map, a missing key
      (the first one in `ParamNames` order is reported) or another field
      type is an error. */
  function New(m: Math, fieldType: string, params: Option<Params>): (r: Result<CurrentSheetField>)
    requires params.Some? ==> NumericExceptOuterEdge(params.value)
    ensures r.Ok? ==> fieldType == "CON2020" || fieldType == "Custom"
    ensures r.Err? && r.error.MissingParam? ==> fieldType == "Custom" && params.Some?
                                                && r.error.key in ParamNames && r.error.key !in params.value
  {
    if fieldType == "CON2020" then Ok(Con2020(m))
    else if fieldType == "Custom" then
      if params.None? then Err(ParamsRequired)
      else match FirstMissing(ParamNames, params.value)
        case Some(k) => Err(MissingParam(k))
        case None => Ok(FromParams(params.value))
    else Err(UnknownFieldType(fieldType))
  }

  /** `get_params`: the six parameters under their names. */
  function GetParams(f: CurrentSheetField): (r: Params)
    ensures r.Keys == set k | k in ParamNames
    ensures NumericExceptOuterEdge(r)
  {
    map["r_0" := Num(f.r0), "r_1" := f.r1, "d" := Num(f.d), "mu0_i_2" := Num(f.mu0I2),
        "theta_d" := Num(f.thetaD), "phi_d" := Num(f.phiD)]
  }

  // ----- construction and parameters -----

  lemma Con2020Parameters(m: Math, params: Option<Params>)
    requires params.Some? ==> NumericExceptOuterEdge(params.value)
    ensures New(m, "CON2020", params).Ok?
    ensures var f := New(m, "CON2020", params).value;
      && f.r0 == 7.8 && f.r1 == Num(51.4) && f.d == 3.6 && f.mu0I2 == 139.6
      && f.thetaD == 9.3 * m.pi / 180.0 && f.phiD == 204.2 * m.pi / 180.0
  {
  }

  /** A "Custom" field is built exactly when the map holds all six keys. */
  lemma CustomBuiltIffAllKeys(m: Math, p: Params)
    requires NumericExceptOuterEdge(p)
    ensures New(m, "Custom", Some(p)).Ok? <==> forall k :: k in ParamNames ==> k in p
  {
  }

  /** A missing key is reported, and it is the first missing one. */
  lemma MissingKeyIsReported(m: Math, p: Params, key: string)
    requires NumericExceptOuterEdge(p)
    requires key in ParamNames && key !in p
    ensures New(m, "Custom", Some(p)).Err?
    ensures var e := New(m, "Custom", Some(p)).error;
      && e.MissingParam? && e.key !in p
      && exists i :: 0 <= i < |ParamNames| && ParamNames[i] == e.key && forall j :: 0 <= j < i ==> ParamNames[j] in p
  {
  }

  lemma OtherConstructionErrors(m: Math, fieldType: string, params: Option<Params>)
    requires params.Some? ==> NumericExceptOuterEdge(params.value)
    ensures New(m, "Custom", None) == Err(ParamsRequired)
    ensures fieldType != "CON2020" && fieldType != "Custom" ==> New(m, fieldType, params) == Err(UnknownFieldType(fieldType))
  {
  }

  /** `get_params` of a "Custom" field gives back the six given values. */
  lemma CustomParamsRoundTrip(m: Math, p: Params)
    requires NumericExceptOuterEdge(p)
    requires New(m, "Custom", Some(p)).Ok?
    ensures forall k :: k in ParamNames ==> k in p && GetParams(New(m, "Custom", Some(p)).value)[k] == p[k]
  {
    assert forall k :: k in ParamNames ==> k in p;
  }

  /** Building a "Custom" field from the parameters of a field gives that
      field back. */
  lemma GetParamsThenCustom(m: Math, f: CurrentSheetField)
    ensures New(m, "Custom", Some(GetParams(f))) == Ok(f)
  {
    assert forall k :: k in ParamNames ==> k in GetParams(f);
  }

  // ----- the disc -----

  /** f64 `signum` on the values where it is used (a zero argument gives 1,
      as +0.0 does). */
  function Signum(z: real): real {
    if z < 0.0 then -1.0 else 1.0
  }

  /** The z* of the `rho > a` branch: z inside the sheet, the nearer face
      (signum(z) * d) outside it. */
  function ZStar(z: real, d: real): (zs: real)
    ensures Abs(zs) <= Abs(d)
    ensures Abs(z) <= Abs(d) ==> zs == z
    ensures Abs(d) < Abs(z) ==> Abs(zs) == Abs(d) && (0.0 <= zs * z <==> 0.0 <= d)
  {
    if Abs(z) <= Abs(d) then z else Signum(z) * d
  }

  /** Cylindrical components (B_rho, B_z) in the magnetic frame. */
  datatype CylField = CylField(bRho: real, bZ: real)

  /** The bracketed analytic expressions of the disc field, each multiplied
      by mu0*I/2 in the program: `beyond(rho, z, z*, a, d)` for rho > a and
      `within(rho, z, a, d)` otherwise. */
  datatype DiscTerms = DiscTerms(
    beyond: (real, real, real, real, real) -> CylField,
    within: (real, real, real, real) -> CylField)

  /** `_calc_field(rho, z, a)`: the field of a semi-infinite sheet with inner
      edge a. */
  function CalcDisc(t: DiscTerms, d: real, mu: real, rho: real, z: real, a: real): CylField {
    var u := if rho > a then t.beyond(rho, z, ZStar(z, d), a, d) else t.within(rho, z, a, d);
    CylField(mu * u.bRho, mu * u.bZ)
  }

  /** The disc at r_0, minus the disc at r_1 when r_1 is not NaN. */
  function SheetCylField(t: DiscTerms, f: CurrentSheetField, rho: real, z: real): CylField {
    var inner := CalcDisc(t, f.d, f.mu0I2, rho, z, f.r0);
    if f.r1.Num? then
      var outer := CalcDisc(t, f.d, f.mu0I2, rho, z, f.r1.v);
      CylField(inner.bRho - outer.bRho, inner.bZ - outer.bZ)
    else inner
  }

  /** A position in the magnetic frame in cylindrical coordinates. */
  datatype CylPosition = CylPosition(rho: real, z: real)

  /** The spherical IAU position q moved to the magnetic frame, as
      (sqrt(x^2 + y^2), z). */
  function MagCylPosition(m: Math, thetaD: real, phiD: real, q: Vec3): CylPosition {
    var p := Convert.VecIauToMag(m, Convert.PosRtpToXyz(m, q), thetaD, phiD);
    CylPosition(m.sqrt(PlanarSqNorm(p.c0, p.c1)), p.c2)
  }

  /** (B_rho, B_z) as Cartesian magnetic-frame components, B_rho split into
      x and y with the IAU longitude phi, as the program does. */
  function MagCartesian(m: Math, phi: real, b: CylField): Vec3 {
    Vec3(b.bRho * m.cos(phi), b.bRho * m.sin(phi), b.bZ)
  }

  /** The rotation taking magnetic-frame components to IAU ones. */
  function MagToIauMatrix(m: Math, thetaD: real, phiD: real): Mat3 {
    MatMul(Convert.RotZ(m, phiD), Convert.RotY(m, thetaD))
  }

  /** From (B_rho, B_z) in the magnetic frame to (Br, Btheta, Bphi) in the
      IAU frame at q. */
  function ToIauSpherical(m: Math, thetaD: real, phiD: real, q: Vec3, b: CylField): Vec3 {
    Convert.VecXyzToRtp(m, Convert.VecMagToIau(m, MagCartesian(m, q.c2, b), thetaD, phiD), q.c1, q.c2)
  }

  /** `calc_field(r, theta, phi)` of the current sheet. */
  function CalcField(m: Math, t: DiscTerms, f: CurrentSheetField, q: Vec3): Vec3 {
    var c := MagCylPosition(m, f.thetaD, f.phiD, q);
    ToIauSpherical(m, f.thetaD, f.phiD, q, SheetCylField(t, f, c.rho, c.z))
  }

  /** The current sheet as a field model. */
  function AsField(m: Math, t: DiscTerms, f: CurrentSheetField): Vec3 -> Vec3 {
    q => CalcField(m, t, f, q)
  }

  // ----- superposition -----

  /** `k * a + l * b`. */
  function Combine(k: real, a: Vec3, l: real, b: Vec3): Vec3 {
    Add(Scale(k, a), Scale(l, b))
  }

  function CombineCyl(k: real, a: CylField, l: real, b: CylField): CylField {
    CylField(k * a.bRho + l * b.bRho, k * a.bZ + l * b.bZ)
  }

  lemma LinearTerms(k: real, x: real, l: real, y: real, c: real)
    ensures c * (k * x + l * y) == k * (c * x) + l * (c * y)
    ensures (k * x + l * y) * c == k * (x * c) + l * (y * c)
  {
  }

  lemma DotLinear(r: Vec3, k: real, a: Vec3, l: real, b: Vec3)
    ensures Dot(r, Combine(k, a, l, b)) == k * Dot(r, a) + l * Dot(r, b)
  {
    LinearTerms(k, a.c0, l, b.c0, r.c0);
    LinearTerms(k, a.c1, l, b.c1, r.c1);
    LinearTerms(k, a.c2, l, b.c2, r.c2);
  }

  lemma MatVecLinear(mat: Mat3, k: real, a: Vec3, l: real, b: Vec3)
    ensures MatVec(mat, Combine(k, a, l, b)) == Combine(k, MatVec(mat, a), l, MatVec(mat, b))
  {
    DotLinear(mat.r0, k, a, l, b);
    DotLinear(mat.r1, k, a, l, b);
    DotLinear(mat.r2, k, a, l, b);
  }

  /** The spherical basis change as a matrix. */
  function SphericalMatrix(st: real, ct: real, sp: real, cp: real): Mat3 {
    Mat3(Vec3(st * cp, st * sp, ct), Vec3(ct * cp, ct * sp, -st), Vec3(-sp, cp, 0.0))
  }

  lemma SphericalBasisIsMatrix(a: Vec3, st: real, ct: real, sp: real, cp: real)
    ensures Convert.ToSphericalBasis(a, st, ct, sp, cp) == MatVec(SphericalMatrix(st, ct, sp, cp), a)
  {
    assert a.c0 * st * cp == (st * cp) * a.c0;
    assert a.c1 * st * sp == (st * sp) * a.c1;
    assert a.c0 * ct * cp == (ct * cp) * a.c0;
    assert a.c1 * ct * sp == (ct * sp) * a.c1;
  }

  lemma MagCartesianLinear(m: Math, phi: real, k: real, a: CylField, l: real, b: CylField)
    ensures MagCartesian(m, phi, CombineCyl(k, a, l, b)) == Combine(k, MagCartesian(m, phi, a), l, MagCartesian(m, phi, b))
  {
    PlanarSplitLinear(k, a.bRho, a.bZ, l, b.bRho, b.bZ, m.cos(phi), m.sin(phi));
  }

  lemma PlanarSplitLinear(k: real, ar: real, az: real, l: real, br: real, bz: real, c: real, s: real)
    ensures Vec3((k * ar + l * br) * c, (k * ar + l * br) * s, k * az + l * bz)
         == Combine(k, Vec3(ar * c, ar * s, az), l, Vec3(br * c, br * s, bz))
  {
    LinearTerms(k, ar, l, br, c);
    LinearTerms(k, ar, l, br, s);
  }

  /** The conversion of the cylindrical magnetic-frame field to the spherical
      IAU field is linear. */
  lemma ToIauSphericalLinear(m: Math, thetaD: real, phiD: real, q: Vec3, k: real, a: CylField, l: real, b: CylField)
    ensures ToIauSpherical(m, thetaD, phiD, q, CombineCyl(k, a, l, b))
         == Combine(k, ToIauSpherical(m, thetaD, phiD, q, a), l, ToIauSpherical(m, thetaD, phiD, q, b))
  {
    var rot := MagToIauMatrix(m, thetaD, phiD);
    var sph := SphericalMatrix(m.sin(q.c1), m.cos(q.c1), m.sin(q.c2), m.cos(q.c2));
    var va, vb := MagCartesian(m, q.c2, a), MagCartesian(m, q.c2, b);
    MagCartesianLinear(m, q.c2, k, a, l, b);
    MatVecLinear(rot, k, va, l, vb);
    MatVecLinear(sph, k, MatVec(rot, va), l, MatVec(rot, vb));
    SphericalBasisIsMatrix(MatVec(rot, va), m.sin(q.c1), m.cos(q.c1), m.sin(q.c2), m.cos(q.c2));
    SphericalBasisIsMatrix(MatVec(rot, vb), m.sin(q.c1), m.cos(q.c1), m.sin(q.c2), m.cos(q.c2));
    SphericalBasisIsMatrix(MatVec(rot, Combine(k, va, l, vb)), m.sin(q.c1), m.cos(q.c1), m.sin(q.c2), m.cos(q.c2));
  }

  /** At one magnetic-frame position: the sheet with an outer edge is the
      disc at r_0 minus the disc at r_1, and each of those is a sheet with no
      outer edge. */
  lemma SheetIsDifference(t: DiscTerms, f: CurrentSheetField, rho: real, z: real)
    requires f.r1.Num?
    ensures SheetCylField(t, f, rho, z)
         == CombineCyl(1.0, SheetCylField(t, f.(r1 := NaN), rho, z), -1.0, SheetCylField(t, f.(r0 := f.r1.v, r1 := NaN), rho, z))
  {
  }

  lemma EmptyAnnulusSheet(t: DiscTerms, f: CurrentSheetField, rho: real, z: real)
    requires f.r1 == Num(f.r0)
    ensures SheetCylField(t, f, rho, z) == CylField(0.0, 0.0)
  {
  }

  /** With an outer edge, the sheet is the semi-infinite sheet from r_0 minus
      the semi-infinite sheet from r_1. */
  lemma OuterEdgeSubtracts(m: Math, t: DiscTerms, f: CurrentSheetField, q: Vec3)
    requires f.r1.Num?
    ensures CalcField(m, t, f, q)
         == Combine(1.0, CalcField(m, t, f.(r1 := NaN), q), -1.0, CalcField(m, t, f.(r0 := f.r1.v, r1 := NaN), q))
  {
    var c := MagCylPosition(m, f.thetaD, f.phiD, q);
    SheetIsDifference(t, f, c.rho, c.z);
    ToIauSphericalLinear(m, f.thetaD, f.phiD, q, 1.0, SheetCylField(t, f.(r1 := NaN), c.rho, c.z),
                         -1.0, SheetCylField(t, f.(r0 := f.r1.v, r1 := NaN), c.rho, c.z));
  }

  /** A sheet whose outer edge is its inner edge carries no field. */
  lemma EmptyAnnulusHasNoField(m: Math, t: DiscTerms, f: CurrentSheetField, q: Vec3)
    requires f.r1 == Num(f.r0)
    ensures CalcField(m, t, f, q) == Zero
  {
    var c := MagCylPosition(m, f.thetaD, f.phiD, q);
    var zero := CylField(0.0, 0.0);
    EmptyAnnulusSheet(t, f, c.rho, c.z);
    assert zero == CombineCyl(0.0, zero, 0.0, zero);
    ToIauSphericalLinear(m, f.thetaD, f.phiD, q, 0.0, zero, 0.0, zero);
  }

  /** The field is proportional to the current constant mu0*I/2. */
  lemma FieldProportionalToCurrent(m: Math, t: DiscTerms, f: CurrentSheetField, q: Vec3, k: real)
    ensures CalcField(m, t, f.(mu0I2 := k * f.mu0I2), q) == Scale(k, CalcField(m, t, f, q))
  {
    var g := f.(mu0I2 := k * f.mu0I2);
    var c := MagCylPosition(m, f.thetaD, f.phiD, q);
    var b := SheetCylField(t, f, c.rho, c.z);
    ScaledCurrent(t, f, k, c.rho, c.z);
    ToIauSphericalLinear(m, f.thetaD, f.phiD, q, k, b, 0.0, b);
    assert Combine(k, ToIauSpherical(m, f.thetaD, f.phiD, q, b), 0.0, ToIauSpherical(m, f.thetaD, f.phiD, q, b))
        == Scale(k, ToIauSpherical(m, f.thetaD, f.phiD, q, b));
  }

  lemma ScaledCurrent(t: DiscTerms, f: CurrentSheetField, k: real, rho: real, z: real)
    ensures SheetCylField(t, f.(mu0I2 := k * f.mu0I2), rho, z) == CombineCyl(k, SheetCylField(t, f, rho, z), 0.0, SheetCylField(t, f, rho, z))
  {
    var u := if rho > f.r0 then t.beyond(rho, z, ZStar(z, f.d), f.r0, f.d) else t.within(rho, z, f.r0, f.d);
    assert (k * f.mu0I2) * u.bRho == k * (f.mu0I2 * u.bRho);
    assert (k * f.mu0I2) * u.bZ == k * (f.mu0I2 * u.bZ);
    if f.r1.Num? {
      var w := if rho > f.r1.v then t.beyond(rho, z, ZStar(z, f.d), f.r1.v, f.d) else t.within(rho, z, f.r1.v, f.d);
      assert (k * f.mu0I2) * w.bRho == k * (f.mu0I2 * w.bRho);
      assert (k * f.mu0I2) * w.bZ == k * (f.mu0I2 * w.bZ);
      assert (k * f.mu0I2) * u.bRho - (k * f.mu0I2) * w.bRho == k * (f.mu0I2 * u.bRho - f.mu0I2 * w.bRho);
      assert (k * f.mu0I2) * u.bZ - (k * f.mu0I2) * w.bZ == k * (f.mu0I2 * u.bZ - f.mu0I2 * w.bZ);
    }
  }
}
