# iupitermag in Dafny

A model of the numerical core of iupitermag, a library for Jupiter's
magnetic field. Field values are reals. The transcendental functions
(sin, cos, sqrt, acos, atan2 and the constant pi) are the fields of a
`Numerics.Math` record that every operation takes as a parameter. The ghost
predicate `Numerics.Lawful` carries the laws the proofs use:
- `sin^2 + cos^2 = 1`, cos even and sin odd;
- `sqrt(x)^2 = x` and `sqrt(x) >= 0` for `x >= 0`;
- `cos(acos u) = u` and `sin(acos u) >= 0` on [-1, 1];
- `sqrt(x^2+y^2) cos(atan2(y, x)) = x`, and likewise for sin and y.

Two lemmas take further premises instead of `Lawful`:
`InternalPurePython.PowerIsMultipleAngle` and
`InternalPurePython.PowerIsRepeatedAngle`. They assume `cos 0 = 1`,
`sin 0 = 0` and the angle-addition laws
(`InternalPurePython.AdditionLaws`). These premises are used only to read
the rolled phasor of the field synthesis as `(cos mφ, sin mφ)`.

The modules follow the source files:

- `Numerics`: the `Math` record and its laws, vectors, 3x3 matrices and
  small arithmetic lemmas.
- `Convert` (src/convert.rs): position and vector conversions between the
  Cartesian and spherical bases, and the IAU/magnetic frame rotations.
- `Legendre` (src/legendre.rs): the table fill of the Gauss-normalised
  associated Legendre functions and their theta-derivatives. It is
  specified by the recursive functions `P` and `DP`.
- `InternalPurePython` (scripts/internal_pure_python.py): the reference
  Legendre fill seeded with 2, the spherical-harmonic synthesis of
  (Br, Btheta, Bphi), and the coefficient-file reader with its optional
  Schmidt normalisation.
- `Field` (src/field.rs): the default methods of the `Field` trait over a
  field given as a function value. These are the Cartesian evaluation and
  the serial and row-parallel evaluation over an array of positions.
- `Trace` (src/trace.rs): the stopping rule, the combined planetary field,
  the unit tangents and the layout of a traced field line. The Runge-Kutta
  integrator is a parameter.
- `Aux` (src/aux.rs): the stand-alone vector conversions and their array
  versions.
- `CurrentSheet` (src/currentsheet.rs): construction of the current sheet
  (CON2020 preset or custom parameters), `get_params`, the `z*` clamp, and
  the structure of `calc_field`. That structure is: a magnetic-frame disc
  at r_0, minus the disc at r_1 when r_1 is a number, then the conversion
  back to IAU spherical components. The analytic disc expressions are a
  parameter.

## Model

| member | source | states |
|---|---|---|
| Convert.PosXyzToRtp | src/convert.rs:4-11 | definition: (sqrt(x²+y²+z²), acos(z/r), atan2(y, x)); specified by Convert.PosXyzToRtpRadius and Convert.PosXyzToRtpThenBack |
| Convert.PosRtpToXyz | src/convert.rs:14-20 | definition: (r sin θ cos φ, r sin θ sin φ, r cos θ); specified by Convert.PosRtpToXyzSquaredRadius and Convert.PosXyzToRtpThenBack |
| Convert.VecXyzToRtp | src/convert.rs:23-35 | definition: the spherical basis change at (θ, φ); specified by Convert.VecXyzToRtpThenBack and Convert.VecXyzToRtpKeepsNorm |
| Convert.VecRtpToXyz | src/convert.rs:38-50 | definition: the Cartesian basis change at (θ, φ); specified by Convert.VecRtpToXyzThenBack and Convert.VecRtpToXyzKeepsNorm |
| Convert.RotX | src/convert.rs:77-83 | definition: `rot_matrix_x`; specified by Convert.RotXKeepsX and Convert.RotXInverse |
| Convert.RotY | src/convert.rs:86-92 | definition: `rot_matrix_y`; specified by Convert.RotYKeepsY and Convert.RotYInverse |
| Convert.RotZ | src/convert.rs:95-100 | definition: `rot_matrix_z`; specified by Convert.RotZKeepsZ and Convert.RotZInverse |
| Convert.VecIauToMag | src/convert.rs:53-62 | definition: `rot_matrix_y(-θd) rot_matrix_z(-φd) v`; specified by Convert.VecIauToMagThenBack and Convert.VecMagToIauThenBack |
| Convert.VecMagToIau | src/convert.rs:65-74 | definition: `rot_matrix_z(φd) rot_matrix_y(θd) v`; specified by the same two round trips |
| Convert.ToCartesianThenBack | src/convert.rs:23-50 | for unit (sin, cos) pairs, changing the basis to Cartesian and back to spherical gives the vector back |
| Convert.ToSphericalThenBack | src/convert.rs:23-50 | the converse: spherical basis then Cartesian gives the vector back |
| Convert.ToSphericalKeepsNorm | src/convert.rs:23-35 | the spherical basis change keeps the squared length |
| Convert.VecRtpToXyzThenBack | src/convert.rs:23-50 | `vec_xyz_to_rtp(vec_rtp_to_xyz(v, θ, φ), θ, φ) = v` when sin²+cos²=1 for θ and φ |
| Convert.VecXyzToRtpThenBack | src/convert.rs:23-50 | `vec_rtp_to_xyz(vec_xyz_to_rtp(v, θ, φ), θ, φ) = v` |
| Convert.VecXyzToRtpKeepsNorm | src/convert.rs:23-35 | `vec_xyz_to_rtp` keeps the squared Euclidean norm |
| Convert.VecRtpToXyzKeepsNorm | src/convert.rs:38-50 | `vec_rtp_to_xyz` keeps the squared Euclidean norm |
| Convert.PosRtpToXyzSquaredRadius | src/convert.rs:14-20 | the point built from (r, θ, φ) has `x²+y²+z² = r²` |
| Convert.SphericalPointSquaredRadius | src/convert.rs:14-20 | the same identity over the sines and cosines |
| Convert.PosXyzToRtpRadius | src/convert.rs:4-11 | off the origin, r is positive with `r² = x²+y²+z²`, and `z/r` lies in [-1, 1], so acos is applied in range |
| Convert.CosineInRange | src/convert.rs:5-8 | the arithmetic behind it: `z² + s = r²` with s ≥ 0 and r ≥ 0, r ≠ 0, gives `-1 ≤ z/r ≤ 1` |
| Convert.PosXyzToRtpThenBack | src/convert.rs:4-20 | `pos_rtp_to_xyz(pos_xyz_to_rtp(p)) = p` for every p off the origin |
| Convert.SphericalRoundTrip | src/convert.rs:4-20 | the algebra of that round trip, over r, ρ and the angle sines and cosines |
| Convert.RotXKeepsX | src/convert.rs:77-83 | `rot_matrix_x` leaves the x component unchanged |
| Convert.RotYKeepsY | src/convert.rs:86-92 | `rot_matrix_y` leaves the y component unchanged |
| Convert.RotZKeepsZ | src/convert.rs:95-100 | `rot_matrix_z` leaves the z component unchanged |
| Convert.RotXInverse | src/convert.rs:77-83 | `rot_matrix_x(a)` times `rot_matrix_x(-a)` is the identity, in both orders |
| Convert.RotYInverse | src/convert.rs:86-92 | the same for `rot_matrix_y` |
| Convert.RotZInverse | src/convert.rs:95-100 | the same for `rot_matrix_z` |
| Convert.RotationXAlgebra | src/convert.rs:77-83 | the x-rotation matrices are inverse for any unit (sin, cos) pair |
| Convert.RotationYAlgebra | src/convert.rs:86-92 | the same for the y-rotation matrices |
| Convert.RotationZAlgebra | src/convert.rs:95-100 | the same for the z-rotation matrices |
| Convert.VecIauToMagThenBack | src/convert.rs:53-74 | `vec_mag_to_iau(vec_iau_to_mag(v, θd, φd), θd, φd) = v` |
| Convert.VecMagToIauThenBack | src/convert.rs:53-74 | `vec_iau_to_mag(vec_mag_to_iau(v, θd, φd), θd, φd) = v` |
| Convert.UndoTwoMatrices | src/convert.rs:58-73 | a product of two matrices the other product inverts factor by factor is undone |
| Legendre.K | src/legendre.rs:29 | definition: `((n-1)² - m²)/((2n-1)(2n-3))` for n ≥ 2, else the untouched 0; specified by Legendre.KNumeratorNonNegative, Legendre.KDenominatorAtLeastThree and Legendre.SubDiagonal |
| Legendre.P | src/legendre.rs:18-39 | definition: the recurrence of the p table; specified by Legendre.PDiagonal, Legendre.FirstRows, Legendre.AboveDiagonal, Legendre.SubDiagonal and Legendre.PoleDiagonal, and filled by Legendre.AssocLegendrePoly |
| Legendre.DP | src/legendre.rs:19-39 | definition: the recurrence of the dp table; specified by Legendre.DPDiagonal, Legendre.FirstRows and Legendre.AboveDiagonal, and filled by Legendre.AssocLegendrePoly |
| Legendre.AssocLegendrePoly | src/legendre.rs:7-42 | for `n_degree ≥ 1`, returns two fresh `(n_degree+1)`-square tables with p[i, j] = P(i, j) and dp[i, j] = dP(i, j) at every index, entries above the diagonal included |
| Legendre.FillTables | src/legendre.rs:10-41 | the fill over sin θ, cos θ and a coefficient table: every row of both tables holds P and dP |
| Legendre.FillFirstRows | src/legendre.rs:18-24 | rows 0 and 1 hold P and dP; later rows are still zero |
| Legendre.FillRow | src/legendre.rs:27-40 | one pass of the outer loop completes row i and leaves the later rows zero |
| Legendre.FillBelowDiagonal | src/legendre.rs:28-35 | the inner loop writes columns 0 .. i-1 of row i and nothing else |
| Legendre.FillEntry | src/legendre.rs:29-34 | one (i, j) step writes k, p and dp at (i, j) only |
| Legendre.GeneralStep | src/legendre.rs:31-34 | the three-term recurrence from rows i-1 and i-2 gives P(i, j) and dP(i, j) |
| Legendre.DiagonalStep | src/legendre.rs:37-39 | the diagonal step gives P(i, i) and dP(i, i) |
| Legendre.FirstRows | src/legendre.rs:18-24 | P(0,0) = 1, dP(0,0) = 0, P(1,0) = cos θ, P(1,1) = sin θ, dP(1,0) = -sin θ, dP(1,1) = cos θ |
| Legendre.AboveDiagonal | src/legendre.rs:10-12 | every entry with m > n is 0 in both tables |
| Legendre.KNumeratorNonNegative | src/legendre.rs:29 | for j < i the unsigned numerator `(i-1)² - j²` does not underflow |
| Legendre.KDenominatorAtLeastThree | src/legendre.rs:29 | for i ≥ 2 the denominator `(2i-1)(2i-3)` is at least 3 |
| Legendre.PDiagonal | src/legendre.rs:18-21 | diagonal closed form `P(n, n) = sin^n θ` |
| Legendre.DiagonalPowStep | src/legendre.rs:37 | one diagonal step multiplies the power by sin θ |
| Legendre.DPDiagonal | src/legendre.rs:19-23 | derivative diagonal closed form `dP(n, n) = n sin^(n-1) θ cos θ` for n ≥ 1 |
| Legendre.DerivativeDiagonalStep | src/legendre.rs:39 | one derivative diagonal step preserves that closed form |
| Legendre.SubDiagonal | src/legendre.rs:29-31 | `k(n, n-1) = 0`, hence `P(n, n-1) = cos θ P(n-1, n-1)` |
| Legendre.PoleDiagonal | src/legendre.rs:21-37 | at a pole (sin θ = 0), `P(n, n) = 0` for every n ≥ 1 |
| InternalPurePython.CalcAssocLegendrePoly | scripts/internal_pure_python.py:9-43 | for N ≥ 1, P and diffP are exactly twice the tables of `Legendre.AssocLegendrePoly`, because the seed is P[0,0] = 2 |
| InternalPurePython.FillTables | scripts/internal_pure_python.py:17-41 | every row of both tables is twice the Rust table row |
| InternalPurePython.FillFirstRows | scripts/internal_pure_python.py:21-28 | rows 0 and 1 are twice P and dP; later rows are zero |
| InternalPurePython.FillRow | scripts/internal_pure_python.py:30-41 | one pass of the outer loop completes row n |
| InternalPurePython.FillDiagonal | scripts/internal_pure_python.py:31-32 | the diagonal entry of row n is written first |
| InternalPurePython.FillEntry | scripts/internal_pure_python.py:35-41 | one (n, m) step writes K, P and diffP at (n, m) only |
| InternalPurePython.TwiceGeneralStep | scripts/internal_pure_python.py:35-41 | the recurrence applied to doubled entries gives the doubled next entry |
| InternalPurePython.TwiceDiagonalStep | scripts/internal_pure_python.py:31-32 | the same for the diagonal |
| InternalPurePython.Doubling | scripts/internal_pure_python.py:21-41 | each recurrence is linear in its table entries |
| InternalPurePython.HarmonicTerm | scripts/internal_pure_python.py:71-96 | definition: the (n, m) contribution to (Br, Btheta, Bphi); specified by InternalPurePython.ZeroOrderTerm |
| InternalPurePython.RowSum | scripts/internal_pure_python.py:67-99 | definition: the sum over the orders of one degree; specified by InternalPurePython.RowStep and InternalPurePython.PoleClampRow |
| InternalPurePython.Synthesis | scripts/internal_pure_python.py:66-99 | definition: the double sum over 0 ≤ m ≤ n; computed by InternalPurePython.CalcInternalField and specified by InternalPurePython.PoleClampSynthesis |
| InternalPurePython.InvSin | scripts/internal_pure_python.py:62-64 | `inv_sintheta` is 0 when `abs(sin θ) ≤ 1e-3` and the reciprocal of sin θ otherwise |
| InternalPurePython.CalcInternalField | scripts/internal_pure_python.py:46-103 | (Br, Btheta, Bphi) is the closed double sum over 0 ≤ m ≤ n ≤ N of the harmonic terms with `a_r = 1/r_a`; Bphi is exactly 0 when `abs(sin θ) ≤ 1e-3` |
| InternalPurePython.SumHarmonics | scripts/internal_pure_python.py:66-99 | the outer loop leaves the double sum over the degrees 0 .. N |
| InternalPurePython.AccumulateDegree | scripts/internal_pure_python.py:67-99 | one degree adds its row sum over the orders 0 .. n |
| InternalPurePython.AccumulateOrders | scripts/internal_pure_python.py:75-99 | the inner loop adds the orders 1 .. n, with (cosphi_prev, sinphi_prev) equal to `(cos φ + i sin φ)^m` at step m |
| InternalPurePython.RowStep | scripts/internal_pure_python.py:75-99 | adding term m to the partial row sum gives the row sum up to m |
| InternalPurePython.ZeroOrderTerm | scripts/internal_pure_python.py:71-73 | the m = 0 term does not depend on h[n, 0] and adds nothing to Bphi |
| InternalPurePython.PoleClampRow | scripts/internal_pure_python.py:73-96 | with `inv_sintheta = 0` every row sum has Bphi = 0 |
| InternalPurePython.PoleClampSynthesis | scripts/internal_pure_python.py:62-96 | with `inv_sintheta = 0` the whole sum has Bphi = 0 |
| InternalPurePython.PowerOnCircle | scripts/internal_pure_python.py:68-77 | powers of a unit phasor stay on the unit circle, so `cos² + sin² = 1` is preserved across the loop |
| InternalPurePython.PowerIsMultipleAngle | scripts/internal_pure_python.py:68-77 | under the angle-addition laws, `(cos φ + i sin φ)^m = cos mφ + i sin mφ` |
| InternalPurePython.RepeatedAngleIsMultiple | scripts/internal_pure_python.py:76-77 | adding φ m times gives mφ |
| InternalPurePython.PowerIsRepeatedAngle | scripts/internal_pure_python.py:76-77 | the m-th power is the phasor of φ added m times |
| InternalPurePython.MaxDegree | scripts/internal_pure_python.py:109 | definition: an absent or zero degree means 30; used by the contract of InternalPurePython.ReadCoefficientsFile |
| InternalPurePython.RawG | scripts/internal_pure_python.py:115-117 | definition: g[n, m] is line n²+m for 1 ≤ n and m ≤ n, else 0; used by the contract of InternalPurePython.ReadCoefficientsFile |
| InternalPurePython.RawH | scripts/internal_pure_python.py:120-121 | definition: h[n, m] is line n²+n+m for 1 ≤ m ≤ n, else 0; used by the contract of InternalPurePython.ReadCoefficientsFile |
| InternalPurePython.Schmidt | scripts/internal_pure_python.py:126-138 | definition: the S table of the normalisation loop; specified by InternalPurePython.ZonalClosedForm, InternalPurePython.TesseralClosedForm and InternalPurePython.SchmidtPositive |
| InternalPurePython.Normalised | scripts/internal_pure_python.py:125-140 | definition: a read value times S[n, m] when normalising on or below the diagonal of rows 1 .. N; specified by InternalPurePython.AboveDiagonalUnscaled |
| InternalPurePython.ReadCoefficientsFile | scripts/internal_pure_python.py:106-142 | N = degree, or 30 when the degree is absent or 0. Reading succeeds exactly when lines 1 .. N(N+2) parse, and otherwise fails at the first one that does not. On success g[n, m] is line n²+m and h[n, m] is line n²+n+m for the triangle read (row 0, h[n, 0] and m > n stay 0), scaled by S[n, m] only when `doNormalize` |
| InternalPurePython.ReadDegree | scripts/internal_pure_python.py:115-121 | one degree reads its n+1 g-lines, then its n h-lines, or reports the first bad line among them |
| InternalPurePython.ReadRow | scripts/internal_pure_python.py:116-121 | one inner loop reads `count` consecutive lines into one row and changes no other row |
| InternalPurePython.LinesOfDegrees | scripts/internal_pure_python.py:114-121 | the header and degrees 1 .. N take exactly `1 + N(N+2)` lines |
| InternalPurePython.NextDegree | scripts/internal_pure_python.py:115-121 | the lines of degree n+1 follow directly after those of degree n |
| InternalPurePython.DegreeLinesBelow | scripts/internal_pure_python.py:115-121 | every line of a degree n ≤ N lies before line `1 + N(N+2)` |
| InternalPurePython.Normalize | scripts/internal_pure_python.py:125-140 | entry (n, m) of g and h is multiplied by S[n, m] for 1 ≤ n and m ≤ n, and every other entry is unchanged |
| InternalPurePython.SchmidtSteps | scripts/internal_pure_python.py:127-138 | S satisfies the recurrences of the loop: S[0,0] = 1, S[n,0] = S[n-1,0](2n-1)/n, and the two square-root steps |
| InternalPurePython.ScaleAll | scripts/internal_pure_python.py:128-140 | the loop scales the triangle of rows 1 .. N by any table satisfying those recurrences |
| InternalPurePython.NormalizeDegree | scripts/internal_pure_python.py:129-140 | one degree computes S[n, 0] and scales row n |
| InternalPurePython.ScaleOrders | scripts/internal_pure_python.py:137-140 | the inner loop scales the orders 2 .. n of row n |
| InternalPurePython.ScaleEntry | scripts/internal_pure_python.py:132-140 | one in-place scaling changes one entry |
| InternalPurePython.AboveDiagonalUnscaled | scripts/internal_pure_python.py:125-140 | normalisation leaves row 0 and the entries with m > n alone |
| InternalPurePython.ZonalClosedForm | scripts/internal_pure_python.py:127-129 | `S[n, 0] n! = (2n-1)!!` |
| InternalPurePython.OddFactorialAtLeastFactorial | scripts/internal_pure_python.py:129 | `1 ≤ n! ≤ (2n-1)!!` |
| InternalPurePython.ZonalAtLeastOne | scripts/internal_pure_python.py:127-129 | the zonal factors are at least 1 |
| InternalPurePython.TesseralClosedForm | scripts/internal_pure_python.py:130-138 | for 1 ≤ m ≤ n, `S[n,m]² (n+m)! (n-m)! = 2 S[n,0]² (n!)²`: the Schmidt quasi-normalisation |
| InternalPurePython.FirstOrderClosedForm | scripts/internal_pure_python.py:130 | that identity for m = 1 |
| InternalPurePython.OrderClosedFormStep | scripts/internal_pure_python.py:138 | each step m-1 → m preserves it |
| InternalPurePython.SchmidtPositive | scripts/internal_pure_python.py:127-138 | every factor on or below the diagonal is positive, so normalisation keeps each coefficient's sign |
| Field.CalcFieldXyz | src/field.rs:10-14 | definition: `vec_rtp_to_xyz(calc_field(pos_xyz_to_rtp(p)), θ, φ)` at the converted angles; specified by Field.CalcFieldXyzThenBack and Field.CalcFieldXyzKeepsNorm |
| Field.CalcFieldXyzThenBack | src/field.rs:10-14 | `calc_field_xyz` taken back to the spherical basis at the converted angles is `calc_field` at the converted position |
| Field.CalcFieldXyzKeepsNorm | src/field.rs:10-14 | the Cartesian field has the length of the spherical one |
| Field.AssignRow | src/field.rs:24 | `x.assign(v)` sets the first three columns of row i and changes nothing else |
| Field.MapCalcField | src/field.rs:18-28 | a fresh N×3 array whose row i is `calc_field` of row i of the positions, in row order; no rows give 0×3 |
| Field.ParmapCalcField | src/field.rs:31-44 | the same contract as `map_calc_field`, so the two give equal arrays |
| Field.MapCalcFieldXyz | src/field.rs:48-58 | row i is `calc_field_xyz` of row i |
| Field.ParmapCalcFieldXyz | src/field.rs:61-74 | the same contract as `map_calc_field_xyz` |
| Trace.IsInsideJupiter | src/trace.rs:113-121 | definition: the ellipsoid norm below 1 or the distance above 200; specified by Trace.BetweenSurfaceAndMaximumDoesNotStop and Trace.InsidePolarRadiusStops |
| Trace.PlanetCalcField | src/trace.rs:128-134 | definition: the sum of the two fields; specified by Trace.PlanetFieldXyzIsSum |
| Trace.CalcBUnitVector | src/trace.rs:101-105 | definition: the Cartesian field over its magnitude; specified by Trace.UnitVectorIsUnitAlongField |
| Trace.CalcBUnitVectorInverse | src/trace.rs:108-110 | definition: the unit vector times -1; specified by Trace.InverseIsOpposite |
| Trace.PolarRadiusSquare | src/trace.rs:114-116 | `a² = 1` and `0 < c² < 1` for `c = (1 - 1/15.4) a` |
| Trace.BetweenSurfaceAndMaximumDoesNotStop | src/trace.rs:113-121 | no point with `1 ≤ norm(p) ≤ 200` stops a trace |
| Trace.EllipsoidNormAtLeastSquaredLength | src/trace.rs:114-118 | since c < 1, the ellipsoid norm is at least `norm(p)²` |
| Trace.InsidePolarRadiusStops | src/trace.rs:113-121 | every point closer to the centre than c stops a trace |
| Trace.PlanetFieldXyzIsSum | src/trace.rs:128-134 | the Cartesian planetary field is the sum of the Cartesian internal and current-sheet fields |
| Trace.BasisChangeIsLinear | src/convert.rs:38-50 | the spherical-to-Cartesian change is additive |
| Trace.UnitVectorIsUnitAlongField | src/trace.rs:101-105 | where the field is non-zero, `calc_b_unit_vector` has length 1, and times `norm(b)` it is the field |
| Trace.InverseIsOpposite | src/trace.rs:108-110 | `calc_b_unit_vector_inverse = -calc_b_unit_vector`, also of length 1 |
| Trace.TraceLayoutRows | src/trace.rs:81-95 | a trace has `neg + pos + 1` rows. Row `neg-1-i` is backward point i, row `neg` is the start, and row `neg+1+i` is forward point i |
| Trace.FirstRowEndsBackwardTrace | src/trace.rs:87-89 | row 0 is the last point of the backward integration, or the start when that integration is empty |
| Trace.ReverseIndex | src/trace.rs:87 | element i of the reversed backward trace is element `neg-1-i` of the trace |
| Trace.AssembleTrace | src/trace.rs:81-97 | the fresh three-column result has exactly the layout rows; every row is written |
| Trace.TraceOne | src/trace.rs:36-98 | one start point: the layout of the forward and backward integrations from it |
| Trace.TraceFieldToPlanet | src/trace.rs:14-33 | one trace per input row, in input order, each with that row's layout |
| Aux.ConvertVecXyzToRtpAsWritten | src/aux.rs:3-17 | definition: as written, with θ from the cylindrical radius; specified by Aux.AsWrittenHasNoAzimuthalComponent and Aux.AsWrittenIsNotRadial |
| Aux.ConvertVecXyzToRtp | src/aux.rs:3-17 | definition: corrected, with the angles of `pos_xyz_to_rtp`; specified by Aux.VectorIsRadialAtItsOwnDirection and Aux.ConvertVecXyzToRtpThenBack |
| Aux.AsWrittenHasNoAzimuthalComponent | src/aux.rs:5-15 | as written, the φ component is 0 for every input with `x² + y² ≠ 0` |
| Aux.AsWrittenIsNotRadial | src/aux.rs:3-17 | as written, (1, 0, 1) is given θ = 0 and converts to (1, 1, 0) |
| Aux.VectorIsRadialAtItsOwnDirection | src/aux.rs:3-17 | with the spherical colatitude, every vector off the origin converts to (norm(a), 0, 0) |
| Aux.ConvertVecRtpToXyz | src/aux.rs:19-30 | the same map as `convert::vec_rtp_to_xyz` |
| Aux.ConvertVecXyzToRtpThenBack | src/aux.rs:3-30 | the corrected conversion and `convert_vec_rtp_to_xyz` at the vector's own angles undo each other |
| Aux.ConvertVecRtpToXyzKeepsNorm | src/aux.rs:19-30 | `convert_vec_rtp_to_xyz` keeps the squared length |
| Aux.ConvertArrRtpToXyzSerial | src/aux.rs:32-43 | a fresh array of `val`'s shape. Row i is `val[i]` converted at `positions[i, 1]` and `positions[i, 2]`; columns past the third are 0 |
| Aux.ConvertArrRtpToXyzParallel | src/aux.rs:45-58 | on inputs with as many rows as each other, the same contract as the serial version |
| CurrentSheet.Con2020 | src/currentsheet.rs:53-60 | definition: the CON2020 preset; specified by CurrentSheet.Con2020Parameters |
| CurrentSheet.FromParams | src/currentsheet.rs:70-77 | definition: the six values copied from the map; specified by CurrentSheet.CustomParamsRoundTrip and CurrentSheet.GetParamsThenCustom |
| CurrentSheet.Signum | src/currentsheet.rs:92 | definition: f64 `signum` away from -0.0 and NaN; used by CurrentSheet.ZStar |
| CurrentSheet.CalcDisc | src/currentsheet.rs:83-128 | definition: `_calc_field`, the `rho > a` branch with z* and the other branch, each times mu0_i_2; specified through CurrentSheet.SheetCylField by CurrentSheet.ScaledCurrent and CurrentSheet.SheetIsDifference |
| CurrentSheet.SheetCylField | src/currentsheet.rs:155-171 | definition: the disc at r_0, minus the disc at r_1 when r_1 is a number; specified by CurrentSheet.SheetIsDifference and CurrentSheet.EmptyAnnulusSheet |
| CurrentSheet.MagCylPosition | src/currentsheet.rs:148-157 | definition: the position in the magnetic frame as (rho, z); used by CurrentSheet.CalcField |
| CurrentSheet.MagCartesian | src/currentsheet.rs:174-176 | definition: the split of B_rho with the IAU φ; specified by CurrentSheet.MagCartesianLinear |
| CurrentSheet.ToIauSpherical | src/currentsheet.rs:174-182 | definition: magnetic-frame Cartesian to IAU Cartesian to spherical; specified by CurrentSheet.ToIauSphericalLinear |
| CurrentSheet.CalcField | src/currentsheet.rs:143-183 | definition: `calc_field` of the current sheet; specified by CurrentSheet.OuterEdgeSubtracts, CurrentSheet.EmptyAnnulusHasNoField and CurrentSheet.FieldProportionalToCurrent |
| CurrentSheet.FirstMissing | src/currentsheet.rs:64-68 | None exactly when every key is present; otherwise the first key in order that is absent |
| CurrentSheet.New | src/currentsheet.rs:51-81 | success only for "CON2020" or "Custom"; a missing-key error names an absent key of the six, and only for "Custom" with a map |
| CurrentSheet.GetParams | src/currentsheet.rs:130-139 | exactly the six keys |
| CurrentSheet.Con2020Parameters | src/currentsheet.rs:53-60 | CON2020 is r_0 = 7.8, r_1 = 51.4, d = 3.6, mu0_i_2 = 139.6, θd = 9.3π/180, φd = 204.2π/180, whatever the parameters |
| CurrentSheet.CustomBuiltIffAllKeys | src/currentsheet.rs:61-78 | a "Custom" map builds a field exactly when it holds all six keys |
| CurrentSheet.MissingKeyIsReported | src/currentsheet.rs:64-68 | with a key missing, construction fails and names the first missing key in order |
| CurrentSheet.OtherConstructionErrors | src/currentsheet.rs:61-79 | "Custom" with no map and any other field type are errors |
| CurrentSheet.CustomParamsRoundTrip | src/currentsheet.rs:70-139 | `get_params(new("Custom", p))` agrees with p on the six keys |
| CurrentSheet.GetParamsThenCustom | src/currentsheet.rs:70-139 | `new("Custom", get_params(f))` is f |
| CurrentSheet.ZStar | src/currentsheet.rs:87-93 | `abs(z*) ≤ abs(d)`; z* = z when `abs(z) ≤ abs(d)`; otherwise `abs(z*) = abs(d)`, on z's side exactly when d ≥ 0 |
| CurrentSheet.SheetIsDifference | src/currentsheet.rs:155-171 | with r_1 a number, the sheet is the disc from r_0 minus the disc from r_1 |
| CurrentSheet.EmptyAnnulusSheet | src/currentsheet.rs:155-171 | r_1 = r_0 gives a zero (B_rho, B_z) |
| CurrentSheet.OuterEdgeSubtracts | src/currentsheet.rs:143-183 | `calc_field` with an outer edge is `calc_field` of the semi-infinite sheet from r_0 minus the one from r_1 |
| CurrentSheet.EmptyAnnulusHasNoField | src/currentsheet.rs:143-183 | a sheet with r_1 = r_0 has no field anywhere |
| CurrentSheet.FieldProportionalToCurrent | src/currentsheet.rs:101-183 | scaling mu0_i_2 by k scales the field by k |
| CurrentSheet.ScaledCurrent | src/currentsheet.rs:101-125 | the same in the magnetic frame |
| CurrentSheet.MagCartesianLinear | src/currentsheet.rs:174-176 | the rho/z to Cartesian split is linear |
| CurrentSheet.ToIauSphericalLinear | src/currentsheet.rs:174-182 | the conversion back to IAU spherical components is linear |
| CurrentSheet.SphericalBasisIsMatrix | src/convert.rs:23-35 | the spherical basis change is a matrix product |
| CurrentSheet.MatVecLinear | src/convert.rs:61-73 | a matrix product is linear |

## Left out

- Floating point: the model works over reals. It has no rounding, no Inf and no overflow.
- NaN means something in one place only: a missing outer edge r_1 (`F64.NaN`).
  - `CurrentSheet.New`: requires the other given parameters to be numbers.
- `Numerics.Math` replaces sin, cos, sqrt, acos, atan2 and pi. The model computes none of them.
- The analytic disc expressions of `_calc_field` are a parameter (`CurrentSheet.DiscTerms`): the square roots, powers and logarithm of src/currentsheet.rs:95-125. Only the bracketed expressions `beyond(rho, z, z*, a, d)` and `within(rho, z, a, d)` are the parameter. The choice `rho > a` and the factor mu0_i_2 are modelled in `CurrentSheet.CalcDisc`.
- Divisions that give NaN or Inf in f64 are `requires` that the divisor is non-zero:
  - `z/r` at the origin;
  - `b/|b|` for a zero field;
  - `z/sqrt(x²+y²)` on the z axis;
  - `1/r_a`.
- `Trace.TraceOne`: the Dormand-Prince integrator (lazyivy, src/trace.rs:41-79) is a foreign library, so it is the `Trace.Integrator` parameter. Its step sizes and tolerances are not modelled.
  - The parameter is any function returning the points of each integration. Nothing ties it to the integrand `Trace.CalcBUnitVector` (or its inverse) of `Trace.PlanetCalcField`, or to the stop rule `Trace.IsInsideJupiter`.
  - `Trace.TraceFieldToPlanet` therefore takes no internal or current-sheet field (src/trace.rs:14-19). The assembly it proves holds for every integrator.
- `Trace.AssembleTrace`: the NaN-filled buffer is allocated as zeros. That every row is then written is what the contract states.
- Rayon `par_for_each` concurrency: the parallel variants are Dafny `forall` statements, with the contract of the serial loop.
- Python bindings are not modelled: the `impl_field_methods!` macro, the `#[pyclass]` wrappers, `PyList` construction and the `__init__` conversion of Python dictionaries.
- `src/lib.rs`, `src/main.rs`, the Python wrapper classes, the plotting and benchmark scripts, the tests' numeric expectations, and the JRM coefficient presets are not part of this model.
- `InternalPurePython.ReadCoefficientsFile`: its degree is `Option<nat>`, so a negative degree is not modelled. In Python, `N = -1` gives empty 0×0 tables and `N ≤ -2` raises in `np.zeros`.
- `InternalPurePython.ReadCoefficientsFile`: file I/O is abstracted.
  - The file is a sequence of lines of tokens.
  - A missing line or an unparseable second field ends reading with `Failed`, where Python raises an exception.
- `Legendre.AssocLegendrePoly` and `InternalPurePython.CalcAssocLegendrePoly` require a degree of at least 1. With degree 0, both programs index row 1 of a 1×1 table and fail.
- `CurrentSheet.MagCartesian`: the split of B_rho uses the IAU longitude φ, not the magnetic-frame azimuth, as src/currentsheet.rs:144-145 and 174-175 do. It is modelled that way and not claimed as a defect.
- `Aux.ConvertArrRtpToXyzParallel`: requires `val` and `positions` to have the same number of rows, because ndarray's `Zip` panics otherwise. The serial version only needs `positions` to have at least as many rows.

## Findings

| source | as written | input that shows it | evidently intended | confidence | as-written member | corrected member |
|---|---|---|---|---|---|---|
| src/aux.rs:4 | θ = acos(z / sqrt(x² + y²)), the cylindrical radius | (1, 0, 1) gets θ = acos(1) = 0 and converts to (1, 1, 0). In general, every input with abs(z) > sqrt(x² + y²) puts the acos argument outside [-1, 1], and f64 gives NaN for the r and θ components; the model leaves acos unconstrained there | θ = acos(z / sqrt(x² + y² + z²)), as in `pos_xyz_to_rtp` (src/convert.rs:5-8), which gives the radial (√2, 0, 0) | medium, not executed | Aux.AsWrittenIsNotRadial | Aux.VectorIsRadialAtItsOwnDirection |
