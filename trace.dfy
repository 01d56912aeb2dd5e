/** Field-line tracing: the stopping rule, the unit tangent of the combined
    planetary field, and the layout of a traced line. The Runge-Kutta
    integrator is a parameter that returns the points of one integration. */
module Trace {
  import opened Numerics
  import Convert
  import Field

  /** `R_TRACE_MAXIMUM`: tracing stops beyond this radius (planetary radii). */
  const RTraceMaximum: real := 200.0

  /** The polar flattening `f`, the equatorial radius `a` and the polar
      radius `c = (1 - f) a` of the planet's ellipsoid. */
  const Flattening: real := 1.0 / 15.4
  const EquatorialRadius: real := 1.0
  const PolarRadius: real := (1.0 - Flattening) * EquatorialRadius

  /** `x^2/a^2 + y^2/a^2 + z^2/c^2`: below 1 inside the ellipsoid. */
  function EllipsoidNorm(p: Vec3): real {
    PolarRadiusSquare();
    Pow(p.c0, 2) / Pow(EquatorialRadius, 2) + Pow(p.c1, 2) / Pow(EquatorialRadius, 2)
      + Pow(p.c2, 2) / Pow(PolarRadius, 2)
  }

  lemma PowTwo(x: real)
    ensures Pow(x, 2) == x * x
  {
    assert Pow(x, 1) == x;
  }

  /** a^2 = 1 and 0 < c^2 < 1. */
  lemma PolarRadiusSquare()
    ensures Pow(EquatorialRadius, 2) == 1.0
    ensures 0.0 < Pow(PolarRadius, 2) < 1.0
  {
    PowTwo(EquatorialRadius);
    PowTwo(PolarRadius);
    assert PolarRadius == 144.0 / 154.0;
  }

  /** `is_inside_jupiter`: the stopping rule of the integration, inside the
      ellipsoid or farther than `RTraceMaximum` from the centre. */
  predicate IsInsideJupiter(m: Math, p: Vec3) {
    EllipsoidNorm(p) < 1.0 || m.sqrt(Dot(p, p)) > RTraceMaximum
  }

  /** The ellipsoid lies inside the unit sphere, so a point at a distance
      between 1 and `RTraceMaximum` never stops a trace. */
  lemma BetweenSurfaceAndMaximumDoesNotStop(m: Math, p: Vec3)
    requires Lawful(m)
    requires 1.0 <= m.sqrt(Dot(p, p)) <= RTraceMaximum
    ensures !IsInsideJupiter(m, p)
  {
    var r := m.sqrt(Dot(p, p));
    SquaresNonNegative(p.c0, p.c1, p.c2);
    assert SqrtLaws(m, Dot(p, p));
    AtLeastOneSquared(r);
    EllipsoidNormAtLeastSquaredLength(p);
  }

  lemma AtLeastOneSquared(r: real)
    requires 1.0 <= r
    ensures 1.0 <= r * r
  {
    MulNonNegativeFactors(r - 1.0, r + 1.0);
  }

  lemma MulNonNegativeFactors(x: real, y: real)
    requires 0.0 <= x && 0.0 <= y
    ensures 0.0 <= x * y
  {
    if x != 0.0 && y != 0.0 {
      MulPositive(x, y);
    }
  }

  /** The squares of the coordinates and c^2, named. */
  lemma EllipsoidNormTerms(p: Vec3)
    ensures EllipsoidNorm(p) == p.c0 * p.c0 + p.c1 * p.c1 + (p.c2 * p.c2) / (PolarRadius * PolarRadius)
  {
    PolarRadiusSquare();
    PowTwo(PolarRadius);
    PowTwo(p.c0);
    PowTwo(p.c1);
    PowTwo(p.c2);
  }

  /** Because c < a = 1 the ellipsoid norm is at least the squared length. */
  lemma EllipsoidNormAtLeastSquaredLength(p: Vec3)
    ensures Dot(p, p) <= EllipsoidNorm(p)
  {
    EllipsoidNormTerms(p);
    PolarRadiusSquare();
    SquareNonNegative(p.c2);
    PowTwo(PolarRadius);
    DividedByLessThanOne(p.c2 * p.c2, PolarRadius * PolarRadius);
  }

  lemma DividedByLessThanOne(b: real, k: real)
    requires 0.0 <= b && 0.0 < k < 1.0
    ensures b <= b / k
  {
    var q := b / k;
    assert q * k == b;
    if q < b {
      MulPositive(b - q, k);
      MulNonNegativeFactors(b, 1.0 - k);
      assert false;
    }
  }

  /** Because c < a = 1 the ellipsoid norm is at most the squared length over
      c^2, so every point closer to the centre than c stops a trace. */
  lemma InsidePolarRadiusStops(m: Math, p: Vec3)
    requires Dot(p, p) < PolarRadius * PolarRadius
    ensures IsInsideJupiter(m, p)
  {
    EllipsoidNormTerms(p);
    PolarRadiusSquare();
    PowTwo(PolarRadius);
    SquareNonNegative(p.c0);
    SquareNonNegative(p.c1);
    SquareNonNegative(p.c2);
    BelowWhenDivided(p.c0 * p.c0 + p.c1 * p.c1, p.c2 * p.c2, PolarRadius * PolarRadius);
  }

  lemma BelowWhenDivided(a: real, b: real, k: real)
    requires 0.0 <= a && 0.0 <= b && 0.0 < k < 1.0 && a + b < k
    ensures a + b / k < 1.0
  {
    var q := b / k;
    assert q * k == b;
    if 1.0 <= a + q {
      MulNonNegativeFactors(a + q - 1.0, k);
      MulNonNegativeFactors(a, 1.0 - k);
      assert false;
    }
  }

  /** `PlanetField::calc_field`: the internal and the current-sheet fields
      added component by component. */
  function PlanetCalcField(internal: Field.FieldFn, sheet: Field.FieldFn): Field.FieldFn {
    q => Add(internal(q), sheet(q))
  }

  /** The Cartesian planetary field is the sum of the two Cartesian fields. */
  lemma PlanetFieldXyzIsSum(m: Math, internal: Field.FieldFn, sheet: Field.FieldFn, p: Vec3)
    requires Convert.Radius(m, p) != 0.0
    ensures Field.CalcFieldXyz(m, PlanetCalcField(internal, sheet), p)
         == Add(Field.CalcFieldXyz(m, internal, p), Field.CalcFieldXyz(m, sheet, p))
  {
    var q := Convert.PosXyzToRtp(m, p);
    BasisChangeIsLinear(internal(q), sheet(q), m.sin(q.c1), m.cos(q.c1), m.sin(q.c2), m.cos(q.c2));
  }

  lemma BasisChangeIsLinear(a: Vec3, b: Vec3, st: real, ct: real, sp: real, cp: real)
    ensures Convert.ToCartesianBasis(Add(a, b), st, ct, sp, cp)
         == Add(Convert.ToCartesianBasis(a, st, ct, sp, cp), Convert.ToCartesianBasis(b, st, ct, sp, cp))
  {
    assert (a.c0 + b.c0) * st * cp == a.c0 * st * cp + b.c0 * st * cp;
    assert (a.c1 + b.c1) * ct * cp == a.c1 * ct * cp + b.c1 * ct * cp;
    assert (a.c0 + b.c0) * st * sp == a.c0 * st * sp + b.c0 * st * sp;
    assert (a.c1 + b.c1) * ct * sp == a.c1 * ct * sp + b.c1 * ct * sp;
  }

  /** The unit tangent is defined where the position is off the origin and
      the Cartesian field does not vanish. */
  predicate Traceable(m: Math, f: Field.FieldFn, p: Vec3) {
    Convert.Radius(m, p) != 0.0 && FieldMagnitude(m, f, p) != 0.0
  }

  /** `b.dot(&b).sqrt()` of the Cartesian field at `p`. */
  function FieldMagnitude(m: Math, f: Field.FieldFn, p: Vec3): real
    requires Convert.Radius(m, p) != 0.0
  {
    var b := Field.CalcFieldXyz(m, f, p);
    m.sqrt(Dot(b, b))
  }

  /** `calc_b_unit_vector`: the Cartesian field divided by its magnitude. */
  function CalcBUnitVector(m: Math, f: Field.FieldFn, p: Vec3): Vec3
    requires Traceable(m, f, p)
  {
    var b := Field.CalcFieldXyz(m, f, p);
    var bMag := FieldMagnitude(m, f, p);
    Vec3(b.c0 / bMag, b.c1 / bMag, b.c2 / bMag)
  }

  /** `calc_b_unit_vector_inverse`: the unit tangent times -1. */
  function CalcBUnitVectorInverse(m: Math, f: Field.FieldFn, p: Vec3): Vec3
    requires Traceable(m, f, p)
  {
    Scale(-1.0, CalcBUnitVector(m, f, p))
  }

  /** The unit tangent has length 1 and points along the field. */
  lemma UnitVectorIsUnitAlongField(m: Math, f: Field.FieldFn, p: Vec3)
    requires Lawful(m)
    requires Traceable(m, f, p)
    ensures SqNorm(CalcBUnitVector(m, f, p)) == 1.0
    ensures Scale(FieldMagnitude(m, f, p), CalcBUnitVector(m, f, p)) == Field.CalcFieldXyz(m, f, p)
  {
    var b := Field.CalcFieldXyz(m, f, p);
    SquaresNonNegative(b.c0, b.c1, b.c2);
    assert SqrtLaws(m, Dot(b, b));
    UnitArith(b.c0, b.c1, b.c2, FieldMagnitude(m, f, p));
  }

  lemma UnitArith(x: real, y: real, z: real, s: real)
    requires s != 0.0 && s * s == x * x + y * y + z * z
    ensures (x / s) * (x / s) + (y / s) * (y / s) + (z / s) * (z / s) == 1.0
    ensures s * (x / s) == x && s * (y / s) == y && s * (z / s) == z
  {
    var u, v, w := x / s, y / s, z / s;
    assert u * s == x && v * s == y && w * s == z;
    SquareOfQuotient(u, s, x);
    SquareOfQuotient(v, s, y);
    SquareOfQuotient(w, s, z);
    SumOfShares(u * u, v * v, w * w, s, x * x, y * y, z * z);
  }

  lemma SquareOfQuotient(u: real, s: real, x: real)
    requires u * s == x
    ensures (u * u) * (s * s) == x * x
  {
    assert (u * u) * (s * s) == (u * s) * (u * s);
  }

  lemma SumOfShares(a: real, b: real, c: real, s: real, a1: real, b1: real, c1: real)
    requires s != 0.0
    requires a * (s * s) == a1 && b * (s * s) == b1 && c * (s * s) == c1
    requires a1 + b1 + c1 == s * s
    ensures a + b + c == 1.0
  {
    calc {
      (a + b + c) * (s * s);
      a * (s * s) + b * (s * s) + c * (s * s);
      a1 + b1 + c1;
      s * s;
    }
    assert ((a + b + c) * s) * s == s * s;
    Cancel((a + b + c) * s, s, s);
    assert (a + b + c) * s == 1.0 * s;
    Cancel(a + b + c, 1.0, s);
  }

  /** The backward tangent is the opposite of the forward one and also has
      length 1. */
  lemma InverseIsOpposite(m: Math, f: Field.FieldFn, p: Vec3)
    requires Lawful(m)
    requires Traceable(m, f, p)
    ensures Add(CalcBUnitVector(m, f, p), CalcBUnitVectorInverse(m, f, p)) == Zero
    ensures SqNorm(CalcBUnitVectorInverse(m, f, p)) == 1.0
  {
    UnitVectorIsUnitAlongField(m, f, p);
  }

  // ----- the traced line -----

  function Reverse<T>(s: seq<T>): (r: seq<T>)
    ensures |r| == |s|
  {
    if s == [] then [] else Reverse(s[1..]) + [s[0]]
  }

  lemma {:induction false} ReverseIndex<T>(s: seq<T>, i: nat)
    requires i < |s|
    ensures Reverse(s)[i] == s[|s| - 1 - i]
  {
    if i < |s| - 1 {
      ReverseIndex(s[1..], i);
    }
  }

  /** The rows of an assembled trace: the backward points from the last one
      computed to the first, then the start point, then the forward points in
      order. */
  function TraceLayout(start: Vec3, tracePos: seq<Vec3>, traceNeg: seq<Vec3>): seq<Vec3> {
    Reverse(traceNeg) + [start] + tracePos
  }

  /** The layout row by row: `neg + pos + 1` rows, row `neg - 1 - i` is
      backward point i, row `neg` is the start and row `neg + 1 + i` is
      forward point i. */
  lemma TraceLayoutRows(start: Vec3, tracePos: seq<Vec3>, traceNeg: seq<Vec3>)
    ensures |TraceLayout(start, tracePos, traceNeg)| == |traceNeg| + |tracePos| + 1
    ensures TraceLayout(start, tracePos, traceNeg)[|traceNeg|] == start
    ensures forall i :: 0 <= i < |traceNeg| ==>
      TraceLayout(start, tracePos, traceNeg)[|traceNeg| - 1 - i] == traceNeg[i]
    ensures forall i :: 0 <= i < |tracePos| ==>
      TraceLayout(start, tracePos, traceNeg)[|traceNeg| + 1 + i] == tracePos[i]
  {
    forall i | 0 <= i < |traceNeg|
      ensures TraceLayout(start, tracePos, traceNeg)[|traceNeg| - 1 - i] == traceNeg[i]
    {
      ReverseIndex(traceNeg, |traceNeg| - 1 - i);
    }
  }

  /** Row 0 of a trace is the last point of the backward integration (the
      start itself when that integration returned nothing). */
  lemma FirstRowEndsBackwardTrace(start: Vec3, tracePos: seq<Vec3>, traceNeg: seq<Vec3>)
    ensures TraceLayout(start, tracePos, traceNeg)[0] == if traceNeg == [] then start else traceNeg[|traceNeg| - 1]
  {
    if traceNeg != [] {
      ReverseIndex(traceNeg, 0);
    }
  }

  /** The rows of a three-column array. */
  ghost function Rows(a: array2<real>): seq<Vec3>
    requires a.Length1 == 3
    reads a
  {
    seq(a.Length0, i requires 0 <= i < a.Length0 reads a => Field.RowOf(a, i))
  }

  /** An array whose every row is the matching element of `s` has `s` as its
      rows. */
  lemma RowsAre(a: array2<real>, s: seq<Vec3>)
    requires a.Length1 == 3 && |s| == a.Length0
    requires forall k :: 0 <= k < a.Length0 ==> Field.RowOf(a, k) == s[k]
    ensures Rows(a) == s
  {
  }

  /** The result assembly of `_trace_field_to_planet`: a `neg + pos + 1` by 3
      buffer, filled with the backward points reversed, the start point and
      the forward points; every row is written. */
  method AssembleTrace(start: Vec3, tracePos: seq<Vec3>, traceNeg: seq<Vec3>) returns (result: array2<real>)
    ensures fresh(result) && result.Length1 == 3
    ensures Rows(result) == TraceLayout(start, tracePos, traceNeg)
  {
    var neg := |traceNeg|;
    result := new real[|tracePos| + neg + 1, 3]((_, _) => 0.0);
    var rev := Reverse(traceNeg);
    ghost var layout := TraceLayout(start, tracePos, traceNeg);
    assert layout == rev + [start] + tracePos;
    var i := 0;
    while i < neg
      invariant 0 <= i <= neg
      invariant forall k :: 0 <= k < i ==> Field.RowOf(result, k) == layout[k]
    {
      assert layout[i] == rev[i];
      Field.AssignRow(result, i, rev[i]);
      i := i + 1;
    }
    Field.AssignRow(result, neg, start);
    i := 0;
    while i < |tracePos|
      invariant 0 <= i <= |tracePos|
      invariant forall k :: 0 <= k < neg + 1 + i ==> Field.RowOf(result, k) == layout[k]
    {
      assert layout[neg + 1 + i] == tracePos[i];
      Field.AssignRow(result, i + neg + 1, tracePos[i]);
      i := i + 1;
    }
    RowsAre(result, layout);
  }

  /** Which way an integration follows the field. */
  datatype Direction = Forward | Backward

  /** A given function standing for the Runge-Kutta integration from a
      start point: the points it returns after the start, in the
      `Forward` or the `Backward` direction. Nothing ties it to the unit
      tangent or to `IsInsideJupiter`, so what is proved about the
      assembled traces holds for every integrator. */
  type Integrator = (Vec3, Direction) -> seq<Vec3>

  /** `_trace_field_to_planet` for one start point. */
  method TraceOne(start: Vec3, integrate: Integrator) returns (result: array2<real>)
    ensures fresh(result) && result.Length1 == 3
    ensures Rows(result) == TraceLayout(start, integrate(start, Forward), integrate(start, Backward))
  {
    var tracePos := integrate(start, Forward);
    var traceNeg := integrate(start, Backward);
    result := AssembleTrace(start, tracePos, traceNeg);
  }

  /** `trace_field_to_planet`: one trace per row of `positions`, in row
      order. Each row is the start point of a trace, which is copied whole
      into a three-column row, so `positions` has three columns. */
  method TraceFieldToPlanet(positions: array2<real>, integrate: Integrator) returns (traces: seq<array2<real>>)
    requires positions.Length1 == 3
    ensures |traces| == positions.Length0
    ensures forall i :: 0 <= i < |traces| ==> fresh(traces[i]) && traces[i].Length1 == 3
    ensures forall i :: 0 <= i < |traces| ==>
      Rows(traces[i]) == TraceLayout(Field.RowOf(positions, i), integrate(Field.RowOf(positions, i), Forward),
                                     integrate(Field.RowOf(positions, i), Backward))
  {
    traces := [];
    var i := 0;
    while i < positions.Length0
      invariant 0 <= i <= positions.Length0 && |traces| == i
      invariant forall k :: 0 <= k < i ==> fresh(traces[k]) && traces[k].Length1 == 3
      invariant forall k :: 0 <= k < i ==>
        Rows(traces[k]) == TraceLayout(Field.RowOf(positions, k), integrate(Field.RowOf(positions, k), Forward),
                                       integrate(Field.RowOf(positions, k), Backward))
    {
      var trace := TraceOne(Field.RowOf(positions, i), integrate);
      traces := traces + [trace];
      i := i + 1;
    }
  }
}
