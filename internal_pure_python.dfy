/** The pure-Python reference implementation of the internal field: its own
    Legendre fill (seeded with 2), the spherical-harmonic synthesis of
    (Br, Btheta, Bphi), and the coefficient reader with optional Schmidt
    normalisation. */
module InternalPurePython {
  import opened Numerics
  import Legendre

  // ===== calc_assoc_legendre_poly =====

  /** `calc_assoc_legendre_poly`: the same recurrence as the Rust fill, but
      seeded with P[0, 0] = 2 and writing each row's diagonal first. Since the
      recurrence is linear in the seed, both tables are exactly twice the
      tables of `Legendre.AssocLegendrePoly`. Rows 0 and 1 are written
      unconditionally, so N >= 1. */
  method CalcAssocLegendrePoly(m: Math, theta: real, n: nat) returns (p: array2<real>, dp: array2<real>)
    requires 1 <= n
    ensures fresh(p) && fresh(dp)
    ensures p.Length0 == n + 1 && p.Length1 == n + 1
    ensures dp.Length0 == n + 1 && dp.Length1 == n + 1
    ensures forall i, j :: 0 <= i <= n && 0 <= j <= n ==>
      p[i, j] == 2.0 * Legendre.P(m.sin(theta), m.cos(theta), Legendre.K, i, j) &&
      dp[i, j] == 2.0 * Legendre.DP(m.sin(theta), m.cos(theta), Legendre.K, i, j)
    ensures TwiceRowsDone(p, dp, m.sin(theta), m.cos(theta), Legendre.K, n + 1)
  {
    p, dp := FillTables(m.sin(theta), m.cos(theta), Legendre.K, n);
  }

  /** The body of `calc_assoc_legendre_poly` for a colatitude with sine `s`
      and cosine `c`, with K[n, m] taken from `kf`. */
  method FillTables(s: real, c: real, kf: (nat, nat) -> real, n: nat) returns (p: array2<real>, dp: array2<real>)
    requires 1 <= n
    ensures fresh(p) && fresh(dp)
    ensures p.Length0 == n + 1 && p.Length1 == n + 1
    ensures dp.Length0 == n + 1 && dp.Length1 == n + 1
    ensures TwiceRowsDone(p, dp, s, c, kf, n + 1)
  {
    p := new real[n + 1, n + 1]((_, _) => 0.0);
    dp := new real[n + 1, n + 1]((_, _) => 0.0);
    var k := new real[n + 1, n + 1]((_, _) => 0.0);
    FillFirstRows(p, dp, s, c, kf);
    var i := 2;
    while i < n + 1
      invariant 2 <= i <= n + 1
      invariant TwiceRowsDone(p, dp, s, c, kf, i) && Legendre.RowsZero(p, dp, i)
    {
      FillRow(p, dp, k, s, c, kf, i);
      i := i + 1;
    }
  }

  /** Rows 0 and 1, written out explicitly from the seed 2. */
  method FillFirstRows(p: array2<real>, dp: array2<real>, s: real, c: real, kf: (nat, nat) -> real)
    requires p != dp
    requires 2 <= p.Length0 && p.Length0 == p.Length1 == dp.Length0 == dp.Length1
    requires Legendre.RowsZero(p, dp, 0)
    modifies p, dp
    ensures TwiceRowsDone(p, dp, s, c, kf, 2) && Legendre.RowsZero(p, dp, 2)
  {
    p[0, 0] := 2.0;
    dp[0, 0] := 0.0;
    p[1, 1] := s * p[0, 0];
    dp[1, 1] := s * dp[0, 0] + c * p[0, 0];
    p[1, 0] := c * p[0, 0];
    dp[1, 0] := c * dp[0, 0] - s * p[0, 0];
    Legendre.FirstRows(s, c, kf);
    forall a, b | 0 <= a < 2 && 0 <= b < p.Length1
      ensures p[a, b] == 2.0 * Legendre.P(s, c, kf, a, b)
    {
      if a < b {
        Legendre.AboveDiagonal(s, c, kf, a, b);
      }
    }
    forall a, b | 0 <= a < 2 && 0 <= b < p.Length1
      ensures dp[a, b] == 2.0 * Legendre.DP(s, c, kf, a, b)
    {
      if a < b {
        Legendre.AboveDiagonal(s, c, kf, a, b);
      }
    }
  }

  /** One row i >= 2: the diagonal first, then the entries below it. */
  method FillRow(p: array2<real>, dp: array2<real>, k: array2<real>, s: real, c: real,
                 kf: (nat, nat) -> real, i: nat)
    requires p != dp && p != k && dp != k
    requires 2 <= i < p.Length0
    requires p.Length0 == p.Length1 == dp.Length0 == dp.Length1 == k.Length0 == k.Length1
    requires TwiceRowsDone(p, dp, s, c, kf, i) && Legendre.RowsZero(p, dp, i)
    modifies p, dp, k
    ensures TwiceRowsDone(p, dp, s, c, kf, i + 1) && Legendre.RowsZero(p, dp, i + 1)
  {
    FillDiagonal(p, dp, s, c, kf, i);
    var j := 0;
    while j < i
      invariant 0 <= j <= i
      invariant TwiceRowsDone(p, dp, s, c, kf, i) && Legendre.RowsZero(p, dp, i + 1)
      invariant TwiceRowPart(p, dp, s, c, kf, i, j)
    {
      FillEntry(p, dp, k, s, c, kf, i, j);
      j := j + 1;
    }
    forall b | 0 <= b < p.Length1
      ensures p[i, b] == 2.0 * Legendre.P(s, c, kf, i, b)
    {
      if i < b {
        Legendre.AboveDiagonal(s, c, kf, i, b);
      }
    }
    forall b | 0 <= b < p.Length1
      ensures dp[i, b] == 2.0 * Legendre.DP(s, c, kf, i, b)
    {
      if i < b {
        Legendre.AboveDiagonal(s, c, kf, i, b);
      }
    }
  }

  /** The diagonal entry (i, i) of a general row. */
  method FillDiagonal(p: array2<real>, dp: array2<real>, s: real, c: real, kf: (nat, nat) -> real, i: nat)
    requires p != dp
    requires 2 <= i < p.Length0
    requires p.Length0 == p.Length1 == dp.Length0 == dp.Length1
    requires TwiceRowsDone(p, dp, s, c, kf, i) && Legendre.RowsZero(p, dp, i)
    modifies p, dp
    ensures TwiceRowsDone(p, dp, s, c, kf, i) && Legendre.RowsZero(p, dp, i + 1)
    ensures TwiceRowPart(p, dp, s, c, kf, i, 0)
  {
    var p1, d1 := p[i - 1, i - 1], dp[i - 1, i - 1];
    TwiceDiagonalStep(s, c, kf, i, p1, d1, Legendre.P(s, c, kf, i, i), Legendre.DP(s, c, kf, i, i));
    p[i, i] := s * p1;
    dp[i, i] := Legendre.DiagonalDerivative(s, c, p1, d1);
  }

  /** The entry (i, j) below the diagonal of a general row. */
  method FillEntry(p: array2<real>, dp: array2<real>, k: array2<real>, s: real, c: real,
                   kf: (nat, nat) -> real, i: nat, j: nat)
    requires p != dp && p != k && dp != k
    requires 2 <= i < p.Length0 && j < i
    requires p.Length0 == p.Length1 == dp.Length0 == dp.Length1 == k.Length0 == k.Length1
    requires TwiceRowsDone(p, dp, s, c, kf, i) && Legendre.RowsZero(p, dp, i + 1)
    requires TwiceRowPart(p, dp, s, c, kf, i, j)
    modifies p, dp, k
    ensures TwiceRowsDone(p, dp, s, c, kf, i) && Legendre.RowsZero(p, dp, i + 1)
    ensures TwiceRowPart(p, dp, s, c, kf, i, j + 1)
  {
    k[i, j] := kf(i, j);
    var p1, p2, d1, d2 := p[i - 1, j], p[i - 2, j], dp[i - 1, j], dp[i - 2, j];
    TwiceGeneralStep(s, c, kf, i, j, p1, p2, d1, d2, Legendre.P(s, c, kf, i, j), Legendre.DP(s, c, kf, i, j));
    p[i, j] := Legendre.Recur(c, k[i, j], p1, p2);
    dp[i, j] := Legendre.RecurDerivative(s, c, k[i, j], p1, d1, d2);
  }

  /** Rows 0..rows-1 hold twice the Rust tables. */
  ghost predicate TwiceRowsDone(p: array2<real>, dp: array2<real>, s: real, c: real,
                                kf: (nat, nat) -> real, rows: nat)
    reads p, dp
  {
    && rows <= p.Length0 && rows <= dp.Length0
    && (forall a, b {:trigger p[a, b]} :: 0 <= a < rows && 0 <= b < p.Length1 ==>
          p[a, b] == 2.0 * Legendre.P(s, c, kf, a, b))
    && (forall a, b {:trigger dp[a, b]} :: 0 <= a < rows && 0 <= b < dp.Length1 ==>
          dp[a, b] == 2.0 * Legendre.DP(s, c, kf, a, b))
  }

  /** Row i holds its diagonal and the entries before column j; the rest of
      the row is still zero. */
  ghost predicate TwiceRowPart(p: array2<real>, dp: array2<real>, s: real, c: real,
                               kf: (nat, nat) -> real, i: nat, j: nat)
    requires i < p.Length0 && i < dp.Length0
    reads p, dp
  {
    && (forall b {:trigger p[i, b]} :: 0 <= b && (b < j || b == i) && b < p.Length1 ==>
          p[i, b] == 2.0 * Legendre.P(s, c, kf, i, b))
    && (forall b {:trigger dp[i, b]} :: 0 <= b && (b < j || b == i) && b < dp.Length1 ==>
          dp[i, b] == 2.0 * Legendre.DP(s, c, kf, i, b))
    && (forall b {:trigger p[i, b]} :: j <= b < p.Length1 && b != i ==> p[i, b] == 0.0)
    && (forall b {:trigger dp[i, b]} :: j <= b < dp.Length1 && b != i ==> dp[i, b] == 0.0)
  }

  /** One step below the diagonal on doubled entries gives the doubled entry. */
  lemma TwiceGeneralStep(s: real, c: real, kf: (nat, nat) -> real, i: nat, j: nat,
                         p1: real, p2: real, d1: real, d2: real, r: real, rd: real)
    requires j < i && 2 <= i
    requires p1 == 2.0 * Legendre.P(s, c, kf, i - 1, j) && p2 == 2.0 * Legendre.P(s, c, kf, i - 2, j)
    requires d1 == 2.0 * Legendre.DP(s, c, kf, i - 1, j) && d2 == 2.0 * Legendre.DP(s, c, kf, i - 2, j)
    requires r == Legendre.P(s, c, kf, i, j) && rd == Legendre.DP(s, c, kf, i, j)
    ensures Legendre.Recur(c, kf(i, j), p1, p2) == 2.0 * r
    ensures Legendre.RecurDerivative(s, c, kf(i, j), p1, d1, d2) == 2.0 * rd
  {
    Legendre.GeneralStep(s, c, kf, i, j, p1 / 2.0, p2 / 2.0, d1 / 2.0, d2 / 2.0, r, rd);
    Doubling(c, s, kf(i, j), p1 / 2.0, p2 / 2.0, d1 / 2.0, d2 / 2.0);
  }

  /** One diagonal step on doubled entries gives the doubled entry. */
  lemma TwiceDiagonalStep(s: real, c: real, kf: (nat, nat) -> real, i: nat,
                          p1: real, d1: real, r: real, rd: real)
    requires 1 <= i
    requires p1 == 2.0 * Legendre.P(s, c, kf, i - 1, i - 1) && d1 == 2.0 * Legendre.DP(s, c, kf, i - 1, i - 1)
    requires r == Legendre.P(s, c, kf, i, i) && rd == Legendre.DP(s, c, kf, i, i)
    ensures s * p1 == 2.0 * r && Legendre.DiagonalDerivative(s, c, p1, d1) == 2.0 * rd
  {
    Legendre.DiagonalStep(s, c, kf, i, p1 / 2.0, d1 / 2.0, r, rd);
    Doubling(c, s, 0.0, p1 / 2.0, 0.0, d1 / 2.0, 0.0);
  }

  /** The three step functions are linear in the table entries. */
  lemma Doubling(c: real, s: real, k: real, p1: real, p2: real, d1: real, d2: real)
    ensures Legendre.Recur(c, k, 2.0 * p1, 2.0 * p2) == 2.0 * Legendre.Recur(c, k, p1, p2)
    ensures Legendre.RecurDerivative(s, c, k, 2.0 * p1, 2.0 * d1, 2.0 * d2) ==
            2.0 * Legendre.RecurDerivative(s, c, k, p1, d1, d2)
    ensures Legendre.DiagonalDerivative(s, c, 2.0 * p1, 2.0 * d1) == 2.0 * Legendre.DiagonalDerivative(s, c, p1, d1)
    ensures s * (2.0 * p1) == 2.0 * (s * p1)
  {
  }

  // ===== calc_internal_field =====

  /** A complex number, for the angle recurrence of the synthesis. */
  datatype Complex = Complex(re: real, im: real)

  function CMul(a: Complex, b: Complex): Complex {
    Complex(a.re * b.re - a.im * b.im, a.im * b.re + a.re * b.im)
  }

  /** z^m. */
  function CPow(z: Complex, m: nat): Complex
    decreases m
  {
    if m == 0 then Complex(1.0, 0.0) else CMul(CPow(z, m - 1), z)
  }

  /** The angle-addition formulas for the angles a and b: the phasor
      (cos, sin) of a + b is the product of the phasors of a and b. */
  ghost predicate AdditionLaws(mth: Math, a: real, b: real) {
    Complex(mth.cos(a + b), mth.sin(a + b)) == CMul(Complex(mth.cos(a), mth.sin(a)), Complex(mth.cos(b), mth.sin(b)))
  }

  /** `1 / sin(theta)`, clamped to 0 near the poles (|sin(theta)| <= 1e-3). */
  function InvSin(s: real): (r: real)
    ensures Abs(s) <= 0.001 ==> r == 0.0
    ensures Abs(s) > 0.001 ==> r * s == 1.0
  {
    if Abs(s) > 0.001 then 1.0 / s else 0.0
  }

  /** The contribution of degree n and order m to (Br, Btheta, Bphi), from the
      table entries `pnm` and `dpnm`, the coefficients `gnm` and `hnm`, the
      clamped 1/sin(theta) `inv` and z = (cos m phi, sin m phi). */
  function HarmonicTerm(ar: real, n: nat, m: nat, pnm: real, dpnm: real, gnm: real, hnm: real,
                        inv: real, z: Complex): Vec3
  {
    Vec3(
      Pow(ar, n + 2) * (n + 1) as real * pnm * (gnm * z.re + hnm * z.im),
      -(Pow(ar, n + 2) * dpnm * (gnm * z.re + hnm * z.im)),
      inv * Pow(ar, n + 2) * pnm * m as real * (gnm * z.im - hnm * z.re))
  }

  /** The terms of degree n with order below `count`, for the colatitude
      with sine `s` and cosine `c` and the azimuth with unit phasor `z`. */
  function RowSum(ar: real, s: real, c: real, kf: (nat, nat) -> real, z: Complex, inv: real,
                  g: array2<real>, h: array2<real>, n: nat, count: nat): Vec3
    requires n < g.Length0 && n < h.Length0 && count <= g.Length1 && count <= h.Length1
    reads g, h
    decreases count
  {
    if count == 0 then Zero
    else
      var m := count - 1;
      Add(RowSum(ar, s, c, kf, z, inv, g, h, n, m),
          HarmonicTerm(ar, n, m, 2.0 * Legendre.P(s, c, kf, n, m),
                       2.0 * Legendre.DP(s, c, kf, n, m),
                       g[n, m], h[n, m], inv, CPow(z, m)))
  }

  /** The double sum over 0 <= m <= n < degrees of the harmonic terms. */
  function Synthesis(ar: real, s: real, c: real, kf: (nat, nat) -> real, z: Complex, inv: real,
                     g: array2<real>, h: array2<real>, degrees: nat): Vec3
    requires degrees <= g.Length0 && degrees <= h.Length0 && degrees <= g.Length1 && degrees <= h.Length1
    reads g, h
    decreases degrees
  {
    if degrees == 0 then Zero
    else Add(Synthesis(ar, s, c, kf, z, inv, g, h, degrees - 1),
             RowSum(ar, s, c, kf, z, inv, g, h, degrees - 1, degrees))
  }

  /** `calc_internal_field`: (Br, Btheta, Bphi) at radius `ra` (in planetary
      radii), colatitude theta and longitude phi, from the Gauss coefficients
      g and h up to degree `degree`. The loops leave exactly the double sum
      of the harmonic terms over the tables of `CalcAssocLegendrePoly`, and
      near a pole the clamped 1/sin(theta) makes Bphi exactly 0. */
  method CalcInternalField(mth: Math, ra: real, theta: real, phi: real,
                           g: array2<real>, h: array2<real>, degree: nat) returns (b: Vec3)
    requires ra != 0.0
    requires 1 <= degree
    requires degree < g.Length0 && degree < g.Length1 && degree < h.Length0 && degree < h.Length1
    ensures b == Synthesis(1.0 / ra, mth.sin(theta), mth.cos(theta), Legendre.K, Complex(mth.cos(phi), mth.sin(phi)),
                           InvSin(mth.sin(theta)), g, h, degree + 1)
    ensures Abs(mth.sin(theta)) <= 0.001 ==> b.c2 == 0.0
  {
    var br, btheta, bphi;
    var ar := 1.0 / ra;
    var p, dp := CalcAssocLegendrePoly(mth, theta, degree);
    var sintheta := mth.sin(theta);
    var sinphi := mth.sin(phi);
    var cosphi := mth.cos(phi);
    var invSintheta := 0.0;
    if Abs(sintheta) > 0.001 {
      invSintheta := 1.0 / sintheta;
    }
    br, btheta, bphi := SumHarmonics(p, dp, g, h, ar, invSintheta, cosphi, sinphi, degree,
                                     sintheta, mth.cos(theta), Legendre.K);
    b := Vec3(br, btheta, bphi);
    if Abs(sintheta) <= 0.001 {
      PoleClampSynthesis(ar, sintheta, mth.cos(theta), Legendre.K, Complex(cosphi, sinphi), g, h, degree + 1);
    }
  }

  /** The double loop of `calc_internal_field` over the tables p and dp
      (twice the Legendre tables for sine `s`, cosine `c` and coefficients
      `kf`), from zero accumulators. */
  method SumHarmonics(p: array2<real>, dp: array2<real>, g: array2<real>, h: array2<real>,
                      ar: real, invSintheta: real, cosphi: real, sinphi: real, degree: nat,
                      ghost s: real, ghost c: real, ghost kf: (nat, nat) -> real)
    returns (br: real, btheta: real, bphi: real)
    requires degree < p.Length1 && degree < dp.Length1
    requires degree < g.Length0 && degree < g.Length1 && degree < h.Length0 && degree < h.Length1
    requires TwiceRowsDone(p, dp, s, c, kf, degree + 1)
    ensures Vec3(br, btheta, bphi) == Synthesis(ar, s, c, kf, Complex(cosphi, sinphi), invSintheta, g, h, degree + 1)
  {
    br, btheta, bphi := 0.0, 0.0, 0.0;
    var n := 0;
    while n <= degree
      invariant n <= degree + 1
      invariant Vec3(br, btheta, bphi) == Synthesis(ar, s, c, kf, Complex(cosphi, sinphi), invSintheta, g, h, n)
    {
      br, btheta, bphi := AccumulateDegree(p, dp, g, h, ar, invSintheta, cosphi, sinphi, n, br, btheta, bphi,
                                           s, c, kf);
      n := n + 1;
    }
  }

  /** One pass of the outer loop of `calc_internal_field`: adds the terms of
      degree n, order 0 first and then orders 1..n with (cos m phi, sin m phi)
      rolled forward by the angle-addition recurrence. */
  method AccumulateDegree(p: array2<real>, dp: array2<real>, g: array2<real>, h: array2<real>,
                          ar: real, invSintheta: real, cosphi: real, sinphi: real, n: nat,
                          br0: real, btheta0: real, bphi0: real,
                          ghost s: real, ghost c: real, ghost kf: (nat, nat) -> real)
    returns (br: real, btheta: real, bphi: real)
    requires n < p.Length0 && n < p.Length1 && n < dp.Length0 && n < dp.Length1
    requires n < g.Length0 && n < g.Length1 && n < h.Length0 && n < h.Length1
    requires forall j :: 0 <= j <= n ==>
      p[n, j] == 2.0 * Legendre.P(s, c, kf, n, j) && dp[n, j] == 2.0 * Legendre.DP(s, c, kf, n, j)
    ensures Vec3(br, btheta, bphi) ==
      Add(Vec3(br0, btheta0, bphi0), RowSum(ar, s, c, kf, Complex(cosphi, sinphi), invSintheta, g, h, n, n + 1))
  {
    ghost var z := Complex(cosphi, sinphi);
    ghost var acc0 := Vec3(br0, btheta0, bphi0);
    var m := 0;
    br, btheta, bphi := AddZeroOrderTerm(ar, n, p[n, m], dp[n, m], g[n, m], h[n, m], invSintheta,
                                         br0, btheta0, bphi0);
    RowStep(ar, s, c, kf, z, invSintheta, g, h, n, 0, acc0, acc0, p[n, 0], dp[n, 0], Complex(1.0, 0.0));
    br, btheta, bphi := AccumulateOrders(p, dp, g, h, ar, invSintheta, cosphi, sinphi, n, acc0, br, btheta, bphi,
                                         s, c, kf);
  }

  /** The inner loop of `calc_internal_field`, over the orders 1..n. */
  method AccumulateOrders(p: array2<real>, dp: array2<real>, g: array2<real>, h: array2<real>,
                          ar: real, invSintheta: real, cosphi: real, sinphi: real, n: nat, ghost acc0: Vec3,
                          br0: real, btheta0: real, bphi0: real,
                          ghost s: real, ghost c: real, ghost kf: (nat, nat) -> real)
    returns (br: real, btheta: real, bphi: real)
    requires n < p.Length0 && n < p.Length1 && n < dp.Length0 && n < dp.Length1
    requires n < g.Length0 && n < g.Length1 && n < h.Length0 && n < h.Length1
    requires forall j :: 0 <= j <= n ==>
      p[n, j] == 2.0 * Legendre.P(s, c, kf, n, j) && dp[n, j] == 2.0 * Legendre.DP(s, c, kf, n, j)
    requires Vec3(br0, btheta0, bphi0) == Add(acc0, RowSum(ar, s, c, kf, Complex(cosphi, sinphi), invSintheta, g, h, n, 1))
    ensures Vec3(br, btheta, bphi) ==
      Add(acc0, RowSum(ar, s, c, kf, Complex(cosphi, sinphi), invSintheta, g, h, n, n + 1))
  {
    ghost var z := Complex(cosphi, sinphi);
    br, btheta, bphi := br0, btheta0, bphi0;
    var sinphiPrev, cosphiPrev := 0.0, 1.0;
    var m := 1;
    while m <= n
      invariant 1 <= m <= n + 1
      invariant Complex(cosphiPrev, sinphiPrev) == CPow(z, m - 1)
      invariant Vec3(br, btheta, bphi) == Add(acc0, RowSum(ar, s, c, kf, z, invSintheta, g, h, n, m))
    {
      var cosmphi, sinmphi := RotatePhase(cosphiPrev, sinphiPrev, cosphi, sinphi);
      ghost var acc := Vec3(br, btheta, bphi);
      br, btheta, bphi := AddTerm(ar, n, m, p[n, m], dp[n, m], g[n, m], h[n, m], invSintheta, cosmphi, sinmphi,
                                  br, btheta, bphi);
      RowStep(ar, s, c, kf, z, invSintheta, g, h, n, m, acc0, acc, p[n, m], dp[n, m], Complex(cosmphi, sinmphi));
      sinphiPrev := sinmphi;
      cosphiPrev := cosmphi;
      m := m + 1;
    }
  }

  /** The body of the inner loop: (cos m phi, sin m phi) from
      (cos (m-1) phi, sin (m-1) phi) by the angle-addition formulas, which is
      multiplication by the phasor (cos phi, sin phi). */
  method RotatePhase(cosphiPrev: real, sinphiPrev: real, cosphi: real, sinphi: real)
    returns (cosmphi: real, sinmphi: real)
    ensures Complex(cosmphi, sinmphi) == CMul(Complex(cosphiPrev, sinphiPrev), Complex(cosphi, sinphi))
  {
    sinmphi := sinphiPrev * cosphi + cosphiPrev * sinphi;
    cosmphi := cosphiPrev * cosphi - sinphiPrev * sinphi;
  }

  /** The updates of (Br, Btheta, Bphi) in the inner loop add one harmonic
      term, with `pnm`, `dpnm`, `gnm` and `hnm` the entries (n, m) of the
      tables and coefficients. */
  method AddTerm(ar: real, n: nat, m: nat, pnm: real, dpnm: real, gnm: real, hnm: real, invSintheta: real,
                 cosmphi: real, sinmphi: real, br0: real, btheta0: real, bphi0: real)
    returns (br: real, btheta: real, bphi: real)
    ensures Vec3(br, btheta, bphi) ==
      Add(Vec3(br0, btheta0, bphi0), HarmonicTerm(ar, n, m, pnm, dpnm, gnm, hnm, invSintheta, Complex(cosmphi, sinmphi)))
  {
    br := br0 + Pow(ar, n + 2) * (n + 1) as real * pnm * (gnm * cosmphi + hnm * sinmphi);
    btheta := btheta0 - Pow(ar, n + 2) * dpnm * (gnm * cosmphi + hnm * sinmphi);
    bphi := bphi0 + invSintheta * Pow(ar, n + 2) * pnm * m as real * (gnm * sinmphi - hnm * cosmphi);
  }

  /** The updates of (Br, Btheta, Bphi) before the inner loop add the order-0
      harmonic term. */
  method AddZeroOrderTerm(ar: real, n: nat, pnm: real, dpnm: real, gnm: real, hnm: real, invSintheta: real,
                          br0: real, btheta0: real, bphi0: real)
    returns (br: real, btheta: real, bphi: real)
    ensures Vec3(br, btheta, bphi) ==
      Add(Vec3(br0, btheta0, bphi0), HarmonicTerm(ar, n, 0, pnm, dpnm, gnm, hnm, invSintheta, Complex(1.0, 0.0)))
  {
    var m := 0;
    br := br0 + Pow(ar, n + 2) * (n + 1) as real * pnm * gnm;
    btheta := btheta0 - Pow(ar, n + 2) * dpnm * gnm;
    bphi := bphi0 + invSintheta * Pow(ar, n + 2) * pnm * m as real * -hnm;
    ZeroOrderTerm(ar, n, pnm, dpnm, gnm, hnm, invSintheta);
  }

  /** Adding the term of order m to the sum of the orders below m. */
  lemma RowStep(ar: real, s: real, c: real, kf: (nat, nat) -> real, z: Complex, inv: real,
                g: array2<real>, h: array2<real>, n: nat, m: nat, acc0: Vec3, acc: Vec3,
                pnm: real, dpnm: real, w: Complex)
    requires n < g.Length0 && n < h.Length0 && m < g.Length1 && m < h.Length1
    requires acc == Add(acc0, RowSum(ar, s, c, kf, z, inv, g, h, n, m))
    requires pnm == 2.0 * Legendre.P(s, c, kf, n, m) && dpnm == 2.0 * Legendre.DP(s, c, kf, n, m)
    requires w == CPow(z, m)
    ensures Add(acc, HarmonicTerm(ar, n, m, pnm, dpnm, g[n, m], h[n, m], inv, w)) ==
            Add(acc0, RowSum(ar, s, c, kf, z, inv, g, h, n, m + 1))
  {
  }

  /** The order-0 term: (cos 0, sin 0) = (1, 0), so h[n, 0] does not enter it
      and it adds nothing to Bphi. */
  lemma ZeroOrderTerm(ar: real, n: nat, pnm: real, dpnm: real, gnm: real, hnm: real, inv: real)
    ensures HarmonicTerm(ar, n, 0, pnm, dpnm, gnm, hnm, inv, Complex(1.0, 0.0)) ==
            Vec3(Pow(ar, n + 2) * (n + 1) as real * pnm * gnm, -(Pow(ar, n + 2) * dpnm * gnm),
                 inv * Pow(ar, n + 2) * pnm * 0.0 * -hnm)
    ensures HarmonicTerm(ar, n, 0, pnm, dpnm, gnm, hnm, inv, Complex(1.0, 0.0)).c2 == 0.0
  {
  }

  /** With the clamped 1/sin(theta) at 0, every row sum has Bphi = 0. */
  lemma {:induction false} PoleClampRow(ar: real, s: real, c: real, kf: (nat, nat) -> real, z: Complex,
                                        g: array2<real>, h: array2<real>, n: nat, count: nat)
    requires n < g.Length0 && n < h.Length0 && count <= g.Length1 && count <= h.Length1
    ensures RowSum(ar, s, c, kf, z, 0.0, g, h, n, count).c2 == 0.0
    decreases count
  {
    if count > 0 {
      PoleClampRow(ar, s, c, kf, z, g, h, n, count - 1);
    }
  }

  /** With the clamped 1/sin(theta) at 0, the synthesised Bphi is 0. */
  lemma {:induction false} PoleClampSynthesis(ar: real, s: real, c: real, kf: (nat, nat) -> real, z: Complex,
                                              g: array2<real>, h: array2<real>, degrees: nat)
    requires degrees <= g.Length0 && degrees <= h.Length0 && degrees <= g.Length1 && degrees <= h.Length1
    ensures Synthesis(ar, s, c, kf, z, 0.0, g, h, degrees).c2 == 0.0
    decreases degrees
  {
    if degrees > 0 {
      PoleClampSynthesis(ar, s, c, kf, z, g, h, degrees - 1);
      PoleClampRow(ar, s, c, kf, z, g, h, degrees - 1, degrees);
    }
  }

  /** The angle recurrence stays on the unit circle: |z^m| = 1 when |z| = 1. */
  lemma {:induction false} PowerOnCircle(z: Complex, m: nat)
    requires OnCircle(z.im, z.re)
    ensures OnCircle(CPow(z, m).im, CPow(z, m).re)
    decreases m
  {
    if m > 0 {
      PowerOnCircle(z, m - 1);
      var q := CPow(z, m - 1);
      assert OnCircle(-z.im, z.re);
      RotationKeepsSquaredLength(q.re, q.im, -z.im, z.re);
    }
  }

  /** Under the angle-addition formulas, z^m for z = (cos phi, sin phi) is
      (cos m phi, sin m phi): the recurrence computes the multiple angles. */
  lemma PowerIsMultipleAngle(mth: Math, phi: real, m: nat)
    requires mth.cos(0.0) == 1.0 && mth.sin(0.0) == 0.0
    requires forall a, b :: AdditionLaws(mth, a, b)
    ensures CPow(Complex(mth.cos(phi), mth.sin(phi)), m) ==
            Complex(mth.cos(m as real * phi), mth.sin(m as real * phi))
  {
    PowerIsRepeatedAngle(mth, phi, m);
    RepeatedAngleIsMultiple(phi, m);
  }

  /** phi added to itself m times. */
  function RepeatedAngle(phi: real, m: nat): real {
    if m == 0 then 0.0 else RepeatedAngle(phi, m - 1) + phi
  }

  lemma {:induction false} RepeatedAngleIsMultiple(phi: real, m: nat)
    ensures RepeatedAngle(phi, m) == m as real * phi
  {
    if m > 0 {
      RepeatedAngleIsMultiple(phi, m - 1);
    }
  }

  lemma {:induction false} PowerIsRepeatedAngle(mth: Math, phi: real, m: nat)
    requires mth.cos(0.0) == 1.0 && mth.sin(0.0) == 0.0
    requires forall a, b :: AdditionLaws(mth, a, b)
    ensures CPow(Complex(mth.cos(phi), mth.sin(phi)), m) ==
            Complex(mth.cos(RepeatedAngle(phi, m)), mth.sin(RepeatedAngle(phi, m)))
  {
    if m > 0 {
      PowerIsRepeatedAngle(mth, phi, m - 1);
      assert AdditionLaws(mth, RepeatedAngle(phi, m - 1), phi);
    }
  }

  // ===== read_coefficients_file =====

  /** A whitespace-separated field of a line of the coefficient file: a
      number, or text that does not parse as one. */
  datatype Token = Number(value: real) | Text

  /** How reading ended: every coefficient was read, or the line at `index`
      was missing or had no numeric second field. */
  datatype ReadOutcome = Read | Failed(index: nat)

  /** `float(f.readline().split()[1])` on line i (line 0 is the header):
      None when the file has ended, the line has fewer than two fields or
      the second is not a number. */
  function LineValue(lines: seq<seq<Token>>, i: nat): Option<real> {
    if i < |lines| && 2 <= |lines[i]| && lines[i][1].Number? then Some(lines[i][1].value) else None
  }

  /** The value read from line i, 0 for a line that does not parse. */
  function FieldValue(lines: seq<seq<Token>>, i: nat): real {
    match LineValue(lines, i)
    case Some(v) => v
    case None => 0.0
  }

  /** The line holding g[n, m]: after the header come, for each degree
      k = 1, 2, .., the k+1 g-lines and the k h-lines, 2k+1 lines in all, so
      degree n starts at line n^2. */
  function GLine(n: nat, m: nat): nat {
    n * n + m
  }

  /** The line holding h[n, m] (1 <= m), after the n+1 g-lines of degree n. */
  function HLine(n: nat, m: nat): nat {
    n * n + n + m
  }

  /** Lines 1 .. k-1 all parse. */
  ghost predicate LinesParse(lines: seq<seq<Token>>, k: nat) {
    forall i {:trigger LineValue(lines, i)} :: 1 <= i < k ==> LineValue(lines, i).Some?
  }

  /** Line i is the first one after the header that does not parse. */
  ghost predicate FirstBadLine(lines: seq<seq<Token>>, i: nat) {
    1 <= i && LinesParse(lines, i) && LineValue(lines, i).None?
  }

  /** `N = degree if degree else 30`: an absent or zero degree means 30. */
  function MaxDegree(degree: Option<nat>): nat {
    if degree.None? || degree.value == 0 then 30 else degree.value
  }

  /** The coefficient g[n, m] as read, before any normalisation: only
      0 <= m <= n with n >= 1 are read; every other entry stays 0. */
  function RawG(lines: seq<seq<Token>>, n: nat, m: nat): real {
    if 1 <= n && m <= n then FieldValue(lines, GLine(n, m)) else 0.0
  }

  /** The coefficient h[n, m] as read: only 1 <= m <= n are read, so h[n, 0]
      stays 0 as well. */
  function RawH(lines: seq<seq<Token>>, n: nat, m: nat): real {
    if 1 <= n && 1 <= m <= n then FieldValue(lines, HLine(n, m)) else 0.0
  }

  /** `read_coefficients_file` on the lines of the file: reads g and h up to
      degree N = `MaxDegree(degree)` and, when `doNormalize`, scales entry
      (n, m) of both by the Schmidt factor S[n, m]. It fails exactly when one
      of the lines 1 .. N(N+2) is missing or does not parse, and then at the
      first such line. */
  method ReadCoefficientsFile(mth: Math, lines: seq<seq<Token>>, degree: Option<nat>, doNormalize: bool)
    returns (g: array2<real>, h: array2<real>, nMax: nat, outcome: ReadOutcome)
    ensures nMax == MaxDegree(degree)
    ensures fresh(g) && fresh(h) && g != h
    ensures g.Length0 == nMax + 1 && g.Length1 == nMax + 1 && h.Length0 == nMax + 1 && h.Length1 == nMax + 1
    ensures outcome == Read <==> LinesParse(lines, 1 + nMax * (nMax + 2))
    ensures outcome.Failed? ==> FirstBadLine(lines, outcome.index) && outcome.index < 1 + nMax * (nMax + 2)
    ensures outcome == Read ==> forall n, m :: 0 <= n <= nMax && 0 <= m <= nMax ==>
      g[n, m] == Normalised(mth, doNormalize, n, m, RawG(lines, n, m)) &&
      h[n, m] == Normalised(mth, doNormalize, n, m, RawH(lines, n, m))
  {
    nMax := MaxDegree(degree);
    g := new real[nMax + 1, nMax + 1]((_, _) => 0.0);
    h := new real[nMax + 1, nMax + 1]((_, _) => 0.0);
    var n := 1;
    while n <= nMax
      invariant 1 <= n <= nMax + 1
      invariant ReadRowsDone(g, h, lines, n) && Legendre.RowsZero(g, h, n)
      invariant LinesParse(lines, GLine(n, 0))
    {
      var bad := ReadDegree(g, h, lines, n);
      if bad.Some? {
        LinesOfDegrees(nMax);
        DegreeLinesBelow(n, nMax);
        return g, h, nMax, Failed(bad.value);
      }
      NextDegree(n);
      n := n + 1;
    }
    LinesOfDegrees(nMax);
    if doNormalize {
      Normalize(mth, g, h, nMax);
    }
    outcome := Read;
  }

  /** The Schmidt factor applied to a coefficient read as `v`: S[n, m] for
      1 <= n and m <= n when normalising, and nothing otherwise. */
  function Normalised(mth: Math, doNormalize: bool, n: nat, m: nat, v: real): real {
    if doNormalize && 1 <= n && m <= n then Scaled(v, Schmidt(mth, n, m)) else v
  }

  /** The Gauss-to-Schmidt factor S[n, m] of the normalisation loop: S[0, 0] = 1,
      S[n, 0] = S[n-1, 0] (2n-1) / n, S[n, 1] = S[n, 0] sqrt(2n / (n+1)) and
      S[n, m] = S[n, m-1] sqrt((n-m+1) / (n+m)) for m >= 2. Entries the loop
      never writes are 0. */
  function Schmidt(mth: Math, n: nat, m: nat): real
    decreases n, m
  {
    if m > n then 0.0
    else if n == 0 then 1.0
    else if m == 0 then Scaled(Schmidt(mth, n - 1, 0), ZonalRatio(n))
    else if m == 1 then Scaled(Schmidt(mth, n, 0), mth.sqrt(FirstOrderRatio(n)))
    else Scaled(Schmidt(mth, n, m - 1), mth.sqrt(OrderRatio(n, m)))
  }

  /** `(2n - 1) / n`, the step from S[n-1, 0] to S[n, 0]. */
  function ZonalRatio(n: nat): real
    requires 1 <= n
  {
    (2 * n - 1) as real / n as real
  }

  /** `2n / (n + 1)`, whose square root is the step from S[n, 0] to S[n, 1]. */
  function FirstOrderRatio(n: nat): real {
    n as real * 2.0 / (n + 1) as real
  }

  /** `(n - m + 1) / (n + m)`, whose square root is the step from S[n, m-1]
      to S[n, m]. */
  function OrderRatio(n: nat, m: nat): real
    requires 1 <= m <= n
  {
    (n - m + 1) as real / (n + m) as real
  }

  /** `n!`, as a real. */
  function Factorial(n: nat): real {
    if n == 0 then 1.0 else n as real * Factorial(n - 1)
  }

  /** `(2n - 1)!! = 1 * 3 * .. * (2n - 1)`, as a real. */
  function OddFactorial(n: nat): real {
    if n == 0 then 1.0 else (2 * n - 1) as real * OddFactorial(n - 1)
  }

  /** The zonal factors are the closed form S[n, 0] = (2n - 1)!! / n! of the
      Gauss-to-Schmidt conversion. */
  lemma {:induction false} ZonalClosedForm(mth: Math, n: nat)
    ensures Schmidt(mth, n, 0) * Factorial(n) == OddFactorial(n)
  {
    if n > 0 {
      ZonalClosedForm(mth, n - 1);
      ZonalArith(Schmidt(mth, n - 1, 0), Factorial(n - 1), n as real, (2 * n - 1) as real, OddFactorial(n - 1));
    }
  }

  lemma ZonalArith(prev: real, f: real, k: real, o: real, odd: real)
    requires k != 0.0 && prev * f == odd
    ensures Scaled(prev, o / k) * (k * f) == o * odd
  {
    assert (o / k) * k == o;
    assert Scaled(prev, o / k) * (k * f) == prev * ((o / k) * k) * f;
  }

  lemma {:induction false} OddFactorialAtLeastFactorial(n: nat)
    ensures 1.0 <= Factorial(n) <= OddFactorial(n)
  {
    if n > 0 {
      OddFactorialAtLeastFactorial(n - 1);
      var f := Factorial(n - 1);
      var o := OddFactorial(n - 1);
      MulNonNegative((2 * n - 1) as real - n as real, f);
      MulNonNegative((2 * n - 1) as real, o - f);
      MulNonNegative(n as real - 1.0, f - 1.0);
      assert n as real * f <= (2 * n - 1) as real * f <= (2 * n - 1) as real * o;
    }
  }

  lemma MulNonNegative(x: real, y: real)
    requires 0.0 <= x && 0.0 <= y
    ensures 0.0 <= x * y
  {
    if x != 0.0 && y != 0.0 {
      MulPositive(x, y);
    }
  }

  /** The zonal factors never shrink a coefficient: S[n, 0] >= 1. */
  lemma ZonalAtLeastOne(mth: Math, n: nat)
    ensures 1.0 <= Schmidt(mth, n, 0)
  {
    ZonalClosedForm(mth, n);
    OddFactorialAtLeastFactorial(n);
    QuotientAtLeastOne(Schmidt(mth, n, 0), Factorial(n), OddFactorial(n));
  }

  lemma QuotientAtLeastOne(z: real, f: real, o: real)
    requires 1.0 <= f <= o && z * f == o
    ensures 1.0 <= z
  {
    if z < 1.0 {
      MulPositive(1.0 - z, f);
      assert false;
    }
  }

  /** The tesseral factors are the closed form of the Schmidt
      quasi-normalisation: S[n, m]^2 (n+m)! (n-m)! = 2 S[n, 0]^2 (n!)^2, that
      is S[n, m] = S[n, 0] sqrt(2 (n-m)! / (n+m)!) n! / (n-m)!. */
  lemma {:induction false} TesseralClosedForm(mth: Math, n: nat, m: nat)
    requires Lawful(mth)
    requires 1 <= m <= n
    ensures TesseralIdentity(mth, n, m)
  {
    if m == 1 {
      FirstOrderClosedForm(mth, n);
    } else {
      TesseralClosedForm(mth, n, m - 1);
      OrderClosedFormStep(mth, n, m);
    }
  }

  /** `S[n, m]^2 (n+m)! (n-m)! = 2 S[n, 0]^2 (n!)^2`. */
  ghost predicate TesseralIdentity(mth: Math, n: nat, m: nat)
    requires m <= n
  {
    QuasiNormal(Schmidt(mth, n, m), Schmidt(mth, n, 0), Factorial(n + m), Factorial(n - m), Factorial(n))
  }

  /** `s^2 fPlus fMinus = 2 z^2 f^2`. */
  ghost predicate QuasiNormal(s: real, z: real, fPlus: real, fMinus: real, f: real) {
    s * s * fPlus * fMinus == 2.0 * z * z * f * f
  }

  lemma FirstOrderClosedForm(mth: Math, n: nat)
    requires Lawful(mth)
    requires 1 <= n
    ensures TesseralIdentity(mth, n, 1)
  {
    var r := FirstOrderRatio(n);
    RatioTimesDenominator(n as real * 2.0, (n + 1) as real);
    assert SqrtLaws(mth, r);
    FirstOrderArith(Schmidt(mth, n, 1), Schmidt(mth, n, 0), mth.sqrt(r), r, (n + 1) as real, n as real,
                    Factorial(n + 1), Factorial(n), Factorial(n - 1));
  }

  lemma OrderClosedFormStep(mth: Math, n: nat, m: nat)
    requires Lawful(mth)
    requires 2 <= m <= n
    requires TesseralIdentity(mth, n, m - 1)
    ensures TesseralIdentity(mth, n, m)
  {
    var r := OrderRatio(n, m);
    RatioTimesDenominator((n - m + 1) as real, (n + m) as real);
    assert SqrtLaws(mth, r);
    assert Factorial(n - (m - 1)) == (n - m + 1) as real * Factorial(n - m);
    OrderArith(Schmidt(mth, n, m), Schmidt(mth, n, m - 1), Schmidt(mth, n, 0), mth.sqrt(r), r,
               (n + m) as real, (n - m + 1) as real,
               Factorial(n + m), Factorial(n + (m - 1)), Factorial(n - m), Factorial(n - (m - 1)), Factorial(n));
  }

  lemma RatioTimesDenominator(j: real, k: real)
    requires 0.0 <= j && 0.0 < k
    ensures 0.0 <= j / k && (j / k) * k == j
  {
    var q := j / k;
    if q < 0.0 {
      MulPositive(-q, k);
      assert false;
    }
  }

  /** The arithmetic of the first tesseral step, with every factor named. */
  lemma FirstOrderArith(s1: real, z: real, q: real, r: real, k1: real, k: real, fa: real, fn: real, fb: real)
    requires s1 == Scaled(z, q) && q * q == r && r * k1 == k * 2.0
    requires fa == k1 * fn && fn == k * fb
    ensures QuasiNormal(s1, z, fa, fb, fn)
  {
    assert s1 * s1 == (z * z) * (q * q);
    assert (z * z) * r * (k1 * fn) * fb == (z * z) * (r * k1) * fn * fb;
  }

  /** The arithmetic of a later tesseral step, with every factor named. */
  lemma OrderArith(s: real, p: real, z: real, q: real, r: real, k: real, j: real,
                   fa: real, up: real, fb: real, fb1: real, fn: real)
    requires s == Scaled(p, q) && q * q == r && r * k == j
    requires fa == k * up && fb1 == j * fb
    requires QuasiNormal(p, z, up, fb1, fn)
    ensures QuasiNormal(s, z, fa, fb, fn)
  {
    assert s * s == (p * p) * (q * q);
    assert (p * p) * r * (k * up) * fb == (p * p) * (r * k) * up * fb;
  }

  /** Under the laws of sqrt every factor on or below the diagonal is
      positive, so normalisation keeps the sign of each coefficient. */
  lemma {:induction false} SchmidtPositive(mth: Math, n: nat, m: nat)
    requires Lawful(mth)
    requires m <= n
    ensures 0.0 < Schmidt(mth, n, m)
  {
    if m == 0 {
      ZonalAtLeastOne(mth, n);
    } else {
      var r := if m == 1 then FirstOrderRatio(n) else OrderRatio(n, m);
      assert 0.0 < r;
      assert SqrtLaws(mth, r);
      SqrtPositive(mth.sqrt(r), r);
      SchmidtPositive(mth, n, m - 1);
      MulPositive(Schmidt(mth, n, m - 1), mth.sqrt(r));
    }
  }

  lemma SqrtPositive(q: real, r: real)
    requires 0.0 < r && 0.0 <= q && q * q == r
    ensures 0.0 < q
  {
    if q == 0.0 {
      assert false;
    }
  }

  /** Rows 0 .. rows-1 of g and h hold what the reader puts there. */
  ghost predicate ReadRowsDone(g: array2<real>, h: array2<real>, lines: seq<seq<Token>>, rows: nat)
    reads g, h
  {
    && rows <= g.Length0 && rows <= h.Length0
    && (forall a, b {:trigger g[a, b]} :: 0 <= a < rows && 0 <= b < g.Length1 ==> g[a, b] == RawG(lines, a, b))
    && (forall a, b {:trigger h[a, b]} :: 0 <= a < rows && 0 <= b < h.Length1 ==> h[a, b] == RawH(lines, a, b))
  }

  /** The first `count` entries of row n of `t` hold the values of the lines
      `first`, `first + 1`, ..; from `from` on the row is still zero. */
  ghost predicate ReadRowPart(t: array2<real>, lines: seq<seq<Token>>, n: nat, skip: nat, first: nat, count: nat)
    requires n < t.Length0
    reads t
  {
    && (forall b {:trigger t[n, b]} :: skip <= b < skip + count && b < t.Length1 ==>
          t[n, b] == FieldValue(lines, first + b - skip))
    && (forall b {:trigger t[n, b]} :: (b < skip || skip + count <= b) && 0 <= b < t.Length1 ==> t[n, b] == 0.0)
  }

  /** One pass of the outer loop of the reader: the n+1 g-lines and then the
      n h-lines of degree n. Returns the first line that does not parse. */
  method ReadDegree(g: array2<real>, h: array2<real>, lines: seq<seq<Token>>, n: nat) returns (bad: Option<nat>)
    requires g != h
    requires 1 <= n < g.Length0 && g.Length0 == g.Length1 == h.Length0 == h.Length1
    requires ReadRowsDone(g, h, lines, n) && Legendre.RowsZero(g, h, n)
    requires LinesParse(lines, GLine(n, 0))
    modifies g, h
    ensures bad.None? ==> ReadRowsDone(g, h, lines, n + 1) && Legendre.RowsZero(g, h, n + 1)
    ensures bad.None? ==> LinesParse(lines, HLine(n, n) + 1)
    ensures bad.Some? ==> FirstBadLine(lines, bad.value) && GLine(n, 0) <= bad.value <= HLine(n, n)
  {
    bad := ReadRow(g, lines, n, 0, n + 1, GLine(n, 0));
    if bad.Some? {
      return;
    }
    assert GLine(n, 0) + n + 1 == HLine(n, 1);
    bad := ReadRow(h, lines, n, 1, n, HLine(n, 1));
    if bad.Some? {
      return;
    }
    forall a, b | 0 <= a < n + 1 && 0 <= b < g.Length1
      ensures g[a, b] == RawG(lines, a, b)
    {
    }
    forall a, b | 0 <= a < n + 1 && 0 <= b < h.Length1
      ensures h[a, b] == RawH(lines, a, b)
    {
    }
  }

  /** One inner loop of the reader: `count` lines from line `first` into
      row n of t, starting at column `skip`. */
  method ReadRow(t: array2<real>, lines: seq<seq<Token>>, n: nat, skip: nat, count: nat, first: nat)
    returns (bad: Option<nat>)
    requires n < t.Length0 && skip + count <= t.Length1
    requires 1 <= first && LinesParse(lines, first)
    requires forall b :: 0 <= b < t.Length1 ==> t[n, b] == 0.0
    modifies t
    ensures forall a, b :: 0 <= a < t.Length0 && a != n && 0 <= b < t.Length1 ==> t[a, b] == old(t[a, b])
    ensures bad.None? ==> ReadRowPart(t, lines, n, skip, first, count) && LinesParse(lines, first + count)
    ensures bad.Some? ==> FirstBadLine(lines, bad.value) && first <= bad.value < first + count
  {
    var j := 0;
    while j < count
      invariant 0 <= j <= count
      invariant forall a, b :: 0 <= a < t.Length0 && a != n && 0 <= b < t.Length1 ==> t[a, b] == old(t[a, b])
      invariant ReadRowPart(t, lines, n, skip, first, j) && LinesParse(lines, first + j)
    {
      var field := LineValue(lines, first + j);
      if field.None? {
        return Some(first + j);
      }
      t[n, skip + j] := field.value;
      j := j + 1;
    }
    return None;
  }

  /** The degrees 1 .. N take exactly the lines 1 .. N(N+2). */
  lemma LinesOfDegrees(nMax: nat)
    ensures GLine(nMax + 1, 0) == 1 + nMax * (nMax + 2)
  {
  }

  /** The lines of degree n are followed by those of degree n + 1. */
  lemma NextDegree(n: nat)
    ensures HLine(n, n) + 1 == GLine(n + 1, 0)
  {
  }

  /** A line of degree n <= N lies before line 1 + N(N+2). */
  lemma DegreeLinesBelow(n: nat, nMax: nat)
    requires n <= nMax
    ensures HLine(n, n) < 1 + nMax * (nMax + 2)
  {
    NextDegree(n);
    assert (n + 1) * (n + 1) <= (nMax + 1) * (nMax + 1);
  }

  /** The normalisation loop of `read_coefficients_file`: fills S row by row
      and scales entry (n, m) of g and h by S[n, m] for 1 <= n. */
  method Normalize(mth: Math, g: array2<real>, h: array2<real>, nMax: nat)
    requires g != h
    requires g.Length0 == nMax + 1 && g.Length1 == nMax + 1 && h.Length0 == nMax + 1 && h.Length1 == nMax + 1
    modifies g, h
    ensures forall n, m :: 0 <= n <= nMax && 0 <= m <= nMax ==>
      g[n, m] == Normalised(mth, true, n, m, old(g[n, m])) && h[n, m] == Normalised(mth, true, n, m, old(h[n, m]))
  {
    ghost var sf := (a: nat, b: nat) => Schmidt(mth, a, b);
    SchmidtSteps(mth, sf, nMax);
    ScaleAll(mth, sf, g, h, nMax);
    forall n, m | 0 <= n <= nMax && 0 <= m <= nMax
      ensures g[n, m] == Normalised(mth, true, n, m, old(g[n, m]))
      ensures h[n, m] == Normalised(mth, true, n, m, old(h[n, m]))
    {
      AboveDiagonalUnscaled(mth, n, m, old(g[n, m]));
      AboveDiagonalUnscaled(mth, n, m, old(h[n, m]));
    }
  }

  /** `sf` satisfies the recurrences that define S, for the degrees 1 .. nMax. */
  ghost predicate SchmidtRecurrences(mth: Math, sf: (nat, nat) -> real, nMax: nat) {
    && sf(0, 0) == 1.0
    && (forall n {:trigger ZonalRatio(n)} :: 1 <= n <= nMax ==> sf(n, 0) == Scaled(sf(n - 1, 0), ZonalRatio(n)))
    && (forall n {:trigger FirstOrderRatio(n)} :: 1 <= n <= nMax ==>
          sf(n, 1) == Scaled(sf(n, 0), mth.sqrt(FirstOrderRatio(n))))
    && (forall n, m {:trigger OrderRatio(n, m)} :: 2 <= m <= n <= nMax ==>
          sf(n, m) == Scaled(sf(n, m - 1), mth.sqrt(OrderRatio(n, m))))
  }

  /** The factors S satisfy their own recurrences. */
  lemma SchmidtSteps(mth: Math, sf: (nat, nat) -> real, nMax: nat)
    requires forall a, b :: sf(a, b) == Schmidt(mth, a, b)
    ensures SchmidtRecurrences(mth, sf, nMax)
  {
  }

  /** The normalisation loop over a table `sf` that satisfies the recurrences
      of S; the entries below the diagonal of rows 1 .. nMax are scaled. */
  method ScaleAll(mth: Math, ghost sf: (nat, nat) -> real, g: array2<real>, h: array2<real>, nMax: nat)
    requires g != h
    requires g.Length0 == nMax + 1 && g.Length1 == nMax + 1 && h.Length0 == nMax + 1 && h.Length1 == nMax + 1
    requires SchmidtRecurrences(mth, sf, nMax)
    modifies g, h
    ensures forall a, b :: 0 <= a <= nMax && 0 <= b <= nMax ==>
      g[a, b] == (if 1 <= a && b <= a then Scaled(old(g[a, b]), sf(a, b)) else old(g[a, b]))
    ensures forall a, b :: 0 <= a <= nMax && 0 <= b <= nMax ==>
      h[a, b] == (if 1 <= a && b <= a then Scaled(old(h[a, b]), sf(a, b)) else old(h[a, b]))
  {
    var s := new real[nMax + 1, nMax + 1]((_, _) => 0.0);
    s[0, 0] := 1.0;
    var n := 1;
    while n <= nMax
      invariant 1 <= n <= nMax + 1
      invariant s[n - 1, 0] == sf(n - 1, 0)
      invariant forall a, b :: 0 <= a <= nMax && 0 <= b <= nMax ==>
        g[a, b] == (if 1 <= a < n && b <= a then Scaled(old(g[a, b]), sf(a, b)) else old(g[a, b]))
      invariant forall a, b :: 0 <= a <= nMax && 0 <= b <= nMax ==>
        h[a, b] == (if 1 <= a < n && b <= a then Scaled(old(h[a, b]), sf(a, b)) else old(h[a, b]))
    {
      NormalizeDegree(mth, sf, s, g, h, n, nMax);
      n := n + 1;
    }
  }

  /** One pass of the outer normalisation loop: row n of S, and row n of g
      and h scaled by it. */
  method NormalizeDegree(mth: Math, ghost sf: (nat, nat) -> real, s: array2<real>, g: array2<real>, h: array2<real>,
                         n: nat, nMax: nat)
    requires s != g && s != h && g != h
    requires 1 <= n <= nMax && s.Length0 == nMax + 1
    requires s.Length0 == s.Length1 == g.Length0 == g.Length1 == h.Length0 == h.Length1
    requires SchmidtRecurrences(mth, sf, nMax)
    requires s[n - 1, 0] == sf(n - 1, 0)
    modifies s, g, h
    ensures s[n, 0] == sf(n, 0)
    ensures forall a, b :: 0 <= a < g.Length0 && a != n && 0 <= b < g.Length1 ==> g[a, b] == old(g[a, b])
    ensures forall a, b :: 0 <= a < h.Length0 && a != n && 0 <= b < h.Length1 ==> h[a, b] == old(h[a, b])
    ensures forall b :: 0 <= b < g.Length1 ==> g[n, b] == (if b <= n then Scaled(old(g[n, b]), sf(n, b)) else old(g[n, b]))
    ensures forall b :: 0 <= b < h.Length1 ==> h[n, b] == (if b <= n then Scaled(old(h[n, b]), sf(n, b)) else old(h[n, b]))
  {
    s[n, 0] := ZonalFactor(s[n - 1, 0], n);
    assert s[n, 0] == sf(n, 0);
    s[n, 1] := FirstOrderFactor(mth, s[n, 0], n);
    assert s[n, 1] == sf(n, 1);
    ScaleEntry(g, n, 0, s[n, 0]);
    ScaleEntry(h, n, 0, s[n, 0]);
    ScaleEntry(g, n, 1, s[n, 1]);
    ScaleEntry(h, n, 1, s[n, 1]);
    ScaleOrders(mth, sf, s, g, h, n, nMax);
  }

  /** The inner normalisation loop, over the orders 2..n of degree n. */
  method ScaleOrders(mth: Math, ghost sf: (nat, nat) -> real, s: array2<real>, g: array2<real>, h: array2<real>,
                     n: nat, nMax: nat)
    requires s != g && s != h && g != h
    requires 1 <= n <= nMax && s.Length0 == nMax + 1
    requires s.Length0 == s.Length1 == g.Length0 == g.Length1 == h.Length0 == h.Length1
    requires SchmidtRecurrences(mth, sf, nMax)
    requires s[n, 1] == sf(n, 1)
    modifies s, g, h
    ensures s[n, 0] == old(s[n, 0])
    ensures forall a, b :: 0 <= a < g.Length0 && a != n && 0 <= b < g.Length1 ==> g[a, b] == old(g[a, b])
    ensures forall a, b :: 0 <= a < h.Length0 && a != n && 0 <= b < h.Length1 ==> h[a, b] == old(h[a, b])
    ensures forall b :: 0 <= b < g.Length1 ==>
      g[n, b] == (if 2 <= b <= n then Scaled(old(g[n, b]), sf(n, b)) else old(g[n, b]))
    ensures forall b :: 0 <= b < h.Length1 ==>
      h[n, b] == (if 2 <= b <= n then Scaled(old(h[n, b]), sf(n, b)) else old(h[n, b]))
  {
    var m := 2;
    while m <= n
      invariant 2 <= m <= n + 1
      invariant s[n, m - 1] == sf(n, m - 1)
      invariant s[n, 0] == old(s[n, 0])
      invariant forall a, b :: 0 <= a < g.Length0 && a != n && 0 <= b < g.Length1 ==> g[a, b] == old(g[a, b])
      invariant forall a, b :: 0 <= a < h.Length0 && a != n && 0 <= b < h.Length1 ==> h[a, b] == old(h[a, b])
      invariant forall b :: 0 <= b < g.Length1 ==>
        g[n, b] == (if 2 <= b < m then Scaled(old(g[n, b]), sf(n, b)) else old(g[n, b]))
      invariant forall b :: 0 <= b < h.Length1 ==>
        h[n, b] == (if 2 <= b < m then Scaled(old(h[n, b]), sf(n, b)) else old(h[n, b]))
    {
      s[n, m] := OrderFactor(mth, s[n, m - 1], n, m);
      assert s[n, m] == sf(n, m);
      ScaleEntry(g, n, m, s[n, m]);
      ScaleEntry(h, n, m, s[n, m]);
      m := m + 1;
    }
  }

  /** A coefficient `v` multiplied by the factor `f`. */
  function Scaled(v: real, f: real): real {
    v * f
  }

  /** `t[n, m] = t[n, m] * f`, the update of g and of h in the normalisation
      loop. */
  method ScaleEntry(t: array2<real>, n: nat, m: nat, f: real)
    requires n < t.Length0 && m < t.Length1
    modifies t
    ensures forall a, b :: 0 <= a < t.Length0 && a != n && 0 <= b < t.Length1 ==> t[a, b] == old(t[a, b])
    ensures forall b :: 0 <= b < t.Length1 ==> t[n, b] == (if b == m then Scaled(old(t[n, b]), f) else old(t[n, b]))
  {
    t[n, m] := t[n, m] * f;
  }

  /** `S[n, 0] = S[n - 1, 0] * (2 * n - 1) / n`, from `prev` = S[n - 1, 0]. */
  method ZonalFactor(prev: real, n: nat) returns (r: real)
    requires 1 <= n
    ensures r == Scaled(prev, ZonalRatio(n))
  {
    r := prev * (2 * n - 1) as real / n as real;
  }

  /** `S[n, 1] = S[n, 0] * sqrt(n * 2.0 / (n + 1))`, from `prev` = S[n, 0]. */
  method FirstOrderFactor(mth: Math, prev: real, n: nat) returns (r: real)
    ensures r == Scaled(prev, mth.sqrt(FirstOrderRatio(n)))
  {
    r := prev * mth.sqrt(n as real * 2.0 / (n + 1) as real);
  }

  /** `S[n, m] = S[n, m - 1] * sqrt((n - m + 1) / (n + m))`, from `prev` =
      S[n, m - 1]. */
  method OrderFactor(mth: Math, prev: real, n: nat, m: nat) returns (r: real)
    requires 1 <= m <= n
    ensures r == Scaled(prev, mth.sqrt(OrderRatio(n, m)))
  {
    r := prev * mth.sqrt((n - m + 1) as real / (n + m) as real);
  }

  /** Normalisation leaves the entries above the diagonal alone. */
  lemma AboveDiagonalUnscaled(mth: Math, n: nat, m: nat, v: real)
    ensures Normalised(mth, true, n, m, v) == (if 1 <= n && m <= n then Scaled(v, Schmidt(mth, n, m)) else v)
  {
  }
}
