/** Gauss-normalised associated Legendre functions P(n, m) of cos(theta) and
    their theta-derivatives dP(n, m), filled into square tables by the
    three-term recurrence in sin(theta) and cos(theta). */
module Legendre {
  import opened Numerics

  /** Numerator `(n-1)^2 - m^2` of the recurrence coefficient, an unsigned
      integer expression in the source. */
  function KNumerator(n: nat, m: nat): int {
    (n - 1) * (n - 1) - m * m
  }

  /** Denominator `(2n-1)(2n-3)` of the recurrence coefficient. */
  function KDenominator(n: nat): int
    requires 2 <= n
  {
    (2 * n - 1) * (2 * n - 3)
  }

  /** The recurrence coefficient k[n, m], which the fill evaluates for
      n >= 2 only (0 below that, where the unsigned denominator would wrap). */
  function K(n: nat, m: nat): real {
    if n < 2 then 0.0
    else
      KDenominatorAtLeastThree(n);
      KNumerator(n, m) as real / KDenominator(n) as real
  }

  /** Entry (n, m) of the table P with P(0, 0) = 1, for the colatitude with
      sine `s` and cosine `c`, under the coefficient table `k` (the fill uses
      `K`). Entries above the diagonal (m > n) are never written and stay 0. */
  function P(s: real, c: real, k: (nat, nat) -> real, n: nat, m: nat): real
    decreases n
  {
    if m > n then 0.0
    else if n == 0 then 1.0
    else if m == n then s * P(s, c, k, n - 1, n - 1)
    else if n == 1 then c * P(s, c, k, 0, 0)
    else Recur(c, k(n, m), P(s, c, k, n - 1, m), P(s, c, k, n - 2, m))
  }

  /** Entry (n, m) of the derivative table dP, whose (0, 0) entry is 0. */
  function DP(s: real, c: real, k: (nat, nat) -> real, n: nat, m: nat): real
    decreases n
  {
    if m > n then 0.0
    else if n == 0 then 0.0
    else if m == n then DiagonalDerivative(s, c, P(s, c, k, n - 1, n - 1), DP(s, c, k, n - 1, n - 1))
    else if n == 1 then c * DP(s, c, k, 0, 0) - s * P(s, c, k, 0, 0)
    else RecurDerivative(s, c, k(n, m), P(s, c, k, n - 1, m), DP(s, c, k, n - 1, m), DP(s, c, k, n - 2, m))
  }

  /** The three-term recurrence below the diagonal: from the entries p1 and
      p2 one and two rows up, `c p1 - k p2`. */
  function Recur(c: real, k: real, p1: real, p2: real): real {
    c * p1 - k * p2
  }

  /** Its theta-derivative, from the derivatives d1 and d2 one and two rows
      up: `c d1 - s p1 - k d2`. */
  function RecurDerivative(s: real, c: real, k: real, p1: real, d1: real, d2: real): real {
    c * d1 - s * p1 - k * d2
  }

  /** The derivative along the diagonal, from the diagonal entry p1 and its
      derivative d1 one row up: `s d1 + c p1`. */
  function DiagonalDerivative(s: real, c: real, p1: real, d1: real): real {
    s * d1 + c * p1
  }

  /** `assoc_legendre_poly`: the (nDegree+1)-square tables p and dp with
      p[0, 0] = 1, filled with the coefficients `K`. Rows 0 and 1 are written
      unconditionally, so a degree of at least 1 is required. */
  method AssocLegendrePoly(m: Math, theta: real, nDegree: nat) returns (p: array2<real>, dp: array2<real>)
    requires 1 <= nDegree
    ensures fresh(p) && fresh(dp)
    ensures p.Length0 == nDegree + 1 && p.Length1 == nDegree + 1
    ensures dp.Length0 == nDegree + 1 && dp.Length1 == nDegree + 1
    ensures forall i, j :: 0 <= i <= nDegree && 0 <= j <= nDegree ==>
      p[i, j] == P(m.sin(theta), m.cos(theta), K, i, j) &&
      dp[i, j] == DP(m.sin(theta), m.cos(theta), K, i, j)
  {
    p, dp := FillTables(m.sin(theta), m.cos(theta), K, nDegree);
  }

  /** The body of `assoc_legendre_poly` for a colatitude with sine `s` and
      cosine `c`, with the coefficient k[i, j] taken from `kf`. */
  method FillTables(s: real, c: real, kf: (nat, nat) -> real, nDegree: nat) returns (p: array2<real>, dp: array2<real>)
    requires 1 <= nDegree
    ensures fresh(p) && fresh(dp)
    ensures p.Length0 == nDegree + 1 && p.Length1 == nDegree + 1
    ensures dp.Length0 == nDegree + 1 && dp.Length1 == nDegree + 1
    ensures RowsDone(p, dp, s, c, kf, nDegree + 1)
  {
    var n := nDegree + 1;
    p := new real[n, n]((_, _) => 0.0);
    dp := new real[n, n]((_, _) => 0.0);
    var k := new real[n, n]((_, _) => 0.0);
    FillFirstRows(p, dp, s, c, kf);
    var i := 2;
    while i < n
      invariant 2 <= i <= n
      invariant RowsDone(p, dp, s, c, kf, i) && RowsZero(p, dp, i)
    {
      FillRow(p, dp, k, s, c, kf, i);
      i := i + 1;
    }
  }

  /** Rows 0 and 1 of the fill, which the source writes out explicitly. */
  method FillFirstRows(p: array2<real>, dp: array2<real>, s: real, c: real, kf: (nat, nat) -> real)
    requires p != dp
    requires 2 <= p.Length0 && p.Length0 == p.Length1 == dp.Length0 == dp.Length1
    requires RowsZero(p, dp, 0)
    modifies p, dp
    ensures RowsDone(p, dp, s, c, kf, 2) && RowsZero(p, dp, 2)
  {
    p[0, 0] := 1.0;
    dp[0, 0] := 0.0;
    p[1, 1] := s * p[0, 0];
    p[1, 0] := c * p[0, 0];
    dp[1, 1] := s * dp[0, 0] + c * p[0, 0];
    dp[1, 0] := c * dp[0, 0] - s * p[0, 0];
    FirstRows(s, c, kf);
    forall a, b | 0 <= a < 2 && 0 <= b < p.Length1
      ensures p[a, b] == P(s, c, kf, a, b)
    {
      if a < b {
        AboveDiagonal(s, c, kf, a, b);
      }
    }
    forall a, b | 0 <= a < 2 && 0 <= b < p.Length1
      ensures dp[a, b] == DP(s, c, kf, a, b)
    {
      if a < b {
        AboveDiagonal(s, c, kf, a, b);
      }
    }
  }

  /** One general row i >= 2 of the fill: the entries below the diagonal,
      then the diagonal. */
  method FillRow(p: array2<real>, dp: array2<real>, k: array2<real>, s: real, c: real,
                 kf: (nat, nat) -> real, i: nat)
    requires p != dp && p != k && dp != k
    requires 2 <= i < p.Length0
    requires p.Length0 == p.Length1 == dp.Length0 == dp.Length1 == k.Length0 == k.Length1
    requires RowsDone(p, dp, s, c, kf, i) && RowsZero(p, dp, i)
    modifies p, dp, k
    ensures RowsDone(p, dp, s, c, kf, i + 1) && RowsZero(p, dp, i + 1)
  {
    FillBelowDiagonal(p, dp, k, s, c, kf, i);
    var p1, d1 := p[i - 1, i - 1], dp[i - 1, i - 1];
    DiagonalStep(s, c, kf, i, p1, d1, P(s, c, kf, i, i), DP(s, c, kf, i, i));
    p[i, i] := s * p1;
    dp[i, i] := DiagonalDerivative(s, c, p1, d1);
    forall b | 0 <= b < p.Length1
      ensures p[i, b] == P(s, c, kf, i, b)
    {
      if i < b {
        AboveDiagonal(s, c, kf, i, b);
      }
    }
    forall b | 0 <= b < p.Length1
      ensures dp[i, b] == DP(s, c, kf, i, b)
    {
      if i < b {
        AboveDiagonal(s, c, kf, i, b);
      }
    }
  }

  /** The entries (i, 0) .. (i, i-1) of a general row. */
  method FillBelowDiagonal(p: array2<real>, dp: array2<real>, k: array2<real>, s: real, c: real,
                           kf: (nat, nat) -> real, i: nat)
    requires p != dp && p != k && dp != k
    requires 2 <= i < p.Length0
    requires p.Length0 == p.Length1 == dp.Length0 == dp.Length1 == k.Length0 == k.Length1
    requires RowsDone(p, dp, s, c, kf, i) && RowsZero(p, dp, i)
    modifies p, dp, k
    ensures RowsDone(p, dp, s, c, kf, i) && RowsZero(p, dp, i + 1)
    ensures RowPart(p, dp, s, c, kf, i, i)
  {
    var j := 0;
    while j < i
      invariant 0 <= j <= i
      invariant RowsDone(p, dp, s, c, kf, i) && RowsZero(p, dp, i + 1)
      invariant RowPart(p, dp, s, c, kf, i, j)
    {
      FillEntry(p, dp, k, s, c, kf, i, j);
      j := j + 1;
    }
  }

  /** The entry (i, j) below the diagonal of a general row. */
  method FillEntry(p: array2<real>, dp: array2<real>, k: array2<real>, s: real, c: real,
                   kf: (nat, nat) -> real, i: nat, j: nat)
    requires p != dp && p != k && dp != k
    requires 2 <= i < p.Length0 && j < i
    requires p.Length0 == p.Length1 == dp.Length0 == dp.Length1 == k.Length0 == k.Length1
    requires RowsDone(p, dp, s, c, kf, i) && RowsZero(p, dp, i + 1)
    requires RowPart(p, dp, s, c, kf, i, j)
    modifies p, dp, k
    ensures RowsDone(p, dp, s, c, kf, i) && RowsZero(p, dp, i + 1)
    ensures RowPart(p, dp, s, c, kf, i, j + 1)
  {
    k[i, j] := kf(i, j);
    var p1, p2, d1, d2 := p[i - 1, j], p[i - 2, j], dp[i - 1, j], dp[i - 2, j];
    GeneralStep(s, c, kf, i, j, p1, p2, d1, d2, P(s, c, kf, i, j), DP(s, c, kf, i, j));
    p[i, j] := Recur(c, k[i, j], p1, p2);
    dp[i, j] := RecurDerivative(s, c, k[i, j], p1, d1, d2);
  }

  /** Rows 0..rows-1 of p and dp hold the recurrence. */
  ghost predicate RowsDone(p: array2<real>, dp: array2<real>, s: real, c: real,
                           kf: (nat, nat) -> real, rows: nat)
    reads p, dp
  {
    && rows <= p.Length0 && rows <= dp.Length0
    && (forall a, b {:trigger p[a, b]} :: 0 <= a < rows && 0 <= b < p.Length1 ==> p[a, b] == P(s, c, kf, a, b))
    && (forall a, b {:trigger dp[a, b]} :: 0 <= a < rows && 0 <= b < dp.Length1 ==> dp[a, b] == DP(s, c, kf, a, b))
  }

  /** Rows from `rows` on are still zero. */
  ghost predicate RowsZero(p: array2<real>, dp: array2<real>, rows: nat)
    reads p, dp
  {
    && (forall a, b {:trigger p[a, b]} :: rows <= a < p.Length0 && 0 <= b < p.Length1 ==> p[a, b] == 0.0)
    && (forall a, b {:trigger dp[a, b]} :: rows <= a < dp.Length0 && 0 <= b < dp.Length1 ==> dp[a, b] == 0.0)
  }

  /** Row i holds the recurrence before column j and zeros from j on. */
  ghost predicate RowPart(p: array2<real>, dp: array2<real>, s: real, c: real,
                          kf: (nat, nat) -> real, i: nat, j: nat)
    requires i < p.Length0 && i < dp.Length0
    reads p, dp
  {
    && (forall b {:trigger p[i, b]} :: 0 <= b < j && b < p.Length1 ==> p[i, b] == P(s, c, kf, i, b))
    && (forall b {:trigger dp[i, b]} :: 0 <= b < j && b < dp.Length1 ==> dp[i, b] == DP(s, c, kf, i, b))
    && (forall b {:trigger p[i, b]} :: j <= b < p.Length1 ==> p[i, b] == 0.0)
    && (forall b {:trigger dp[i, b]} :: j <= b < dp.Length1 ==> dp[i, b] == 0.0)
  }

  // ----- single steps of the recurrence -----
  // Each step lemma takes the entries it concludes about as `r` and `rd`,
  // so that the recurrence is unfolded only once.

  /** One step below the diagonal, from the entries of the two rows above. */
  lemma GeneralStep(s: real, c: real, kf: (nat, nat) -> real, i: nat, j: nat,
                    p1: real, p2: real, d1: real, d2: real, r: real, rd: real)
    requires j < i && 2 <= i
    requires p1 == P(s, c, kf, i - 1, j) && p2 == P(s, c, kf, i - 2, j)
    requires d1 == DP(s, c, kf, i - 1, j) && d2 == DP(s, c, kf, i - 2, j)
    requires r == P(s, c, kf, i, j) && rd == DP(s, c, kf, i, j)
    ensures Recur(c, kf(i, j), p1, p2) == r
    ensures RecurDerivative(s, c, kf(i, j), p1, d1, d2) == rd
  {
  }

  /** One step along the diagonal, from the diagonal entry of the row above. */
  lemma DiagonalStep(s: real, c: real, kf: (nat, nat) -> real, i: nat,
                     p1: real, d1: real, r: real, rd: real)
    requires 1 <= i
    requires p1 == P(s, c, kf, i - 1, i - 1) && d1 == DP(s, c, kf, i - 1, i - 1)
    requires r == P(s, c, kf, i, i) && rd == DP(s, c, kf, i, i)
    ensures s * p1 == r && DiagonalDerivative(s, c, p1, d1) == rd
  {
  }

  /** Rows 0 and 1 of the tables. */
  lemma FirstRows(s: real, c: real, kf: (nat, nat) -> real)
    ensures P(s, c, kf, 0, 0) == 1.0 && DP(s, c, kf, 0, 0) == 0.0
    ensures P(s, c, kf, 1, 0) == c && P(s, c, kf, 1, 1) == s
    ensures DP(s, c, kf, 1, 0) == -s && DP(s, c, kf, 1, 1) == c
  {
  }

  /** Entries above the diagonal are zero. */
  lemma AboveDiagonal(s: real, c: real, kf: (nat, nat) -> real, n: nat, m: nat)
    requires n < m
    ensures P(s, c, kf, n, m) == 0.0 && DP(s, c, kf, n, m) == 0.0
  {
  }

  // ----- properties of the recurrence -----

  /** For j < i the unsigned numerator never underflows. */
  lemma KNumeratorNonNegative(n: nat, m: nat)
    requires m < n
    ensures 0 <= KNumerator(n, m)
  {
    assert m <= n - 1;
    assert m * m <= (n - 1) * m <= (n - 1) * (n - 1);
  }

  /** The denominator is at least 3, so the division is defined. */
  lemma KDenominatorAtLeastThree(n: nat)
    requires 2 <= n
    ensures 3 <= KDenominator(n)
  {
    assert 2 * n - 1 >= 3 && 2 * n - 3 >= 1;
    assert (2 * n - 1) * (2 * n - 3) >= 3 * (2 * n - 3) >= 3;
  }

  /** The diagonal is sin(theta)^n, whatever the coefficients. */
  lemma {:induction false} PDiagonal(s: real, c: real, k: (nat, nat) -> real, n: nat)
    ensures P(s, c, k, n, n) == Pow(s, n)
  {
    if n > 0 {
      PDiagonal(s, c, k, n - 1);
      DiagonalPowStep(s, n, P(s, c, k, n - 1, n - 1), P(s, c, k, n, n));
    }
  }

  lemma DiagonalPowStep(s: real, n: nat, p1: real, r: real)
    requires 1 <= n && p1 == Pow(s, n - 1) && r == s * p1
    ensures r == Pow(s, n)
  {
  }

  /** The derivative diagonal is n sin(theta)^(n-1) cos(theta). */
  lemma {:induction false} DPDiagonal(s: real, c: real, k: (nat, nat) -> real, n: nat)
    requires 1 <= n
    ensures DP(s, c, k, n, n) == (n as real) * Pow(s, n - 1) * c
  {
    PDiagonal(s, c, k, n - 1);
    if n == 1 {
      FirstRows(s, c, k);
    } else {
      DPDiagonal(s, c, k, n - 1);
      DerivativeDiagonalStep(s, c, n, Pow(s, n - 2), P(s, c, k, n - 1, n - 1), DP(s, c, k, n - 1, n - 1),
                             DP(s, c, k, n, n));
    }
  }

  lemma DerivativeDiagonalStep(s: real, c: real, n: nat, q: real, p1: real, d1: real, r: real)
    requires 2 <= n && q == Pow(s, n - 2)
    requires p1 == Pow(s, n - 1) && d1 == ((n - 1) as real) * q * c
    requires r == DiagonalDerivative(s, c, p1, d1)
    ensures r == (n as real) * Pow(s, n - 1) * c
  {
    assert p1 == s * q;
    assert s * d1 + c * p1 == ((n - 1) as real) * (s * q) * c + (s * q) * c;
  }

  /** Just below the diagonal the coefficient K vanishes, so
      P(n, n-1) = cos(theta) P(n-1, n-1). */
  lemma SubDiagonal(s: real, c: real, n: nat)
    requires 1 <= n
    ensures K(n, n - 1) == 0.0
    ensures P(s, c, K, n, n - 1) == c * P(s, c, K, n - 1, n - 1)
  {
    if 2 <= n {
      assert KNumerator(n, n - 1) == 0;
      AboveDiagonal(s, c, K, n - 2, n - 1);
    }
  }

  /** At a pole (sin(theta) = 0) every diagonal entry past (0, 0) is 0. */
  lemma PoleDiagonal(c: real, k: (nat, nat) -> real, n: nat)
    requires 1 <= n
    ensures P(0.0, c, k, n, n) == 0.0
  {
  }
}
