/** Real-valued stand-ins for the f64 numerics shared by every component:
    three-component vectors, 3x3 matrices, integer powers, and the
    transcendental functions, which are kept uninterpreted. */
module Numerics {

  /** The transcendental functions the program calls, as values. Nothing is
      assumed about them except what `Lawful` states and what a lemma
      takes as its own premise. */
  datatype Math = Math(
    sin: real -> real,
    cos: real -> real,
    sqrt: real -> real,
    acos: real -> real,
    atan2: (real, real) -> real,
    pi: real)

  /** The facts about the transcendental functions that the proofs use (two
      lemmas about repeated angles take the addition laws as premises),
      gathered per argument so that a proof names the arguments it needs. */
  ghost predicate Lawful(m: Math) {
    && (forall t :: AngleLaws(m, t))
    && (forall x :: SqrtLaws(m, x))
    && (forall u :: AcosLaws(m, u))
    && (forall y, x :: Atan2Laws(m, y, x))
  }

  /** The Pythagorean identity; cos is even and sin is odd. */
  ghost predicate AngleLaws(m: Math, t: real) {
    && OnCircle(m.sin(t), m.cos(t))
    && m.cos(-t) == m.cos(t)
    && m.sin(-t) == -m.sin(t)
  }

  /** sqrt is the non-negative square root. */
  ghost predicate SqrtLaws(m: Math, x: real) {
    0.0 <= x ==> 0.0 <= m.sqrt(x) && m.sqrt(x) * m.sqrt(x) == x
  }

  /** acos is a right inverse of cos on [-1, 1], with a non-negative sine. */
  ghost predicate AcosLaws(m: Math, u: real) {
    -1.0 <= u <= 1.0 ==> m.cos(m.acos(u)) == u && 0.0 <= m.sin(m.acos(u))
  }

  /** atan2(y, x) is the azimuth of (x, y): scaled by the planar radius its
      cosine and sine give back x and y (at the origin both sides are 0
      whatever atan2 returns there). */
  ghost predicate Atan2Laws(m: Math, y: real, x: real) {
    && m.sqrt(PlanarSqNorm(x, y)) * m.cos(m.atan2(y, x)) == x
    && m.sqrt(PlanarSqNorm(x, y)) * m.sin(m.atan2(y, x)) == y
  }

  /** `x^2 + y^2`, the squared distance of (x, y) from the origin. */
  function PlanarSqNorm(x: real, y: real): real {
    x * x + y * y
  }

  /** The sine and cosine of one angle lie on the unit circle. */
  ghost predicate OnCircle(s: real, c: real) {
    s * s + c * c == 1.0
  }

  /** An optional value: a missing key, degree, line or field. */
  datatype Option<T> = None | Some(value: T)

  datatype Vec3 = Vec3(c0: real, c1: real, c2: real)

  const Zero: Vec3 := Vec3(0.0, 0.0, 0.0)

  function Add(a: Vec3, b: Vec3): Vec3 {
    Vec3(a.c0 + b.c0, a.c1 + b.c1, a.c2 + b.c2)
  }

  function Scale(k: real, a: Vec3): Vec3 {
    Vec3(k * a.c0, k * a.c1, k * a.c2)
  }

  function Dot(a: Vec3, b: Vec3): real {
    a.c0 * b.c0 + a.c1 * b.c1 + a.c2 * b.c2
  }

  /** Squared Euclidean norm. */
  function SqNorm(a: Vec3): real {
    Dot(a, a)
  }

  /** Component `j` of a vector, for code that indexes the columns of a row. */
  function Component(a: Vec3, j: nat): real
    requires j < 3
  {
    if j == 0 then a.c0 else if j == 1 then a.c1 else a.c2
  }

  /** A 3x3 matrix by rows. */
  datatype Mat3 = Mat3(r0: Vec3, r1: Vec3, r2: Vec3)

  function Col0(a: Mat3): Vec3 { Vec3(a.r0.c0, a.r1.c0, a.r2.c0) }
  function Col1(a: Mat3): Vec3 { Vec3(a.r0.c1, a.r1.c1, a.r2.c1) }
  function Col2(a: Mat3): Vec3 { Vec3(a.r0.c2, a.r1.c2, a.r2.c2) }

  /** Matrix times vector (`dot` of a 2-D and a 1-D array). */
  function MatVec(a: Mat3, v: Vec3): Vec3 {
    Vec3(Dot(a.r0, v), Dot(a.r1, v), Dot(a.r2, v))
  }

  /** Matrix product (`dot` of two 2-D arrays). */
  function MatMul(a: Mat3, b: Mat3): Mat3 {
    Mat3(
      Vec3(Dot(a.r0, Col0(b)), Dot(a.r0, Col1(b)), Dot(a.r0, Col2(b))),
      Vec3(Dot(a.r1, Col0(b)), Dot(a.r1, Col1(b)), Dot(a.r1, Col2(b))),
      Vec3(Dot(a.r2, Col0(b)), Dot(a.r2, Col1(b)), Dot(a.r2, Col2(b))))
  }

  const Identity: Mat3 := Mat3(Vec3(1.0, 0.0, 0.0), Vec3(0.0, 1.0, 0.0), Vec3(0.0, 0.0, 1.0))

  lemma MatMulAssociatesOnVectors(a: Mat3, b: Mat3, v: Vec3)
    ensures MatVec(MatMul(a, b), v) == MatVec(a, MatVec(b, v))
  {
  }

  function Abs(x: real): real {
    if x < 0.0 then -x else x
  }

  /** `x.powi(n)` and `x ** n` for a natural exponent. */
  function Pow(x: real, n: nat): real {
    if n == 0 then 1.0 else x * Pow(x, n - 1)
  }

  lemma MulPositive(x: real, y: real)
    requires 0.0 < x && 0.0 < y
    ensures 0.0 < x * y
  {
  }

  lemma MulNonZero(x: real, y: real)
    requires x != 0.0 && y != 0.0
    ensures x * y != 0.0
  {
    assert (x * y) / y == x;
  }

  /** A non-zero factor cancels. */
  lemma Cancel(a: real, b: real, k: real)
    requires k != 0.0 && a * k == b * k
    ensures a == b
  {
    assert a == (a * k) / k;
    assert b == (b * k) / k;
  }

  lemma SquaresNonNegative(x: real, y: real, z: real)
    ensures 0.0 <= PlanarSqNorm(x, y)
    ensures 0.0 <= SqNorm(Vec3(x, y, z))
  {
    SquareNonNegative(x);
    SquareNonNegative(y);
    SquareNonNegative(z);
  }

  lemma SquareNonNegative(x: real)
    ensures 0.0 <= x * x
  {
    if x < 0.0 {
      MulPositive(-x, -x);
    }
  }

  /** Squaring is strictly increasing on the non-negative reals. */
  lemma SquareStrictlyIncreasing(a: real, b: real)
    requires 0.0 <= a < b
    ensures a * a < b * b
  {
    assert b * b - a * a == (b - a) * (b + a);
    MulPositive(b - a, b + a);
  }

  /** Two non-negative numbers with the same square are equal: the uniqueness
      that pins `sqrt` down. */
  lemma NonNegativeSquareRootUnique(a: real, b: real)
    requires 0.0 <= a && 0.0 <= b && a * a == b * b
    ensures a == b
  {
    if a < b {
      SquareStrictlyIncreasing(a, b);
    } else if b < a {
      SquareStrictlyIncreasing(b, a);
    }
  }

  /** A planar rotation by an angle whose sine and cosine are `s` and `c`
      keeps the squared length of `(x, y)`. */
  lemma RotationKeepsSquaredLength(x: real, y: real, s: real, c: real)
    requires OnCircle(s, c)
    ensures (x * c + y * s) * (x * c + y * s) + (y * c - x * s) * (y * c - x * s) == x * x + y * y
  {
    assert (x * c + y * s) * (x * c + y * s) == x * x * (c * c) + 2.0 * x * y * (c * s) + y * y * (s * s);
    assert (y * c - x * s) * (y * c - x * s) == y * y * (c * c) - 2.0 * x * y * (c * s) + x * x * (s * s);
    assert x * x * (c * c) + x * x * (s * s) == x * x * (s * s + c * c);
    assert y * y * (c * c) + y * y * (s * s) == y * y * (s * s + c * c);
  }

  /** The planar rotation of `RotationKeepsSquaredLength` followed by the
      opposite rotation. */
  lemma RotationUndone(x: real, y: real, s: real, c: real)
    requires OnCircle(s, c)
    ensures (x * c + y * s) * c - (y * c - x * s) * s == x
    ensures (x * c + y * s) * s + (y * c - x * s) * c == y
  {
    assert (x * c + y * s) * c - (y * c - x * s) * s == x * (s * s + c * c);
    assert (x * c + y * s) * s + (y * c - x * s) * c == y * (s * s + c * c);
  }

  /** `sqrt` of a square is the absolute value. */
  lemma SqrtOfSquare(m: Math, x: real)
    requires Lawful(m)
    ensures m.sqrt(x * x) == Abs(x)
  {
    assert SqrtLaws(m, x * x);
    NonNegativeSquareRootUnique(m.sqrt(x * x), Abs(x));
  }
}
