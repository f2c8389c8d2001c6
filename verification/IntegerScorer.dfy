/**
  The canonical integer cosine scorer: quantization of a real vector to a symmetric integer
  range, and the rounded integer cosine in units of one billionth.  Floats are reals.
*/
module IntegerScorer {
  import opened Sorting

  const SCORE_SCALE := 1_000_000_000

  datatype Outcome = Score(value: int) | LengthMismatch | ZeroMagnitude

  datatype Encoding = Encoded(values: seq<int>) | CannotQuantize

  function Abs(x: int): int { if x < 0 then -x else x }

  function Dot(a: seq<int>, b: seq<int>): int
    requires |a| == |b|
  {
    if a == [] then 0 else a[0] * b[0] + Dot(a[1..], b[1..])
  }

  // math.isqrt
  function Isqrt(n: nat): (r: nat)
    ensures r * r <= n < (r + 1) * (r + 1)
  {
    if n == 0 then 0
    else
      var r := Isqrt(n - 1);
      if (r + 1) * (r + 1) <= n then r + 1 else r
  }

  // Half the denominator is added before the floor division: round to nearest.
  function Magnitude(dot: int, denominator: int): int
    requires denominator > 0
  {
    (Abs(dot) * SCORE_SCALE + denominator / 2) / denominator
  }

  function Signed(dot: int, magnitude: int): int { if dot < 0 then -magnitude else magnitude }

  function IntegerScore(left: seq<int>, right: seq<int>): Outcome {
    if |left| != |right| then LengthMismatch
    else
      var dot := Dot(left, right);
      SquaresNonnegative(left);
      SquaresNonnegative(right);
      var denominator := Isqrt(Product(Dot(left, left), Dot(right, right)));
      if denominator == 0 then ZeroMagnitude
      else
        var magnitude := Magnitude(dot, denominator);
        Score(Signed(dot, if SCORE_SCALE < magnitude then SCORE_SCALE else magnitude))
  }

  function Product(x: nat, y: nat): (p: nat) { x * y }

  lemma {:induction false} SquaresNonnegative(a: seq<int>)
    ensures Dot(a, a) >= 0
    ensures Dot(a, a) == 0 <==> forall i :: 0 <= i < |a| ==> a[i] == 0
  {
    if a != [] {
      SquaresNonnegative(a[1..]);
      assert a[0] * a[0] >= 0;
      assert a[0] != 0 ==> a[0] * a[0] > 0;
      assert (forall i :: 0 <= i < |a| ==> a[i] == 0) <==> a[0] == 0 && forall i :: 0 <= i < |a[1..]| ==> a[1..][i] == 0 by {
        if a[0] == 0 && forall i :: 0 <= i < |a[1..]| ==> a[1..][i] == 0 {
          forall i | 0 <= i < |a| ensures a[i] == 0 { if i > 0 { assert a[1..][i - 1] == 0; } }
        }
      }
    }
  }

  // ---- the Cauchy-Schwarz inequality ----

  lemma RootOrder(x: int, y: int)
    requires x * x <= y * y && y >= 0
    ensures x <= y
  {
    if x > y { MulMonotone(y, x, x); MulMonotone(y + 1, x, y); }
  }

  lemma TwiceProduct(u: int, v: int, w: int)
    requires u >= 0 && v >= 0 && w * w <= u * v
    ensures 2 * w <= u + v
  {
    assert (u - v) * (u - v) >= 0;
    assert (u + v) * (u + v) == (u - v) * (u - v) + 4 * (u * v);
    assert (2 * w) * (2 * w) == 4 * (w * w);
    RootOrder(2 * w, u + v);
  }

  lemma MulMonotone(x: int, y: int, z: int)
    requires x <= y && z >= 0
    ensures x * z <= y * z
  {
  }

  lemma CrossTerm(x: int, y: int, d: int, p: int, q: int)
    requires p >= 0 && q >= 0 && d * d <= p * q
    ensures 2 * (x * y * d) <= x * x * q + y * y * p
  {
    var u, v, w := x * x * q, y * y * p, x * y * d;
    assert x * x >= 0 && y * y >= 0;
    assert u >= 0 && v >= 0;
    var z := (x * x) * (y * y);
    assert z >= 0;
    MulMonotone(d * d, p * q, z);
    assert w * w == (d * d) * z;
    assert u * v == (p * q) * z;
    TwiceProduct(u, v, w);
  }

  lemma SquareStep(x: int, y: int, d: int, p: int, q: int)
    requires p >= 0 && q >= 0 && d * d <= p * q
    ensures (x * y + d) * (x * y + d) <= (x * x + p) * (y * y + q)
  {
    CrossTerm(x, y, d, p, q);
    assert (x * y + d) * (x * y + d) == x * y * (x * y) + 2 * (x * y * d) + d * d;
    assert (x * x + p) * (y * y + q) == x * y * (x * y) + x * x * q + y * y * p + p * q;
  }

  lemma {:induction false} CauchySchwarz(a: seq<int>, b: seq<int>)
    requires |a| == |b|
    ensures Dot(a, b) * Dot(a, b) <= Dot(a, a) * Dot(b, b)
  {
    if a != [] {
      CauchySchwarz(a[1..], b[1..]);
      SquaresNonnegative(a[1..]);
      SquaresNonnegative(b[1..]);
      SquareStep(a[0], b[0], Dot(a[1..], b[1..]), Dot(a[1..], a[1..]), Dot(b[1..], b[1..]));
    }
  }

  lemma SquareOrder(x: nat, y: nat)
    requires x * x < (y + 1) * (y + 1)
    ensures x <= y
  {
    if x > y { MulMonotone(y + 1, x, y + 1); MulMonotone(y + 1, x, x); }
  }

  lemma DotBelowRoot(a: seq<int>, b: seq<int>)
    requires |a| == |b|
    ensures Dot(a, a) >= 0 && Dot(b, b) >= 0
    ensures Abs(Dot(a, b)) <= Isqrt(Product(Dot(a, a), Dot(b, b)))
  {
    CauchySchwarz(a, b);
    SquaresNonnegative(a);
    SquaresNonnegative(b);
    var x := Abs(Dot(a, b));
    assert x * x == Dot(a, b) * Dot(a, b);
    SquareOrder(x, Isqrt(Product(Dot(a, a), Dot(b, b))));
  }

  // ---- range and accuracy of the score ----

  lemma DivisionBounds(n: int, d: int)
    requires d > 0
    ensures n / d * d <= n < n / d * d + d
  {
  }

  lemma MagnitudeBounds(dot: int, d: int)
    requires d > 0 && Abs(dot) <= d
    ensures 0 <= Magnitude(dot, d) <= SCORE_SCALE
    ensures -d < 2 * (Magnitude(dot, d) * d - Abs(dot) * SCORE_SCALE) <= d
    ensures Abs(dot) == d ==> Magnitude(dot, d) == SCORE_SCALE
  {
    var m, n := Magnitude(dot, d), Abs(dot) * SCORE_SCALE;
    DivisionBounds(n + d / 2, d);
    MulMonotone(Abs(dot), d, SCORE_SCALE);
    if m > SCORE_SCALE { MulMonotone(SCORE_SCALE + 1, m, d); assert false; }
    if m < 0 { MulMonotone(m, -1, d); assert false; }
    if Abs(dot) == d && m < SCORE_SCALE { MulMonotone(m, SCORE_SCALE - 1, d); assert false; }
  }

  ghost predicate Nonzero(a: seq<int>) { exists i :: 0 <= i < |a| && a[i] != 0 }

  /** Scoring fails exactly on unequal lengths and zero vectors. */
  lemma ScoreDefined(a: seq<int>, b: seq<int>)
    ensures IntegerScore(a, b).LengthMismatch? <==> |a| != |b|
    ensures IntegerScore(a, b).Score? <==> |a| == |b| && Nonzero(a) && Nonzero(b)
  {
    SquaresNonnegative(a);
    SquaresNonnegative(b);
    if |a| == |b| {
      var p, q := Dot(a, a), Dot(b, b);
      var r := Isqrt(Product(p, q));
      assert Nonzero(a) <==> p > 0;
      assert Nonzero(b) <==> q > 0;
      PositiveProduct(p, q);
      assert r == 0 <==> p * q == 0;
    }
  }

  lemma PositiveProduct(p: nat, q: nat)
    ensures p > 0 && q > 0 <==> p * q > 0
  {
  }

  /** The clamp never acts, the score lies within one billion, and its magnitude is the integer
      nearest to the quotient by the integer root, halves going away from zero. */
  lemma ScoreRoundsQuotient(a: seq<int>, b: seq<int>)
    requires |a| == |b| && Nonzero(a) && Nonzero(b)
    ensures Dot(a, a) >= 0 && Dot(b, b) >= 0
    ensures var d: int, dot := Isqrt(Product(Dot(a, a), Dot(b, b))), Dot(a, b);
      && d > 0 && Magnitude(dot, d) <= SCORE_SCALE
      && IntegerScore(a, b) == Score(Signed(dot, Magnitude(dot, d)))
      && -SCORE_SCALE <= IntegerScore(a, b).value <= SCORE_SCALE
      && Abs(IntegerScore(a, b).value) == Magnitude(dot, d)
      && -d < 2 * (Abs(IntegerScore(a, b).value) * d - Abs(dot) * SCORE_SCALE) <= d
  {
    ScoreDefined(a, b);
    DotBelowRoot(a, b);
    var d, dot := Isqrt(Product(Dot(a, a), Dot(b, b))), Dot(a, b);
    MagnitudeBounds(dot, d);
  }

  // ---- the score and the cosine ----

  lemma DotTwo(a: seq<int>, b: seq<int>)
    requires |a| == |b| == 2
    ensures Dot(a, b) == a[0] * b[0] + a[1] * b[1]
  {
    assert a[1..] == [a[1]] && b[1..] == [b[1]] && a[1..][1..] == [] && b[1..][1..] == [];
    assert Dot(a[1..], b[1..]) == a[1] * b[1] + Dot([], []);
  }

  lemma RootOfTwo()
    ensures Isqrt(2) == 1
  {
    SquareOrder(Isqrt(2), 1);
    SquareOrder(1, Isqrt(2));
  }

  /** The score is not the rounded cosine: the root of the product of the squared norms is cut to an
      integer first.  These vectors are at 45 degrees and score as if they were parallel. */
  lemma ScoreIsNotRoundedCosine(a: seq<int>, b: seq<int>)
    requires a == [1, 1] && b == [1, 0]
    ensures Dot(a, b) == 1 && Dot(a, a) == 2 && Dot(b, b) == 1 && IntegerScore(a, b) == Score(SCORE_SCALE)
  {
    DotTwo(a, b);
    DotTwo(a, a);
    DotTwo(b, b);
    RootOfTwo();
    assert Product(2, 1) == 2 && Magnitude(1, 1) == SCORE_SCALE;
  }

  function Squared(x: real): real { x * x }

  // The magnitude of the true cosine in units of the score: no root is needed to name it.
  ghost predicate IsCosine(c: real, dot: int, n: int) {
    c >= 0.0 && Squared(c) * n as real == Squared((dot * SCORE_SCALE) as real)
  }

  lemma RealRootOrder(u: real, v: real)
    requires u >= 0.0 && v >= 0.0
    ensures Squared(u) <= Squared(v) <==> u <= v
  {
    assert Squared(v) - Squared(u) == (v - u) * (v + u);
    if u < v { PositiveTimes(v - u, v + u); }
    if u > v { PositiveTimes(u - v, u + v); assert (v - u) * (v + u) == -((u - v) * (u + v)); }
  }

  lemma CancelRight(u: real, v: real, n: real)
    requires n > 0.0
    ensures u * n <= v * n <==> u <= v
  {
    if u <= v { assert (v - u) * n >= 0.0; } else { assert (u - v) * n > 0.0; }
  }

  // A bound on the product against the root is a bound on the cosine.
  lemma CosineOrder(c: real, dot: int, n: int, h: real)
    requires n > 0 && IsCosine(c, dot, n) && h >= 0.0
    ensures Squared((dot * SCORE_SCALE) as real) <= Squared(h) * n as real <==> c <= h
    ensures Squared(h) * n as real <= Squared((dot * SCORE_SCALE) as real) <==> h <= c
  {
    CancelRight(Squared(c), Squared(h), n as real);
    CancelRight(Squared(h), Squared(c), n as real);
    RealRootOrder(c, h);
    RealRootOrder(h, c);
  }

  lemma RealProduct(x: int, y: int)
    ensures (x * y) as real == x as real * y as real
  {
  }

  // Half of an integer against the root, without fractions.
  lemma HalfOrder(k: int, t: int, n: int)
    ensures Squared(t as real) <= Squared(k as real / 2.0) * n as real <==> 4 * (t * t) <= k * k * n
    ensures Squared(k as real / 2.0) * n as real <= Squared(t as real) <==> k * k * n <= 4 * (t * t)
  {
    var half, whole := Squared(k as real / 2.0) * n as real, k * k * n;
    RealProduct(k, k);
    RealProduct(k * k, n);
    RealProduct(t, t);
    assert 4.0 * Squared(k as real / 2.0) == Squared(k as real);
    QuarterTimes(Squared(k as real / 2.0), Squared(k as real), n as real);
    assert 4.0 * half == whole as real;
    assert (4 * (t * t)) as real == 4.0 * Squared(t as real);
  }

  lemma QuarterTimes(u: real, v: real, n: real)
    requires 4.0 * u == v
    ensures 4.0 * (u * n) == v * n
  {
  }

  lemma ProductOrder(x: int, y: int, u: int, v: int)
    requires 0 <= x <= y && 0 <= u <= v
    ensures x * u <= y * v
  {
    MulMonotone(x, y, u);
    MulMonotone(u, v, y);
  }

  lemma SquaresOrdered(t: int, k: int, d: int, n: int)
    requires 0 <= 2 * t <= k * d && 0 <= d && d * d <= n && k >= 0
    ensures 4 * (t * t) <= k * k * n
  {
    ProductOrder(2 * t, k * d, 2 * t, k * d);
    assert (2 * t) * (2 * t) == 4 * (t * t) && (k * d) * (k * d) == (k * k) * (d * d);
    ProductOrder(k * k, k * k, d * d, n);
  }

  ghost predicate HaveCosine(a: seq<int>, b: seq<int>) { |a| == |b| && Nonzero(a) && Nonzero(b) }

  ghost function Norms(a: seq<int>, b: seq<int>): int { Dot(a, a) * Dot(b, b) }

  lemma NormsPositive(a: seq<int>, b: seq<int>)
    requires HaveCosine(a, b)
    ensures Dot(a, a) > 0 && Dot(b, b) > 0 && Norms(a, b) > 0
  {
    SquaresNonnegative(a);
    SquaresNonnegative(b);
    PositiveProduct(Dot(a, a), Dot(b, b));
  }

  // With t over the root of n the scaled cosine: m is at most half a unit below it, or above it.
  predicate HalfBelow(m: int, t: int, n: int) { 4 * (t * t) <= (2 * m + 1) * (2 * m + 1) * n }

  predicate HalfAbove(m: int, t: int, n: int) { (2 * m - 1) * (2 * m - 1) * n <= 4 * (t * t) }

  function Scaled(dot: int): int { dot * SCORE_SCALE }

  lemma RoundedHalfBelow(m: int, d: int, dot: int, n: int)
    requires m >= 0 && d > 0 && d * d <= n && -d < 2 * (m * d - Abs(dot) * SCORE_SCALE)
    ensures HalfBelow(m, Scaled(dot), n)
  {
    var t := Abs(dot) * SCORE_SCALE;
    assert (2 * m + 1) * d == 2 * (m * d) + d;
    SquaresOrdered(t, 2 * m + 1, d, n);
    assert t * t == Scaled(dot) * Scaled(dot);
  }

  /** The magnitude of the cosine is never understated by more than half a unit. */
  lemma NeverUnderstated(a: seq<int>, b: seq<int>)
    requires HaveCosine(a, b)
    ensures IntegerScore(a, b).Score? && HalfBelow(Abs(IntegerScore(a, b).value), Scaled(Dot(a, b)), Norms(a, b))
  {
    ScoreRoundsQuotient(a, b);
    RoundedHalfBelow(Abs(IntegerScore(a, b).value), Isqrt(Product(Dot(a, a), Dot(b, b))), Dot(a, b), Norms(a, b));
  }

  lemma NearestScalar(m: int, dot: int, n: int, c: real)
    requires m >= 0 && n > 0 && IsCosine(c, dot, n) && HalfBelow(m, Scaled(dot), n)
    ensures -0.5 <= m as real - c
    ensures m as real - c <= 0.5 <==> m == 0 || HalfAbove(m, Scaled(dot), n)
  {
    HalfOrder(2 * m + 1, Scaled(dot), n);
    CosineOrder(c, dot, n, (2 * m + 1) as real / 2.0);
    if m > 0 {
      HalfOrder(2 * m - 1, Scaled(dot), n);
      CosineOrder(c, dot, n, (2 * m - 1) as real / 2.0);
    }
  }

  /** Against the true cosine c the score is nearest, to half a unit, exactly when it does not
      overstate it by more than that, which the caller can decide on integers. */
  lemma NearestIff(a: seq<int>, b: seq<int>, c: real)
    requires HaveCosine(a, b) && IsCosine(c, Dot(a, b), Norms(a, b))
    ensures IntegerScore(a, b).Score?
    ensures var m := Abs(IntegerScore(a, b).value);
      -0.5 <= m as real - c && (m as real - c <= 0.5 <==> m == 0 || HalfAbove(m, Scaled(Dot(a, b)), Norms(a, b)))
  {
    NeverUnderstated(a, b);
    NormsPositive(a, b);
    NearestScalar(Abs(IntegerScore(a, b).value), Dot(a, b), Norms(a, b), c);
  }

  lemma {:induction false} CosineBelowScale(a: seq<int>, b: seq<int>, c: real)
    requires HaveCosine(a, b) && IsCosine(c, Dot(a, b), Norms(a, b))
    ensures c <= SCORE_SCALE as real
  {
    CauchySchwarz(a, b);
    NormsPositive(a, b);
    var x, n, s := Dot(a, b), Norms(a, b), SCORE_SCALE;
    MulMonotone(x * x, n, s * s);
    assert (x * s) * (x * s) == (x * x) * (s * s);
    RealProduct(x * s, x * s);
    RealProduct(n, s * s);
    RealProduct(s, s);
    assert Squared((x * s) as real) <= Squared(s as real) * n as real;
    CosineOrder(c, x, n, s as real);
  }

  lemma RootAbove(c: real, t: int, n: int, d: int)
    requires c >= 0.0 && t >= 0 && d >= 0 && n <= (d + 1) * (d + 1) && Squared(c) * n as real == Squared(t as real)
    ensures t as real <= c * (d + 1) as real
  {
    var r := (d + 1) as real;
    RealProduct(d + 1, d + 1);
    assert Squared(c) >= 0.0;
    assert Squared(c) * n as real <= Squared(c) * Squared(r) by { assert Squared(c) * (Squared(r) - n as real) >= 0.0; }
    assert Squared(c * r) == Squared(c) * Squared(r);
    assert c * r >= 0.0;
    RealRootOrder(t as real, c * r);
  }

  // Above c by at most half a unit and the share of c that one unit of the root makes up.
  ghost predicate Overstated(m: int, c: real, d: int) { (m as real - c - 0.5) * d as real <= c }

  lemma OverstatedScalar(m: int, d: int, dot: int, n: int, c: real)
    requires d > 0 && n <= (d + 1) * (d + 1) && 2 * (m * d - Abs(dot) * SCORE_SCALE) <= d && IsCosine(c, dot, n)
    ensures Overstated(m, c, d)
  {
    var t := Abs(dot) * SCORE_SCALE;
    assert t == dot * SCORE_SCALE || t == -(dot * SCORE_SCALE);
    RootAbove(c, t, n, d);
    RealProduct(m, d);
    OverstatedReal(m as real, t as real, c, d as real);
  }

  lemma OverstatedReal(m: real, t: real, c: real, d: real)
    requires t <= c * (d + 1.0) && m * d <= t + 0.5 * d
    ensures (m - c - 0.5) * d <= c
  {
    assert (m - c - 0.5) * d == m * d - c * d - 0.5 * d && c * (d + 1.0) == c * d + c;
  }

  /** Overstatement is bounded by the cosine over the integer root, and half a unit. */
  lemma OverstatedBy(a: seq<int>, b: seq<int>, c: real)
    requires HaveCosine(a, b) && IsCosine(c, Dot(a, b), Norms(a, b))
    ensures IntegerScore(a, b).Score? && Dot(a, a) >= 0 && Dot(b, b) >= 0
    ensures Overstated(Abs(IntegerScore(a, b).value), c, Isqrt(Product(Dot(a, a), Dot(b, b))))
  {
    ScoreRoundsQuotient(a, b);
    OverstatedScalar(Abs(IntegerScore(a, b).value), Isqrt(Product(Dot(a, a), Dot(b, b))), Dot(a, b), Norms(a, b), c);
  }

  // ---- symmetry ----

  lemma NegatedProduct(x: int, y: int)
    ensures (-x) * y == -(x * y)
  {
  }

  function Negated(a: seq<int>): (n: seq<int>)
    ensures |n| == |a| && forall i :: 0 <= i < |a| ==> n[i] == -a[i]
  {
    seq(|a|, i requires 0 <= i < |a| => -a[i])
  }

  lemma {:induction false} DotSymmetric(a: seq<int>, b: seq<int>)
    requires |a| == |b|
    ensures Dot(a, b) == Dot(b, a)
  {
    if a != [] { DotSymmetric(a[1..], b[1..]); }
  }

  lemma {:induction false} DotNegated(a: seq<int>, b: seq<int>)
    requires |a| == |b|
    ensures Dot(Negated(a), b) == -Dot(a, b)
  {
    if a != [] {
      assert Negated(a)[1..] == Negated(a[1..]);
      NegatedProduct(a[0], b[0]);
      DotNegated(a[1..], b[1..]);
    }
  }

  lemma ScoreSymmetric(a: seq<int>, b: seq<int>)
    ensures IntegerScore(a, b) == IntegerScore(b, a)
  {
    if |a| == |b| {
      DotSymmetric(a, b);
      SquaresNonnegative(a);
      SquaresNonnegative(b);
      assert Product(Dot(a, a), Dot(b, b)) == Product(Dot(b, b), Dot(a, a));
    }
  }

  function NegatedOutcome(outcome: Outcome): Outcome {
    if outcome.Score? then Score(-outcome.value) else outcome
  }

  /** Negating either argument negates the score. */
  lemma ScoreOdd(a: seq<int>, b: seq<int>)
    ensures IntegerScore(Negated(a), b) == NegatedOutcome(IntegerScore(a, b))
    ensures IntegerScore(a, Negated(b)) == NegatedOutcome(IntegerScore(a, b))
  {
    LeftOdd(a, b);
    LeftOdd(b, a);
    ScoreSymmetric(a, b);
    ScoreSymmetric(a, Negated(b));
  }

  lemma LeftOdd(a: seq<int>, b: seq<int>)
    ensures IntegerScore(Negated(a), b) == NegatedOutcome(IntegerScore(a, b))
  {
    if |a| == |b| {
      DotNegated(a, b);
      DotNegated(a, a);
      DotNegated(a, Negated(a));
      DotSymmetric(a, Negated(a));
      SquaresNonnegative(a);
      SquaresNonnegative(b);
      var dot := Dot(a, b);
      if dot == 0 { ZeroDot(Isqrt(Product(Dot(a, a), Dot(b, b)))); }
    }
  }

  lemma ZeroDot(d: nat)
    ensures d > 0 ==> Magnitude(0, d) == 0
  {
    if d > 0 { MagnitudeBounds(0, d); DivisionBounds(d / 2, d); }
  }

  // ---- proportional vectors ----

  lemma RootOfSquare(n: nat)
    ensures Isqrt(n * n) == n
  {
    var r := Isqrt(n * n);
    SquareOrder(n, r);
    SquareOrder(r, n);
  }

  /** A nonzero vector scores the full scale against itself, and its negation the negative. */
  lemma ScoreSelf(a: seq<int>)
    requires Nonzero(a)
    ensures IntegerScore(a, a) == Score(SCORE_SCALE)
    ensures IntegerScore(a, Negated(a)) == Score(-SCORE_SCALE)
  {
    ScoreRoundsQuotient(a, a);
    RootOfSquare(Dot(a, a));
    MagnitudeBounds(Dot(a, a), Dot(a, a));
    ScoreOdd(a, a);
  }

  // ---- quantization ----

  function RealAbs(x: real): real { if x < 0.0 then -x else x }

  function MaxAbs(v: seq<real>): (m: real)
    requires v != []
    ensures m >= 0.0
    ensures forall i :: 0 <= i < |v| ==> RealAbs(v[i]) <= m
    ensures exists i :: 0 <= i < |v| && RealAbs(v[i]) == m
  {
    if |v| == 1 then RealAbs(v[0])
    else
      var m := MaxAbs(v[..|v| - 1]);
      assert forall i :: 0 <= i < |v| - 1 ==> v[..|v| - 1][i] == v[i];
      if RealAbs(v[|v| - 1]) > m then RealAbs(v[|v| - 1]) else m
  }

  function RoundHalfAway(x: real): int {
    if x >= 0.0 then (x + 0.5).Floor else -((0.5 - x).Floor)
  }

  function Clamp(scale: int, n: int): int {
    var low := if n < scale then n else scale;
    if low < -scale then -scale else low
  }

  // One component before rounding.
  function Ratio(x: real, maximum: real, scale: int): real
    requires maximum > 0.0
  {
    x / maximum * scale as real
  }

  function Component(x: real, maximum: real, scale: int): int
    requires maximum > 0.0
  {
    Clamp(scale, RoundHalfAway(Ratio(x, maximum, scale)))
  }

  function Components(v: seq<real>, maximum: real, scale: int): (q: seq<int>)
    requires maximum > 0.0
    ensures |q| == |v| && forall i :: 0 <= i < |v| ==> q[i] == Component(v[i], maximum, scale)
  {
    seq(|v|, i requires 0 <= i < |v| => Component(v[i], maximum, scale))
  }

  function QuantizeUnit(v: seq<real>, scale: int): Encoding {
    if v == [] then CannotQuantize
    else
      var maximum := MaxAbs(v);
      if maximum == 0.0 then CannotQuantize
      else Encoded(Components(v, maximum, scale))
  }

  lemma RoundMonotone(x: real, y: real)
    requires x <= y
    ensures RoundHalfAway(x) <= RoundHalfAway(y)
  {
  }

  lemma RoundOdd(x: real)
    ensures RoundHalfAway(-x) == -RoundHalfAway(x)
  {
  }

  lemma RoundNearest(x: real)
    ensures -0.5 <= RoundHalfAway(x) as real - x <= 0.5
  {
  }

  lemma RoundExact(n: int)
    ensures RoundHalfAway(n as real) == n
  {
  }

  lemma RatioOrder(x: real, y: real, maximum: real, scale: int)
    requires maximum > 0.0 && scale > 0 && x <= y
    ensures Ratio(x, maximum, scale) <= Ratio(y, maximum, scale)
  {
    var p, q, s := x / maximum, y / maximum, scale as real;
    assert (q - p) * maximum == y - x;
    assert q >= p;
    assert (q - p) * s >= 0.0;
  }

  lemma RatioEnds(maximum: real, scale: int)
    requires maximum > 0.0 && scale > 0
    ensures Ratio(maximum, maximum, scale) == scale as real
    ensures Ratio(-maximum, maximum, scale) == -(scale as real)
  {
    assert maximum / maximum == 1.0;
    assert -maximum / maximum == -1.0;
  }

  lemma RatioOdd(x: real, maximum: real, scale: int)
    requires maximum > 0.0 && scale > 0
    ensures Ratio(-x, maximum, scale) == -Ratio(x, maximum, scale)
    ensures (x >= 0.0 ==> Ratio(x, maximum, scale) >= 0.0) && (x <= 0.0 ==> Ratio(x, maximum, scale) <= 0.0)
  {
    var p, s := x / maximum, scale as real;
    assert p * maximum == x && -x / maximum == -p;
    assert (-p) * s == -(p * s);
    if x >= 0.0 { assert p >= 0.0; } else { assert p < 0.0 && (-p) * s > 0.0; }
    if x == 0.0 { assert p == 0.0; }
  }

  /** A component within the maximum needs no clamp, is off by at most one half, keeps its sign and
      is odd. */
  lemma ComponentBounds(x: real, maximum: real, scale: int)
    requires maximum > 0.0 && scale > 0 && RealAbs(x) <= maximum
    ensures (x >= 0.0 ==> Component(x, maximum, scale) >= 0) && (x <= 0.0 ==> Component(x, maximum, scale) <= 0)
    ensures Component(-x, maximum, scale) == -Component(x, maximum, scale)
    ensures Component(x, maximum, scale) == RoundHalfAway(Ratio(x, maximum, scale))
    ensures -scale <= Component(x, maximum, scale) <= scale
    ensures -0.5 <= Component(x, maximum, scale) as real - Ratio(x, maximum, scale) <= 0.5
    ensures RealAbs(x) == maximum ==> Abs(Component(x, maximum, scale)) == scale
  {
    RatioEnds(maximum, scale);
    RatioOrder(x, maximum, maximum, scale);
    RatioOrder(-maximum, x, maximum, scale);
    RoundExact(scale);
    RoundExact(-scale);
    assert (-scale) as real == -(scale as real);
    RoundMonotone(Ratio(x, maximum, scale), scale as real);
    RoundMonotone(-(scale as real), Ratio(x, maximum, scale));
    RoundNearest(Ratio(x, maximum, scale));
    RatioOdd(x, maximum, scale);
    RoundOdd(Ratio(x, maximum, scale));
  }

  ghost predicate NonzeroReal(v: seq<real>) { exists i :: 0 <= i < |v| && v[i] != 0.0 }

  /** Quantization fails exactly on vectors without a nonzero component.  Otherwise it stays
      within the scale, reaches it, keeps the order of components, and no component moves by
      more than half a unit. */
  lemma QuantizeMeaning(v: seq<real>, scale: int)
    requires scale > 0
    ensures QuantizeUnit(v, scale).Encoded? <==> NonzeroReal(v)
    ensures NonzeroReal(v) ==> var q := QuantizeUnit(v, scale).values;
      && |q| == |v|
      && (forall i :: 0 <= i < |v| ==> -scale <= q[i] <= scale)
      && (exists i :: 0 <= i < |v| && Abs(q[i]) == scale)
      && (forall i, j :: 0 <= i < |v| && 0 <= j < |v| && v[i] <= v[j] ==> q[i] <= q[j])
      && (forall i :: 0 <= i < |v| ==> -0.5 <= q[i] as real - Ratio(v[i], MaxAbs(v), scale) <= 0.5)
  {
    if v != [] {
      var maximum := MaxAbs(v);
      if NonzeroReal(v) {
        var k :| 0 <= k < |v| && v[k] != 0.0;
        assert RealAbs(v[k]) > 0.0;
        var q := QuantizeUnit(v, scale).values;
        forall i | 0 <= i < |v|
          ensures -scale <= q[i] <= scale
          ensures -0.5 <= q[i] as real - Ratio(v[i], maximum, scale) <= 0.5
          ensures RealAbs(v[i]) == maximum ==> Abs(q[i]) == scale
        {
          ComponentBounds(v[i], maximum, scale);
        }
        forall i, j | 0 <= i < |v| && 0 <= j < |v| && v[i] <= v[j] ensures q[i] <= q[j] {
          RatioOrder(v[i], v[j], maximum, scale);
          RoundMonotone(Ratio(v[i], maximum, scale), Ratio(v[j], maximum, scale));
        }
      }
    }
  }

  ghost predicate Proportional(c: real, v: seq<real>, w: seq<real>) {
    |v| == |w| && forall i :: 0 <= i < |v| ==> w[i] == c * v[i]
  }

  lemma AbsScaled(c: real, x: real, y: real, maximum: real)
    requires y == c * x && RealAbs(x) <= maximum
    ensures RealAbs(y) <= RealAbs(c) * maximum
    ensures RealAbs(x) == maximum ==> RealAbs(y) == RealAbs(c) * maximum
  {
    assert RealAbs(y) == RealAbs(c) * RealAbs(x);
    assert RealAbs(c) * (maximum - RealAbs(x)) >= 0.0;
  }

  ghost predicate ScaledBy(c: real, m: real, top: real) { top > 0.0 && top == RealAbs(c) * m }

  ghost predicate Bounds(v: seq<real>, m: real, w: seq<real>, top: real) {
    |v| == |w| && forall i :: 0 <= i < |v| ==>
      RealAbs(w[i]) <= top && (RealAbs(v[i]) == m ==> RealAbs(w[i]) == top)
  }

  lemma ScaledBounds(c: real, v: seq<real>, m: real, w: seq<real>, top: real)
    requires Proportional(c, v, w) && ScaledBy(c, m, top)
    requires forall i :: 0 <= i < |v| ==> RealAbs(v[i]) <= m
    ensures Bounds(v, m, w, top)
  {
    forall i | 0 <= i < |v|
      ensures RealAbs(w[i]) <= top && (RealAbs(v[i]) == m ==> RealAbs(w[i]) == top)
    {
      AbsScaled(c, v[i], w[i], m);
    }
  }

  lemma MaxAbsTransfer(v: seq<real>, w: seq<real>, top: real)
    requires v != [] && Bounds(v, MaxAbs(v), w, top)
    ensures MaxAbs(w) == top
  {
    var k :| 0 <= k < |v| && RealAbs(v[k]) == MaxAbs(v);
    assert RealAbs(w[k]) == top;
  }

  lemma RatioScaled(x: real, maximum: real, c: real, scale: int, y: real, top: real)
    requires maximum > 0.0 && c != 0.0 && y == c * x && top == RealAbs(c) * maximum > 0.0
    ensures c > 0.0 ==> Ratio(y, top, scale) == Ratio(x, maximum, scale)
    ensures c < 0.0 ==> Ratio(y, top, scale) == -Ratio(x, maximum, scale)
  {
    var p, q, s := x / maximum, y / top, scale as real;
    assert q * top == y && p * maximum == x;
    if c > 0.0 {
      assert (q - p) * top == 0.0;
    } else {
      assert (q + p) * top == 0.0;
      assert (-p) * s == -(p * s);
    }
  }

  function NegatedIf(negative: bool, q: seq<int>): (n: seq<int>)
    ensures |n| == |q| && forall i :: 0 <= i < |q| ==> n[i] == if negative then -q[i] else q[i]
  {
    if negative then Negated(q) else q
  }

  lemma ComponentScaled(x: real, m: real, c: real, scale: int, y: real, top: real)
    requires m > 0.0 && c != 0.0 && y == c * x && ScaledBy(c, m, top)
    ensures Component(y, top, scale) == if c < 0.0 then -Component(x, m, scale) else Component(x, m, scale)
    requires scale > 0
  {
    RatioScaled(x, m, c, scale, y, top);
    RoundOdd(Ratio(x, m, scale));
  }

  lemma ComponentsScaled(c: real, v: seq<real>, m: real, w: seq<real>, top: real, scale: int)
    requires m > 0.0 && c != 0.0 && ScaledBy(c, m, top) && scale > 0
    requires Proportional(c, v, w)
    ensures Components(w, top, scale) == NegatedIf(c < 0.0, Components(v, m, scale))
  {
    var p, q := Components(w, top, scale), NegatedIf(c < 0.0, Components(v, m, scale));
    forall i | 0 <= i < |v| ensures p[i] == q[i] {
      ComponentScaled(v[i], m, c, scale, w[i], top);
    }
  }

  lemma MaxAbsPositive(v: seq<real>)
    requires NonzeroReal(v)
    ensures MaxAbs(v) > 0.0
  {
    var k :| 0 <= k < |v| && v[k] != 0.0;
    assert RealAbs(v[k]) > 0.0;
  }

  /** A positive factor does not change the encoding, and a negative one negates it. */
  lemma QuantizeProportional(c: real, v: seq<real>, w: seq<real>, scale: int)
    requires scale > 0 && c != 0.0 && NonzeroReal(v) && Proportional(c, v, w)
    ensures QuantizeUnit(v, scale).Encoded?
    ensures QuantizeUnit(w, scale) == Encoded(NegatedIf(c < 0.0, QuantizeUnit(v, scale).values))
  {
    MaxAbsPositive(v);
    var top := MaxAbsScaled(c, v, w);
    ComponentsScaled(c, v, MaxAbs(v), w, top, scale);
    EncodingOfComponents(v, scale);
    EncodingOfComponents(w, scale);
  }

  lemma EncodingOfComponents(v: seq<real>, scale: int)
    requires v != [] && MaxAbs(v) > 0.0
    ensures QuantizeUnit(v, scale) == Encoded(Components(v, MaxAbs(v), scale))
  {
  }

  lemma MaxAbsScaled(c: real, v: seq<real>, w: seq<real>) returns (top: real)
    requires c != 0.0 && v != [] && MaxAbs(v) > 0.0 && Proportional(c, v, w)
    ensures MaxAbs(w) == top && ScaledBy(c, MaxAbs(v), top)
  {
    top := ScaledTop(c, MaxAbs(v));
    ScaledBounds(c, v, MaxAbs(v), w, top);
    MaxAbsTransfer(v, w, top);
  }

  lemma ScaledTop(c: real, m: real) returns (top: real)
    requires c != 0.0 && m > 0.0
    ensures ScaledBy(c, m, top)
  {
    top := RealAbs(c) * m;
    PositiveTimes(RealAbs(c), m);
  }

  lemma PositiveTimes(x: real, y: real)
    requires x > 0.0 && y > 0.0
    ensures x * y > 0.0
  {
  }

  /** Proportional nonzero vectors score exactly the full scale, with the sign of the factor. */
  lemma ProportionalScore(c: real, v: seq<real>, w: seq<real>, scale: int)
    requires scale > 0 && NonzeroReal(v) && c != 0.0 && Proportional(c, v, w)
    ensures QuantizeUnit(v, scale).Encoded? && QuantizeUnit(w, scale).Encoded?
    ensures IntegerScore(QuantizeUnit(v, scale).values, QuantizeUnit(w, scale).values)
      == Score(if c > 0.0 then SCORE_SCALE else -SCORE_SCALE)
  {
    QuantizeProportional(c, v, w, scale);
    QuantizedNonzero(v, scale);
    ScoreSelf(QuantizeUnit(v, scale).values);
  }

  lemma QuantizedNonzero(v: seq<real>, scale: int)
    requires scale > 0 && NonzeroReal(v)
    ensures QuantizeUnit(v, scale).Encoded? && |QuantizeUnit(v, scale).values| == |v|
    ensures Nonzero(QuantizeUnit(v, scale).values)
  {
    QuantizeMeaning(v, scale);
    var q := QuantizeUnit(v, scale).values;
    var k :| 0 <= k < |v| && Abs(q[k]) == scale;
    assert q[k] != 0;
  }

  /** Scoring two quantized nonzero vectors of one dimension never fails. */
  lemma QuantizedAlwaysScore(u: seq<real>, v: seq<real>, scale: int)
    requires scale > 0 && |u| == |v| && NonzeroReal(u) && NonzeroReal(v)
    ensures QuantizeUnit(u, scale).Encoded? && QuantizeUnit(v, scale).Encoded?
    ensures IntegerScore(QuantizeUnit(u, scale).values, QuantizeUnit(v, scale).values).Score?
  {
    QuantizedNonzero(u, scale);
    QuantizedNonzero(v, scale);
    ScoreDefined(QuantizeUnit(u, scale).values, QuantizeUnit(v, scale).values);
  }

  // ---- quantized vectors against the cosine ----

  lemma {:induction false} DotAtLeast(a: seq<int>, k: nat)
    requires k < |a|
    ensures Dot(a, a) >= a[k] * a[k]
  {
    SquaresNonnegative(a[1..]);
    assert a[0] * a[0] >= 0;
    if k > 0 { DotAtLeast(a[1..], k - 1); }
  }

  lemma RootAtLeast(p: nat, q: nat, s: nat)
    requires p >= s && q >= s
    ensures Isqrt(Product(p, q)) >= s
  {
    ProductOrder(s, p, s, q);
    SquareOrder(s, Isqrt(Product(p, q)));
  }

  lemma SquareOfAbs(x: int)
    ensures x * x == Abs(x) * Abs(x)
  {
  }

  lemma QuantizedNorm(v: seq<real>, scale: int)
    requires scale > 0 && NonzeroReal(v)
    ensures QuantizeUnit(v, scale).Encoded? && Dot(QuantizeUnit(v, scale).values, QuantizeUnit(v, scale).values) >= scale * scale
  {
    QuantizeMeaning(v, scale);
    var q := QuantizeUnit(v, scale).values;
    var k :| 0 <= k < |v| && Abs(q[k]) == scale;
    SquareOfAbs(q[k]);
    DotAtLeast(q, k);
  }

  lemma AtLeastTimes(e: real, d: real)
    requires e >= 1.0 && d >= 0.0
    ensures e * d >= d
  {
    assert (e - 1.0) * d >= 0.0;
  }

  lemma UnderThreeHalves(m: int, c: real, d: int)
    requires Overstated(m, c, d) && d > SCORE_SCALE && c <= SCORE_SCALE as real
    ensures m as real - c < 1.5
  {
    var e := m as real - c - 0.5;
    assert e * d as real <= c;
    if e >= 1.0 { AtLeastTimes(e, d as real); }
  }

  /** Vectors quantized to a scale whose square exceeds one billion, as both scales in use do: the
      score is at most half a unit below the cosine of the quantized vectors, and less than one and
      a half above it. */
  lemma QuantizedNearCosine(u: seq<real>, v: seq<real>, scale: int, c: real, a: seq<int>, b: seq<int>)
    requires scale > 0 && scale * scale > SCORE_SCALE && |u| == |v| && NonzeroReal(u) && NonzeroReal(v)
    requires QuantizeUnit(u, scale) == Encoded(a) && QuantizeUnit(v, scale) == Encoded(b)
    requires |a| == |b| && IsCosine(c, Dot(a, b), Norms(a, b))
    ensures IntegerScore(a, b).Score? && -0.5 <= Abs(IntegerScore(a, b).value) as real - c < 1.5
  {
    QuantizedNonzero(u, scale);
    QuantizedNonzero(v, scale);
    NearestIff(a, b, c);
    OverstatedBy(a, b, c);
    CosineBelowScale(a, b, c);
    QuantizedNorm(u, scale);
    QuantizedNorm(v, scale);
    RootAtLeast(Dot(a, a), Dot(b, b), scale * scale);
    UnderThreeHalves(Abs(IntegerScore(a, b).value), c, Isqrt(Product(Dot(a, a), Dot(b, b))));
  }

  // ---- ranking ----

  datatype Scored = Scored(score: int, index: nat)

  // The sort key (-score, index).
  predicate Ahead(a: Scored, b: Scored) {
    a.score > b.score || (a.score == b.score && a.index <= b.index)
  }

  /** Every candidate once, best score first, earlier candidate first among equals. */
  ghost predicate Ranking(scores: seq<int>, r: seq<nat>) {
    && |r| == |scores|
    && (forall i :: 0 <= i < |r| ==> r[i] < |scores|)
    && (forall i, j :: 0 <= i < j < |r| ==>
        scores[r[i]] > scores[r[j]] || (scores[r[i]] == scores[r[j]] && r[i] < r[j]))
  }

  method Ranked(query: seq<int>, candidates: seq<seq<int>>) returns (ok: bool, r: seq<nat>)
    ensures ok <==> forall i :: 0 <= i < |candidates| ==> IntegerScore(query, candidates[i]).Score?
    ensures ok ==> Ranking(seq(|candidates|, i requires 0 <= i < |candidates| =>
      var o := IntegerScore(query, candidates[i]); if o.Score? then o.value else 0), r)
  {
    ghost var scores := seq(|candidates|, i requires 0 <= i < |candidates| =>
      var o := IntegerScore(query, candidates[i]); if o.Score? then o.value else 0);
    var scored: seq<Scored> := [];
    for index := 0 to |candidates|
      invariant |scored| == index
      invariant forall i :: 0 <= i < index ==> IntegerScore(query, candidates[i]).Score?
      invariant forall i :: 0 <= i < index ==> scored[i] == Scored(scores[i], i)
    {
      var outcome := IntegerScore(query, candidates[index]);
      if !outcome.Score? {
        return false, [];
      }
      scored := scored + [Scored(outcome.value, index)];
    }
    RankingOfSorted(scores, scored);
    var ordered := Sort(Ahead, scored);
    ok, r := true, seq(|ordered|, i requires 0 <= i < |ordered| => ordered[i].index);
  }

  lemma RankingOfSorted(scores: seq<int>, scored: seq<Scored>)
    requires |scored| == |scores|
    requires forall i :: 0 <= i < |scored| ==> scored[i] == Scored(scores[i], i)
    ensures var s := Sort(Ahead, scored);
      Ranking(scores, seq(|s|, i requires 0 <= i < |s| => s[i].index))
  {
    var s := Sort(Ahead, scored);
    SortSorts(Ahead, scored);
    forall i | 0 <= i < |s| ensures s[i].index < |scores| && s[i].score == scores[s[i].index] {
      assert s[i] in multiset(s);
      assert s[i] in scored;
    }
    NothingTwice(scored, s);
  }

  lemma NothingTwice(scored: seq<Scored>, s: seq<Scored>)
    requires multiset(s) == multiset(scored)
    requires forall i, j :: 0 <= i < j < |scored| ==> scored[i].index != scored[j].index
    ensures forall i, j :: 0 <= i < j < |s| ==> s[i] != s[j]
  {
    forall i, j | 0 <= i < j < |s| ensures s[i] != s[j] {
      if s[i] == s[j] {
        OnceInRange(scored, s[i]);
        TwicePositions(s, i, j);
        assert false;
      }
    }
  }

  lemma {:induction false} OnceInRange(scored: seq<Scored>, x: Scored)
    requires forall i, j :: 0 <= i < j < |scored| ==> scored[i].index != scored[j].index
    ensures multiset(scored)[x] <= 1
  {
    if scored != [] {
      var n := |scored| - 1;
      assert scored == scored[..n] + [scored[n]];
      OnceInRange(scored[..n], x);
      if x == scored[n] { assert x !in scored[..n]; }
    }
  }

  lemma TwicePositions(s: seq<Scored>, i: nat, j: nat)
    requires i < j < |s| && s[i] == s[j]
    ensures multiset(s)[s[i]] >= 2
  {
    assert s == s[..j] + [s[j]] + s[j + 1..];
    assert s[..j][i] == s[j];
  }
}
