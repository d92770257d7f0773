/** Wilson score intervals over the reals, with the square root given by its defining equation. */
module Wilson {

  datatype Interval = Interval(lo: real, hi: real)

  const Z := 1.959963984540054

  ghost predicate IsRoot(s: real, x: real) { s >= 0.0 && s * s == x }

  /** The squared critical value per observation. */
  function Spread(n: real): real
    requires n > 0.0
  {
    Z * Z / n
  }

  function Radicand(p: real, n: real): real
    requires n > 0.0
  {
    (p * (1.0 - p) + Z * Z / (4.0 * n)) / n
  }

  function Center(p: real, n: real): real
    requires n > 0.0
  {
    (p + Z * Z / (2.0 * n)) / (1.0 + Z * Z / n)
  }

  function Half(n: real, s: real): real
    requires n > 0.0
  {
    Z * s / (1.0 + Z * Z / n)
  }

  /** Before clamping; p is the observed rate and s the square root of its radicand. */
  function Raw(p: real, n: real, s: real): Interval
    requires n > 0.0
  {
    Interval(Center(p, n) - Half(n, s), Center(p, n) + Half(n, s))
  }

  function Clamped(i: Interval): Interval {
    Interval(if i.lo < 0.0 then 0.0 else i.lo, if i.hi > 1.0 then 1.0 else i.hi)
  }

  /** k successes among n trials. */
  function ScoreInterval(k: real, n: real, s: real): Interval
    requires n >= 0.0
  {
    if n == 0.0 then Interval(0.0, 1.0) else Clamped(Raw(k / n, n, s))
  }

  predicate Holds(i: Interval, q: real) { i.lo <= q <= i.hi }

  /** The score test with squared critical value a does not reject rate q after observing rate p. */
  predicate Accepts(p: real, a: real, q: real) { (q - p) * (q - p) <= a * (q * (1.0 - q)) }

  // ---------------------------------------------------------------- algebra

  lemma Positive(x: real, y: real)
    requires x > 0.0 && y > 0.0
    ensures x * y > 0.0
  {
  }

  lemma NotNegative(x: real, y: real)
    requires x >= 0.0 && y >= 0.0
    ensures x * y >= 0.0
  {
  }

  lemma SignOfProduct(b: real, x: real)
    requires b > 0.0
    ensures b * x <= 0.0 <==> x <= 0.0
  {
  }

  lemma Factors(d: real, h: real)
    ensures (h - d) * (h + d) == h * h - d * d
  {
  }

  lemma Opposite(d: real)
    ensures (-d) * (-d) == d * d
  {
  }

  lemma Beyond(d: real, h: real)
    requires d > h >= 0.0
    ensures d * d > h * h
  {
    Factors(h, d);
    Positive(d - h, d + h);
  }

  lemma WithinSquare(d: real, h: real)
    requires h >= 0.0
    ensures -h <= d <= h <==> d * d <= h * h
  {
    if d > h {
      Beyond(d, h);
    } else if d < -h {
      Beyond(-d, h);
      Opposite(d);
    } else {
      Factors(d, h);
      NotNegative(h - d, h + d);
    }
  }

  /** a stands for the spread and h for the scaled half width. */
  ghost predicate Scaled(p: real, a: real, h: real) {
    0.0 <= p <= 1.0 && a > 0.0 && h >= 0.0 && h * h == a * (p * (1.0 - p)) + a * a / 4.0
  }

  function Deviation(p: real, a: real, q: real): real { (1.0 + a) * q - (p + a / 2.0) }

  /** Completing the square. */
  lemma Square(p: real, a: real, h: real, q: real)
    requires Scaled(p, a, h)
    ensures var d := Deviation(p, a, q);
            d * d - h * h == (1.0 + a) * ((q - p) * (q - p) - a * (q * (1.0 - q)))
  {
    var d := Deviation(p, a, q);
    var m := p + a / 2.0;
    assert d * d == (1.0 + a) * (1.0 + a) * q * q - 2.0 * (1.0 + a) * q * m + m * m;
    assert m * m - h * h == (1.0 + a) * p * p;
    assert (1.0 + a) * ((q - p) * (q - p) - a * (q * (1.0 - q)))
        == (1.0 + a) * ((1.0 + a) * q * q - 2.0 * q * m + p * p);
  }

  lemma ScoreTest(p: real, a: real, h: real, q: real)
    requires Scaled(p, a, h)
    ensures -h <= Deviation(p, a, q) <= h <==> Accepts(p, a, q)
  {
    Square(p, a, h, q);
    WithinSquare(Deviation(p, a, q), h);
    SignOfProduct(1.0 + a, (q - p) * (q - p) - a * (q * (1.0 - q)));
  }

  lemma Scale(center: real, half: real, p: real, a: real, h: real, q: real)
    requires a > 0.0 && center * (1.0 + a) == p + a / 2.0 && half * (1.0 + a) == h
    ensures Holds(Interval(center - half, center + half), q) <==> -h <= Deviation(p, a, q) <= h
  {
    var d := 1.0 + a;
    SignOfProduct(d, center - half - q);
    SignOfProduct(d, q - center - half);
    assert d * (center - half - q) == -h - Deviation(p, a, q);
    assert d * (q - center - half) == Deviation(p, a, q) - h;
  }

  lemma HoldsAccepted(center: real, half: real, p: real, a: real, h: real, q: real)
    requires Scaled(p, a, h) && center * (1.0 + a) == p + a / 2.0 && half * (1.0 + a) == h
    ensures Holds(Interval(center - half, center + half), q) <==> Accepts(p, a, q)
  {
    ScoreTest(p, a, h, q);
    Scale(center, half, p, a, h, q);
  }

  lemma Outside(q: real)
    ensures q < 0.0 || q > 1.0 ==> -(q * (1.0 - q)) > 0.0
  {
    if q < 0.0 {
      Positive(-q, 1.0 - q);
      assert -q * (1.0 - q) == -(q * (1.0 - q));
    } else if q > 1.0 {
      Positive(q, q - 1.0);
      assert q * (q - 1.0) == -(q * (1.0 - q));
    }
  }

  lemma SquareNotNegative(e: real)
    ensures e * e >= 0.0
  {
  }

  lemma InUnit(p: real, a: real, q: real)
    requires a > 0.0 && Accepts(p, a, q)
    ensures 0.0 <= q <= 1.0
  {
    SquareNotNegative(q - p);
    SignOfProduct(a, -(q * (1.0 - q)));
    assert a * -(q * (1.0 - q)) == -(a * (q * (1.0 - q)));
    Outside(q);
  }

  lemma AcceptsObserved(p: real, a: real)
    requires 0.0 <= p <= 1.0 && a > 0.0
    ensures Accepts(p, a, p)
  {
    NotNegative(p, 1.0 - p);
    NotNegative(a, p * (1.0 - p));
  }

  // ---------------------------------------------------------------- fractions

  lemma Fractions(z2: real, n: real, v: real)
    requires n > 0.0
    ensures z2 * ((v + z2 / (4.0 * n)) / n) == z2 / n * v + z2 / n * (z2 / n) / 4.0
  {
    var i := 1.0 / n;
    assert z2 / n == z2 * i && z2 / (4.0 * n) == z2 * i / 4.0;
    assert (v + z2 / (4.0 * n)) / n == (v + z2 * i / 4.0) * i;
  }

  lemma SpreadPositive(n: real)
    requires n > 0.0
    ensures Spread(n) > 0.0 && Z * Z / (2.0 * n) == Spread(n) / 2.0
  {
  }

  lemma Quotient(x: real, d: real)
    requires d > 0.0
    ensures x / d * d == x
  {
  }

  lemma CenterTimesDenominator(p: real, n: real)
    requires n > 0.0
    ensures Center(p, n) * (1.0 + Spread(n)) == p + Spread(n) / 2.0
  {
    SpreadPositive(n);
    Quotient(p + Spread(n) / 2.0, 1.0 + Spread(n));
  }

  lemma HalfTimesDenominator(n: real, s: real)
    requires n > 0.0
    ensures Half(n, s) * (1.0 + Spread(n)) == Z * s
  {
    SpreadPositive(n);
    Quotient(Z * s, 1.0 + Spread(n));
  }

  lemma ScaledHalf(p: real, n: real, s: real)
    requires n > 0.0 && 0.0 <= p <= 1.0 && IsRoot(s, Radicand(p, n))
    ensures Scaled(p, Spread(n), Z * s)
  {
    SpreadPositive(n);
    assert (Z * s) * (Z * s) == Z * Z * (s * s);
    Fractions(Z * Z, n, p * (1.0 - p));
  }

  // ---------------------------------------------------------------- theorems

  /** The interval holds exactly the rates that the score test does not reject. */
  lemma WilsonInvertsScoreTest(p: real, n: real, s: real, q: real)
    requires n > 0.0 && 0.0 <= p <= 1.0 && IsRoot(s, Radicand(p, n))
    ensures Holds(Raw(p, n, s), q) <==> Accepts(p, Spread(n), q)
  {
    ScaledHalf(p, n, s);
    CenterTimesDenominator(p, n);
    HalfTimesDenominator(n, s);
    HoldsAccepted(Center(p, n), Half(n, s), p, Spread(n), Z * s, q);
  }

  /** Whatever the raw interval holds is a probability. */
  lemma HeldInUnit(p: real, n: real, s: real, q: real)
    requires n > 0.0 && 0.0 <= p <= 1.0 && IsRoot(s, Radicand(p, n)) && Holds(Raw(p, n, s), q)
    ensures 0.0 <= q <= 1.0
  {
    WilsonInvertsScoreTest(p, n, s, q);
    SpreadPositive(n);
    InUnit(p, Spread(n), q);
  }

  lemma HoldsRate(p: real, n: real, s: real)
    requires n > 0.0 && 0.0 <= p <= 1.0 && IsRoot(s, Radicand(p, n))
    ensures Holds(Raw(p, n, s), p)
  {
    SpreadPositive(n);
    AcceptsObserved(p, Spread(n));
    WilsonInvertsScoreTest(p, n, s, p);
  }

  lemma RawInUnit(p: real, n: real, s: real)
    requires n > 0.0 && 0.0 <= p <= 1.0 && IsRoot(s, Radicand(p, n))
    ensures 0.0 <= Raw(p, n, s).lo <= p <= Raw(p, n, s).hi <= 1.0
  {
    HoldsRate(p, n, s);
    HeldInUnit(p, n, s, Raw(p, n, s).lo);
    HeldInUnit(p, n, s, Raw(p, n, s).hi);
  }

  lemma RateInRange(k: real, n: real)
    requires n > 0.0 && 0.0 <= k <= n
    ensures 0.0 <= k / n <= 1.0
  {
  }

  /** The unclamped interval lies in the unit interval and contains the observed rate, so the clamp does nothing. */
  lemma WilsonContainsRate(k: real, n: real, s: real)
    requires n > 0.0 && 0.0 <= k <= n && IsRoot(s, Radicand(k / n, n))
    ensures ScoreInterval(k, n, s) == Raw(k / n, n, s)
    ensures 0.0 <= ScoreInterval(k, n, s).lo <= k / n <= ScoreInterval(k, n, s).hi <= 1.0
  {
    RateInRange(k, n);
    RawInUnit(k / n, n, s);
  }

  /** Without trials nothing is known. */
  lemma NoTrials(k: real, s: real)
    ensures ScoreInterval(k, 0.0, s) == Interval(0.0, 1.0)
  {
  }

  /** The critical value is the 97.5 percent point of the normal distribution. */
  lemma SpreadMeans(n: real)
    requires n > 0.0
    ensures Spread(n) * n == 1.959963984540054 * 1.959963984540054
  {
    Quotient(Z * Z, n);
  }
}
