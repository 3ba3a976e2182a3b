/**
 * src/lib/score.js in exact arithmetic: the Wilson lower bound and the score
 * blended from it. Math.sqrt is a parameter that is exact where it is used.
 */
module Score {
  import opened Basics
  import opened Wrappers
  import opened Settings

  const Z := 1.96

  ghost predicate IsSqrt(sqrt: real -> real) {
    forall x: real :: x >= 0.0 ==> RootAt(sqrt, x)
  }

  predicate RootAt(sqrt: real -> real, x: real) { sqrt(x) >= 0.0 && sqrt(x) * sqrt(x) == x }

  // The fraction before it is clamped, for a rate p seen in n trials.
  function Bound(sqrt: real -> real, p: real, n: real): real
    requires n > 0.0
  {
    var denominator := 1.0 + Z * Z / n;
    var centre := p + Z * Z / (2.0 * n);
    var margin := Z * sqrt(p * (1.0 - p) / n + Z * Z / (4.0 * n * n));
    (centre - margin) / denominator
  }

  function WilsonLowerBound(sqrt: real -> real, successes: int, trials: int): real {
    if trials <= 0 then 0.0
    else Max(0.0, 100.0 * Bound(sqrt, successes as real / trials as real, trials as real))
  }

  datatype Record = Record(first: int, eligible: int, recentFirst: int, recentEligible: int)
  {
    predicate Counts() { 0 <= first <= eligible && 0 <= recentFirst <= recentEligible }
  }

  function Filled(c: Config, r: Record): real
    requires c.Legal()
  {
    Min(1.0, r.recentEligible as real / c.recentScoreWindowBlocks as real)
  }

  function PeerScore(c: Config, sqrt: real -> real, r: Record): Option<real>
    requires c.Legal()
  {
    if r.eligible <= 0 then None
    else
      var lifetime := WilsonLowerBound(sqrt, r.first, r.eligible);
      var recent := WilsonLowerBound(sqrt, r.recentFirst, r.recentEligible);
      Some(Blend(Filled(c, r), recent, lifetime))
  }

  function Blend(f: real, recent: real, lifetime: real): real { f * recent + (1.0 - f) * lifetime }

  // ---- The bound as the root of its equation ------------------------------------------

  // What the Wilson bound means: the rate at which p would just lie z standard
  // errors above it. Here w is z*z/n.
  predicate Solves(p: real, w: real, l: real) {
    0.0 <= l <= p && l < 1.0 && (p - l) * (p - l) == w * (l * (1.0 - l))
  }

  function Spread(n: real): (w: real)
    requires n > 0.0
    ensures w > 0.0 && w * n == 3.8416
  {
    Times(Z * Z, n);
    Z * Z / n
  }

  lemma Cancel(k: real, a: real, b: real)
    requires k > 0.0 && k * a == k * b
    ensures a == b
  {
  }

  lemma Positive(a: real, b: real)
    requires 0.0 <= a && 0.0 <= b
    ensures 0.0 <= a * b
  {
  }

  lemma StrictlyPositive(a: real, b: real, ab: real)
    requires 0.0 < a && 0.0 < b && ab == a * b
    ensures 0.0 < ab
  {
  }

  lemma SquaresOrder(a: real, b: real)
    requires b >= 0.0 && a * a <= b * b
    ensures a <= b
  {
    if a > b { SquaresGrow(b, a); }
  }

  lemma Quadratic(p: real, w: real, m: real, l: real)
    requires w > 0.0 && m == p + w / 2.0 - l * (1.0 + w)
    requires m * m == w * (p * (1.0 - p)) + w * w / 4.0
    ensures (p - l) * (p - l) == w * (l * (1.0 - l))
  {
    assert (1.0 + w) * ((p - l) * (p - l)) == (1.0 + w) * (w * (l * (1.0 - l)));
    Cancel(1.0 + w, (p - l) * (p - l), w * (l * (1.0 - l)));
  }

  lemma MarginSquared(p: real, n: real, r: real)
    requires n > 0.0 && r * r == p * (1.0 - p) / n + Z * Z / (4.0 * n * n)
    ensures (Z * r) * (Z * r) == Spread(n) * (p * (1.0 - p)) + Spread(n) * Spread(n) / 4.0
  {
    var q := p * (1.0 - p);
    assert (Z * r) * (Z * r) == Z * Z * (r * r);
    assert Z * Z * (q / n) == Spread(n) * q;
    assert Z * Z * (Z * Z / (4.0 * n * n)) == Spread(n) * Spread(n) / 4.0;
  }

  lemma {:induction false} DivideOrder(k: real, a: real, b: real)
    requires k > 0.0
    ensures k * a <= k * b ==> a <= b
    ensures k * a < k * b ==> a < b
  {
    if a > b { assert k * (a - b) > 0.0; }
  }

  lemma UnderTheCentre(p: real, w: real, m: real)
    requires 0.0 <= p <= 1.0 && w > 0.0 && m >= 0.0
    requires m * m == w * (p * (1.0 - p)) + w * w / 4.0
    ensures m <= p + w / 2.0
    ensures m == p + w / 2.0 ==> p == 0.0
    ensures w / 2.0 - w * p <= m
  {
    var c, d := p + w / 2.0, w / 2.0 - w * p;
    var v := p * (1.0 - p);
    Positive(p, 1.0 - p);
    assert c * c - m * m == p * p + w * (p * p);
    assert m * m - d * d == w * v + w * (w * v);
    Positive(w, v);
    Positive(w, w * v);
    Positive(p, p);
    Positive(w, p * p);
    SquaresOrder(m, c);
    SquaresOrder(d, m);
    if m == c && p > 0.0 { StrictlyPositive(p, p, p * p); }
  }

  lemma RootSolves(p: real, w: real, m: real, l: real)
    requires 0.0 <= p <= 1.0 && w > 0.0 && m >= 0.0
    requires m * m == w * (p * (1.0 - p)) + w * w / 4.0
    requires l * (1.0 + w) == p + w / 2.0 - m
    ensures Solves(p, w, l) && (l == 0.0 <==> p == 0.0)
  {
    UnderTheCentre(p, w, m);
    Quadratic(p, w, m, l);
    DivideOrder(1.0 + w, 0.0, l);
    DivideOrder(1.0 + w, l, p);
    DivideOrder(1.0 + w, l, 1.0);
  }

  lemma BoundSolves(sqrt: real -> real, p: real, n: real)
    requires IsSqrt(sqrt) && 0.0 <= p <= 1.0 && n > 0.0
    ensures Solves(p, Spread(n), Bound(sqrt, p, n))
    ensures Bound(sqrt, p, n) == 0.0 <==> p == 0.0
  {
    var w, x := Spread(n), p * (1.0 - p) / n + Z * Z / (4.0 * n * n);
    VarianceIsPositive(p, n);
    assert RootAt(sqrt, x);
    var m := Z * sqrt(x);
    MarginSquared(p, n, sqrt(x));
    BoundIs(sqrt, p, n, m);
    RootSolves(p, w, m, Bound(sqrt, p, n));
  }

  lemma BoundIs(sqrt: real -> real, p: real, n: real, m: real)
    requires n > 0.0 && m == Z * sqrt(p * (1.0 - p) / n + Z * Z / (4.0 * n * n))
    ensures Bound(sqrt, p, n) * (1.0 + Spread(n)) == p + Spread(n) / 2.0 - m
  {
    HalfSpread(n);
    Times(p + Spread(n) / 2.0 - m, 1.0 + Spread(n));
  }

  lemma VarianceIsPositive(p: real, n: real)
    requires 0.0 <= p <= 1.0 && n > 0.0
    ensures p * (1.0 - p) / n + Z * Z / (4.0 * n * n) >= 0.0
  {
    Positive(p, 1.0 - p);
    Quotient(p * (1.0 - p), n);
    StrictlyPositive(4.0 * n, n, 4.0 * n * n);
    Quotient(Z * Z, 4.0 * n * n);
  }

  lemma Quotient(a: real, b: real)
    requires a >= 0.0 && b > 0.0
    ensures a / b >= 0.0
  {
  }

  lemma HalfSpread(n: real)
    requires n > 0.0
    ensures Z * Z / (2.0 * n) == Spread(n) / 2.0
  {
  }

  lemma Times(a: real, k: real)
    requires k > 0.0
    ensures (a / k) * k == a
  {
  }

  // ---- Order ----------------------------------------------------------------------------

  lemma TimesOrder(a: real, b: real, c: real, d: real)
    requires 0.0 <= a <= b && 0.0 <= c <= d
    ensures a * c <= b * d
  {
    assert a * c <= b * c && b * c <= b * d;
  }

  // Further from p, the distance grows faster than the spread allows.
  lemma DistanceOutgrowsSpread(p: real, a: real, b: real)
    requires 0.0 <= a <= b <= p <= 1.0
    ensures (p - b) * (p - b) * (a * (1.0 - a)) <= (p - a) * (p - a) * (b * (1.0 - b))
  {
    assert (p - a) * b - (p - b) * a == p * (b - a);
    assert (p - a) * (1.0 - b) - (p - b) * (1.0 - a) == (1.0 - p) * (b - a);
    Positive(p, b - a);
    Positive(1.0 - p, b - a);
    Positive(p - b, a);
    Positive(p - b, 1.0 - a);
    TimesOrder((p - b) * a, (p - a) * b, (p - b) * (1.0 - a), (p - a) * (1.0 - b));
    assert (p - b) * a * ((p - b) * (1.0 - a)) == (p - b) * (p - b) * (a * (1.0 - a));
    assert (p - a) * b * ((p - a) * (1.0 - b)) == (p - a) * (p - a) * (b * (1.0 - b));
  }

  lemma SpreadOrder(p: real, w1: real, l1: real, w2: real, l2: real)
    requires 0.0 <= p <= 1.0 && Solves(p, w1, l1) && Solves(p, w2, l2)
    requires 0.0 < l2 <= l1
    ensures w1 <= w2
  {
    var v1, v2 := l1 * (1.0 - l1), l2 * (1.0 - l2);
    StrictlyPositive(l1, 1.0 - l1, v1);
    StrictlyPositive(l2, 1.0 - l2, v2);
    StrictlyPositive(v1, v2, v1 * v2);
    DistanceOutgrowsSpread(p, l2, l1);
    assert w1 * v1 * v2 == v1 * v2 * w1 && w2 * v2 * v1 == v1 * v2 * w2;
    DivideOrder(v1 * v2, w1, w2);
  }

  lemma RateOrder(p1: real, p2: real, w: real, l1: real, l2: real)
    requires 0.0 <= p1 < p2 <= 1.0 && w > 0.0
    requires Solves(p1, w, l1) && Solves(p2, w, l2)
    requires l2 > 0.0
    ensures l1 < l2
  {
    var v1, v2 := l1 * (1.0 - l1), l2 * (1.0 - l2);
    assert w * v1 * v2 == w * v2 * v1;
    if l2 <= l1 {
      StrictlyPositive(l1, 1.0 - l1, v1);
      DistanceOutgrowsSpread(p1, l2, l1);
      SquaresGrow(p1 - l2, p2 - l2);
      Strictly(v1, (p1 - l2) * (p1 - l2), (p2 - l2) * (p2 - l2));
    }
  }

  lemma SquaresGrow(a: real, b: real)
    requires 0.0 <= a < b
    ensures a * a < b * b
  {
    StrictlyPositive(b - a, a + b, (b - a) * (a + b));
    assert (b - a) * (a + b) == b * b - a * a;
  }

  lemma Strictly(k: real, a: real, b: real)
    requires k > 0.0 && a < b
    ensures a * k < b * k
  {
  }

  // ---- What the score promises -----------------------------------------------------------

  function Rate(successes: int, trials: int): real
    requires trials > 0
  {
    successes as real / trials as real
  }

  lemma RateIsAFraction(s: int, n: int)
    requires 0 <= s <= n && n > 0
    ensures 0.0 <= Rate(s, n) <= 1.0 && (Rate(s, n) == 0.0 <==> s == 0)
  {
    Times(s as real, n as real);
    DivideOrder(n as real, 0.0, Rate(s, n));
    DivideOrder(n as real, Rate(s, n), 1.0);
  }

  // The clamp never fires; the bound undercuts the raw rate, and strictly so
  // unless there is nothing to undercut.
  lemma WilsonBounds(sqrt: real -> real, s: int, n: int)
    requires IsSqrt(sqrt) && 0 <= s <= n && n > 0
    ensures WilsonLowerBound(sqrt, s, n) == 100.0 * Bound(sqrt, Rate(s, n), n as real)
    ensures 0.0 <= WilsonLowerBound(sqrt, s, n) <= 100.0 * Rate(s, n)
    ensures WilsonLowerBound(sqrt, s, n) < 100.0
    ensures WilsonLowerBound(sqrt, s, n) == 0.0 <==> s == 0
    ensures WilsonLowerBound(sqrt, s, n) == 100.0 * Rate(s, n) <==> s == 0
  {
    RateIsAFraction(s, n);
    BoundSolves(sqrt, Rate(s, n), n as real);
    var p, l, w := Rate(s, n), Bound(sqrt, Rate(s, n), n as real), Spread(n as real);
    if l == p && s > 0 {
      var v := l * (1.0 - l);
      StrictlyPositive(l, 1.0 - l, v);
      StrictlyPositive(w, v, w * v);
    }
  }

  lemma MoreSuccessesRankHigher(sqrt: real -> real, s1: int, s2: int, n: int)
    requires IsSqrt(sqrt) && 0 <= s1 < s2 <= n
    ensures WilsonLowerBound(sqrt, s1, n) < WilsonLowerBound(sqrt, s2, n)
  {
    WilsonBounds(sqrt, s1, n);
    WilsonBounds(sqrt, s2, n);
    RateIsAFraction(s1, n);
    RateIsAFraction(s2, n);
    BoundSolves(sqrt, Rate(s1, n), n as real);
    BoundSolves(sqrt, Rate(s2, n), n as real);
    RatesInOrder(s1, s2, n);
    RateOrder(Rate(s1, n), Rate(s2, n), Spread(n as real),
              Bound(sqrt, Rate(s1, n), n as real), Bound(sqrt, Rate(s2, n), n as real));
  }

  lemma RatesInOrder(s1: int, s2: int, n: int)
    requires s1 < s2 && n > 0
    ensures Rate(s1, n) < Rate(s2, n)
  {
    Times(s1 as real, n as real);
    Times(s2 as real, n as real);
    DivideOrder(n as real, Rate(s1, n), Rate(s2, n));
  }

  // Believed more when seen more often: the same rate over more trials.
  lemma MoreTrialsRankHigher(sqrt: real -> real, s1: int, n1: int, s2: int, n2: int)
    requires IsSqrt(sqrt) && 0 < s1 <= n1 < n2 && s2 <= n2
    requires s1 * n2 == s2 * n1
    ensures WilsonLowerBound(sqrt, s1, n1) < WilsonLowerBound(sqrt, s2, n2)
  {
    SameRate(s1, n1, s2, n2);
    var p := Rate(s1, n1);
    RateIsAFraction(s1, n1);
    WilsonBounds(sqrt, s1, n1);
    WilsonBounds(sqrt, s2, n2);
    var l1, l2 := Bound(sqrt, p, n1 as real), Bound(sqrt, p, n2 as real);
    BoundSolves(sqrt, p, n1 as real);
    BoundSolves(sqrt, p, n2 as real);
    SpreadShrinks(n1 as real, n2 as real);
    if l2 <= l1 { SpreadOrder(p, Spread(n1 as real), l1, Spread(n2 as real), l2); }
  }

  lemma SameRate(s1: int, n1: int, s2: int, n2: int)
    requires 0 < s1 && 0 < n1 && 0 < n2 && s1 * n2 == s2 * n1
    ensures 0 < s2 && Rate(s1, n1) == Rate(s2, n2)
  {
    assert s1 * n2 > 0;
    assert s2 <= 0 ==> s2 * n1 <= 0;
    Times(s1 as real, n1 as real);
    Times(s2 as real, n2 as real);
    assert (s1 * n2) as real == s1 as real * n2 as real && (s2 * n1) as real == s2 as real * n1 as real;
    var a, b, k1, k2 := Rate(s1, n1), Rate(s2, n2), n1 as real, n2 as real;
    assert (k1 * k2) * a == (k1 * k2) * b;
    StrictlyPositive(k1, k2, k1 * k2);
    Cancel(k1 * k2, a, b);
  }

  lemma SpreadShrinks(n1: real, n2: real)
    requires 0.0 < n1 < n2
    ensures Spread(n2) < Spread(n1)
  {
    Times(Z * Z, n1);
    Times(Z * Z, n2);
    var w1, w2 := Spread(n1), Spread(n2);
    StrictlyPositive(w2, n2 - n1, w2 * (n2 - n1));
    assert w1 * n1 == w2 * n2;
    DivideOrder(n1, w2, w1);
  }

  // ---- The blended score -----------------------------------------------------------------

  lemma BlendIsBetween(f: real, a: real, b: real)
    requires 0.0 <= f <= 1.0
    ensures Min(a, b) <= Blend(f, a, b) <= Max(a, b)
    ensures Blend(1.0, a, b) == a && Blend(0.0, a, b) == b
  {
    assert f * a + (1.0 - f) * b - b == f * (a - b);
    assert a - (f * a + (1.0 - f) * b) == (1.0 - f) * (a - b);
    if a >= b {
      Positive(f, a - b);
      Positive(1.0 - f, a - b);
    } else {
      Positive(f, b - a);
      Positive(1.0 - f, b - a);
    }
  }

  lemma FilledIsAFraction(c: Config, r: Record)
    requires c.Legal() && r.Counts()
    ensures 0.0 <= Filled(c, r) <= 1.0
    ensures Filled(c, r) == 1.0 <==> r.recentEligible >= c.recentScoreWindowBlocks
    ensures Filled(c, r) == 0.0 <==> r.recentEligible == 0
  {
    Share(r.recentEligible as real, c.recentScoreWindowBlocks as real);
  }

  lemma Share(k: real, n: real)
    requires 0.0 <= k && 0.0 < n
    ensures 0.0 <= k / n && (1.0 <= k / n <==> n <= k) && (k / n == 0.0 <==> k == 0.0)
  {
    Times(k, n);
    ShareIs(k, n, k / n);
  }

  lemma ShareIs(k: real, n: real, q: real)
    requires 0.0 <= k && 0.0 < n && q * n == k
    ensures 0.0 <= q && (1.0 <= q <==> n <= k) && (q == 0.0 <==> k == 0.0)
  {
    SignOfProduct(q, n, k);
    SignOfProduct(q - 1.0, n, k - n);
  }

  lemma SignOfProduct(a: real, n: real, product: real)
    requires 0.0 < n && a * n == product
    ensures (0.0 < a <==> 0.0 < product) && (0.0 == a <==> 0.0 == product)
  {
    if 0.0 < a { StrictlyPositive(a, n, a * n); }
    if a < 0.0 { StrictlyPositive(0.0 - a, n, (0.0 - a) * n); }
  }

  lemma BoundsOf(sqrt: real -> real, s: int, n: int)
    requires IsSqrt(sqrt) && 0 <= s <= n
    ensures 0.0 <= WilsonLowerBound(sqrt, s, n) < 100.0
    ensures WilsonLowerBound(sqrt, s, n) == 0.0 <==> s == 0
  {
    if n > 0 { WilsonBounds(sqrt, s, n); }
  }

  // No record, no score; otherwise the score lies between what the recent window
  // says and what the lifetime says, and a full window decides alone.
  lemma ScoreIsABlend(c: Config, sqrt: real -> real, r: Record)
    requires c.Legal() && IsSqrt(sqrt) && r.Counts()
    ensures PeerScore(c, sqrt, r).None? <==> r.eligible == 0
    ensures r.eligible > 0 ==>
      var recent, lifetime := WilsonLowerBound(sqrt, r.recentFirst, r.recentEligible), WilsonLowerBound(sqrt, r.first, r.eligible);
      && Min(recent, lifetime) <= PeerScore(c, sqrt, r).value <= Max(recent, lifetime)
      && 0.0 <= PeerScore(c, sqrt, r).value < 100.0
      && (r.recentEligible >= c.recentScoreWindowBlocks ==> PeerScore(c, sqrt, r).value == recent)
      && (r.recentEligible == 0 ==> PeerScore(c, sqrt, r).value == lifetime)
  {
    FilledIsAFraction(c, r);
    BoundsOf(sqrt, r.recentFirst, r.recentEligible);
    BoundsOf(sqrt, r.first, r.eligible);
    var recent, lifetime := WilsonLowerBound(sqrt, r.recentFirst, r.recentEligible), WilsonLowerBound(sqrt, r.first, r.eligible);
    BlendIsBetween(Filled(c, r), recent, lifetime);
  }

  // A peer scores nothing exactly when nothing that is looked at counts for it:
  // a full window of silence wipes out any lifetime record.
  lemma ScoreIsZeroIff(c: Config, sqrt: real -> real, r: Record)
    requires c.Legal() && IsSqrt(sqrt) && r.Counts() && r.eligible > 0
    ensures PeerScore(c, sqrt, r).value == 0.0
       <==> r.recentFirst == 0 && (r.first == 0 || r.recentEligible >= c.recentScoreWindowBlocks)
  {
    FilledIsAFraction(c, r);
    BoundsOf(sqrt, r.recentFirst, r.recentEligible);
    BoundsOf(sqrt, r.first, r.eligible);
    var f, a, b := Filled(c, r), WilsonLowerBound(sqrt, r.recentFirst, r.recentEligible), WilsonLowerBound(sqrt, r.first, r.eligible);
    BlendIsZeroIff(f, a, b);
  }

  lemma BlendIsZeroIff(f: real, a: real, b: real)
    requires 0.0 <= f <= 1.0 && 0.0 <= a && 0.0 <= b
    ensures Blend(f, a, b) == 0.0 <==> (f == 0.0 || a == 0.0) && (f == 1.0 || b == 0.0)
  {
    var g := 1.0 - f;
    Positive(f, a);
    Positive(g, b);
    if 0.0 < f && 0.0 < a { StrictlyPositive(f, a, f * a); }
    if 0.0 < g && 0.0 < b { StrictlyPositive(g, b, g * b); }
  }

  // One more block delivered first never lowers a score, wherever it is counted,
  // and raises it wherever that count still weighs anything.
  lemma DeliveriesRaiseTheScore(c: Config, sqrt: real -> real, r: Record, s: Record)
    requires c.Legal() && IsSqrt(sqrt) && r.Counts() && s.Counts() && r.eligible > 0
    requires s.eligible == r.eligible && s.recentEligible == r.recentEligible
    requires r.first <= s.first && r.recentFirst <= s.recentFirst
    ensures PeerScore(c, sqrt, r).value <= PeerScore(c, sqrt, s).value
    ensures PeerScore(c, sqrt, r).value < PeerScore(c, sqrt, s).value
       <==> r.recentFirst < s.recentFirst || (r.first < s.first && r.recentEligible < c.recentScoreWindowBlocks)
  {
    FilledIsAFraction(c, r);
    var f := Filled(c, r);
    var a, b := WilsonLowerBound(sqrt, r.recentFirst, r.recentEligible), WilsonLowerBound(sqrt, r.first, r.eligible);
    var x, y := WilsonLowerBound(sqrt, s.recentFirst, r.recentEligible), WilsonLowerBound(sqrt, s.first, r.eligible);
    if r.recentFirst < s.recentFirst { MoreSuccessesRankHigher(sqrt, r.recentFirst, s.recentFirst, r.recentEligible); }
    if r.first < s.first { MoreSuccessesRankHigher(sqrt, r.first, s.first, r.eligible); }
    BlendOrder(f, a, b, x, y);
  }

  lemma BlendOrder(f: real, a: real, b: real, x: real, y: real)
    requires 0.0 <= f <= 1.0 && a <= x && b <= y
    ensures Blend(f, a, b) <= Blend(f, x, y)
    ensures Blend(f, a, b) < Blend(f, x, y) <==> (f > 0.0 && a < x) || (f < 1.0 && b < y)
  {
    var g := 1.0 - f;
    assert Blend(f, x, y) - Blend(f, a, b) == f * (x - a) + g * (y - b);
    Positive(f, x - a);
    Positive(g, y - b);
    if f > 0.0 && a < x { StrictlyPositive(f, x - a, f * (x - a)); }
    if g > 0.0 && b < y { StrictlyPositive(g, y - b, g * (y - b)); }
  }

  // Short of a full window the recent record weighs as many parts as it has
  // blocks, and the lifetime record the parts that are missing.
  ghost predicate WeighedMean(score: real, n: real, window: real, recent: real, lifetime: real) {
    window * score == n * recent + (window - n) * lifetime
  }

  lemma ScoreWeighs(c: Config, sqrt: real -> real, r: Record, recent: real, lifetime: real)
    requires c.Legal() && r.Counts() && r.eligible > 0 && r.recentEligible <= c.recentScoreWindowBlocks
    requires recent == WilsonLowerBound(sqrt, r.recentFirst, r.recentEligible)
    requires lifetime == WilsonLowerBound(sqrt, r.first, r.eligible)
    ensures PeerScore(c, sqrt, r).Some?
    ensures WeighedMean(PeerScore(c, sqrt, r).value, r.recentEligible as real, c.recentScoreWindowBlocks as real, recent, lifetime)
  {
    FilledIsTheShare(c, r);
    Weighed(c.recentScoreWindowBlocks as real, r.recentEligible as real, Filled(c, r), recent, lifetime);
    ScoreIsBlended(c, sqrt, r, recent, lifetime);
  }

  lemma ScoreIsBlended(c: Config, sqrt: real -> real, r: Record, recent: real, lifetime: real)
    requires c.Legal() && r.eligible > 0
    requires recent == WilsonLowerBound(sqrt, r.recentFirst, r.recentEligible)
    requires lifetime == WilsonLowerBound(sqrt, r.first, r.eligible)
    ensures PeerScore(c, sqrt, r) == Some(Blend(Filled(c, r), recent, lifetime))
  {
  }

  lemma FilledIsTheShare(c: Config, r: Record)
    requires c.Legal() && r.Counts() && r.recentEligible <= c.recentScoreWindowBlocks
    ensures Filled(c, r) * c.recentScoreWindowBlocks as real == r.recentEligible as real
  {
    var n, window := r.recentEligible as real, c.recentScoreWindowBlocks as real;
    Times(n, window);
    NotOverOne(n, window, n / window);
  }

  lemma NotOverOne(n: real, window: real, q: real)
    requires 0.0 <= n <= window && window > 0.0 && q * window == n
    ensures q <= 1.0
  {
    ShareIs(n, window, q);
  }

  lemma Weighed(window: real, n: real, f: real, a: real, b: real)
    requires f * window == n
    ensures WeighedMean(Blend(f, a, b), n, window, a, b)
  {
    assert window * (f * a) == (f * window) * a;
    assert window * ((1.0 - f) * b) == (window - f * window) * b;
  }
}
