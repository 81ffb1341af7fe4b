/**
 The Carrier Score formula: observed shares are smoothed toward a prior,
 weighted, and rounded to 0..100 points.
 */
module CarrierScore {
  import opened Options
  import opened Rounding

  datatype Confidence = Insufficient | Low | Medium | High
  datatype Basis = NoData | Own | Platform | Mixed

  /** Observed shares; `None` is "not observed", which is not zero. */
  datatype Components = Components(
    onTime: Option<real>,
    reliability: Option<real>,
    incidentFree: Option<real>,
    priceIndex: Option<real>,
    dataQuality: Option<real>)

  datatype Prior = Prior(onTime: real, reliability: real, incidentFree: real, priceIndex: real, dataQuality: real)

  datatype ScoreResult = ScoreResult(score: Option<int>, confidence: Confidence, basis: Basis)

  const NEUTRAL := Prior(0.5, 0.5, 0.5, 0.5, 0.5)
  const PRIOR_WEIGHT := 20
  const MIN_SAMPLE := 10

  function Smooth(observed: Option<real>, prior: real, sampleSize: int): real {
    if observed.None? || sampleSize <= 0 then prior
    else
      (observed.value * sampleSize as real + prior * PRIOR_WEIGHT as real)
      / (sampleSize + PRIOR_WEIGHT) as real
  }

  function ConfidenceFor(sampleSize: int, hasBaseline: bool): Confidence {
    if sampleSize >= 100 then High
    else if sampleSize >= 30 then Medium
    else if sampleSize >= 10 then Low
    else if hasBaseline then Low
    else Insufficient
  }

  function BasisFor(sampleSize: int, hasBaseline: bool): Basis {
    if !hasBaseline then (if sampleSize >= MIN_SAMPLE then Own else NoData)
    else (if sampleSize >= MIN_SAMPLE then Mixed else Platform)
  }

  function Weighted(v: Prior): real {
    0.35 * v.onTime + 0.20 * v.reliability + 0.20 * v.incidentFree
    + 0.15 * v.priceIndex + 0.10 * v.dataQuality
  }

  function Smoothed(c: Components, base: Prior, sampleSize: int): Prior {
    Prior(
      Smooth(c.onTime, base.onTime, sampleSize),
      Smooth(c.reliability, base.reliability, sampleSize),
      Smooth(c.incidentFree, base.incidentFree, sampleSize),
      Smooth(c.priceIndex, base.priceIndex, sampleSize),
      Smooth(c.dataQuality, base.dataQuality, sampleSize))
  }

  /** The rounded points before they are clamped to the scale. */
  function Points(c: Components, base: Prior, sampleSize: int): int {
    HalfUp(100.0 * Weighted(Smoothed(c, base, sampleSize)))
  }

  function Clamp(points: int): int {
    if points < 0 then 0 else if points > 100 then 100 else points
  }

  function ScoreFrom(c: Components, sampleSize: int, prior: Option<Prior>): ScoreResult {
    var confidence := ConfidenceFor(sampleSize, prior.Some?);
    var basis := BasisFor(sampleSize, prior.Some?);
    if basis == NoData then ScoreResult(None, Insufficient, basis)
    else ScoreResult(Some(Clamp(Points(c, prior.GetOr(NEUTRAL), sampleSize))), confidence, basis)
  }

  // ----- a number is given exactly when there is something to base it on -----

  /** A missing number, "insufficient" and "no basis" always come together, and mean: under ten own shipments and no baseline. */
  lemma NoNumberMeansInsufficient(c: Components, sampleSize: int, prior: Option<Prior>)
    ensures var r := ScoreFrom(c, sampleSize, prior);
            && (r.score.None? <==> r.confidence == Insufficient)
            && (r.score.None? <==> r.basis == NoData)
            && (r.score.None? <==> prior.None? && sampleSize < 10)
  {
  }

  // ----- the effect of the sample size -----

  /** The share of the own observations in the smoothed value: one fifth at 5, five sixths at 100. */
  function OwnWeight(sampleSize: nat): real {
    sampleSize as real / (sampleSize + 20) as real
  }

  lemma SmoothIsBlend(observed: Option<real>, prior: real, n: nat)
    ensures Smooth(observed, prior, n) == Blend(prior, observed.GetOr(prior), OwnWeight(n))
  {
    if observed.Some? {
      var o, x, d := observed.value, n as real, (n + 20) as real;
      assert d == x + 20.0;
      assert o * x + prior * 20.0 == prior * d + (o - prior) * x;
      DivideSum(prior * d, (o - prior) * x, d);
      assert prior * d / d == prior;
      assert (o - prior) * x / d == (o - prior) * (x / d);
    }
  }

  lemma DivideSum(a: real, b: real, d: real)
    requires d > 0.0
    ensures (a + b) / d == a / d + b / d
  {
  }

  function Abs(x: real): real {
    if x < 0.0 then -x else x
  }

  /** The distance that is left to the observed share after n shipments is exactly 20/(n+20) of the initial one. */
  lemma SmoothedDistance(observed: real, prior: real, n: nat)
    ensures Abs(Smooth(Some(observed), prior, n) - observed)
         == Abs(prior - observed) * 20.0 / (n + 20) as real
  {
    var d := (n + 20) as real;
    var w := OwnWeight(n);
    SmoothIsBlend(Some(observed), prior, n);
    assert (1.0 - w) * d == 20.0 by {
      assert w * d == n as real;
      assert (1.0 - w) * d == d - w * d;
    }
    var left := 20.0 / d;
    assert 1.0 - w == left;
    assert Smooth(Some(observed), prior, n) - observed == (prior - observed) * left;
    assert left > 0.0;
    AbsScale(prior - observed, left);
    assert Abs(prior - observed) * 20.0 / d == Abs(prior - observed) * left;
  }

  lemma AbsScale(x: real, k: real)
    requires k > 0.0
    ensures Abs(x * k) == Abs(x) * k
  {
  }

  /** What the weighted sum tends to: the observed share where there is one, the prior elsewhere. */
  function Target(c: Components, base: Prior): Prior {
    Prior(
      c.onTime.GetOr(base.onTime),
      c.reliability.GetOr(base.reliability),
      c.incidentFree.GetOr(base.incidentFree),
      c.priceIndex.GetOr(base.priceIndex),
      c.dataQuality.GetOr(base.dataQuality))
  }

  function Blend(prior: real, target: real, w: real): real {
    prior + (target - prior) * w
  }

  /** The whole weighted sum is one blend: the sample size enters only through `OwnWeight`. */
  lemma WeightedIsBlend(c: Components, base: Prior, n: nat)
    ensures Weighted(Smoothed(c, base, n)) == Blend(Weighted(base), Weighted(Target(c, base)), OwnWeight(n))
  {
    SmoothIsBlend(c.onTime, base.onTime, n);
    SmoothIsBlend(c.reliability, base.reliability, n);
    SmoothIsBlend(c.incidentFree, base.incidentFree, n);
    SmoothIsBlend(c.priceIndex, base.priceIndex, n);
    SmoothIsBlend(c.dataQuality, base.dataQuality, n);
    WeightedOfBlends(base, Target(c, base), Smoothed(c, base, n), OwnWeight(n));
  }

  lemma WeightedOfBlends(base: Prior, t: Prior, s: Prior, w: real)
    requires s.onTime == Blend(base.onTime, t.onTime, w)
    requires s.reliability == Blend(base.reliability, t.reliability, w)
    requires s.incidentFree == Blend(base.incidentFree, t.incidentFree, w)
    requires s.priceIndex == Blend(base.priceIndex, t.priceIndex, w)
    requires s.dataQuality == Blend(base.dataQuality, t.dataQuality, w)
    ensures Weighted(s) == Blend(Weighted(base), Weighted(t), w)
  {
    var a, b, c, d, e := t.onTime - base.onTime, t.reliability - base.reliability,
      t.incidentFree - base.incidentFree, t.priceIndex - base.priceIndex, t.dataQuality - base.dataQuality;
    DistributeWeights(a, b, c, d, e, w);
  }

  lemma DistributeWeights(a: real, b: real, c: real, d: real, e: real, w: real)
    ensures 0.35 * (a * w) + 0.20 * (b * w) + 0.20 * (c * w) + 0.15 * (d * w) + 0.10 * (e * w)
         == (0.35 * a + 0.20 * b + 0.20 * c + 0.15 * d + 0.10 * e) * w
  {
  }

  lemma BlendInUnit(p: real, t: real, w: real)
    requires 0.0 <= p <= 1.0 && 0.0 <= t <= 1.0 && 0.0 <= w <= 1.0
    ensures 0.0 <= Blend(p, t, w) <= 1.0
  {
    var moved := Scaled(t - p, w);
    Between(p, t, moved);
  }

  /** A share of a gap, as a number of its own. */
  lemma Scaled(gap: real, w: real) returns (moved: real)
    requires 0.0 <= w <= 1.0
    ensures moved == gap * w
    ensures (gap >= 0.0 ==> 0.0 <= moved <= gap) && (gap <= 0.0 ==> gap <= moved <= 0.0)
  {
    if gap >= 0.0 {
      moved := Share(gap, w);
    } else {
      var opposite := Share(-gap, w);
      assert (-gap) * w == -(gap * w);
      moved := -opposite;
    }
  }

  lemma Share(x: real, w: real) returns (part: real)
    requires x >= 0.0 && 0.0 <= w <= 1.0
    ensures part == x * w && 0.0 <= part <= x
  {
    part := x * w;
    var rest := x * (1.0 - w);
    assert x == part + rest;
  }

  lemma Between(p: real, t: real, moved: real)
    requires 0.0 <= p <= 1.0 && 0.0 <= t <= 1.0
    requires (t - p >= 0.0 ==> 0.0 <= moved <= t - p) && (t - p <= 0.0 ==> t - p <= moved <= 0.0)
    ensures 0.0 <= p + moved <= 1.0
  {
  }

  lemma BlendMonotone(p: real, t: real, u: real, v: real)
    requires u <= v
    ensures p <= t ==> Blend(p, t, u) <= Blend(p, t, v)
    ensures p >= t ==> Blend(p, t, u) >= Blend(p, t, v)
  {
    ScaleMonotone(t - p, u, v);
  }

  lemma BlendStep(p: real, t: real, u: real, v: real)
    requires 0.0 <= p <= 1.0 && 0.0 <= t <= 1.0 && u <= v
    ensures u - v <= Blend(p, t, v) - Blend(p, t, u) <= v - u
  {
    var gap, step := t - p, v - u;
    var a, b, moved := gap * u, gap * v, gap * step;
    ScaleSymmetric(gap, step);
    DistributeStep(gap, u, v);
    assert b - a == moved;
    assert Blend(p, t, v) == p + b;
    assert Blend(p, t, u) == p + a;
  }

  lemma DistributeStep(x: real, u: real, v: real)
    ensures x * v - x * u == x * (v - u)
  {
  }

  /** A weighted sum of shares is a share: the weights add up to one. */
  lemma WeightedInUnit(v: Prior)
    requires InUnit(v)
    ensures 0.0 <= Weighted(v) <= 1.0
  {
  }

  ghost predicate InUnit(v: Prior) {
    && 0.0 <= v.onTime <= 1.0 && 0.0 <= v.reliability <= 1.0 && 0.0 <= v.incidentFree <= 1.0
    && 0.0 <= v.priceIndex <= 1.0 && 0.0 <= v.dataQuality <= 1.0
  }

  lemma OwnWeightUnit(n: nat)
    ensures 0.0 <= OwnWeight(n) <= 1.0
  {
    var d := (n + 20) as real;
    assert OwnWeight(n) * d == n as real;
  }

  /** Shares in [0, 1] give points in 0..100 before the clamp, so the clamp never acts. */
  lemma ClampNeverActs(c: Components, base: Prior, n: nat)
    requires InUnit(base) && InUnit(Target(c, base))
    ensures 0 <= Points(c, base, n) <= 100
    ensures ScoreFrom(c, n, Some(base)).score == Some(Points(c, base, n))
  {
    WeightedIsBlend(c, base, n);
    OwnWeightUnit(n);
    WeightedInUnit(base);
    WeightedInUnit(Target(c, base));
    BlendInUnit(Weighted(base), Weighted(Target(c, base)), OwnWeight(n));
    HalfUpMonotone(0.0, 100.0 * Weighted(Smoothed(c, base, n)));
    HalfUpMonotone(100.0 * Weighted(Smoothed(c, base, n)), 100.0);
    HalfUpOfInteger(0);
    HalfUpOfInteger(100);
  }

  /** Before the first own shipment the score is the score of the baseline itself. */
  lemma NoShipmentsGiveThePrior(c: Components, base: Prior)
    requires InUnit(base)
    ensures ScoreFrom(c, 0, Some(base)).score == Some(HalfUp(100.0 * Weighted(base)))
  {
    assert Smoothed(c, base, 0) == base;
    HalfUpMonotone(0.0, 100.0 * Weighted(base));
    HalfUpMonotone(100.0 * Weighted(base), 100.0);
    HalfUpOfInteger(0);
    HalfUpOfInteger(100);
  }

  lemma OwnWeightStep(n: nat)
    ensures OwnWeight(n + 1) - OwnWeight(n) == 20.0 / ((n + 20) * (n + 21)) as real
    ensures 0.0 < 20.0 / ((n + 20) * (n + 21)) as real <= 1.0 / 21.0
  {
    var x := n as real;
    var a, b := x + 20.0, x + 21.0;
    var p := a * b;
    assert ((n + 20) * (n + 21)) as real == p;
    assert p >= 420.0;
    var u, v, q := x / a, (x + 1.0) / b, 20.0 / p;
    assert u * a == x && v * b == x + 1.0 && q * p == 20.0;
    assert u * p == x * b by { assert u * p == (u * a) * b; }
    assert v * p == (x + 1.0) * a by { assert v * p == (v * b) * a; }
    assert (x + 1.0) * a - x * b == 20.0;
    assert (v - u - q) * p == 0.0;
    assert v - u - q == 0.0;
    assert OwnWeight(n) == u && OwnWeight(n + 1) == v;
    assert q * 420.0 <= q * p;
  }

  /** Rounded values of numbers less than `k` apart differ by at most `k`. */
  lemma HalfUpContracts(x: real, y: real, k: nat)
    requires 0.0 <= x && 0.0 <= y
    requires x - y <= k as real && y - x <= k as real
    ensures HalfUp(x) - HalfUp(y) <= k && HalfUp(y) - HalfUp(x) <= k
  {
    assert (y + 0.5 + k as real).Floor == (y + 0.5).Floor + k;
    assert (x + 0.5 + k as real).Floor == (x + 0.5).Floor + k;
  }

  /** How far one more own shipment can move the points: never more than 2000/((n+20)(n+21)), rounded up. */
  lemma OneMoreShipment(c: Components, base: Prior, n: nat, k: nat)
    requires InUnit(base) && InUnit(Target(c, base))
    requires 2000 <= k * ((n + 20) * (n + 21))
    ensures var before, after := ScoreFrom(c, n, Some(base)), ScoreFrom(c, n + 1, Some(base));
            before.score.Some? && after.score.Some? && Abs((after.score.value - before.score.value) as real) <= k as real
  {
    ClampNeverActs(c, base, n);
    ClampNeverActs(c, base, n + 1);
    WeightedIsBlend(c, base, n);
    WeightedIsBlend(c, base, n + 1);
    OwnWeightStep(n);
    WeightedInUnit(base);
    WeightedInUnit(Target(c, base));
    BlendStep(Weighted(base), Weighted(Target(c, base)), OwnWeight(n), OwnWeight(n + 1));
    StepInPoints(n, k, OwnWeight(n + 1) - OwnWeight(n));
    OwnWeightUnit(n);
    OwnWeightUnit(n + 1);
    BlendInUnit(Weighted(base), Weighted(Target(c, base)), OwnWeight(n));
    BlendInUnit(Weighted(base), Weighted(Target(c, base)), OwnWeight(n + 1));
    var before, after := 100.0 * Weighted(Smoothed(c, base, n)), 100.0 * Weighted(Smoothed(c, base, n + 1));
    HalfUpContracts(after, before, k);
  }

  lemma ScaleSymmetric(x: real, s: real)
    requires -1.0 <= x <= 1.0 && s >= 0.0
    ensures -s <= x * s <= s
  {
  }

  lemma CompareScaled(x: real, y: real, d: real)
    requires d > 0.0
    ensures x * d <= y * d <==> x <= y
  {
  }

  lemma StepInPoints(n: nat, k: nat, step: real)
    requires step == 20.0 / ((n + 20) * (n + 21)) as real
    requires 2000 <= k * ((n + 20) * (n + 21))
    ensures 100.0 * step <= k as real
  {
    var p := ((n + 20) * (n + 21)) as real;
    assert p >= 420.0;
    assert step * p == 20.0;
    assert (k * ((n + 20) * (n + 21))) as real == k as real * p;
    CompareScaled(100.0 * step, k as real, p);
  }

  lemma ProductAtLeast(n: nat, k: nat)
    requires k <= n
    ensures (k + 20) * (k + 21) <= (n + 20) * (n + 21)
  {
    MulMonotone(k + 20, n + 20, k + 21, n + 21);
  }

  lemma MulMonotone(a: nat, b: nat, c: nat, d: nat)
    requires a <= b && c <= d
    ensures a * c <= b * d
  {
    assert a * c <= b * c;
    assert b * c <= b * d;
  }

  /** No jump anywhere, in particular not at the basis thresholds: one more shipment moves the score by at most 5 points. */
  lemma AtMostFivePoints(c: Components, base: Prior, n: nat)
    requires InUnit(base) && InUnit(Target(c, base))
    ensures var before, after := ScoreFrom(c, n, Some(base)), ScoreFrom(c, n + 1, Some(base));
            && before.score.Some? && after.score.Some?
            && Abs((after.score.value - before.score.value) as real) <= 5.0
            && (n >= 25 ==> Abs((after.score.value - before.score.value) as real) <= 1.0)
  {
    ProductAtLeast(n, 0);
    OneMoreShipment(c, base, n, 5);
    if n >= 25 {
      ProductAtLeast(n, 25);
      OneMoreShipment(c, base, n, 1);
    }
  }

  /** The bound of five points is reached. */
  lemma FivePointsAreReached()
    ensures exists c: Components, base: Prior ::
              && InUnit(base) && InUnit(Target(c, base)) && base.priceIndex == 0.5
              && ScoreFrom(c, 0, Some(base)).score == Some(8)
              && ScoreFrom(c, 1, Some(base)).score == Some(13)
  {
    var one := Some(1.0);
    var c, base := Components(one, one, one, one, one), Prior(0.0282, 0.0, 0.0, 0.5, 0.0);
    WeightedIsBlend(c, base, 0);
    WeightedIsBlend(c, base, 1);
    HalfUpIsTheNearestAwayFromZero(100.0 * Weighted(Smoothed(c, base, 0)), 8);
    HalfUpIsTheNearestAwayFromZero(100.0 * Weighted(Smoothed(c, base, 1)), 13);
    assert ScoreFrom(c, 0, Some(base)).score == Some(8);
    assert ScoreFrom(c, 1, Some(base)).score == Some(13);
  }

  /** With growing experience the score moves one way only: from the baseline toward what was observed. */
  lemma ScoreMovesTowardTheObserved(c: Components, base: Prior, n: nat, m: nat)
    requires n <= m
    ensures Weighted(base) <= Weighted(Target(c, base)) ==> Points(c, base, n) <= Points(c, base, m)
    ensures Weighted(base) >= Weighted(Target(c, base)) ==> Points(c, base, n) >= Points(c, base, m)
  {
    WeightedIsBlend(c, base, n);
    WeightedIsBlend(c, base, m);
    OwnWeightMonotone(n, m);
    BlendMonotone(Weighted(base), Weighted(Target(c, base)), OwnWeight(n), OwnWeight(m));
    var before, after := 100.0 * Weighted(Smoothed(c, base, n)), 100.0 * Weighted(Smoothed(c, base, m));
    if before <= after { HalfUpMonotone(before, after); }
    if after <= before { HalfUpMonotone(after, before); }
  }

  lemma OwnWeightMonotone(n: nat, m: nat)
    requires n <= m
    ensures OwnWeight(n) <= OwnWeight(m)
  {
    assert n * (m + 20) <= m * (n + 20);
    assert n as real * (m + 20) as real == (n * (m + 20)) as real;
    assert m as real * (n + 20) as real == (m * (n + 20)) as real;
    QuotientMonotone(n as real, (n + 20) as real, m as real, (m + 20) as real);
  }

  /** Fractions compare as their cross products do. */
  lemma QuotientMonotone(a: real, b: real, c: real, d: real)
    requires b > 0.0 && d > 0.0 && a * d <= c * b
    ensures a / b <= c / d
  {
    var u, v := a / b, c / d;
    assert u * b == a && v * d == c;
    var bd := b * d;
    assert u * bd == a * d by { assert u * bd == (u * b) * d; }
    assert v * bd == c * b by { assert v * bd == (v * d) * b; }
    CompareScaled(u, v, bd);
  }

  lemma ScaleMonotone(x: real, u: real, v: real)
    requires u <= v
    ensures x >= 0.0 ==> x * u <= x * v
    ensures x <= 0.0 ==> x * u >= x * v
  {
  }

  // ----- monotone in every component -----

  lemma BlendGrows(prior: real, s: real, t: real, w: real)
    requires s <= t && w >= 0.0
    ensures Blend(prior, s, w) <= Blend(prior, t, w)
  {
    var gap := t - s;
    assert (t - prior) * w - (s - prior) * w == gap * w;
    assert gap * w >= 0.0;
  }

  lemma SmoothMonotone(a: Option<real>, b: Option<real>, prior: real, n: int)
    requires a.GetOr(prior) <= b.GetOr(prior)
    ensures Smooth(a, prior, n) <= Smooth(b, prior, n)
  {
    if n > 0 {
      SmoothIsBlend(a, prior, n);
      SmoothIsBlend(b, prior, n);
      OwnWeightUnit(n);
      BlendGrows(prior, a.GetOr(prior), b.GetOr(prior), OwnWeight(n));
    }
  }

  /** Component by component no worse gives a score that is no worse. */
  lemma ScoreMonotone(a: Components, b: Components, prior: Option<Prior>, n: int)
    requires var base := prior.GetOr(NEUTRAL); var s, t := Target(a, base), Target(b, base);
             && s.onTime <= t.onTime && s.reliability <= t.reliability && s.incidentFree <= t.incidentFree
             && s.priceIndex <= t.priceIndex && s.dataQuality <= t.dataQuality
    ensures var r, s := ScoreFrom(a, n, prior), ScoreFrom(b, n, prior);
            && r.confidence == s.confidence && r.basis == s.basis
            && (r.score.Some? <==> s.score.Some?)
            && (r.score.Some? ==> r.score.value <= s.score.value)
  {
    var base := prior.GetOr(NEUTRAL);
    SmoothMonotone(a.onTime, b.onTime, base.onTime, n);
    SmoothMonotone(a.reliability, b.reliability, base.reliability, n);
    SmoothMonotone(a.incidentFree, b.incidentFree, base.incidentFree, n);
    SmoothMonotone(a.priceIndex, b.priceIndex, base.priceIndex, n);
    SmoothMonotone(a.dataQuality, b.dataQuality, base.dataQuality, n);
    HalfUpMonotone(100.0 * Weighted(Smoothed(a, base, n)), 100.0 * Weighted(Smoothed(b, base, n)));
  }

  // ----- one integer division -----

  /**
   With shares stored as whole ten-thousandths the whole decimal computation is one rounded division of
   integers: every component keeps its own weight, and nothing is lost on the way.
   */
  lemma PointsAreOneDivision(c: Components, base: Prior, n: nat,
    onTime: int, reliability: int, incidentFree: int, priceIndex: int, dataQuality: int, weightedPrior: int)
    requires var t := Target(c, base);
             && t.onTime == onTime as real / 10000.0 && t.reliability == reliability as real / 10000.0
             && t.incidentFree == incidentFree as real / 10000.0 && t.priceIndex == priceIndex as real / 10000.0
             && t.dataQuality == dataQuality as real / 10000.0
    requires 100.0 * Weighted(base) == weightedPrior as real / 10000.0
    requires 0 <= onTime && 0 <= reliability && 0 <= incidentFree && 0 <= priceIndex && 0 <= dataQuality && 0 <= weightedPrior
    ensures var own := 35 * onTime + 20 * reliability + 20 * incidentFree + 15 * priceIndex + 10 * dataQuality;
            Points(c, base, n) == (2 * (own * n + weightedPrior * 20) + 10000 * (n + 20)) / (20000 * (n + 20))
  {
    var own := 35 * onTime + 20 * reliability + 20 * incidentFree + 15 * priceIndex + 10 * dataQuality;
    WeightedIsBlend(c, base, n);
    assert 100.0 * Weighted(Target(c, base)) == own as real / 10000.0;
    var w := OwnWeight(n);
    assert w * (n + 20) as real == n as real;
    ProductNonNegative(own, n);
    BlendOfFractions(Weighted(base), Weighted(Target(c, base)), w, weightedPrior, own, n);
    HalfUpOfQuotient(100.0 * Blend(Weighted(base), Weighted(Target(c, base)), w), own * n + weightedPrior * 20, 10000 * (n + 20));
  }

  lemma ProductNonNegative(a: nat, b: nat)
    ensures 0 <= a * b
  {
  }

  lemma BlendOfFractions(p: real, t: real, w: real, prior: nat, own: nat, n: nat)
    requires 100.0 * p == prior as real / 10000.0 && 100.0 * t == own as real / 10000.0
    requires w * (n + 20) as real == n as real
    ensures 100.0 * Blend(p, t, w) * (10000 * (n + 20)) as real == (own * n + prior * 20) as real
  {
    var d, x, P, T := (n + 20) as real, n as real, prior as real, own as real;
    var gap := t - p;
    assert 1000000.0 * gap == T - P;
    assert gap * w * d == gap * x by { assert gap * w * d == gap * (w * d); }
    assert Blend(p, t, w) * d == p * d + gap * x by { assert Blend(p, t, w) * d == p * d + gap * w * d; }
    assert 1000000.0 * (gap * x) == T * x - P * x by { assert 1000000.0 * (gap * x) == (1000000.0 * gap) * x; }
    assert 1000000.0 * (p * d) == P * x + P * 20.0 by { assert 1000000.0 * (p * d) == (1000000.0 * p) * d; }
    assert 1000000.0 * (Blend(p, t, w) * d) == T * x + P * 20.0;
    assert T * x == (own * n) as real;
  }

  lemma HalfUpOfQuotient(x: real, s: nat, d: int)
    requires d > 0 && x * d as real == s as real
    ensures HalfUp(x) == (2 * s + d) / (2 * d)
  {
    var q, r := (2 * s + d) / (2 * d), (2 * s + d) % (2 * d);
    assert 2 * s + d == 2 * d * q + r;
    var D, Q, R := d as real, q as real, r as real;
    assert (d * q) as real == D * Q;
    assert 2.0 * s as real + D == 2.0 * (D * Q) + R;
    var y := x + 0.5 - Q;
    assert y * D == x * D + 0.5 * D - Q * D;
    assert 2.0 * (y * D) == R;
    NonNegativeQuotient(x, D, s as real);
    UnitQuotient(y, D, R);
  }

  lemma NonNegativeQuotient(x: real, d: real, s: real)
    requires d > 0.0 && s >= 0.0 && x * d == s
    ensures x >= 0.0
  {
  }

  lemma UnitQuotient(y: real, d: real, r: real)
    requires d > 0.0 && 2.0 * (y * d) == r && 0.0 <= r < 2.0 * d
    ensures 0.0 <= y < 1.0
  {
    CompareScaled(0.0, y, d);
    CompareScaled(1.0, y, d);
  }
}
