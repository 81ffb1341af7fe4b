/**
 From raw counters to the shares of the formula, and what the score does when a counter changes.
 The market median is taken over all carriers of the period, so a carrier's own cost moves it too.
 */
module ScoreInputs {
  import opened Options
  import opened Rounding
  import opened Sorting
  import opened CarrierScore

  type CarrierId = nat

  /** Counters of one carrier over the finished shipments of a period. */
  datatype Observations = Observations(
    carrier: CarrierId,
    finalized: int,
    withDeadline: int,
    onTime: int,
    broken: int,
    withIncident: int,
    transparent: int,
    medianCost: Option<int>)

  /** Every part is at most its whole: what the grouped query guarantees. */
  ghost predicate Consistent(o: Observations) {
    && 0 <= o.onTime <= o.withDeadline <= o.finalized
    && 0 <= o.broken <= o.finalized && 0 <= o.withIncident <= o.finalized && 0 <= o.transparent <= o.finalized
  }

  function Rate(part: int, whole: int): Option<real> {
    if whole <= 0 then None else Some(Quantize4(part as real / whole as real))
  }

  /** The share of "it did not happen". */
  function Inverse(part: int, whole: int): Option<real> {
    var rate := Rate(part, whole);
    if rate.None? then None else Some(1.0 - rate.value)
  }

  function Clip(x: real): real {
    if x < 0.0 then 0.0 else if x > 1.0 then 1.0 else x
  }

  function PriceIndex(medianCost: Option<int>, market: Option<int>): Option<real> {
    if medianCost.None? || market.None? || market.value == 0 then None
    else
      var shift := (market.value - medianCost.value) as real / (2.0 * market.value as real);
      Some(Quantize4(Clip(0.5 + shift)))
  }

  function CostOf(o: Observations): seq<int> {
    if o.medianCost.Some? then [o.medianCost.value] else []
  }

  function Costs(rows: seq<Observations>): seq<int> {
    if rows == [] then [] else CostOf(rows[0]) + Costs(rows[1..])
  }

  function MarketMedian(rows: seq<Observations>): (m: Option<int>)
    ensures m.Some? <==> Costs(rows) != []
  {
    var costs := Costs(rows);
    SortedPermutes(costs, IntLe);
    if costs == [] then None else Some(Sorted(costs, IntLe)[|costs| / 2])
  }

  function ComponentsOf(o: Observations, market: Option<int>): Components {
    Components(
      Rate(o.onTime, o.withDeadline),
      if o.finalized <= 0 then None else Some(1.0 - Rate(o.broken, o.finalized).GetOr(0.0)),
      if o.finalized <= 0 then None else Some(1.0 - Rate(o.withIncident, o.finalized).GetOr(0.0)),
      PriceIndex(o.medianCost, market),
      Rate(o.transparent, o.finalized))
  }

  function ScoreOf(o: Observations, market: Option<int>, prior: Option<Prior>): ScoreResult {
    ScoreFrom(ComponentsOf(o, market), o.finalized, prior)
  }

  // ----- rates -----

  /** Rates compare as the fractions do, also between different wholes. */
  lemma RateMonotone(a: int, m: int, b: int, n: int)
    requires m > 0 && n > 0 && a * n <= b * m
    ensures Rate(a, m).value <= Rate(b, n).value
  {
    assert a as real * n as real == (a * n) as real;
    assert b as real * m as real == (b * m) as real;
    QuotientMonotone(a as real, m as real, b as real, n as real);
    Quantize4Monotone(a as real / m as real, b as real / n as real);
  }

  lemma RateInUnit(part: int, whole: int)
    requires 0 <= part <= whole
    ensures Rate(part, whole).Some? ==> 0.0 <= Rate(part, whole).value <= 1.0
  {
    if whole > 0 {
      var x, w := part as real / whole as real, whole as real;
      assert x * w == part as real;
      CompareScaled(0.0, x, w);
      CompareScaled(x, 1.0, w);
      Quantize4Unit(x);
    }
  }

  /** "One minus the share of broken ones" is exactly the rounded share of the unbroken ones. */
  lemma InverseIsRateOfRest(part: int, whole: int)
    ensures Inverse(part, whole) == Rate(whole - part, whole)
  {
    if whole > 0 {
      ComplementQuotient(part as real, whole as real);
      assert (whole - part) as real == whole as real - part as real;
      Quantize4Complement(part as real / whole as real);
    }
  }

  lemma ComplementQuotient(p: real, w: real)
    requires w > 0.0
    ensures 1.0 - p / w == (w - p) / w
  {
    var x, rest := p / w, (w - p) / w;
    assert x * w == p && rest * w == w - p;
    var sum := x + rest;
    assert sum * w == x * w + rest * w;
    CompareScaled(sum, 1.0, w);
    CompareScaled(1.0, sum, w);
  }

  // ----- range -----

  lemma ComponentsInUnit(o: Observations, market: Option<int>, base: Prior)
    requires Consistent(o) && InUnit(base)
    ensures InUnit(Target(ComponentsOf(o, market), base))
  {
    RateInUnit(o.onTime, o.withDeadline);
    RateInUnit(o.broken, o.finalized);
    RateInUnit(o.withIncident, o.finalized);
    RateInUnit(o.transparent, o.finalized);
    if o.medianCost.Some? && market.Some? && market.value != 0 {
      Quantize4Unit(Clip(0.5 + (market.value - o.medianCost.value) as real / (2.0 * market.value as real)));
    }
  }

  /** For consistent counters and a prior in [0, 1] the rounded points are on the 0..100 scale by themselves. */
  lemma ScoreNeedsNoClamp(o: Observations, market: Option<int>, prior: Option<Prior>)
    requires Consistent(o) && InUnit(prior.GetOr(NEUTRAL))
    requires ScoreOf(o, market, prior).score.Some?
    ensures var base := prior.GetOr(NEUTRAL);
            var points := HalfUp(100.0 * Weighted(Smoothed(ComponentsOf(o, market), base, o.finalized)));
            0 <= points <= 100 && ScoreOf(o, market, prior).score == Some(points)
  {
    ComponentsInUnit(o, market, prior.GetOr(NEUTRAL));
    ClampNeverActs(ComponentsOf(o, market), prior.GetOr(NEUTRAL), o.finalized);
  }

  // ----- monotone in the counters -----

  lemma PriceIndexMonotone(c: int, m: int, c': int, m': int)
    requires m > 0 && m' > 0 && c * m' <= c' * m
    ensures PriceIndex(Some(c'), Some(m')).value <= PriceIndex(Some(c), Some(m)).value
  {
    assert c as real * m' as real == (c * m') as real && c' as real * m as real == (c' * m) as real;
    ShiftMonotone(c as real, m as real, c' as real, m' as real);
    var x, x' := (m - c) as real / (2.0 * m as real), (m' - c') as real / (2.0 * m' as real);
    Quantize4Monotone(Clip(0.5 + x'), Clip(0.5 + x));
  }

  lemma ShiftMonotone(c: real, m: real, c': real, m': real)
    requires m > 0.0 && m' > 0.0 && c * m' <= c' * m
    ensures (m' - c') / (2.0 * m') <= (m - c) / (2.0 * m)
  {
    var p, q, r := m' * m, c' * m, c * m';
    assert (m' - c') * (2.0 * m) == 2.0 * p - 2.0 * q;
    assert (m - c) * (2.0 * m') == 2.0 * p - 2.0 * r;
    QuotientMonotone(m' - c', 2.0 * m', m - c, 2.0 * m);
  }

  lemma MulMonotoneRight(a: int, b: int, n: int)
    requires a <= b && n >= 0
    ensures a * n <= b * n
  {
  }

  lemma RateGrows(a: int, b: int, whole: int)
    requires a <= b
    ensures Rate(a, whole).Some? ==> Rate(a, whole).value <= Rate(b, whole).value
  {
    if whole > 0 {
      MulMonotoneRight(a, b, whole);
      RateMonotone(a, whole, b, whole);
    }
  }

  /** At least as good in every counter, for the same numbers of shipments and the same market. */
  ghost predicate NoWorse(a: Observations, b: Observations) {
    && a.finalized == b.finalized && a.withDeadline == b.withDeadline
    && a.onTime <= b.onTime && a.transparent <= b.transparent
    && a.broken >= b.broken && a.withIncident >= b.withIncident
    && (a.medianCost.Some? <==> b.medianCost.Some?)
    && (a.medianCost.Some? ==> a.medianCost.value >= b.medianCost.value)
  }

  ghost predicate ScoreNoLower(r: ScoreResult, s: ScoreResult) {
    && r.confidence == s.confidence && r.basis == s.basis && (r.score.Some? <==> s.score.Some?)
    && (r.score.Some? ==> r.score.value <= s.score.value)
  }

  /**
   The whole pipeline - rate rounding, smoothing, weighting, final rounding, clamp - never rewards a worse
   counter: more deliveries on time or well tracked never lower the score, more broken or incident ones,
   or a higher median cost, never raise it.
   */
  lemma PipelineMonotone(a: Observations, b: Observations, market: Option<int>, prior: Option<Prior>)
    requires NoWorse(a, b)
    requires market.Some? ==> market.value >= 0
    ensures ScoreNoLower(ScoreOf(a, market, prior), ScoreOf(b, market, prior))
  {
    RateGrows(a.onTime, b.onTime, a.withDeadline);
    RateGrows(b.broken, a.broken, a.finalized);
    RateGrows(b.withIncident, a.withIncident, a.finalized);
    RateGrows(a.transparent, b.transparent, a.finalized);
    if a.medianCost.Some? && market.Some? && market.value != 0 {
      MulMonotoneRight(b.medianCost.value, a.medianCost.value, market.value);
      PriceIndexMonotone(b.medianCost.value, market.value, a.medianCost.value, market.value);
    }
    ScoreMonotone(ComponentsOf(a, market), ComponentsOf(b, market), prior, a.finalized);
  }

  // ----- the market median -----

  function CountBelow(xs: seq<int>, v: int): nat {
    if xs == [] then 0 else (if xs[0] < v then 1 else 0) + CountBelow(xs[1..], v)
  }

  lemma {:induction false} CountBelowConcat(a: seq<int>, b: seq<int>, v: int)
    ensures CountBelow(a + b, v) == CountBelow(a, v) + CountBelow(b, v)
  {
    if a == [] {
      assert a + b == b;
    } else {
      assert (a + b)[1..] == a[1..] + b;
      CountBelowConcat(a[1..], b, v);
    }
  }

  lemma {:induction false} CountBelowPermuted(a: seq<int>, b: seq<int>, v: int)
    requires multiset(a) == multiset(b)
    ensures CountBelow(a, v) == CountBelow(b, v)
  {
    if a == [] {
      assert |multiset(b)| == 0;
    } else {
      var i := FirstFoundIn(a, b);
      CountBelowPermuted(a[1..], b[..i] + b[i + 1..], v);
      CountBelowConcat(b[..i], b[i + 1..], v);
      CountBelowConcat(b[..i] + [b[i]], b[i + 1..], v);
      CountBelowConcat(b[..i], [b[i]], v);
    }
  }

  lemma {:induction false} CountBelowAll(xs: seq<int>, v: int)
    ensures (forall x | x in xs :: x < v) ==> CountBelow(xs, v) == |xs|
    ensures (forall x | x in xs :: x >= v) ==> CountBelow(xs, v) == 0
    ensures CountBelow(xs, v) <= |xs|
  {
    if xs != [] {
      CountBelowAll(xs[1..], v);
      assert xs[0] in xs && forall x | x in xs[1..] :: x in xs;
    }
  }

  lemma {:induction false} CountBelowGrows(xs: seq<int>, v: int, w: int)
    requires v <= w
    ensures CountBelow(xs, v) <= CountBelow(xs, w)
  {
    if xs != [] {
      CountBelowGrows(xs[1..], v, w);
    }
  }

  lemma SortedCosts(costs: seq<int>)
    ensures var s := Sorted(costs, IntLe);
            |s| == |costs| && multiset(s) == multiset(costs) && IsSorted(s, IntLe)
  {
    IntOrder();
    SortedPermutes(costs, IntLe);
    SortedIsSorted(costs, IntLe);
  }

  /** What being the upper median means: at most half of the list is below it, more than half is not above it. */
  lemma {:induction false} MedianRank(costs: seq<int>)
    requires costs != []
    ensures |Sorted(costs, IntLe)| == |costs|
    ensures var m := Sorted(costs, IntLe)[|costs| / 2];
            CountBelow(costs, m) <= |costs| / 2 < CountBelow(costs, m + 1) && m in costs
  {
    SortedCosts(costs);
    MiddleRank(costs, Sorted(costs, IntLe), |costs| / 2);
  }

  lemma MiddleRank(costs: seq<int>, s: seq<int>, k: nat)
    requires multiset(s) == multiset(costs) && IsSorted(s, IntLe) && k < |s|
    ensures CountBelow(costs, s[k]) <= k < CountBelow(costs, s[k] + 1) && s[k] in costs
  {
    assert s[k] in multiset(s);
    CountBelowPermuted(costs, s, s[k]);
    CountBelowPermuted(costs, s, s[k] + 1);
    RankInSorted(s, k);
  }

  lemma RankInSorted(s: seq<int>, k: nat)
    requires IsSorted(s, IntLe) && k < |s|
    ensures CountBelow(s, s[k]) <= k < CountBelow(s, s[k] + 1)
  {
    NoneBelowFrom(s, k);
    AllBelowUpTo(s, k);
  }

  lemma NoneBelowFrom(s: seq<int>, k: nat)
    requires IsSorted(s, IntLe) && k < |s|
    ensures CountBelow(s, s[k]) <= k
  {
    var front, back := s[..k], s[k..];
    assert s == front + back;
    CountBelowConcat(front, back, s[k]);
    forall x | x in back ensures x >= s[k] {
      var j :| 0 <= j < |back| && back[j] == x;
      assert j == 0 || IntLe(s[k], s[k + j]);
    }
    CountBelowAll(back, s[k]);
    CountBelowAll(front, s[k]);
  }

  lemma AllBelowUpTo(s: seq<int>, k: nat)
    requires IsSorted(s, IntLe) && k < |s|
    ensures k < CountBelow(s, s[k] + 1)
  {
    var front, back := s[..k + 1], s[k + 1..];
    assert s == front + back;
    CountBelowConcat(front, back, s[k] + 1);
    forall x | x in front ensures x < s[k] + 1 {
      var j :| 0 <= j < |front| && front[j] == x;
      assert j == k || IntLe(s[j], s[k]);
    }
    CountBelowAll(front, s[k] + 1);
  }

  function UpperMedian(costs: seq<int>): int
    requires costs != []
  {
    MedianRank(costs);
    Sorted(costs, IntLe)[|costs| / 2]
  }

  lemma {:induction false} UpperMedianRank(costs: seq<int>)
    requires costs != []
    ensures CountBelow(costs, UpperMedian(costs)) <= |costs| / 2 < CountBelow(costs, UpperMedian(costs) + 1)
  {
    MedianRank(costs);
  }

  lemma CountBelowAround(a: seq<int>, c: int, b: seq<int>, v: int)
    ensures CountBelow(a + [c] + b, v) == CountBelow(a, v) + (if c < v then 1 else 0) + CountBelow(b, v)
  {
    CountBelowConcat(a + [c], b, v);
    CountBelowConcat(a, [c], v);
  }

  /** Raising one cost never lowers the median, and it raises the median only by crossing it. */
  lemma {:induction false} MedianAfterRaise(a: seq<int>, c: int, c': int, b: seq<int>)
    requires c <= c'
    ensures var m, m' := UpperMedian(a + [c] + b), UpperMedian(a + [c'] + b);
            m <= m' && (m < m' ==> c <= m && m' <= c')
  {
    var x, y := a + [c] + b, a + [c'] + b;
    UpperMedianRank(x);
    UpperMedianRank(y);
    RaisedRank(a, c, c', b, x, y, UpperMedian(x), UpperMedian(y), |x| / 2);
  }

  lemma {:induction false} RaisedRank(
      a: seq<int>, c: int, c': int, b: seq<int>, x: seq<int>, y: seq<int>, m: int, m': int, k: nat)
    requires c <= c' && x == a + [c] + b && y == a + [c'] + b
    requires CountBelow(x, m) <= k < CountBelow(x, m + 1)
    requires CountBelow(y, m') <= k < CountBelow(y, m' + 1)
    ensures m <= m' && (m < m' ==> c <= m && m' <= c')
  {
    CountBelowAround(a, c, b, m);
    CountBelowAround(a, c, b, m + 1);
    CountBelowAround(a, c', b, m');
    CountBelowAround(a, c', b, m' + 1);
    if m' < m {
      CountBelowGrows(a, m' + 1, m);
      CountBelowGrows(b, m' + 1, m);
    } else if m < m' {
      CountBelowGrows(a, m + 1, m');
      CountBelowGrows(b, m + 1, m');
    }
    RankAfterRaise(k, c, c', m, m', CountBelow(a, m) + CountBelow(b, m), CountBelow(a, m + 1) + CountBelow(b, m + 1),
                   CountBelow(a, m') + CountBelow(b, m'), CountBelow(a, m' + 1) + CountBelow(b, m' + 1));
  }

  /** The same for the counts alone: of the other costs, `below` are below m, `upTo` not above it, and so for m'. */
  lemma RankAfterRaise(k: nat, c: int, c': int, m: int, m': int, below: nat, upTo: nat, below': nat, upTo': nat)
    requires c <= c'
    requires below + (if c < m then 1 else 0) <= k < upTo + if c < m + 1 then 1 else 0
    requires below' + (if c' < m' then 1 else 0) <= k < upTo' + if c' < m' + 1 then 1 else 0
    requires (m' < m ==> upTo' <= below) && (m < m' ==> upTo <= below')
    ensures m <= m' && (m < m' ==> c <= m && m' <= c')
  {
  }

  /** The neutral half is what an absent index counts as. */
  lemma PriceAfterRaise(c: int, m: int, c': int, m': int)
    requires 0 <= c <= c' && 0 <= m <= m' && (m < m' ==> c <= m && m' <= c')
    ensures PriceIndex(Some(c'), Some(m')).GetOr(0.5) <= PriceIndex(Some(c), Some(m)).GetOr(0.5)
  {
    if m == m' {
      if m > 0 {
        MulMonotoneRight(c, c', m);
        PriceIndexMonotone(c, m, c', m);
      }
    } else {
      PriceIndexMonotone(m', m', c', m');
      assert PriceIndex(Some(m'), Some(m')) == Some(0.5) by { Quantize4KeepsFourDecimals(5000); }
      if m > 0 {
        MulMonotoneRight(c, m, m');
        MulMonotoneRight(m', c', m);
        PriceIndexMonotone(c, m, c', m');
      }
    }
  }

  lemma {:induction false} CostsConcat(a: seq<Observations>, b: seq<Observations>)
    ensures Costs(a + b) == Costs(a) + Costs(b)
  {
    if a == [] {
      assert a + b == b;
    } else {
      CostsConcat(a[1..], b);
      CostsOfFirst(a, b);
      Associative(CostOf(a[0]), Costs(a[1..]), Costs(b));
    }
  }

  lemma CostsOfFirst(a: seq<Observations>, b: seq<Observations>)
    requires a != []
    ensures Costs(a + b) == CostOf(a[0]) + Costs(a[1..] + b)
  {
    assert (a + b)[1..] == a[1..] + b;
  }

  lemma Associative(x: seq<int>, y: seq<int>, z: seq<int>)
    ensures (x + y) + z == x + (y + z)
  {
  }

  lemma CostsAround(rows: seq<Observations>, i: nat)
    requires i < |rows| && rows[i].medianCost.Some?
    ensures Costs(rows) == Costs(rows[..i]) + [rows[i].medianCost.value] + Costs(rows[i + 1..])
  {
    var front, own, back := rows[..i], [rows[i]], rows[i + 1..];
    assert rows == front + own + back;
    CostsConcat(front + own, back);
    CostsConcat(front, own);
    assert own[1..] == [];
    assert Costs(own) == [rows[i].medianCost.value];
  }

  lemma {:induction false} CostsFromRows(rows: seq<Observations>, v: int)
    requires v in Costs(rows)
    ensures exists o :: o in rows && o.medianCost == Some(v)
  {
    if rows[0].medianCost != Some(v) {
      CostsFromRows(rows[1..], v);
    }
  }

  /**
   Becoming more expensive never raises a carrier's own score, although its cost also moves the market
   median it is compared with: the recalculation takes the median over all carriers of the period again.
   */
  lemma RaisingOwnCostNeverHelps(rows: seq<Observations>, i: nat, cost: int, prior: Option<Prior>)
    requires i < |rows| && rows[i].medianCost.Some? && rows[i].medianCost.value <= cost
    requires forall o :: o in rows && o.medianCost.Some? ==> o.medianCost.value >= 0
    requires prior.GetOr(NEUTRAL).priceIndex == 0.5
    ensures var after := rows[i := rows[i].(medianCost := Some(cost))];
            ScoreNoLower(ScoreOf(after[i], MarketMedian(after), prior), ScoreOf(rows[i], MarketMedian(rows), prior))
  {
    var after := rows[i := rows[i].(medianCost := Some(cost))];
    var a, b, c := Costs(rows[..i]), Costs(rows[i + 1..]), rows[i].medianCost.value;
    assert after[..i] == rows[..i] && after[i + 1..] == rows[i + 1..];
    CostsAround(rows, i);
    CostsAround(after, i);
    MedianAfterRaise(a, c, cost, b);
    var m, m' := UpperMedian(a + [c] + b), UpperMedian(a + [cost] + b);
    assert MarketMedian(rows) == Some(m) && MarketMedian(after) == Some(m');
    MedianRank(Costs(rows));
    CostsFromRows(rows, m);
    assert 0 <= m;
    PriceAfterRaise(c, m, cost, m');
    ScoreMonotone(ComponentsOf(after[i], Some(m')), ComponentsOf(rows[i], Some(m)), prior, rows[i].finalized);
  }
}
