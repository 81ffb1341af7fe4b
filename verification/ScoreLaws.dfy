/**
 What a snapshot says, in terms of the counters it was computed from: of which whole each share is the share, how it
 is rounded, and when a score is given with how much confidence.
 */
module ScoreLaws {
  import opened Options
  import opened Rounding
  import opened Sorting
  import opened CarrierScore
  import opened ScoreInputs
  import opened PlatformPool
  import opened ScoreService

  // ----- shares -----

  /** The whole number nearest to the ten-thousandths of a share, and of two the even one; in integers. */
  predicate IsNearestEven(n: int, part: int, whole: int) {
    var rest := 2 * (10000 * part - n * whole);
    -whole <= rest <= whole && (rest == whole || rest == -whole ==> n % 2 == 0)
  }

  /** A stored share: absent without a whole, otherwise the ten-thousandths of the part. */
  ghost predicate IsShareOf(x: Option<real>, part: int, whole: int) {
    && (x.Some? <==> whole > 0)
    && (x.Some? ==> exists n: int :: x.value == n as real / 10000.0 && IsNearestEven(n, part, whole))
  }

  lemma ScaledQuotient(part: int, whole: int, n: int)
    requires whole > 0
    ensures var x := part as real / whole as real * 10000.0;
            (x - n as real) * (2 * whole) as real == (2 * (10000 * part - n * whole)) as real
  {
    var q, w := part as real / whole as real, whole as real;
    assert q * w == part as real;
    assert (q * 10000.0 - n as real) * (2.0 * w) == 20000.0 * (q * w) - 2.0 * (n as real * w);
    assert n as real * w == (n * whole) as real;
  }

  lemma SignOfProduct(d: real, v: real)
    requires v > 0.0
    ensures (d * v > 0.0 <==> d > 0.0) && (d * v == 0.0 <==> d == 0.0)
  {
  }

  lemma HalfOf(d: real, w: int, rest: int)
    requires w > 0 && d * (2 * w) as real == rest as real
    ensures (-0.5 <= d <= 0.5 <==> -w <= rest <= w) && (d == 0.5 <==> rest == w) && (d == -0.5 <==> rest == -w)
  {
    var v := (2 * w) as real;
    assert (d - 0.5) * v == rest as real - w as real;
    assert (d + 0.5) * v == rest as real + w as real;
    SignOfProduct(d - 0.5, v);
    SignOfProduct(d + 0.5, v);
  }

  lemma NearestEvenIs(part: int, whole: int, n: int)
    requires whole > 0
    ensures n == HalfEven(part as real / whole as real * 10000.0) <==> IsNearestEven(n, part, whole)
  {
    var x := part as real / whole as real * 10000.0;
    HalfEvenIsTheNearestEven(x, n);
    ScaledQuotient(part, whole, n);
    HalfOf(x - n as real, whole, 2 * (10000 * part - n * whole));
  }

  /** The rounded rate is the nearest ten-thousandth of the fraction, told without a fraction. */
  lemma RateIsShare(part: int, whole: int)
    ensures IsShareOf(Rate(part, whole), part, whole)
  {
    if whole > 0 {
      var n := HalfEven(part as real / whole as real * 10000.0);
      NearestEvenIs(part, whole, n);
      assert Rate(part, whole).value == n as real / 10000.0 && IsNearestEven(n, part, whole);
    }
  }

  /** The price index: absent without a median, else the share of what is left of twice the median, between nothing and all. */
  ghost predicate IsPriceIndex(x: Option<real>, cost: Option<int>, market: Option<int>) {
    if cost.None? || market.None? || market.value == 0 then x == None
    else
      var whole, left := Magnitude(2 * market.value), if market.value > 0 then 2 * market.value - cost.value else cost.value - 2 * market.value;
      IsShareOf(x, if left < 0 then 0 else if left > whole then whole else left, whole)
  }

  function Magnitude(n: int): int {
    if n < 0 then -n else n
  }

  lemma ShiftIsLeft(cost: int, market: int)
    requires market != 0
    ensures 0.5 + (market - cost) as real / (2.0 * market as real) == (2 * market - cost) as real / (2 * market) as real
  {
    AddHalf((market - cost) as real, (2 * market) as real);
    assert 2.0 * market as real == (2 * market) as real;
    assert (market - cost) as real + (2 * market) as real * 0.5 == (2 * market - cost) as real;
  }

  lemma AddHalf(a: real, d: real)
    requires d != 0.0
    ensures 0.5 + a / d == (a + d * 0.5) / d
  {
    var q, p := a / d, (a + d * 0.5) / d;
    assert q * d == a && p * d == a + d * 0.5;
    assert (0.5 + q - p) * d == 0.0;
    ZeroProduct(0.5 + q - p, d);
  }

  lemma ZeroProduct(x: real, d: real)
    requires d != 0.0 && x * d == 0.0
    ensures x == 0.0
  {
  }

  lemma ClipIsShare(part: int, whole: int)
    requires whole > 0
    ensures var kept := if part < 0 then 0 else if part > whole then whole else part;
            Clip(part as real / whole as real) == kept as real / whole as real
  {
    var x, w := part as real / whole as real, whole as real;
    assert x * w == part as real;
    CompareScaled(x, 0.0, w);
    CompareScaled(0.0, x, w);
    CompareScaled(x, 1.0, w);
    CompareScaled(1.0, x, w);
  }

  lemma SameQuotient(cost: int, market: int)
    requires market < 0
    ensures (2 * market - cost) as real / (2 * market) as real == (cost - 2 * market) as real / (-2 * market) as real
  {
    var a, d := (2 * market - cost) as real, (2 * market) as real;
    assert (cost - 2 * market) as real == -a && (-2 * market) as real == -d;
    var q := a / d;
    assert q * d == a;
    assert q * -d == -a;
  }

  lemma PriceIndexIs(cost: Option<int>, market: Option<int>)
    ensures IsPriceIndex(PriceIndex(cost, market), cost, market)
  {
    if cost.Some? && market.Some? && market.value != 0 {
      var m, c := market.value, cost.value;
      var whole, left := Magnitude(2 * m), if m > 0 then 2 * m - c else c - 2 * m;
      ShiftIsLeft(c, m);
      if m < 0 {
        SameQuotient(c, m);
      }
      ClipIsShare(left, whole);
      var kept := if left < 0 then 0 else if left > whole then whole else left;
      RateIsShare(kept, whole);
      assert PriceIndex(cost, market) == Rate(kept, whole);
    }
  }

  /** Half the scale at the median, all of it for nothing, none of it from twice the median on. */
  lemma PriceIndexMarks(market: int)
    requires market > 0
    ensures PriceIndex(Some(market), Some(market)) == Some(0.5)
    ensures PriceIndex(Some(0), Some(market)) == Some(1.0)
    ensures forall cost :: cost >= 2 * market ==> PriceIndex(Some(cost), Some(market)) == Some(0.0)
  {
    PriceMark(market, market, 5000);
    PriceMark(0, market, 10000);
    forall cost | cost >= 2 * market
      ensures PriceIndex(Some(cost), Some(market)) == Some(0.0)
    {
      PriceMark(cost, market, 0);
    }
  }

  lemma PriceMark(cost: int, market: int, tenThousandths: int)
    requires market > 0 && cost >= 0
    requires var left := 2 * market - cost; 10000 * (if left < 0 then 0 else left) == tenThousandths * (2 * market)
    ensures PriceIndex(Some(cost), Some(market)) == Some(tenThousandths as real / 10000.0)
  {
    var left, whole := 2 * market - cost, 2 * market;
    var kept := if left < 0 then 0 else left;
    PriceIndexIs(Some(cost), Some(market));
    var n: int :| PriceIndex(Some(cost), Some(market)) == Some(n as real / 10000.0) && IsNearestEven(n, kept, whole);
    OnlyMark(n, tenThousandths, kept, whole);
  }

  lemma OnlyMark(n: int, m: int, part: int, whole: int)
    requires whole > 0 && IsNearestEven(n, part, whole) && 10000 * part == m * whole
    ensures n == m
  {
    assert m * whole - n * whole == (m - n) * whole && n * whole - m * whole == (n - m) * whole;
    if n < m {
      AtLeastOnce(m - n, whole);
    } else if n > m {
      AtLeastOnce(n - m, whole);
    }
  }

  lemma AtLeastOnce(k: int, whole: int)
    requires k >= 1 && whole > 0
    ensures k * whole >= whole
  {
  }

  // ----- the snapshot of a carrier -----

  /**
   Everything a snapshot says of a carrier's shipments, from its counters: the on-time share is of the shipments that
   had a deadline, the others are of all finished ones, and each stands in its own column.
   */
  lemma WhatASnapshotSays(rows: seq<Observations>, latest: map<CarrierId, Baseline>, i: nat)
    requires OneRowPerCarrier(rows) && i < |rows|
    ensures var o, s := rows[i], SnapshotFor(rows, latest, rows[i].carrier);
            && s.sampleSize == o.finalized
            && IsShareOf(s.components.onTime, o.onTime, o.withDeadline)
            && IsShareOf(s.components.reliability, o.finalized - o.broken, o.finalized)
            && IsShareOf(s.components.incidentFree, o.finalized - o.withIncident, o.finalized)
            && IsShareOf(s.components.dataQuality, o.transparent, o.finalized)
            && IsShareOf(s.incidentRate, o.withIncident, o.finalized)
            && IsPriceIndex(s.components.priceIndex, o.medianCost, MarketMedian(rows))
            && (s.platformSampleSize.Some? <==> o.carrier in latest)
            && (o.carrier in latest ==> s.platformSampleSize == Some(latest[o.carrier].sampleSize))
            && s.result == ScoreFrom(s.components, o.finalized, if o.carrier in latest then PriorOf(Some(latest[o.carrier])) else None)
  {
    var o := rows[i];
    RowOfPresent(rows, i);
    RateIsShare(o.onTime, o.withDeadline);
    RateIsShare(o.finalized - o.broken, o.finalized);
    RateIsShare(o.finalized - o.withIncident, o.finalized);
    RateIsShare(o.transparent, o.finalized);
    RateIsShare(o.withIncident, o.finalized);
    InverseIsRateOfRest(o.broken, o.finalized);
    InverseIsRateOfRest(o.withIncident, o.finalized);
    PriceIndexIs(o.medianCost, MarketMedian(rows));
  }

  /** A carrier that was never used has no share and no price of its own. */
  lemma WhatAnUnusedCarrierShows(rows: seq<Observations>, latest: map<CarrierId, Baseline>, c: CarrierId)
    requires c !in CarriersOf(rows)
    ensures var s := SnapshotFor(rows, latest, c);
            && s.sampleSize == 0 && s.incidentRate == None && s.components == Components(None, None, None, None, None)
            && s.result == ScoreFrom(s.components, 0, if c in latest then PriorOf(Some(latest[c])) else None)
  {
    RowOfAbsent(rows, c);
  }

  /** The query has one order for two rows of a carrier when one is fresher: that one first. */
  lemma TheFresherComesFirst(table: Baselines, k: BaselineKey, other: BaselineKey)
    requires k != other && table.Keys == {k, other} && k.carrier == other.carrier && Fresher(table, k, other)
    ensures IsListing(table, [k, other]) && !IsListing(table, [other, k])
  {
    assert !MayPrecede(table, [other, k][0], [other, k][1]);
  }

  /** More finished shipments without a deadline leave the on-time share as it was. */
  lemma NoDeadlineNoPunishment(o: Observations, more: nat, market: Option<int>)
    ensures ComponentsOf(o.(finalized := o.finalized + more), market).onTime == ComponentsOf(o, market).onTime
  {
  }

  /** For example, a hundred deliveries without incident, half of them with a deadline and all of those on time. */
  lemma AllInTime(c: CarrierId)
    ensures ScoreOf(Observations(c, 100, 50, 50, 0, 0, 100, None), None, None) == ScoreResult(Some(85), High, Own)
  {
    var o := Observations(c, 100, 50, 50, 0, 0, 100, None);
    HalfEvenIsTheNearestEven(10000.0, 10000);
    HalfEvenIsTheNearestEven(0.0, 0);
    assert ComponentsOf(o, None) == Components(Some(1.0), Some(1.0), Some(1.0), None, Some(1.0));
    var share := Smooth(Some(1.0), 0.5, 100);
    assert share == 110.0 / 120.0;
    HalfUpIsTheNearestAwayFromZero(100.0 * (0.85 * share + 0.15 * 0.5), 85);
  }

  // ----- the pool and its baseline -----

  /** One row more in a pool: it counts for its own carrier when something was finished, each counter in its own place. */
  lemma {:induction false} OneMoreRowInAPool(rows: seq<Observations>, o: Observations, c: CarrierId)
    ensures var t, r := Pooled(rows, c), Pooled(rows + [o], c);
            if o.carrier == c && o.finalized > 0
            then && r.tenants == t.tenants + 1 && r.finalized == t.finalized + o.finalized
                 && r.withDeadline == t.withDeadline + o.withDeadline && r.onTime == t.onTime + o.onTime
                 && r.broken == t.broken + o.broken && r.withIncident == t.withIncident + o.withIncident
                 && r.transparent == t.transparent + o.transparent
            else r == t
    ensures Pooled([], c) == Totals(0, 0, 0, 0, 0, 0, 0)
  {
    assert (rows + [o])[..|rows|] == rows;
  }

  /** A saved share: half when there was nothing to measure. */
  ghost predicate IsShareOrHalf(x: Option<real>, part: int, whole: int) {
    x.Some? && if whole > 0 then IsShareOf(x, part, whole) else x == Some(0.5)
  }

  /** The row of a pool: how many tenants and shipments it stands for, and each share in its own column. */
  ghost predicate IsRowOfPool(b: Baseline, t: Totals) {
    && b.tenantsCount == t.tenants && b.sampleSize == t.finalized
    && IsShareOrHalf(b.onTimeRate, t.onTime, t.withDeadline)
    && IsShareOrHalf(b.reliability, t.finalized - t.broken, t.finalized)
    && IsShareOrHalf(b.incidentFree, t.finalized - t.withIncident, t.finalized)
    && IsShareOrHalf(b.dataQuality, t.transparent, t.finalized)
  }

  lemma SavedSharesOf(t: Totals)
    ensures IsRowOfPool(BaselineOf(t), t)
  {
    StoredRate(t.onTime, t.withDeadline, 0.5);
    StoredRate(t.broken, t.finalized, 0.5);
    StoredRate(t.withIncident, t.finalized, 0.5);
    StoredRate(t.transparent, t.finalized, 0.5);
    RateIsShare(t.onTime, t.withDeadline);
    RateIsShare(t.transparent, t.finalized);
    RateIsShare(t.finalized - t.broken, t.finalized);
    RateIsShare(t.finalized - t.withIncident, t.finalized);
    InverseIsRateOfRest(t.broken, t.finalized);
    InverseIsRateOfRest(t.withIncident, t.finalized);
  }

  lemma PublishedIff(perTenant: seq<seq<Observations>>, c: CarrierId)
    requires forall t :: 0 <= t < |perTenant| ==> OneRowPerCarrier(perTenant[t])
    ensures Published(perTenant, c) <==>
              |TenantsThatShipped(perTenant, c)| >= 3 && Pooled(Flatten(perTenant), c).finalized >= 30
  {
    TenantsAreCounted(perTenant, c);
    if !Ships(Flatten(perTenant), c) {
      PooledAbsent(Flatten(perTenant), c);
    }
  }

  /** What the platform publishes of a carrier: nothing unless three tenants shipped thirty shipments with it, else the row of its pool. */
  lemma WhatABaselineSays(perTenant: seq<seq<Observations>>, period: Period, c: CarrierId)
    requires forall t :: 0 <= t < |perTenant| ==> OneRowPerCarrier(perTenant[t])
    ensures var t, key := Pooled(Flatten(perTenant), c), BaselineKey(c, period, "score-2.0.0");
            && t.tenants == |TenantsThatShipped(perTenant, c)|
            && (key in BaselinesOf(perTenant, period) <==> |TenantsThatShipped(perTenant, c)| >= 3 && t.finalized >= 30)
            && (key in BaselinesOf(perTenant, period) ==> IsRowOfPool(BaselinesOf(perTenant, period)[key], t))
  {
    TenantsAreCounted(perTenant, c);
    PublishedIff(perTenant, c);
    PublishedIsKnown(perTenant, c);
    SavedSharesOf(Pooled(Flatten(perTenant), c));
  }

  /** What a baseline is taken for when a score is drawn toward it: its own figures, a half for a missing one and for the price. */
  lemma WhatAPriorSays(b: Baseline)
    ensures PriorOf(None) == None && PriorOf(Some(b)).Some?
    ensures var p := PriorOf(Some(b)).value;
            && (b.onTimeRate == Some(p.onTime) || (b.onTimeRate == None && p.onTime == 0.5))
            && (b.reliability == Some(p.reliability) || (b.reliability == None && p.reliability == 0.5))
            && (b.incidentFree == Some(p.incidentFree) || (b.incidentFree == None && p.incidentFree == 0.5))
            && (b.dataQuality == Some(p.dataQuality) || (b.dataQuality == None && p.dataQuality == 0.5))
            && p.priceIndex == 0.5
  {
  }

  /** A save gives a known row new figures and leaves its time, dates a new one, and touches no other row. */
  lemma WhatASaveDoes(table: Baselines, written: map<BaselineKey, Baseline>, now: int, k: BaselineKey)
    ensures var after := Saved(table, written, now);
            && (k in after <==> k in table || k in written)
            && (k in written ==> after[k].baseline == written[k])
            && (k in written && k in table ==> after[k].calculatedAt == table[k].calculatedAt)
            && (k in written && k !in table ==> after[k].calculatedAt == now)
            && (k !in written && k in table ==> after[k] == table[k])
  {
  }

  // ----- confidence and basis -----

  /**
   From a hundred own shipments on the confidence is high, from thirty medium; below, it is low if there are ten or the
   platform has a baseline. The basis says which of the two there was, and without either there is no number.
   */
  lemma ConfidenceIs(c: Components, n: int, prior: Option<Prior>)
    ensures var r := ScoreFrom(c, n, prior);
            && (r.confidence == High <==> n >= 100)
            && (r.confidence == Medium <==> 30 <= n < 100)
            && (r.confidence == Low <==> n < 30 && (n >= 10 || prior.Some?))
            && (r.confidence == Insufficient <==> n < 10 && prior.None?)
            && (r.basis == Mixed <==> n >= 10 && prior.Some?)
            && (r.basis == Own <==> n >= 10 && prior.None?)
            && (r.basis == Platform <==> n < 10 && prior.Some?)
            && (r.score.Some? <==> n >= 10 || prior.Some?)
  {
  }

  /** Whatever the shares are, a score is a number of points from nothing to a hundred. */
  lemma ScoreIsOnTheScale(c: Components, n: int, prior: Option<Prior>)
    ensures ScoreFrom(c, n, prior).score.Some? ==> 0 <= ScoreFrom(c, n, prior).score.value <= 100
  {
  }
}
