/**
 The cross-tenant pool: counters of all tenants are added up per carrier and, where the sum is anonymous
 and large enough, saved as the baseline every tenant is smoothed toward.
 */
module PlatformPool {
  import opened Options
  import opened Rounding
  import opened Sorting
  import opened CarrierScore
  import opened ScoreInputs

  const MIN_PLATFORM_TENANTS := 3
  const MIN_PLATFORM_SAMPLE := 30

  /** Counters of one carrier summed over tenants. */
  datatype Totals = Totals(
    tenants: int, finalized: int, withDeadline: int, onTime: int, broken: int, withIncident: int, transparent: int)
  {
    predicate IsPublishable() {
      tenants >= MIN_PLATFORM_TENANTS && finalized >= MIN_PLATFORM_SAMPLE
    }
  }

  datatype PlatformTotals = PlatformTotals(carrier: CarrierId, totals: Totals)

  const ZERO := Totals(0, 0, 0, 0, 0, 0, 0)

  function Plus(a: Totals, b: Totals): Totals {
    Totals(a.tenants + b.tenants, a.finalized + b.finalized, a.withDeadline + b.withDeadline, a.onTime + b.onTime,
           a.broken + b.broken, a.withIncident + b.withIncident, a.transparent + b.transparent)
  }

  function Counted(o: Observations): Totals {
    Totals(1, o.finalized, o.withDeadline, o.onTime, o.broken, o.withIncident, o.transparent)
  }

  predicate ShippedBy(o: Observations, c: CarrierId) {
    o.carrier == c && o.finalized > 0
  }

  /** The pool of one carrier, as a plain sum over a list of rows. */
  function Pooled(rows: seq<Observations>, c: CarrierId): Totals {
    if rows == [] then ZERO
    else
      var last := |rows| - 1;
      if ShippedBy(rows[last], c) then Plus(Pooled(rows[..last], c), Counted(rows[last]))
      else Pooled(rows[..last], c)
  }

  function Flatten(perTenant: seq<seq<Observations>>): seq<Observations> {
    if perTenant == [] then []
    else Flatten(perTenant[..|perTenant| - 1]) + perTenant[|perTenant| - 1]
  }

  predicate Ships(rows: seq<Observations>, c: CarrierId) {
    exists o :: o in rows && ShippedBy(o, c)
  }

  ghost predicate NoDuplicates<T(!new)>(s: seq<T>) {
    forall i, j :: 0 <= i < j < |s| ==> s[i] != s[j]
  }

  /** The dictionary of counters built so far is the pool of the rows read so far. */
  ghost predicate IsPoolOf(order: seq<CarrierId>, totals: map<CarrierId, Totals>, rows: seq<Observations>) {
    && NoDuplicates(order)
    && (forall c :: c in order <==> c in totals)
    && (forall c :: c in totals <==> Ships(rows, c))
    && (forall c :: c in totals ==> totals[c] == Pooled(rows, c))
  }

  lemma {:induction false} PooledAbsent(rows: seq<Observations>, c: CarrierId)
    requires !Ships(rows, c)
    ensures Pooled(rows, c) == ZERO
  {
    if rows != [] {
      assert rows[|rows| - 1] in rows;
      assert forall o :: o in rows[..|rows| - 1] ==> o in rows;
      PooledAbsent(rows[..|rows| - 1], c);
    }
  }

  lemma PoolWithoutRow(order: seq<CarrierId>, totals: map<CarrierId, Totals>, rows: seq<Observations>, o: Observations)
    requires IsPoolOf(order, totals, rows) && o.finalized <= 0
    ensures IsPoolOf(order, totals, rows + [o])
  {
    assert (rows + [o])[..|rows|] == rows;
    forall c ensures Ships(rows + [o], c) <==> Ships(rows, c) {
      ShipsConcat(rows, [o], c);
    }
  }

  lemma PoolWithRow(order: seq<CarrierId>, totals: map<CarrierId, Totals>, rows: seq<Observations>, o: Observations)
    requires IsPoolOf(order, totals, rows) && o.finalized > 0
    ensures o.carrier in totals ==>
              IsPoolOf(order, totals[o.carrier := Plus(totals[o.carrier], Counted(o))], rows + [o])
    ensures o.carrier !in totals ==>
              IsPoolOf(order + [o.carrier], totals[o.carrier := Plus(ZERO, Counted(o))], rows + [o])
  {
    assert (rows + [o])[..|rows|] == rows;
    forall c ensures Ships(rows + [o], c) <==> Ships(rows, c) || c == o.carrier {
      ShipsConcat(rows, [o], c);
      assert o in [o];
    }
    if o.carrier !in totals {
      PooledAbsent(rows, o.carrier);
    }
  }

  method Accumulate(perTenant: seq<seq<Observations>>) returns (result: seq<PlatformTotals>)
    ensures forall i, j :: 0 <= i < j < |result| ==> result[i].carrier != result[j].carrier
    ensures forall c :: Ships(Flatten(perTenant), c) <==> exists i :: 0 <= i < |result| && result[i].carrier == c
    ensures forall i :: 0 <= i < |result| ==> result[i].totals == Pooled(Flatten(perTenant), result[i].carrier)
  {
    var totals: map<CarrierId, Totals> := map[];
    var order: seq<CarrierId> := [];
    ghost var read: seq<Observations> := [];
    for t := 0 to |perTenant|
      invariant read == Flatten(perTenant[..t])
      invariant IsPoolOf(order, totals, read)
    {
      ghost var before := read;
      for k := 0 to |perTenant[t]|
        invariant read == before + perTenant[t][..k]
        invariant IsPoolOf(order, totals, read)
      {
        var observed := perTenant[t][k];
        assert perTenant[t][..k + 1] == perTenant[t][..k] + [observed];
        if observed.finalized <= 0 {
          PoolWithoutRow(order, totals, read, observed);
          read := read + [observed];
          continue;
        }
        PoolWithRow(order, totals, read, observed);
        read := read + [observed];
        if observed.carrier !in totals {
          order := order + [observed.carrier];
          totals := totals[observed.carrier := ZERO];
        }
        totals := totals[observed.carrier := Plus(totals[observed.carrier], Counted(observed))];
      }
      assert perTenant[..t + 1][..t] == perTenant[..t];
      assert perTenant[t][..|perTenant[t]|] == perTenant[t];
    }
    assert perTenant[..|perTenant|] == perTenant;
    result := [];
    for i := 0 to |order|
      invariant |result| == i
      invariant forall j :: 0 <= j < i ==> result[j] == PlatformTotals(order[j], totals[order[j]])
    {
      result := result + [PlatformTotals(order[i], totals[order[i]])];
    }
    forall c | Ships(Flatten(perTenant), c) ensures exists i :: 0 <= i < |result| && result[i].carrier == c {
      var i :| 0 <= i < |order| && order[i] == c;
      assert result[i].carrier == c;
    }
  }

  // ----- the order of tenants does not matter -----

  lemma {:induction false} PooledConcat(a: seq<Observations>, b: seq<Observations>, c: CarrierId)
    ensures Pooled(a + b, c) == Plus(Pooled(a, c), Pooled(b, c))
  {
    if b == [] {
      assert a + b == a;
    } else {
      var last := |b| - 1;
      var whole := a + b;
      assert whole[..|whole| - 1] == a + b[..last];
      assert whole[|whole| - 1] == b[last];
      PooledConcat(a, b[..last], c);
      PlusAssociative(Pooled(a, c), Pooled(b[..last], c), Counted(b[last]));
    }
  }

  lemma PlusAssociative(x: Totals, y: Totals, z: Totals)
    ensures Plus(Plus(x, y), z) == Plus(x, Plus(y, z))
    ensures Plus(x, Plus(y, z)) == Plus(y, Plus(x, z))
  {
  }

  lemma {:induction false} FlattenConcat(a: seq<seq<Observations>>, b: seq<seq<Observations>>)
    ensures Flatten(a + b) == Flatten(a) + Flatten(b)
  {
    if b == [] {
      assert a + b == a;
    } else {
      var last := |b| - 1;
      assert (a + b)[..|a + b| - 1] == a + b[..last];
      FlattenConcat(a, b[..last]);
    }
  }

  lemma FlattenOne(t: seq<Observations>)
    ensures Flatten([t]) == t
  {
    assert [t][..0] == [];
  }

  /** Any rearrangement of the tenants gives the same pool. */
  lemma {:induction false} PoolIgnoresTenantOrder(p: seq<seq<Observations>>, q: seq<seq<Observations>>, c: CarrierId)
    requires multiset(p) == multiset(q)
    ensures Pooled(Flatten(p), c) == Pooled(Flatten(q), c)
    ensures Ships(Flatten(p), c) <==> Ships(Flatten(q), c)
  {
    if p == [] {
      assert |multiset(q)| == 0;
    } else {
      var i := FirstFoundIn(p, q);
      var front, back := q[..i], q[i + 1..];
      PoolIgnoresTenantOrder(p[1..], front + back, c);
      PoolAround([], p[0], p[1..], c);
      PoolAround(front, q[i], back, c);
      assert [] + [p[0]] + p[1..] == p && [] + p[1..] == p[1..];
    }
  }

  lemma PoolAround(front: seq<seq<Observations>>, x: seq<Observations>, back: seq<seq<Observations>>, c: CarrierId)
    ensures Pooled(Flatten(front + [x] + back), c) == Plus(Pooled(x, c), Pooled(Flatten(front + back), c))
    ensures Ships(Flatten(front + [x] + back), c) <==> Ships(x, c) || Ships(Flatten(front + back), c)
  {
    FlattenOne(x);
    FlattenConcat(front + [x], back);
    FlattenConcat(front, [x]);
    FlattenConcat(front, back);
    var f, b := Flatten(front), Flatten(back);
    PooledConcat(f + x, b, c);
    PooledConcat(f, x, c);
    PooledConcat(f, b, c);
    PlusAssociative(Pooled(f, c), Pooled(x, c), Pooled(b, c));
    ShipsConcat(f + x, b, c);
    ShipsConcat(f, x, c);
    ShipsConcat(f, b, c);
  }

  lemma ShipsConcat(a: seq<Observations>, b: seq<Observations>, c: CarrierId)
    ensures Ships(a + b, c) <==> Ships(a, c) || Ships(b, c)
  {
    if Ships(a, c) {
      var o :| o in a && ShippedBy(o, c);
      assert o in a + b;
    }
    if Ships(b, c) {
      var o :| o in b && ShippedBy(o, c);
      assert o in a + b;
    }
  }

  // ----- nothing is lost and nothing is counted twice -----

  /** All counters of all rows that count at all. */
  function GrandTotal(rows: seq<Observations>): Totals {
    if rows == [] then ZERO
    else
      var last := |rows| - 1;
      if rows[last].finalized > 0 then Plus(GrandTotal(rows[..last]), Counted(rows[last]))
      else GrandTotal(rows[..last])
  }

  function SumOver(carriers: seq<CarrierId>, rows: seq<Observations>): Totals {
    if carriers == [] then ZERO else Plus(Pooled(rows, carriers[0]), SumOver(carriers[1..], rows))
  }

  lemma {:induction false} SumOverWithRow(carriers: seq<CarrierId>, rows: seq<Observations>, o: Observations)
    requires NoDuplicates(carriers)
    ensures SumOver(carriers, rows + [o])
         == if o.finalized > 0 && o.carrier in carriers then Plus(SumOver(carriers, rows), Counted(o))
            else SumOver(carriers, rows)
  {
    if carriers != [] {
      assert (rows + [o])[..|rows|] == rows;
      assert carriers == [carriers[0]] + carriers[1..];
      SumOverWithRow(carriers[1..], rows, o);
    }
  }

  lemma {:induction false} SumOverNothing(carriers: seq<CarrierId>)
    ensures SumOver(carriers, []) == ZERO
  {
    if carriers != [] {
      SumOverNothing(carriers[1..]);
    }
  }

  /** Every counter is conserved: the pools of the carriers add up to all counted rows of all tenants. */
  lemma {:induction false} PoolingConserves(carriers: seq<CarrierId>, rows: seq<Observations>)
    requires NoDuplicates(carriers)
    requires forall c :: Ships(rows, c) ==> c in carriers
    ensures SumOver(carriers, rows) == GrandTotal(rows)
  {
    if rows == [] {
      SumOverNothing(carriers);
    } else {
      var front, o := rows[..|rows| - 1], rows[|rows| - 1];
      assert rows == front + [o];
      forall c | Ships(front, c) ensures c in carriers {
        ShipsConcat(front, [o], c);
      }
      PoolingConserves(carriers, front);
      SumOverWithRow(carriers, front, o);
      if o.finalized > 0 {
        assert o in rows && ShippedBy(o, o.carrier);
        assert Ships(rows, o.carrier);
      }
    }
  }

  // ----- the number of tenants behind a pool -----

  /** The grouped query returns one row per carrier. */
  ghost predicate OneRowPerCarrier(rows: seq<Observations>) {
    forall i, j :: 0 <= i < j < |rows| ==> rows[i].carrier != rows[j].carrier
  }

  lemma {:induction false} OneTenantCountsOnce(rows: seq<Observations>, c: CarrierId)
    requires OneRowPerCarrier(rows)
    ensures Pooled(rows, c).tenants == if Ships(rows, c) then 1 else 0
  {
    if rows != [] {
      var front, o := rows[..|rows| - 1], rows[|rows| - 1];
      assert rows == front + [o];
      OneTenantCountsOnce(front, c);
      ShipsConcat(front, [o], c);
      assert o in [o];
      if Ships(front, c) {
        var p :| p in front && ShippedBy(p, c);
        var i :| 0 <= i < |front| && front[i] == p;
        assert rows[i].carrier != rows[|rows| - 1].carrier;
      }
    }
  }

  ghost function TenantsThatShipped(perTenant: seq<seq<Observations>>, c: CarrierId): set<nat> {
    set t: nat | t < |perTenant| && Ships(perTenant[t], c)
  }

  /** The anonymity threshold counts tenants, not rows and not shipments. */
  lemma {:induction false} TenantsAreCounted(perTenant: seq<seq<Observations>>, c: CarrierId)
    requires forall t :: 0 <= t < |perTenant| ==> OneRowPerCarrier(perTenant[t])
    ensures Pooled(Flatten(perTenant), c).tenants == |TenantsThatShipped(perTenant, c)|
  {
    if perTenant != [] {
      var last := |perTenant| - 1;
      TenantsAreCounted(perTenant[..last], c);
      OneTenantCountsOnce(perTenant[last], c);
      PooledConcat(Flatten(perTenant[..last]), perTenant[last], c);
      LastTenant(perTenant, c);
    }
  }

  lemma LastTenant(perTenant: seq<seq<Observations>>, c: CarrierId)
    requires perTenant != []
    ensures var last := |perTenant| - 1;
            |TenantsThatShipped(perTenant, c)|
            == |TenantsThatShipped(perTenant[..last], c)| + if Ships(perTenant[last], c) then 1 else 0
  {
    var last := |perTenant| - 1;
    var front := perTenant[..last];
    var before, after := TenantsThatShipped(front, c), TenantsThatShipped(perTenant, c);
    var ships := Ships(perTenant[last], c);
    forall t ensures t in after <==> t in before || (t == last && ships) {
      if 0 <= t < last {
        assert front[t] == perTenant[t];
      }
    }
    OneMore(before, after, last, ships);
  }

  lemma OneMore(before: set<nat>, after: set<nat>, x: nat, added: bool)
    requires forall t :: t in after <==> t in before || (t == x && added)
    requires x !in before
    ensures |after| == |before| + if added then 1 else 0
  {
    assert after == if added then before + {x} else before;
  }

  // ----- the pooled share is a mean of the tenants' shares -----

  /** The four shares of the baseline. */
  datatype Measure = OnTimeShare | BrokenShare | IncidentShare | TransparentShare

  function Part(m: Measure, t: Totals): int {
    match m
    case OnTimeShare => t.onTime
    case BrokenShare => t.broken
    case IncidentShare => t.withIncident
    case TransparentShare => t.transparent
  }

  function Whole(m: Measure, t: Totals): int {
    if m == OnTimeShare then t.withDeadline else t.finalized
  }

  /** How far p/w lies above the share of `t`, scaled by both wholes. */
  function Excess(m: Measure, t: Totals, p: int, w: int): int {
    p * Whole(m, t) - Part(m, t) * w
  }

  lemma ExcessAdds(m: Measure, x: Totals, y: Totals, p: int, w: int)
    ensures Excess(m, Plus(x, y), p, w) == Excess(m, x, p, w) + Excess(m, y, p, w)
  {
    assert p * (Whole(m, x) + Whole(m, y)) == p * Whole(m, x) + p * Whole(m, y);
    assert (Part(m, x) + Part(m, y)) * w == Part(m, x) * w + Part(m, y) * w;
  }

  lemma ExcessOfEmptyShare(m: Measure, o: Observations, p: int, w: int)
    requires Consistent(o) && Whole(m, Counted(o)) == 0
    ensures Excess(m, Counted(o), p, w) == 0
  {
  }

  /** Rows of one carrier that contribute to a share. */
  ghost predicate Contributes(o: Observations, rows: seq<Observations>, c: CarrierId, m: Measure) {
    o in rows && ShippedBy(o, c) && Whole(m, Counted(o)) > 0
  }

  /** Where nothing lies on the far side of p/w the pool does not either, and where something does, it is named. */
  lemma {:induction false} SomeContributorBelow(rows: seq<Observations>, c: CarrierId, m: Measure, p: int, w: int)
    returns (found: Option<Observations>)
    requires forall o :: o in rows ==> Consistent(o)
    ensures found.Some? ==> Contributes(found.value, rows, c, m) && Excess(m, Counted(found.value), p, w) >= 0
    ensures found.None? ==> Excess(m, Pooled(rows, c), p, w) <= 0
    ensures found.None? && Whole(m, Pooled(rows, c)) > 0 ==> Excess(m, Pooled(rows, c), p, w) < 0
    ensures 0 <= Whole(m, Pooled(rows, c))
  {
    if rows == [] {
      found := None;
    } else {
      var last := |rows| - 1;
      var o := rows[last];
      assert o in rows && forall x :: x in rows[..last] ==> x in rows;
      found := SomeContributorBelow(rows[..last], c, m, p, w);
      if found.None? && ShippedBy(o, c) {
        ExcessAdds(m, Pooled(rows[..last], c), Counted(o), p, w);
        if Whole(m, Counted(o)) == 0 {
          ExcessOfEmptyShare(m, o, p, w);
        } else if Excess(m, Counted(o), p, w) >= 0 {
          found := Some(o);
        }
      }
    }
  }

  lemma ExcessNegates(m: Measure, t: Totals, p: int, w: int)
    ensures Excess(m, t, -p, -w) == -Excess(m, t, p, w)
  {
  }

  /**
   The pooled rate is never outside what the tenants measured themselves: some contributor's rounded rate
   is no larger and some contributor's is no smaller.
   */
  lemma PooledRateIsBetween(rows: seq<Observations>, c: CarrierId, m: Measure)
    requires forall o :: o in rows ==> Consistent(o)
    requires Whole(m, Pooled(rows, c)) > 0
    ensures var pooled := Rate(Part(m, Pooled(rows, c)), Whole(m, Pooled(rows, c))).value;
            && (exists o :: Contributes(o, rows, c, m) && Rate(Part(m, Counted(o)), Whole(m, Counted(o))).value <= pooled)
            && (exists o :: Contributes(o, rows, c, m) && pooled <= Rate(Part(m, Counted(o)), Whole(m, Counted(o))).value)
  {
    var p, w := Part(m, Pooled(rows, c)), Whole(m, Pooled(rows, c));
    assert Excess(m, Pooled(rows, c), p, w) == 0;
    var low := SomeContributorBelow(rows, c, m, p, w);
    var l := Counted(low.value);
    RateMonotone(Part(m, l), Whole(m, l), p, w);
    ExcessNegates(m, Pooled(rows, c), p, w);
    var high := SomeContributorBelow(rows, c, m, -p, -w);
    var h := Counted(high.value);
    ExcessNegates(m, h, p, w);
    RateMonotone(p, w, Part(m, h), Whole(m, h));
    assert Contributes(low.value, rows, c, m) && Contributes(high.value, rows, c, m);
  }

  // ----- the saved baseline -----

  function OrDefault(measured: Option<real>, default: real): real {
    if measured.None? then default else measured.value
  }

  function PriorFromTotals(t: Totals): Prior {
    Prior(
      OrDefault(Rate(t.onTime, t.withDeadline), NEUTRAL.onTime),
      OrDefault(Inverse(t.broken, t.finalized), NEUTRAL.reliability),
      OrDefault(Inverse(t.withIncident, t.finalized), NEUTRAL.incidentFree),
      NEUTRAL.priceIndex,
      OrDefault(Rate(t.transparent, t.finalized), NEUTRAL.dataQuality))
  }

  /** The row of the baseline table: four-decimal columns that may be empty, and no price. */
  datatype Baseline = Baseline(
    tenantsCount: int, sampleSize: int,
    onTimeRate: Option<real>, reliability: Option<real>, incidentFree: Option<real>, dataQuality: Option<real>)

  function BaselineOf(t: Totals): Baseline {
    var prior := PriorFromTotals(t);
    Baseline(t.tenants, t.finalized,
      Some(Quantize4(prior.onTime)), Some(Quantize4(prior.reliability)),
      Some(Quantize4(prior.incidentFree)), Some(Quantize4(prior.dataQuality)))
  }

  function PriorOf(baseline: Option<Baseline>): Option<Prior> {
    if baseline.None? then None
    else
      var b := baseline.value;
      Some(Prior(
        if b.onTimeRate.Some? then b.onTimeRate.value else NEUTRAL.onTime,
        if b.reliability.Some? then b.reliability.value else NEUTRAL.reliability,
        if b.incidentFree.Some? then b.incidentFree.value else NEUTRAL.incidentFree,
        NEUTRAL.priceIndex,
        if b.dataQuality.Some? then b.dataQuality.value else NEUTRAL.dataQuality))
  }

  lemma StoredRate(part: int, whole: int, default: real)
    requires default == 0.5
    ensures Quantize4(OrDefault(Rate(part, whole), default)) == OrDefault(Rate(part, whole), default)
    ensures Quantize4(OrDefault(Inverse(part, whole), default)) == OrDefault(Inverse(part, whole), default)
  {
    Quantize4KeepsFourDecimals(5000);
    if whole > 0 {
      InverseIsRateOfRest(part, whole);
      Quantize4KeepsFourDecimals(HalfEven(part as real / whole as real * 10000.0));
      Quantize4KeepsFourDecimals(HalfEven((whole - part) as real / whole as real * 10000.0));
    }
  }

  /**
   Saving a pool and loading it back gives the same prior, and a measured zero stays zero on the way: a carrier
   that was never on time is not turned into an average one.
   */
  lemma BaselineRoundTrip(t: Totals)
    ensures PriorOf(Some(BaselineOf(t))) == Some(PriorFromTotals(t))
    ensures t.withDeadline > 0 && t.onTime == 0 ==> PriorOf(Some(BaselineOf(t))).value.onTime == 0.0
    ensures t.finalized > 0 && t.broken == t.finalized ==> PriorOf(Some(BaselineOf(t))).value.reliability == 0.0
    ensures t.finalized > 0 && t.withIncident == t.finalized ==> PriorOf(Some(BaselineOf(t))).value.incidentFree == 0.0
    ensures t.finalized > 0 && t.transparent == 0 ==> PriorOf(Some(BaselineOf(t))).value.dataQuality == 0.0
    ensures t.withDeadline <= 0 ==> PriorOf(Some(BaselineOf(t))).value.onTime == 0.5
  {
    StoredRate(t.onTime, t.withDeadline, 0.5);
    StoredRate(t.broken, t.finalized, 0.5);
    StoredRate(t.withIncident, t.finalized, 0.5);
    StoredRate(t.transparent, t.finalized, 0.5);
    Quantize4KeepsFourDecimals(0);
    if t.finalized > 0 {
      InverseIsRateOfRest(t.broken, t.finalized);
      InverseIsRateOfRest(t.withIncident, t.finalized);
    }
  }

  lemma PooledIsProper(rows: seq<Observations>, c: CarrierId)
    requires forall o :: o in rows ==> Consistent(o)
    ensures var t := Pooled(rows, c);
            && 0 <= t.onTime <= t.withDeadline <= t.finalized
            && 0 <= t.broken <= t.finalized && 0 <= t.withIncident <= t.finalized && 0 <= t.transparent <= t.finalized
  {
    if rows != [] {
      assert rows[|rows| - 1] in rows && forall x :: x in rows[..|rows| - 1] ==> x in rows;
      PooledIsProper(rows[..|rows| - 1], c);
    }
  }

  /** What the pool produces is a prior the formula accepts: every share in [0, 1]. */
  lemma PooledPriorInUnit(rows: seq<Observations>, c: CarrierId)
    requires forall o :: o in rows ==> Consistent(o)
    ensures InUnit(PriorFromTotals(Pooled(rows, c)))
  {
    PooledIsProper(rows, c);
    var t := Pooled(rows, c);
    RateInUnit(t.onTime, t.withDeadline);
    RateInUnit(t.broken, t.finalized);
    RateInUnit(t.withIncident, t.finalized);
    RateInUnit(t.transparent, t.finalized);
  }
}
