/**
 The two steps of a recalculation over the tables: first the anonymous platform baselines,
 then one snapshot per carrier of a tenant.
 */
module ScoreService {
  import opened Options
  import opened Rounding
  import opened CarrierScore
  import opened ScoreInputs
  import opened PlatformPool

  type TenantId = nat

  datatype Period = Period(start: int, end: int)
  datatype BaselineKey = BaselineKey(carrier: CarrierId, period: Period, version: string)
  datatype SnapshotKey = SnapshotKey(tenant: TenantId, carrier: CarrierId, period: Period, version: string)

  datatype Snapshot = Snapshot(
    sampleSize: int,
    components: Components,
    incidentRate: Option<real>,
    result: ScoreResult,
    platformSampleSize: Option<int>)

  /** A row of the baselines: when it was first written is never updated. */
  datatype Stored = Stored(baseline: Baseline, calculatedAt: int)

  type Baselines = map<BaselineKey, Stored>

  const FORMULA_VERSION := "score-2.0.0"

  // ----- specification: what the tables hold afterwards -----

  predicate Published(perTenant: seq<seq<Observations>>, c: CarrierId) {
    Ships(Flatten(perTenant), c) && Pooled(Flatten(perTenant), c).IsPublishable()
  }

  ghost function CarriersOf(rows: seq<Observations>): set<CarrierId> {
    set o | o in rows :: o.carrier
  }

  ghost function BaselinesOf(perTenant: seq<seq<Observations>>, period: Period): map<BaselineKey, Baseline> {
    map c | c in CarriersOf(Flatten(perTenant)) && Published(perTenant, c)
      :: BaselineKey(c, period, FORMULA_VERSION) := BaselineOf(Pooled(Flatten(perTenant), c))
  }

  /** The table after a save: a row of the same carrier, period and version gets new figures and keeps its time. */
  ghost function Saved(table: Baselines, written: map<BaselineKey, Baseline>, now: int): Baselines {
    map k | k in table.Keys + written.Keys ::
      if k in written then Stored(written[k], if k in table then table[k].calculatedAt else now) else table[k]
  }

  // ----- the baselines that a recalculation loads -----

  /** The row comes strictly before the other in the order of the query: a later period, or the same and written later. */
  predicate Fresher(table: Baselines, k: BaselineKey, other: BaselineKey)
    requires k in table && other in table
  {
    k.period.end > other.period.end || (k.period.end == other.period.end && table[k].calculatedAt > table[other].calculatedAt)
  }

  /** The query may give the one row before the other: by carrier, the fresher first, ties in any order. */
  predicate MayPrecede(table: Baselines, k: BaselineKey, other: BaselineKey) {
    && k in table && other in table
    && (k.carrier < other.carrier || (k.carrier == other.carrier && !Fresher(table, other, k)))
  }

  /** A list the query may give: every row once, in its order. */
  ghost predicate IsListing(table: Baselines, listing: seq<BaselineKey>) {
    && multiset(listing) == multiset(table.Keys)
    && (forall k :: k in listing ==> k in table)
    && (forall i, j :: 0 <= i < j < |listing| ==> MayPrecede(table, listing[i], listing[j]))
  }

  /** The first row of each carrier is kept. */
  function FirstOfEach(listing: seq<BaselineKey>): map<CarrierId, BaselineKey> {
    if listing == [] then map[]
    else
      var front, last := FirstOfEach(listing[..|listing| - 1]), listing[|listing| - 1];
      if last.carrier in front then front else front[last.carrier := last]
  }

  /** What was loaded: of every carrier in the table one row, and none of that carrier is fresher. */
  ghost predicate IsLatest(table: Baselines, latest: map<CarrierId, BaselineKey>) {
    && (forall c :: c in latest <==> exists k :: k in table && k.carrier == c)
    && (forall c :: c in latest ==> latest[c] in table && latest[c].carrier == c)
    && (forall c, k :: c in latest && k in table && k.carrier == c ==> !Fresher(table, k, latest[c]))
  }

  /** What a recalculation is given: the figures of the rows that were kept. */
  function Loaded(table: Baselines, listing: seq<BaselineKey>): map<CarrierId, Baseline>
    requires forall k :: k in listing ==> k in table
  {
    if listing == [] then map[]
    else
      var front, last := Loaded(table, listing[..|listing| - 1]), listing[|listing| - 1];
      if last.carrier in front then front else front[last.carrier := table[last].baseline]
  }

  lemma {:induction false} LoadedIs(table: Baselines, listing: seq<BaselineKey>)
    requires forall k :: k in listing ==> k in table
    ensures Loaded(table, listing).Keys == FirstOfEach(listing).Keys
    ensures forall c :: c in Loaded(table, listing) ==>
              FirstOfEach(listing)[c] in table && Loaded(table, listing)[c] == table[FirstOfEach(listing)[c]].baseline
  {
    if listing != [] {
      LoadedIs(table, listing[..|listing| - 1]);
    }
  }

  lemma {:induction false} FirstIsFirst(listing: seq<BaselineKey>, i: nat)
    requires i < |listing|
    ensures listing[i].carrier in FirstOfEach(listing)
    ensures exists j :: 0 <= j <= i && FirstOfEach(listing)[listing[i].carrier] == listing[j]
  {
    var n := |listing| - 1;
    if i < n {
      FirstIsFirst(listing[..n], i);
      var j :| 0 <= j <= i && FirstOfEach(listing[..n])[listing[..n][i].carrier] == listing[..n][j];
      assert FirstOfEach(listing)[listing[i].carrier] == listing[j];
    } else if listing[n].carrier in FirstOfEach(listing[..n]) {
      var j := FirstComesFrom(listing[..n], listing[n].carrier);
      assert listing[..n][j] == listing[j];
    } else {
      assert FirstOfEach(listing)[listing[n].carrier] == listing[n];
    }
  }

  lemma {:induction false} FirstComesFrom(listing: seq<BaselineKey>, c: CarrierId) returns (j: nat)
    requires c in FirstOfEach(listing)
    ensures j < |listing| && listing[j] == FirstOfEach(listing)[c] && listing[j].carrier == c
  {
    var n := |listing| - 1;
    if c in FirstOfEach(listing[..n]) {
      j := FirstComesFrom(listing[..n], c);
    } else {
      j := n;
    }
  }

  /** Keeping the first row of each carrier keeps a freshest one. */
  lemma FirstIsLatest(table: Baselines, listing: seq<BaselineKey>)
    requires IsListing(table, listing)
    ensures IsLatest(table, FirstOfEach(listing))
  {
    var latest := FirstOfEach(listing);
    forall c | c in latest
      ensures latest[c] in table && latest[c].carrier == c
    {
      var j := FirstComesFrom(listing, c);
      assert listing[j] in multiset(listing);
    }
    forall k | k in table
      ensures k.carrier in latest && !Fresher(table, k, latest[k.carrier])
    {
      assert k in multiset(listing);
      var i :| 0 <= i < |listing| && listing[i] == k;
      FirstIsFirst(listing, i);
      var j :| 0 <= j <= i && latest[k.carrier] == listing[j];
      assert j < i ==> MayPrecede(table, listing[j], listing[i]);
    }
  }

  function EmptyObservations(c: CarrierId): Observations {
    Observations(c, 0, 0, 0, 0, 0, 0, None)
  }

  function RowOf(rows: seq<Observations>, c: CarrierId): Observations {
    if rows == [] then EmptyObservations(c)
    else if rows[0].carrier == c then rows[0]
    else RowOf(rows[1..], c)
  }

  function SnapshotOf(o: Observations, market: Option<int>, baseline: Option<Baseline>): Snapshot {
    Snapshot(
      o.finalized,
      ComponentsOf(o, market),
      Rate(o.withIncident, o.finalized),
      ScoreFrom(ComponentsOf(o, market), o.finalized, PriorOf(baseline)),
      if baseline.Some? then Some(baseline.value.sampleSize) else None)
  }

  function Lookup<K, V>(m: map<K, V>, k: K): Option<V> {
    if k in m then Some(m[k]) else None
  }

  /** What a recalculation writes for a carrier that was used or has a baseline. */
  function SnapshotFor(rows: seq<Observations>, latest: map<CarrierId, Baseline>, c: CarrierId): Snapshot {
    SnapshotOf(RowOf(rows, c), MarketMedian(rows), Lookup(latest, c))
  }

  ghost function SnapshotsOf(tenant: TenantId, period: Period, rows: seq<Observations>, latest: map<CarrierId, Baseline>)
    : map<SnapshotKey, Snapshot>
  {
    map c | c in CarriersOf(rows) + latest.Keys
      :: SnapshotKey(tenant, c, period, FORMULA_VERSION) := SnapshotFor(rows, latest, c)
  }

  lemma {:induction false} RowOfPresent(rows: seq<Observations>, i: nat)
    requires i < |rows| && OneRowPerCarrier(rows)
    ensures RowOf(rows, rows[i].carrier) == rows[i]
  {
    if i > 0 {
      assert rows[0].carrier != rows[i].carrier;
      RowOfPresent(rows[1..], i - 1);
    }
  }

  lemma {:induction false} RowOfAbsent(rows: seq<Observations>, c: CarrierId)
    requires c !in CarriersOf(rows)
    ensures RowOf(rows, c) == EmptyObservations(c)
  {
    if rows != [] {
      assert rows[0] in rows;
      assert forall o :: o in rows[1..] ==> o in rows;
      RowOfAbsent(rows[1..], c);
    }
  }

  // ----- writing row after row into a keyed table -----

  ghost function Put<K, V>(entries: seq<(K, V)>): map<K, V> {
    if entries == [] then map[]
    else Put(entries[..|entries| - 1])[entries[|entries| - 1].0 := entries[|entries| - 1].1]
  }

  lemma {:induction false} PutKeys<K, V>(entries: seq<(K, V)>)
    ensures forall k :: k in Put(entries) ==> exists i :: 0 <= i < |entries| && entries[i] == (k, Put(entries)[k])
    ensures forall i :: 0 <= i < |entries| ==> entries[i].0 in Put(entries)
  {
    if entries != [] {
      var last := |entries| - 1;
      PutKeys(entries[..last]);
      forall k | k in Put(entries) ensures exists i :: 0 <= i < |entries| && entries[i] == (k, Put(entries)[k]) {
        if k == entries[last].0 {
          assert entries[last] == (k, Put(entries)[k]);
        } else {
          var i :| 0 <= i < last && entries[..last][i] == (k, Put(entries[..last])[k]);
          assert entries[i] == (k, Put(entries)[k]);
        }
      }
    }
  }

  /** Entries that agree with a table and cover it write exactly that table. */
  lemma {:induction false} PutIs<K, V>(entries: seq<(K, V)>, table: map<K, V>)
    requires forall i :: 0 <= i < |entries| ==> entries[i].0 in table && table[entries[i].0] == entries[i].1
    requires forall k :: k in table ==> exists i :: 0 <= i < |entries| && entries[i].0 == k
    ensures Put(entries) == table
  {
    PutKeys(entries);
  }

  class ScoreTables {
    var baselines: Baselines
    var snapshots: map<SnapshotKey, Snapshot>

    constructor ()
      ensures baselines == map[] && snapshots == map[]
    {
      baselines, snapshots := map[], map[];
    }

    /** Write a baseline, or new figures over the one of the same carrier, period and version. */
    method UpsertBaseline(k: BaselineKey, baseline: Baseline, now: int)
      modifies this`baselines
      ensures baselines == Saved(old(baselines), map[k := baseline], now)
    {
      if k in baselines {
        baselines := baselines[k := baselines[k].(baseline := baseline)];
      } else {
        baselines := baselines[k := Stored(baseline, now)];
      }
    }

    /** Add up the tenants and write what passed both thresholds; the rest is not written at all. */
    method SaveBaselines(period: Period, perTenant: seq<seq<Observations>>, now: int)
      modifies this`baselines
      ensures baselines == Saved(old(baselines), BaselinesOf(perTenant, period), now)
    {
      ghost var before := baselines;
      var pools := Accumulate(perTenant);
      SavedNothing(before, now);
      for i := 0 to |pools|
        invariant baselines == Saved(before, Put(BaselineEntries(pools[..i], period)), now)
      {
        var pool := pools[i];
        assert pools[..i + 1] == pools[..i] + [pool];
        BaselineEntriesStep(pools[..i], pool, period);
        if pool.totals.IsPublishable() {
          SavedTwice(before, Put(BaselineEntries(pools[..i], period)), BaselineKey(pool.carrier, period, FORMULA_VERSION),
                     BaselineOf(pool.totals), now);
          UpsertBaseline(BaselineKey(pool.carrier, period, FORMULA_VERSION), BaselineOf(pool.totals), now);
        }
      }
      assert pools[..|pools|] == pools;
      BaselinesAreWritten(pools, perTenant, period);
    }

    /** The freshest baseline of each carrier, from the rows in the order of the query. */
    method LatestBaselines(listing: seq<BaselineKey>) returns (latest: map<CarrierId, Baseline>)
      requires IsListing(baselines, listing)
      ensures latest == Loaded(baselines, listing)
    {
      latest := map[];
      for i := 0 to |listing|
        invariant latest == Loaded(baselines, listing[..i])
      {
        assert listing[..i + 1][..i] == listing[..i];
        if listing[i].carrier !in latest {
          latest := latest[listing[i].carrier := baselines[listing[i]].baseline];
        }
      }
      assert listing[..|listing|] == listing;
    }

    /** Score every carrier the tenant used and every carrier that only has a baseline. */
    method Recalculate(tenant: TenantId, period: Period, observations: seq<Observations>, listing: seq<BaselineKey>)
      requires OneRowPerCarrier(observations) && IsListing(baselines, listing)
      modifies this`snapshots
      ensures snapshots
           == old(snapshots) + SnapshotsOf(tenant, period, observations, Loaded(baselines, listing))
    {
      var latest := LatestBaselines(listing);
      WriteSnapshots(tenant, period, observations, latest);
    }

    method WriteSnapshots(tenant: TenantId, period: Period, observations: seq<Observations>, latest: map<CarrierId, Baseline>)
      requires OneRowPerCarrier(observations)
      modifies this`snapshots
      ensures snapshots == old(snapshots) + SnapshotsOf(tenant, period, observations, latest)
    {
      var market := MarketMedian(observations);
      var rows := RowsToScore(observations, latest.Keys);
      ghost var before := snapshots;
      NothingWritten(before, tenant, period, market, latest);
      for i := 0 to |rows|
        invariant snapshots == WithSnapshots(before, tenant, period, rows[..i], market, latest)
      {
        SnapshotEntriesStep(before, tenant, period, rows, i, market, latest);
        UpsertSnapshot(tenant, period, rows[i], market, latest);
      }
      assert rows[..|rows|] == rows;
      SnapshotsAreWritten(tenant, period, rows, observations, latest);
    }

    method UpsertSnapshot(tenant: TenantId, period: Period, observed: Observations, market: Option<int>,
                          latest: map<CarrierId, Baseline>)
      modifies this`snapshots
      ensures var entry := SnapshotEntry(tenant, period, observed, market, latest);
              snapshots == old(snapshots)[entry.0 := entry.1]
    {
      snapshots := snapshots[SnapshotKey(tenant, observed.carrier, period, FORMULA_VERSION)
        := SnapshotOf(observed, market, Lookup(latest, observed.carrier))];
    }
  }

  lemma SavedNothing(table: Baselines, now: int)
    ensures Saved(table, Put(BaselineEntries([], Period(0, 0))), now) == table && Put<BaselineKey, Baseline>([]) == map[]
  {
  }

  lemma SavedTwice(table: Baselines, written: map<BaselineKey, Baseline>, k: BaselineKey, b: Baseline, now: int)
    ensures Saved(Saved(table, written, now), map[k := b], now) == Saved(table, written[k := b], now)
  {
  }

  lemma {:induction false} PutExtends<K, V>(entries: seq<(K, V)>, k: K, v: V, table: map<K, V>)
    ensures table + Put(entries + [(k, v)]) == (table + Put(entries))[k := v]
  {
    assert (entries + [(k, v)])[..|entries|] == entries;
  }

  ghost function BaselineEntry(pool: PlatformTotals, period: Period): (BaselineKey, Baseline) {
    (BaselineKey(pool.carrier, period, FORMULA_VERSION), BaselineOf(pool.totals))
  }

  ghost function BaselineEntries(pools: seq<PlatformTotals>, period: Period): seq<(BaselineKey, Baseline)> {
    if pools == [] then []
    else
      var last := |pools| - 1;
      BaselineEntries(pools[..last], period)
      + if pools[last].totals.IsPublishable() then [BaselineEntry(pools[last], period)] else []
  }

  lemma {:induction false} BaselineEntriesStep(pools: seq<PlatformTotals>, pool: PlatformTotals, period: Period)
    ensures var entry := BaselineEntry(pool, period);
            var before, after := Put(BaselineEntries(pools, period)), Put(BaselineEntries(pools + [pool], period));
            after == if pool.totals.IsPublishable() then before[entry.0 := entry.1] else before
  {
    assert (pools + [pool])[..|pools|] == pools;
    var entry, entries := BaselineEntry(pool, period), BaselineEntries(pools, period);
    assert entries + [] == entries;
    assert (entries + [entry])[..|entries|] == entries;
  }

  /** An entry of the list comes from a published pool, and every published pool has one. */
  lemma {:induction false} EntryComesFrom(pools: seq<PlatformTotals>, period: Period, w: nat) returns (j: nat)
    requires w < |BaselineEntries(pools, period)|
    ensures j < |pools| && pools[j].totals.IsPublishable()
    ensures BaselineEntries(pools, period)[w] == BaselineEntry(pools[j], period)
  {
    var last := |pools| - 1;
    if w < |BaselineEntries(pools[..last], period)| {
      j := EntryComesFrom(pools[..last], period, w);
    } else {
      j := last;
    }
  }

  lemma {:induction false} EntryIsWritten(pools: seq<PlatformTotals>, period: Period, j: nat) returns (w: nat)
    requires j < |pools| && pools[j].totals.IsPublishable()
    ensures w < |BaselineEntries(pools, period)|
    ensures BaselineEntries(pools, period)[w] == BaselineEntry(pools[j], period)
  {
    var last := |pools| - 1;
    if j < last {
      w := EntryIsWritten(pools[..last], period, j);
    } else {
      w := |BaselineEntries(pools[..last], period)|;
    }
  }

  lemma {:induction false} BaselinesAreWritten(pools: seq<PlatformTotals>, perTenant: seq<seq<Observations>>, period: Period)
    requires forall c :: Ships(Flatten(perTenant), c) <==> exists i :: 0 <= i < |pools| && pools[i].carrier == c
    requires forall i :: 0 <= i < |pools| ==> pools[i].totals == Pooled(Flatten(perTenant), pools[i].carrier)
    ensures Put(BaselineEntries(pools, period)) == BaselinesOf(perTenant, period)
  {
    var table, written := BaselinesOf(perTenant, period), BaselineEntries(pools, period);
    forall w | 0 <= w < |written| ensures written[w].0 in table && table[written[w].0] == written[w].1 {
      var j := EntryComesFrom(pools, period, w);
      PublishedIsKnown(perTenant, pools[j].carrier);
    }
    forall k | k in table ensures exists w :: 0 <= w < |written| && written[w].0 == k {
      var j :| 0 <= j < |pools| && pools[j].carrier == k.carrier;
      var w := EntryIsWritten(pools, period, j);
    }
    PutIs(written, table);
  }

  ghost function SnapshotEntry(tenant: TenantId, period: Period, o: Observations, market: Option<int>,
    latest: map<CarrierId, Baseline>): (SnapshotKey, Snapshot)
  {
    (SnapshotKey(tenant, o.carrier, period, FORMULA_VERSION), SnapshotOf(o, market, Lookup(latest, o.carrier)))
  }

  ghost function SnapshotEntries(tenant: TenantId, period: Period, rows: seq<Observations>, market: Option<int>,
    latest: map<CarrierId, Baseline>): seq<(SnapshotKey, Snapshot)>
  {
    seq(|rows|, j requires 0 <= j < |rows| => SnapshotEntry(tenant, period, rows[j], market, latest))
  }

  ghost function WithSnapshots(table: map<SnapshotKey, Snapshot>, tenant: TenantId, period: Period, rows: seq<Observations>,
    market: Option<int>, latest: map<CarrierId, Baseline>): map<SnapshotKey, Snapshot>
  {
    table + Put(SnapshotEntries(tenant, period, rows, market, latest))
  }

  lemma NothingWritten(table: map<SnapshotKey, Snapshot>, tenant: TenantId, period: Period, market: Option<int>,
    latest: map<CarrierId, Baseline>)
    ensures WithSnapshots(table, tenant, period, [], market, latest) == table
  {
  }

  lemma {:induction false} SnapshotEntriesStep(table: map<SnapshotKey, Snapshot>, tenant: TenantId, period: Period,
    rows: seq<Observations>, i: nat, market: Option<int>, latest: map<CarrierId, Baseline>)
    requires i < |rows|
    ensures var entry := SnapshotEntry(tenant, period, rows[i], market, latest);
            WithSnapshots(table, tenant, period, rows[..i + 1], market, latest)
            == WithSnapshots(table, tenant, period, rows[..i], market, latest)[entry.0 := entry.1]
  {
    var entry, entries := SnapshotEntry(tenant, period, rows[i], market, latest), SnapshotEntries(tenant, period, rows[..i], market, latest);
    assert SnapshotEntries(tenant, period, rows[..i + 1], market, latest) == entries + [entry];
    PutExtends(entries, entry.0, entry.1, table);
  }

  lemma {:induction false} SnapshotsAreWritten(tenant: TenantId, period: Period, rows: seq<Observations>,
    observations: seq<Observations>, latest: map<CarrierId, Baseline>)
    requires IsRowsToScore(rows, observations, CarriersOf(observations) + latest.Keys)
    ensures Put(SnapshotEntries(tenant, period, rows, MarketMedian(observations), latest))
         == SnapshotsOf(tenant, period, observations, latest)
  {
    var table := SnapshotsOf(tenant, period, observations, latest);
    var written := SnapshotEntries(tenant, period, rows, MarketMedian(observations), latest);
    forall j | 0 <= j < |written| ensures written[j].0 in table && table[written[j].0] == written[j].1 {
      assert RowOf(observations, rows[j].carrier) == rows[j];
      assert rows[j].carrier in CarriersOf(observations) + latest.Keys;
    }
    forall k | k in table ensures exists j :: 0 <= j < |written| && written[j].0 == k {
      var j :| 0 <= j < |rows| && rows[j].carrier == k.carrier;
      assert written[j].0 == k;
    }
    PutIs(written, table);
  }

  /** One row for each of the given carriers: what was observed of it, or an empty row. */
  ghost predicate IsRowsToScore(rows: seq<Observations>, observations: seq<Observations>, carriers: set<CarrierId>) {
    && OneRowPerCarrier(rows)
    && (forall c :: c in carriers ==> exists j :: 0 <= j < |rows| && rows[j].carrier == c)
    && (forall j :: 0 <= j < |rows| ==> rows[j].carrier in carriers)
    && (forall j :: 0 <= j < |rows| ==> RowOf(observations, rows[j].carrier) == rows[j])
  }

  method RowsToScore(observations: seq<Observations>, known: set<CarrierId>) returns (rows: seq<Observations>)
    requires OneRowPerCarrier(observations)
    ensures IsRowsToScore(rows, observations, CarriersOf(observations) + known)
  {
    var seen := set o | o in observations :: o.carrier;
    rows := observations;
    var missing := known - seen;
    SeenRows(observations);
    ghost var carriers := CarriersOf(observations);
    while missing != {}
      invariant carriers == CarriersOf(observations) + (known - missing)
      invariant missing <= known - seen
      invariant IsRowsToScore(rows, observations, carriers)
    {
      var c :| c in missing;
      WithEmptyRow(rows, observations, carriers, c);
      rows := rows + [EmptyObservations(c)];
      missing := missing - {c};
      carriers := carriers + {c};
    }
    assert carriers == CarriersOf(observations) + known;
  }

  lemma {:induction false} SeenRows(observations: seq<Observations>)
    requires OneRowPerCarrier(observations)
    ensures IsRowsToScore(observations, observations, CarriersOf(observations))
  {
    forall j | 0 <= j < |observations| ensures RowOf(observations, observations[j].carrier) == observations[j] {
      RowOfPresent(observations, j);
    }
    forall c | c in CarriersOf(observations) ensures exists j :: 0 <= j < |observations| && observations[j].carrier == c {
      var o :| o in observations && o.carrier == c;
    }
  }

  lemma {:induction false} WithEmptyRow(rows: seq<Observations>, observations: seq<Observations>, carriers: set<CarrierId>, c: CarrierId)
    requires IsRowsToScore(rows, observations, carriers)
    requires c !in CarriersOf(observations) && c !in carriers
    ensures IsRowsToScore(rows + [EmptyObservations(c)], observations, carriers + {c})
  {
    var more := rows + [EmptyObservations(c)];
    RowOfAbsent(observations, c);
    assert more[|rows|].carrier == c;
    forall d | d in carriers ensures exists j :: 0 <= j < |more| && more[j].carrier == d {
      var j :| 0 <= j < |rows| && rows[j].carrier == d;
      assert more[j].carrier == d;
    }
  }

  // ----- properties of the tables -----

  /** The order in which the tenants are visited leaves no trace in the table. */
  lemma {:induction false} BaselinesIgnoreTenantOrder(p: seq<seq<Observations>>, q: seq<seq<Observations>>, period: Period)
    requires multiset(p) == multiset(q)
    ensures BaselinesOf(p, period) == BaselinesOf(q, period)
  {
    var a, b := BaselinesOf(p, period), BaselinesOf(q, period);
    forall c ensures Published(p, c) <==> Published(q, c)
             ensures Published(p, c) ==> c in CarriersOf(Flatten(p)) && c in CarriersOf(Flatten(q)) {
      PoolIgnoresTenantOrder(p, q, c);
      PublishedIsKnown(p, c);
      PublishedIsKnown(q, c);
    }
    assert forall k :: k in a <==> k in b;
    forall k | k in a ensures a[k] == b[k] {
      PoolIgnoresTenantOrder(p, q, k.carrier);
    }
  }

  lemma {:induction false} PublishedIsKnown(p: seq<seq<Observations>>, c: CarrierId)
    ensures Published(p, c) ==> c in CarriersOf(Flatten(p))
  {
    if Published(p, c) {
      var o :| o in Flatten(p) && ShippedBy(o, c);
      assert o.carrier == c;
    }
  }

  /** A baseline row that points at fewer than three tenants, or at fewer than thirty shipments, is never written. */
  lemma {:induction false} BaselinesAreAnonymous(perTenant: seq<seq<Observations>>, period: Period, key: BaselineKey)
    requires forall t :: 0 <= t < |perTenant| ==> OneRowPerCarrier(perTenant[t])
    ensures key in BaselinesOf(perTenant, period) ==>
              && |TenantsThatShipped(perTenant, key.carrier)| >= 3
              && BaselinesOf(perTenant, period)[key].tenantsCount == |TenantsThatShipped(perTenant, key.carrier)|
              && BaselinesOf(perTenant, period)[key].sampleSize >= 30
    ensures key.period == period && key.version == FORMULA_VERSION && |TenantsThatShipped(perTenant, key.carrier)| < 3 ==>
              key !in BaselinesOf(perTenant, period)
  {
    TenantsAreCounted(perTenant, key.carrier);
  }

  /** A carrier the tenant never used is scored by its baseline alone, and says so. */
  lemma {:induction false} UnusedCarrierShowsTheBaseline(rows: seq<Observations>,
    latest: map<CarrierId, Baseline>, c: CarrierId)
    requires c in latest && c !in CarriersOf(rows) && InUnit(PriorOf(Some(latest[c])).value)
    ensures var snapshot := SnapshotFor(rows, latest, c);
            && snapshot.result.score == Some(HalfUp(100.0 * Weighted(PriorOf(Some(latest[c])).value)))
            && snapshot.result.basis == Platform && snapshot.result.confidence == Low
            && snapshot.sampleSize == 0 && snapshot.platformSampleSize == Some(latest[c].sampleSize)
  {
    RowOfAbsent(rows, c);
    NoShipmentsGiveThePrior(ComponentsOf(EmptyObservations(c), MarketMedian(rows)), PriorOf(Some(latest[c])).value);
  }

  /** The key that a save writes for a carrier. */
  function KeyFor(c: CarrierId, period: Period): BaselineKey {
    BaselineKey(c, period, FORMULA_VERSION)
  }

  /** When the row that a save writes under the key was first written. */
  ghost function TimeOf(table: Baselines, key: BaselineKey, now: int): int {
    if key in table then table[key].calculatedAt else now
  }

  /** The stored row comes strictly behind the one that a save is about to write. */
  ghost predicate Behind(table: Baselines, k: BaselineKey, key: BaselineKey, now: int)
    requires k in table
  {
    k.period.end < key.period.end || (k.period.end == key.period.end && table[k].calculatedAt < TimeOf(table, key, now))
  }

  ghost predicate WillBeFreshest(table: Baselines, key: BaselineKey, now: int) {
    forall k :: k in table && k.carrier == key.carrier && k != key ==> Behind(table, k, key, now)
  }

  /** Whichever freshest row is kept for each carrier, for this carrier it is this row. */
  ghost predicate IsAlwaysLoaded(table: Baselines, k: BaselineKey) {
    forall latest: map<CarrierId, BaselineKey> :: IsLatest(table, latest) ==> k.carrier in latest && latest[k.carrier] == k
  }

  /** A row is loaded in any case if and only if it is strictly fresher than every other of its carrier. */
  lemma AlwaysLoadedIff(table: Baselines, key: BaselineKey)
    requires key in table
    ensures IsAlwaysLoaded(table, key) <==>
              forall k :: k in table && k.carrier == key.carrier && k != key ==> Fresher(table, key, k)
  {
    if k :| k in table && k.carrier == key.carrier && k != key && !Fresher(table, key, k) {
      var latest := SomeLatest(table);
      if latest[key.carrier] == key {
        assert IsLatest(table, latest[key.carrier := k]);
      }
    } else {
      forall latest: map<CarrierId, BaselineKey> | IsLatest(table, latest)
        ensures key.carrier in latest && latest[key.carrier] == key
      {
        assert !Fresher(table, key, latest[key.carrier]);
      }
    }
  }

  lemma {:induction false} SomeLatest(table: Baselines) returns (latest: map<CarrierId, BaselineKey>)
    ensures IsLatest(table, latest)
  {
    if table == map[] {
      latest := map[];
    } else {
      var k :| k in table;
      var rest := table - {k};
      latest := SomeLatest(rest);
      if k.carrier !in latest || Fresher(table, k, latest[k.carrier]) {
        latest := latest[k.carrier := k];
      }
    }
  }

  /**
   A pool that was just saved is what the next recalculation loads for its carrier if and only if no other
   stored row ends later, or ends with it and was written no earlier. A row that is written again keeps its
   first time, so it can stay behind a row of another formula version that was written in between.
   */
  lemma SavedPoolIsLoadedIff(table: Baselines, perTenant: seq<seq<Observations>>, period: Period, now: int, c: CarrierId)
    requires Published(perTenant, c)
    ensures var after := Saved(table, BaselinesOf(perTenant, period), now);
            && KeyFor(c, period) in after
            && after[KeyFor(c, period)].baseline == BaselineOf(Pooled(Flatten(perTenant), c))
            && (IsAlwaysLoaded(after, KeyFor(c, period)) <==> WillBeFreshest(table, KeyFor(c, period), now))
  {
    PublishedIsKnown(perTenant, c);
    var written, key := BaselinesOf(perTenant, period), KeyFor(c, period);
    assert key in written && written[key] == BaselineOf(Pooled(Flatten(perTenant), c));
    assert forall k :: k in written && k.carrier == c ==> k == key;
    LoadedAfterSaving(table, written, key, now);
  }

  lemma LoadedAfterSaving(table: Baselines, written: map<BaselineKey, Baseline>, key: BaselineKey, now: int)
    requires key in written && forall k :: k in written && k.carrier == key.carrier ==> k == key
    ensures IsAlwaysLoaded(Saved(table, written, now), key) <==> WillBeFreshest(table, key, now)
  {
    var after := Saved(table, written, now);
    AlwaysLoadedIff(after, key);
    assert after[key].calculatedAt == TimeOf(table, key, now);
    forall k: BaselineKey | k.carrier == key.carrier && k != key
      ensures k in after <==> k in table
      ensures k in table ==> (Fresher(after, key, k) <==> Behind(table, k, key, now))
    {
    }
  }

  /**
   The steps together, over the table: when the saved pool is the freshest row of its carrier, the score that a
   newcomer then gets for the carrier is computed from the pool of all tenants.
   */
  lemma {:induction false} NewcomerIsScoredByThePool(table: Baselines, perTenant: seq<seq<Observations>>, all: seq<Observations>,
    period: Period, now: int, c: CarrierId, listing: seq<BaselineKey>, rows: seq<Observations>, latest: map<CarrierId, Baseline>)
    requires all == Flatten(perTenant) && forall o :: o in all ==> Consistent(o)
    requires Published(perTenant, c) && c !in CarriersOf(rows) && WillBeFreshest(table, KeyFor(c, period), now)
    requires IsListing(Saved(table, BaselinesOf(perTenant, period), now), listing)
    requires latest == Loaded(Saved(table, BaselinesOf(perTenant, period), now), listing)
    ensures c in latest
    ensures SnapshotFor(rows, latest, c).result.score == Some(HalfUp(100.0 * Weighted(PriorFromTotals(Pooled(all, c)))))
  {
    PoolIsLoaded(table, perTenant, period, now, c, listing);
    PooledNewcomer(rows, latest, c, all);
  }

  lemma PoolIsLoaded(table: Baselines, perTenant: seq<seq<Observations>>, period: Period, now: int, c: CarrierId,
    listing: seq<BaselineKey>)
    requires Published(perTenant, c) && WillBeFreshest(table, KeyFor(c, period), now)
    requires IsListing(Saved(table, BaselinesOf(perTenant, period), now), listing)
    ensures var latest := Loaded(Saved(table, BaselinesOf(perTenant, period), now), listing);
            c in latest && latest[c] == BaselineOf(Pooled(Flatten(perTenant), c))
  {
    SavedPoolIsLoadedIff(table, perTenant, period, now, c);
    LoadedBaseline(Saved(table, BaselinesOf(perTenant, period), now), KeyFor(c, period), listing);
  }

  lemma LoadedBaseline(table: Baselines, key: BaselineKey, listing: seq<BaselineKey>)
    requires IsListing(table, listing) && IsAlwaysLoaded(table, key)
    ensures key in table && key.carrier in Loaded(table, listing) && Loaded(table, listing)[key.carrier] == table[key].baseline
  {
    FirstIsLatest(table, listing);
    LoadedIs(table, listing);
  }

  lemma PooledNewcomer(rows: seq<Observations>, latest: map<CarrierId, Baseline>, c: CarrierId,
    all: seq<Observations>)
    requires forall o :: o in all ==> Consistent(o)
    requires c in latest && latest[c] == BaselineOf(Pooled(all, c)) && c !in CarriersOf(rows)
    ensures SnapshotFor(rows, latest, c).result.score == Some(HalfUp(100.0 * Weighted(PriorFromTotals(Pooled(all, c)))))
  {
    PriorOfThePool(all, c);
    NewcomerScore(rows, latest, c, BaselineOf(Pooled(all, c)), PriorFromTotals(Pooled(all, c)));
  }

  lemma NewcomerScore(rows: seq<Observations>, latest: map<CarrierId, Baseline>, c: CarrierId,
    baseline: Baseline, prior: Prior)
    requires c in latest && latest[c] == baseline && c !in CarriersOf(rows)
    requires PriorOf(Some(baseline)) == Some(prior) && InUnit(prior)
    ensures SnapshotFor(rows, latest, c).result.score == Some(HalfUp(100.0 * Weighted(prior)))
  {
    UnusedCarrierShowsTheBaseline(rows, latest, c);
  }

  lemma PriorOfThePool(all: seq<Observations>, c: CarrierId)
    requires forall o :: o in all ==> Consistent(o)
    ensures PriorOf(Some(BaselineOf(Pooled(all, c)))) == Some(PriorFromTotals(Pooled(all, c)))
    ensures InUnit(PriorFromTotals(Pooled(all, c)))
  {
    PooledPriorInUnit(all, c);
    BaselineRoundTrip(Pooled(all, c));
  }

  /** With a clock that moves on, a first save for a period no older than any stored one is what is loaded. */
  lemma NewestPeriodIsLoaded(table: Baselines, perTenant: seq<seq<Observations>>, period: Period, now: int, c: CarrierId,
    listing: seq<BaselineKey>)
    requires Published(perTenant, c) && KeyFor(c, period) !in table
    requires forall k :: k in table && k.carrier == c ==> k.period.end <= period.end && table[k].calculatedAt < now
    requires IsListing(Saved(table, BaselinesOf(perTenant, period), now), listing)
    ensures var latest := Loaded(Saved(table, BaselinesOf(perTenant, period), now), listing);
            c in latest && latest[c] == BaselineOf(Pooled(Flatten(perTenant), c))
  {
    PoolIsLoaded(table, perTenant, period, now, c, listing);
  }
}
