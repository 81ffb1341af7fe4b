/**
 The nightly synchronisation of one tenant: all carriers it has access to, one after another, over the tables of
 cities and of terminals, in one transaction that writes its terminals at the very end.
 */
module RefSync {
  import opened Options
  import opened Terminals
  import M = CityMappings
  import C = CityMatching

  /** What a carrier sent for one account; `None` stands for an account whose export could not be fetched. */
  datatype Fetched = Fetched(carrier: CarrierId, cities: seq<C.CarrierCity>, catalog: Catalog, now: int)

  type Exports = seq<Option<Fetched>>

  /** The tables inside the transaction, and the new terminals that wait for its end. */
  datatype Session = Session(cities: M.Tables, stored: Table, rows: Table, pending: seq<(Key, Terminal)>)

  datatype RefReport = RefReport(cities: nat, mapped: nat, queued: nat, terminals: Report)

  /** What undoes a transaction: a statement about a city that the database refuses, or its refused end. */
  datatype Failure = CityRefused | EndRefused(why: Refusal)

  // ----- specification -----

  function Synced(o: C.Outside, s: Session, e: Fetched): Session {
    Session(M.PlacedAll(o, e.carrier, s.cities, e.cities),
            StoredAfter(s.stored, e.carrier, e.catalog, e.now),
            Kept(s.stored, s.rows, e.carrier, e.catalog, e.now),
            s.pending + Added(s.rows, e.carrier, e.catalog.terminals, e.now))
  }

  function SyncedUpTo(o: C.Outside, s: Session, exports: Exports, n: nat): (r: Session)
    requires n <= |exports|
    ensures r.rows.Keys == s.rows.Keys && r.stored.Keys == s.stored.Keys
  {
    if n == 0 then s
    else
      var before := SyncedUpTo(o, s, exports, n - 1);
      if exports[n - 1].None? then before else Synced(o, before, exports[n - 1].value)
  }

  /** What the end of the transaction makes of it, when it accepts the rows. */
  function Committed(s: Session): Session {
    var rows := WithAll(s.rows, s.pending);
    Session(s.cities, rows, rows, [])
  }

  /** Between transactions nothing waits, and what is stored fits. */
  ghost predicate IsSettled(s: Session) {
    s.stored == s.rows && s.pending == [] && RowsFit(s.rows)
  }

  /** The database takes what is looked up and what is written for a city: a mapping, or an item of the queue. */
  predicate CityFits(o: C.Outside, row: C.CarrierCity) {
    var found := C.MatchOf(o, row);
    && FitsText(row.code, 50) && FitsText(row.name, 255) && '\0' !in row.fiasId
    && if found.fiasId.Some? then FitsText(found.fiasId.value, 36) else FitsText(row.region, 255)
  }

  predicate CitiesFit(o: C.Outside, rows: seq<C.CarrierCity>) {
    forall i :: 0 <= i < |rows| ==> CityFits(o, rows[i])
  }

  ghost predicate AllCitiesFit(o: C.Outside, exports: Exports, n: nat)
    requires n <= |exports|
  {
    forall i :: 0 <= i < n && exports[i].Some? ==> CitiesFit(o, exports[i].value.cities)
  }

  /** The transaction with these exports is not undone. */
  ghost predicate IsAccepted(o: C.Outside, s: Session, exports: Exports) {
    var reached := SyncedUpTo(o, s, exports, |exports|);
    AllCitiesFit(o, exports, |exports|) && CanEnd(reached.stored, reached.rows, reached.pending)
  }

  /**
   A city is taken when its code has at most fifty characters, its name 255, and what is written of it fits too: the
   identifier it is placed by 36, or the region it waits with 255; and none of these texts has a null character.
   */
  lemma WhichCitiesFit(o: C.Outside, row: C.CarrierCity)
    ensures CityFits(o, row) <==>
              && |row.code| <= 50 && |row.name| <= 255 && '\0' !in row.code + row.name + row.fiasId
              && match C.MatchOf(o, row).fiasId
                 case Some(id) => |id| <= 36 && '\0' !in id
                 case None => |row.region| <= 255 && '\0' !in row.region
  {
  }

  // ----- the service -----

  class RefSyncService {
    const cities: M.CityMappingService
    const terminals: TerminalTable

    constructor ()
      ensures fresh(cities) && fresh(terminals)
      ensures Now() == Session(M.Tables(map[], map[]), map[], map[], [])
    {
      cities := new M.CityMappingService();
      terminals := new TerminalTable();
    }

    function Now(): Session
      reads cities, terminals
    {
      Session(cities.Now(), terminals.stored, terminals.rows, terminals.pending)
    }

    /** The export of one carrier: its cities are placed first, then its terminals are written. */
    method Sync(o: C.Outside, e: Fetched) returns (r: Result<RefReport, Failure>)
      requires Tracks(terminals.stored, terminals.rows)
      modifies cities, terminals
      ensures Tracks(terminals.stored, terminals.rows)
      ensures r.Ok? <==> CitiesFit(o, e.cities)
      ensures r.Ok? ==> cities.Now() == M.PlacedAll(o, e.carrier, old(cities.Now()), e.cities)
      ensures r.Ok? ==> terminals.stored == StoredAfter(old(terminals.stored), e.carrier, e.catalog, e.now)
      ensures r.Ok? ==> terminals.rows == Kept(old(terminals.stored), old(terminals.rows), e.carrier, e.catalog, e.now)
      ensures r.Ok? ==>
                terminals.pending == old(terminals.pending) + Added(old(terminals.rows), e.carrier, e.catalog.terminals, e.now)
      ensures r.Ok? ==> r.value.cities == |e.cities| == r.value.mapped + r.value.queued
      ensures r.Ok? ==>
                r.value.terminals.total == |e.catalog.terminals| == r.value.terminals.created + r.value.terminals.updated
      ensures r.Ok? ==> r.value.terminals.deactivated == SwitchedOff(old(terminals.stored), e.carrier, e.catalog)
    {
      var placed := PlaceCities(o, e.carrier, e.cities);
      if placed.None? {
        return Err(CityRefused);
      }
      var written := terminals.Write(e.carrier, e.catalog, e.now);
      return Ok(RefReport(|e.cities|, placed.value.0, placed.value.1, written));
    }

    /** The cities up to the first that the database refuses; how many were mapped and queued when it takes them all. */
    method PlaceCities(o: C.Outside, carrier: CarrierId, rows: seq<C.CarrierCity>) returns (placed: Option<(nat, nat)>)
      modifies cities
      ensures placed.Some? <==> CitiesFit(o, rows)
      ensures placed.Some? ==> cities.Now() == M.PlacedAll(o, carrier, old(cities.Now()), rows)
      ensures placed.Some? ==> placed.value.0 + placed.value.1 == |rows|
      ensures placed.None? ==> exists n :: 0 <= n < |rows| && CitiesFit(o, rows[..n]) && !CityFits(o, rows[n])
                                           && cities.Now() == M.PlacedAll(o, carrier, old(cities.Now()), rows[..n])
    {
      var n := FirstUnfit(o, rows);
      var counters := cities.MatchCarrierCities(o, carrier, rows[..n]);
      if n < |rows| {
        return None;
      }
      assert rows[..n] == rows;
      CitiesAddUp(o, rows, counters);
      return Some((counters.Mapped(), counters.queued));
    }

    /** All accounts of a tenant in one transaction. What could not be fetched is skipped; a refused statement spoils the rest. */
    method SyncTenant(o: C.Outside, exports: Exports) returns (upserted: Result<nat, Failure>)
      requires IsSettled(Now())
      modifies cities, terminals
      ensures IsSettled(Now())
      ensures upserted.Ok? <==> IsAccepted(o, old(Now()), exports)
      ensures Now() == if upserted.Ok? then Committed(SyncedUpTo(o, old(Now()), exports, |exports|)) else old(Now())
      ensures upserted.Ok? ==> upserted.value == Upserted(exports, |exports|)
    {
      ghost var start := Now();
      var mappings, queue, rows := cities.mappings, cities.queue, terminals.rows;
      var total := SyncAll(o, exports);
      if total.None? {
        cities.mappings, cities.queue := mappings, queue;
        terminals.Rollback(rows);
        return Err(CityRefused);
      }
      ghost var reached := Now();
      var refusal := terminals.Commit(rows);
      if refusal.Some? {
        cities.mappings, cities.queue := mappings, queue;
        return Err(EndRefused(refusal.value));
      }
      AcceptedFits(o, start, exports, |exports|);
      return Ok(total.value);
    }

    /** The loop over the accounts, inside the transaction. */
    method SyncAll(o: C.Outside, exports: Exports) returns (total: Option<nat>)
      requires Tracks(terminals.stored, terminals.rows)
      modifies cities, terminals
      ensures total.Some? <==> AllCitiesFit(o, exports, |exports|)
      ensures total.Some? ==> Now() == SyncedUpTo(o, old(Now()), exports, |exports|)
      ensures total.Some? ==> total.value == Upserted(exports, |exports|)
    {
      ghost var start := Now();
      var sum := 0;
      for i := 0 to |exports|
        invariant Tracks(terminals.stored, terminals.rows) && AllCitiesFit(o, exports, i)
        invariant Now() == SyncedUpTo(o, start, exports, i)
        invariant sum == Upserted(exports, i)
      {
        if exports[i].Some? {
          var upserted := SyncFetched(o, exports[i].value);
          if upserted.None? {
            return None;
          }
          sum := sum + upserted.value;
        }
      }
      return Some(sum);
    }

    method SyncFetched(o: C.Outside, e: Fetched) returns (upserted: Option<nat>)
      requires Tracks(terminals.stored, terminals.rows)
      modifies cities, terminals
      ensures Tracks(terminals.stored, terminals.rows)
      ensures upserted.Some? <==> CitiesFit(o, e.cities)
      ensures upserted.Some? ==> Now() == Synced(o, old(Now()), e) && upserted.value == |e.catalog.terminals|
    {
      var report := Sync(o, e);
      return if report.Ok? then Some(report.value.terminals.created + report.value.terminals.updated) else None;
    }
  }

  method FirstUnfit(o: C.Outside, rows: seq<C.CarrierCity>) returns (n: nat)
    ensures n <= |rows| && CitiesFit(o, rows[..n])
    ensures n < |rows| ==> !CityFits(o, rows[n])
  {
    n := 0;
    while n < |rows| && CityFits(o, rows[n])
      invariant n <= |rows| && CitiesFit(o, rows[..n])
    {
      n := n + 1;
    }
  }

  lemma CitiesAddUp(o: C.Outside, cities: seq<C.CarrierCity>, counters: M.Counters)
    requires counters == M.CountedAll(o, cities)
    ensures counters.Mapped() + counters.queued == |cities|
  {
    M.EveryCityIsCounted(o, cities);
  }

  function Upserted(exports: Exports, n: nat): nat
    requires n <= |exports|
  {
    if n == 0 then 0
    else Upserted(exports, n - 1) + if exports[n - 1].Some? then |exports[n - 1].value.catalog.terminals| else 0
  }

  // ----- when the transaction is accepted -----

  /** The export mentions a terminal that the table does not know. */
  predicate IsNewIn(rows: Table, e: Fetched, k: Key) {
    k.0 == e.carrier && k !in rows && k.1 in Codes(e.catalog.terminals)
  }

  /** Two accounts of one carrier mention the same new terminal. */
  ghost predicate ShareANewCode(rows: Table, a: Option<Fetched>, b: Option<Fetched>) {
    a.Some? && b.Some? && exists k :: IsNewIn(rows, a.value, k) && IsNewIn(rows, b.value, k)
  }

  ghost predicate RepeatsItself(rows: Table, a: Option<Fetched>) {
    a.Some? && RepeatsANewCode(rows, a.value.carrier, a.value.catalog.terminals)
  }

  /** Some new terminal comes twice in the first n exports, in one of them or in two. */
  ghost predicate Clashes(rows: Table, exports: Exports, n: nat)
    requires n <= |exports|
  {
    || (exists i :: 0 <= i < n && RepeatsItself(rows, exports[i]))
    || (exists i, j :: 0 <= i < j < n && ShareANewCode(rows, exports[i], exports[j]))
  }

  lemma {:induction false} PendingKeys(o: C.Outside, s: Session, exports: Exports, n: nat, k: Key)
    requires n <= |exports| && s.pending == []
    ensures HasKey(SyncedUpTo(o, s, exports, n).pending, k)
            <==> exists i :: 0 <= i < n && exports[i].Some? && IsNewIn(s.rows, exports[i].value, k)
  {
    if n > 0 {
      PendingKeys(o, s, exports, n - 1, k);
      if exports[n - 1].Some? {
        var before, e := SyncedUpTo(o, s, exports, n - 1), exports[n - 1].value;
        var added := Added(before.rows, e.carrier, e.catalog.terminals, e.now);
        AddedKeys(before.rows, e.carrier, e.catalog.terminals, e.now, k);
        KeyOfBoth(before.pending, added, k);
      }
    }
  }

  lemma KeyOfBoth(a: seq<(Key, Terminal)>, b: seq<(Key, Terminal)>, k: Key)
    ensures HasKey(a + b, k) <==> HasKey(a, k) || HasKey(b, k)
  {
    var all := a + b;
    if HasKey(b, k) {
      var i :| 0 <= i < |b| && b[i].0 == k;
      assert all[|a| + i].0 == k;
    }
    if HasKey(a, k) {
      var i :| 0 <= i < |a| && a[i].0 == k;
      assert all[i].0 == k;
    }
    if HasKey(all, k) {
      var i :| 0 <= i < |all| && all[i].0 == k;
      assert if i < |a| then a[i].0 == k else b[i - |a|].0 == k;
    }
  }

  ghost predicate NoneShared(a: seq<(Key, Terminal)>, b: seq<(Key, Terminal)>) {
    forall k :: !(HasKey(a, k) && HasKey(b, k))
  }

  lemma BothDiffer(a: seq<(Key, Terminal)>, b: seq<(Key, Terminal)>)
    ensures KeysDiffer(a + b) <==> KeysDiffer(a) && KeysDiffer(b) && NoneShared(a, b)
  {
    var all := a + b;
    if KeysDiffer(all) {
      forall i, j | 0 <= i < j < |b|
        ensures b[i].0 != b[j].0
      {
        assert all[|a| + i].0 != all[|a| + j].0;
      }
      forall i, j | 0 <= i < j < |a|
        ensures a[i].0 != a[j].0
      {
        assert all[i].0 != all[j].0;
      }
      forall k | HasKey(a, k)
        ensures !HasKey(b, k)
      {
        var i :| 0 <= i < |a| && a[i].0 == k;
        forall j | 0 <= j < |b|
          ensures b[j].0 != k
        {
          assert all[i].0 != all[|a| + j].0;
        }
      }
    }
    if KeysDiffer(a) && KeysDiffer(b) && NoneShared(a, b) {
      forall i, j | 0 <= i < j < |all|
        ensures all[i].0 != all[j].0
      {
        if i < |a| <= j {
          assert HasKey(a, a[i].0);
          assert HasKey(b, b[j - |a|].0);
        }
      }
    }
  }

  /** One more export: the transaction is still acceptable if it was, and the export repeats nothing, itself or an earlier one. */
  lemma OneMoreExport(o: C.Outside, s: Session, exports: Exports, n: nat)
    requires n < |exports| && s.pending == [] && exports[n].Some?
    ensures KeysDiffer(SyncedUpTo(o, s, exports, n + 1).pending) <==>
              && KeysDiffer(SyncedUpTo(o, s, exports, n).pending)
              && !RepeatsItself(s.rows, exports[n])
              && !exists i :: 0 <= i < n && ShareANewCode(s.rows, exports[i], exports[n])
  {
    var before, e := SyncedUpTo(o, s, exports, n), exports[n].value;
    var added := Added(before.rows, e.carrier, e.catalog.terminals, e.now);
    BothDiffer(before.pending, added);
    AddedKeysDifferIff(before.rows, e.carrier, e.catalog.terminals, e.now);
    SameRepeats(s.rows, before.rows, e.carrier, e.catalog.terminals);
    SharedIff(o, s, exports, n, added);
  }

  lemma SameRepeats(a: Table, b: Table, carrier: CarrierId, export_: seq<Exported>)
    requires a.Keys == b.Keys
    ensures RepeatsANewCode(a, carrier, export_) <==> RepeatsANewCode(b, carrier, export_)
  {
    assert forall i :: 0 <= i < |export_| ==> ((carrier, export_[i].code) in a <==> (carrier, export_[i].code) in b);
  }

  lemma SharedIff(o: C.Outside, s: Session, exports: Exports, n: nat, added: seq<(Key, Terminal)>)
    requires n < |exports| && s.pending == [] && exports[n].Some?
    requires var e := exports[n].value;
             added == Added(SyncedUpTo(o, s, exports, n).rows, e.carrier, e.catalog.terminals, e.now)
    ensures NoneShared(SyncedUpTo(o, s, exports, n).pending, added)
            <==> !exists i :: 0 <= i < n && ShareANewCode(s.rows, exports[i], exports[n])
  {
    var before, e := SyncedUpTo(o, s, exports, n), exports[n].value;
    forall k: Key
      ensures HasKey(added, k) <==> IsNewIn(s.rows, e, k)
      ensures HasKey(before.pending, k) <==> exists i :: 0 <= i < n && exports[i].Some? && IsNewIn(s.rows, exports[i].value, k)
    {
      AddedKeys(before.rows, e.carrier, e.catalog.terminals, e.now, k);
      PendingKeys(o, s, exports, n, k);
    }
    if i :| 0 <= i < n && ShareANewCode(s.rows, exports[i], exports[n]) {
      var k :| IsNewIn(s.rows, exports[i].value, k) && IsNewIn(s.rows, e, k);
      assert HasKey(added, k) && HasKey(before.pending, k);
    }
  }

  /** The waiting rows have different keys if and only if no new terminal comes twice in the exports. */
  lemma {:induction false} KeysDifferIff(o: C.Outside, s: Session, exports: Exports, n: nat)
    requires n <= |exports| && s.pending == []
    ensures KeysDiffer(SyncedUpTo(o, s, exports, n).pending) <==> !Clashes(s.rows, exports, n)
  {
    if n > 0 {
      KeysDifferIff(o, s, exports, n - 1);
      if exports[n - 1].Some? {
        OneMoreExport(o, s, exports, n - 1);
      }
      ClashesStep(s.rows, exports, n - 1);
    }
  }

  lemma ClashesStep(rows: Table, exports: Exports, n: nat)
    requires n < |exports|
    ensures Clashes(rows, exports, n + 1) <==>
              || Clashes(rows, exports, n) || RepeatsItself(rows, exports[n])
              || exists i :: 0 <= i < n && ShareANewCode(rows, exports[i], exports[n])
  {
  }

  // ----- an accepted transaction of different carriers -----

  lemma {:induction false} AddingBoth(base: Table, a: seq<(Key, Terminal)>, b: seq<(Key, Terminal)>)
    ensures WithAll(base, a + b) == WithAll(WithAll(base, a), b)
  {
    if b == [] {
      assert a + b == a;
    } else {
      assert ButLast(a + b) == a + ButLast(b) && Last(a + b) == Last(b);
      AddingBoth(base, a, ButLast(b));
    }
  }

  /** What is added to a table depends, for one key, on that key only. */
  lemma {:induction false} AddingAt(a: Table, b: Table, added: seq<(Key, Terminal)>, k: Key)
    requires RowIn(a, k) == RowIn(b, k)
    ensures RowIn(WithAll(a, added), k) == RowIn(WithAll(b, added), k)
  {
    if added != [] {
      AddingAt(a, b, ButLast(added), k);
    }
  }

  lemma KeptRow(stored: Table, rows: Table, e: Fetched, k: Key)
    requires k.0 != e.carrier
    ensures RowIn(Kept(stored, rows, e.carrier, e.catalog, e.now), k) == RowIn(rows, k)
    ensures RowIn(StoredAfter(stored, e.carrier, e.catalog, e.now), k) == RowIn(stored, k)
    ensures !HasKey(Added(rows, e.carrier, e.catalog.terminals, e.now), k)
  {
    AddedKeys(rows, e.carrier, e.catalog.terminals, e.now, k);
    if k in rows {
      UpdatedRow(rows, e.carrier, e.catalog.terminals, e.now, k);
    }
  }

  predicate Concerns(e: Option<Fetched>, k: Key) {
    e.Some? && e.value.carrier == k.0
  }

  /** The session has nothing about the key but the row that was there. */
  ghost predicate AsBefore(s: Session, r: Session, k: Key) {
    RowIn(r.rows, k) == RowIn(s.rows, k) && RowIn(r.stored, k) == RowIn(s.stored, k) && !HasKey(r.pending, k)
  }

  lemma OtherCarrierKeeps(o: C.Outside, s: Session, before: Session, e: Fetched, k: Key)
    requires AsBefore(s, before, k) && e.carrier != k.0
    ensures AsBefore(s, Synced(o, before, e), k)
  {
    KeptRow(before.stored, before.rows, e, k);
    KeyOfBoth(before.pending, Added(before.rows, e.carrier, e.catalog.terminals, e.now), k);
  }

  /** A key that no export is about: nothing waits for it, and its row is as it was. */
  lemma {:induction false} NotConcerned(o: C.Outside, s: Session, exports: Exports, n: nat, k: Key)
    requires n <= |exports| && s.pending == [] && forall i :: 0 <= i < n ==> !Concerns(exports[i], k)
    ensures AsBefore(s, SyncedUpTo(o, s, exports, n), k)
  {
    if n > 0 {
      NotConcerned(o, s, exports, n - 1, k);
      if exports[n - 1].Some? {
        assert !Concerns(exports[n - 1], k);
        OtherCarrierKeeps(o, s, SyncedUpTo(o, s, exports, n - 1), exports[n - 1].value, k);
      }
    }
  }

  /** So an accepted transaction leaves the rows of every carrier alone of which it had no export. */
  lemma NoExportNoChange(o: C.Outside, s: Session, exports: Exports, n: nat, k: Key)
    requires n <= |exports| && s.pending == [] && forall i :: 0 <= i < n ==> !Concerns(exports[i], k)
    ensures FinalRow(o, s, exports, n, k) == RowIn(s.rows, k)
  {
    var r := SyncedUpTo(o, s, exports, n);
    NotConcerned(o, s, exports, n, k);
    RowsAfterAdding(r.rows, r.pending, k);
  }

  /** The row of a key when the transaction is accepted after n exports. */
  function FinalRow(o: C.Outside, s: Session, exports: Exports, n: nat, k: Key): Option<Terminal>
    requires n <= |exports|
  {
    RowIn(Committed(SyncedUpTo(o, s, exports, n)).rows, k)
  }

  /** One export more that is not about the key leaves its final row alone. */
  lemma OtherCarrierStep(o: C.Outside, s: Session, exports: Exports, n: nat, k: Key)
    requires 0 < n <= |exports| && !Concerns(exports[n - 1], k)
    ensures FinalRow(o, s, exports, n, k) == FinalRow(o, s, exports, n - 1, k)
  {
    if exports[n - 1].Some? {
      var before, e := SyncedUpTo(o, s, exports, n - 1), exports[n - 1].value;
      var kept, added := Kept(before.stored, before.rows, e.carrier, e.catalog, e.now), Added(before.rows, e.carrier, e.catalog.terminals, e.now);
      KeptRow(before.stored, before.rows, e, k);
      AddingBoth(kept, before.pending, added);
      RowsAfterAdding(WithAll(kept, before.pending), added, k);
      AddingAt(kept, before.rows, before.pending, k);
    }
  }

  /** The export about the key decides its row as it would have done alone. */
  lemma OwnCarrierStep(o: C.Outside, s: Session, exports: Exports, n: nat, k: Key)
    requires n < |exports| && s.pending == [] && s.stored == s.rows && Concerns(exports[n], k) && forall i :: 0 <= i < n ==> !Concerns(exports[i], k)
    ensures var e := exports[n].value; FinalRow(o, s, exports, n + 1, k) == SyncedRow(s.rows, e.carrier, e.catalog, e.now, k)
  {
    var before, e := SyncedUpTo(o, s, exports, n), exports[n].value;
    var kept, added := Kept(before.stored, before.rows, e.carrier, e.catalog, e.now), Added(before.rows, e.carrier, e.catalog.terminals, e.now);
    NotConcerned(o, s, exports, n, k);
    AddingBoth(kept, before.pending, added);
    RowsAfterAdding(kept, before.pending, k);
    AddingAt(WithAll(kept, before.pending), kept, added, k);
    WrittenRow(before.stored, before.rows, e.carrier, e.catalog, e.now, k);
    assert SyncedRow(before.rows, e.carrier, e.catalog, e.now, k) == SyncedRow(s.rows, e.carrier, e.catalog, e.now, k);
  }

  /**
   When each carrier comes once, an accepted transaction leaves every row exactly as the export of its carrier alone
   would have left it, and the rows of all other carriers as they were.
   */
  lemma {:induction false} EachCarrierAsIfAlone(
      o: C.Outside, s: Session, exports: Exports, n: nat, i: nat, k: Key, alone: Option<Terminal>)
    requires i < n <= |exports| && s.pending == [] && s.stored == s.rows && Concerns(exports[i], k)
    requires forall j :: 0 <= j < n && j != i ==> !Concerns(exports[j], k)
    requires var e := exports[i].value; alone == SyncedRow(s.rows, e.carrier, e.catalog, e.now, k)
    ensures FinalRow(o, s, exports, n, k) == alone
  {
    if i == n - 1 {
      OwnCarrierStep(o, s, exports, i, k);
    } else {
      EachCarrierAsIfAlone(o, s, exports, n - 1, i, k, alone);
      OtherCarrierStep(o, s, exports, n, k);
    }
  }

  // ----- what the rows say at the end -----

  /** What the first n exports finally say of a terminal. */
  function LastTold(exports: Exports, n: nat, k: Key): Option<Details>
    requires n <= |exports|
  {
    if n == 0 then None
    else
      var told := if Concerns(exports[n - 1], k) then LastOf(exports[n - 1].value.catalog.terminals, k.1) else None;
      if told.Some? then told else LastTold(exports, n - 1, k)
  }

  function DetailsOf(row: Option<Terminal>): Option<Details> {
    if row.Some? then Some(row.value.details) else None
  }

  function Either(told: Option<Details>, other: Option<Details>): Option<Details> {
    if told.Some? then told else other
  }

  lemma KeptDetails(stored: Table, rows: Table, e: Fetched, k: Key)
    requires k in rows && k.0 == e.carrier
    ensures k in Kept(stored, rows, e.carrier, e.catalog, e.now)
    ensures Some(Kept(stored, rows, e.carrier, e.catalog, e.now)[k].details)
         == Either(LastOf(e.catalog.terminals, k.1), Some(rows[k].details))
  {
    UpdatedRow(rows, e.carrier, e.catalog.terminals, e.now, k);
  }

  /** A known terminal: nothing waits for it, and its row says what was told last. */
  lemma {:induction false} KnownDetails(o: C.Outside, s: Session, exports: Exports, n: nat, k: Key)
    requires n <= |exports| && s.pending == [] && k in s.rows
    ensures var r := SyncedUpTo(o, s, exports, n);
            !HasKey(r.pending, k) && DetailsOf(RowIn(r.rows, k)) == Either(LastTold(exports, n, k), Some(s.rows[k].details))
  {
    PendingKeys(o, s, exports, n, k);
    if n > 0 {
      var before := SyncedUpTo(o, s, exports, n - 1);
      KnownDetails(o, s, exports, n - 1, k);
      if exports[n - 1].Some? {
        var e := exports[n - 1].value;
        if e.carrier == k.0 {
          KeptDetails(before.stored, before.rows, e, k);
        } else {
          KeptRow(before.stored, before.rows, e, k);
        }
      }
    }
  }

  /** One export more about a terminal that the table does not know: if it tells of it, its word is the last. */
  lemma NewTerminalStep(o: C.Outside, s: Session, exports: Exports, n: nat, k: Key)
    requires 0 < n <= |exports| && k !in s.rows && Concerns(exports[n - 1], k)
    ensures var told := LastOf(exports[n - 1].value.catalog.terminals, k.1);
            DetailsOf(FinalRow(o, s, exports, n, k)) == Either(told, DetailsOf(FinalRow(o, s, exports, n - 1, k)))
  {
    var before, e := SyncedUpTo(o, s, exports, n - 1), exports[n - 1].value;
    var kept, added := Kept(before.stored, before.rows, e.carrier, e.catalog, e.now), Added(before.rows, e.carrier, e.catalog.terminals, e.now);
    var base := WithAll(kept, before.pending);
    AddingBoth(kept, before.pending, added);
    if LastOf(e.catalog.terminals, k.1).Some? {
      AddedRow(before.rows, base, e.carrier, e.catalog.terminals, e.now, k);
    } else {
      CodesAreTold(e.catalog.terminals, k.1);
      AddedKeys(before.rows, e.carrier, e.catalog.terminals, e.now, k);
      RowsAfterAdding(base, added, k);
      AddingAt(kept, before.rows, before.pending, k);
    }
  }

  lemma {:induction false} NewDetails(o: C.Outside, s: Session, exports: Exports, n: nat, k: Key)
    requires n <= |exports| && s.pending == [] && k !in s.rows
    ensures DetailsOf(FinalRow(o, s, exports, n, k)) == LastTold(exports, n, k)
  {
    if n > 0 {
      NewDetails(o, s, exports, n - 1, k);
      if Concerns(exports[n - 1], k) {
        NewTerminalStep(o, s, exports, n, k);
      } else {
        OtherCarrierStep(o, s, exports, n, k);
      }
    }
  }

  /** Every row of the final table says what was last told of it, or what it said before. */
  lemma DetailsAtEnd(o: C.Outside, s: Session, exports: Exports, n: nat, k: Key)
    requires n <= |exports| && s.pending == []
    ensures DetailsOf(FinalRow(o, s, exports, n, k)) == Either(LastTold(exports, n, k), DetailsOf(RowIn(s.rows, k)))
  {
    if k in s.rows {
      var r := SyncedUpTo(o, s, exports, n);
      KnownDetails(o, s, exports, n, k);
      RowsAfterAdding(r.rows, r.pending, k);
    } else {
      NewDetails(o, s, exports, n, k);
    }
  }

  // ----- when a tenant's synchronisation is undone -----

  /** What the exports finally say of each terminal fits its columns. */
  ghost predicate ToldFits(exports: Exports, n: nat)
    requires n <= |exports|
  {
    forall k :: LastTold(exports, n, k).Some? ==> Fits(k.1, LastTold(exports, n, k).value)
  }

  lemma FinalTableFitsIff(o: C.Outside, s: Session, exports: Exports, n: nat)
    requires n <= |exports| && IsSettled(s)
    ensures RowsFit(Committed(SyncedUpTo(o, s, exports, n)).rows) <==> ToldFits(exports, n)
  {
    var final := Committed(SyncedUpTo(o, s, exports, n)).rows;
    forall k: Key
      ensures DetailsOf(RowIn(final, k)) == Either(LastTold(exports, n, k), DetailsOf(RowIn(s.rows, k)))
    {
      DetailsAtEnd(o, s, exports, n, k);
    }
    FitsEverywhereIff(final, s.rows, exports, n);
  }

  lemma FitsEverywhereIff(final: Table, rows: Table, exports: Exports, n: nat)
    requires n <= |exports| && RowsFit(rows)
    requires forall k: Key :: DetailsOf(RowIn(final, k)) == Either(LastTold(exports, n, k), DetailsOf(RowIn(rows, k)))
    ensures RowsFit(final) <==> ToldFits(exports, n)
  {
    if RowsFit(final) {
      forall k | LastTold(exports, n, k).Some?
        ensures Fits(k.1, LastTold(exports, n, k).value)
      {
        assert DetailsOf(RowIn(final, k)) == LastTold(exports, n, k);
      }
    }
    if ToldFits(exports, n) {
      forall k | k in final
        ensures Fits(k.1, final[k].details)
      {
        assert DetailsOf(RowIn(final, k)) == Either(LastTold(exports, n, k), DetailsOf(RowIn(rows, k)));
      }
    }
  }

  lemma {:induction false} StoredStillFits(o: C.Outside, s: Session, exports: Exports, n: nat)
    requires n <= |exports| && RowsFit(s.stored)
    ensures RowsFit(SyncedUpTo(o, s, exports, n).stored)
  {
    if n > 0 {
      StoredStillFits(o, s, exports, n - 1);
    }
  }

  lemma WaitingAreNew(o: C.Outside, s: Session, exports: Exports, n: nat)
    requires n <= |exports| && s.pending == []
    ensures forall k :: HasKey(SyncedUpTo(o, s, exports, n).pending, k) ==> k !in s.rows
  {
    forall k | HasKey(SyncedUpTo(o, s, exports, n).pending, k)
      ensures k !in s.rows
    {
      PendingKeys(o, s, exports, n, k);
    }
  }

  /** The end is accepted exactly when the keys differ and the table it leaves fits. */
  lemma EndIffTableFits(r: Session)
    requires RowsFit(r.stored) && forall k :: HasKey(r.pending, k) ==> k !in r.rows
    ensures CanEnd(r.stored, r.rows, r.pending) <==> KeysDiffer(r.pending) && RowsFit(Committed(r).rows)
  {
    ChangedFitIff(r.stored, r.rows);
    if KeysDiffer(r.pending) {
      AddingFits(r.rows, r.pending);
    }
  }

  lemma ReachedEndIff(o: C.Outside, s: Session, exports: Exports, n: nat)
    requires n <= |exports| && IsSettled(s)
    ensures var r := SyncedUpTo(o, s, exports, n);
            CanEnd(r.stored, r.rows, r.pending) <==> KeysDiffer(r.pending) && RowsFit(Committed(r).rows)
  {
    StoredStillFits(o, s, exports, n);
    WaitingAreNew(o, s, exports, n);
    EndIffTableFits(SyncedUpTo(o, s, exports, n));
  }

  lemma AcceptedFits(o: C.Outside, s: Session, exports: Exports, n: nat)
    requires n <= |exports| && IsSettled(s)
    ensures var r := SyncedUpTo(o, s, exports, n);
            CanEnd(r.stored, r.rows, r.pending) ==> IsSettled(Committed(r))
  {
    ReachedEndIff(o, s, exports, n);
  }

  /**
   The synchronisation of a tenant is undone unless every city of its exports fits, no new terminal comes twice in
   all of them, and what they finally say of each terminal fits. Then, and only then, it is accepted.
   */
  lemma TenantSyncCommitsIff(o: C.Outside, s: Session, exports: Exports)
    requires IsSettled(s)
    ensures IsAccepted(o, s, exports) <==>
              && AllCitiesFit(o, exports, |exports|)
              && !Clashes(s.rows, exports, |exports|)
              && ToldFits(exports, |exports|)
  {
    var n := |exports|;
    ReachedEndIff(o, s, exports, n);
    KeysDifferIff(o, s, exports, n);
    FinalTableFitsIff(o, s, exports, n);
  }

  /**
   Two accounts of one carrier that mention the same new terminal undo the synchronisation of every carrier of the
   tenant, and the terminal is as new at the next one, which the same exports then undo again.
   */
  lemma TwoAccountsUndoEverything(o: C.Outside, s: Session, exports: Exports, i: nat, j: nat, k: Key)
    requires IsSettled(s) && i < j < |exports| && exports[i].Some? && exports[j].Some?
    requires IsNewIn(s.rows, exports[i].value, k) && IsNewIn(s.rows, exports[j].value, k)
    ensures !IsAccepted(o, s, exports)
  {
    TenantSyncCommitsIff(o, s, exports);
    assert ShareANewCode(s.rows, exports[i], exports[j]);
  }

  lemma {:induction false} ToldLast(exports: Exports, i: nat, n: nat, k: Key)
    requires i < n <= |exports| && Concerns(exports[i], k) && LastOf(exports[i].value.catalog.terminals, k.1).Some?
    requires forall j :: i < j < n ==> !Concerns(exports[j], k)
    ensures LastTold(exports, n, k) == LastOf(exports[i].value.catalog.terminals, k.1)
  {
    if i < n - 1 {
      ToldLast(exports, i, n - 1, k);
    }
  }

  /** So does one terminal that the columns do not take, unless a later account of the carrier corrects it. */
  lemma OneUnfitTerminalUndoesEverything(o: C.Outside, s: Session, exports: Exports, i: nat, k: Key)
    requires IsSettled(s) && i < |exports| && Concerns(exports[i], k)
    requires var told := LastOf(exports[i].value.catalog.terminals, k.1); told.Some? && !Fits(k.1, told.value)
    requires forall j :: i < j < |exports| ==> !Concerns(exports[j], k)
    ensures !IsAccepted(o, s, exports)
  {
    TenantSyncCommitsIff(o, s, exports);
    ToldLast(exports, i, |exports|, k);
  }

  /** A warehouse with a limit of ten thousand tons, in a city with this title. */
  function Warehouse(title: string): Catalog {
    Catalog([Exported("1", Details(None, Some(title), None, "terminal", None, None, None, false, false, Some(10_000_000.0)))], true)
  }

  /** For example, one such warehouse beside any export of another carrier: nothing comes twice, and nothing is kept. */
  lemma HeavyWarehouseUndoesEverything(o: C.Outside, s: Session, other: Fetched, title: string, now: int)
    requires IsSettled(s) && other.carrier == 1 && !RepeatsANewCode(s.rows, 1, other.catalog.terminals)
    ensures var exports := [Some(other), Some(Fetched(2, [], Warehouse(title), now))];
            !Clashes(s.rows, exports, 2) && !IsAccepted(o, s, exports)
  {
    var exports := [Some(other), Some(Fetched(2, [], Warehouse(title), now))];
    assert LastOf(Warehouse(title).terminals, "1") == Some(Last(Warehouse(title).terminals).details);
    OneUnfitTerminalUndoesEverything(o, s, exports, 1, (2, "1"));
    assert !ShareANewCode(s.rows, exports[0], exports[1]);
  }

  // ----- two accounts of one carrier, one of which misses a terminal -----

  /**
   A terminal that was off comes back in the export of one account, and the complete export of the next misses it:
   the statement does not find it among the stored active ones and does not count it, and it stays off since when it was.
   */
  lemma ReturnedTerminalStaysOff(o: C.Outside, s: Session, a: Fetched, b: Fetched, k: Key)
    requires IsSettled(s) && a.carrier == b.carrier == k.0 && k in s.rows && !s.rows[k].isActive
    requires k.1 in Codes(a.catalog.terminals) && b.catalog.isComplete && k.1 !in Codes(b.catalog.terminals)
    ensures var first, second := Synced(o, s, a), Synced(o, Synced(o, s, a), b);
            && first.rows[k].isActive && k.1 !in Active(first.stored, k.0)
            && !second.rows[k].isActive && second.rows[k].deactivatedAt == s.rows[k].deactivatedAt
  {
    var first := Synced(o, s, a);
    CodesAreTold(a.catalog.terminals, k.1);
    CodesAreTold(b.catalog.terminals, k.1);
    UpdatedRow(s.rows, a.carrier, a.catalog.terminals, a.now, k);
    UpdatedRow(first.rows, b.carrier, b.catalog.terminals, b.now, k);
    ActiveIs(first.stored, k.0, k.1);
  }
}
