/**
 The terminals of the carriers: an export is written over the table, and what a complete export does not
 mention is switched off, never deleted. New and changed rows reach the table at the end of the transaction.
 */
module Terminals {
  import opened Options
  import opened Rounding

  type CarrierId = nat
  type Code = string
  type Key = (CarrierId, Code)

  /** What the carrier says of a terminal. A weight without bound is one beyond every column. */
  datatype Details = Details(
    cityFiasId: Option<string>, cityName: Option<string>, address: Option<string>, kind: string,
    workHours: Option<string>, lat: Option<real>, lon: Option<real>, hasCash: bool, hasCard: bool, maxWeightKg: Option<real>)

  datatype Exported = Exported(code: Code, details: Details)

  datatype Terminal = Terminal(details: Details, isActive: bool, deactivatedAt: Option<int>, syncedAt: Option<int>)

  type Table = map<Key, Terminal>

  datatype Catalog = Catalog(terminals: seq<Exported>, isComplete: bool)

  datatype Report = Report(total: nat, created: nat, updated: nat, deactivated: nat)

  /** What the database refuses at the end: two new rows for one code, or a row that its columns do not take. */
  datatype Refusal = DuplicateCode | UnfitRow

  // ----- what the columns take -----

  predicate FitsText(text: string, limit: nat) {
    |text| <= limit && '\0' !in text
  }

  predicate FitsOptional(text: Option<string>, limit: nat) {
    text.Some? ==> FitsText(text.value, limit)
  }

  const KINDS := {"pvz", "terminal", "postamat"}

  /** A weight has ten digits, three of them behind the point. */
  predicate FitsWeight(weight: Option<real>) {
    weight.Some? ==> -10_000_000_000 < HalfUp(weight.value * 1000.0) < 10_000_000_000
  }

  predicate Fits(code: Code, d: Details) {
    && FitsText(code, 50)
    && FitsOptional(d.cityFiasId, 36) && FitsOptional(d.cityName, 255) && FitsOptional(d.workHours, 255)
    && (d.address.Some? ==> '\0' !in d.address.value)
    && d.kind in KINDS && FitsWeight(d.maxWeightKg)
  }

  ghost predicate RowsFit(rows: Table) {
    forall k :: k in rows ==> Fits(k.1, rows[k].details)
  }

  ghost predicate PendingFit(pending: seq<(Key, Terminal)>) {
    forall i :: 0 <= i < |pending| ==> Fits(pending[i].0.1, pending[i].1.details)
  }

  /** The rows that the session has changed fit. */
  ghost predicate ChangedFit(stored: Table, rows: Table) {
    forall k :: k in rows ==> RowIn(stored, k) == Some(rows[k]) || Fits(k.1, rows[k].details)
  }

  /** The database takes the new rows and the changed ones. */
  ghost predicate CanEnd(stored: Table, rows: Table, pending: seq<(Key, Terminal)>) {
    KeysDiffer(pending) && PendingFit(pending) && ChangedFit(stored, rows)
  }

  function RowIn(rows: Table, k: Key): Option<Terminal> {
    if k in rows then Some(rows[k]) else None
  }

  // ----- what one synchronisation means -----

  function Codes(export_: seq<Exported>): set<Code> {
    set i | 0 <= i < |export_| :: export_[i].code
  }

  function ButLast<T>(xs: seq<T>): seq<T>
    requires xs != []
  {
    xs[..|xs| - 1]
  }

  function Last<T>(xs: seq<T>): T
    requires xs != []
  {
    xs[|xs| - 1]
  }

  /** What the export says of a code: its last row decides. */
  function LastOf(export_: seq<Exported>, code: Code): Option<Details> {
    if export_ == [] then None
    else if Last(export_).code == code then Some(Last(export_).details)
    else LastOf(ButLast(export_), code)
  }

  function Switched(t: Terminal, now: int): Terminal {
    if t.isActive then t.(isActive := false, deactivatedAt := Some(now)) else t
  }

  function Told(details: Details, now: int): Terminal {
    Terminal(details, true, None, Some(now))
  }

  /** The row of a key after an export that was accepted, if it has one. */
  function SyncedRow(rows: Table, carrier: CarrierId, catalog: Catalog, now: int, k: Key): Option<Terminal> {
    var told := LastOf(catalog.terminals, k.1);
    if k.0 == carrier && told.Some? then Some(Told(told.value, now))
    else if k !in rows then None
    else if k.0 == carrier && catalog.isComplete then Some(Switched(rows[k], now))
    else Some(rows[k])
  }

  /** The whole table after that export, row by row. */
  ghost predicate IsSynced(rows: Table, carrier: CarrierId, catalog: Catalog, now: int, r: Table) {
    forall k: Key :: SyncedRow(rows, carrier, catalog, now, k) == if k in r then Some(r[k]) else None
  }

  /** A code that the table does not know is exported twice. */
  ghost predicate RepeatsANewCode(rows: Table, carrier: CarrierId, export_: seq<Exported>) {
    exists i, j :: 0 <= i < j < |export_| && export_[i].code == export_[j].code && (carrier, export_[i].code) !in rows
  }

  /** What the export finally says of some code does not fit the columns. */
  ghost predicate HasUnfitRow(export_: seq<Exported>) {
    exists code :: LastOf(export_, code).Some? && !Fits(code, LastOf(export_, code).value)
  }

  /** The export is refused when it is written in a transaction of its own. */
  ghost predicate IsRefused(rows: Table, carrier: CarrierId, export_: seq<Exported>) {
    RepeatsANewCode(rows, carrier, export_) || HasUnfitRow(export_)
  }

  function Known(rows: Table, carrier: CarrierId): set<Code> {
    set k | k in rows && k.0 == carrier :: k.1
  }

  function Active(rows: Table, carrier: CarrierId): set<Code> {
    set k | k in rows && k.0 == carrier && rows[k].isActive :: k.1
  }

  /** A terminal is active exactly when no moment of its switching off is written. */
  ghost predicate FlagsAgree(rows: Table) {
    forall k :: k in rows ==> (rows[k].isActive <==> rows[k].deactivatedAt.None?)
  }

  // ----- the tables -----

  /**
   What the objects of the session and the statements it sends may disagree on: an object that is switched off is
   so in the database too, with the same moment.
   */
  ghost predicate Tracks(stored: Table, rows: Table) {
    && stored.Keys == rows.Keys
    && (forall k :: k in rows && !rows[k].isActive ==>
         !stored[k].isActive && rows[k].deactivatedAt == stored[k].deactivatedAt)
  }

  /**
   The rows as statements see them, the same rows as the objects of the session hold them, and the new ones that
   wait to be written. What an object says reaches the database at the end only.
   */
  class TerminalTable {
    var stored: Table
    var rows: Table
    var pending: seq<(Key, Terminal)>

    constructor ()
      ensures IsSettled() && rows == map[]
    {
      stored, rows, pending := map[], map[], [];
    }

    /** Between transactions nothing waits, and what is stored fits. */
    ghost predicate IsSettled()
      reads this
    {
      stored == rows && pending == [] && RowsFit(rows)
    }

    /** Write an export: known codes are updated in place, unknown ones wait for the flush, whatever waits already. */
    method UpsertMany(carrier: CarrierId, export_: seq<Exported>, now: int) returns (created: nat, updated: nat)
      modifies this`rows, this`pending
      ensures rows == Updated(old(rows), carrier, export_, now)
      ensures pending == old(pending) + Added(old(rows), carrier, export_, now)
      ensures created == |pending| - |old(pending)| && created + updated == |export_|
    {
      created, updated := 0, 0;
      ghost var start, waiting := rows, pending;
      for i := 0 to |export_|
        invariant rows == Updated(start, carrier, export_[..i], now)
        invariant pending == waiting + Added(start, carrier, export_[..i], now)
        invariant created == |pending| - |waiting| && created + updated == i
      {
        assert ButLast(export_[..i + 1]) == export_[..i];
        var row := export_[i];
        var k := (carrier, row.code);
        if k !in rows {
          pending := pending + [(k, Told(row.details, now))];
          created := created + 1;
        } else {
          rows := rows[k := Told(row.details, now)];
          updated := updated + 1;
        }
      }
      assert export_[..|export_|] == export_;
    }

    /**
     Switch off what the export did not mention, by one statement over the stored rows: of the active terminals
     exactly the mentioned ones stay active, and the count is what the carrier's stored network lost. The objects of
     the session take over the stored flags, so one that had only just come back is off again as it was before.
     */
    method DeactivateMissing(carrier: CarrierId, seen: set<Code>, now: int) returns (count: nat)
      requires Tracks(stored, rows)
      modifies this`stored, this`rows
      ensures Tracks(stored, rows) && rows.Keys == old(rows).Keys
      ensures forall k :: k in rows && (k.0 != carrier || k.1 in seen || !old(rows)[k].isActive) ==> rows[k] == old(rows)[k]
      ensures forall k :: k in rows && k.0 == carrier && k.1 !in seen && old(rows)[k].isActive ==>
                rows[k] == old(rows)[k].(
                  isActive := false, deactivatedAt := if old(stored)[k].isActive then Some(now) else old(stored)[k].deactivatedAt)
      ensures stored == Deactivated(old(stored), carrier, seen, now) && rows == Reread(stored, old(rows), carrier, seen)
      ensures Active(rows, carrier) == Active(old(rows), carrier) * seen
      ensures Active(stored, carrier) == Active(old(stored), carrier) * seen
      ensures |Active(stored, carrier)| + count == |Active(old(stored), carrier)|
    {
      ghost var table, objects := stored, rows;
      count := SwitchOffStored(carrier, seen, now);
      RereadFacts(table, objects, carrier, seen, now);
      TakeOverFlags(carrier, seen);
    }

    /** The objects that the statement's condition is true of take over the stored flags. */
    method TakeOverFlags(carrier: CarrierId, seen: set<Code>)
      requires stored.Keys == rows.Keys
      modifies this`rows
      ensures rows == Reread(stored, old(rows), carrier, seen)
    {
      rows := map k | k in rows ::
        if k.0 == carrier && k.1 !in seen && rows[k].isActive
        then rows[k].(isActive := stored[k].isActive, deactivatedAt := stored[k].deactivatedAt) else rows[k];
    }

    /** The statement itself: it looks at what is stored, not at the objects of the session. */
    method SwitchOffStored(carrier: CarrierId, seen: set<Code>, now: int) returns (count: nat)
      modifies this`stored
      ensures stored == Deactivated(old(stored), carrier, seen, now)
      ensures Active(stored, carrier) == Active(old(stored), carrier) * seen
      ensures |Active(stored, carrier)| + count == |Active(old(stored), carrier)|
    {
      var missing := set k | k in stored && k.0 == carrier && stored[k].isActive && k.1 !in seen;
      ghost var before := stored;
      stored := map k | k in stored :: if k in missing then stored[k].(isActive := false, deactivatedAt := Some(now)) else stored[k];
      count := |missing|;
      ActiveWithout(before, stored, carrier, seen, missing);
    }

    /** What waits and what has changed reaches the database, all of it or nothing. */
    method Flush() returns (refusal: Option<Refusal>)
      modifies this
      ensures refusal.None? <==> CanEnd(old(stored), old(rows), old(pending))
      ensures refusal == Some(DuplicateCode) ==> !KeysDiffer(old(pending))
      ensures refusal == Some(UnfitRow) ==> !PendingFit(old(pending)) || !ChangedFit(old(stored), old(rows))
      ensures refusal.None? ==> pending == [] && rows == WithAll(old(rows), old(pending)) && stored == rows
    {
      var unfit := set k | k in rows && RowIn(stored, k) != Some(rows[k]) && !Fits(k.1, rows[k].details);
      ChangedFitSet(stored, rows, unfit);
      if unfit != {} {
        return Some(UnfitRow);
      }
      refusal := Insert();
      if refusal.None? {
        stored, pending := rows, [];
      }
    }

    /** The new rows one by one, up to the first that is refused. */
    method Insert() returns (refusal: Option<Refusal>)
      modifies this`rows
      ensures refusal.None? <==> KeysDiffer(pending) && PendingFit(pending)
      ensures refusal == Some(DuplicateCode) ==> !KeysDiffer(pending)
      ensures refusal == Some(UnfitRow) ==> !PendingFit(pending)
      ensures refusal.None? ==> rows == WithAll(old(rows), pending)
    {
      ghost var start := rows;
      var written: set<Key> := {};
      for i := 0 to |pending|
        invariant KeysDiffer(pending[..i]) && PendingFit(pending[..i])
        invariant rows == WithAll(start, pending[..i])
        invariant forall k :: k in written <==> HasKey(pending[..i], k)
      {
        assert ButLast(pending[..i + 1]) == pending[..i];
        OneMoreKey(pending[..i + 1]);
        if pending[i].0 in written {
          PrefixDiffers(pending, i + 1);
          return Some(DuplicateCode);
        }
        if !Fits(pending[i].0.1, pending[i].1.details) {
          return Some(UnfitRow);
        }
        rows := rows[pending[i].0 := pending[i].1];
        written := written + {pending[i].0};
      }
      assert pending[..|pending|] == pending;
      return None;
    }

    /** One export written, with nothing flushed yet. */
    method Write(carrier: CarrierId, catalog: Catalog, now: int) returns (report: Report)
      requires Tracks(stored, rows)
      modifies this
      ensures Tracks(stored, rows)
      ensures rows == Kept(old(stored), old(rows), carrier, catalog, now)
      ensures stored == StoredAfter(old(stored), carrier, catalog, now)
      ensures pending == old(pending) + Added(old(rows), carrier, catalog.terminals, now)
      ensures report.total == |catalog.terminals| == report.created + report.updated
      ensures report.created == |Added(old(rows), carrier, catalog.terminals, now)|
      ensures report.deactivated == SwitchedOff(old(stored), carrier, catalog)
    {
      var export_ := catalog.terminals;
      ghost var before, table := rows, stored;
      var created, updated := UpsertMany(carrier, export_, now);
      var deactivated := 0;
      UpdatedTracks(stored, before, carrier, export_, now);
      if catalog.isComplete {
        deactivated := DeactivateMissing(carrier, Codes(export_), now);
        SetSplit(Active(table, carrier), Codes(export_));
      }
      return Report(|export_|, created, updated, deactivated);
    }

    /** One synchronisation, in one transaction. */
    method Sync(carrier: CarrierId, catalog: Catalog, now: int) returns (report: Result<Report, Refusal>)
      requires IsSettled()
      modifies this
      ensures IsSettled()
      ensures report.Err? <==> IsRefused(old(rows), carrier, catalog.terminals)
      ensures report == Err(DuplicateCode) ==> RepeatsANewCode(old(rows), carrier, catalog.terminals)
      ensures report.Err? ==> rows == old(rows)
      ensures report.Ok? ==> IsSynced(old(rows), carrier, catalog, now, rows)
      ensures report.Ok? ==> report.value.total == |catalog.terminals| == report.value.created + report.value.updated
      ensures report.Ok? ==> report.value.created == |Codes(catalog.terminals) - Known(old(rows), carrier)|
      ensures report.Ok? ==> report.value.deactivated == SwitchedOff(old(rows), carrier, catalog)
    {
      var before := rows;
      var written := Write(carrier, catalog, now);
      assert pending == Added(before, carrier, catalog.terminals, now);
      SyncFacts(before, carrier, catalog, now);
      var refusal := Commit(before);
      return if refusal.None? then Ok(written) else Err(refusal.value);
    }

    /** The end of a transaction: what waits is written, or everything is as it was when it began. */
    method Commit(before: Table) returns (refusal: Option<Refusal>)
      modifies this
      ensures pending == [] && stored == rows
      ensures refusal.None? <==> CanEnd(old(stored), old(rows), old(pending))
      ensures refusal == Some(DuplicateCode) ==> !KeysDiffer(old(pending))
      ensures rows == if refusal.None? then WithAll(old(rows), old(pending)) else before
    {
      refusal := Flush();
      if refusal.Some? {
        Rollback(before);
      }
    }

    method Rollback(before: Table)
      modifies this
      ensures stored == rows == before && pending == []
    {
      stored, rows, pending := before, before, [];
    }
  }

  /** The objects after an export: told of again, or with the flags that the table has now. */
  function Kept(stored: Table, rows: Table, carrier: CarrierId, catalog: Catalog, now: int): (r: Table)
    ensures r.Keys == rows.Keys
  {
    var updated := Updated(rows, carrier, catalog.terminals, now);
    if catalog.isComplete
    then Reread(StoredAfter(stored, carrier, catalog, now), updated, carrier, Codes(catalog.terminals)) else updated
  }

  function StoredAfter(stored: Table, carrier: CarrierId, catalog: Catalog, now: int): (r: Table)
    ensures r.Keys == stored.Keys
  {
    if catalog.isComplete then Deactivated(stored, carrier, Codes(catalog.terminals), now) else stored
  }

  function Reread(stored: Table, rows: Table, carrier: CarrierId, seen: set<Code>): (r: Table)
    ensures r.Keys == rows.Keys
  {
    map k | k in rows ::
      if k in stored && k.0 == carrier && k.1 !in seen && rows[k].isActive
      then rows[k].(isActive := stored[k].isActive, deactivatedAt := stored[k].deactivatedAt) else rows[k]
  }

  /** What taking over the stored flags means, after the statement. */
  lemma RereadFacts(stored: Table, rows: Table, carrier: CarrierId, seen: set<Code>, now: int)
    requires Tracks(stored, rows)
    ensures var after := Deactivated(stored, carrier, seen, now);
            var r := Reread(after, rows, carrier, seen);
            && Tracks(after, r) && Active(r, carrier) == Active(rows, carrier) * seen
            && (forall k :: k in rows && (k.0 != carrier || k.1 in seen || !rows[k].isActive) ==> r[k] == rows[k])
            && (forall k :: k in rows && k.0 == carrier && k.1 !in seen && rows[k].isActive ==>
                 r[k] == rows[k].(
                   isActive := false, deactivatedAt := if stored[k].isActive then Some(now) else stored[k].deactivatedAt))
  {
    ActiveAmong(rows, Reread(Deactivated(stored, carrier, seen, now), rows, carrier, seen), carrier, seen);
  }

  lemma ChangedFitSet(stored: Table, rows: Table, unfit: set<Key>)
    requires unfit == set k | k in rows && RowIn(stored, k) != Some(rows[k]) && !Fits(k.1, rows[k].details)
    ensures unfit == {} <==> ChangedFit(stored, rows)
  {
    if unfit == {} {
      forall k | k in rows
        ensures RowIn(stored, k) == Some(rows[k]) || Fits(k.1, rows[k].details)
      {
        assert k !in unfit;
      }
    } else {
      var k :| k in unfit;
    }
  }

  lemma UpdatedTracks(stored: Table, rows: Table, carrier: CarrierId, export_: seq<Exported>, now: int)
    requires Tracks(stored, rows)
    ensures Tracks(stored, Updated(rows, carrier, export_, now))
  {
    var r := Updated(rows, carrier, export_, now);
    forall k | k in r && !r[k].isActive
      ensures !stored[k].isActive && r[k].deactivatedAt == stored[k].deactivatedAt
    {
      UpdatedRow(rows, carrier, export_, now, k);
    }
  }

  lemma SetSplit(all: set<Code>, seen: set<Code>)
    ensures |all| == |all * seen| + |all - seen|
  {
    assert all == all * seen + (all - seen);
  }

  lemma ActiveAmong(before: Table, after: Table, carrier: CarrierId, seen: set<Code>)
    requires after.Keys == before.Keys
    requires forall k :: k in before && k.0 == carrier ==> after[k].isActive == (before[k].isActive && k.1 in seen)
    ensures Active(after, carrier) == Active(before, carrier) * seen
  {
    forall code
      ensures code in Active(after, carrier) <==> code in Active(before, carrier) * seen
    {
      ActiveIs(before, carrier, code);
      ActiveIs(after, carrier, code);
    }
  }

  /** Keys of one carrier are as many as their codes. */
  lemma {:induction false} AsManyCodes(keys: set<Key>, codes: set<Code>, carrier: CarrierId)
    requires forall k :: k in keys ==> k.0 == carrier && k.1 in codes
    requires forall code :: code in codes ==> (carrier, code) in keys
    ensures |keys| == |codes|
  {
    if keys == {} {
      assert codes == {};
    } else {
      var k :| k in keys;
      forall other | other in keys - {k}
        ensures other.1 != k.1
      {
        assert other == (carrier, other.1) && k == (carrier, k.1);
      }
      AsManyCodes(keys - {k}, codes - {k.1}, carrier);
    }
  }

  lemma ActiveWithout(before: Table, after: Table, carrier: CarrierId, seen: set<Code>, missing: set<Key>)
    requires after.Keys == before.Keys
    requires forall k :: k in missing <==> k in before && k.0 == carrier && before[k].isActive && k.1 !in seen
    requires forall k :: k in before ==> after[k].isActive == (before[k].isActive && k !in missing)
    ensures Active(after, carrier) == Active(before, carrier) * seen
    ensures |Active(after, carrier)| + |missing| == |Active(before, carrier)|
  {
    forall code
      ensures code in Active(after, carrier) <==> code in Active(before, carrier) * seen
      ensures code in Active(before, carrier) - seen <==> (carrier, code) in missing
    {
      ActiveIs(before, carrier, code);
      ActiveIs(after, carrier, code);
    }
    forall k | k in missing
      ensures k.0 == carrier && k.1 in Active(before, carrier) - seen
    {
      assert k == (carrier, k.1);
    }
    AsManyCodes(missing, Active(before, carrier) - seen, carrier);
    SetSplit(Active(before, carrier), seen);
  }

  /** How many terminals a complete export switches off. */
  function SwitchedOff(rows: Table, carrier: CarrierId, catalog: Catalog): nat {
    if catalog.isComplete then |Active(rows, carrier) - Codes(catalog.terminals)| else 0
  }

  // ----- the steps of a synchronisation -----

  function Updated(rows: Table, carrier: CarrierId, export_: seq<Exported>, now: int): (r: Table)
    ensures r.Keys == rows.Keys
  {
    if export_ == [] then rows
    else
      var before, k := Updated(rows, carrier, ButLast(export_), now), (carrier, Last(export_).code);
      if k in rows then before[k := Told(Last(export_).details, now)] else before
  }

  function Added(rows: Table, carrier: CarrierId, export_: seq<Exported>, now: int): seq<(Key, Terminal)> {
    if export_ == [] then []
    else
      var before, k := Added(rows, carrier, ButLast(export_), now), (carrier, Last(export_).code);
      if k in rows then before else before + [(k, Told(Last(export_).details, now))]
  }

  function Deactivated(rows: Table, carrier: CarrierId, seen: set<Code>, now: int): (r: Table)
    ensures r.Keys == rows.Keys
  {
    map k | k in rows :: if k.0 == carrier && k.1 !in seen then Switched(rows[k], now) else rows[k]
  }

  ghost predicate KeysDiffer(rows: seq<(Key, Terminal)>) {
    forall i, j :: 0 <= i < j < |rows| ==> rows[i].0 != rows[j].0
  }

  ghost predicate HasKey(rows: seq<(Key, Terminal)>, k: Key) {
    exists i :: 0 <= i < |rows| && rows[i].0 == k
  }

  function WithAll(rows: Table, added: seq<(Key, Terminal)>): Table {
    if added == [] then rows else WithAll(rows, ButLast(added))[Last(added).0 := Last(added).1]
  }

  lemma OneMoreKey(rows: seq<(Key, Terminal)>)
    requires rows != []
    ensures KeysDiffer(rows) <==> KeysDiffer(ButLast(rows)) && !HasKey(ButLast(rows), Last(rows).0)
    ensures forall k :: HasKey(rows, k) <==> HasKey(ButLast(rows), k) || k == Last(rows).0
  {
    forall k | HasKey(rows, k)
      ensures HasKey(ButLast(rows), k) || k == Last(rows).0
    {
      var i :| 0 <= i < |rows| && rows[i].0 == k;
      assert i < |rows| - 1 ==> ButLast(rows)[i].0 == k;
    }
    forall k | HasKey(ButLast(rows), k) || k == Last(rows).0
      ensures HasKey(rows, k)
    {
      if HasKey(ButLast(rows), k) {
        var i :| 0 <= i < |rows| - 1 && ButLast(rows)[i].0 == k;
        assert rows[i].0 == k;
      } else {
        assert rows[|rows| - 1].0 == k;
      }
    }
    if KeysDiffer(ButLast(rows)) && !HasKey(ButLast(rows), Last(rows).0) {
      forall i, j | 0 <= i < j < |rows|
        ensures rows[i].0 != rows[j].0
      {
        assert ButLast(rows)[i].0 == rows[i].0;
        assert j < |rows| - 1 ==> ButLast(rows)[j].0 == rows[j].0;
      }
    }
  }

  lemma PrefixDiffers(rows: seq<(Key, Terminal)>, n: nat)
    requires n <= |rows| && !KeysDiffer(rows[..n])
    ensures !KeysDiffer(rows)
  {
    var i, j :| 0 <= i < j < n && rows[..n][i].0 == rows[..n][j].0;
    assert rows[i].0 == rows[j].0;
  }

  // ----- why the steps come to that table -----

  lemma {:induction false} CodesAreTold(export_: seq<Exported>, code: Code)
    ensures code in Codes(export_) <==> LastOf(export_, code).Some?
    ensures export_ != [] ==> (code in Codes(export_) <==> code in Codes(ButLast(export_)) || code == Last(export_).code)
  {
    if export_ != [] {
      CodesAreTold(ButLast(export_), code);
      if code in Codes(export_) {
        var i :| 0 <= i < |export_| && export_[i].code == code;
        assert i < |export_| - 1 ==> ButLast(export_)[i].code == code;
      }
      if code in Codes(ButLast(export_)) {
        var i :| 0 <= i < |export_| - 1 && ButLast(export_)[i].code == code;
        assert export_[i].code == code;
      }
      assert export_[|export_| - 1].code == Last(export_).code;
    }
  }

  lemma {:induction false} UpdatedRow(rows: Table, carrier: CarrierId, export_: seq<Exported>, now: int, k: Key)
    requires k in rows
    ensures var told := LastOf(export_, k.1);
            Updated(rows, carrier, export_, now)[k]
            == if k.0 == carrier && told.Some? then Told(told.value, now) else rows[k]
  {
    if export_ != [] {
      UpdatedRow(rows, carrier, ButLast(export_), now, k);
    }
  }

  lemma {:induction false} AddedKeys(rows: Table, carrier: CarrierId, export_: seq<Exported>, now: int, k: Key)
    ensures HasKey(Added(rows, carrier, export_, now), k) <==> k.0 == carrier && k !in rows && k.1 in Codes(export_)
  {
    if export_ != [] {
      AddedKeys(rows, carrier, ButLast(export_), now, k);
      CodesAreTold(export_, k.1);
      if (carrier, Last(export_).code) !in rows {
        var added := Added(rows, carrier, export_, now);
        assert ButLast(added) == Added(rows, carrier, ButLast(export_), now);
        OneMoreKey(added);
      }
    }
  }

  lemma {:induction false} RowsAfterAdding(base: Table, added: seq<(Key, Terminal)>, k: Key)
    ensures k in WithAll(base, added) <==> k in base || HasKey(added, k)
    ensures k in base && !HasKey(added, k) ==> WithAll(base, added)[k] == base[k]
  {
    if added != [] {
      RowsAfterAdding(base, ButLast(added), k);
      OneMoreKey(added);
    }
  }

  lemma {:induction false} AddedRow(rows: Table, base: Table, carrier: CarrierId, export_: seq<Exported>, now: int, k: Key)
    requires k.0 == carrier && k !in rows && LastOf(export_, k.1).Some?
    ensures k in WithAll(base, Added(rows, carrier, export_, now))
    ensures WithAll(base, Added(rows, carrier, export_, now))[k] == Told(LastOf(export_, k.1).value, now)
  {
    var before := Added(rows, carrier, ButLast(export_), now);
    if (carrier, Last(export_).code) !in rows {
      assert ButLast(before + [((carrier, Last(export_).code), Told(Last(export_).details, now))]) == before;
    }
    if Last(export_).code != k.1 {
      AddedRow(rows, base, carrier, ButLast(export_), now, k);
    }
  }

  /** The table as the steps of a transaction of its own leave it. */
  function Written(rows: Table, carrier: CarrierId, catalog: Catalog, now: int): Table {
    WithAll(Kept(rows, rows, carrier, catalog, now), Added(rows, carrier, catalog.terminals, now))
  }

  /** A row whose object is as it is stored ends as the export says, whatever else the session holds. */
  lemma WrittenRow(stored: Table, rows: Table, carrier: CarrierId, catalog: Catalog, now: int, k: Key)
    requires RowIn(stored, k) == RowIn(rows, k)
    ensures SyncedRow(rows, carrier, catalog, now, k)
         == RowIn(WithAll(Kept(stored, rows, carrier, catalog, now), Added(rows, carrier, catalog.terminals, now)), k)
  {
    CodesAreTold(catalog.terminals, k.1);
    AddedKeys(rows, carrier, catalog.terminals, now, k);
    RowsAfterAdding(Kept(stored, rows, carrier, catalog, now), Added(rows, carrier, catalog.terminals, now), k);
    if k in rows {
      UpdatedRow(rows, carrier, catalog.terminals, now, k);
    } else if k.0 == carrier && k.1 in Codes(catalog.terminals) {
      AddedRow(rows, Kept(stored, rows, carrier, catalog, now), carrier, catalog.terminals, now, k);
    }
  }

  lemma WrittenIsSynced(rows: Table, carrier: CarrierId, catalog: Catalog, now: int)
    ensures IsSynced(rows, carrier, catalog, now, Written(rows, carrier, catalog, now))
  {
    var r := Written(rows, carrier, catalog, now);
    forall k: Key
      ensures SyncedRow(rows, carrier, catalog, now, k) == if k in r then Some(r[k]) else None
    {
      WrittenRow(rows, rows, carrier, catalog, now, k);
    }
  }

  // ----- when the end of a transaction is refused -----

  /** Among rows that fitted, the changed ones fit exactly when all do. */
  lemma ChangedFitIff(stored: Table, rows: Table)
    requires RowsFit(stored)
    ensures ChangedFit(stored, rows) <==> RowsFit(rows)
  {
    if ChangedFit(stored, rows) {
      forall k | k in rows
        ensures Fits(k.1, rows[k].details)
      {
        assert k in stored || Fits(k.1, rows[k].details);
      }
    }
  }

  /** New rows of different keys fit beside the others exactly when the table with them does. */
  lemma {:induction false} AddingFits(base: Table, added: seq<(Key, Terminal)>)
    requires KeysDiffer(added) && forall k :: HasKey(added, k) ==> k !in base
    ensures RowsFit(WithAll(base, added)) <==> RowsFit(base) && PendingFit(added)
  {
    if added != [] {
      var front, last := ButLast(added), Last(added);
      OneMoreKey(added);
      AddingFits(base, front);
      RowsAfterAdding(base, front, last.0);
      OneMoreFits(WithAll(base, front), front, last, added);
    }
  }

  lemma OneMoreFits(table: Table, front: seq<(Key, Terminal)>, last: (Key, Terminal), added: seq<(Key, Terminal)>)
    requires last.0 !in table && added == front + [last]
    ensures RowsFit(table[last.0 := last.1]) <==> RowsFit(table) && Fits(last.0.1, last.1.details)
    ensures PendingFit(added) <==> PendingFit(front) && Fits(last.0.1, last.1.details)
  {
    var more := table[last.0 := last.1];
    assert added[|front|] == last;
    assert forall i :: 0 <= i < |front| ==> added[i] == front[i];
    assert last.0 in more;
    assert forall k :: k in table ==> k in more && more[k] == table[k];
  }

  /** A synchronised table fits exactly when the export does, on a table that fitted. */
  lemma SyncedFitsIff(rows: Table, carrier: CarrierId, catalog: Catalog, now: int, r: Table)
    requires RowsFit(rows) && IsSynced(rows, carrier, catalog, now, r)
    ensures RowsFit(r) <==> !HasUnfitRow(catalog.terminals)
  {
    forall k | k in r
      ensures SyncedRow(rows, carrier, catalog, now, k) == Some(r[k])
    {
    }
    if code :| LastOf(catalog.terminals, code).Some? && !Fits(code, LastOf(catalog.terminals, code).value) {
      assert SyncedRow(rows, carrier, catalog, now, (carrier, code)) == RowIn(r, (carrier, code));
      assert (carrier, code) in r;
    }
  }

  lemma EndsIff(rows: Table, carrier: CarrierId, catalog: Catalog, now: int)
    requires RowsFit(rows)
    ensures CanEnd(rows, Kept(rows, rows, carrier, catalog, now), Added(rows, carrier, catalog.terminals, now))
            <==> !IsRefused(rows, carrier, catalog.terminals)
  {
    var kept, added := Kept(rows, rows, carrier, catalog, now), Added(rows, carrier, catalog.terminals, now);
    AddedKeysDifferIff(rows, carrier, catalog.terminals, now);
    if KeysDiffer(added) {
      forall k | HasKey(added, k)
        ensures k !in kept
      {
        AddedKeys(rows, carrier, catalog.terminals, now, k);
      }
      ChangedFitIff(rows, kept);
      AddingFits(kept, added);
      WrittenIsSynced(rows, carrier, catalog, now);
      SyncedFitsIff(rows, carrier, catalog, now, Written(rows, carrier, catalog, now));
    }
  }

  lemma SyncFacts(rows: Table, carrier: CarrierId, catalog: Catalog, now: int)
    requires RowsFit(rows)
    ensures CanEnd(rows, Kept(rows, rows, carrier, catalog, now), Added(rows, carrier, catalog.terminals, now))
            <==> !IsRefused(rows, carrier, catalog.terminals)
    ensures KeysDiffer(Added(rows, carrier, catalog.terminals, now)) <==> !RepeatsANewCode(rows, carrier, catalog.terminals)
    ensures IsSynced(rows, carrier, catalog, now, Written(rows, carrier, catalog, now))
    ensures !IsRefused(rows, carrier, catalog.terminals) ==> RowsFit(Written(rows, carrier, catalog, now))
    ensures !IsRefused(rows, carrier, catalog.terminals) ==>
              |Added(rows, carrier, catalog.terminals, now)| == |Codes(catalog.terminals) - Known(rows, carrier)|
  {
    EndsIff(rows, carrier, catalog, now);
    AddedKeysDifferIff(rows, carrier, catalog.terminals, now);
    WrittenIsSynced(rows, carrier, catalog, now);
    SyncedFitsIff(rows, carrier, catalog, now, Written(rows, carrier, catalog, now));
    if KeysDiffer(Added(rows, carrier, catalog.terminals, now)) {
      AddedAreTheNewCodes(rows, carrier, catalog.terminals, now);
    }
  }

  lemma ActiveIs(rows: Table, carrier: CarrierId, code: Code)
    ensures code in Active(rows, carrier) <==> (carrier, code) in rows && rows[(carrier, code)].isActive
    ensures code in Known(rows, carrier) <==> (carrier, code) in rows
  {
    if (carrier, code) in rows {
      var k := (carrier, code);
      assert k in rows && k.0 == carrier && k.1 == code;
    }
  }

  lemma RepeatsOneMore(rows: Table, carrier: CarrierId, export_: seq<Exported>)
    requires export_ != []
    ensures RepeatsANewCode(rows, carrier, export_) <==>
              || RepeatsANewCode(rows, carrier, ButLast(export_))
              || ((carrier, Last(export_).code) !in rows && Last(export_).code in Codes(ButLast(export_)))
  {
    var front, last := ButLast(export_), Last(export_);
    if RepeatsANewCode(rows, carrier, export_) {
      var i, j :| 0 <= i < j < |export_| && export_[i].code == export_[j].code && (carrier, export_[i].code) !in rows;
      assert front[i] == export_[i];
      assert j < |export_| - 1 ==> front[j] == export_[j];
    }
    if RepeatsANewCode(rows, carrier, front) {
      var i, j :| 0 <= i < j < |front| && front[i].code == front[j].code && (carrier, front[i].code) !in rows;
      assert export_[i] == front[i] && export_[j] == front[j];
    }
    if (carrier, last.code) !in rows && last.code in Codes(front) {
      var i :| 0 <= i < |front| && front[i].code == last.code;
      assert export_[i].code == export_[|export_| - 1].code;
    }
  }

  lemma {:induction false} AddedKeysDifferIff(rows: Table, carrier: CarrierId, export_: seq<Exported>, now: int)
    ensures KeysDiffer(Added(rows, carrier, export_, now)) <==> !RepeatsANewCode(rows, carrier, export_)
  {
    if export_ != [] {
      var k := (carrier, Last(export_).code);
      AddedKeysDifferIff(rows, carrier, ButLast(export_), now);
      RepeatsOneMore(rows, carrier, export_);
      AddedKeys(rows, carrier, ButLast(export_), now, k);
      if k !in rows {
        var added := Added(rows, carrier, export_, now);
        assert ButLast(added) == Added(rows, carrier, ButLast(export_), now);
        OneMoreKey(added);
      }
    }
  }

  lemma NewCodes(rows: Table, carrier: CarrierId, export_: seq<Exported>)
    requires export_ != []
    ensures var before, code := Codes(ButLast(export_)) - Known(rows, carrier), Last(export_).code;
            Codes(export_) - Known(rows, carrier) == if (carrier, code) in rows then before else before + {code}
  {
    ActiveIs(rows, carrier, Last(export_).code);
    forall c
      ensures c in Codes(export_) <==> c in Codes(ButLast(export_)) || c == Last(export_).code
    {
      CodesAreTold(export_, c);
    }
  }

  lemma {:induction false} AddedAreTheNewCodes(rows: Table, carrier: CarrierId, export_: seq<Exported>, now: int)
    requires KeysDiffer(Added(rows, carrier, export_, now))
    ensures |Added(rows, carrier, export_, now)| == |Codes(export_) - Known(rows, carrier)|
  {
    if export_ != [] {
      var front, k := ButLast(export_), (carrier, Last(export_).code);
      NewCodes(rows, carrier, export_);
      if k in rows {
        AddedAreTheNewCodes(rows, carrier, front, now);
      } else {
        var added := Added(rows, carrier, export_, now);
        assert ButLast(added) == Added(rows, carrier, front, now);
        OneMoreKey(added);
        AddedAreTheNewCodes(rows, carrier, front, now);
        AddedKeys(rows, carrier, front, now, k);
      }
    }
  }
}
