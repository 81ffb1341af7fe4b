/** What the directory of terminals is worth: statements about one synchronisation, and about all of them. */
module TerminalRuns {
  import opened Options
  import opened Rounding
  import opened Terminals

  /** After a complete export the active codes of the carrier are exactly the exported ones. */
  lemma CompleteExportDecides(rows: Table, carrier: CarrierId, catalog: Catalog, now: int, r: Table)
    requires IsSynced(rows, carrier, catalog, now, r) && catalog.isComplete
    ensures Active(r, carrier) == Codes(catalog.terminals)
  {
    forall code
      ensures code in Active(r, carrier) <==> code in Codes(catalog.terminals)
    {
      ActiveIs(r, carrier, code);
      CodesAreTold(catalog.terminals, code);
      assert SyncedRow(rows, carrier, catalog, now, (carrier, code))
             == if (carrier, code) in r then Some(r[(carrier, code)]) else None;
    }
  }

  /** No row is deleted, no other carrier is touched, and an incomplete export switches nothing off. */
  lemma NothingElseIsLost(rows: Table, carrier: CarrierId, catalog: Catalog, now: int, r: Table, k: Key)
    requires IsSynced(rows, carrier, catalog, now, r) && k in rows
    ensures k in r
    ensures k.0 != carrier ==> r[k] == rows[k]
    ensures !catalog.isComplete && rows[k].isActive ==> r[k].isActive
    ensures k.1 !in Codes(catalog.terminals) && !rows[k].isActive ==> r[k] == rows[k]
  {
    CodesAreTold(catalog.terminals, k.1);
    assert SyncedRow(rows, carrier, catalog, now, k) == if k in r then Some(r[k]) else None;
  }

  /** And nothing appears but the exported codes of that carrier. */
  lemma NothingElseAppears(rows: Table, carrier: CarrierId, catalog: Catalog, now: int, r: Table, k: Key)
    requires IsSynced(rows, carrier, catalog, now, r) && k in r && k !in rows
    ensures k.0 == carrier && k.1 in Codes(catalog.terminals)
  {
    CodesAreTold(catalog.terminals, k.1);
    assert SyncedRow(rows, carrier, catalog, now, k) == Some(r[k]);
  }

  /** The same export again changes only the time of the sync, row by row. */
  lemma RepeatedRow(rows: Table, carrier: CarrierId, catalog: Catalog, now: int, r: Table, later: int, again: Table, k: Key)
    requires IsSynced(rows, carrier, catalog, now, r) && IsSynced(r, carrier, catalog, later, again)
    ensures k in again <==> k in r
    ensures k in r ==> again[k].(syncedAt := None) == r[k].(syncedAt := None)
  {
    assert SyncedRow(rows, carrier, catalog, now, k) == if k in r then Some(r[k]) else None;
    assert SyncedRow(r, carrier, catalog, later, k) == if k in again then Some(again[k]) else None;
  }

  lemma ExportedIsKnown(rows: Table, carrier: CarrierId, catalog: Catalog, now: int, r: Table, code: Code)
    requires IsSynced(rows, carrier, catalog, now, r) && code in Codes(catalog.terminals)
    ensures (carrier, code) in r && code in Known(r, carrier)
  {
    CodesAreTold(catalog.terminals, code);
    assert SyncedRow(rows, carrier, catalog, now, (carrier, code)).Some?;
    ActiveIs(r, carrier, code);
  }

  /** So it creates nothing, switches nothing off, and is never refused. */
  lemma RepeatIsQuiet(rows: Table, carrier: CarrierId, catalog: Catalog, now: int, r: Table)
    requires IsSynced(rows, carrier, catalog, now, r) && !IsRefused(rows, carrier, catalog.terminals)
    ensures !IsRefused(r, carrier, catalog.terminals)
    ensures Codes(catalog.terminals) - Known(r, carrier) == {} && SwitchedOff(r, carrier, catalog) == 0
  {
    forall code | code in Codes(catalog.terminals)
      ensures (carrier, code) in r && code in Known(r, carrier)
    {
      ExportedIsKnown(rows, carrier, catalog, now, r, code);
    }
    assert forall i :: 0 <= i < |catalog.terminals| ==> catalog.terminals[i].code in Codes(catalog.terminals);
    if catalog.isComplete {
      CompleteExportDecides(rows, carrier, catalog, now, r);
    }
  }

  /**
   The adapters' contract says that an empty set switches nothing off. An empty export leaves the active
   terminals as they were if and only if it is marked incomplete or there was nothing to switch off.
   */
  lemma EmptyExportKeepsTheNetworkIff(rows: Table, carrier: CarrierId, catalog: Catalog, now: int, r: Table)
    requires IsSynced(rows, carrier, catalog, now, r) && catalog.terminals == []
    ensures Active(r, carrier) == Active(rows, carrier) <==> !catalog.isComplete || Active(rows, carrier) == {}
  {
    if catalog.isComplete {
      CompleteExportDecides(rows, carrier, catalog, now, r);
    } else {
      forall code
        ensures code in Active(r, carrier) <==> code in Active(rows, carrier)
      {
        ActiveIs(r, carrier, code);
        ActiveIs(rows, carrier, code);
        assert SyncedRow(rows, carrier, catalog, now, (carrier, code))
               == if (carrier, code) in r then Some(r[(carrier, code)]) else None;
      }
    }
  }

  // ----- what a row says -----

  /** The last row of the export that has this code. */
  ghost predicate IsLastOf(export_: seq<Exported>, i: nat, code: Code) {
    i < |export_| && export_[i].code == code && forall j :: i < j < |export_| ==> export_[j].code != code
  }

  lemma {:induction false} LastOfIs(export_: seq<Exported>, i: nat, code: Code)
    requires IsLastOf(export_, i, code)
    ensures LastOf(export_, code) == Some(export_[i].details)
  {
    if i < |export_| - 1 {
      assert export_[|export_| - 1].code != code;
      assert forall j :: i < j < |ButLast(export_)| ==> ButLast(export_)[j] == export_[j];
      LastOfIs(ButLast(export_), i, code);
    }
  }

  /** An exported terminal is on, has what the last row of its code says, and the time of this synchronisation. */
  lemma WhatAToldRowSays(rows: Table, carrier: CarrierId, catalog: Catalog, now: int, r: Table, i: nat, code: Code)
    requires IsSynced(rows, carrier, catalog, now, r) && IsLastOf(catalog.terminals, i, code)
    ensures (carrier, code) in r
    ensures var row := r[(carrier, code)];
            && row.details == catalog.terminals[i].details
            && row.isActive && row.deactivatedAt == None && row.syncedAt == Some(now)
  {
    LastOfIs(catalog.terminals, i, code);
    assert SyncedRow(rows, carrier, catalog, now, (carrier, code)) == RowIn(r, (carrier, code));
  }

  /** A terminal that a complete export misses is off from now on, and keeps all the rest. */
  lemma WhatAMissedRowSays(rows: Table, carrier: CarrierId, catalog: Catalog, now: int, r: Table, code: Code)
    requires IsSynced(rows, carrier, catalog, now, r)
    requires (carrier, code) in rows && forall i :: 0 <= i < |catalog.terminals| ==> catalog.terminals[i].code != code
    ensures (carrier, code) in r
    ensures var was, row := rows[(carrier, code)], r[(carrier, code)];
            if catalog.isComplete && was.isActive
            then row.details == was.details && !row.isActive && row.deactivatedAt == Some(now) && row.syncedAt == was.syncedAt
            else row == was
  {
    CodesAreTold(catalog.terminals, code);
    assert SyncedRow(rows, carrier, catalog, now, (carrier, code)) == RowIn(r, (carrier, code));
  }

  lemma OneCode(rows: Table, carrier: CarrierId, catalog: Catalog, now: int, r: Table, code: Code)
    requires IsSynced(rows, carrier, catalog, now, r)
    ensures code in Active(r, carrier) <==>
              code in Codes(catalog.terminals) || (code in Active(rows, carrier) && !catalog.isComplete)
    ensures code in Known(r, carrier) <==> code in Codes(catalog.terminals) || code in Known(rows, carrier)
  {
    ActiveIs(rows, carrier, code);
    ActiveIs(r, carrier, code);
    CodesAreTold(catalog.terminals, code);
    assert SyncedRow(rows, carrier, catalog, now, (carrier, code)) == RowIn(r, (carrier, code));
  }

  /** What is counted as switched off was on and is off now; what is counted as created was not known and is now. */
  lemma WhatIsCounted(rows: Table, carrier: CarrierId, catalog: Catalog, now: int, r: Table)
    requires IsSynced(rows, carrier, catalog, now, r)
    ensures SwitchedOff(rows, carrier, catalog) == |Active(rows, carrier) - Active(r, carrier)|
    ensures Codes(catalog.terminals) - Known(rows, carrier) == Known(r, carrier) - Known(rows, carrier)
  {
    var before, after, known, told := Active(rows, carrier), Active(r, carrier), Known(rows, carrier), Codes(catalog.terminals);
    forall code
      ensures code in after <==> code in told || (code in before && !catalog.isComplete)
      ensures code in Known(r, carrier) <==> code in told || code in known
    {
      OneCode(rows, carrier, catalog, now, r, code);
    }
    assert before - after == if catalog.isComplete then before - told else {};
  }

  /** A weight fits while it stays half a gram below ten million kilograms. */
  lemma WeightFitsIff(kg: real)
    ensures FitsWeight(Some(kg)) <==> -9_999_999.9995 < kg < 9_999_999.9995
    ensures FitsWeight(None)
  {
    HalfUpIsTheNearestAwayFromZero(kg * 1000.0, HalfUp(kg * 1000.0));
  }

  /** No text of the row is longer than its column or has a null character, and its kind is one of three. */
  lemma FitsIff(code: Code, d: Details)
    ensures Fits(code, d) <==>
              && |code| <= 50 && '\0' !in code
              && '\0' !in d.cityFiasId.GetOr("") + d.cityName.GetOr("") + d.address.GetOr("") + d.workHours.GetOr("")
              && |d.cityFiasId.GetOr("")| <= 36 && |d.cityName.GetOr("")| <= 255 && |d.workHours.GetOr("")| <= 255
              && (d.kind == "pvz" || d.kind == "terminal" || d.kind == "postamat")
              && (d.maxWeightKg.Some? ==> -9_999_999.9995 < d.maxWeightKg.value < 9_999_999.9995)
  {
    if d.maxWeightKg.Some? {
      WeightFitsIff(d.maxWeightKg.value);
    }
  }

  // ----- every run of synchronisations -----

  datatype Attempt = Attempt(carrier: CarrierId, catalog: Catalog, now: int)

  /** An export is written over the table, or refused with the table as it was. */
  ghost predicate Steps(rows: Table, a: Attempt, r: Table) {
    if IsRefused(rows, a.carrier, a.catalog.terminals) then r == rows
    else IsSynced(rows, a.carrier, a.catalog, a.now, r)
  }

  ghost predicate IsRun(tables: seq<Table>, attempts: seq<Attempt>) {
    && |tables| == |attempts| + 1
    && forall i :: 0 <= i < |attempts| ==> Steps(tables[i], attempts[i], tables[i + 1])
  }

  lemma StepKeepsFlags(rows: Table, a: Attempt, r: Table)
    requires Steps(rows, a, r) && FlagsAgree(rows) && RowsFit(rows)
    ensures FlagsAgree(r) && RowsFit(r) && rows.Keys <= r.Keys
  {
    if !IsRefused(rows, a.carrier, a.catalog.terminals) {
      SyncedFitsIff(rows, a.carrier, a.catalog, a.now, r);
      forall k | k in r
        ensures r[k].isActive <==> r[k].deactivatedAt.None?
      {
        assert SyncedRow(rows, a.carrier, a.catalog, a.now, k) == Some(r[k]);
      }
      forall k | k in rows
        ensures k in r
      {
        NothingElseIsLost(rows, a.carrier, a.catalog, a.now, r, k);
      }
    }
  }

  /**
   In every run a terminal is active exactly when it has no moment of deactivation, every row fits its columns, and
   rows only accumulate.
   */
  lemma {:induction false} RunsKeepFlags(tables: seq<Table>, attempts: seq<Attempt>, n: nat)
    requires IsRun(tables, attempts) && tables[0] == map[] && n <= |attempts|
    ensures FlagsAgree(tables[n]) && RowsFit(tables[n]) && forall i :: 0 <= i <= n ==> tables[i].Keys <= tables[n].Keys
  {
    if n > 0 {
      RunsKeepFlags(tables, attempts, n - 1);
      StepKeepsFlags(tables[n - 1], attempts[n - 1], tables[n]);
    }
  }
}
