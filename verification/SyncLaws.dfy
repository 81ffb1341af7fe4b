/**
 What the transaction of a tenant leaves of each terminal and each city when it is accepted, however many accounts
 of one carrier were synchronised in it.
 */
module SyncLaws {
  import opened Options
  import opened Terminals
  import opened RefSync
  import M = CityMappings
  import C = CityMatching

  // ----- one terminal -----

  /** What an export says of a terminal. */
  function Says(e: Option<Fetched>, k: Key): Option<Details> {
    if e.Some? && e.value.carrier == k.0 then LastOf(e.value.catalog.terminals, k.1) else None
  }

  /** A complete export of the terminal's carrier that does not mention it. */
  predicate Misses(e: Option<Fetched>, k: Key) {
    e.Some? && e.value.carrier == k.0 && e.value.catalog.isComplete && LastOf(e.value.catalog.terminals, k.1) == None
  }

  /** What the session's object and the statements see of a known terminal after n exports. */
  function RowAt(was: Terminal, exports: Exports, n: nat, k: Key): (Terminal, Terminal)
    requires n <= |exports|
  {
    if n == 0 then (was, was)
    else
      var (held, stored) := RowAt(was, exports, n - 1, k);
      var e := exports[n - 1];
      if Says(e, k).Some? then (Told(Says(e, k).value, e.value.now), stored)
      else if Misses(e, k) then
        var off := Switched(stored, e.value.now);
        (if held.isActive then held.(isActive := off.isActive, deactivatedAt := off.deactivatedAt) else held, off)
      else (held, stored)
  }

  lemma OneExport(stored: Table, rows: Table, e: Fetched, k: Key, held: Terminal, row: Terminal)
    requires k in rows && k in stored && rows[k] == held && stored[k] == row
    ensures var told := Says(Some(e), k);
            var off := Switched(row, e.now);
            && RowIn(StoredAfter(stored, e.carrier, e.catalog, e.now), k) == Some(if Misses(Some(e), k) then off else row)
            && RowIn(Kept(stored, rows, e.carrier, e.catalog, e.now), k)
               == Some(if told.Some? then Told(told.value, e.now)
                       else if Misses(Some(e), k) && held.isActive
                            then held.(isActive := off.isActive, deactivatedAt := off.deactivatedAt) else held)
  {
    UpdatedRow(rows, e.carrier, e.catalog.terminals, e.now, k);
    CodesAreTold(e.catalog.terminals, k.1);
  }

  lemma {:induction false} KnownRow(o: C.Outside, s: Session, exports: Exports, n: nat, k: Key)
    requires n <= |exports| && s.pending == [] && s.stored == s.rows && k in s.rows
    ensures var r := SyncedUpTo(o, s, exports, n);
            var (held, stored) := RowAt(s.rows[k], exports, n, k);
            RowIn(r.rows, k) == Some(held) && RowIn(r.stored, k) == Some(stored)
  {
    if n > 0 {
      KnownRow(o, s, exports, n - 1, k);
      if exports[n - 1].Some? {
        var before := SyncedUpTo(o, s, exports, n - 1);
        var (held, stored) := RowAt(s.rows[k], exports, n - 1, k);
        OneExport(before.stored, before.rows, exports[n - 1].value, k, held, stored);
      }
    }
  }

  lemma KnownRowAtEnd(o: C.Outside, s: Session, exports: Exports, n: nat, k: Key)
    requires n <= |exports| && s.pending == [] && s.stored == s.rows && k in s.rows
    ensures FinalRow(o, s, exports, n, k) == Some(RowAt(s.rows[k], exports, n, k).0)
  {
    var r := SyncedUpTo(o, s, exports, n);
    KnownRow(o, s, exports, n, k);
    PendingKeys(o, s, exports, n, k);
    RowsAfterAdding(r.rows, r.pending, k);
  }

  /** The first export before the n-th that misses the terminal. */
  ghost predicate IsFirstMiss(exports: Exports, f: nat, n: nat, k: Key) {
    f < n <= |exports| && Misses(exports[f], k) && forall j :: 0 <= j < f ==> !Misses(exports[j], k)
  }

  ghost predicate NeverMissed(exports: Exports, n: nat, k: Key)
    requires n <= |exports|
  {
    forall j :: 0 <= j < n ==> !Misses(exports[j], k)
  }

  /** What is stored goes off with the first export that misses the terminal, and is not told of anything. */
  lemma {:induction false} StoredGoesOffOnce(was: Terminal, exports: Exports, n: nat, k: Key, f: nat)
    requires n <= |exports| && (NeverMissed(exports, n, k) || IsFirstMiss(exports, f, n, k))
    ensures RowAt(was, exports, n, k).1 == if NeverMissed(exports, n, k) then was else Switched(was, exports[f].value.now)
  {
    if n > 0 {
      if f == n - 1 && IsFirstMiss(exports, f, n, k) {
        assert NeverMissed(exports, n - 1, k);
      }
      StoredGoesOffOnce(was, exports, n - 1, k, f);
    }
  }

  /** The last export before the n-th that says anything of the terminal, or misses it. */
  ghost predicate IsLastWord(exports: Exports, m: nat, n: nat, k: Key) {
    && m < n <= |exports| && (Says(exports[m], k).Some? || Misses(exports[m], k))
    && forall j :: m < j < n ==> Says(exports[j], k) == None && !Misses(exports[j], k)
  }

  lemma {:induction false} AfterTheLastWord(was: Terminal, exports: Exports, m: nat, n: nat, k: Key)
    requires IsLastWord(exports, m, n, k)
    ensures RowAt(was, exports, n, k) == RowAt(was, exports, m + 1, k)
  {
    if m < n - 1 {
      AfterTheLastWord(was, exports, m, n - 1, k);
    }
  }

  /** An object that is off has the moment that is stored for it. */
  lemma {:induction false} OffIsStored(was: Terminal, exports: Exports, n: nat, k: Key)
    requires n <= |exports|
    ensures var (held, stored) := RowAt(was, exports, n, k);
            !held.isActive ==> !stored.isActive && held.deactivatedAt == stored.deactivatedAt
  {
    if n > 0 {
      OffIsStored(was, exports, n - 1, k);
    }
  }

  /**
   A known terminal at the end of the transaction, by the last export that speaks of it: one that mentions it leaves it
   on, with what it says and its time; one that misses it leaves it off since the first export of the transaction that
   missed it, or since before, if it was off already.
   */
  lemma WhatAKnownTerminalSays(o: C.Outside, s: Session, exports: Exports, n: nat, k: Key, m: nat, f: nat)
    requires n <= |exports| && s.pending == [] && s.stored == s.rows && k in s.rows
    requires IsLastWord(exports, m, n, k) && (Misses(exports[m], k) ==> IsFirstMiss(exports, f, n, k))
    ensures FinalRow(o, s, exports, n, k).Some?
    ensures var was, row := s.rows[k], FinalRow(o, s, exports, n, k).value;
            && (Says(exports[m], k).Some? ==>
                 row == Terminal(Says(exports[m], k).value, true, None, Some(exports[m].value.now)))
            && (Misses(exports[m], k) ==>
                 && !row.isActive
                 && row.deactivatedAt == if was.isActive then Some(exports[f].value.now) else was.deactivatedAt)
  {
    var was := s.rows[k];
    KnownRowAtEnd(o, s, exports, n, k);
    AfterTheLastWord(was, exports, m, n, k);
    if Misses(exports[m], k) {
      assert f <= m;
      StoredGoesOffOnce(was, exports, m + 1, k, f);
      OffIsStored(was, exports, m + 1, k);
    }
  }

  /** The last export before the n-th that mentions the terminal. */
  ghost predicate IsLastTelling(exports: Exports, i: nat, n: nat, k: Key) {
    i < n <= |exports| && Says(exports[i], k).Some? && forall j :: i < j < n ==> Says(exports[j], k) == None
  }

  lemma {:induction false} ToldRow(was: Terminal, exports: Exports, i: nat, n: nat, k: Key)
    requires n <= |exports| && (IsLastTelling(exports, i, n, k) || forall j :: 0 <= j < n ==> Says(exports[j], k) == None)
    ensures var row := RowAt(was, exports, n, k).0;
            if IsLastTelling(exports, i, n, k)
            then Some(row.details) == Says(exports[i], k) && row.syncedAt == Some(exports[i].value.now)
            else row.details == was.details && row.syncedAt == was.syncedAt
  {
    if n > 0 && !(IsLastTelling(exports, i, n, k) && i == n - 1) {
      ToldRow(was, exports, i, n - 1, k);
    }
  }

  /** On or off, it has what the last export that mentions it says of it, and its time, or what it had before. */
  lemma WhatItWasTold(o: C.Outside, s: Session, exports: Exports, n: nat, k: Key, i: nat)
    requires n <= |exports| && s.pending == [] && s.stored == s.rows && k in s.rows
    requires IsLastTelling(exports, i, n, k) || forall j :: 0 <= j < n ==> Says(exports[j], k) == None
    ensures FinalRow(o, s, exports, n, k).Some?
    ensures var was, row := s.rows[k], FinalRow(o, s, exports, n, k).value;
            if IsLastTelling(exports, i, n, k)
            then Some(row.details) == Says(exports[i], k) && row.syncedAt == Some(exports[i].value.now)
            else row.details == was.details && row.syncedAt == was.syncedAt
  {
    KnownRowAtEnd(o, s, exports, n, k);
    ToldRow(s.rows[k], exports, i, n, k);
  }

  /** One of which no export speaks is as it was. */
  lemma {:induction false} NotSpokenOf(o: C.Outside, s: Session, exports: Exports, n: nat, k: Key)
    requires n <= |exports| && s.pending == [] && s.stored == s.rows && k in s.rows
    requires forall j :: 0 <= j < n ==> Says(exports[j], k) == None && !Misses(exports[j], k)
    ensures FinalRow(o, s, exports, n, k) == Some(s.rows[k])
  {
    KnownRowAtEnd(o, s, exports, n, k);
    Untouched(s.rows[k], exports, n, k);
  }

  lemma {:induction false} Untouched(was: Terminal, exports: Exports, n: nat, k: Key)
    requires n <= |exports| && forall j :: 0 <= j < n ==> Says(exports[j], k) == None && !Misses(exports[j], k)
    ensures RowAt(was, exports, n, k) == (was, was)
  {
    if n > 0 {
      Untouched(was, exports, n - 1, k);
    }
  }

  ghost predicate IsTold(exports: Exports, n: nat, k: Key)
    requires n <= |exports|
  {
    exists j :: 0 <= j < n && Says(exports[j], k).Some?
  }

  lemma ToldStep(exports: Exports, n: nat, k: Key)
    requires 0 < n <= |exports|
    ensures IsTold(exports, n, k) <==> IsTold(exports, n - 1, k) || Says(exports[n - 1], k).Some?
  {
  }

  /** A terminal that the table did not know is on whenever an export mentions it, even when a later one misses it. */
  lemma {:induction false} WhatANewTerminalSays(o: C.Outside, s: Session, exports: Exports, n: nat, k: Key)
    requires n <= |exports| && s.pending == [] && k !in s.rows
    ensures FinalRow(o, s, exports, n, k).Some? <==> IsTold(exports, n, k)
    ensures FinalRow(o, s, exports, n, k).Some? ==>
              FinalRow(o, s, exports, n, k).value.isActive && FinalRow(o, s, exports, n, k).value.deactivatedAt == None
  {
    if n > 0 {
      WhatANewTerminalSays(o, s, exports, n - 1, k);
      ToldStep(exports, n, k);
      if Concerns(exports[n - 1], k) {
        NewStep(o, s, exports, n, k);
      } else {
        OtherCarrierStep(o, s, exports, n, k);
      }
    }
  }

  lemma NewStep(o: C.Outside, s: Session, exports: Exports, n: nat, k: Key)
    requires 0 < n <= |exports| && k !in s.rows && Concerns(exports[n - 1], k)
    ensures FinalRow(o, s, exports, n, k)
            == if Says(exports[n - 1], k).Some? then Some(Told(Says(exports[n - 1], k).value, exports[n - 1].value.now))
               else FinalRow(o, s, exports, n - 1, k)
  {
    var before, e := SyncedUpTo(o, s, exports, n - 1), exports[n - 1].value;
    var kept, added := Kept(before.stored, before.rows, e.carrier, e.catalog, e.now), Added(before.rows, e.carrier, e.catalog.terminals, e.now);
    var base := WithAll(kept, before.pending);
    AddingBoth(kept, before.pending, added);
    if Says(exports[n - 1], k).Some? {
      AddedRow(before.rows, base, e.carrier, e.catalog.terminals, e.now, k);
    } else {
      CodesAreTold(e.catalog.terminals, k.1);
      AddedKeys(before.rows, e.carrier, e.catalog.terminals, e.now, k);
      RowsAfterAdding(base, added, k);
      AddingAt(kept, before.rows, before.pending, k);
    }
  }

  // ----- what undoes it, and what it reports -----

  /** One city that the database does not take undoes the whole transaction, wherever it stands. */
  lemma OneUnfitCityUndoesEverything(o: C.Outside, s: Session, exports: Exports, i: nat, j: nat)
    requires i < |exports| && exports[i].Some? && j < |exports[i].value.cities| && !CityFits(o, exports[i].value.cities[j])
    ensures !IsAccepted(o, s, exports)
  {
    assert !CitiesFit(o, exports[i].value.cities);
  }

  /** The number reported is that of the exported terminals: an account without an export adds nothing to it. */
  lemma {:induction false} WhatIsReported(exports: Exports, e: Fetched)
    ensures Upserted(exports + [Some(e)], |exports| + 1) == Upserted(exports, |exports|) + |e.catalog.terminals|
    ensures Upserted(exports + [None], |exports| + 1) == Upserted(exports, |exports|)
    ensures Upserted([], 0) == 0
  {
    SameCount(exports, exports + [Some(e)], |exports|);
    SameCount(exports, exports + [None], |exports|);
  }

  lemma {:induction false} SameCount(a: Exports, b: Exports, n: nat)
    requires n <= |a| <= |b| && b[..|a|] == a
    ensures Upserted(a, n) == Upserted(b, n)
  {
    if n > 0 {
      SameCount(a, b, n - 1);
      assert b[..|a|][n - 1] == b[n - 1];
    }
  }

  // ----- the cities -----

  /** Two tables say the same of one city of a carrier and of one that waits. */
  predicate SameAt(a: M.Tables, b: M.Tables, k: M.MapKey, q: M.QueueKey) {
    && (if k in a.mappings then k in b.mappings && a.mappings[k] == b.mappings[k] else k !in b.mappings)
    && (if q in a.queue then q in b.queue && a.queue[q] == b.queue[q] else q !in b.queue)
  }

  lemma {:induction false} OtherCitiesStay(
      o: C.Outside, carrier: CarrierId, t: M.Tables, rows: seq<C.CarrierCity>, k: M.MapKey, q: M.QueueKey)
    requires k.0 != carrier && q.0 != carrier
    ensures SameAt(M.PlacedAll(o, carrier, t, rows), t, k, q)
  {
    if rows != [] {
      OtherCitiesStay(o, carrier, t, rows[..|rows| - 1], k, q);
    }
  }

  /** Placing depends, for one city, on what the tables say of it. */
  lemma {:induction false} PlacedAlike(
      o: C.Outside, carrier: CarrierId, a: M.Tables, b: M.Tables, rows: seq<C.CarrierCity>, k: M.MapKey, q: M.QueueKey)
    requires SameAt(a, b, k, q)
    ensures SameAt(M.PlacedAll(o, carrier, a, rows), M.PlacedAll(o, carrier, b, rows), k, q)
  {
    if rows != [] {
      PlacedAlike(o, carrier, a, b, rows[..|rows| - 1], k, q);
    }
  }

  /** The exports of one carrier, one after another, as if there were no others. */
  function OnlyOf(o: C.Outside, t: M.Tables, exports: Exports, n: nat, carrier: CarrierId): M.Tables
    requires n <= |exports|
  {
    if n == 0 then t
    else
      var before := OnlyOf(o, t, exports, n - 1, carrier);
      if exports[n - 1].Some? && exports[n - 1].value.carrier == carrier
      then M.PlacedAll(o, carrier, before, exports[n - 1].value.cities) else before
  }

  /** Each city of a carrier, placed or waiting, ends as the exports of its carrier alone would have left it. */
  lemma {:induction false} CitiesAsIfAlone(
      o: C.Outside, s: Session, exports: Exports, n: nat, carrier: CarrierId, k: M.MapKey, q: M.QueueKey)
    requires n <= |exports| && k.0 == carrier && q.0 == carrier
    ensures SameAt(SyncedUpTo(o, s, exports, n).cities, OnlyOf(o, s.cities, exports, n, carrier), k, q)
  {
    if n > 0 {
      CitiesAsIfAlone(o, s, exports, n - 1, carrier, k, q);
      if exports[n - 1].Some? {
        var before, e := SyncedUpTo(o, s, exports, n - 1).cities, exports[n - 1].value;
        if e.carrier == carrier {
          PlacedAlike(o, carrier, before, OnlyOf(o, s.cities, exports, n - 1, carrier), e.cities, k, q);
        } else {
          OtherCitiesStay(o, e.carrier, before, e.cities, k, q);
        }
      }
    }
  }
}
