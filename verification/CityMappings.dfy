/**
 The table of city codes and the queue of the cities a person has to place, kept through repeated exports
 and through what people confirm.
 */
module CityMappings {
  import opened Options
  import opened CityMatching

  type CarrierId = nat
  type MapKey = (CarrierId, string)
  type QueueKey = (CarrierId, string)

  datatype How = Machine(how: Method) | Manual

  datatype Mapping = Mapping(code: string, name: string, how: How, score: real, isConfirmed: bool)

  datatype QueueItem = QueueItem(
    name: string, region: string, reason: Reason, candidates: seq<Candidate>, bestScore: Option<real>, terminals: nat,
    resolvedAs: Option<string>)

  type Mappings = map<MapKey, Mapping>
  type Queue = map<QueueKey, QueueItem>

  datatype Tables = Tables(mappings: Mappings, queue: Queue)

  datatype Counters = Counters(fias: nat, kladr: nat, exactName: nat, fuzzyName: nat, queued: nat) {
    function Mapped(): nat {
      fias + kladr + exactName + fuzzyName
    }
  }

  // ----- the two writes -----

  /** A confirmed mapping is left as it is; an unconfirmed one is rewritten and stays unconfirmed. */
  function Upserted(mappings: Mappings, k: MapKey, m: Mapping): Mappings {
    if k !in mappings then mappings[k := m]
    else if mappings[k].isConfirmed then mappings
    else mappings[k := m.(isConfirmed := false)]
  }

  /** A resolved item is left as it is. */
  function Enqueued(queue: Queue, k: QueueKey, item: QueueItem): Queue {
    if k in queue && queue[k].resolvedAs.Some? then queue else queue[k := item]
  }

  function ItemFor(row: CarrierCity, found: Match): QueueItem {
    QueueItem(row.name, row.region, if found.reason == NoReason then NoMatch else found.reason, found.candidates,
              if found.score == 0.0 then None else Some(found.score), row.terminals, None)
  }

  /** One row of an export: mapped, or queued for a person. */
  function Placed(o: Outside, carrier: CarrierId, t: Tables, row: CarrierCity): Tables {
    var found := MatchOf(o, row);
    match found.fiasId
    case None => t.(queue := Enqueued(t.queue, (carrier, row.code), ItemFor(row, found)))
    case Some(fias) =>
      t.(mappings := Upserted(t.mappings, (carrier, fias),
                              Mapping(row.code, row.name, Machine(found.how), found.score, found.isConfirmed)))
  }

  function PlacedAll(o: Outside, carrier: CarrierId, t: Tables, rows: seq<CarrierCity>): Tables {
    if rows == [] then t
    else Placed(o, carrier, PlacedAll(o, carrier, t, rows[..|rows| - 1]), rows[|rows| - 1])
  }

  function Counted(c: Counters, found: Match): Counters {
    if found.fiasId.None? then c.(queued := c.queued + 1)
    else
      match found.how
      case ByFias => c.(fias := c.fias + 1)
      case ByKladr => c.(kladr := c.kladr + 1)
      case ExactName => c.(exactName := c.exactName + 1)
      case FuzzyName => c.(fuzzyName := c.fuzzyName + 1)
      case NoMethod => c
  }

  /** The person's choice for an item of the queue: written like any other mapping, and the item is resolved. */
  function Confirmed(t: Tables, item: QueueKey, fias: string): Tables
    requires item in t.queue
  {
    Tables(Upserted(t.mappings, (item.0, fias), Mapping(item.1, t.queue[item].name, Manual, 1.0, true)),
           t.queue[item := t.queue[item].(resolvedAs := Some(fias))])
  }

  class CityMappingService {
    var mappings: Mappings
    var queue: Queue

    constructor ()
      ensures Now() == Tables(map[], map[])
    {
      mappings, queue := map[], map[];
    }

    function Now(): Tables
      reads this
    {
      Tables(mappings, queue)
    }

    method Upsert(k: MapKey, m: Mapping)
      modifies this`mappings
      ensures mappings == Upserted(old(mappings), k, m)
    {
      if k !in mappings {
        mappings := mappings[k := m];
      } else if !mappings[k].isConfirmed {
        mappings := mappings[k := m.(isConfirmed := mappings[k].isConfirmed)];
      }
    }

    method Enqueue(k: QueueKey, item: QueueItem)
      modifies this`queue
      ensures queue == Enqueued(old(queue), k, item)
    {
      if k !in queue || queue[k].resolvedAs.None? {
        queue := queue[k := item];
      }
    }

    method Place(o: Outside, carrier: CarrierId, row: CarrierCity) returns (found: Match)
      modifies this
      ensures found == MatchOf(o, row)
      ensures Now() == Placed(o, carrier, old(Now()), row)
    {
      found := MatchOne(o, row);
      if found.fiasId.None? {
        Enqueue((carrier, row.code), ItemFor(row, found));
      } else {
        Upsert((carrier, found.fiasId.value),
               Mapping(row.code, row.name, Machine(found.how), found.score, found.isConfirmed));
      }
    }

    /** Place every city of an export, and count how each one was placed. */
    method MatchCarrierCities(o: Outside, carrier: CarrierId, rows: seq<CarrierCity>) returns (counters: Counters)
      modifies this
      ensures Now() == PlacedAll(o, carrier, old(Now()), rows)
      ensures counters == CountedAll(o, rows)
    {
      counters := Counters(0, 0, 0, 0, 0);
      ghost var start := Now();
      for i := 0 to |rows|
        invariant Now() == PlacedAll(o, carrier, start, rows[..i])
        invariant counters == CountedAll(o, rows[..i])
      {
        assert rows[..i + 1][..i] == rows[..i];
        var found := Place(o, carrier, rows[i]);
        counters := Counted(counters, found);
      }
      assert rows[..|rows|] == rows;
    }

    /** A person places a city of the queue. */
    method Confirm(item: QueueKey, fias: string) returns (found: bool)
      modifies this
      ensures found <==> item in old(queue)
      ensures Now() == if found then Confirmed(old(Now()), item, fias) else old(Now())
    {
      if item !in queue {
        return false;
      }
      Upsert((item.0, fias), Mapping(item.1, queue[item].name, Manual, 1.0, true));
      queue := queue[item := queue[item].(resolvedAs := Some(fias))];
      return true;
    }
  }

  function CountedAll(o: Outside, rows: seq<CarrierCity>): Counters {
    if rows == [] then Counters(0, 0, 0, 0, 0)
    else Counted(CountedAll(o, rows[..|rows| - 1]), MatchOf(o, rows[|rows| - 1]))
  }

  function Everyone(c: Counters): nat {
    c.Mapped() + c.queued
  }

  lemma CountedOnce(o: Outside, c: Counters, row: CarrierCity)
    ensures Everyone(Counted(c, MatchOf(o, row))) == Everyone(c) + 1
  {
    UnconfirmedMeansFuzzy(o, row);
  }

  /** Mapped plus queued is the size of the export: no city is lost, none is counted twice. */
  lemma {:induction false} EveryCityIsCounted(o: Outside, rows: seq<CarrierCity>)
    ensures Everyone(CountedAll(o, rows)) == |rows|
  {
    if rows != [] {
      EveryCityIsCounted(o, rows[..|rows| - 1]);
      CountedOnce(o, CountedAll(o, rows[..|rows| - 1]), rows[|rows| - 1]);
    }
  }

  // ----- every run of exports and confirmations -----

  datatype Event = Export(carrier: CarrierId, rows: seq<CarrierCity>) | Choice(item: QueueKey, fias: string)

  function After(o: Outside, t: Tables, e: Event): Tables {
    match e
    case Export(carrier, rows) => PlacedAll(o, carrier, t, rows)
    case Choice(item, fias) => if item in t.queue then Confirmed(t, item, fias) else t
  }

  function Final(o: Outside, t: Tables, events: seq<Event>): Tables
    decreases |events|
  {
    if events == [] then t else Final(o, After(o, t, events[0]), events[1..])
  }

  /** What people and identifiers settled is settled: confirmed mappings and resolved items do not change. */
  ghost predicate SettledKept(t: Tables, t': Tables) {
    && (forall k :: k in t.mappings && t.mappings[k].isConfirmed ==> k in t'.mappings && t'.mappings[k] == t.mappings[k])
    && (forall k :: k in t.queue && t.queue[k].resolvedAs.Some? ==>
         k in t'.queue && t'.queue[k].resolvedAs.Some? && t'.queue[k].(resolvedAs := None) == t.queue[k].(resolvedAs := None))
  }

  lemma {:induction false} ExportKeepsSettled(o: Outside, carrier: CarrierId, t: Tables, rows: seq<CarrierCity>)
    ensures SettledKept(t, PlacedAll(o, carrier, t, rows))
  {
    if rows != [] {
      ExportKeepsSettled(o, carrier, t, rows[..|rows| - 1]);
      RowKeepsSettled(o, carrier, PlacedAll(o, carrier, t, rows[..|rows| - 1]), rows[|rows| - 1]);
    }
  }

  lemma RowKeepsSettled(o: Outside, carrier: CarrierId, t: Tables, row: CarrierCity)
    ensures SettledKept(t, Placed(o, carrier, t, row))
  {
  }

  /** A confirmed mapping keeps its code, and everything else, through every later export and every later choice. */
  lemma {:induction false} ConfirmedStays(o: Outside, t: Tables, events: seq<Event>)
    ensures SettledKept(t, Final(o, t, events))
    decreases |events|
  {
    if events != [] {
      var e := events[0];
      match e {
        case Export(carrier, rows) => ExportKeepsSettled(o, carrier, t, rows);
        case Choice(item, fias) =>
      }
      assert SettledKept(t, After(o, t, e));
      ConfirmedStays(o, After(o, t, e), events[1..]);
    }
  }

  // ----- what confirming achieves -----

  /**
   The choice of a person becomes a confirmed mapping to that city's code if and only if the city had no
   mapping yet, or had a confirmed one to the same code already. The item is resolved in any case.
   */
  lemma ConfirmingConfirmsIff(t: Tables, item: QueueKey, fias: string)
    requires item in t.queue
    ensures var k, t' := (item.0, fias), Confirmed(t, item, fias);
            && t'.queue[item].resolvedAs == Some(fias)
            && k in t'.mappings
            && (t'.mappings[k].isConfirmed && t'.mappings[k].code == item.1 <==>
                 k !in t.mappings || (t.mappings[k].isConfirmed && t.mappings[k].code == item.1))
  {
  }

  /**
   Otherwise the choice is not safe: over a mapping that a machine guessed it is written as unconfirmed, and
   the next export that places another city there takes it away again.
   */
  lemma UnconfirmedChoiceIsOverwritten(o: Outside, t: Tables, item: QueueKey, fias: string, row: CarrierCity)
    requires item in t.queue && (item.0, fias) in t.mappings && !t.mappings[(item.0, fias)].isConfirmed
    requires MatchOf(o, row).fiasId == Some(fias)
    ensures Confirmed(t, item, fias).mappings[(item.0, fias)].code == item.1
    ensures Placed(o, item.0, Confirmed(t, item, fias), row).mappings[(item.0, fias)].code == row.code
  {
  }

  /** Only a name that is alike but not sure leaves an unconfirmed mapping. */
  lemma UnconfirmedMeansFuzzy(o: Outside, row: CarrierCity)
    ensures MatchOf(o, row).fiasId.Some? <==> MatchOf(o, row).how != NoMethod
    ensures MatchOf(o, row).fiasId.Some? ==> (MatchOf(o, row).isConfirmed <==> MatchOf(o, row).how != FuzzyName)
  {
  }

  /** All that a choice writes: under the chosen city, for certain and by hand, and the item with its city; nothing else. */
  lemma WhatAChoiceWrites(t: Tables, item: QueueKey, fias: string)
    requires item in t.queue
    ensures var k, r, was := (item.0, fias), Confirmed(t, item, fias), t.queue[item];
            && r.mappings.Keys == t.mappings.Keys + {k} && r.queue.Keys == t.queue.Keys
            && (forall other :: other in t.mappings && other != k ==> r.mappings[other] == t.mappings[other])
            && (forall other :: other in t.queue && other != item ==> r.queue[other] == t.queue[other])
            && (k !in t.mappings ==> r.mappings[k] == Mapping(item.1, was.name, Manual, 1.0, true))
            && (k in t.mappings && !t.mappings[k].isConfirmed ==> r.mappings[k] == Mapping(item.1, was.name, Manual, 1.0, false))
            && (k in t.mappings && t.mappings[k].isConfirmed ==> r.mappings[k] == t.mappings[k])
            && r.queue[item] == QueueItem(was.name, was.region, was.reason, was.candidates, was.bestScore, was.terminals, Some(fias))
  {
  }

  // ----- what a placement writes -----

  /**
   A row with a code that one candidate carries is mapped to that candidate, for good unless a person or an earlier
   export has settled another code there; nothing else in the tables changes.
   */
  lemma CodeIsWrittenUnderItsCity(o: Outside, carrier: CarrierId, t: Tables, row: CarrierCity, k: nat)
    requires !(row.fiasId != "" && o.isKnown(row.fiasId)) && row.kladrCity.Some?
    requires k < |o.search(row.name)| && OnlyHit(row.kladrCity.value, o.search(row.name), k)
    ensures var r, key := Placed(o, carrier, t, row), (carrier, o.search(row.name)[k].fiasId);
            && r.queue == t.queue && r.mappings.Keys == t.mappings.Keys + {key}
            && (forall other :: other in t.mappings && other != key ==> r.mappings[other] == t.mappings[other])
            && (key !in t.mappings ==> r.mappings[key] == Mapping(row.code, row.name, Machine(ByKladr), 0.99, true))
            && (key in t.mappings && !t.mappings[key].isConfirmed ==>
                 r.mappings[key] == Mapping(row.code, row.name, Machine(ByKladr), 0.99, false))
            && (key in t.mappings && t.mappings[key].isConfirmed ==> r.mappings[key] == t.mappings[key])
  {
    CodePlacesInItsCity(o, row, k);
  }

  /**
   A row that nothing decides waits for a person with what they need to decide: its names, why nothing did, the best
   candidates, the best score if there was one, and how many terminals depend on it. An item that a person has already
   resolved is left as it is.
   */
  lemma WhatIsQueued(o: Outside, carrier: CarrierId, t: Tables, row: CarrierCity)
    requires MatchOf(o, row).fiasId.None?
    ensures var r, key, found := Placed(o, carrier, t, row), (carrier, row.code), MatchOf(o, row);
            && r.mappings == t.mappings && key in r.queue
            && (forall other :: other in t.queue && other != key ==> other in r.queue && r.queue[other] == t.queue[other])
            && (key in t.queue && t.queue[key].resolvedAs.Some? ==> r.queue[key] == t.queue[key])
            && (!(key in t.queue && t.queue[key].resolvedAs.Some?) ==>
                 r.queue[key] == QueueItem(
                   row.name, row.region, if HasRival(o, row, o.search(row.name), found.score) && found.score > 0.0 then Ambiguous else NoMatch,
                   found.candidates, if found.score == 0.0 then None else Some(found.score), row.terminals, None))
  {
    WhatANameDecides(o, row, o.search(row.name));
  }
}
