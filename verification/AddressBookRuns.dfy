/** What every sequence of calls to the address book keeps; a call that fails leaves the book as it was. */
module AddressBookRuns {
  import opened Options
  import opened AddressBook

  datatype Event =
    | Create(id: CounterpartyId, c: Counterparty, given: seq<AddressIn>)
    | Add(owner: CounterpartyId, a: AddressIn)
    | Edit(id: CounterpartyId, payload: Payload)
    | EditAddress(owner: CounterpartyId, address: AddressId, payload: Payload, isDefaultSender: Option<bool>)
    | Delete(id: CounterpartyId, now: int)

  predicate IsAddressIn(a: AddressIn) {
    |a.countryCode| == 2
  }

  /** Identifiers are new, and the requests passed their schemas. */
  ghost predicate Enabled(b: Book, e: Event) {
    match e
    case Create(id, c, given) =>
      && id !in b.counterparties && c.deletedAt.None?
      && (forall i :: 0 <= i < |given| ==> IsAddressIn(given[i]) && given[i].id !in b.addresses)
      && (forall i, j :: 0 <= i < j < |given| ==> given[i].id != given[j].id)
    case Add(_, a) => IsAddressIn(a) && a.id !in b.addresses
    case _ => true
  }

  /** A new counterparty that the check or the index refuses. */
  ghost predicate IsRefused(b: Book, id: CounterpartyId, c: Counterparty) {
    IsTaken(b, c) || ClashesInIndex(b.(counterparties := b.counterparties[id := c]), id)
  }

  ghost function After(b: Book, e: Event): Book
    requires Enabled(b, e)
  {
    match e
    case Create(id, c, given) =>
      if IsRefused(b, id, c) then b else WithAddresses(b.(counterparties := b.counterparties[id := c]), id, given)
    case Add(owner, a) => if IsLive(b, owner) then WithAddress(b, owner, a) else b
    case Edit(id, payload) =>
      if !IsLive(b, id) then b
      else match Applied(b.counterparties[id].texts, payload, Name) {
        case Err(_) => b
        case Ok(texts) => b.(counterparties := b.counterparties[id := b.counterparties[id].(texts := texts)])
      }
    case EditAddress(owner, id, payload, isDefaultSender) =>
      if AddressRefusal(b, owner, id, payload).Some? then b
      else WithEdit(b, id, Applied(b.addresses[id].texts, payload, City).value, isDefaultSender)
    case Delete(id, now) => if IsLive(b, id) then WithoutCounterparty(b, id, now) else b
  }

  ghost predicate Runs(b: Book, events: seq<Event>)
    decreases |events|
  {
    events == [] || (Enabled(b, events[0]) && Runs(After(b, events[0]), events[1..]))
  }

  ghost function Final(b: Book, events: seq<Event>): Book
    requires Runs(b, events)
    decreases |events|
  {
    if events == [] then b else Final(After(b, events[0]), events[1..])
  }

  // ----- the invariant -----

  predicate IsDefault(b: Book, id: AddressId) {
    id in b.addresses && b.addresses[id].isDefaultSender
  }

  ghost predicate OneDefaultSender(b: Book) {
    forall i, j :: IsDefault(b, i) && IsDefault(b, j) ==> i == j
  }

  ghost predicate DefaultsAreLive(b: Book) {
    forall id :: IsDefault(b, id) ==> IsLiveAddress(b, id)
  }

  /** Every address has its counterparty, and the addresses of a deleted one are deleted. */
  ghost predicate OwnersOutliveAddresses(b: Book) {
    forall id :: id in b.addresses ==>
      && b.addresses[id].owner in b.counterparties
      && (IsLiveAddress(b, id) ==> IsLive(b, b.addresses[id].owner))
  }

  ghost predicate InnsAreUnique(b: Book) {
    forall i, j :: SameIndexKey(b, i, j) ==> i == j
  }

  ghost predicate FitnessIsCurrent(b: Book) {
    forall id :: id in b.addresses ==>
      |b.addresses[id].countryCode| == 2 && b.addresses[id].fitness == FitnessOf(b.addresses[id])
  }

  ghost predicate AddressesInv(b: Book) {
    OneDefaultSender(b) && DefaultsAreLive(b) && OwnersOutliveAddresses(b) && FitnessIsCurrent(b)
  }

  ghost predicate Inv(b: Book) {
    AddressesInv(b) && InnsAreUnique(b)
  }

  lemma AddKeepsInv(b: Book, owner: CounterpartyId, a: AddressIn)
    requires AddressesInv(b) && IsLive(b, owner) && IsAddressIn(a) && a.id !in b.addresses
    ensures AddressesInv(WithAddress(b, owner, a)) && WithAddress(b, owner, a).counterparties == b.counterparties
    ensures WithAddress(b, owner, a).addresses.Keys == b.addresses.Keys + {a.id}
    ensures a.isDefaultSender ==> forall id :: IsDefault(WithAddress(b, owner, a), id) <==> id == a.id
  {
    forall id | IsDefault(WithAddress(b, owner, a), id)
      ensures if a.isDefaultSender then id == a.id else IsDefault(b, id)
    {
    }
  }

  lemma {:induction false} AddAllKeepsInv(b: Book, owner: CounterpartyId, given: seq<AddressIn>)
    requires AddressesInv(b) && IsLive(b, owner)
    requires forall i :: 0 <= i < |given| ==> IsAddressIn(given[i]) && given[i].id !in b.addresses
    requires forall i, j :: 0 <= i < j < |given| ==> given[i].id != given[j].id
    ensures AddressesInv(WithAddresses(b, owner, given)) && WithAddresses(b, owner, given).counterparties == b.counterparties
    ensures forall id :: id in WithAddresses(b, owner, given).addresses ==>
              id in b.addresses || exists i :: 0 <= i < |given| && given[i].id == id
  {
    if given != [] {
      var front, last := given[..|given| - 1], given[|given| - 1];
      AddAllKeepsInv(b, owner, front);
      var before := WithAddresses(b, owner, front);
      assert last.id !in before.addresses by {
        assert forall i :: 0 <= i < |front| ==> front[i].id == given[i].id != last.id;
      }
      AddKeepsInv(before, owner, last);
      forall id | id in WithAddresses(b, owner, given).addresses
        ensures id in b.addresses || exists i :: 0 <= i < |given| && given[i].id == id
      {
        if id == last.id {
          assert given[|given| - 1].id == id;
        } else if id !in b.addresses {
          var i :| 0 <= i < |front| && front[i].id == id;
          assert given[i].id == id;
        }
      }
    }
  }

  lemma CreateKeepsInv(b: Book, e: Event)
    requires Inv(b) && Enabled(b, e) && e.Create?
    ensures Inv(After(b, e))
  {
    if !IsRefused(b, e.id, e.c) {
      var added := b.(counterparties := b.counterparties[e.id := e.c]);
      assert AddressesInv(added);
      AddAllKeepsInv(added, e.id, e.given);
      var b' := After(b, e);
      forall i, j | SameIndexKey(b', i, j)
        ensures i == j
      {
        assert SameIndexKey(added, i, j) && SameIndexKey(added, j, i);
        assert i != e.id && j != e.id ==> SameIndexKey(b, i, j);
      }
    }
  }

  lemma EditKeepsInv(b: Book, e: Event)
    requires Inv(b) && Enabled(b, e) && e.Edit?
    ensures Inv(After(b, e))
  {
    var b' := After(b, e);
    assert forall i, j :: SameIndexKey(b', i, j) ==> SameIndexKey(b, i, j);
    assert forall i :: IsDefault(b', i) ==> IsDefault(b, i);
  }

  lemma EditAddressKeepsInv(b: Book, id: AddressId, texts: Texts, isDefaultSender: Option<bool>)
    requires Inv(b) && IsLiveAddress(b, id)
    ensures Inv(WithEdit(b, id, texts, isDefaultSender))
  {
    var b' := WithEdit(b, id, texts, isDefaultSender);
    assert forall i, j :: SameIndexKey(b', i, j) ==> SameIndexKey(b, i, j);
    forall i | IsDefault(b', i)
      ensures if isDefaultSender == Some(true) then i == id else IsDefault(b, i)
    {
    }
  }

  lemma DeleteKeepsInv(b: Book, e: Event)
    requires Inv(b) && Enabled(b, e) && e.Delete?
    ensures Inv(After(b, e))
  {
    var b' := After(b, e);
    forall i, j | SameIndexKey(b', i, j)
      ensures i == j
    {
      assert SameIndexKey(b, i, j);
    }
    forall i | IsDefault(b', i)
      ensures IsDefault(b, i)
    {
    }
  }

  lemma StepKeepsInv(b: Book, e: Event)
    requires Inv(b) && Enabled(b, e)
    ensures Inv(After(b, e))
  {
    match e
    case Create(_, _, _) => CreateKeepsInv(b, e);
    case Add(owner, a) =>
      if IsLive(b, owner) {
        AddKeepsInv(b, owner, a);
        assert forall i, j :: SameIndexKey(After(b, e), i, j) ==> SameIndexKey(b, i, j);
      }
    case Edit(_, _) => EditKeepsInv(b, e);
    case EditAddress(owner, id, payload, isDefaultSender) =>
      if AddressRefusal(b, owner, id, payload).None? {
        EditAddressKeepsInv(b, id, Applied(b.addresses[id].texts, payload, City).value, isDefaultSender);
      }
    case Delete(_, _) => DeleteKeepsInv(b, e);
  }

  const EMPTY := Book(map[], map[])

  /**
   Every run of calls keeps: at most one default sender and never a deleted one, all addresses of a deleted
   counterparty deleted, live pairs of INN and KPP unique, and the stored fitness that of the current fields.
   */
  lemma {:induction false} RunKeepsInv(b: Book, events: seq<Event>)
    requires Inv(b) && Runs(b, events)
    ensures Inv(Final(b, events))
    decreases |events|
  {
    if events != [] {
      StepKeepsInv(b, events[0]);
      RunKeepsInv(After(b, events[0]), events[1..]);
    }
  }

  /** So does every run of a book that starts empty. */
  lemma RunsFromEmptyKeepInv(events: seq<Event>)
    requires Runs(EMPTY, events)
    ensures Inv(Final(EMPTY, events))
  {
    RunKeepsInv(EMPTY, events);
  }

  // ----- deletion is for good, and frees the INN -----

  /** No row is removed, no address changes its counterparty, and what is deleted stays exactly as it is. */
  ghost predicate RowsKept(b: Book, b': Book) {
    && (forall id :: id in b.counterparties ==> id in b'.counterparties)
    && (forall id :: id in b.addresses ==> id in b'.addresses && b'.addresses[id].owner == b.addresses[id].owner)
    && (forall id :: id in b.counterparties && !IsLive(b, id) ==> b'.counterparties[id] == b.counterparties[id])
    && (forall id :: id in b.addresses && !IsLiveAddress(b, id) ==> b'.addresses[id] == b.addresses[id])
  }

  lemma AddKeepsRows(b: Book, owner: CounterpartyId, a: AddressIn)
    requires DefaultsAreLive(b) && a.id !in b.addresses
    ensures RowsKept(b, WithAddress(b, owner, a))
  {
    forall id | id in b.addresses && !IsLiveAddress(b, id)
      ensures WithAddress(b, owner, a).addresses[id] == b.addresses[id]
    {
      assert !IsDefault(b, id);
    }
  }

  lemma {:induction false} AddAllKeepsRows(b: Book, owner: CounterpartyId, given: seq<AddressIn>)
    requires AddressesInv(b) && IsLive(b, owner)
    requires forall i :: 0 <= i < |given| ==> IsAddressIn(given[i]) && given[i].id !in b.addresses
    requires forall i, j :: 0 <= i < j < |given| ==> given[i].id != given[j].id
    ensures RowsKept(b, WithAddresses(b, owner, given))
  {
    if given != [] {
      var front, last := given[..|given| - 1], given[|given| - 1];
      AddAllKeepsRows(b, owner, front);
      AddAllKeepsInv(b, owner, front);
      assert last.id !in WithAddresses(b, owner, front).addresses by {
        assert forall i :: 0 <= i < |front| ==> front[i].id == given[i].id != last.id;
      }
      AddKeepsRows(WithAddresses(b, owner, front), owner, last);
    }
  }

  lemma CreateKeepsRows(b: Book, e: Event)
    requires Inv(b) && Enabled(b, e) && e.Create? && !IsRefused(b, e.id, e.c)
    ensures RowsKept(b, After(b, e))
  {
    var added := b.(counterparties := b.counterparties[e.id := e.c]);
    assert AddressesInv(added);
    AddAllKeepsRows(added, e.id, e.given);
    AddAllKeepsInv(added, e.id, e.given);
  }

  lemma EditAddressKeepsRows(b: Book, id: AddressId, texts: Texts, isDefaultSender: Option<bool>)
    requires DefaultsAreLive(b) && IsLiveAddress(b, id)
    ensures RowsKept(b, WithEdit(b, id, texts, isDefaultSender))
  {
    forall x | x in b.addresses && !IsLiveAddress(b, x)
      ensures WithEdit(b, id, texts, isDefaultSender).addresses[x] == b.addresses[x]
    {
      assert !IsDefault(b, x);
    }
  }

  lemma StepKeepsRows(b: Book, e: Event)
    requires Inv(b) && Enabled(b, e)
    ensures RowsKept(b, After(b, e))
  {
    match e
    case Create(id, c, _) => if !IsRefused(b, id, c) { CreateKeepsRows(b, e); }
    case Add(owner, a) => AddKeepsRows(b, owner, a);
    case Edit(_, _) =>
    case EditAddress(owner, id, payload, isDefaultSender) =>
      if AddressRefusal(b, owner, id, payload).None? {
        EditAddressKeepsRows(b, id, Applied(b.addresses[id].texts, payload, City).value, isDefaultSender);
      }
    case Delete(_, _) =>
  }

  /** Nothing ever changes a deleted counterparty or a deleted address again, whatever is called later. */
  lemma {:induction false} DeletedStaysAsItWas(b: Book, events: seq<Event>)
    requires Inv(b) && Runs(b, events)
    ensures RowsKept(b, Final(b, events))
    decreases |events|
  {
    if events != [] {
      var next := After(b, events[0]);
      StepKeepsRows(b, events[0]);
      StepKeepsInv(b, events[0]);
      DeletedStaysAsItWas(next, events[1..]);
    }
  }

  /** After a deletion the same INN and KPP can be entered again. */
  lemma DeletionFreesTheInn(b: Book, id: CounterpartyId, now: int, id': CounterpartyId, c: Counterparty)
    requires Inv(b) && IsLive(b, id) && id' !in b.counterparties
    requires c.inn == b.counterparties[id].inn && c.kpp == b.counterparties[id].kpp && c.deletedAt.None?
    ensures !IsRefused(WithoutCounterparty(b, id, now), id', c)
  {
    var b' := WithoutCounterparty(b, id, now);
    if c.inn.Some? {
      forall x
        ensures !HasInn(b', x, c.inn.value, c.kpp)
      {
        assert HasInn(b', x, c.inn.value, c.kpp) ==> SameIndexKey(b, x, id);
      }
      var added := b'.(counterparties := b'.counterparties[id' := c]);
      forall x | x != id'
        ensures !SameIndexKey(added, x, id')
      {
        assert SameIndexKey(added, x, id') ==> SameIndexKey(b, x, id);
      }
    }
  }

  /** Of no KPP the empty one, and the other way round. */
  function OtherNoKpp(kpp: Option<string>): Option<string> {
    if kpp == None then Some("") else None
  }

  /** A live counterparty has this INN and a KPP that the index takes for this one, and the check does not. */
  ghost predicate HasOtherNoKpp(b: Book, c: Counterparty) {
    && c.inn.Some?
    && (c.kpp == None || c.kpp == Some(""))
    && exists x :: HasInn(b, x, c.inn.value, OtherNoKpp(c.kpp))
  }

  /**
   The unique index refuses whatever the check refuses. It alone refuses a new counterparty if and only if one of
   the two has an empty KPP where the other has none; the schema of the request admits no empty KPP, so this is a
   fact about the service behind it.
   */
  lemma IndexAloneRefusesIff(b: Book, id: CounterpartyId, c: Counterparty)
    requires InnsAreUnique(b) && id !in b.counterparties && c.deletedAt.None?
    ensures IsTaken(b, c) ==> ClashesInIndex(b.(counterparties := b.counterparties[id := c]), id)
    ensures !IsTaken(b, c) && ClashesInIndex(b.(counterparties := b.counterparties[id := c]), id) <==> HasOtherNoKpp(b, c)
  {
    var added := b.(counterparties := b.counterparties[id := c]);
    if IsTaken(b, c) {
      var x :| HasInn(b, x, c.inn.value, c.kpp);
      assert SameIndexKey(added, x, id);
      forall y
        ensures (c.kpp == None || c.kpp == Some("")) ==> !HasInn(b, y, c.inn.value, OtherNoKpp(c.kpp))
      {
        assert (c.kpp == None || c.kpp == Some("")) && HasInn(b, y, c.inn.value, OtherNoKpp(c.kpp)) ==> SameIndexKey(b, x, y);
      }
    } else if ClashesInIndex(added, id) {
      var x :| x != id && SameIndexKey(added, x, id);
      assert !HasInn(b, x, c.inn.value, c.kpp);
      assert HasInn(b, x, c.inn.value, OtherNoKpp(c.kpp));
    } else if HasOtherNoKpp(b, c) {
      OtherNoKppClashes(b, id, c);
    }
  }

  lemma OtherNoKppClashes(b: Book, id: CounterpartyId, c: Counterparty)
    requires HasOtherNoKpp(b, c) && id !in b.counterparties && c.deletedAt.None?
    ensures ClashesInIndex(b.(counterparties := b.counterparties[id := c]), id)
  {
    var x :| HasInn(b, x, c.inn.value, OtherNoKpp(c.kpp));
    assert SameIndexKey(b.(counterparties := b.counterparties[id := c]), x, id);
  }

  // ----- an accepted edit -----

  /**
   An accepted edit of an address changes exactly the named texts to the named values, and never a city
   without its code or a code without its city. The city is never cleared.
   */
  lemma EditSaysWhatItNames(b: Book, owner: CounterpartyId, id: AddressId, payload: Payload, isDefaultSender: Option<bool>)
    requires IsPayload(payload) && AddressRefusal(b, owner, id, payload).None?
    ensures var before, texts := b.addresses[id].texts, Applied(b.addresses[id].texts, payload, City).value;
            var after := WithEdit(b, id, texts, isDefaultSender).addresses[id];
            && after.texts == texts && IsEdited(before, payload, texts)
            && (ValueOf(texts, City) != ValueOf(before, City) || ValueOf(texts, CityFiasId) != ValueOf(before, CityFiasId) ==>
                 Names(payload, City) && Names(payload, CityFiasId))
            && (City in before ==> City in texts)
            && after.isDefaultSender == isDefaultSender.GetOr(b.addresses[id].isDefaultSender)
  {
    var before := b.addresses[id].texts;
    AppliedIs(before, payload, City);
    if Names(payload, City) {
      var i :| 0 <= i < |payload| && payload[i].0 == City;
      assert payload[i] in payload && payload[i].1.Some?;
    }
  }

  // ----- the next element of the city's ladder -----

  /** Whether the stored parent is that of the stored city, by the directory of places. */
  predicate HasParentOf(a: Address, parentOf: string -> Option<string>) {
    a.parentFiasId == ParentOf(ValueOf(a.texts, CityFiasId), parentOf)
  }

  function ParentOf(city: Option<string>, parentOf: string -> Option<string>): Option<string> {
    if city.Some? then parentOf(city.value) else None
  }

  /**
   An edit never touches the parent that was stored with the city. An address that had the parent of its city has it
   after an accepted edit if and only if the edit names no city, or one whose parent is the same.
   */
  lemma ParentStaysRightIff(
      b: Book, owner: CounterpartyId, id: AddressId, payload: Payload, isDefaultSender: Option<bool>, parentOf: string -> Option<string>)
    requires IsPayload(payload) && AddressRefusal(b, owner, id, payload).None? && HasParentOf(b.addresses[id], parentOf)
    ensures var before := b.addresses[id];
            var after := WithEdit(b, id, Applied(before.texts, payload, City).value, isDefaultSender).addresses[id];
            && after.parentFiasId == before.parentFiasId
            && (HasParentOf(after, parentOf) <==>
                 forall i :: 0 <= i < |payload| && payload[i].0 == CityFiasId ==>
                   ParentOf(payload[i].1, parentOf) == before.parentFiasId)
  {
    var before := b.addresses[id].texts;
    AppliedIs(before, payload, City);
    var texts := Applied(before, payload, City).value;
    if Names(payload, CityFiasId) {
      var k :| 0 <= k < |payload| && payload[k].0 == CityFiasId;
      assert ValueOf(texts, CityFiasId) == payload[k].1;
      assert forall i :: 0 <= i < |payload| && payload[i].0 == CityFiasId ==> i == k;
    } else {
      assert ValueOf(texts, CityFiasId) == ValueOf(before, CityFiasId);
    }
  }
}
