/** What one call to the address book does to a row, by its fields. */
module AddressLaws {
  import opened Options
  import opened AddressBook
  import opened AddressBookRuns

  // ----- fitness -----

  predicate HasText(texts: Texts, a: Attribute) {
    a in texts && |texts[a]| > 0
  }

  /** Abroad or without a city code an address is of no use; without a house it is good for the town only. */
  predicate IsFitness(f: Fitness, country: string, texts: Texts) {
    && (f == Unusable <==> country != "RU" || !HasText(texts, CityFiasId))
    && (f == Door <==> country == "RU" && HasText(texts, CityFiasId) && HasText(texts, House))
  }

  /** The assessment of four facts, with the one thing that stands in the way. */
  lemma WhatIsInTheWay(city: bool, house: bool, box: bool, foreign: bool)
    ensures var (fitness, blockers) := AssessFitness(city, house, box, foreign);
            && (blockers == [] <==> fitness == Door) && |blockers| <= 1
            && (fitness == Door <==> city && house && !box && !foreign)
            && (fitness == Unusable <==> foreign || !city)
            && (ForeignCountry in blockers <==> foreign)
            && (NoCity in blockers <==> !city && !foreign)
            && (PostalBox in blockers <==> box && city && !foreign)
            && (NoHouse in blockers <==> !house && !box && city && !foreign)
  {
  }

  lemma FitnessSays(a: Address)
    ensures IsFitness(FitnessOf(a), a.countryCode, a.texts)
  {
  }

  /** In every reachable book the stored fitness is that of the country and the texts of its own row. */
  lemma StoredFitnessIs(events: seq<Event>, id: AddressId)
    requires Runs(EMPTY, events) && id in Final(EMPTY, events).addresses
    ensures var a := Final(EMPTY, events).addresses[id];
            |a.countryCode| == 2 && IsFitness(a.fitness, a.countryCode, a.texts)
  {
    RunsFromEmptyKeepInv(events);
    FitnessSays(Final(EMPTY, events).addresses[id]);
  }

  // ----- a new address -----

  /** Everything of the row is as it was, but for the mark of the default sender. */
  predicate SameButDefault(a: Address, b: Address) {
    && a.owner == b.owner && a.countryCode == b.countryCode && a.texts == b.texts && a.parentFiasId == b.parentFiasId
    && a.fitness == b.fitness && a.deletedAt == b.deletedAt
  }

  /** Everybody but one loses the mark when it is given away, and keeps it otherwise. */
  ghost predicate MarkMoved(before: map<AddressId, Address>, after: map<AddressId, Address>, id: AddressId, given: bool) {
    && after.Keys == before.Keys + {id}
    && forall x :: x in before && x != id ==>
         && SameButDefault(after[x], before[x])
         && after[x].isDefaultSender == (before[x].isDefaultSender && !given)
  }

  /** The row of a new address; a country that was left empty counts as Russia for its fitness. */
  lemma WhatAnAddDoes(b: Book, owner: CounterpartyId, a: AddressIn)
    ensures var b' := WithAddress(b, owner, a);
            && b'.counterparties == b.counterparties && a.id in b'.addresses
            && MarkMoved(b.addresses, b'.addresses, a.id, a.isDefaultSender)
            && var row := b'.addresses[a.id];
               && row.owner == owner && row.countryCode == a.countryCode && row.texts == a.texts
               && row.parentFiasId == a.parentFiasId && row.isDefaultSender == a.isDefaultSender && row.deletedAt == None
               && IsFitness(row.fitness, if a.countryCode == "" then "RU" else a.countryCode, a.texts)
  {
  }

  // ----- an edit of an address -----

  ghost predicate NamesOne(payload: Payload, a: Attribute) {
    exists value :: (a, value) in payload
  }

  ghost predicate IsThere(b: Book, owner: CounterpartyId, id: AddressId) {
    && owner in b.counterparties && b.counterparties[owner].deletedAt == None
    && id in b.addresses && b.addresses[id].deletedAt == None && b.addresses[id].owner == owner
  }

  lemma NamesAre(payload: Payload, a: Attribute)
    ensures Names(payload, a) <==> NamesOne(payload, a)
  {
    if Names(payload, a) {
      var i :| 0 <= i < |payload| && payload[i].0 == a;
      assert payload[i] == (a, payload[i].1) && payload[i] in payload;
    }
    if NamesOne(payload, a) {
      var value :| (a, value) in payload;
      var i :| 0 <= i < |payload| && payload[i] == (a, value);
    }
  }

  /** Each refusal, in the order they are looked for: nothing is found, city and code part, the city would be cleared. */
  lemma WhyAnEditIsRefused(b: Book, owner: CounterpartyId, id: AddressId, payload: Payload)
    requires IsPayload(payload)
    ensures var refusal := AddressRefusal(b, owner, id, payload);
            && (refusal == Some(NotFound) <==> !IsThere(b, owner, id))
            && (refusal == Some(CityWithoutCode) <==>
                  IsThere(b, owner, id) && (NamesOne(payload, City) != NamesOne(payload, CityFiasId)))
            && (refusal == Some(CannotClear(City)) <==>
                  && IsThere(b, owner, id) && (NamesOne(payload, City) == NamesOne(payload, CityFiasId))
                  && (City, None) in payload)
            && (refusal.Some? ==> refusal.value in {NotFound, CityWithoutCode, CannotClear(City)})
  {
    NamesAre(payload, City);
    NamesAre(payload, CityFiasId);
    if IsThere(b, owner, id) {
      AppliedIs(b.addresses[id].texts, payload, City);
    }
  }

  /** An accepted edit: the texts it names, the mark it gives or takes, the fitness of the new texts, and no more. */
  lemma WhatAnEditDoes(b: Book, owner: CounterpartyId, id: AddressId, payload: Payload, isDefaultSender: Option<bool>)
    requires IsPayload(payload) && AddressRefusal(b, owner, id, payload) == None
    ensures var b' := After(b, EditAddress(owner, id, payload, isDefaultSender));
            && id in b.addresses && b'.counterparties == b.counterparties && id in b'.addresses
            && MarkMoved(b.addresses, b'.addresses, id, isDefaultSender == Some(true))
            && var was, row := b.addresses[id], b'.addresses[id];
               && row.owner == was.owner && row.countryCode == was.countryCode && row.parentFiasId == was.parentFiasId
               && row.deletedAt == None && IsEdited(was.texts, payload, row.texts)
               && row.isDefaultSender == (if isDefaultSender.Some? then isDefaultSender.value else was.isDefaultSender)
               && IsFitness(row.fitness, was.countryCode, row.texts)
  {
    AppliedIs(b.addresses[id].texts, payload, City);
    FitnessSays(After(b, EditAddress(owner, id, payload, isDefaultSender)).addresses[id]);
  }

  // ----- a counterparty -----

  /** A deletion marks the counterparty and its live addresses with its time, and nothing else changes but their mark. */
  lemma WhatADeletionDoes(b: Book, id: CounterpartyId, now: int, x: AddressId, other: CounterpartyId)
    requires IsLive(b, id) && x in b.addresses && other in b.counterparties
    ensures x in After(b, Delete(id, now)).addresses && other in After(b, Delete(id, now)).counterparties
    ensures var b' := After(b, Delete(id, now));
            && (other != id ==> b'.counterparties[other] == b.counterparties[other])
            && (other == id ==>
                 var was, row := b.counterparties[id], b'.counterparties[id];
                 && row.deletedAt == Some(now) && row.kind == was.kind && row.inn == was.inn && row.kpp == was.kpp
                 && row.texts == was.texts)
            && (b.addresses[x].owner == id && b.addresses[x].deletedAt == None ==>
                 var was, row := b.addresses[x], b'.addresses[x];
                 && row.deletedAt == Some(now) && !row.isDefaultSender && row.owner == id && row.countryCode == was.countryCode
                 && row.texts == was.texts && row.parentFiasId == was.parentFiasId && row.fitness == was.fitness)
            && (b.addresses[x].owner != id || b.addresses[x].deletedAt != None ==> b'.addresses[x] == b.addresses[x])
  {
  }

  /** An edit of a counterparty changes the texts it names, is refused when it clears the name, and touches no address. */
  lemma WhatACounterpartyEditDoes(b: Book, id: CounterpartyId, payload: Payload)
    requires IsPayload(payload)
    ensures var b' := After(b, Edit(id, payload));
            && b'.addresses == b.addresses
            && (!IsLive(b, id) || (Name, None) in payload ==> b' == b)
            && (IsLive(b, id) && (Name, None) !in payload ==>
                 && b'.counterparties.Keys == b.counterparties.Keys
                 && (forall x :: x in b.counterparties && x != id ==> b'.counterparties[x] == b.counterparties[x])
                 && var was, row := b.counterparties[id], b'.counterparties[id];
                    && row.kind == was.kind && row.inn == was.inn && row.kpp == was.kpp && row.deletedAt == None
                    && IsEdited(was.texts, payload, row.texts))
  {
    if IsLive(b, id) {
      AppliedIs(b.counterparties[id].texts, payload, Name);
    }
  }

  /** A new counterparty is refused when a live one has its INN, and the same KPP or, like it, none or an empty one. */
  lemma WhyACounterpartyIsRefused(b: Book, id: CounterpartyId, c: Counterparty)
    requires id !in b.counterparties && c.deletedAt.None?
    ensures IsRefused(b, id, c) <==>
              c.inn != None && exists x :: x in b.counterparties && IsSameCompany(b.counterparties[x], c)
  {
    var added := b.(counterparties := b.counterparties[id := c]);
    if x :| x in b.counterparties && c.inn != None && IsSameCompany(b.counterparties[x], c) {
      assert SameIndexKey(added, x, id);
    }
    if IsTaken(b, c) {
      var x :| HasInn(b, x, c.inn.value, c.kpp);
      assert IsSameCompany(b.counterparties[x], c);
    } else if ClashesInIndex(added, id) {
      var x :| x != id && SameIndexKey(added, x, id);
      assert IsSameCompany(b.counterparties[x], c);
    }
  }

  predicate IsSameCompany(a: Counterparty, c: Counterparty) {
    && a.deletedAt == None && a.inn == c.inn
    && (a.kpp == c.kpp || (a.kpp in {None, Some("")} && c.kpp in {None, Some("")}))
  }
}
