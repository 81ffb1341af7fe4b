/**
 The address book of a tenant: counterparties and their addresses. Rows are marked as deleted and never
 removed, because shipments refer to them.
 */
module AddressBook {
  import opened Options

  type CounterpartyId = nat
  type AddressId = nat

  // ----- what an address is good for -----

  datatype Fitness = Door | Locality | Unusable
  datatype Blocker = NoCity | ForeignCountry | NoHouse | PostalBox

  function AssessFitness(cityKnown: bool, houseKnown: bool, postalBox: bool, foreign: bool): (Fitness, seq<Blocker>) {
    if foreign then (Unusable, [ForeignCountry])
    else if !cityKnown then (Unusable, [NoCity])
    else if postalBox then (Locality, [PostalBox])
    else if !houseKnown then (Locality, [NoHouse])
    else (Door, [])
  }

  // ----- the rows -----

  /** The text columns of both tables. */
  datatype Attribute =
    | Name | ContactPerson | Phone | Email
    | Caption | Region | City | CityFiasId | PostalCode | Street | House | Flat | Comment

  /** The texts of a row; a column without one is null. */
  type Texts = map<Attribute, string>

  /** A text that says something: neither null nor empty. */
  predicate Known(texts: Texts, a: Attribute) {
    a in texts && texts[a] != ""
  }

  datatype Counterparty = Counterparty(
    kind: string, inn: Option<string>, kpp: Option<string>, texts: Texts, deletedAt: Option<int>)

  datatype Address = Address(
    owner: CounterpartyId, countryCode: string, texts: Texts, parentFiasId: Option<string>,
    isDefaultSender: bool, fitness: Fitness, deletedAt: Option<int>)

  datatype Book = Book(counterparties: map<CounterpartyId, Counterparty>, addresses: map<AddressId, Address>)

  datatype Error = NotFound | Conflict | CannotClear(field: Attribute) | CityWithoutCode | DuplicateKey

  /** A new address; the schema of the request gives every country two letters. */
  datatype AddressIn = AddressIn(id: AddressId, countryCode: string, texts: Texts, parentFiasId: Option<string>, isDefaultSender: bool)

  // ----- edits -----

  /** The named fields of an edit in their order; nothing for a field means "clear it". */
  type Payload = seq<(Attribute, Option<string>)>

  predicate Names(payload: Payload, a: Attribute) {
    exists i :: 0 <= i < |payload| && payload[i].0 == a
  }

  /** The payload comes from a dictionary: it names no field twice. */
  ghost predicate IsPayload(payload: Payload) {
    forall i, j :: 0 <= i < j < |payload| ==> payload[i].0 != payload[j].0
  }

  function With(texts: Texts, a: Attribute, value: Option<string>): Texts {
    if value.Some? then texts[a := value.value] else texts - {a}
  }

  /** Setting the named fields one by one, up to the first required one that would be cleared. */
  function Applied(texts: Texts, payload: Payload, required: Attribute): Result<Texts, Error>
    decreases |payload|
  {
    if payload == [] then Ok(texts)
    else
      var (a, value) := payload[0];
      if value.None? && a == required then Err(CannotClear(a)) else Applied(With(texts, a, value), payload[1..], required)
  }

  /** An edit is refused exactly when it clears the required field; else each field has its named value, or keeps its own. */
  lemma {:induction false} AppliedIs(texts: Texts, payload: Payload, required: Attribute)
    requires IsPayload(payload)
    ensures Applied(texts, payload, required).Err? <==> (required, None) in payload
    ensures Applied(texts, payload, required).Err? ==> Applied(texts, payload, required).error == CannotClear(required)
    ensures Applied(texts, payload, required).Ok? ==> IsEdited(texts, payload, Applied(texts, payload, required).value)
    decreases |payload|
  {
    if payload != [] {
      var (a, value) := payload[0];
      if !(value.None? && a == required) {
        var rest := payload[1..];
        assert forall i :: 0 <= i < |rest| ==> rest[i].0 != a;
        AppliedIs(With(texts, a, value), rest, required);
        assert payload == [payload[0]] + rest;
        if Applied(texts, payload, required).Ok? {
          EditedByTheRest(texts, payload, Applied(texts, payload, required).value);
        }
      }
    }
  }

  function ValueOf(texts: Texts, a: Attribute): Option<string> {
    if a in texts then Some(texts[a]) else None
  }

  /** The texts after an edit: the named fields as named, the others untouched. */
  ghost predicate IsEdited(texts: Texts, payload: Payload, after: Texts) {
    && (forall i :: 0 <= i < |payload| ==> ValueOf(after, payload[i].0) == payload[i].1)
    && (forall a: Attribute :: !Names(payload, a) ==> ValueOf(after, a) == ValueOf(texts, a))
  }

  lemma EditedByTheRest(texts: Texts, payload: Payload, after: Texts)
    requires IsPayload(payload) && payload != []
    requires IsEdited(With(texts, payload[0].0, payload[0].1), payload[1..], after)
    ensures IsEdited(texts, payload, after)
  {
    var rest := payload[1..];
    assert forall i :: 0 <= i < |rest| ==> rest[i] == payload[i + 1];
    assert !Names(rest, payload[0].0);
    forall i | 0 <= i < |payload|
      ensures ValueOf(after, payload[i].0) == payload[i].1
    {
      assert i > 0 ==> rest[i - 1] == payload[i];
    }
    forall a: Attribute | !Names(payload, a)
      ensures ValueOf(after, a) == ValueOf(texts, a)
    {
      assert payload[0].0 != a;
      assert !Names(rest, a);
    }
  }

  method Apply(texts: Texts, payload: Payload, required: Attribute) returns (r: Result<Texts, Error>)
    ensures r == Applied(texts, payload, required)
  {
    var now := texts;
    for i := 0 to |payload|
      invariant Applied(texts, payload, required) == Applied(now, payload[i..], required)
    {
      var (a, value) := payload[i];
      assert payload[i..][1..] == payload[i + 1..];
      if value.None? && a == required {
        return Err(CannotClear(a));
      }
      now := With(now, a, value);
    }
    return Ok(now);
  }

  // ----- reading -----

  predicate IsLive(b: Book, id: CounterpartyId) {
    id in b.counterparties && b.counterparties[id].deletedAt.None?
  }

  predicate IsLiveAddress(b: Book, id: AddressId) {
    id in b.addresses && b.addresses[id].deletedAt.None?
  }

  /** The live counterparty has this INN and this KPP, absent KPP matching only an absent one. */
  predicate HasInn(b: Book, id: CounterpartyId, inn: string, kpp: Option<string>) {
    IsLive(b, id) && b.counterparties[id].inn == Some(inn) && b.counterparties[id].kpp == kpp
  }

  /** The live rows that the unique index compares: it reads an absent KPP as an empty one. */
  predicate SameIndexKey(b: Book, i: CounterpartyId, j: CounterpartyId) {
    && IsLive(b, i) && IsLive(b, j)
    && b.counterparties[i].inn.Some? && b.counterparties[i].inn == b.counterparties[j].inn
    && b.counterparties[i].kpp.GetOr("") == b.counterparties[j].kpp.GetOr("")
  }

  /** The fitness that the fields of the address give it. */
  function FitnessOf(a: Address): Fitness {
    AssessFitness(Known(a.texts, CityFiasId), Known(a.texts, House), false, a.countryCode != "RU").0
  }

  // ----- writing -----

  function WithoutDefault(b: Book, keep: Option<AddressId>): Book {
    b.(addresses := map id | id in b.addresses ::
         if keep == Some(id) then b.addresses[id] else b.addresses[id].(isDefaultSender := false))
  }

  function NewAddress(owner: CounterpartyId, a: AddressIn): Address {
    var country := if a.countryCode == "" then "RU" else a.countryCode;
    Address(owner, a.countryCode, a.texts, a.parentFiasId, a.isDefaultSender,
            AssessFitness(Known(a.texts, CityFiasId), Known(a.texts, House), false, country != "RU").0, None)
  }

  function WithAddress(b: Book, owner: CounterpartyId, a: AddressIn): Book {
    var cleared := if a.isDefaultSender then WithoutDefault(b, None) else b;
    cleared.(addresses := cleared.addresses[a.id := NewAddress(owner, a)])
  }

  function WithAddresses(b: Book, owner: CounterpartyId, addresses: seq<AddressIn>): Book {
    if addresses == [] then b
    else WithAddress(WithAddresses(b, owner, addresses[..|addresses| - 1]), owner, addresses[|addresses| - 1])
  }

  /** Why an edit of an address is refused, if it is. */
  function AddressRefusal(b: Book, owner: CounterpartyId, id: AddressId, payload: Payload): Option<Error> {
    if !IsLive(b, owner) then Some(NotFound)
    else if !IsLiveAddress(b, id) || b.addresses[id].owner != owner then Some(NotFound)
    else if Names(payload, City) != Names(payload, CityFiasId) then Some(CityWithoutCode)
    else match Applied(b.addresses[id].texts, payload, City)
         case Err(error) => Some(error)
         case Ok(_) => None
  }

  /** The book after an edit of an address, which may also make it the default sender, or stop it from being that. */
  function WithEdit(b: Book, id: AddressId, texts: Texts, isDefaultSender: Option<bool>): Book
    requires id in b.addresses
  {
    var cleared := if isDefaultSender == Some(true) then WithoutDefault(b, Some(id)) else b;
    var edited := b.addresses[id].(texts := texts, isDefaultSender := isDefaultSender.GetOr(b.addresses[id].isDefaultSender));
    cleared.(addresses := cleared.addresses[id := edited.(fitness := FitnessOf(edited))])
  }

  function WithoutCounterparty(b: Book, id: CounterpartyId, now: int): Book
    requires id in b.counterparties
  {
    Book(b.counterparties[id := b.counterparties[id].(deletedAt := Some(now))],
         map a | a in b.addresses ::
           if b.addresses[a].owner == id && b.addresses[a].deletedAt.None?
           then b.addresses[a].(deletedAt := Some(now), isDefaultSender := false)
           else b.addresses[a])
  }

  /** Why a new counterparty is refused, if it is: by the check, or by the index behind it. */
  ghost predicate IsTaken(b: Book, c: Counterparty) {
    c.inn.Some? && exists id :: HasInn(b, id, c.inn.value, c.kpp)
  }

  ghost predicate ClashesInIndex(b: Book, id: CounterpartyId) {
    exists other :: other != id && SameIndexKey(b, other, id)
  }

  /** The addresses without another default sender, told by what they have in common with the ones before. */
  lemma IsWithoutDefault(before: map<AddressId, Address>, after: map<AddressId, Address>, keep: Option<AddressId>)
    requires after.Keys == before.Keys
    requires forall id :: id in after && after[id].isDefaultSender ==> keep == Some(id)
    requires forall id :: id in after && (keep == Some(id) || !before[id].isDefaultSender) ==> after[id] == before[id]
    requires forall id :: id in after ==> after[id] == before[id].(isDefaultSender := after[id].isDefaultSender)
    ensures forall counterparties :: Book(counterparties, after) == WithoutDefault(Book(counterparties, before), keep)
  {
  }

  // ----- the service -----

  class AddressBookService {
    var counterparties: map<CounterpartyId, Counterparty>
    var addresses: map<AddressId, Address>

    constructor ()
      ensures Now() == Book(map[], map[])
    {
      counterparties, addresses := map[], map[];
    }

    function Now(): Book
      reads this
    {
      Book(counterparties, addresses)
    }

    /** No address but the kept one is a default sender any more, and nothing else of any address changes. */
    method ClearDefaultSender(keep: Option<AddressId>)
      modifies this`addresses
      ensures addresses.Keys == old(addresses).Keys
      ensures forall id :: id in addresses && addresses[id].isDefaultSender ==> keep == Some(id)
      ensures forall id :: id in addresses && (keep == Some(id) || !old(addresses)[id].isDefaultSender) ==>
                addresses[id] == old(addresses)[id]
      ensures forall id :: id in addresses ==>
                addresses[id] == old(addresses)[id].(isDefaultSender := addresses[id].isDefaultSender)
    {
      addresses := map id | id in addresses ::
        if addresses[id].isDefaultSender && keep != Some(id) then addresses[id].(isDefaultSender := false) else addresses[id];
    }

    method AddAddress(owner: CounterpartyId, a: AddressIn)
      modifies this`addresses
      ensures Now() == WithAddress(old(Now()), owner, a)
    {
      if a.isDefaultSender {
        ClearDefaultSender(None);
        IsWithoutDefault(old(addresses), addresses, None);
      }
      var country := if a.countryCode == "" then "RU" else a.countryCode;
      var (fitness, _) := AssessFitness(Known(a.texts, CityFiasId), Known(a.texts, House), false, country != "RU");
      addresses := addresses[a.id := Address(owner, a.countryCode, a.texts, a.parentFiasId, a.isDefaultSender, fitness, None)];
    }

    /** A new counterparty with its addresses, or none of it. */
    method Create(id: CounterpartyId, c: Counterparty, given: seq<AddressIn>) returns (r: Result<CounterpartyId, Error>)
      requires id !in counterparties && c.deletedAt.None?
      modifies this
      ensures r == Err(Conflict) <==> IsTaken(old(Now()), c)
      ensures r == Err(DuplicateKey) <==>
                !IsTaken(old(Now()), c) && ClashesInIndex(old(Now()).(counterparties := old(counterparties)[id := c]), id)
      ensures r.Err? ==> Now() == old(Now()) && (r.error == Conflict || r.error == DuplicateKey)
      ensures r.Ok? ==> r.value == id
      ensures r.Ok? ==>
                Now() == WithAddresses(old(Now()).(counterparties := old(counterparties)[id := c]), id, given)
    {
      ghost var before := Now();
      if c.inn.Some? {
        var same := set x | x in counterparties && HasInn(Now(), x, c.inn.value, c.kpp);
        assert forall x :: HasInn(Now(), x, c.inn.value, c.kpp) ==> x in same;
        if same != {} {
          return Err(Conflict);
        }
      }
      counterparties := counterparties[id := c];
      var clashes := set x | x in counterparties && x != id && SameIndexKey(Now(), x, id);
      assert forall x :: x != id && SameIndexKey(Now(), x, id) ==> x in clashes;
      if clashes != {} {
        counterparties := counterparties - {id};
        assert counterparties == before.counterparties;
        return Err(DuplicateKey);
      }
      ghost var added := Now();
      for i := 0 to |given|
        invariant Now() == WithAddresses(added, id, given[..i])
      {
        assert given[..i + 1][..i] == given[..i];
        AddAddress(id, given[i]);
      }
      assert given[..|given|] == given;
      return Ok(id);
    }

    method Update(id: CounterpartyId, payload: Payload) returns (r: Result<(), Error>)
      modifies this`counterparties
      ensures !IsLive(old(Now()), id) ==> r == Err(NotFound)
      ensures IsLive(old(Now()), id) ==>
                match Applied(old(counterparties)[id].texts, payload, Name)
                case Err(error) => r == Err(error)
                case Ok(texts) =>
                  r == Ok(()) && counterparties == old(counterparties)[id := old(counterparties)[id].(texts := texts)]
      ensures r.Err? ==> Now() == old(Now())
    {
      if id !in counterparties || counterparties[id].deletedAt.Some? {
        return Err(NotFound);
      }
      var applied := Apply(counterparties[id].texts, payload, Name);
      if applied.Err? {
        return Err(applied.error);
      }
      counterparties := counterparties[id := counterparties[id].(texts := applied.value)];
      return Ok(());
    }

    /** An edit of one address. The default sender is moved first, so a refusal has to undo that too. */
    method UpdateAddress(owner: CounterpartyId, id: AddressId, payload: Payload, isDefaultSender: Option<bool>)
      returns (r: Result<(), Error>)
      modifies this`addresses
      ensures r == match AddressRefusal(old(Now()), owner, id, payload) { case Some(error) => Err(error) case None => Ok(()) }
      ensures r.Err? ==> Now() == old(Now())
      ensures r.Ok? ==>
                && id in old(addresses) && Applied(old(addresses)[id].texts, payload, City).Ok?
                && Now() == WithEdit(old(Now()), id, Applied(old(addresses)[id].texts, payload, City).value, isDefaultSender)
    {
      var before := addresses;
      if !IsLive(Now(), owner) || !IsLiveAddress(Now(), id) || addresses[id].owner != owner {
        return Err(NotFound);
      }
      if Names(payload, City) != Names(payload, CityFiasId) {
        return Err(CityWithoutCode);
      }
      if isDefaultSender == Some(true) {
        ClearDefaultSender(Some(id));
        IsWithoutDefault(before, addresses, Some(id));
        addresses := addresses[id := addresses[id].(isDefaultSender := true)];
      } else if isDefaultSender == Some(false) {
        addresses := addresses[id := addresses[id].(isDefaultSender := false)];
      }
      var applied := Apply(addresses[id].texts, payload, City);
      if applied.Err? {
        addresses := before;
        return Err(applied.error);
      }
      var edited := addresses[id].(texts := applied.value);
      addresses := addresses[id := edited.(fitness := FitnessOf(edited))];
      return Ok(());
    }

    /** Mark a counterparty and all its live addresses as deleted. */
    method SoftDelete(id: CounterpartyId, now: int) returns (r: Result<(), Error>)
      modifies this
      ensures r == if IsLive(old(Now()), id) then Ok(()) else Err(NotFound)
      ensures Now() == if r.Ok? then WithoutCounterparty(old(Now()), id, now) else old(Now())
    {
      if id !in counterparties || counterparties[id].deletedAt.Some? {
        return Err(NotFound);
      }
      counterparties := counterparties[id := counterparties[id].(deletedAt := Some(now))];
      ghost var start := addresses;
      var todo := set a | a in addresses && addresses[a].owner == id && addresses[a].deletedAt.None?;
      ghost var all := todo;
      while todo != {}
        invariant counterparties == WithoutCounterparty(old(Now()), id, now).counterparties
        invariant todo <= all && addresses.Keys == start.Keys
        invariant forall a :: a in start ==>
          addresses[a] == if a in all && a !in todo then start[a].(deletedAt := Some(now), isDefaultSender := false) else start[a]
        decreases todo
      {
        var a :| a in todo;
        addresses := addresses[a := addresses[a].(deletedAt := Some(now), isDefaultSender := false)];
        todo := todo - {a};
      }
      assert addresses == WithoutCounterparty(old(Now()), id, now).addresses;
      return Ok(());
    }
  }
}
