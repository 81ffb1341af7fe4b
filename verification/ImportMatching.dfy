/**
 From the lines of a list to the rows of a run: the server looks every recipient up in the address book, the
 operator chooses where it could not, and what is ready goes into the run.
 */
module ImportMatching {
  import opened Options
  import opened Rounding
  import opened RecipientImport
  import Account = ImportAccount

  datatype Destination = Destination(
    country: string, region: Option<string>, city: string, postalCode: Option<string>, addressLine: string)

  datatype BookAddress = BookAddress(
    id: string, country: string, region: Option<string>, city: string, postalCode: Option<string>,
    street: Option<string>, house: Option<string>, flat: Option<string>, isDeleted: bool)

  datatype Counterparty = Counterparty(id: nat, name: string, addresses: seq<BookAddress>)

  datatype AddressOption = AddressOption(id: string, destination: Destination)
  datatype Found = Found(counterparty: nat, name: string, chosen: Option<string>, options: seq<AddressOption>)

  datatype Status = FromTheList | Resolved | Ambiguous | NotFound

  datatype Preview = Preview(
    line: nat, status: Status, found: Option<Found>, destination: Option<Destination>,
    weightGrams: Option<int>, valueMinor: Option<int>)

  /** The searches in the address book, the normal form of a city's name, and where the decimal arithmetic overflows. */
  datatype Book = Book(
    byInn: string -> seq<Counterparty>, byName: string -> seq<Counterparty>, norm: string -> string, overflow: real)

  /** Exceptions that nothing on the way catches. */
  datatype Refusal = NoGrams | NoAmount | OutsideTheSchema

  /** An amount of more than 28 digits cannot be brought to whole kopecks. */
  const AMOUNT_LIMIT := 10_000_000_000_000_000_000_000_000_000

  // ----- one line on the server -----

  function Ceiling(x: real): int {
    if x == x.Floor as real then x.Floor else x.Floor + 1
  }

  /** Kilograms as grams, rounded up, and at least one. */
  function Grams(kg: real): int {
    if Ceiling(kg * 1000.0) < 1 then 1 else Ceiling(kg * 1000.0)
  }

  /** The address in one line; without a street, a house and a flat there is none. */
  function LineOf(a: BookAddress): Option<string> {
    var flat := if a.flat.Some? && a.flat.value != "" then [Some("кв. " + a.flat.value)] else [];
    var line := Joined([a.street, a.house] + flat, ", ");
    if line == "" then None else Some(line)
  }

  predicate IsUsable(a: BookAddress) {
    LineOf(a).Some?
  }

  function DestinationOf(a: BookAddress): Destination {
    Destination(a.country, a.region, a.city, a.postalCode, LineOf(a).GetOr(""))
  }

  datatype Test = IsLive | IsIn(city: string) | IsFit

  predicate Passes(book: Book, t: Test, a: BookAddress) {
    match t
    case IsLive => !a.isDeleted
    case IsIn(city) => book.norm(a.city) == book.norm(city)
    case IsFit => IsUsable(a)
  }

  function Only(book: Book, t: Test, addresses: seq<BookAddress>): seq<BookAddress> {
    if addresses == [] then []
    else (if Passes(book, t, addresses[0]) then [addresses[0]] else []) + Only(book, t, addresses[1..])
  }

  /** The live addresses of a counterparty, those of the named city if there are any. */
  function Narrowed(book: Book, c: Counterparty, city: Option<string>): seq<BookAddress> {
    var live := Only(book, IsLive, c.addresses);
    var inCity := if city.Some? then Only(book, IsIn(city.value), live) else [];
    if inCity != [] then inCity else live
  }

  function OptionsOf(usable: seq<BookAddress>): seq<AddressOption> {
    seq(|usable|, i requires 0 <= i < |usable| => AddressOption(usable[i].id, DestinationOf(usable[i])))
  }

  function Searched(book: Book, row: ImportedRow): seq<Counterparty>
    requires row.HasLookupKey()
  {
    if row.inn.Some? then book.byInn(row.inn.value) else book.byName(row.name.value)
  }

  /** The lengths that the address of a preview may have. */
  predicate FitsSchema(d: Destination) {
    && |d.country| == 2 && 1 <= |d.city| <= 255 && 1 <= |d.addressLine| <= 500
    && (d.region.Some? ==> |d.region.value| <= 255)
    && (d.postalCode.Some? ==> |d.postalCode.value| <= 10)
  }

  function Kopecks(rub: real): int {
    HalfUp(rub * 100.0)
  }

  /** The cargo of a line in grams and kopecks; an infinite number has neither. */
  function WeightOf(book: Book, row: ImportedRow): Result<Option<int>, Refusal> {
    if row.weightKg.None? then Ok(None)
    else if !row.weightKg.value.Finite? || row.weightKg.value.value * 1000.0 >= book.overflow then Err(NoGrams)
    else Ok(Some(Grams(row.weightKg.value.value)))
  }

  function ValueOf(row: ImportedRow): Result<Option<int>, Refusal> {
    if row.valueRub.None? then Ok(None)
    else if !row.valueRub.value.Finite? then Err(NoAmount)
    else
      var amount := Kopecks(row.valueRub.value.value);
      if amount >= AMOUNT_LIMIT || amount <= -AMOUNT_LIMIT then Err(NoAmount) else Ok(Some(amount))
  }

  /** A cell that is absent is written out as the text of the absent value. */
  function OwnDestination(row: ImportedRow): Destination {
    Destination("RU", row.region, row.city.GetOr("None"), row.postalCode, row.addressLine.GetOr("None"))
  }

  /** The usable ones of the narrowed addresses of a counterparty. */
  function Usable(book: Book, c: Counterparty, city: Option<string>): seq<BookAddress> {
    Only(book, IsFit, Narrowed(book, c, city))
  }

  function AllFit(options: seq<AddressOption>): bool {
    forall i :: 0 <= i < |options| ==> FitsSchema(options[i].destination)
  }

  /** What the server answers for a line with this cargo. */
  function Looked(book: Book, row: ImportedRow, grams: Option<int>, amount: Option<int>): Result<Preview, Refusal> {
    if !row.HasLookupKey() then
      if FitsSchema(OwnDestination(row))
      then Ok(Preview(row.line, FromTheList, None, Some(OwnDestination(row)), grams, amount))
      else Err(OutsideTheSchema)
    else
      var found := Searched(book, row);
      if found == [] then Ok(Preview(row.line, NotFound, None, None, grams, amount))
      else if |found| > 1 then Ok(Preview(row.line, Ambiguous, None, None, grams, amount))
      else
        var usable := Usable(book, found[0], row.city);
        var match_ := Found(found[0].id, found[0].name, None, OptionsOf(usable));
        if !AllFit(match_.options) then Err(OutsideTheSchema)
        else if usable == [] then Ok(Preview(row.line, NotFound, Some(match_), None, grams, amount))
        else if |usable| > 1 then Ok(Preview(row.line, Ambiguous, Some(match_), None, grams, amount))
        else
          var chosen := Some(match_.(chosen := Some(usable[0].id)));
          Ok(Preview(row.line, Resolved, chosen, Some(DestinationOf(usable[0])), grams, amount))
  }

  /** One line: its cargo first, then the address book. */
  function LookUp(book: Book, row: ImportedRow): Result<Preview, Refusal> {
    match WeightOf(book, row)
    case Err(refusal) => Err(refusal)
    case Ok(grams) =>
      match ValueOf(row)
      case Err(refusal) => Err(refusal)
      case Ok(amount) => Looked(book, row, grams, amount)
  }

  predicate IsRefused(book: Book, row: ImportedRow) {
    LookUp(book, row).Err?
  }

  ghost predicate NoneRefused(book: Book, rows: seq<ImportedRow>) {
    forall i :: 0 <= i < |rows| ==> !IsRefused(book, rows[i])
  }

  ghost function LookedUpAll(book: Book, rows: seq<ImportedRow>): seq<Preview>
    requires NoneRefused(book, rows)
  {
    seq(|rows|, i requires 0 <= i < |rows| => LookUp(book, rows[i]).value)
  }

  /** The whole preview: one line for each row, or the exception of the first row that has one. */
  method ImportRows(book: Book, rows: seq<ImportedRow>) returns (r: Result<seq<Preview>, Refusal>)
    ensures r.Ok? <==> NoneRefused(book, rows)
    ensures r.Ok? ==> r.value == LookedUpAll(book, rows)
    ensures r.Err? ==> exists i :: 0 <= i < |rows| && NoneRefused(book, rows[..i]) && LookUp(book, rows[i]) == Err(r.error)
  {
    var previews := [];
    for i := 0 to |rows|
      invariant NoneRefused(book, rows[..i]) && previews == LookedUpAll(book, rows[..i])
    {
      var row := LookUp(book, rows[i]);
      if row.Err? {
        assert IsRefused(book, rows[i]);
        return Err(row.error);
      }
      OneMoreAccepted(book, rows[..i], rows[i]);
      assert rows[..i + 1] == rows[..i] + [rows[i]];
      previews := previews + [row.value];
    }
    assert rows[..|rows|] == rows;
    return Ok(previews);
  }

  lemma OneMoreAccepted(book: Book, rows: seq<ImportedRow>, row: ImportedRow)
    requires NoneRefused(book, rows) && !IsRefused(book, row)
    ensures NoneRefused(book, rows + [row])
    ensures LookedUpAll(book, rows + [row]) == LookedUpAll(book, rows) + [LookUp(book, row).value]
  {
  }

  // ----- when a list cannot be previewed -----

  predicate IsLong(text: Option<string>, limit: nat) {
    text.Some? && |text.value| > limit
  }

  /** A cell that the address of a preview does not take. */
  predicate HasLongCell(row: ImportedRow) {
    || IsLong(row.region, 255) || IsLong(row.city, 255) || IsLong(row.postalCode, 10) || IsLong(row.addressLine, 500)
    || row.city == Some("") || row.addressLine == Some("")
  }

  /** An infinite number, or one that the decimal arithmetic cannot hold. */
  predicate HasImpossibleCargo(book: Book, row: ImportedRow) {
    || (row.weightKg.Some? && (row.weightKg.value.Finite? ==> row.weightKg.value.value * 1000.0 >= book.overflow))
    || (row.valueRub.Some?
        && (row.valueRub.value.Finite? ==> HalfUp(row.valueRub.value.value * 100.0) >= AMOUNT_LIMIT
                                           || HalfUp(row.valueRub.value.value * 100.0) <= -AMOUNT_LIMIT))
  }

  /**
   A line raises if and only if its weight or its declared value is infinite or too large, or it has no key and
   a cell longer than the address schema takes, or its key finds one counterparty with a usable address of which
   some field is.
   */
  lemma RefusedIff(book: Book, row: ImportedRow)
    ensures IsRefused(book, row) <==>
              || HasImpossibleCargo(book, row)
              || (!row.HasLookupKey() && HasLongCell(row))
              || (row.HasLookupKey() && |Searched(book, row)| == 1
                  && exists a :: a in Usable(book, Searched(book, row)[0], row.city) && !FitsSchema(DestinationOf(a)))
  {
    CargoRaisesIff(book, row);
    if row.HasLookupKey() && |Searched(book, row)| == 1 {
      AllFitIff(Usable(book, Searched(book, row)[0], row.city));
    }
  }

  lemma CargoRaisesIff(book: Book, row: ImportedRow)
    ensures WeightOf(book, row).Err? || ValueOf(row).Err? <==> HasImpossibleCargo(book, row)
  {
  }

  lemma AllFitIff(usable: seq<BookAddress>)
    ensures AllFit(OptionsOf(usable)) <==> !exists a :: a in usable && !FitsSchema(DestinationOf(a))
  {
    assert forall i :: 0 <= i < |usable| ==> OptionsOf(usable)[i].destination == DestinationOf(usable[i]);
    if a :| a in usable && !FitsSchema(DestinationOf(a)) {
      var i :| 0 <= i < |usable| && usable[i] == a;
      assert !FitsSchema(OptionsOf(usable)[i].destination);
    }
  }

  /** The lengths of the columns of the address book, and of the requests that write them. */
  predicate FitsColumns(a: BookAddress) {
    && |a.country| == 2 && 1 <= |a.city| <= 255
    && !IsLong(a.region, 255) && !IsLong(a.postalCode, 10)
    && !IsLong(a.street, 255) && !IsLong(a.house, 50) && !IsLong(a.flat, 50)
  }

  lemma StoredAddressesFit(a: BookAddress)
    requires FitsColumns(a) && IsUsable(a)
    ensures FitsSchema(DestinationOf(a))
  {
    var flat := if a.flat.Some? && a.flat.value != "" then [Some("кв. " + a.flat.value)] else [];
    assert [a.street, a.house][1..] == [a.house];
    if flat != [] {
      JoinedLength(flat);
    }
    JoinedLength([a.house] + flat);
    JoinedLength([a.street, a.house] + flat);
    assert ([a.street, a.house] + flat)[1..] == [a.house] + flat && ([a.house] + flat)[1..] == flat;
  }

  lemma JoinedLength(parts: seq<Option<string>>)
    requires parts != []
    ensures |Joined(parts, ", ")| <= |parts[0].GetOr("")| + 2 + |Joined(parts[1..], ", ")|
  {
  }

  /** So what a key finds in the book never raises: a list with a key on every line fails by its cargo only. */
  lemma KeyedRowsRaiseByCargoOnly(book: Book, row: ImportedRow)
    requires row.HasLookupKey()
    requires forall c, a :: c in Searched(book, row) && a in c.addresses ==> FitsColumns(a)
    ensures IsRefused(book, row) <==> HasImpossibleCargo(book, row)
  {
    RefusedIff(book, row);
    if |Searched(book, row)| == 1 {
      var c := Searched(book, row)[0];
      forall a | a in Usable(book, c, row.city)
        ensures FitsSchema(DestinationOf(a))
      {
        NarrowedIs(book, c, row.city, a);
        StoredAddressesFit(a);
      }
    }
  }

  /** A line with a city and an address, and nothing else. */
  function Plain(line: nat): ImportedRow {
    ImportedRow(line, Some("Пермь"), Some("Мира, 1"), None, None, None, None, None, None)
  }

  /**
   One such cell anywhere fails the whole list: an infinite weight or value, a value of 29 digits, a postal code of
   eleven characters, or any cell too long for the schema on a line without a key.
   */
  lemma OneCellFailsTheList(book: Book, rows: seq<ImportedRow>, i: nat)
    requires i < |rows|
    requires || rows[i] == Plain(i).(weightKg := Some(Infinite(false)))
             || rows[i] == Plain(i).(valueRub := Some(Infinite(false)))
             || rows[i] == Plain(i).(valueRub := Some(Finite(100_000_000_000_000_000_000_000_000.0)))
             || rows[i] == Plain(i).(postalCode := Some("614000-0000"))
             || (!rows[i].HasLookupKey() && HasLongCell(rows[i]))
    ensures !NoneRefused(book, rows)
  {
    RefusedIff(book, rows[i]);
    assert IsRefused(book, rows[i]);
  }

  // ----- the choice in the browser -----

  /** The choices of the operator: the number of a line and the address chosen for it. */
  type Choices = map<nat, string>

  datatype Cargo = Cargo(weightGrams: int, valueMinor: int)
  datatype ReadyRow = ReadyRow(line: nat, destination: Destination, weightGrams: int, valueMinor: int)

  function FindOption(options: seq<AddressOption>, id: string): Option<Destination> {
    if options == [] then None
    else if options[0].id == id then Some(options[0].destination)
    else FindOption(options[1..], id)
  }

  function ResolvedDestination(row: Preview, choices: Choices): Option<Destination> {
    if row.destination.Some? then row.destination
    else if row.status != Ambiguous || row.found.None? then None
    else if row.line !in choices || choices[row.line] == "" then None
    else FindOption(row.found.value.options, choices[row.line])
  }

  function ReadyOf(row: Preview, destination: Destination, cargo: Cargo): ReadyRow {
    ReadyRow(row.line, destination, row.weightGrams.GetOr(cargo.weightGrams), row.valueMinor.GetOr(cargo.valueMinor))
  }

  function Ready(rows: seq<Preview>, choices: Choices, cargo: Cargo): seq<ReadyRow> {
    if rows == [] then []
    else
      var front, last := Ready(rows[..|rows| - 1], choices, cargo), rows[|rows| - 1];
      var destination := ResolvedDestination(last, choices);
      if destination.Some? then front + [ReadyOf(last, destination.value, cargo)] else front
  }

  method ReadyRows(rows: seq<Preview>, choices: Choices, cargo: Cargo) returns (ready: seq<ReadyRow>, excluded: nat)
    ensures ready == Ready(rows, choices, cargo)
    ensures |ready| + excluded == |rows|
  {
    ready, excluded := [], 0;
    for i := 0 to |rows|
      invariant ready == Ready(rows[..i], choices, cargo)
      invariant |ready| + excluded == i
    {
      assert rows[..i + 1][..i] == rows[..i];
      var destination := ResolvedDestination(rows[i], choices);
      if destination.None? {
        excluded := excluded + 1;
      } else {
        ready := ready + [ReadyOf(rows[i], destination.value, cargo)];
      }
    }
    assert rows[..|rows|] == rows;
  }

  // ----- what goes into the run -----

  lemma {:induction false} OptionIsOffered(options: seq<AddressOption>, id: string)
    ensures FindOption(options, id).Some? <==> exists i :: 0 <= i < |options| && options[i].id == id
    ensures FindOption(options, id).Some? ==> AddressOption(id, FindOption(options, id).value) in options
  {
    if options != [] {
      OptionIsOffered(options[1..], id);
      if FindOption(options[1..], id).Some? {
        assert AddressOption(id, FindOption(options[1..], id).value) in options[1..];
      }
      forall i | 0 <= i < |options| && options[i].id == id
        ensures FindOption(options, id).Some?
      {
        assert i > 0 ==> options[1..][i - 1].id == id;
      }
    }
  }

  /** A row is ready exactly when the server chose for it, or offered what the operator chose. */
  lemma ReadyMeansChosenOrOffered(row: Preview, choices: Choices)
    ensures ResolvedDestination(row, choices).Some? <==>
              || row.destination.Some?
              || (&& row.status == Ambiguous && row.found.Some? && row.line in choices && choices[row.line] != ""
                  && exists i :: 0 <= i < |row.found.value.options| && row.found.value.options[i].id == choices[row.line])
    ensures ResolvedDestination(row, choices).Some? && row.destination.None? ==>
              AddressOption(choices[row.line], ResolvedDestination(row, choices).value) in row.found.value.options
    ensures row.destination.Some? ==> ResolvedDestination(row, choices) == row.destination
  {
    if row.found.Some? && row.line in choices {
      OptionIsOffered(row.found.value.options, choices[row.line]);
    }
  }

  lemma {:induction false} OnlyIs(book: Book, t: Test, addresses: seq<BookAddress>)
    ensures forall a :: a in Only(book, t, addresses) <==> a in addresses && Passes(book, t, a)
  {
    if addresses != [] {
      OnlyIs(book, t, addresses[1..]);
      assert forall a :: a in addresses <==> a == addresses[0] || a in addresses[1..];
    }
  }

  /** The addresses offered for a line are live and usable ones of the counterparty, in the named city if it has any there. */
  lemma NarrowedIs(book: Book, c: Counterparty, city: Option<string>, a: BookAddress)
    requires a in Usable(book, c, city)
    ensures a in c.addresses && !a.isDeleted && IsUsable(a)
    ensures city.Some? && (exists b :: b in c.addresses && !b.isDeleted && book.norm(b.city) == book.norm(city.value)) ==>
              book.norm(a.city) == book.norm(city.value)
  {
    var live := Only(book, IsLive, c.addresses);
    OnlyIs(book, IsLive, c.addresses);
    OnlyIs(book, IsFit, Narrowed(book, c, city));
    if city.Some? {
      OnlyIs(book, IsIn(city.value), live);
    }
  }

  /**
   Wherever a recipient named by a key is sent, it is to a live, usable address of the only counterparty
   that the key finds, and in the city of the line when the counterparty has an address there.
   */
  lemma RecipientsComeFromTheBook(book: Book, row: ImportedRow, choices: Choices) returns (a: BookAddress)
    requires row.HasLookupKey() && !IsRefused(book, row) && ResolvedDestination(LookUp(book, row).value, choices).Some?
    ensures |Searched(book, row)| == 1
    ensures ResolvedDestination(LookUp(book, row).value, choices).value == DestinationOf(a)
    ensures var c := Searched(book, row)[0];
            && a in c.addresses && !a.isDeleted && IsUsable(a)
            && (row.city.Some? && (exists b :: b in c.addresses && !b.isDeleted && book.norm(b.city) == book.norm(row.city.value))
                ==> book.norm(a.city) == book.norm(row.city.value))
  {
    var preview, c := LookUp(book, row).value, Searched(book, row)[0];
    var usable := Usable(book, c, row.city);
    ReadyMeansChosenOrOffered(preview, choices);
    if preview.destination.Some? {
      a := usable[0];
    } else {
      var option := AddressOption(choices[row.line], ResolvedDestination(preview, choices).value);
      var i :| 0 <= i < |usable| && OptionsOf(usable)[i] == option;
      a := usable[i];
    }
    NarrowedIs(book, c, row.city, a);
  }

  /** The row is ready under this choice. */
  predicate IsReady(row: Preview, choices: Choices) {
    ResolvedDestination(row, choices).Some?
  }

  /**
   Some choice makes a row named by a key ready if and only if the key finds exactly one counterparty, and that
   has a single usable address, or one with an identifier to choose it by. So a key that finds several
   counterparties keeps its row out of every run.
   */
  lemma SomeChoiceMakesReadyIff(book: Book, row: ImportedRow)
    requires row.HasLookupKey() && !IsRefused(book, row)
    ensures (exists choices :: IsReady(LookUp(book, row).value, choices)) <==>
              && |Searched(book, row)| == 1
              && var usable := Usable(book, Searched(book, row)[0], row.city);
                 |usable| == 1 || exists a :: a in usable && a.id != ""
  {
    var preview := LookUp(book, row).value;
    if |Searched(book, row)| != 1 {
      assert forall choices :: !IsReady(preview, choices);
    } else {
      var usable := Usable(book, Searched(book, row)[0], row.city);
      if |usable| == 1 {
        assert IsReady(preview, map[]);
      } else {
        if a :| a in usable && a.id != "" {
          var i :| 0 <= i < |usable| && usable[i] == a;
          assert preview.found.value.options[i].id == a.id;
          ReadyMeansChosenOrOffered(preview, map[preview.line := a.id]);
          assert IsReady(preview, map[preview.line := a.id]);
        }
        forall choices | IsReady(preview, choices)
          ensures exists a :: a in usable && a.id != ""
        {
          ReadyMeansChosenOrOffered(preview, choices);
          var i :| 0 <= i < |preview.found.value.options| && preview.found.value.options[i].id == choices[preview.line];
          assert usable[i] in usable && usable[i].id != "";
        }
      }
    }
  }

  ghost predicate LinesIncrease(rows: seq<Preview>) {
    forall i, j :: 0 <= i < j < |rows| ==> rows[i].line < rows[j].line
  }

  lemma NumbersCarryOver(book: Book, rows: seq<ImportedRow>)
    requires NoneRefused(book, rows) && forall i, j :: 0 <= i < j < |rows| ==> rows[i].line < rows[j].line
    ensures LinesIncrease(LookedUpAll(book, rows))
  {
    var previews := LookedUpAll(book, rows);
    forall i | 0 <= i < |rows|
      ensures previews[i].line == rows[i].line
    {
      assert !IsRefused(book, rows[i]);
    }
  }

  /** The server keeps the numbers of the lines it was given, so a list that was read gives such a preview. */
  lemma PreviewKeepsLines(book: Book, o: Outside, form: Form, lines: seq<string>)
    requires NoneRefused(book, ReadAll(o, form, lines).rows)
    ensures LinesIncrease(LookedUpAll(book, ReadAll(o, form, lines).rows))
  {
    var rows := ReadAll(o, form, lines).rows;
    Account.ReadAccounts(o, form, lines, Extent(form, lines));
    NumbersCarryOver(book, rows);
  }

  /** The ready rows keep the order and the numbers of the list, one for each row that has a destination. */
  lemma {:induction false} ReadyRowsAreTheResolved(rows: seq<Preview>, choices: Choices, cargo: Cargo)
    requires LinesIncrease(rows)
    ensures forall i, j :: 0 <= i < j < |Ready(rows, choices, cargo)| ==>
              Ready(rows, choices, cargo)[i].line < Ready(rows, choices, cargo)[j].line
    ensures forall k :: 0 <= k < |rows| && ResolvedDestination(rows[k], choices).Some? ==>
              ReadyOf(rows[k], ResolvedDestination(rows[k], choices).value, cargo) in Ready(rows, choices, cargo)
    ensures forall r :: r in Ready(rows, choices, cargo) ==> IsRowOf(rows, choices, cargo, r)
  {
    if rows != [] {
      var front, last := rows[..|rows| - 1], rows[|rows| - 1];
      ReadyRowsAreTheResolved(front, choices, cargo);
      var before := Ready(front, choices, cargo);
      forall i | 0 <= i < |before|
        ensures IsRowOf(rows, choices, cargo, before[i]) && before[i].line < last.line
      {
        assert before[i] in before && IsRowOf(front, choices, cargo, before[i]);
        var k :| 0 <= k < |front| && RowIs(front[k], choices, cargo, before[i]);
        assert RowIs(rows[k], choices, cargo, before[i]);
      }
      assert ResolvedDestination(last, choices).Some? ==>
        RowIs(rows[|rows| - 1], choices, cargo, ReadyOf(last, ResolvedDestination(last, choices).value, cargo));
      forall k | 0 <= k < |rows| && ResolvedDestination(rows[k], choices).Some?
        ensures ReadyOf(rows[k], ResolvedDestination(rows[k], choices).value, cargo) in Ready(rows, choices, cargo)
      {
        assert k < |rows| - 1 ==> front[k] == rows[k];
      }
    }
  }

  predicate RowIs(row: Preview, choices: Choices, cargo: Cargo, ready: ReadyRow) {
    var destination := ResolvedDestination(row, choices);
    destination.Some? && ready == ReadyOf(row, destination.value, cargo)
  }

  ghost predicate IsRowOf(rows: seq<Preview>, choices: Choices, cargo: Cargo, ready: ReadyRow) {
    exists k :: 0 <= k < |rows| && RowIs(rows[k], choices, cargo, ready)
  }

  /** Line numbers increase in a preview, so a choice made for one row changes no other. */
  lemma ChoiceConcernsOneRow(rows: seq<Preview>, choices: Choices, i: nat, j: nat, address: string)
    requires LinesIncrease(rows) && i < |rows| && j < |rows| && i != j
    ensures ResolvedDestination(rows[j], choices[rows[i].line := address]) == ResolvedDestination(rows[j], choices)
  {
    if i < j {
      assert rows[i].line < rows[j].line;
    } else {
      assert rows[j].line < rows[i].line;
    }
  }

  /** Weights are never understated, and by less than a gram overstated unless they were below one. */
  lemma GramsCoverTheWeight(kg: real)
    requires kg >= 0.0
    ensures Grams(kg) >= 1 && Grams(kg) as real >= kg * 1000.0
    ensures kg > 0.0 ==> (Grams(kg) - 1) as real < kg * 1000.0
  {
  }
}
