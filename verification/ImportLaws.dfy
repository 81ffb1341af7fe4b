/** What the reading of a list makes of a text, of a cell and of a number, and what the preview of a line says. */
module ImportLaws {
  import opened Options
  import opened Rounding
  import opened RecipientImport
  import opened ImportMatching
  import Csv = CsvReader

  // ----- texts -----

  ghost predicate AllSpace(o: Outside, text: string) {
    forall i :: 0 <= i < |text| ==> o.isSpace(text[i])
  }

  /** Nothing, or a text that neither begins nor ends with white space. */
  ghost predicate IsTrimmed(o: Outside, text: string) {
    text != "" ==> !o.isSpace(text[0]) && !o.isSpace(text[|text| - 1])
  }

  lemma {:induction false} StripLeftIs(o: Outside, text: string) returns (front: string)
    ensures AllSpace(o, front) && text == front + StripLeft(o, text)
    ensures StripLeft(o, text) != "" ==> !o.isSpace(StripLeft(o, text)[0])
  {
    front := "";
    if text != "" && o.isSpace(text[0]) {
      var rest := StripLeftIs(o, text[1..]);
      front := [text[0]] + rest;
    }
  }

  lemma {:induction false} StripRightIs(o: Outside, text: string) returns (back: string)
    ensures AllSpace(o, back) && text == StripRight(o, text) + back
    ensures StripRight(o, text) != "" ==> !o.isSpace(StripRight(o, text)[|StripRight(o, text)| - 1])
  {
    back := "";
    if text != "" && o.isSpace(text[|text| - 1]) {
      var rest := StripRightIs(o, text[..|text| - 1]);
      back := rest + [text[|text| - 1]];
    }
  }

  lemma StripParts(o: Outside, text: string) returns (front: string, back: string)
    ensures AllSpace(o, front) && AllSpace(o, back) && text == front + Strip(o, text) + back
    ensures IsTrimmed(o, Strip(o, text))
  {
    front := StripLeftIs(o, text);
    var left := StripLeft(o, text);
    back := StripRightIs(o, left);
    var kept := Strip(o, text);
    if kept != "" {
      assert left[0] == kept[0];
    }
  }

  lemma NothingIsLeft(o: Outside, front: string, kept: string, back: string)
    requires AllSpace(o, front) && AllSpace(o, back) && IsTrimmed(o, kept)
    ensures kept == "" <==> AllSpace(o, front + kept + back)
  {
    var text := front + kept + back;
    if kept != "" {
      assert text[|front|] == kept[0];
    }
  }

  /** White space is taken from both ends, and nothing else. */
  lemma WhatStrippingDoes(o: Outside, text: string) returns (front: string, back: string)
    ensures AllSpace(o, front) && AllSpace(o, back) && text == front + Strip(o, text) + back
    ensures IsTrimmed(o, Strip(o, text))
    ensures Clean(o, text) == if AllSpace(o, text) then None else Some(Strip(o, text))
  {
    front, back := StripParts(o, text);
    NothingIsLeft(o, front, Strip(o, text), back);
  }

  /** The texts written one after another with a separator between them. */
  function Written(parts: seq<string>, separator: char): string {
    if parts == [] then "" else if |parts| == 1 then parts[0] else parts[0] + [separator] + Written(parts[1..], separator)
  }

  /** Splitting undoes that: the parts written again are the text, and the separator is in none of them. */
  lemma {:induction false} SplittingIsExact(text: string, separator: char)
    ensures Written(Split(text, separator), separator) == text
    ensures forall i :: 0 <= i < |Split(text, separator)| ==> separator !in Split(text, separator)[i]
  {
    if text != "" {
      var rest := Split(text[1..], separator);
      SplittingIsExact(text[1..], separator);
      var parts := Split(text, separator);
      if text[0] == separator {
        assert parts[1..] == rest;
      } else {
        assert parts[1..] == rest[1..];
      }
      assert text == [text[0]] + text[1..];
    }
  }

  predicate EndsALine(end: string, back: string) {
    end == "\r\n" || end == "\n" || (end == "\r" && (back != "" ==> back[0] != '\n'))
  }

  lemma {:induction false} EndIsUnified(end: string, back: string)
    requires EndsALine(end, back)
    ensures Unified(end + back) == "\n" + Unified(back)
  {
    var text := end + back;
    assert text[0] == end[0];
    if end == "\r\n" {
      assert text[2..] == back;
    } else {
      assert text[1..] == back;
    }
  }

  lemma {:induction false} UnifiedStep(c: char, rest: string)
    requires c != '\r'
    ensures Unified([c] + rest) == [c] + Unified(rest)
  {
    assert ([c] + rest)[1..] == rest;
  }

  lemma FirstApart(front: string, back: string)
    requires front != ""
    ensures front + back == [front[0]] + (front[1..] + back)
  {
  }

  /** Every end of a line is one line feed, however it was written; a carriage return before a line feed is part of it. */
  lemma {:induction false} EndsAreUnified(front: string, end: string, back: string)
    requires '\r' !in front && EndsALine(end, back)
    ensures Unified(front + (end + back)) == front + ("\n" + Unified(back))
  {
    if front == "" {
      EndIsUnified(end, back);
      assert front + (end + back) == end + back;
    } else {
      EndsAreUnified(front[1..], end, back);
      UnifiedStep(front[0], front[1..] + (end + back));
      FirstApart(front, end + back);
      FirstApart(front, "\n" + Unified(back));
    }
  }

  lemma {:induction false} PlainTextIsUnified(text: string)
    requires '\r' !in text
    ensures Unified(text) == text
  {
    if text != "" {
      PlainTextIsUnified(text[1..]);
      assert text == [text[0]] + text[1..];
    }
  }

  /** The digits of a text, in their order; a text without one is as good as none. */
  lemma {:induction false} DigitsAreKept(o: Outside, text: string, c: char)
    ensures DigitsOf(o, text + [c]) == DigitsOf(o, text) + (if o.isDigit(c) then [c] else [])
    ensures DigitsOf(o, "") == ""
    ensures DigitsOnly(o, None) == None
    ensures DigitsOnly(o, Some(text)) == if (forall i :: 0 <= i < |text| ==> !o.isDigit(text[i])) then None else Some(DigitsOf(o, text))
  {
    NoDigitsIff(o, text);
    if text == "" {
      assert text + [c] == [c] && [c][1..] == "";
    } else {
      DigitsAreKept(o, text[1..], c);
      assert (text + [c])[1..] == text[1..] + [c];
    }
  }

  lemma {:induction false} NoDigitsIff(o: Outside, text: string)
    ensures DigitsOf(o, text) == "" <==> forall i :: 0 <= i < |text| ==> !o.isDigit(text[i])
  {
    if text != "" {
      NoDigitsIff(o, text[1..]);
      assert forall i :: 0 < i < |text| ==> text[i] == text[1..][i - 1];
    }
  }

  // ----- the header -----

  /** How many columns of the header are known. */
  lemma {:induction false} KnownColumnsAre(layout: Layout, last: Option<Field>)
    ensures KnownColumns(layout + [last]) == KnownColumns(layout) + if last == None then 0 else 1
    ensures KnownColumns([]) == 0
  {
    if layout == [] {
      assert layout + [last] == [last] && [last][1..] == [];
    } else {
      KnownColumnsAre(layout[1..], last);
      assert (layout + [last])[1..] == layout[1..] + [last];
    }
  }

  /** Of delimiters under which as many columns are known the tab comes first, then the semicolon, then the comma. */
  lemma WhichDelimiter(o: Outside, line: string, best: Option<Header>)
    requires IsBestHeader(o, line, best, DELIMITERS)
    ensures var tab, semicolon, comma := KnownUnder(o, line, '\t'), KnownUnder(o, line, ';'), KnownUnder(o, line, ',');
            && (best == None <==> tab == semicolon == comma == 0)
            && (best.Some? ==>
                 best.value.delimiter
                 == if tab >= semicolon && tab >= comma then '\t' else if semicolon >= comma then ';' else ',')
  {
    assert DELIMITERS[0] == '\t' && DELIMITERS[1] == ';' && DELIMITERS[2] == ',';
  }

  lemma TableHasAHeader(o: Outside, line: string, header: Header)
    requires IsBestHeader(o, line, Some(header), DELIMITERS)
    ensures header == HeaderFor(o, line, header.delimiter)
    ensures !(KnownUnder(o, line, '\t') == KnownUnder(o, line, ';') == KnownUnder(o, line, ',') == 0)
  {
    WhichDelimiter(o, line, Some(header));
  }

  /** A cell of more than 131072 characters under any of the three delimiters makes the search for a header raise. */
  lemma WhenTheHeaderRaises(line: string)
    ensures HeaderRaises(line, DELIMITERS) <==>
              || Csv.HasLongCell(Csv.CellsOf(line, '\t')) || Csv.HasLongCell(Csv.CellsOf(line, ';'))
              || Csv.HasLongCell(Csv.CellsOf(line, ','))
    ensures forall cells :: Csv.HasLongCell(cells) <==> exists cell :: cell in cells && |cell| > 131072
  {
    assert DELIMITERS[0] == '\t' && DELIMITERS[1] == ';' && DELIMITERS[2] == ',';
    forall cells
      ensures Csv.HasLongCell(cells) <==> exists cell :: cell in cells && |cell| > 131072
    {
      if Csv.HasLongCell(cells) {
        var i :| 0 <= i < |cells| && |cells[i]| > Csv.FIELD_LIMIT;
        assert cells[i] in cells;
      }
    }
  }

  /** The line stands first among those that are not white space. */
  ghost predicate IsFirstToSpeak(o: Outside, lines: seq<string>, i: nat) {
    i < |lines| && !AllSpace(o, lines[i]) && forall j :: 0 <= j < i ==> AllSpace(o, lines[j])
  }

  lemma FirstToSpeak(o: Outside, lines: seq<string>, i: nat)
    ensures FirstLine(o, lines) == Some(i + 1) <==> IsFirstToSpeak(o, lines, i)
    ensures FirstLine(o, lines) == None <==> forall j :: 0 <= j < |lines| ==> AllSpace(o, lines[j])
  {
    forall j | 0 <= j < |lines|
      ensures Strip(o, lines[j]) == "" <==> AllSpace(o, lines[j])
    {
      var f, b := WhatStrippingDoes(o, lines[j]);
    }
  }

  /**
   The first line that is not white space decides the form: a list of lines when there is none, or when no delimiter
   makes a column of it known, and otherwise a table whose records begin behind it.
   */
  lemma WhatDecidesTheForm(o: Outside, lines: seq<string>, form: Form, i: nat)
    requires IsFormOf(o, lines, form)
    ensures (forall j :: 0 <= j < |lines| ==> AllSpace(o, lines[j])) ==> form == Lines
    ensures IsFirstToSpeak(o, lines, i) ==>
              && (form == Lines <==> KnownUnder(o, lines[i], '\t') == KnownUnder(o, lines[i], ';') == KnownUnder(o, lines[i], ',') == 0)
              && (form.Table? ==> form.first == i + 1 && form.header == HeaderFor(o, lines[i], form.header.delimiter)
                                  && form.records == Csv.RecordsOf(lines[i + 1..], form.header.delimiter))
  {
    FirstToSpeak(o, lines, i);
    if IsFirstToSpeak(o, lines, i) {
      if form.Table? {
        TableHasAHeader(o, lines[i], form.header);
      } else {
        WhichDelimiter(o, lines[i], None);
      }
    }
  }

  /** Byte order marks are taken from the front of the text, all of them and nothing else. */
  lemma {:induction false} MarksAreTakenOff(text: string) returns (marks: string)
    ensures text == marks + WithoutMark(text) && forall i :: 0 <= i < |marks| ==> marks[i] == '\U{FEFF}'
    ensures WithoutMark(text) != "" ==> WithoutMark(text)[0] != '\U{FEFF}'
  {
    marks := "";
    if text != "" && text[0] == '\U{FEFF}' {
      var more := MarksAreTakenOff(text[1..]);
      marks := [text[0]] + more;
    }
  }

  // ----- one line of the plain form -----

  /**
   A line of the plain form: nothing when it is white space, a row when something stands on both sides of the first
   semicolon, and otherwise one error; the two sides are the only cells of the row.
   */
  lemma WhatALineSays(o: Outside, line: string, number: nat, city: string, rest: string)
    requires Strip(o, line) == city + (if rest == "" then "" else ";" + rest) && ';' !in city
    ensures ReadLine(o, line, number)
            == if AllSpace(o, line) then Blank
               else if AllSpace(o, city) || AllSpace(o, rest) then Errors([LineError(number, NeedsCityAndAddress)])
               else Row(ImportedRow(number, Some(Strip(o, city)), Some(Strip(o, rest)), None, None, None, None, None, None))
  {
    var f, b := WhatStrippingDoes(o, line);
    f, b := WhatStrippingDoes(o, city);
    f, b := WhatStrippingDoes(o, rest);
    PartedAtFirst(city, rest, ';');
  }

  lemma {:induction false} PartedAtFirst(before: string, after: string, separator: char)
    requires separator !in before
    ensures Partition(before + (if after == "" then "" else [separator] + after), separator) == (before, after)
  {
    var text := before + (if after == "" then "" else [separator] + after);
    if before == "" {
      assert after != "" ==> text[1..] == after;
    } else {
      PartedAtFirst(before[1..], after, separator);
      assert text[0] == before[0] && text[1..] == before[1..] + (if after == "" then "" else [separator] + after);
      assert before == [before[0]] + before[1..];
    }
  }

  // ----- one record of a table -----

  /** A record says something when one of its cells does, the first or any other; if not it is passed over. */
  lemma WhichRecordsSpeak(o: Outside, layout: Layout, cells: seq<string>, number: nat)
    ensures ReadCells(o, layout, cells, number) == Blank <==> forall cell :: cell in cells ==> AllSpace(o, cell)
    ensures Csv.HasLongCell(cells) ==> ReadRecord(o, layout, cells, number) == Crashes(CellTooLong)
    ensures !Csv.HasLongCell(cells) ==> ReadRecord(o, layout, cells, number) == ReadCells(o, layout, cells, number)
  {
    forall i | 0 <= i < |cells|
      ensures Strip(o, cells[i]) == "" <==> AllSpace(o, cells[i])
    {
      var f, b := WhatStrippingDoes(o, cells[i]);
    }
    if HasContent(o, cells) {
      var i :| 0 <= i < |cells| && Strip(o, cells[i]) != "";
      assert cells[i] in cells;
    }
  }

  predicate IsNegativeNumber(n: Number) {
    n == Infinite(true) || (n.Finite? && n.value < 0.0)
  }

  /** The error that a number cell is worth, if it is. */
  predicate HasProblem(o: Outside, cell: Option<string>, what: Field, problem: Problem) {
    cell.Some? && if o.number(cell.value) == Malformed then problem == NotNumeric(what)
                  else IsNegativeNumber(o.number(cell.value)) && problem == IsNegative(what)
  }

  predicate IsFine(o: Outside, cell: Option<string>) {
    cell.Some? ==> !IsNegativeNumber(o.number(cell.value)) && o.number(cell.value) !in {Malformed, NotANumber}
  }

  predicate IsNaN(o: Outside, cell: Option<string>) {
    cell.Some? && o.number(cell.value) == NotANumber
  }

  lemma WhatANumberSays(o: Outside, cell: Option<string>, what: Field, p: Problem)
    ensures var r := ReadNumber(o, cell, what);
            && (r.Uncomparable? <==> IsNaN(o, cell))
            && (r == Wrong(p) <==> HasProblem(o, cell, what, p))
            && (r.Absent? || r.Read? <==> IsFine(o, cell))
            && (IsFine(o, cell) ==> NumberOf(r) == if cell.Some? then Some(o.number(cell.value)) else None)
  {
  }

  /**
   What becomes of a record by its two number cells: a NaN raises, each other bad number is its own error, the weight's
   first, and with two good ones it is a row unless it lacks both an address and a key.
   */
  lemma WhatARecordSays(o: Outside, layout: Layout, cells: seq<string>, number: nat, p: Problem, q: Problem)
    requires HasContent(o, cells)
    ensures var w, v := Cell(o, layout, cells, Weight), Cell(o, layout, cells, DeclaredValue);
            var outcome := ReadCells(o, layout, cells, number);
            && (IsNaN(o, w) || IsNaN(o, v) ==> outcome == Crashes(InvalidComparison))
            && (HasProblem(o, w, Weight, p) && HasProblem(o, v, DeclaredValue, q) ==>
                 outcome == Errors([LineError(number, p), LineError(number, q)]))
            && (HasProblem(o, w, Weight, p) && IsFine(o, v) ==> outcome == Errors([LineError(number, p)]))
            && (IsFine(o, w) && HasProblem(o, v, DeclaredValue, q) ==> outcome == Errors([LineError(number, q)]))
            && (IsFine(o, w) && IsFine(o, v) ==> IsRowOrLacking(o, layout, cells, number, outcome))
  {
    WhatANumberSays(o, Cell(o, layout, cells, Weight), Weight, p);
    WhatANumberSays(o, Cell(o, layout, cells, DeclaredValue), DeclaredValue, q);
  }

  predicate IsRowOrLacking(o: Outside, layout: Layout, cells: seq<string>, number: nat, outcome: Outcome) {
    if LacksAddress(o, layout, cells) && LacksKey(o, layout, cells)
    then outcome == Errors([LineError(number, NeedsAddressOrKey)])
    else outcome.Row? && outcome.row.line == number && outcome.row.addressLine == AddressOf(o, layout, cells)
  }

  predicate LacksAddress(o: Outside, layout: Layout, cells: seq<string>) {
    Cell(o, layout, cells, City) == None || AddressOf(o, layout, cells) == None
  }

  predicate LacksKey(o: Outside, layout: Layout, cells: seq<string>) {
    DigitsOnly(o, Cell(o, layout, cells, Inn)) == None && Cell(o, layout, cells, Name) == None
  }

  /** Two texts with a comma between them, or the one there is. */
  function Beside(a: string, b: string): string {
    if a == "" then b else if b == "" then a else a + ", " + b
  }

  /** An address: the parts that there are, in the order of street, house and flat. */
  function InOneLine(street: string, house: string, flat: string): string {
    Beside(street, Beside(house, if flat == "" then "" else "кв. " + flat))
  }

  lemma {:induction false} JoinedStep(part: Option<string>, parts: seq<Option<string>>)
    ensures Joined([part] + parts, ", ") == Beside(part.GetOr(""), Joined(parts, ", "))
  {
    assert ([part] + parts)[1..] == parts;
  }

  lemma {:induction false} JoinedParts(street: Option<string>, house: Option<string>, flat: Option<string>)
    ensures Joined([street, house] + (if flat.Some? && flat.value != "" then [Some("кв. " + flat.value)] else []), ", ")
            == InOneLine(street.GetOr(""), house.GetOr(""), flat.GetOr(""))
  {
    var written := if flat.GetOr("") == "" then "" else "кв. " + flat.GetOr("");
    var last: seq<Option<string>> := if flat.Some? && flat.value != "" then [Some("кв. " + flat.value)] else [];
    JoinedStep(Some(written), []);
    assert last == [] || last == [Some(written)] + [];
    assert Joined(last, ", ") == written;
    JoinedStep(house, last);
    JoinedStep(street, [house] + last);
    assert [street, house] + last == [street] + ([house] + last);
  }

  /** The address of a record: its own cell, or the street, the house and the flat in one line. */
  lemma WhatAnAddressIs(o: Outside, layout: Layout, cells: seq<string>)
    ensures var own := Cell(o, layout, cells, AddressLine);
            AddressOf(o, layout, cells)
            == if own.Some? then own
               else Clean(o, InOneLine(Cell(o, layout, cells, Street).GetOr(""), Cell(o, layout, cells, House).GetOr(""),
                                       Cell(o, layout, cells, Flat).GetOr("")))
  {
    CellIsNotEmpty(o, layout, cells, Flat);
    JoinedParts(Cell(o, layout, cells, Street), Cell(o, layout, cells, House), Cell(o, layout, cells, Flat));
  }

  lemma {:induction false} CellIsNotEmpty(o: Outside, layout: Layout, cells: seq<string>, field: Field)
    ensures Cell(o, layout, cells, field) != Some("")
  {
    if layout != [] {
      CellIsNotEmpty(o, layout[..|layout| - 1], cells, field);
    }
  }

  // ----- the preview of a line -----

  /** The least number of grams, of at least one, that covers the weight. */
  predicate CoversWeight(grams: int, kg: real) {
    grams >= 1 && kg * 1000.0 <= grams as real && (grams > 1 ==> (grams - 1) as real < kg * 1000.0)
  }

  lemma GramsCover(kg: real)
    ensures CoversWeight(Grams(kg), kg)
  {
  }

  lemma CargoSays(book: Book, row: ImportedRow)
    requires !IsRefused(book, row)
    ensures var p := LookUp(book, row).value;
            && (p.weightGrams.Some? <==> row.weightKg.Some?)
            && (row.weightKg.Some? ==> row.weightKg.value.Finite? && CoversWeight(p.weightGrams.value, row.weightKg.value.value))
            && (p.valueMinor.Some? <==> row.valueRub.Some?)
            && (row.valueRub.Some? ==> row.valueRub.value.Finite? && IsNearest(p.valueMinor.value, row.valueRub.value.value * 100.0)
                                       && (row.valueRub.value.value >= 0.0 ==> row.valueRub.value.value * 100.0 < p.valueMinor.value as real + 0.5))
  {
    if row.weightKg.Some? {
      GramsCover(row.weightKg.value.value);
    }
    if row.valueRub.Some? {
      var x := row.valueRub.value.value * 100.0;
      HalfUpIsTheNearestAwayFromZero(x, HalfUp(x));
    }
  }

  /** The exception of a refused line: of its weight, else of its value, else of an address outside the schema. */
  lemma WhyALineRaises(book: Book, row: ImportedRow)
    requires IsRefused(book, row)
    ensures var why := LookUp(book, row).error;
            && (why == NoGrams <==>
                 row.weightKg.Some? && (row.weightKg.value.Finite? ==> row.weightKg.value.value * 1000.0 >= book.overflow))
            && (why == OutsideTheSchema <==> !HasImpossibleCargo(book, row))
            && (why == NoAmount ==>
                 row.valueRub.Some? && (row.valueRub.value.Finite? ==>
                   row.valueRub.value.value * 100.0 >= 9_999_999_999_999_999_999_999_999_999.5
                   || row.valueRub.value.value * 100.0 <= -9_999_999_999_999_999_999_999_999_999.5))
  {
    if row.valueRub.Some? && row.valueRub.value.Finite? {
      var x := row.valueRub.value.value * 100.0;
      HalfUpIsTheNearestAwayFromZero(x, HalfUp(x));
    }
  }

  /** A row is searched by its INN, or by its name when it has none. */
  lemma WhatIsSearched(book: Book, row: ImportedRow)
    requires row.HasLookupKey()
    ensures row.inn.Some? ==> Searched(book, row) == book.byInn(row.inn.value)
    ensures row.inn.None? && row.name.Some? ==> Searched(book, row) == book.byName(row.name.value)
  {
  }

  /** The one address of a line, with what it is made of. */
  predicate IsDestinationOf(d: Destination, a: BookAddress) {
    && d.country == a.country && d.region == a.region && d.city == a.city && d.postalCode == a.postalCode
    && d.addressLine == InOneLine(a.street.GetOr(""), a.house.GetOr(""), a.flat.GetOr(""))
  }

  lemma DestinationSays(a: BookAddress)
    ensures IsDestinationOf(DestinationOf(a), a)
    ensures IsUsable(a) <==> a.street.GetOr("") != "" || a.house.GetOr("") != "" || a.flat.GetOr("") != ""
  {
    JoinedParts(a.street, a.house, a.flat);
  }

  /** An address of the counterparty may be offered: live, with a line, and in the named city if any live one is there. */
  ghost predicate MayBeOffered(book: Book, c: Counterparty, city: Option<string>, a: BookAddress) {
    && !a.isDeleted && (a.street.GetOr("") != "" || a.house.GetOr("") != "" || a.flat.GetOr("") != "")
    && (city.Some? && LivesIn(book, c, city.value) ==> book.norm(a.city) == book.norm(city.value))
  }

  ghost predicate LivesIn(book: Book, c: Counterparty, city: string) {
    exists b :: b in c.addresses && !b.isDeleted && book.norm(b.city) == book.norm(city)
  }

  lemma {:induction false} OnlyCounts(book: Book, t: Test, addresses: seq<BookAddress>, a: BookAddress)
    ensures multiset(Only(book, t, addresses))[a] == if Passes(book, t, a) then multiset(addresses)[a] else 0
  {
    if addresses != [] {
      OnlyCounts(book, t, addresses[1..], a);
      assert addresses == [addresses[0]] + addresses[1..];
    }
  }

  lemma NarrowedCounts(book: Book, c: Counterparty, city: Option<string>, a: BookAddress)
    ensures multiset(Narrowed(book, c, city))[a]
            == if !a.isDeleted && (city.Some? && LivesIn(book, c, city.value) ==> book.norm(a.city) == book.norm(city.value))
               then multiset(c.addresses)[a] else 0
  {
    var live := Only(book, IsLive, c.addresses);
    OnlyCounts(book, IsLive, c.addresses, a);
    OnlyIs(book, IsLive, c.addresses);
    if city.Some? {
      OnlyCounts(book, IsIn(city.value), live, a);
      OnlyIs(book, IsIn(city.value), live);
      var inCity := Only(book, IsIn(city.value), live);
      if inCity != [] {
        assert inCity[0] in inCity;
      }
    }
  }

  /** The offered addresses are those that may be, each as often as the counterparty has it. */
  lemma WhichAddressesAreOffered(book: Book, c: Counterparty, city: Option<string>, a: BookAddress)
    ensures multiset(Usable(book, c, city))[a] == if MayBeOffered(book, c, city, a) then multiset(c.addresses)[a] else 0
  {
    OnlyCounts(book, IsFit, Narrowed(book, c, city), a);
    NarrowedCounts(book, c, city, a);
    DestinationSays(a);
  }

  ghost predicate Offers(found: Found, c: Counterparty, usable: seq<BookAddress>) {
    && found.counterparty == c.id && found.name == c.name && |found.options| == |usable|
    && forall i :: 0 <= i < |usable| ==> found.options[i].id == usable[i].id && IsDestinationOf(found.options[i].destination, usable[i])
  }

  /**
   What the preview says of a line. Without a key it is sent where the line says; a key that finds nobody, or several,
   offers nothing; one that finds one counterparty offers its addresses and settles on an only one.
   */
  lemma WhatAPreviewSays(book: Book, row: ImportedRow)
    requires !IsRefused(book, row)
    ensures var p := LookUp(book, row).value;
            && p.line == row.line
            && (!row.HasLookupKey() ==>
                 && p.status == FromTheList && p.found == None
                 && p.destination == Some(Destination("RU", row.region, row.city.GetOr("None"), row.postalCode, row.addressLine.GetOr("None"))))
            && (row.HasLookupKey() ==>
                 var found := Searched(book, row);
                 && (|found| == 0 ==> p.status == NotFound && p.found == None && p.destination == None)
                 && (|found| > 1 ==> p.status == Ambiguous && p.found == None && p.destination == None)
                 && (|found| == 1 ==> IsPreviewOfOne(p, found[0], Usable(book, found[0], row.city))))
  {
    if row.HasLookupKey() && |Searched(book, row)| == 1 {
      var usable := Usable(book, Searched(book, row)[0], row.city);
      forall i | 0 <= i < |usable|
        ensures IsDestinationOf(OptionsOf(usable)[i].destination, usable[i])
      {
        DestinationSays(usable[i]);
      }
    }
  }

  ghost predicate IsPreviewOfOne(p: Preview, c: Counterparty, usable: seq<BookAddress>) {
    && p.found.Some? && Offers(p.found.value, c, usable)
    && (|usable| == 0 ==> p.status == NotFound && p.destination == None && p.found.value.chosen == None)
    && (|usable| > 1 ==> p.status == Ambiguous && p.destination == None && p.found.value.chosen == None)
    && (|usable| == 1 ==> p.status == Resolved && p.found.value.chosen == Some(usable[0].id)
                          && p.destination.Some? && IsDestinationOf(p.destination.value, usable[0]))
  }

  /** A ready row has its own weight and value, and the cargo's where the line named none. */
  lemma {:induction false} WhatAReadyRowSays(rows: seq<Preview>, choices: Choices, cargo: Cargo, row: Preview)
    ensures var before, after := Ready(rows, choices, cargo), Ready(rows + [row], choices, cargo);
            if ResolvedDestination(row, choices).None? then after == before
            else
              && |after| == |before| + 1 && after[..|before|] == before
              && var r := after[|before|];
                 && r.line == row.line && Some(r.destination) == ResolvedDestination(row, choices)
                 && (row.weightGrams == Some(r.weightGrams) || (row.weightGrams == None && r.weightGrams == cargo.weightGrams))
                 && (row.valueMinor == Some(r.valueMinor) || (row.valueMinor == None && r.valueMinor == cargo.valueMinor))
    ensures Ready([], choices, cargo) == []
  {
    assert (rows + [row])[..|rows|] == rows;
  }
}
