/** Which recipients disappear: what the reading of a list accounts for, by numbers and by lines. */
module ImportAccount {
  import opened Options
  import opened RecipientImport
  import Csv = CsvReader

  /** The line or record says something, and in a table it stands below the header. */
  ghost predicate IsData(o: Outside, form: Form, lines: seq<string>, number: nat)
    requires 1 <= number <= Extent(form, lines)
  {
    match form
    case Lines => Strip(o, lines[number - 1]) != ""
    case Table(first, header, _) => number > first && HasContent(o, RecordAt(form, number).cells)
  }

  ghost predicate HasRow(p: Parsed, number: nat) {
    exists i :: 0 <= i < |p.rows| && p.rows[i].line == number
  }

  ghost predicate HasError(p: Parsed, number: nat) {
    exists i :: 0 <= i < |p.errors| && p.errors[i].line == number
  }

  ghost predicate RowsIncrease(rows: seq<ImportedRow>) {
    forall i, j :: 0 <= i < j < |rows| ==> rows[i].line < rows[j].line
  }

  /** An outcome speaks of its own line only, and an error outcome says something. */
  lemma OutcomeNamesItsLine(o: Outside, form: Form, lines: seq<string>, number: nat)
    requires 1 <= number <= Extent(form, lines)
    ensures var outcome := OutcomeOf(o, form, lines, number);
            && (outcome.Row? ==> outcome.row.line == number)
            && (outcome.Errors? ==> outcome.errors != [] && forall i :: 0 <= i < |outcome.errors| ==> outcome.errors[i].line == number)
            && (outcome.Blank? ==> !IsData(o, form, lines, number))
            && (!IsData(o, form, lines, number) ==> outcome.Blank? || outcome.Crashes?)
  {
  }

  ghost predicate Below(p: Parsed, n: nat) {
    && (forall i :: 0 <= i < |p.rows| ==> 1 <= p.rows[i].line <= n)
    && (forall i :: 0 <= i < |p.errors| ==> 1 <= p.errors[i].line <= n)
  }

  /** Each line is accounted for by a row exactly when its outcome is one, and by an error exactly when that is one. */
  ghost predicate AccountedFor(o: Outside, form: Form, lines: seq<string>, p: Parsed, number: nat)
    requires 1 <= number <= Extent(form, lines)
  {
    && (HasRow(p, number) <==> OutcomeOf(o, form, lines, number).Row?)
    && (HasError(p, number) <==> OutcomeOf(o, form, lines, number).Errors?)
  }

  lemma {:induction false} ReadAccounts(o: Outside, form: Form, lines: seq<string>, n: nat)
    requires n <= Extent(form, lines)
    ensures var p := ReadTo(o, form, lines, n);
            && RowsIncrease(p.rows) && Below(p, n)
            && forall number :: 1 <= number <= n ==> AccountedFor(o, form, lines, p, number)
  {
    if n > 0 {
      ReadAccounts(o, form, lines, n - 1);
      OutcomeNamesItsLine(o, form, lines, n);
      var before, p := ReadTo(o, form, lines, n - 1), ReadTo(o, form, lines, n);
      forall number | 1 <= number <= n
        ensures AccountedFor(o, form, lines, p, number)
      {
        OneMoreLine(before, OutcomeOf(o, form, lines, n), n, number);
        assert number < n ==> AccountedFor(o, form, lines, before, number);
      }
    }
  }

  function Extended(before: Parsed, outcome: Outcome): Parsed {
    match outcome
    case Row(row) => before.(rows := before.rows + [row])
    case Errors(errors) => before.(errors := before.errors + errors)
    case _ => before
  }

  lemma OneMoreLine(before: Parsed, outcome: Outcome, n: nat, number: nat)
    requires n > 0 && Below(before, n - 1) && 1 <= number <= n
    requires outcome.Row? ==> outcome.row.line == n
    requires outcome.Errors? ==> outcome.errors != [] && forall i :: 0 <= i < |outcome.errors| ==> outcome.errors[i].line == n
    ensures var p := Extended(before, outcome);
            && (number < n ==> (HasRow(p, number) <==> HasRow(before, number)) && (HasError(p, number) <==> HasError(before, number)))
            && (number == n ==> (HasRow(p, number) <==> outcome.Row?) && (HasError(p, number) <==> outcome.Errors?))
  {
    var p := Extended(before, outcome);
    assert forall i :: 0 <= i < |before.rows| ==> p.rows[i] == before.rows[i];
    assert forall i :: 0 <= i < |before.errors| ==> p.errors[i] == before.errors[i];
    if outcome.Row? {
      assert p.rows[|before.rows|] == outcome.row;
    }
    if outcome.Errors? {
      assert p.errors[|before.errors|] == outcome.errors[0];
    }
  }

  /**
   In a list that was read, every line of the plain form and every record of a table that says something has either
   exactly one row with its own number or at least one error with that number, never both and never neither; what
   says nothing has none. Row numbers increase.
   */
  lemma NoNumberDisappears(o: Outside, form: Form, lines: seq<string>, number: nat)
    requires 1 <= number <= Extent(form, lines) && !Raises(o, form, lines)
    ensures var p := ReadAll(o, form, lines);
            && RowsIncrease(p.rows)
            && (IsData(o, form, lines, number) ==> (HasRow(p, number) <==> !HasError(p, number)))
            && (!IsData(o, form, lines, number) ==> !HasRow(p, number) && !HasError(p, number))
  {
    ReadAccounts(o, form, lines, Extent(form, lines));
    OutcomeNamesItsLine(o, form, lines, number);
    assert !RaisesAt(o, form, lines, number);
    assert AccountedFor(o, form, lines, ReadAll(o, form, lines), number);
  }

  /** Nothing is invented: every row and every error has the number of a line or record that says something. */
  lemma NothingIsInvented(o: Outside, form: Form, lines: seq<string>, number: nat)
    requires var p := ReadAll(o, form, lines); HasRow(p, number) || HasError(p, number)
    ensures 1 <= number <= Extent(form, lines) && IsData(o, form, lines, number)
  {
    ReadAccounts(o, form, lines, Extent(form, lines));
    OutcomeNamesItsLine(o, form, lines, number);
    assert AccountedFor(o, form, lines, ReadAll(o, form, lines), number);
  }

  // ----- which lines have a number of their own -----

  /** The table that the lines below its header make. */
  ghost predicate IsTableOf(form: Form, lines: seq<string>) {
    form.Table? && form.first <= |lines| && form.records == Csv.RecordsOf(lines[form.first..], form.header.delimiter)
  }

  /** The record with this number is the line with this number, and nothing else. */
  ghost predicate IsItsLine(form: Form, number: nat)
    requires form.Table?
  {
    && form.first < number <= form.first + |form.records|
    && form.first + RecordAt(form, number).first + 1 == number && RecordAt(form, number).lines == 1
  }

  /** Every line below the header is named by its own number. */
  ghost predicate NumbersAreLines(form: Form, lines: seq<string>)
    requires IsTableOf(form, lines)
  {
    forall number :: form.first < number <= form.first + |Csv.Stream(lines[form.first..])| ==> IsItsLine(form, number)
  }

  /**
   The numbers are meant to be those of the lines in the operator's editor. In a table they are, for every line, if
   and only if no line but the last leaves a quotation open; otherwise the record of that line takes the next one
   in, and every number behind it is too small.
   */
  lemma NumbersAreLinesIff(form: Form, lines: seq<string>)
    requires IsTableOf(form, lines) && Csv.Stream(lines[form.first..]) != []
    ensures var body := lines[form.first..];
            NumbersAreLines(form, lines) <==> Csv.ClosesUpTo(body, form.header.delimiter, |Csv.Stream(body)| - 1)
  {
    var n := |Csv.Stream(lines[form.first..])|;
    Csv.LinesAreRecordsIff(lines[form.first..], form.header.delimiter);
    if NumbersAreLines(form, lines) {
      forall k | 0 <= k < n
        ensures Csv.IsOwnLine(form.records, k)
      {
        assert IsItsLine(form, form.first + k + 1);
      }
    }
    if Csv.OwnLines(form.records, n) {
      forall number | form.first < number <= form.first + n
        ensures IsItsLine(form, number)
      {
        assert Csv.IsOwnLine(form.records, number - form.first - 1);
      }
    }
  }

  /** So they are in every table without quotation marks. */
  lemma PlainTableKeepsItsLines(form: Form, lines: seq<string>)
    requires IsTableOf(form, lines) && Csv.Stream(lines[form.first..]) != []
    requires forall i :: 0 <= i < |Csv.Stream(lines[form.first..])| ==> Csv.QUOTE !in Csv.Stream(lines[form.first..])[i]
    ensures NumbersAreLines(form, lines)
  {
    var body, d := lines[form.first..], form.header.delimiter;
    forall i | 0 <= i < |Csv.Stream(body)|
      ensures !Csv.LeavesOpen(Csv.Stream(body)[i], d)
    {
      Csv.PlainTextStaysOutside(Csv.FRESH, Csv.Stream(body)[i], d);
    }
    NumbersAreLinesIff(form, lines);
  }

  /**
   A line is not meant to be dropped in silence. A stray quotation mark drops all that follow it: the line that
   opens a quotation is the last one to have a number, and neither a row nor an error speaks of a later one.
   */
  lemma StrayQuoteDropsTheRest(o: Outside, form: Form, lines: seq<string>, i: nat, number: nat)
    requires IsTableOf(form, lines) && i < |Csv.Stream(lines[form.first..])|
    requires var body, d := lines[form.first..], form.header.delimiter;
             && Csv.ClosesUpTo(body, d, i) && Csv.LeavesOpen(Csv.Stream(body)[i], d)
             && forall j :: i < j < |Csv.Stream(body)| ==> Csv.QUOTE !in Csv.Stream(body)[j]
    requires number > form.first + i + 1
    ensures Extent(form, lines) == form.first + i + 1
    ensures !HasRow(ReadAll(o, form, lines), number) && !HasError(ReadAll(o, form, lines), number)
  {
    Csv.StrayQuoteTakesTheRest(lines[form.first..], form.header.delimiter, i);
    ReadAccounts(o, form, lines, Extent(form, lines));
  }

  /** For example, a quotation mark before A and none behind it: B is in A's name, and has no number at all. */
  lemma StrayQuoteLosesB(o: Outside, form: Form)
    requires form.Table? && form.first == 1 && form.header == Header(';', [Some(Name)])
    requires form.records == Csv.RecordsOf(["\"A", "B"], ';')
    ensures var p := ReadAll(o, form, ["name", "\"A", "B"]); !HasRow(p, 3) && !HasError(p, 3)
  {
    var lines, body := ["name", "\"A", "B"], ["\"A", "B"];
    assert lines[1..] == body && Csv.Stream(body) == body;
    assert body[0] == [Csv.QUOTE] + "A";
    Csv.FeedBoth(Csv.FRESH, [Csv.QUOTE], "A", ';');
    Csv.OneCharacter(Csv.FRESH, Csv.QUOTE, ';');
    Csv.StaysQuoted(Csv.FRESH.(state := Csv.InQuoted), "A", ';');
    StrayQuoteDropsTheRest(o, form, lines, 0, 3);
  }

  // ----- a table that was written is read back -----

  /** The last column of a field decides. */
  lemma {:induction false} CellAt(o: Outside, layout: Layout, cells: seq<string>, field: Field, k: nat)
    requires k < |layout| && layout[k] == Some(field) && forall j :: k < j < |layout| ==> layout[j] != Some(field)
    ensures Cell(o, layout, cells, field) == if k < |cells| then Clean(o, cells[k]) else None
  {
    if k < |layout| - 1 {
      CellAt(o, layout[..|layout| - 1], cells, field, k);
    }
  }

  /** What a row holds of a column, as the cell's text says it. */
  predicate Holds(o: Outside, row: ImportedRow, field: Field, text: Option<string>) {
    match field
    case City => row.city == text
    case AddressLine => text.Some? ==> row.addressLine == text
    case PostalCode => row.postalCode == text
    case Region => row.region == text
    case Name => row.name == text
    case Inn => row.inn == DigitsOnly(o, text)
    case Weight => row.weightKg == if text.Some? then Some(o.number(text.value)) else None
    case DeclaredValue => row.valueRub == if text.Some? then Some(o.number(text.value)) else None
    case _ => true
  }

  lemma RowHoldsItsCells(o: Outside, layout: Layout, cells: seq<string>, number: nat, field: Field)
    requires ReadCells(o, layout, cells, number).Row?
    ensures Holds(o, ReadCells(o, layout, cells, number).row, field, Cell(o, layout, cells, field))
  {
  }

  /** The line with this number is a row of cells, quoted or plain, and no line before it leaves a quotation open. */
  ghost predicate IsWritten(form: Form, lines: seq<string>, number: nat, texts: seq<string>, cells: seq<string>)
    requires IsTableOf(form, lines)
  {
    var body, d := lines[form.first..], form.header.delimiter;
    && d != Csv.QUOTE && texts != [] && texts != [""] && Csv.AllWrite(texts, cells, d)
    && form.first < number <= form.first + |Csv.Stream(body)|
    && Csv.ClosesUpTo(body, d, number - form.first - 1)
    && Csv.Stream(body)[number - form.first - 1] == Csv.Line(texts, d)
  }

  lemma WrittenRecord(form: Form, lines: seq<string>, number: nat, texts: seq<string>, cells: seq<string>)
    requires IsTableOf(form, lines) && IsWritten(form, lines, number, texts, cells)
    ensures IsItsLine(form, number) && RecordAt(form, number).cells == cells
  {
    var body, d := lines[form.first..], form.header.delimiter;
    Csv.WrittenCellsAreReadBack(texts, cells, d);
    Csv.ClosedLineIsRecord(body, d, number - form.first - 1);
  }

  /**
   A row written under the header, cell by cell, is read under its own number with every cell in the field of its
   own column, whatever characters the quoted ones hold.
   */
  lemma WrittenRowIsReadBack(
      o: Outside, form: Form, lines: seq<string>, number: nat, texts: seq<string>, cells: seq<string>, k: nat, field: Field)
    requires IsTableOf(form, lines) && IsWritten(form, lines, number, texts, cells)
    requires k < |cells| && k < |form.header.layout| && form.header.layout[k] == Some(field)
    requires forall j :: k < j < |form.header.layout| ==> form.header.layout[j] != Some(field)
    ensures number <= Extent(form, lines)
    ensures OutcomeOf(o, form, lines, number) == ReadRecord(o, form.header.layout, cells, number)
    ensures OutcomeOf(o, form, lines, number).Row? ==>
              Holds(o, OutcomeOf(o, form, lines, number).row, field, Clean(o, cells[k]))
  {
    WrittenRecord(form, lines, number, texts, cells);
    CellAt(o, form.header.layout, cells, field, k);
    if OutcomeOf(o, form, lines, number).Row? {
      RowHoldsItsCells(o, form.header.layout, cells, number, field);
    }
  }

  lemma {:induction false} PartitionFirst(before: string, after: string, separator: char)
    requires separator !in before
    ensures Partition(before + [separator] + after, separator) == (before, after)
  {
    var text := before + [separator] + after;
    if before == "" {
      assert text[1..] == after;
    } else {
      assert text[0] == before[0] && text[1..] == before[1..] + [separator] + after;
      PartitionFirst(before[1..], after, separator);
      assert [before[0]] + before[1..] == before;
    }
  }

  /** In the plain form the first separator is the boundary, and every later one belongs to the address. */
  lemma WrittenLineIsReadBack(o: Outside, city: string, address: string, number: nat)
    requires ';' !in city && Clean(o, city).Some? && Clean(o, address).Some?
    requires !o.isSpace(city[0]) && !o.isSpace(address[|address| - 1])
    ensures ReadLine(o, city + ";" + address, number)
            == Row(ImportedRow(number, Clean(o, city), Clean(o, address), None, None, None, None, None, None))
  {
    var line := city + ";" + address;
    assert line[0] == city[0] && line[|line| - 1] == address[|address| - 1];
    assert Strip(o, line) == line;
    PartitionFirst(city, address, ';');
  }

  // ----- when the whole list fails -----

  ghost predicate IsNan(o: Outside, cell: Option<string>) {
    cell.Some? && o.number(cell.value) == NotANumber
  }

  /** A number of this record is written as a NaN, which the comparison with zero does not survive. */
  ghost predicate HasNan(o: Outside, form: Form, lines: seq<string>, number: nat)
    requires 1 <= number <= Extent(form, lines)
  {
    && form.Table? && IsData(o, form, lines, number)
    && var cells := RecordAt(form, number).cells;
       IsNan(o, Cell(o, form.header.layout, cells, Weight)) || IsNan(o, Cell(o, form.header.layout, cells, DeclaredValue))
  }

  /** The record has a cell that the table reader refuses. */
  ghost predicate IsTooLong(form: Form, number: nat) {
    form.Table? && form.first < number <= form.first + |form.records| && Csv.HasLongCell(RecordAt(form, number).cells)
  }

  /**
   One bad cell is meant to cost its own line only. The list is read if and only if no number in it is a NaN and no
   cell is longer than the reader's limit; otherwise the whole list fails, whatever its other lines say.
   */
  lemma ReadingRaisesIff(o: Outside, form: Form, lines: seq<string>)
    ensures Raises(o, form, lines)
            <==> exists n :: 1 <= n <= Extent(form, lines) && (HasNan(o, form, lines, n) || IsTooLong(form, n))
  {
    forall n | 1 <= n <= Extent(form, lines)
      ensures RaisesAt(o, form, lines, n) <==> HasNan(o, form, lines, n) || IsTooLong(form, n)
    {
    }
  }

  /** For example, a name and a weight in two columns: the line of A is good, and is lost with the line of B. */
  lemma NanLosesTheList(o: Outside, form: Form)
    requires !o.isSpace('A') && !o.isSpace('B') && !o.isSpace('n') && !o.isSpace('1')
    requires o.number("1") == Finite(1.0) && o.number("nan") == NotANumber
    requires form.Table? && form.first == 1 && form.header == Header('\t', [Some(Name), Some(Weight)])
    requires form.records == Csv.RecordsOf(["A\t1", "B\tnan"], '\t')
    ensures var lines := ["name\tweight", "A\t1", "B\tnan"];
            && IsTableOf(form, lines) && Extent(form, lines) == 3
            && OutcomeOf(o, form, lines, 2).Row? && RaisesAt(o, form, lines, 3)
  {
    PlainRow('A', "1");
    PlainRow('B', "nan");
    TwoRows(form, ["name\tweight", "A\t1", "B\tnan"], [['A'], "1"], [['B'], "nan"]);
    ShortCells('A', "1");
    ShortCells('B', "nan");
    PlainLine(o, 'A', "1", 2);
    PlainLine(o, 'B', "nan", 3);
  }

  /** A header and two rows of plain cells: two records, with the numbers of their lines. */
  lemma TwoRows(form: Form, lines: seq<string>, a: seq<string>, b: seq<string>)
    requires form.Table? && form.first == 1 && |lines| == 3 && form.header.delimiter == '\t'
    requires form.records == Csv.RecordsOf([lines[1], lines[2]], '\t')
    requires a != [] && a != [""] && Csv.AllWrite(a, a, '\t') && lines[1] == Csv.Line(a, '\t')
    requires b != [] && b != [""] && Csv.AllWrite(b, b, '\t') && lines[2] == Csv.Line(b, '\t') && lines[2] != ""
    ensures IsTableOf(form, lines) && |form.records| == 2
    ensures RecordAt(form, 2).cells == a && RecordAt(form, 3).cells == b
  {
    var body := [lines[1], lines[2]];
    assert lines[1..] == body && Csv.Stream(body) == body;
    Csv.WrittenCellsAreReadBack(a, a, '\t');
    Csv.ClosedThenAnything(body, '\t');
    WrittenRecord(form, lines, 2, a, a);
    WrittenRecord(form, lines, 3, b, b);
  }

  lemma ShortCells(name: char, weight: string)
    requires |weight| <= 3
    ensures !Csv.HasLongCell([[name], weight])
  {
  }

  lemma PlainRow(name: char, weight: string)
    requires name != '\t' && name != Csv.QUOTE && Csv.IsPlain(weight, '\t')
    ensures Csv.Line([[name], weight], '\t') == [name, '\t'] + weight && Csv.AllWrite([[name], weight], [[name], weight], '\t')
    ensures !Csv.LeavesOpen([name, '\t'] + weight, '\t')
  {
    var cells := [[name], weight];
    assert cells[1..] == [weight] && cells != [""];
    assert Csv.IsPlain(cells[0], '\t') && Csv.IsPlain(cells[1], '\t');
    Csv.WrittenCellsAreReadBack(cells, cells, '\t');
  }

  /** The cells of a one-letter name and a weight: a row, or the end of the whole list. */
  lemma PlainLine(o: Outside, name: char, weight: string, number: nat)
    requires weight != "" && !o.isSpace(name) && !o.isSpace(weight[0]) && !o.isSpace(weight[|weight| - 1])
    requires o.number(weight) == NotANumber || (o.number(weight).Finite? && o.number(weight).value >= 0.0)
    ensures var outcome := ReadCells(o, [Some(Name), Some(Weight)], [[name], weight], number);
            if o.number(weight) == NotANumber then outcome.Crashes? else outcome.Row?
  {
    PlainCells(o, name, weight);
  }

  lemma PlainCells(o: Outside, name: char, weight: string)
    requires weight != "" && !o.isSpace(name) && !o.isSpace(weight[0]) && !o.isSpace(weight[|weight| - 1])
    ensures var layout, cells := [Some(Name), Some(Weight)], [[name], weight];
            && Cell(o, layout, cells, Name) == Some([name])
            && Cell(o, layout, cells, Weight) == Some(weight)
            && Cell(o, layout, cells, DeclaredValue) == None
            && HasContent(o, cells)
  {
    var layout, cells := [Some(Name), Some(Weight)], [[name], weight];
    assert Strip(o, [name]) == [name] && Strip(o, weight) == weight;
    assert Strip(o, cells[0]) != "";
    assert layout[..1] == [Some(Name)] && [Some(Name)][..0] == [];
    assert Cell(o, layout, cells, Name) == Cell(o, [Some(Name)], cells, Name);
    assert Cell(o, layout, cells, DeclaredValue) == Cell(o, [Some(Name)], cells, DeclaredValue);
    assert Cell(o, [Some(Name)], cells, DeclaredValue) == Cell(o, [], cells, DeclaredValue);
  }
}
