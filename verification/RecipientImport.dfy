/**
 Reading a list of recipients from pasted text or from an export with a header. A line that cannot be used
 is named by its number; none may disappear.
 */
module RecipientImport {
  import opened Options
  import Csv = CsvReader

  datatype Field =
    | City | AddressLine | Street | House | Flat | PostalCode | Region | Inn | Name | Weight | DeclaredValue

  /** What the decimal reader makes of a text. */
  datatype Number = Malformed | NotANumber | Infinite(negative: bool) | Finite(value: real)

  /** Character classes, the table of column names, and the decimal reader, which are not part of this model. */
  datatype Outside = Outside(
    isSpace: char -> bool, isDigit: char -> bool, columnOf: string -> Option<Field>, number: string -> Number)

  datatype ImportedRow = ImportedRow(
    line: nat, city: Option<string>, addressLine: Option<string>, postalCode: Option<string>, region: Option<string>,
    inn: Option<string>, name: Option<string>, weightKg: Option<Number>, valueRub: Option<Number>)
  {
    predicate HasAddress() {
      city.Some? && addressLine.Some?
    }

    predicate HasLookupKey() {
      inn.Some? || name.Some?
    }
  }

  datatype Problem = NeedsCityAndAddress | NotNumeric(what: Field) | IsNegative(what: Field) | NeedsAddressOrKey
  datatype LineError = LineError(line: nat, problem: Problem)

  datatype Parsed = Parsed(rows: seq<ImportedRow>, errors: seq<LineError>, tabular: bool)

  /** Exceptions that nothing on the way catches: a comparison with a NaN, and a cell that the table reader refuses. */
  datatype Crash = InvalidComparison | CellTooLong

  // ----- texts -----

  function StripLeft(o: Outside, text: string): string {
    if text != "" && o.isSpace(text[0]) then StripLeft(o, text[1..]) else text
  }

  function StripRight(o: Outside, text: string): string {
    if text != "" && o.isSpace(text[|text| - 1]) then StripRight(o, text[..|text| - 1]) else text
  }

  function Strip(o: Outside, text: string): string {
    StripRight(o, StripLeft(o, text))
  }

  function Clean(o: Outside, text: string): Option<string> {
    if Strip(o, text) == "" then None else Some(Strip(o, text))
  }

  /** `text.split(separator)`. */
  function Split(text: string, separator: char): (parts: seq<string>)
    ensures |parts| >= 1
  {
    if text == "" then [""]
    else
      var rest := Split(text[1..], separator);
      if text[0] == separator then [""] + rest else [[text[0]] + rest[0]] + rest[1..]
  }

  /** The texts before and after the first separator; all of it and nothing when there is none. */
  function Partition(text: string, separator: char): (string, string) {
    if text == "" then ("", "")
    else if text[0] == separator then ("", text[1..])
    else
      var (before, after) := Partition(text[1..], separator);
      ([text[0]] + before, after)
  }

  /** The texts of a list, the empty ones left out, with a separator between them. */
  function Joined(parts: seq<Option<string>>, separator: string): string {
    if parts == [] then ""
    else
      var rest := Joined(parts[1..], separator);
      if parts[0] == None || parts[0] == Some("") then rest
      else if rest == "" then parts[0].value
      else parts[0].value + separator + rest
  }

  function DigitsOf(o: Outside, text: string): string {
    if text == "" then ""
    else (if o.isDigit(text[0]) then [text[0]] else []) + DigitsOf(o, text[1..])
  }

  function DigitsOnly(o: Outside, text: Option<string>): Option<string> {
    if text.None? || DigitsOf(o, text.value) == "" then None else Some(DigitsOf(o, text.value))
  }

  // ----- the header -----

  /** The field of every column of the header, where it is known. */
  type Layout = seq<Option<Field>>

  function LayoutOf(o: Outside, cells: seq<string>): Layout {
    seq(|cells|, i requires 0 <= i < |cells| => o.columnOf(cells[i]))
  }

  function KnownColumns(layout: Layout): nat {
    if layout == [] then 0 else (if layout[0].Some? then 1 else 0) + KnownColumns(layout[1..])
  }

  const DELIMITERS := ['\t', ';', ',']

  datatype Header = Header(delimiter: char, layout: Layout)

  function HeaderFor(o: Outside, line: string, delimiter: char): Header {
    Header(delimiter, LayoutOf(o, Csv.CellsOf(line, delimiter)))
  }

  function KnownUnder(o: Outside, line: string, delimiter: char): nat {
    KnownColumns(HeaderFor(o, line, delimiter).layout)
  }

  /** This delimiter makes some columns known, more than any before it and no fewer than any after it. */
  ghost predicate IsBestAt(o: Outside, line: string, among: seq<char>, k: nat)
    requires k < |among|
  {
    && KnownUnder(o, line, among[k]) > 0
    && (forall i :: 0 <= i < |among| ==> KnownUnder(o, line, among[i]) <= KnownUnder(o, line, among[k]))
    && (forall i :: 0 <= i < k ==> KnownUnder(o, line, among[i]) < KnownUnder(o, line, among[k]))
  }

  /** The delimiter under which the most columns are known; the earlier one of equals; none if none is known. */
  ghost predicate IsBestHeader(o: Outside, line: string, best: Option<Header>, among: seq<char>) {
    if best.None? then forall i :: 0 <= i < |among| ==> KnownUnder(o, line, among[i]) == 0
    else exists k :: 0 <= k < |among| && best == Some(HeaderFor(o, line, among[k])) && IsBestAt(o, line, among, k)
  }

  /** The line is read under every delimiter, and under one of them the reader refuses it. */
  ghost predicate HeaderRaises(line: string, among: seq<char>) {
    exists i :: 0 <= i < |among| && Csv.HasLongCell(Csv.CellsOf(line, among[i]))
  }

  method DetectHeader(o: Outside, line: string) returns (r: Result<Option<Header>, Crash>)
    ensures r.Err? <==> HeaderRaises(line, DELIMITERS)
    ensures r.Ok? ==> IsBestHeader(o, line, r.value, DELIMITERS)
  {
    var best: Option<Header> := None;
    for i := 0 to |DELIMITERS|
      invariant !HeaderRaises(line, DELIMITERS[..i])
      invariant IsBestHeader(o, line, best, DELIMITERS[..i])
    {
      assert DELIMITERS[..i + 1] == DELIMITERS[..i] + [DELIMITERS[i]];
      if Csv.HasLongCell(Csv.CellsOf(line, DELIMITERS[i])) {
        return Err(CellTooLong);
      }
      var header := HeaderFor(o, line, DELIMITERS[i]);
      OneMoreDelimiter(o, line, best, DELIMITERS[..i], DELIMITERS[i]);
      if KnownColumns(header.layout) > 0 && (best.None? || KnownColumns(header.layout) > KnownColumns(best.value.layout)) {
        best := Some(header);
      }
    }
    assert DELIMITERS[..|DELIMITERS|] == DELIMITERS;
    return Ok(best);
  }

  lemma OneMoreDelimiter(o: Outside, line: string, best: Option<Header>, among: seq<char>, next: char)
    requires IsBestHeader(o, line, best, among)
    ensures var known, before := KnownUnder(o, line, next), if best.None? then 0 else KnownColumns(best.value.layout);
            IsBestHeader(o, line, if known > before then Some(HeaderFor(o, line, next)) else best, among + [next])
  {
    var more := among + [next];
    var known, before := KnownUnder(o, line, next), if best.None? then 0 else KnownColumns(best.value.layout);
    assert more[|among|] == next;
    if known > before {
      assert IsBestAt(o, line, more, |among|);
    } else if best.Some? {
      var k :| 0 <= k < |among| && best == Some(HeaderFor(o, line, among[k])) && IsBestAt(o, line, among, k);
      assert more[k] == among[k];
      assert IsBestAt(o, line, more, k);
    }
  }

  // ----- one line -----

  /** What becomes of one line: nothing, a row, an error or two, or an exception. */
  datatype Outcome = Blank | Row(row: ImportedRow) | Errors(errors: seq<LineError>) | Crashes(why: Crash)

  function ReadLine(o: Outside, line: string, number: nat): Outcome {
    var stripped := Strip(o, line);
    if stripped == "" then Blank
    else
      var (city, rest) := Partition(stripped, ';');
      if Clean(o, city).None? || Clean(o, rest).None? then Errors([LineError(number, NeedsCityAndAddress)])
      else Row(ImportedRow(number, Clean(o, city), Clean(o, rest), None, None, None, None, None, None))
  }

  /** The cell of a field. Of several columns for one field the last decides, even where the line does not reach it. */
  function Cell(o: Outside, layout: Layout, cells: seq<string>, field: Field): Option<string> {
    if layout == [] then None
    else
      var last := |layout| - 1;
      if layout[last] == Some(field) then (if last < |cells| then Clean(o, cells[last]) else None)
      else Cell(o, layout[..last], cells, field)
  }

  /** A cell that should hold a number: nothing, the number, or what is wrong with it. */
  datatype Reading = Absent | Read(number: Number) | Wrong(problem: Problem) | Uncomparable

  function ReadNumber(o: Outside, text: Option<string>, what: Field): Reading {
    if text.None? then Absent
    else
      match o.number(text.value)
      case Malformed => Wrong(NotNumeric(what))
      case NotANumber => Uncomparable
      case Infinite(negative) => if negative then Wrong(IsNegative(what)) else Read(Infinite(false))
      case Finite(value) => if value < 0.0 then Wrong(IsNegative(what)) else Read(Finite(value))
  }

  function NumberOf(r: Reading): Option<Number> {
    if r.Read? then Some(r.number) else None
  }

  function ProblemsOf(r: Reading, number: nat): seq<LineError> {
    if r.Wrong? then [LineError(number, r.problem)] else []
  }

  predicate HasContent(o: Outside, cells: seq<string>) {
    exists i :: 0 <= i < |cells| && Strip(o, cells[i]) != ""
  }

  /** The address line: its own column, or the street, the house and the flat put together. */
  function AddressOf(o: Outside, layout: Layout, cells: seq<string>): Option<string> {
    var given := Cell(o, layout, cells, AddressLine);
    if given.Some? then given
    else
      var flat := Cell(o, layout, cells, Flat);
      Clean(o, Joined([Cell(o, layout, cells, Street), Cell(o, layout, cells, House)]
                      + if flat.Some? then [Some("кв. " + flat.value)] else [], ", "))
  }

  function ReadCells(o: Outside, layout: Layout, cells: seq<string>, number: nat): Outcome {
    if !HasContent(o, cells) then Blank
    else
      var weight := ReadNumber(o, Cell(o, layout, cells, Weight), Weight);
      var value := ReadNumber(o, Cell(o, layout, cells, DeclaredValue), DeclaredValue);
      if weight.Uncomparable? || value.Uncomparable? then Crashes(InvalidComparison)
      else if weight.Wrong? || value.Wrong? then Errors(ProblemsOf(weight, number) + ProblemsOf(value, number))
      else
        var row := ImportedRow(
          number, Cell(o, layout, cells, City), AddressOf(o, layout, cells), Cell(o, layout, cells, PostalCode),
          Cell(o, layout, cells, Region), DigitsOnly(o, Cell(o, layout, cells, Inn)), Cell(o, layout, cells, Name),
          NumberOf(weight), NumberOf(value));
        if !row.HasAddress() && !row.HasLookupKey() then Errors([LineError(number, NeedsAddressOrKey)]) else Row(row)
  }

  /** How the list is read: line by line, or as the records of a table below a header. */
  datatype Form = Lines | Table(first: nat, header: Header, records: seq<Csv.Record>)

  /** The highest number that a line or a record has. */
  function Extent(form: Form, lines: seq<string>): nat {
    match form
    case Lines => |lines|
    case Table(first, _, records) => first + |records|
  }

  /** The record with this number; the numbers go on from the header's, one for each record. */
  function RecordAt(form: Form, number: nat): Csv.Record
    requires form.Table? && form.first < number <= form.first + |form.records|
  {
    form.records[number - form.first - 1]
  }

  function ReadRecord(o: Outside, layout: Layout, cells: seq<string>, number: nat): Outcome {
    if Csv.HasLongCell(cells) then Crashes(CellTooLong) else ReadCells(o, layout, cells, number)
  }

  /** What becomes of the line or record with this number, counted from one. */
  function OutcomeOf(o: Outside, form: Form, lines: seq<string>, number: nat): Outcome
    requires 1 <= number <= Extent(form, lines)
  {
    match form
    case Lines => ReadLine(o, lines[number - 1], number)
    case Table(first, header, _) =>
      if number <= first then Blank else ReadRecord(o, header.layout, RecordAt(form, number).cells, number)
  }

  // ----- the whole list -----

  /** The first line that says something, with its number. */
  function FirstLine(o: Outside, lines: seq<string>): Option<nat> {
    FirstLineFrom(o, lines, 1)
  }

  function FirstLineFrom(o: Outside, lines: seq<string>, number: nat): (first: Option<nat>)
    requires 1 <= number
    ensures first.Some? ==> number <= first.value <= |lines| && Strip(o, lines[first.value - 1]) != ""
    ensures forall i :: number - 1 <= i < |lines| && (first.None? || i < first.value - 1) ==> Strip(o, lines[i]) == ""
    decreases |lines| - number
  {
    if number > |lines| then None
    else if Strip(o, lines[number - 1]) != "" then Some(number)
    else FirstLineFrom(o, lines, number + 1)
  }

  function WithoutMark(text: string): string {
    if text != "" && text[0] == '\U{FEFF}' then WithoutMark(text[1..]) else text
  }

  /** Every end of line becomes a line feed. */
  function Unified(text: string): string {
    if text == "" then ""
    else if text[0] == '\r' then "\n" + Unified(if |text| > 1 && text[1] == '\n' then text[2..] else text[1..])
    else [text[0]] + Unified(text[1..])
  }

  function LinesOf(text: string): seq<string> {
    Split(Unified(WithoutMark(text)), '\n')
  }

  /** Rows and errors of the first n lines or records, none of which raised. */
  function ReadTo(o: Outside, form: Form, lines: seq<string>, n: nat): Parsed
    requires n <= Extent(form, lines)
  {
    if n == 0 then Parsed([], [], form.Table?)
    else
      var before := ReadTo(o, form, lines, n - 1);
      match OutcomeOf(o, form, lines, n)
      case Row(row) => before.(rows := before.rows + [row])
      case Errors(errors) => before.(errors := before.errors + errors)
      case _ => before
  }

  /** All of it. */
  function ReadAll(o: Outside, form: Form, lines: seq<string>): Parsed {
    ReadTo(o, form, lines, Extent(form, lines))
  }

  predicate RaisesAt(o: Outside, form: Form, lines: seq<string>, number: nat)
    requires 1 <= number <= Extent(form, lines)
  {
    OutcomeOf(o, form, lines, number).Crashes?
  }

  ghost predicate Raises(o: Outside, form: Form, lines: seq<string>) {
    exists number :: 1 <= number <= Extent(form, lines) && RaisesAt(o, form, lines, number)
  }

  /** The form the list is read in: a table when its first line that says something names a known column. */
  ghost predicate IsFormOf(o: Outside, lines: seq<string>, form: Form) {
    match FirstLine(o, lines)
    case None => form == Lines
    case Some(first) =>
      if form.Lines? then IsBestHeader(o, lines[first - 1], None, DELIMITERS)
      else
        && form.first == first && IsBestHeader(o, lines[first - 1], Some(form.header), DELIMITERS)
        && form.records == Csv.RecordsOf(lines[first..], form.header.delimiter)
  }

  /** Looking for the header raises. */
  ghost predicate FirstLineRaises(o: Outside, lines: seq<string>) {
    FirstLine(o, lines).Some? && HeaderRaises(lines[FirstLine(o, lines).value - 1], DELIMITERS)
  }

  method ParseLines(o: Outside, lines: seq<string>) returns (parsed: Parsed)
    ensures parsed == ReadAll(o, Lines, lines)
  {
    parsed := Parsed([], [], false);
    for number := 1 to |lines| + 1
      invariant parsed == ReadTo(o, Lines, lines, number - 1)
    {
      var stripped := Strip(o, lines[number - 1]);
      if stripped == "" {
        continue;
      }
      var (city, rest) := Partition(stripped, ';');
      var cityText, address := Clean(o, city), Clean(o, rest);
      if cityText.None? || address.None? {
        parsed := parsed.(errors := parsed.errors + [LineError(number, NeedsCityAndAddress)]);
      } else {
        parsed := parsed.(rows := parsed.rows + [ImportedRow(number, cityText, address, None, None, None, None, None, None)]);
      }
    }
  }

  method ParseTable(o: Outside, lines: seq<string>, first: nat, header: Header) returns (r: Result<Parsed, Crash>, form: Form)
    requires first <= |lines|
    ensures form == Table(first, header, Csv.RecordsOf(lines[first..], header.delimiter))
    ensures r.Err? <==> Raises(o, form, lines)
    ensures r.Ok? ==> r.value == ReadAll(o, form, lines)
  {
    var records := Csv.RecordsOf(lines[first..], header.delimiter);
    form := Table(first, header, records);
    var parsed := Parsed([], [], true);
    AboveTheTable(o, form, lines, first);
    for number := first + 1 to first + |records| + 1
      invariant parsed == ReadTo(o, form, lines, number - 1)
      invariant forall n :: 1 <= n < number ==> !RaisesAt(o, form, lines, n)
    {
      var outcome := ReadRecord(o, header.layout, records[number - first - 1].cells, number);
      assert outcome == OutcomeOf(o, form, lines, number);
      match outcome {
        case Blank =>
        case Crashes(why) =>
          assert RaisesAt(o, form, lines, number);
          return Err(why), form;
        case Errors(errors) => parsed := parsed.(errors := parsed.errors + errors);
        case Row(row) => parsed := parsed.(rows := parsed.rows + [row]);
      }
    }
    return Ok(parsed), form;
  }

  lemma {:induction false} AboveTheTable(o: Outside, form: Form, lines: seq<string>, n: nat)
    requires form.Table? && n <= form.first
    ensures ReadTo(o, form, lines, n) == Parsed([], [], true)
    ensures forall number :: 1 <= number <= n ==> !RaisesAt(o, form, lines, number)
  {
    if n > 0 {
      AboveTheTable(o, form, lines, n - 1);
    }
  }

  method ParseRecipients(o: Outside, text: string) returns (r: Result<Parsed, Crash>, form: Form)
    ensures !FirstLineRaises(o, LinesOf(text)) ==> IsFormOf(o, LinesOf(text), form)
    ensures r.Err? <==> FirstLineRaises(o, LinesOf(text)) || Raises(o, form, LinesOf(text))
    ensures r.Ok? ==> r.value == ReadAll(o, form, LinesOf(text))
  {
    var lines := LinesOf(text);
    form := Lines;
    var first := FirstLine(o, lines);
    if first.None? {
      NothingSaid(o, lines, |lines|);
      return Ok(Parsed([], [], false)), Lines;
    }
    var header := DetectHeader(o, lines[first.value - 1]);
    if header.Err? {
      return Err(header.error), Lines;
    }
    if header.value.None? {
      var parsed := ParseLines(o, lines);
      return Ok(parsed), Lines;
    }
    r, form := ParseTable(o, lines, first.value, header.value.value);
  }

  lemma {:induction false} NothingSaid(o: Outside, lines: seq<string>, n: nat)
    requires n <= |lines| && forall i :: 0 <= i < |lines| ==> Strip(o, lines[i]) == ""
    ensures ReadTo(o, Lines, lines, n) == Parsed([], [], false)
  {
    if n > 0 {
      NothingSaid(o, lines, n - 1);
    }
  }
}
