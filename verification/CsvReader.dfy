/**
 The reader of tables as the standard library has it: cells between delimiters, quotation marks around a cell that
 holds a delimiter or an end of line, two of them for one inside.
 */
module CsvReader {
  import opened Options

  const QUOTE := '"'
  const FIELD_LIMIT := 131072

  datatype State = StartRecord | StartField | InField | InQuoted | AfterQuote

  /** Where the reader is, the cell it is in, and the finished cells of the record. */
  datatype Reader = Reader(state: State, field: string, cells: seq<string>)

  const FRESH := Reader(StartRecord, "", [])

  function Saved(r: Reader, state: State): Reader {
    Reader(state, "", r.cells + [r.field])
  }

  function With(r: Reader, c: char, state: State): Reader {
    r.(field := r.field + [c], state := state)
  }

  function Step(r: Reader, c: char, delimiter: char): Reader {
    match r.state
    case InField => if c == delimiter then Saved(r, StartField) else With(r, c, InField)
    case InQuoted => if c == QUOTE then r.(state := AfterQuote) else With(r, c, InQuoted)
    case AfterQuote =>
      if c == QUOTE then With(r, c, InQuoted)
      else if c == delimiter then Saved(r, StartField)
      else With(r, c, InField)
    case _ =>
      if c == QUOTE then r.(state := InQuoted)
      else if c == delimiter then Saved(r, StartField)
      else With(r, c, InField)
  }

  function Feed(r: Reader, text: string, delimiter: char): Reader
    decreases |text|
  {
    if text == "" then r else Feed(Step(r, text[0], delimiter), text[1..], delimiter)
  }

  /** The end of a line ends the record, except inside quotation marks, where it belongs to the cell. */
  function EndOfLine(r: Reader, hasNewline: bool): Reader {
    match r.state
    case StartRecord => r
    case InQuoted => if hasNewline then With(r, '\n', InQuoted) else r
    case _ => Saved(r, StartRecord)
  }

  function FeedLine(r: Reader, line: string, delimiter: char, hasNewline: bool): Reader {
    EndOfLine(Feed(r, line, delimiter), hasNewline)
  }

  /** A record, the line it begins on, and how many lines it takes. */
  datatype Record = Record(cells: seq<string>, first: nat, lines: nat)

  /** After some lines: the records that are finished, and the one that is not, from the line it began on. */
  datatype Progress = Progress(reader: Reader, from: nat, records: seq<Record>)

  /** The lines that the text of a list has: an empty last one is not a line of the text. */
  function Stream(body: seq<string>): seq<string> {
    if body != [] && body[|body| - 1] == "" then body[..|body| - 1] else body
  }

  function Advanced(p: Progress, line: string, n: nat, delimiter: char, hasNewline: bool): (q: Progress)
    requires p.from <= n
    ensures q.from <= n + 1
  {
    var r := FeedLine(p.reader, line, delimiter, hasNewline);
    if r.state == StartRecord then Progress(FRESH, n + 1, p.records + [Record(r.cells, p.from, n + 1 - p.from)])
    else p.(reader := r)
  }

  function ReadUpTo(body: seq<string>, delimiter: char, n: nat): (p: Progress)
    requires n <= |Stream(body)|
    ensures p.from <= n
  {
    if n == 0 then Progress(FRESH, 0, [])
    else Advanced(ReadUpTo(body, delimiter, n - 1), Stream(body)[n - 1], n - 1, delimiter, n < |body|)
  }

  /** All records of the text; a quotation that is never closed takes all that is left. */
  function RecordsOf(body: seq<string>, delimiter: char): seq<Record> {
    Finished(ReadUpTo(body, delimiter, |Stream(body)|), |Stream(body)|)
  }

  function Finished(p: Progress, n: nat): seq<Record>
    requires p.from <= n
  {
    if p.reader.state == InQuoted then p.records + [Record(Saved(p.reader, StartRecord).cells, p.from, n - p.from)] else p.records
  }

  /** The reader raises in the middle of such a record. */
  predicate HasLongCell(cells: seq<string>) {
    exists i :: 0 <= i < |cells| && |cells[i]| > FIELD_LIMIT
  }

  /** The cells of a line that is read by itself. */
  function CellsOf(line: string, delimiter: char): seq<string> {
    var r := Feed(FRESH, line, delimiter);
    if r.state == StartRecord then [] else Saved(r, StartRecord).cells
  }

  // ----- every line belongs to one record -----

  /** The reader stands between records, or inside a quotation: an end of line leaves nothing else. */
  predicate IsBetweenLines(p: Progress, n: nat) {
    && p.from <= n
    && (p.reader == FRESH ==> p.from == n)
    && (p.reader != FRESH ==> p.reader.state == InQuoted && p.from < n)
  }

  ghost predicate Covers(records: seq<Record>, n: nat) {
    if records == [] then n == 0
    else
      var last := records[|records| - 1];
      last.lines >= 1 && last.first + last.lines == n && Covers(records[..|records| - 1], last.first)
  }

  lemma LineEnds(r: Reader, hasNewline: bool)
    ensures EndOfLine(r, hasNewline).state == StartRecord || EndOfLine(r, hasNewline).state == InQuoted
  {
  }

  lemma {:induction false} ReadsLineByLine(body: seq<string>, delimiter: char, n: nat)
    requires n <= |Stream(body)|
    ensures var p := ReadUpTo(body, delimiter, n); IsBetweenLines(p, n) && Covers(p.records, p.from)
  {
    if n > 0 {
      ReadsLineByLine(body, delimiter, n - 1);
      var p := ReadUpTo(body, delimiter, n - 1);
      LineEnds(Feed(p.reader, Stream(body)[n - 1], delimiter), n < |body|);
      AdvancedCovers(p, Stream(body)[n - 1], n - 1, delimiter, n < |body|);
    }
  }

  lemma AdvancedCovers(p: Progress, line: string, n: nat, delimiter: char, hasNewline: bool)
    requires IsBetweenLines(p, n) && Covers(p.records, p.from)
    ensures var q := Advanced(p, line, n, delimiter, hasNewline); IsBetweenLines(q, n + 1) && Covers(q.records, q.from)
  {
    var q, r := Advanced(p, line, n, delimiter, hasNewline), FeedLine(p.reader, line, delimiter, hasNewline);
    LineEnds(Feed(p.reader, line, delimiter), hasNewline);
    if r.state == StartRecord {
      assert q.records[..|q.records| - 1] == p.records;
    }
  }

  /** The records share out the lines of the text: each line is in exactly one, and none is left over. */
  lemma {:induction false} RecordsCoverTheLines(body: seq<string>, delimiter: char)
    ensures Covers(RecordsOf(body, delimiter), |Stream(body)|)
  {
    var n := |Stream(body)|;
    ReadsLineByLine(body, delimiter, n);
    var p, records := ReadUpTo(body, delimiter, n), RecordsOf(body, delimiter);
    if p.reader.state == InQuoted {
      assert records[..|records| - 1] == p.records;
    }
  }

  // ----- which lines are records of their own -----

  /** A line that begins a record and leaves a quotation open takes the next line into its record. */
  predicate LeavesOpen(line: string, delimiter: char) {
    Feed(FRESH, line, delimiter).state == InQuoted
  }

  ghost predicate ClosesUpTo(body: seq<string>, delimiter: char, n: nat)
    requires n <= |Stream(body)|
  {
    forall i :: 0 <= i < n ==> !LeavesOpen(Stream(body)[i], delimiter)
  }

  /** The k-th record is the k-th line and nothing else. */
  ghost predicate IsOwnLine(records: seq<Record>, k: nat) {
    k < |records| && records[k].first == k && records[k].lines == 1
  }

  ghost predicate OwnLines(records: seq<Record>, n: nat) {
    forall k :: 0 <= k < n ==> IsOwnLine(records, k)
  }

  lemma {:induction false} NeverAtTheStart(r: Reader, text: string, delimiter: char)
    requires text != ""
    ensures Feed(r, text, delimiter).state != StartRecord
    decreases |text|
  {
    if |text| > 1 {
      NeverAtTheStart(Step(r, text[0], delimiter), text[1..], delimiter);
    } else {
      assert text[1..] == "";
    }
  }

  /** A line that leaves nothing open, read from the start of a record, is that record. */
  lemma LineAlone(p: Progress, line: string, n: nat, delimiter: char, hasNewline: bool)
    requires p.reader == FRESH && p.from == n && !LeavesOpen(line, delimiter)
    ensures Advanced(p, line, n, delimiter, hasNewline) == Progress(FRESH, n + 1, p.records + [Record(CellsOf(line, delimiter), n, 1)])
  {
    if line != "" {
      NeverAtTheStart(FRESH, line, delimiter);
    }
  }

  /** The first n lines, each closed, are the first n records. */
  ghost predicate AreRecords(body: seq<string>, delimiter: char, records: seq<Record>, n: nat)
    requires n <= |Stream(body)|
  {
    && n <= |records|
    && forall k :: 0 <= k < n ==> records[k] == Record(CellsOf(Stream(body)[k], delimiter), k, 1)
  }

  /** The reader stands at the start of line n, and the lines before are the records. */
  ghost predicate IsAtLine(body: seq<string>, delimiter: char, p: Progress, n: nat)
    requires n <= |Stream(body)|
  {
    p.reader == FRESH && p.from == n == |p.records| && AreRecords(body, delimiter, p.records, n)
  }

  lemma OneMoreClosed(body: seq<string>, delimiter: char, p: Progress, n: nat, hasNewline: bool)
    requires n < |Stream(body)| && IsAtLine(body, delimiter, p, n) && !LeavesOpen(Stream(body)[n], delimiter)
    ensures IsAtLine(body, delimiter, Advanced(p, Stream(body)[n], n, delimiter, hasNewline), n + 1)
  {
    LineAlone(p, Stream(body)[n], n, delimiter, hasNewline);
  }

  lemma {:induction false} ClosedLinesAreRecords(body: seq<string>, delimiter: char, n: nat)
    requires n <= |Stream(body)| && ClosesUpTo(body, delimiter, n)
    ensures IsAtLine(body, delimiter, ReadUpTo(body, delimiter, n), n)
  {
    if n > 0 {
      ClosedLinesAreRecords(body, delimiter, n - 1);
      assert !LeavesOpen(Stream(body)[n - 1], delimiter);
      OneMoreClosed(body, delimiter, ReadUpTo(body, delimiter, n - 1), n - 1, n < |body|);
    }
  }

  /** The i-th record begins on line i and goes on beyond it, or is not finished yet. */
  predicate GoesOn(p: Progress, i: nat) {
    if |p.records| == i then p.from == i && p.reader.state == InQuoted
    else |p.records| > i && p.records[i].first == i && p.records[i].lines > 1
  }

  lemma StillGoesOn(p: Progress, line: string, n: nat, delimiter: char, hasNewline: bool, i: nat)
    requires GoesOn(p, i) && i < n && p.from <= n
    ensures GoesOn(Advanced(p, line, n, delimiter, hasNewline), i)
  {
    LineEnds(Feed(p.reader, line, delimiter), hasNewline);
  }

  /** A line that leaves a quotation open is not a record of its own. */
  lemma {:induction false} OpenLineIsJoined(body: seq<string>, delimiter: char, i: nat, n: nat)
    requires i < n <= |Stream(body)| && ClosesUpTo(body, delimiter, i) && LeavesOpen(Stream(body)[i], delimiter)
    ensures GoesOn(ReadUpTo(body, delimiter, n), i)
    decreases n
  {
    if n == i + 1 {
      ClosedLinesAreRecords(body, delimiter, i);
    } else {
      OpenLineIsJoined(body, delimiter, i, n - 1);
      StillGoesOn(ReadUpTo(body, delimiter, n - 1), Stream(body)[n - 1], n - 1, delimiter, n < |body|, i);
    }
  }

  /**
   Every line of the text is a record of its own if and only if no line but the last leaves a quotation open,
   each line taken by itself.
   */
  lemma {:induction false} LinesAreRecordsIff(body: seq<string>, delimiter: char)
    requires Stream(body) != []
    ensures OwnLines(RecordsOf(body, delimiter), |Stream(body)|) <==> ClosesUpTo(body, delimiter, |Stream(body)| - 1)
  {
    var n, records := |Stream(body)|, RecordsOf(body, delimiter);
    if ClosesUpTo(body, delimiter, n - 1) {
      ClosedThenAnything(body, delimiter);
    } else {
      var i := FirstOpen(body, delimiter, n - 1);
      OpenLineIsJoined(body, delimiter, i, n);
      assert i < |records| && records[i].lines > 1;
      assert !IsOwnLine(records, i);
    }
  }

  lemma {:induction false} FirstOpen(body: seq<string>, delimiter: char, n: nat) returns (i: nat)
    requires n <= |Stream(body)| && !ClosesUpTo(body, delimiter, n)
    ensures i < n && ClosesUpTo(body, delimiter, i) && LeavesOpen(Stream(body)[i], delimiter)
  {
    i := 0;
    while !LeavesOpen(Stream(body)[i], delimiter)
      invariant i < n && ClosesUpTo(body, delimiter, i)
      decreases n - i
    {
      i := i + 1;
    }
  }

  lemma ClosedThenAnything(body: seq<string>, delimiter: char)
    requires Stream(body) != [] && ClosesUpTo(body, delimiter, |Stream(body)| - 1)
    ensures OwnLines(RecordsOf(body, delimiter), |Stream(body)|) && |RecordsOf(body, delimiter)| == |Stream(body)|
  {
    var n := |Stream(body)|;
    ClosedLinesAreRecords(body, delimiter, n - 1);
    LastLine(body, delimiter, ReadUpTo(body, delimiter, n - 1), ReadUpTo(body, delimiter, n), RecordsOf(body, delimiter));
  }

  lemma LastLine(body: seq<string>, delimiter: char, before: Progress, p: Progress, records: seq<Record>)
    requires Stream(body) != [] && IsAtLine(body, delimiter, before, |Stream(body)| - 1)
    requires p == Advanced(before, Stream(body)[|Stream(body)| - 1], |Stream(body)| - 1, delimiter, |Stream(body)| < |body|)
    requires records == Finished(p, |Stream(body)|)
    ensures OwnLines(records, |Stream(body)|) && |records| == |Stream(body)|
  {
    var n := |Stream(body)|;
    LastRecord(before, Stream(body)[n - 1], n - 1, delimiter, n < |body|);
    forall k | 0 <= k < n
      ensures IsOwnLine(records, k)
    {
      assert k < n - 1 ==> records[k] == before.records[k] == Record(CellsOf(Stream(body)[k], delimiter), k, 1);
    }
  }

  /** From the start of a record, one line more finishes it or leaves it open. */
  lemma LastRecord(p: Progress, line: string, n: nat, delimiter: char, hasNewline: bool)
    requires p.reader == FRESH && p.from == n == |p.records|
    ensures var q := Advanced(p, line, n, delimiter, hasNewline);
            if q.reader.state == InQuoted then q.records == p.records && q.from == n
            else |q.records| == n + 1 && q.records[..n] == p.records && q.records[n].first == n && q.records[n].lines == 1
  {
    LineEnds(Feed(p.reader, line, delimiter), hasNewline);
  }

  /** What is finished stays as it is. */
  lemma {:induction false} FinishedStays(body: seq<string>, delimiter: char, m: nat, n: nat)
    requires m <= n <= |Stream(body)|
    ensures ReadUpTo(body, delimiter, m).records <= ReadUpTo(body, delimiter, n).records
    decreases n
  {
    if m < n {
      FinishedStays(body, delimiter, m, n - 1);
    }
  }

  /** A line that is reached at the start of a record, and closed, is the record of its own cells. */
  lemma {:induction false} ClosedLineIsRecord(body: seq<string>, delimiter: char, i: nat)
    requires i < |Stream(body)| && ClosesUpTo(body, delimiter, i + 1)
    ensures i < |RecordsOf(body, delimiter)|
    ensures RecordsOf(body, delimiter)[i] == Record(CellsOf(Stream(body)[i], delimiter), i, 1)
  {
    ClosedLinesAreRecords(body, delimiter, i + 1);
    FinishedStays(body, delimiter, i + 1, |Stream(body)|);
    PrefixAt(ReadUpTo(body, delimiter, i + 1).records, ReadUpTo(body, delimiter, |Stream(body)|).records,
             RecordsOf(body, delimiter), i);
  }

  lemma PrefixAt(front: seq<Record>, longer: seq<Record>, all: seq<Record>, i: nat)
    requires i < |front| && front <= longer <= all
    ensures i < |all| && all[i] == front[i]
  {
  }

  // ----- a quotation that is never closed -----

  lemma {:induction false} StaysQuoted(r: Reader, text: string, delimiter: char)
    requires r.state == InQuoted && QUOTE !in text
    ensures Feed(r, text, delimiter) == r.(field := r.field + text)
    decreases |text|
  {
    if text == "" {
      assert r.field + text == r.field;
    } else {
      StaysQuoted(Step(r, text[0], delimiter), text[1..], delimiter);
      assert r.field + [text[0]] + text[1..] == r.field + text;
    }
  }

  /** Behind an open quotation, lines without quotation marks are taken into one cell, however many there are. */
  lemma {:induction false} OpenQuotationTakesTheRest(body: seq<string>, delimiter: char, from: nat, n: nat)
    requires from <= n <= |Stream(body)| && ReadUpTo(body, delimiter, from).reader.state == InQuoted
    requires forall i :: from <= i < n ==> QUOTE !in Stream(body)[i]
    ensures ReadUpTo(body, delimiter, n).reader.state == InQuoted
    ensures ReadUpTo(body, delimiter, n).records == ReadUpTo(body, delimiter, from).records
    decreases n
  {
    if from < n {
      OpenQuotationTakesTheRest(body, delimiter, from, n - 1);
      StaysQuoted(ReadUpTo(body, delimiter, n - 1).reader, Stream(body)[n - 1], delimiter);
    }
  }

  /**
   A stray quotation mark: a line opens a quotation, and no later line has a mark to close it. All later lines
   are then in the cell it opened, and none of them is a record.
   */
  lemma {:induction false} StrayQuoteTakesTheRest(body: seq<string>, delimiter: char, i: nat)
    requires i < |Stream(body)| && ClosesUpTo(body, delimiter, i) && LeavesOpen(Stream(body)[i], delimiter)
    requires forall j :: i < j < |Stream(body)| ==> QUOTE !in Stream(body)[j]
    ensures |RecordsOf(body, delimiter)| == i + 1
    ensures RecordsOf(body, delimiter)[i].first == i && RecordsOf(body, delimiter)[i].lines == |Stream(body)| - i
  {
    var n := |Stream(body)|;
    ClosedLinesAreRecords(body, delimiter, i);
    OpensHere(ReadUpTo(body, delimiter, i), Stream(body)[i], i, delimiter, i + 1 < |body|);
    OpenQuotationTakesTheRest(body, delimiter, i + 1, n);
    FromStays(body, delimiter, i + 1, n);
  }

  lemma OpensHere(p: Progress, line: string, n: nat, delimiter: char, hasNewline: bool)
    requires p.reader == FRESH && p.from == n && LeavesOpen(line, delimiter)
    ensures var q := Advanced(p, line, n, delimiter, hasNewline);
            q.reader.state == InQuoted && q.from == n && q.records == p.records
  {
  }

  lemma {:induction false} FromStays(body: seq<string>, delimiter: char, from: nat, n: nat)
    requires from <= n <= |Stream(body)| && ReadUpTo(body, delimiter, from).records == ReadUpTo(body, delimiter, n).records
    ensures ReadUpTo(body, delimiter, n).from == ReadUpTo(body, delimiter, from).from
  {
    ReadsLineByLine(body, delimiter, from);
    ReadsLineByLine(body, delimiter, n);
    SameEnd(ReadUpTo(body, delimiter, n).records, ReadUpTo(body, delimiter, n).from, ReadUpTo(body, delimiter, from).from);
  }

  lemma SameEnd(records: seq<Record>, a: nat, b: nat)
    requires Covers(records, a) && Covers(records, b)
    ensures a == b
  {
  }

  // ----- what is written is read back -----

  lemma {:induction false} FeedBoth(r: Reader, a: string, b: string, delimiter: char)
    ensures Feed(r, a + b, delimiter) == Feed(Feed(r, a, delimiter), b, delimiter)
    decreases |a|
  {
    if a == "" {
      assert a + b == b;
    } else {
      assert (a + b)[0] == a[0] && (a + b)[1..] == a[1..] + b;
      FeedBoth(Step(r, a[0], delimiter), a[1..], b, delimiter);
    }
  }

  /** Every quotation mark twice. */
  function Doubled(cell: string): string {
    if cell == "" then ""
    else (if cell[0] == QUOTE then [QUOTE, QUOTE] else [cell[0]]) + Doubled(cell[1..])
  }

  function Quoted(cell: string): string {
    [QUOTE] + Doubled(cell) + [QUOTE]
  }

  lemma {:induction false} DoubledIsRead(r: Reader, cell: string, delimiter: char)
    requires r.state == InQuoted
    ensures Feed(r, Doubled(cell), delimiter) == r.(field := r.field + cell)
    decreases |cell|
  {
    if cell == "" {
      assert r.field + cell == r.field;
    } else {
      var head, tail := if cell[0] == QUOTE then [QUOTE, QUOTE] else [cell[0]], Doubled(cell[1..]);
      var next := With(r, cell[0], InQuoted);
      FeedBoth(r, head, tail, delimiter);
      HeadIsRead(r, cell[0], head, delimiter);
      DoubledIsRead(next, cell[1..], delimiter);
      assert r.field + [cell[0]] + cell[1..] == r.field + cell;
    }
  }

  lemma HeadIsRead(r: Reader, c: char, head: string, delimiter: char)
    requires r.state == InQuoted && head == if c == QUOTE then [QUOTE, QUOTE] else [c]
    ensures Feed(r, head, delimiter) == With(r, c, InQuoted)
  {
    OneCharacter(r, c, delimiter);
    if c == QUOTE {
      assert head == [QUOTE] + [QUOTE];
      FeedBoth(r, [QUOTE], [QUOTE], delimiter);
      OneCharacter(r.(state := AfterQuote), QUOTE, delimiter);
    }
  }

  /** A quoted cell leaves the reader behind its closing mark with exactly the cell, whatever characters that has. */
  lemma QuotedIsRead(r: Reader, cell: string, delimiter: char)
    requires (r.state == StartRecord || r.state == StartField) && r.field == ""
    ensures Feed(r, Quoted(cell), delimiter) == Reader(AfterQuote, cell, r.cells)
  {
    var open := r.(state := InQuoted);
    FeedBoth(r, [QUOTE], Doubled(cell) + [QUOTE], delimiter);
    assert [QUOTE] + (Doubled(cell) + [QUOTE]) == Quoted(cell);
    OneCharacter(r, QUOTE, delimiter);
    FeedBoth(open, Doubled(cell), [QUOTE], delimiter);
    DoubledIsRead(open, cell, delimiter);
    OneCharacter(open.(field := open.field + cell), QUOTE, delimiter);
    assert "" + cell == cell;
  }

  lemma OneCharacter(r: Reader, c: char, delimiter: char)
    ensures Feed(r, [c], delimiter) == Step(r, c, delimiter)
  {
    var rest := [c][1..];
    assert rest == "" && [c] != "" && [c][0] == c;
    assert Feed(Step(r, c, delimiter), rest, delimiter) == Step(r, c, delimiter);
  }

  predicate IsPlain(cell: string, delimiter: char) {
    delimiter !in cell && QUOTE !in cell
  }

  lemma {:induction false} PlainIsRead(r: Reader, cell: string, delimiter: char)
    requires r.state == InField && IsPlain(cell, delimiter)
    ensures Feed(r, cell, delimiter) == r.(field := r.field + cell)
    decreases |cell|
  {
    if cell == "" {
      assert r.field + cell == r.field;
    } else {
      PlainIsRead(With(r, cell[0], InField), cell[1..], delimiter);
      assert r.field + [cell[0]] + cell[1..] == r.field + cell;
    }
  }

  /** How a cell is written: between quotation marks, or as it is when it has neither a mark nor a delimiter. */
  predicate Writes(text: string, cell: string, delimiter: char) {
    text == Quoted(cell) || (text == cell && IsPlain(cell, delimiter))
  }

  /** The reader at the end of a cell. */
  predicate HasRead(r: Reader, cells: seq<string>, cell: string) {
    r.cells == cells && r.field == cell && r.state != InQuoted
  }

  lemma WrittenIsRead(r: Reader, text: string, cell: string, delimiter: char)
    requires (r.state == StartRecord || r.state == StartField) && r.field == "" && Writes(text, cell, delimiter)
    ensures HasRead(Feed(r, text, delimiter), r.cells, cell)
    ensures r.state == StartField || text != "" ==> Feed(r, text, delimiter).state != StartRecord
  {
    if text == Quoted(cell) {
      QuotedIsRead(r, cell, delimiter);
    } else if cell != "" {
      assert cell == [cell[0]] + cell[1..];
      PlainIsRead(With(r, cell[0], InField), cell[1..], delimiter);
      assert r.field + [cell[0]] + cell[1..] == cell;
    }
  }

  function Line(texts: seq<string>, delimiter: char): string
    requires texts != []
  {
    if |texts| == 1 then texts[0] else texts[0] + ([delimiter] + Line(texts[1..], delimiter))
  }

  ghost predicate AllWrite(texts: seq<string>, cells: seq<string>, delimiter: char) {
    |texts| == |cells| && forall i :: 0 <= i < |cells| ==> Writes(texts[i], cells[i], delimiter)
  }

  lemma {:induction false} LineIsRead(r: Reader, texts: seq<string>, cells: seq<string>, delimiter: char)
    requires (r.state == StartField || (r.state == StartRecord && texts != [""])) && r.field == "" && delimiter != QUOTE
    requires texts != [] && AllWrite(texts, cells, delimiter)
    ensures var end := Feed(r, Line(texts, delimiter), delimiter);
            end.state != InQuoted && end.state != StartRecord && end.cells + [end.field] == r.cells + cells
    decreases |texts|
  {
    assert Writes(texts[0], cells[0], delimiter);
    WrittenIsRead(r, texts[0], cells[0], delimiter);
    var first := Feed(r, texts[0], delimiter);
    if |texts| == 1 {
      assert cells == [cells[0]];
    } else {
      var rest, next := Line(texts[1..], delimiter), Saved(first, StartField);
      FeedBoth(r, texts[0], [delimiter] + rest, delimiter);
      FeedBoth(first, [delimiter], rest, delimiter);
      OneCharacter(first, delimiter, delimiter);
      LineIsRead(next, texts[1..], cells[1..], delimiter);
      assert r.cells + [cells[0]] + cells[1..] == r.cells + cells;
    }
  }

  /**
   A row that is written is read back cell by cell, whatever its cells hold: delimiters and quotation marks too,
   where the cell is quoted. Only a row of one cell that is empty and not quoted is an empty line instead.
   */
  lemma WrittenCellsAreReadBack(texts: seq<string>, cells: seq<string>, delimiter: char)
    requires delimiter != QUOTE && texts != [] && texts != [""] && AllWrite(texts, cells, delimiter)
    ensures CellsOf(Line(texts, delimiter), delimiter) == cells && !LeavesOpen(Line(texts, delimiter), delimiter)
  {
    LineIsRead(FRESH, texts, cells, delimiter);
    assert [] + cells == cells;
  }

  lemma OpenedIsRead(cell: string, delimiter: char)
    ensures Feed(FRESH, [QUOTE] + Doubled(cell), delimiter) == Reader(InQuoted, cell, [])
  {
    FeedBoth(FRESH, [QUOTE], Doubled(cell), delimiter);
    OneCharacter(FRESH, QUOTE, delimiter);
    DoubledIsRead(FRESH.(state := InQuoted), cell, delimiter);
    assert "" + cell == cell;
  }

  lemma ClosedIsRead(before: string, cell: string, delimiter: char)
    ensures Feed(Reader(InQuoted, before, []), Doubled(cell) + [QUOTE], delimiter) == Reader(AfterQuote, before + cell, [])
  {
    var r := Reader(InQuoted, before, []);
    FeedBoth(r, Doubled(cell), [QUOTE], delimiter);
    DoubledIsRead(r, cell, delimiter);
    OneCharacter(r.(field := before + cell), QUOTE, delimiter);
  }

  /** A quoted cell may go on over the end of a line, which belongs to it; the two lines are one record. */
  lemma {:induction false} CellOverTwoLines(a: string, b: string, delimiter: char)
    ensures RecordsOf([[QUOTE] + Doubled(a), Doubled(b) + [QUOTE]], delimiter) == [Record([a + "\n" + b], 0, 2)]
  {
    var first, second := [QUOTE] + Doubled(a), Doubled(b) + [QUOTE];
    var body := [first, second];
    assert second != "" && Stream(body) == body;
    OpenedIsRead(a, delimiter);
    ClosedIsRead(a + "\n", b, delimiter);
    var none, one := Progress(FRESH, 0, []), Progress(Reader(InQuoted, a + "\n", []), 0, []);
    assert FeedLine(FRESH, first, delimiter, true) == one.reader;
    assert ReadUpTo(body, delimiter, 0) == none && ReadUpTo(body, delimiter, 1) == Advanced(none, first, 0, delimiter, true);
    assert ReadUpTo(body, delimiter, 2) == Advanced(one, second, 1, delimiter, false);
    assert [] + [a + "\n" + b] == [a + "\n" + b];
  }

  /** Without quotation marks no line leaves a quotation open. */
  lemma {:induction false} PlainTextStaysOutside(r: Reader, text: string, delimiter: char)
    requires QUOTE !in text && r.state != InQuoted
    ensures Feed(r, text, delimiter).state != InQuoted
    decreases |text|
  {
    if text != "" {
      PlainTextStaysOutside(Step(r, text[0], delimiter), text[1..], delimiter);
    }
  }
}
