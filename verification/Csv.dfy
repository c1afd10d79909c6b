/**
 CSV export with formula neutralisation, against an independent reader for the format of section 2 of
 RFC 4180.
 */
module Csv {
  import opened Outcomes
  import opened Text

  // ---------------------------------------------------------------- the writer

  predicate Control(c: char) {
    c as int <= 0x1F || 0x7F <= c as int <= 0x9F
  }

  predicate Ignorable(c: char) {
    Whitespace(c) || Control(c) || c as int == 0xFEFF
  }

  function TrimStart(s: string): string {
    if s != [] && Ignorable(s[0]) then TrimStart(s[1..]) else s
  }

  predicate StartsWithAny(s: string, chars: string) {
    s != [] && s[0] in chars
  }

  predicate Dangerous(value: string) {
    StartsWithAny(TrimStart(value), "=+-@") || StartsWithAny(value, "\t\r\n")
  }

  function Doubled(c: char): string {
    if c == '"' then "\"\"" else [c]
  }

  function DoubleQuotes(s: string): string {
    if s == [] then [] else Doubled(s[0]) + DoubleQuotes(s[1..])
  }

  function CsvCell(value: string): string {
    "\"" + (if Dangerous(value) then "'" else "") + DoubleQuotes(value) + "\""
  }

  function Join(parts: seq<string>, separator: string): string {
    if parts == [] then [] else if |parts| == 1 then parts[0] else parts[0] + separator + Join(parts[1..], separator)
  }

  function Cells(row: seq<string>): seq<string> {
    seq(|row|, i requires 0 <= i < |row| => CsvCell(row[i]))
  }

  function Lines(rows: seq<seq<string>>): seq<string> {
    seq(|rows|, i requires 0 <= i < |rows| => Join(Cells(rows[i]), ","))
  }

  function RenderCsv(columns: seq<string>, rows: seq<seq<string>>): string {
    Join(Lines([columns] + rows), "\r\n") + "\r\n"
  }

  // ---------------------------------------------------------------- the reader

  /** A value read from the front of a text, and the text after it. */
  datatype Read<T> = Read(value: T, rest: string)

  /** The inside of a quoted field: two quotes stand for one, a lone quote ends it. */
  function ReadQuoted(s: string): (r: Option<Read<string>>)
    ensures r.Some? ==> |r.value.rest| <= |s|
  {
    if s == [] then None
    else if s[0] == '"' && !("\"\"" <= s) then Some(Read([], s[1..]))
    else
      match ReadQuoted(if s[0] == '"' then s[2..] else s[1..])
      case None => None
      case Some(more) => Some(Read([s[0]] + more.value, more.rest))
  }

  /** Plain text up to a comma, a quote or a line break. */
  function ReadPlain(s: string): (r: Read<string>)
    ensures |r.rest| <= |s|
  {
    if s == [] || s[0] in ",\"\r\n" then Read([], s)
    else Read([s[0]] + ReadPlain(s[1..]).value, ReadPlain(s[1..]).rest)
  }

  function ReadField(s: string): (r: Option<Read<string>>)
    ensures r.Some? ==> |r.value.rest| <= |s|
  {
    if "\"" <= s then ReadQuoted(s[1..]) else Some(ReadPlain(s))
  }

  function ReadRecord(s: string): (r: Option<Read<seq<string>>>)
    ensures r.Some? ==> |r.value.rest| <= |s|
    decreases |s|
  {
    match ReadField(s)
    case None => None
    case Some(field) =>
      if !("," <= field.rest) then Some(Read([field.value], field.rest))
      else
        match ReadRecord(field.rest[1..])
        case None => None
        case Some(more) => Some(Read([field.value] + more.value, more.rest))
  }

  /** Records separated by CRLF; a CRLF at the very end closes the last record. */
  function ReadFile(s: string): Option<seq<seq<string>>>
    decreases |s|
  {
    match ReadRecord(s)
    case None => None
    case Some(record) =>
      if record.rest == "" || record.rest == "\r\n" then Some([record.value])
      else if !("\r\n" <= record.rest) then None
      else
        match ReadFile(record.rest[2..])
        case None => None
        case Some(more) => Some([record.value] + more)
  }

  // ---------------------------------------------------------------- what a reader gets back

  function Neutralised(value: string): string {
    if Dangerous(value) then "'" + value else value
  }

  function NeutralisedRow(row: seq<string>): seq<string> {
    seq(|row|, i requires 0 <= i < |row| => Neutralised(row[i]))
  }

  /** A row without columns is an empty line, which reads as one empty field. */
  function AsRead(row: seq<string>): seq<string> {
    if row == [] then [""] else NeutralisedRow(row)
  }

  function AllAsRead(rows: seq<seq<string>>): seq<seq<string>> {
    seq(|rows|, i requires 0 <= i < |rows| => AsRead(rows[i]))
  }

  /** One character of a quoted field: a doubled quote, or any other character as it is. */
  lemma QuotedStep(c: char, tail: string)
    requires ReadQuoted(tail).Some?
    ensures ReadQuoted(Doubled(c) + tail) == Some(Read([c] + ReadQuoted(tail).value.value, ReadQuoted(tail).value.rest))
  {
    var text := Doubled(c) + tail;
    if c == '"' {
      assert text[2..] == tail && text[..2] == "\"\"";
    } else {
      assert text[1..] == tail;
    }
  }

  lemma AppendGroups(a: string, b: string, c: string)
    ensures (a + b) + c == a + (b + c)
  {
  }

  lemma {:induction false} QuotedReadsBack(s: string, rest: string)
    requires !("\"" <= rest)
    ensures ReadQuoted(DoubleQuotes(s) + ("\"" + rest)) == Some(Read(s, rest))
  {
    if s == [] {
      assert (DoubleQuotes(s) + ("\"" + rest))[1..] == rest;
    } else {
      QuotedReadsBack(s[1..], rest);
      QuotedStep(s[0], DoubleQuotes(s[1..]) + ("\"" + rest));
      AppendGroups(Doubled(s[0]), DoubleQuotes(s[1..]), "\"" + rest);
      assert s == [s[0]] + s[1..];
    }
  }

  lemma CellUnfolds(value: string, rest: string)
    ensures CsvCell(value) + rest == "\"" + (DoubleQuotes(Neutralised(value)) + ("\"" + rest))
  {
    var text := DoubleQuotes(Neutralised(value));
    assert ("'" + value)[1..] == value;
    assert CsvCell(value) == "\"" + text + "\"";
    AppendGroups("\"" + text, "\"", rest);
    AppendGroups("\"", text, "\"" + rest);
  }

  lemma CellReadsBack(value: string, rest: string)
    requires !("\"" <= rest)
    ensures ReadField(CsvCell(value) + rest) == Some(Read(Neutralised(value), rest))
  {
    CellUnfolds(value, rest);
    QuotedReadsBack(Neutralised(value), rest);
    var inside := DoubleQuotes(Neutralised(value)) + ("\"" + rest);
    assert ("\"" + inside)[1..] == inside;
  }

  /** A row is its first cell, and if more follow, a comma and the row of those. */
  lemma RowUnfolds(row: seq<string>)
    requires row != []
    ensures Join(Cells(row), ",") ==
      if |row| == 1 then CsvCell(row[0])
      else CsvCell(row[0]) + ("," + Join(Cells(row[1..]), ","))
  {
    assert Cells(row)[1..] == Cells(row[1..]);
  }

  lemma AsReadUnfolds(row: seq<string>)
    requires row != []
    ensures AsRead(row) == if |row| == 1 then [Neutralised(row[0])] else [Neutralised(row[0])] + AsRead(row[1..])
  {
  }

  lemma LastField(s: string, value: string, rest: string)
    requires ReadField(s) == Some(Read(value, rest)) && !("," <= rest)
    ensures ReadRecord(s) == Some(Read([value], rest))
  {
  }

  lemma MoreFields(s: string, value: string, tail: string, more: Read<seq<string>>)
    requires ReadField(s) == Some(Read(value, "," + tail)) && ReadRecord(tail) == Some(more)
    ensures ReadRecord(s) == Some(Read([value] + more.value, more.rest))
  {
    assert ("," + tail)[1..] == tail;
  }

  lemma OnlyCellReadsBack(row: seq<string>, rest: string)
    requires |row| == 1 && "\r\n" <= rest
    ensures ReadRecord(Join(Cells(row), ",") + rest) == Some(Read(AsRead(row), rest))
  {
    assert rest[0] == '\r';
    RowUnfolds(row);
    AsReadUnfolds(row);
    CellReadsBack(row[0], rest);
    LastField(CsvCell(row[0]) + rest, Neutralised(row[0]), rest);
  }

  lemma CellThenMore(value: string, tail: string, more: Read<seq<string>>)
    requires ReadRecord(tail) == Some(more)
    ensures ReadRecord(CsvCell(value) + ("," + tail)) == Some(Read([Neutralised(value)] + more.value, more.rest))
  {
    assert ("," + tail)[0] == ',';
    CellReadsBack(value, "," + tail);
    MoreFields(CsvCell(value) + ("," + tail), Neutralised(value), tail, more);
  }

  lemma FirstCellReadsBack(row: seq<string>, rest: string, tail: string)
    requires |row| > 1 && tail == Join(Cells(row[1..]), ",") + rest
    requires ReadRecord(tail) == Some(Read(AsRead(row[1..]), rest))
    ensures ReadRecord(Join(Cells(row), ",") + rest) == Some(Read(AsRead(row), rest))
  {
    RowUnfolds(row);
    AsReadUnfolds(row);
    AppendGroups(CsvCell(row[0]), "," + Join(Cells(row[1..]), ","), rest);
    AppendGroups(",", Join(Cells(row[1..]), ","), rest);
    CellThenMore(row[0], tail, Read(AsRead(row[1..]), rest));
  }

  lemma {:induction false} RowReadsBack(row: seq<string>, rest: string)
    requires "\r\n" <= rest
    ensures ReadRecord(Join(Cells(row), ",") + rest) == Some(Read(AsRead(row), rest))
    decreases |row|
  {
    if row == [] {
      assert Join(Cells(row), ",") + rest == rest && rest[0] == '\r';
      LastField(rest, "", rest);
    } else if |row| == 1 {
      OnlyCellReadsBack(row, rest);
    } else {
      RowReadsBack(row[1..], rest);
      FirstCellReadsBack(row, rest, Join(Cells(row[1..]), ",") + rest);
    }
  }

  lemma LastRecord(s: string, record: seq<string>)
    requires ReadRecord(s) == Some(Read(record, "\r\n"))
    ensures ReadFile(s) == Some([record])
  {
  }

  lemma MoreRecords(s: string, record: seq<string>, tail: string, more: seq<seq<string>>)
    requires ReadRecord(s) == Some(Read(record, "\r\n" + tail)) && tail != "" && ReadFile(tail) == Some(more)
    ensures ReadFile(s) == Some([record] + more)
  {
    assert ("\r\n" + tail)[2..] == tail && |"\r\n" + tail| > 2;
  }

  /** The text of the file: the first line, and if more follow, CRLF and the file of those. */
  lemma FileUnfolds(rows: seq<seq<string>>)
    requires rows != []
    ensures Join(Lines(rows), "\r\n") + "\r\n" == Join(Cells(rows[0]), ",") +
      (if |rows| == 1 then "\r\n" else "\r\n" + (Join(Lines(rows[1..]), "\r\n") + "\r\n"))
    ensures AllAsRead(rows) == if |rows| == 1 then [AsRead(rows[0])] else [AsRead(rows[0])] + AllAsRead(rows[1..])
  {
    assert Lines(rows)[1..] == Lines(rows[1..]);
  }

  lemma {:induction false} FileReadsBack(rows: seq<seq<string>>)
    requires rows != []
    ensures ReadFile(Join(Lines(rows), "\r\n") + "\r\n") == Some(AllAsRead(rows))
    decreases |rows|
  {
    FileUnfolds(rows);
    var line := Join(Cells(rows[0]), ",");
    if |rows| == 1 {
      RowReadsBack(rows[0], "\r\n");
      LastRecord(line + "\r\n", AsRead(rows[0]));
    } else {
      var tail := Join(Lines(rows[1..]), "\r\n") + "\r\n";
      RowReadsBack(rows[0], "\r\n" + tail);
      FileReadsBack(rows[1..]);
      MoreRecords(line + ("\r\n" + tail), AsRead(rows[0]), tail, AllAsRead(rows[1..]));
    }
  }

  /**
   Reading an export gives the same table, cells neutralised and nothing else changed, exactly when
   every row has a column.
   */
  lemma ExportReadsBack(columns: seq<string>, rows: seq<seq<string>>)
    ensures var table := [columns] + rows;
      && ReadFile(RenderCsv(columns, rows)) == Some(AllAsRead(table))
      && (ReadFile(RenderCsv(columns, rows))
            == Some(seq(|table|, i requires 0 <= i < |table| => NeutralisedRow(table[i])))
          <==> forall i :: 0 <= i < |table| ==> table[i] != [])
  {
    var table := [columns] + rows;
    FileReadsBack(table);
    var wanted := seq(|table|, i requires 0 <= i < |table| => NeutralisedRow(table[i]));
    if forall i :: 0 <= i < |table| ==> table[i] != [] {
      assert AllAsRead(table) == wanted;
    }
    if AllAsRead(table) == wanted {
      forall i | 0 <= i < |table| ensures table[i] != [] {
        assert |AllAsRead(table)[i]| == |wanted[i]|;
      }
    }
  }

  // ---------------------------------------------------------------- what neutralising means

  /** Control characters, white space and the byte order mark, by number. */
  predicate Skipped(n: int) {
    || 0 <= n <= 32 || 127 <= n <= 160 || n == 5760 || 8192 <= n <= 8202 || n == 8232 || n == 8233 || n == 8239
    || n == 8287 || n == 12288 || n == 65279
  }

  /** The first character a spreadsheet does not skip starts a formula. */
  ghost predicate FormulaAt(value: string, k: nat) {
    && k < |value| && (value[k] == '=' || value[k] == '+' || value[k] == '-' || value[k] == '@')
    && forall j :: 0 <= j < k ==> Skipped(value[j] as int)
  }

  lemma {:induction false} TrimFindsFormula(value: string)
    ensures StartsWithAny(TrimStart(value), "=+-@") <==> exists k :: FormulaAt(value, k)
  {
    if value != [] && Ignorable(value[0]) {
      TrimFindsFormula(value[1..]);
      if k: nat :| FormulaAt(value[1..], k) {
        assert FormulaAt(value, k + 1);
      }
      forall k: nat | FormulaAt(value, k) ensures k > 0 && FormulaAt(value[1..], k - 1) {
      }
    } else if value != [] {
      if value[0] in "=+-@" {
        assert FormulaAt(value, 0);
      }
      forall k: nat | FormulaAt(value, k) ensures k == 0 {
      }
    }
  }

  /**
   A cell gains its one apostrophe exactly when a formula character is the first thing left after
   skipping blanks and controls, or when it starts with a tab or line break; and no cell stays so.
   */
  lemma NeutralisedIffDangerous(value: string)
    ensures Neutralised(value) != value <==>
      (exists k :: FormulaAt(value, k)) || (value != [] && (value[0] == '\t' || value[0] == '\r' || value[0] == '\n'))
    ensures Neutralised(value) != value ==> Neutralised(value) == "'" + value
    ensures !StartsWithAny(Neutralised(value), "\t\r\n") && forall k :: !FormulaAt(Neutralised(value), k)
  {
    TrimFindsFormula(value);
    TrimFindsFormula(Neutralised(value));
    if Dangerous(value) {
      assert |Neutralised(value)| == |value| + 1;
    }
  }
}
