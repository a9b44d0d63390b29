/**
  The CSV export (analytics.shared.ts): separator `;`, line break `\n`, and the
  quoting rules 5 to 7 of section 2 of RFC 4180.
 */
module Csv {
  import opened Prelude
  import Text

  /** A heading and how to read a row's value; None is null. Numbers are their printed text. */
  datatype Column<!T> = Column(header: string, value: T -> Option<string>)

  predicate NeedsQuotes(text: string) { '\"' in text || ';' in text || '\n' in text }

  function DoubleQuotes(text: string): string {
    if text == "" then ""
    else (if text[0] == '\"' then "\"\"" else [text[0]]) + DoubleQuotes(text[1..])
  }

  function TextOf(value: Option<string>): string { if value == None then "" else value.value }

  function Escape(value: Option<string>): string {
    var text := TextOf(value);
    if NeedsQuotes(text) then "\"" + DoubleQuotes(text) + "\"" else text
  }

  const BOM: string := "\U{FEFF}"

  // --- a reader -------------------------------------------------------------------------------

  predicate AtEnd(s: string) { s == "" || s[0] == ';' || s[0] == '\n' }

  /** An unquoted cell, up to a separator. */
  function ReadBare(s: string): (r: (string, string))
    ensures |r.1| <= |s|
  {
    if AtEnd(s) then ("", s)
    else
      var r := ReadBare(s[1..]);
      ([s[0]] + r.0, r.1)
  }

  /** The rest of a quoted cell, up to a quote that is not doubled. */
  function ReadQuoted(s: string): (r: (string, string))
    ensures |r.1| <= |s|
    decreases |s|
  {
    if s == "" then ("", "")
    else if s[0] != '\"' then
      var r := ReadQuoted(s[1..]);
      ([s[0]] + r.0, r.1)
    else if |s| > 1 && s[1] == '\"' then
      var r := ReadQuoted(s[2..]);
      ("\"" + r.0, r.1)
    else ("", s[1..])
  }

  function ReadCell(s: string): (r: (string, string))
    ensures |r.1| <= |s|
  {
    if s != "" && s[0] == '\"' then ReadQuoted(s[1..]) else ReadBare(s)
  }

  function ReadRecord(s: string): (r: (seq<string>, string))
    ensures |r.1| <= |s| && |r.0| >= 1
    decreases |s|
  {
    var cell := ReadCell(s);
    if cell.1 != "" && cell.1[0] == ';' then
      var rest := ReadRecord(cell.1[1..]);
      ([cell.0] + rest.0, rest.1)
    else ([cell.0], cell.1)
  }

  /** The records of a file; None when something follows a closing quote. */
  function ReadRecords(s: string): (r: Option<seq<seq<string>>>)
    ensures r != None ==> |r.value| >= 1 && |r.value[0]| >= 1
    decreases |s|
  {
    var record := ReadRecord(s);
    if record.1 == "" then Some([record.0])
    else if record.1[0] == '\n' then
      var rest := ReadRecords(record.1[1..]);
      if rest == None then None else Some([record.0] + rest.value)
    else None
  }

  function Read(csv: string): Option<seq<seq<string>>> {
    if BOM <= csv then ReadRecords(csv[1..]) else None
  }

  // --- the round trip ----------------------------------------------------------------------------

  lemma {:induction false} ReadBareInverts(text: string, rest: string)
    requires !NeedsQuotes(text) && AtEnd(rest)
    ensures ReadBare(text + rest) == (text, rest)
  {
    if text == "" {
      assert text + rest == rest;
    } else {
      assert text[0] in text;
      assert forall c :: c in text[1..] ==> c in text;
      ReadBareInverts(text[1..], rest);
      assert (text + rest)[1..] == text[1..] + rest;
      assert [text[0]] + text[1..] == text;
    }
  }

  lemma {:induction false} ReadQuotedInverts(text: string, rest: string)
    requires AtEnd(rest)
    ensures ReadQuoted(DoubleQuotes(text) + "\"" + rest) == (text, rest)
  {
    var s := DoubleQuotes(text) + "\"" + rest;
    if text == "" {
      assert s == "\"" + rest;
      assert s[1..] == rest;
    } else {
      ReadQuotedInverts(text[1..], rest);
      var tail := DoubleQuotes(text[1..]) + "\"" + rest;
      if text[0] == '\"' {
        assert s == "\"\"" + tail;
        assert s[2..] == tail;
      } else {
        assert s == [text[0]] + tail;
        assert s[1..] == tail;
      }
      assert text == [text[0]] + text[1..];
    }
  }

  lemma ReadBareCell(text: string, rest: string)
    requires !NeedsQuotes(text) && AtEnd(rest)
    ensures ReadCell(text + rest) == (text, rest)
  {
    ReadBareInverts(text, rest);
    if text == "" {
      assert text + rest == rest;
    } else {
      assert text[0] in text;
    }
  }

  lemma ReadQuotedCell(text: string, rest: string)
    requires AtEnd(rest)
    ensures ReadCell("\"" + DoubleQuotes(text) + "\"" + rest) == (text, rest)
  {
    hide ReadQuoted, ReadBare, DoubleQuotes;
    ReadQuotedInverts(text, rest);
    assert ("\"" + DoubleQuotes(text) + "\"" + rest)[1..] == DoubleQuotes(text) + "\"" + rest;
  }

  /** One printed cell, followed by a separator or the end, reads back as its text. */
  lemma ReadCellInverts(value: Option<string>, rest: string)
    requires AtEnd(rest)
    ensures ReadCell(Escape(value) + rest) == (TextOf(value), rest)
  {
    hide ReadCell, NeedsQuotes, DoubleQuotes;
    if NeedsQuotes(TextOf(value)) {
      ReadQuotedCell(TextOf(value), rest);
    } else {
      ReadBareCell(TextOf(value), rest);
    }
  }

  function Escapes(cells: seq<Option<string>>): seq<string> {
    seq(|cells|, j requires 0 <= j < |cells| => Escape(cells[j]))
  }

  function Texts(cells: seq<Option<string>>): seq<string> {
    seq(|cells|, j requires 0 <= j < |cells| => TextOf(cells[j]))
  }

  function PrintRecord(cells: seq<Option<string>>): string { Text.Join(Escapes(cells), ";") }

  function Lines(table: seq<seq<Option<string>>>): seq<string> {
    seq(|table|, i requires 0 <= i < |table| => PrintRecord(table[i]))
  }

  function PrintRecords(table: seq<seq<Option<string>>>): string { Text.Join(Lines(table), "\n") }

  function TextTable(table: seq<seq<Option<string>>>): seq<seq<string>> {
    seq(|table|, i requires 0 <= i < |table| => Texts(table[i]))
  }

  lemma {:induction false} ReadRecordInverts(cells: seq<Option<string>>, rest: string)
    requires |cells| >= 1 && (rest == "" || rest[0] == '\n')
    ensures ReadRecord(PrintRecord(cells) + rest) == (Texts(cells), rest)
  {
    hide Escape, ReadCell;
    if |cells| == 1 {
      ReadCellInverts(cells[0], rest);
      assert PrintRecord(cells) == Escape(cells[0]);
      assert Texts(cells) == [TextOf(cells[0])];
    } else {
      var more := PrintRecord(cells[1..]) + rest;
      assert Escapes(cells)[1..] == Escapes(cells[1..]);
      assert PrintRecord(cells) + rest == Escape(cells[0]) + (";" + more);
      ReadCellInverts(cells[0], ";" + more);
      assert (";" + more)[1..] == more;
      ReadRecordInverts(cells[1..], rest);
      assert Texts(cells) == [TextOf(cells[0])] + Texts(cells[1..]);
    }
  }

  lemma {:induction false} ReadRecordsInverts(table: seq<seq<Option<string>>>)
    requires |table| >= 1 && forall i :: 0 <= i < |table| ==> |table[i]| >= 1
    ensures ReadRecords(PrintRecords(table)) == Some(TextTable(table))
  {
    hide PrintRecord, ReadRecord, Texts;
    if |table| == 1 {
      ReadRecordInverts(table[0], "");
      assert PrintRecords(table) + "" == PrintRecord(table[0]) + "" == PrintRecords(table);
      assert TextTable(table) == [Texts(table[0])];
    } else {
      var more := PrintRecords(table[1..]);
      assert Lines(table)[1..] == Lines(table[1..]);
      assert PrintRecords(table) == PrintRecord(table[0]) + ("\n" + more);
      ReadRecordInverts(table[0], "\n" + more);
      assert ("\n" + more)[1..] == more;
      ReadRecordsInverts(table[1..]);
      assert TextTable(table) == [Texts(table[0])] + TextTable(table[1..]);
    }
  }

  // --- toCsv -----------------------------------------------------------------------------------

  function Headings<T>(columns: seq<Column<T>>): seq<Option<string>> {
    seq(|columns|, j requires 0 <= j < |columns| => Some(columns[j].header))
  }

  function CellsOf<T>(row: T, columns: seq<Column<T>>): seq<Option<string>> {
    seq(|columns|, j requires 0 <= j < |columns| => columns[j].value(row))
  }

  /** The exported cells: the headings, then a record a row. */
  function Cells<T>(rows: seq<T>, columns: seq<Column<T>>): (table: seq<seq<Option<string>>>)
    ensures |table| == |rows| + 1 && forall i :: 0 <= i < |table| ==> |table[i]| == |columns|
  {
    [Headings(columns)] + seq(|rows|, i requires 0 <= i < |rows| => CellsOf(rows[i], columns))
  }

  /** A reader finds the headings first, and under heading `j` of record `i + 1` what column `j` says of row `i`. */
  ghost predicate ReadsAs<T>(read: Option<seq<seq<string>>>, rows: seq<T>, columns: seq<Column<T>>) {
    && read.Some? && |read.value| == |rows| + 1
    && (forall i :: 0 <= i < |read.value| ==> |read.value[i]| == |columns|)
    && (forall j :: 0 <= j < |columns| ==> read.value[0][j] == columns[j].header)
    && forall i, j :: 0 <= i < |rows| && 0 <= j < |columns| ==>
      read.value[i + 1][j] == match columns[j].value(rows[i]) case None => "" case Some(text) => text
  }

  lemma CellsReadAs<T>(rows: seq<T>, columns: seq<Column<T>>)
    ensures ReadsAs(Some(TextTable(Cells(rows, columns))), rows, columns)
  {
    var read := TextTable(Cells(rows, columns));
    forall i, j | 0 <= i < |rows| && 0 <= j < |columns|
      ensures read[i + 1][j] == TextOf(columns[j].value(rows[i]))
    {
      assert read[i + 1] == Texts(CellsOf(rows[i], columns));
    }
  }

  method ToCsv<T>(rows: seq<T>, columns: seq<Column<T>>) returns (csv: string)
    ensures csv == BOM + PrintRecords(Cells(rows, columns))
    ensures Read(csv) == Some(TextTable(Cells(rows, columns))) <==> columns != []
    ensures columns != [] ==> ReadsAs(Read(csv), rows, columns)
  {
    hide PrintRecord, Headings, CellsOf, Read, TextTable, ReadsAs;
    var lines := [PrintRecord(Headings(columns))];
    for i := 0 to |rows|
      invariant |lines| == i + 1
      invariant forall j :: 0 <= j <= i ==> lines[j] == PrintRecord(Cells(rows, columns)[j])
    {
      lines := lines + [PrintRecord(CellsOf(rows[i], columns))];
    }
    assert lines == Lines(Cells(rows, columns));
    csv := BOM + Text.Join(lines, "\n");
    ReadsBackExactlyWhen(Cells(rows, columns), |columns|);
    CellsReadAs(rows, columns);
  }

  /** Every cell text comes back exactly when there is a column to carry it. */
  lemma ReadsBackExactlyWhen(table: seq<seq<Option<string>>>, width: nat)
    requires |table| >= 1 && forall i :: 0 <= i < |table| ==> |table[i]| == width
    ensures Read(BOM + PrintRecords(table)) == Some(TextTable(table)) <==> width != 0
  {
    hide PrintRecords;
    assert (BOM + PrintRecords(table))[1..] == PrintRecords(table);
    if width != 0 {
      ReadRecordsInverts(table);
    } else {
      assert |TextTable(table)[0]| == 0;
    }
  }

  /** Two tables with the same export have the same cell texts. */
  lemma PrinterInjective(s: seq<seq<Option<string>>>, t: seq<seq<Option<string>>>)
    requires |s| >= 1 && forall i :: 0 <= i < |s| ==> |s[i]| >= 1
    requires |t| >= 1 && forall i :: 0 <= i < |t| ==> |t[i]| >= 1
    requires PrintRecords(s) == PrintRecords(t)
    ensures TextTable(s) == TextTable(t)
  {
    hide PrintRecords, TextTable;
    ReadRecordsInverts(s);
    ReadRecordsInverts(t);
  }
}
