/**
 * Projecting flattened records onto the columns (the DataTable) and writing
 * the delimited text (the StringBuilder): a header line of column names, then
 * one line per record, cells joined by the separator, every line ended by
 * AppendLine.
 */
module Rendering {
  import opened JsonValues

  /** Environment.NewLine as StringBuilder.AppendLine writes it on Windows. */
  const NewLine: string := "\r\n"

  /** JToken.ToString() of a leaf: a JSON null renders as the empty text. */
  function RenderScalar(v: Scalar): (s: string)
    ensures v.Str? ==> s == v.s
    ensures v.Num? ==> s == v.text
    ensures v.Bool? ==> s == (if v.b then "True" else "False")
    ensures s == "" <==> v.Null? || (v.Str? && v.s == "") || (v.Num? && v.text == "")
  {
    match v
    case Str(s) => s
    case Num(text) => text
    case Bool(b) => if b then "True" else "False"
    case Null => ""
  }

  /** A DataTable: named columns and rows of cells, a missing value being None (DBNull). */
  datatype Table = Table(columns: seq<string>, rows: seq<seq<Option<string>>>)

  /** ConvertResult: the table, the delimited text and the error message, if any. */
  datatype ConvertResult = ConvertResult(data: Table, text: string, error: Option<ErrorTag>)

  /** The result of every failed conversion: no table, no text, the JSON error message. */
  function ErrorResult(): ConvertResult {
    ConvertResult(Table([], []), "", Some(JsonError))
  }

  /** `obj[p]?.ToString()`: the indexer yields null for a name the record lacks. */
  function Cell(record: seq<Field>, column: string): (c: Option<string>)
    ensures c.None? <==> column !in Keys(record)
    ensures c.Some? ==> exists v :: Get(record, column) == Some(v) && c.value == RenderScalar(v)
  {
    match Get(record, column)
    case None => None
    case Some(v) => Some(RenderScalar(v))
  }

  /** `properties.Select(p => obj[p]?.ToString()).ToArray()`. */
  function Row(record: seq<Field>, columns: seq<string>): (row: seq<Option<string>>)
    ensures |row| == |columns|
    ensures forall j :: 0 <= j < |columns| ==> row[j] == Cell(record, columns[j])
  {
    if columns == [] then [] else [Cell(record, columns[0])] + Row(record, columns[1..])
  }

  /** The rows of the table: one per record, in order. */
  function Rows(records: seq<seq<Field>>, columns: seq<string>): (rows: seq<seq<Option<string>>>)
    ensures |rows| == |records|
    ensures forall i :: 0 <= i < |records| ==> rows[i] == Row(records[i], columns)
  {
    if records == [] then [] else [Row(records[0], columns)] + Rows(records[1..], columns)
  }

  /**
   * The table is rectangular: one row per record, in order, one cell per
   * column, and a cell is empty exactly when its record lacks that column;
   * otherwise it holds the rendering of the record's value.
   */
  lemma TableShape(records: seq<seq<Field>>, columns: seq<string>, i: nat, j: nat)
    requires i < |records| && j < |columns|
    ensures |Rows(records, columns)| == |records|
    ensures |Rows(records, columns)[i]| == |columns|
    ensures Rows(records, columns)[i][j].None? <==> columns[j] !in Keys(records[i])
    ensures Rows(records, columns)[i][j].Some? ==>
              Rows(records, columns)[i][j].value == RenderScalar(Get(records[i], columns[j]).value)
  {
  }

  /** The number of characters in all the strings together. */
  function TotalLength(xs: seq<string>): nat {
    if xs == [] then 0 else |xs[0]| + TotalLength(xs[1..])
  }

  /** `string.Join(separator, values)`: the values with one separator between each two. */
  function Join(sep: char, xs: seq<string>): (s: string)
    ensures |s| == TotalLength(xs) + if xs == [] then 0 else |xs| - 1
    ensures xs != [] ==> s[..|xs[0]|] == xs[0]
    ensures |xs| > 1 ==> s[|xs[0]|] == sep
  {
    if |xs| == 0 then ""
    else if |xs| == 1 then xs[0]
    else xs[0] + [sep] + Join(sep, xs[1..])
  }

  /** string.Join writes a null value as the empty text. */
  function CellTexts(row: seq<Option<string>>): (ts: seq<string>)
    ensures |ts| == |row|
    ensures forall j :: 0 <= j < |row| ==> ts[j] == (if row[j].Some? then row[j].value else "")
  {
    if row == [] then [] else [if row[0].Some? then row[0].value else ""] + CellTexts(row[1..])
  }

  /** The lines appended for the rows so far. */
  function RowLines(sep: char, rows: seq<seq<Option<string>>>): string {
    if rows == [] then ""
    else RowLines(sep, rows[..|rows| - 1]) + Join(sep, CellTexts(rows[|rows| - 1])) + NewLine
  }

  /** The clipboard text of a table. */
  function Text(sep: char, table: Table): string {
    Join(sep, table.columns) + NewLine + RowLines(sep, table.rows)
  }

  /** The successful result for records projected onto the given columns. */
  function Converted(records: seq<seq<Field>>, columns: seq<string>, sep: char): ConvertResult {
    var table := Table(columns, Rows(records, columns));
    ConvertResult(table, Text(sep, table), None)
  }

  lemma RowLinesAppend(sep: char, rows: seq<seq<Option<string>>>, row: seq<Option<string>>)
    ensures RowLines(sep, rows + [row]) == RowLines(sep, rows) + Join(sep, CellTexts(row)) + NewLine
  {
    assert (rows + [row])[..|rows|] == rows;
  }

  lemma AppendLine(header: string, lines: string, line: string)
    ensures header + lines + line + NewLine == header + (lines + line + NewLine)
  {
  }

  /** The foreach loop that fills the DataTable and the StringBuilder. */
  method FillTable(flattened: seq<seq<Field>>, properties: seq<string>, sep: char)
    returns (table: Table, text: string)
    ensures table == Table(properties, Rows(flattened, properties))
    ensures text == Text(sep, table)
  {
    var rows: seq<seq<Option<string>>> := [];
    text := Join(sep, properties) + NewLine;
    var i := 0;
    while i < |flattened|
      invariant 0 <= i <= |flattened|
      invariant |rows| == i
      invariant forall k :: 0 <= k < i ==> rows[k] == Row(flattened[k], properties)
      invariant text == Join(sep, properties) + NewLine + RowLines(sep, rows)
    {
      var values := Row(flattened[i], properties);
      var line := Join(sep, CellTexts(values));
      ghost var header := Join(sep, properties) + NewLine;
      RowLinesAppend(sep, rows, values);
      AppendLine(header, RowLines(sep, rows), line);
      rows := rows + [values];
      text := text + line + NewLine;
      i := i + 1;
    }
    table := Table(properties, rows);
  }

  // ---- The shape of the text ----

  /** `Split(sep)`: the pieces between the separators, an empty text being one empty piece. */
  function Split(sep: char, s: string): (parts: seq<string>)
    ensures |parts| >= 1
  {
    if s == [] then [""]
    else
      var rest := Split(sep, s[1..]);
      if s[0] == sep then [""] + rest else [[s[0]] + rest[0]] + rest[1..]
  }

  lemma {:induction false} SplitWithout(sep: char, a: string, b: string)
    requires sep !in a
    ensures Split(sep, a + b)[0] == a + Split(sep, b)[0]
    ensures Split(sep, a + b)[1..] == Split(sep, b)[1..]
    decreases |a|
  {
    if a == [] {
      assert a + b == b;
    } else {
      assert (a + b)[0] == a[0] != sep;
      assert (a + b)[1..] == a[1..] + b;
      SplitWithout(sep, a[1..], b);
      assert [a[0]] + a[1..] == a;
    }
  }

  /**
   * Splitting a joined line at the separator gives the pieces back, when at
   * least one piece was joined and none contains the separator: so each line
   * holds exactly its cells, without a trailing separator.
   */
  lemma {:induction false} SplitJoin(sep: char, xs: seq<string>)
    requires |xs| >= 1
    requires forall i :: 0 <= i < |xs| ==> sep !in xs[i]
    ensures Split(sep, Join(sep, xs)) == xs
    decreases |xs|
  {
    if |xs| == 1 {
      SplitWithout(sep, xs[0], "");
      assert xs[0] + "" == xs[0];
    } else {
      var tail := Join(sep, xs[1..]);
      assert Join(sep, xs) == xs[0] + ([sep] + tail);
      SplitWithout(sep, xs[0], [sep] + tail);
      assert ([sep] + tail)[0] == sep && ([sep] + tail)[1..] == tail;
      assert Split(sep, [sep] + tail) == [""] + Split(sep, tail);
      SplitJoin(sep, xs[1..]);
      assert xs[0] + "" == xs[0];
      assert ([""] + Split(sep, tail))[1..] == Split(sep, tail);
      var parts := Split(sep, Join(sep, xs));
      assert parts == [parts[0]] + parts[1..];
      assert xs == [xs[0]] + xs[1..];
    }
  }

  /** The number of times a character occurs in a text. */
  function Count(c: char, s: string): nat {
    if s == [] then 0 else (if s[0] == c then 1 else 0) + Count(c, s[1..])
  }

  lemma {:induction false} CountConcat(c: char, a: string, b: string)
    ensures Count(c, a + b) == Count(c, a) + Count(c, b)
    decreases |a|
  {
    if a == [] {
      assert a + b == b;
    } else {
      assert (a + b)[0] == a[0];
      assert (a + b)[1..] == a[1..] + b;
      CountConcat(c, a[1..], b);
    }
  }

  lemma {:induction false} CountAbsent(c: char, s: string)
    requires c !in s
    ensures Count(c, s) == 0
    decreases |s|
  {
    if s != [] {
      CountAbsent(c, s[1..]);
    }
  }

  lemma {:induction false} JoinWithout(c: char, sep: char, xs: seq<string>)
    requires c != sep
    requires forall i :: 0 <= i < |xs| ==> c !in xs[i]
    ensures c !in Join(sep, xs)
    decreases |xs|
  {
    if |xs| > 1 {
      JoinWithout(c, sep, xs[1..]);
    }
  }

  /** No cell text of the table contains the character. */
  ghost predicate CellsWithout(c: char, table: Table) {
    && (forall j :: 0 <= j < |table.columns| ==> c !in table.columns[j])
    && (forall i, j :: 0 <= i < |table.rows| && 0 <= j < |table.rows[i]| && table.rows[i][j].Some? ==>
          c !in table.rows[i][j].value)
  }

  lemma {:induction false} RowLinesCount(sep: char, table: Table, n: nat)
    requires sep != '\n' && CellsWithout('\n', table)
    requires n <= |table.rows|
    ensures Count('\n', RowLines(sep, table.rows[..n])) == n
    decreases n
  {
    if n > 0 {
      var rows := table.rows[..n];
      assert rows[..n - 1] == table.rows[..n - 1];
      RowLinesCount(sep, table, n - 1);
      var cells := CellTexts(rows[n - 1]);
      JoinWithout('\n', sep, cells);
      CountAbsent('\n', Join(sep, cells));
      CountConcat('\n', RowLines(sep, rows[..n - 1]), Join(sep, cells));
      CountConcat('\n', RowLines(sep, rows[..n - 1]) + Join(sep, cells), NewLine);
    }
  }

  /**
   * When no column name or cell contains a line feed, the text has exactly
   * one line per row plus the header line, each ended by the line terminator.
   */
  lemma TextLineCount(sep: char, table: Table)
    requires sep != '\n' && CellsWithout('\n', table)
    ensures Count('\n', Text(sep, table)) == |table.rows| + 1
    ensures Text(sep, table)[|Text(sep, table)| - |NewLine|..] == NewLine
  {
    RowLinesCount(sep, table, |table.rows|);
    assert table.rows[..|table.rows|] == table.rows;
    JoinWithout('\n', sep, table.columns);
    CountAbsent('\n', Join(sep, table.columns));
    CountConcat('\n', Join(sep, table.columns), NewLine);
    CountConcat('\n', Join(sep, table.columns) + NewLine, RowLines(sep, table.rows));
  }

  /** The header line is the column names joined by the separator, then the terminator. */
  lemma HeaderLine(sep: char, table: Table)
    requires |table.columns| >= 1
    requires forall j :: 0 <= j < |table.columns| ==> sep !in table.columns[j]
    ensures var h := Text(sep, table)[..|Join(sep, table.columns)|];
            Split(sep, h) == table.columns
            && Text(sep, table)[|h|..|h| + |NewLine|] == NewLine
  {
    SplitJoin(sep, table.columns);
    var h := Join(sep, table.columns);
    assert Text(sep, table) == h + (NewLine + RowLines(sep, table.rows));
    assert Text(sep, table)[..|h|] == h;
  }
}
