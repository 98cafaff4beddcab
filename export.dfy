/** `ExportCsvAsync` of both exporters: the header line of column names,
    then one line per row of escaped cells, written through a stream writer
    whose line terminator is a parameter ("\n" in the inventory exporter,
    the platform default in the purchases exporter). */
module Export {
  import opened Wrappers
  import opened Csv

  /** A value the SQL reader hands over: a null reference, `DBNull`, or a
      value already rendered as text by the exporter's `ToString`
      (invariant culture in the inventory exporter, the current culture in
      the purchases exporter, where a decimal may come out as `12,5` and
      then be quoted). */
  datatype DbValue = Null | DbNull | Value(text: string)

  /** `FormatValue`: null and `DBNull` are written as "", any other value
      as its rendering. The purchases exporter's
      `IsDBNull(i) ? "" : GetValue(i).ToString() ?? ""` maps cells the same
      way. */
  function FormatValue(v: DbValue): (r: string)
    ensures v.Null? || v.DbNull? ==> r == ""
    ensures v.Value? ==> r == v.text
  {
    match v
    case Value(t) => t
    case _ => ""
  }

  /** The cells of a row as text. */
  function Cells(row: seq<DbValue>): (r: seq<string>)
    ensures |r| == |row|
    ensures forall i :: 0 <= i < |row| ==> r[i] == FormatValue(row[i])
  {
    seq(|row|, i requires 0 <= i < |row| => FormatValue(row[i]))
  }

  /** The data lines of the rows, each with its terminator. */
  function Body(rows: seq<seq<DbValue>>, nl: string): string
    decreases |rows|
  {
    if rows == [] then ""
    else Body(rows[..|rows| - 1], nl) + DataLine(Cells(rows[|rows| - 1])) + nl
  }

  /** The whole file: the header line, then the data lines. */
  function Document(names: seq<string>, rows: seq<seq<DbValue>>, nl: string): string {
    HeaderLine(names) + nl + Body(rows, nl)
  }

  /** The text written so far through a `StreamWriter`. */
  class Writer {
    var text: string
    const newLine: string

    constructor (newLine: string)
      ensures text == [] && this.newLine == newLine
    {
      text := [];
      this.newLine := newLine;
    }

    method Write(s: string)
      modifies this
      ensures text == old(text) + s
    {
      text := text + s;
    }

    method WriteLine()
      modifies this
      ensures text == old(text) + newLine
    {
      text := text + newLine;
    }
  }

  lemma JoinSnoc(xs: seq<string>, x: string)
    ensures Join(xs + [x]) == Join(xs) + (if xs == [] then "" else ",") + x
  {
    assert (xs + [x])[..|xs|] == xs;
  }

  /** One more cell of a row. */
  lemma RowStep(row: seq<DbValue>, i: nat)
    requires i < |row|
    ensures DataLine(Cells(row[..i + 1])) ==
              DataLine(Cells(row[..i])) + (if i == 0 then "" else ",") + Escape(FormatValue(row[i]))
  {
    assert Cells(row[..i + 1]) == Cells(row[..i]) + [FormatValue(row[i])];
    assert Escapes(Cells(row[..i + 1])) == Escapes(Cells(row[..i])) + [Escape(FormatValue(row[i]))];
    JoinSnoc(Escapes(Cells(row[..i])), Escape(FormatValue(row[i])));
  }

  /** The header loop: the names, a comma before all but the first,
      unescaped, then the terminator. */
  method WriteHeader(w: Writer, names: seq<string>)
    modifies w
    ensures w.text == old(w.text) + HeaderLine(names) + w.newLine
  {
    for i := 0 to |names|
      invariant w.text == old(w.text) + HeaderLine(names[..i])
    {
      if i > 0 {
        w.Write(",");
      }
      w.Write(names[i]);
      assert names[..i + 1] == names[..i] + [names[i]];
      JoinSnoc(names[..i], names[i]);
    }
    assert names[..|names|] == names;
    w.WriteLine();
  }

  /** The cell loop of one row: each cell formatted and escaped, a comma
      before all but the first, then the terminator. */
  method WriteRow(w: Writer, row: seq<DbValue>)
    modifies w
    ensures w.text == old(w.text) + DataLine(Cells(row)) + w.newLine
  {
    for i := 0 to |row|
      invariant w.text == old(w.text) + DataLine(Cells(row[..i]))
    {
      ghost var before := w.text;
      var sep := if i > 0 then "," else "";
      var cell := Escape(FormatValue(row[i]));
      if i > 0 {
        w.Write(",");
      }
      w.Write(cell);
      assert w.text == before + sep + cell;
      assert w.text == old(w.text) + DataLine(Cells(row[..i + 1])) by {
        RowStep(row, i);
      }
    }
    assert row[..|row|] == row;
    w.WriteLine();
  }

  /** One row of the data loop: the row's line and terminator follow the
      lines already written. */
  method WriteNextRow(w: Writer, ghost start: string, rows: seq<seq<DbValue>>, k: nat)
    requires k < |rows|
    requires w.text == start + Body(rows[..k], w.newLine)
    modifies w
    ensures w.text == start + Body(rows[..k + 1], w.newLine)
  {
    WriteRow(w, rows[k]);
    DocumentRow([], rows, w.newLine, k);
  }

  /** `ExportCsvAsync` on the reader's column names and rows: the writer
      ends up holding exactly `Document`. */
  method ExportCsv(w: Writer, names: seq<string>, rows: seq<seq<DbValue>>)
    modifies w
    ensures w.text == old(w.text) + Document(names, rows, w.newLine)
  {
    WriteHeader(w, names);
    ghost var start := w.text;
    assert start == old(w.text) + HeaderLine(names) + w.newLine + Body(rows[..0], w.newLine);
    for k := 0 to |rows|
      invariant w.text == start + Body(rows[..k], w.newLine)
    {
      WriteNextRow(w, start, rows, k);
    }
    assert rows[..|rows|] == rows;
  }

  /** The file both exporters produce: a fresh writer with the given
      terminator, filled by the loops. The reader hands over `FieldCount`
      values per row; for such rows every data line reads back as one
      field per column. */
  method ExportFile(nl: string, names: seq<string>, rows: seq<seq<DbValue>>) returns (text: string)
    ensures text == Document(names, rows, nl)
    ensures names != [] && (forall k :: 0 <= k < |rows| ==> |rows[k]| == |names|) ==>
              forall k :: 0 <= k < |rows| ==>
                |Cells(rows[k])| == |names| && ParseRecord(DataLine(Cells(rows[k]))) == Some(Cells(rows[k]))
  {
    var w := new Writer(nl);
    ExportCsv(w, names, rows);
    text := w.text;
    if names != [] && (forall k :: 0 <= k < |rows| ==> |rows[k]| == |names|) {
      forall k | 0 <= k < |rows|
        ensures |Cells(rows[k])| == |names| && ParseRecord(DataLine(Cells(rows[k]))) == Some(Cells(rows[k]))
      {
        RowLineDecodes(names, rows[k]);
      }
    }
  }

  /** Every data line of the file reads back as the row's cells: one field
      per column when the row has as many cells as there are columns. */
  lemma RowLineDecodes(names: seq<string>, row: seq<DbValue>)
    requires names != [] && |row| == |names|
    ensures ParseRecord(DataLine(Cells(row))) == Some(Cells(row))
    ensures |Cells(row)| == |names|
  {
    DataLineRoundTrip(Cells(row));
  }

  /** A row of null cells is written as commas alone, and reads back as
      that many empty fields. */
  lemma NullRowDecodes(row: seq<DbValue>)
    requires row != []
    requires forall i :: 0 <= i < |row| ==> row[i].Null? || row[i].DbNull?
    ensures ParseRecord(DataLine(Cells(row))) == Some(seq(|row|, i => ""))
  {
    assert Cells(row) == seq(|row|, i => "");
    DataLineRoundTrip(Cells(row));
  }

  /** The file is the header line, its terminator, and every row's line
      with its terminator, in order: row `k`'s line follows those of the
      rows before it. */
  lemma DocumentRow(names: seq<string>, rows: seq<seq<DbValue>>, nl: string, k: nat)
    requires k < |rows|
    ensures Body(rows[..k + 1], nl) == Body(rows[..k], nl) + DataLine(Cells(rows[k])) + nl
    ensures Document(names, rows[..k + 1], nl) == Document(names, rows[..k], nl) + DataLine(Cells(rows[k])) + nl
  {
    assert rows[..k + 1][..k] == rows[..k];
  }
}
