// exportInvoicesCSV's printer and a reader for its output in the style of section 2 of RFC 4180,
// with LF line ends. A cell is a nullable string.

module Csv {
  import opened Text

  type Cell = Option<string>

  // ---------------------------------------------------------------- printing

  /** value.replace(/"/g, '""') */
  function Escape(value: string): string {
    if value == "" then ""
    else (if value[0] == '\"' then "\"\"" else [value[0]]) + Escape(value[1..])
  }

  function PrintCell(cell: Cell): string {
    match cell
    case None => ""
    case Some(value) => "\"" + Escape(value) + "\""
  }

  function PrintCells(row: seq<Cell>): (cells: seq<string>)
    ensures |cells| == |row|
  {
    seq(|row|, i requires 0 <= i < |row| => PrintCell(row[i]))
  }

  function PrintRow(row: seq<Cell>): string {
    Join(PrintCells(row), ",")
  }

  function PrintRows(rows: seq<seq<Cell>>): (lines: seq<string>)
    ensures |lines| == |rows|
  {
    seq(|rows|, i requires 0 <= i < |rows| => PrintRow(rows[i]))
  }

  /** The export; `names` are the column names of the first row, which do not matter without rows. */
  function Export(names: seq<string>, rows: seq<seq<Cell>>): string {
    if rows == [] then "No data" else Join([Join(names, ",")] + PrintRows(rows), "\n")
  }

  // ---------------------------------------------------------------- reading

  datatype Parsed = Parsed(cell: Cell, rest: string)

  /** The rest of a quoted cell after its opening quote; None when it is never closed. */
  function ReadQuoted(s: string): (r: Option<Parsed>)
    ensures r.Some? ==> r.value.cell.Some? && |r.value.rest| < |s|
  {
    if s == "" then None
    else if s[0] == '\"' && (|s| == 1 || s[1] != '\"') then Some(Parsed(Some(""), s[1..]))
    else
      var tail := ReadQuoted(if s[0] == '\"' then s[2..] else s[1..]);
      if tail.None? then None
      else Some(Parsed(Some([s[0]] + tail.value.cell.value), tail.value.rest))
  }

  /** An unquoted cell runs to the next comma or line end. */
  function PlainLength(s: string): (n: nat)
    ensures n <= |s|
  {
    if s == "" || s[0] == ',' || s[0] == '\n' then 0 else 1 + PlainLength(s[1..])
  }

  /** An empty unquoted cell is null; an empty quoted one is the empty string. */
  function ReadCell(s: string): (r: Option<Parsed>)
    ensures r.Some? ==> |r.value.rest| <= |s|
  {
    if s != "" && s[0] == '\"' then ReadQuoted(s[1..])
    else
      var n := PlainLength(s);
      Some(Parsed(if n == 0 then None else Some(s[..n]), s[n..]))
  }

  /** All records of a text; None when it is malformed. */
  function ReadRecords(s: string): (r: Option<seq<seq<Cell>>>)
    ensures r.Some? ==> |r.value| > 0
    decreases |s|
  {
    var first := ReadCell(s);
    if first.None? then None
    else if first.value.rest == "" then Some([[first.value.cell]])
    else if first.value.rest[0] != ',' && first.value.rest[0] != '\n' then None
    else
      var others := ReadRecords(first.value.rest[1..]);
      if others.None? then None
      else if first.value.rest[0] == '\n' then Some([[first.value.cell]] + others.value)
      else Some([[first.value.cell] + others.value[0]] + others.value[1..])
  }

  // ---------------------------------------------------------------- round trip

  predicate Ends(tail: string) {
    tail == "" || tail[0] == ',' || tail[0] == '\n'
  }

  lemma EscapeNext(value: string, tail: string)
    requires value != ""
    ensures Escape(value) + tail == (if value[0] == '\"' then "\"\"" else [value[0]]) + (Escape(value[1..]) + tail)
  {
  }

  lemma ReadNext(c: char, rest: string, value: string, tail: string)
    requires ReadQuoted(rest) == Some(Parsed(Some(value), tail))
    ensures ReadQuoted((if c == '\"' then "\"\"" else [c]) + rest) == Some(Parsed(Some([c] + value), tail))
  {
    var s := (if c == '\"' then "\"\"" else [c]) + rest;
    assert s[if c == '\"' then 2 else 1..] == rest;
  }

  lemma ReadEnd(tail: string)
    requires Ends(tail)
    ensures ReadQuoted(Escape("") + ("\"" + tail)) == Some(Parsed(Some(""), tail))
  {
    var s := Escape("") + ("\"" + tail);
    assert s == "\"" + tail && s[1..] == tail;
  }

  lemma {:induction false} QuotedBack(value: string, tail: string)
    requires Ends(tail)
    ensures ReadQuoted(Escape(value) + ("\"" + tail)) == Some(Parsed(Some(value), tail))
  {
    hide *;
    var end := "\"" + tail;
    if value == "" {
      ReadEnd(tail);
    } else {
      QuotedBack(value[1..], tail);
      EscapeNext(value, end);
      ReadNext(value[0], Escape(value[1..]) + end, value[1..], tail);
      assert [value[0]] + value[1..] == value;
    }
  }

  lemma CellBack(cell: Cell, tail: string)
    requires Ends(tail)
    ensures ReadCell(PrintCell(cell) + tail) == Some(Parsed(cell, tail))
  {
    match cell
    case None =>
      assert PrintCell(cell) + tail == tail;
    case Some(value) =>
      QuotedBack(value, tail);
      var s := PrintCell(cell) + tail;
      assert s[0] == '\"' && s[1..] == Escape(value) + ("\"" + tail);
  }

  /** A column name that needs no quoting. */
  predicate PlainName(name: string) {
    name != "" && forall i :: 0 <= i < |name| ==> name[i] != ',' && name[i] != '\n' && name[i] != '\"'
  }

  lemma {:induction false} PlainBack(name: string, tail: string)
    requires Ends(tail) && forall i :: 0 <= i < |name| ==> name[i] != ',' && name[i] != '\n'
    ensures PlainLength(name + tail) == |name|
  {
    if name == "" {
      assert name + tail == tail;
    } else {
      assert (name + tail)[1..] == name[1..] + tail;
      PlainBack(name[1..], tail);
    }
  }

  lemma NameBack(name: string, tail: string)
    requires Ends(tail) && PlainName(name)
    ensures ReadCell(name + tail) == Some(Parsed(Some(name), tail))
  {
    PlainBack(name, tail);
    assert (name + tail)[..|name|] == name && (name + tail)[|name|..] == tail;
  }

  /** texts[i] reads back as cells[i] before any tail that ends a cell. */
  ghost predicate ReadsAs(texts: seq<string>, cells: seq<Cell>) {
    |texts| == |cells| && forall i, tail :: 0 <= i < |texts| && Ends(tail) ==>
      ReadCell(texts[i] + tail) == Some(Parsed(cells[i], tail))
  }

  /** The records of a text that begins with one given record and goes on with `more`, which is
      empty or starts a new line. */
  function WithFirst(row: seq<Cell>, more: string): Option<seq<seq<Cell>>>
    requires more == "" || more[0] == '\n'
  {
    if more == "" then Some([row])
    else
      var others := ReadRecords(more[1..]);
      if others.None? then None else Some([row] + others.value)
  }

  lemma {:induction false} RecordBack(texts: seq<string>, cells: seq<Cell>, more: string)
    requires texts != [] && ReadsAs(texts, cells) && (more == "" || more[0] == '\n')
    ensures ReadRecords(Join(texts, ",") + more) == WithFirst(cells, more)
  {
    hide ReadCell;
    if |texts| == 1 {
      assert Ends(more);
      assert ReadCell(texts[0] + more) == Some(Parsed(cells[0], more));
      assert cells == [cells[0]];
    } else {
      var tail := "," + (Join(texts[1..], ",") + more);
      assert Join(texts, ",") + more == texts[0] + tail;
      assert Ends(tail);
      assert ReadCell(texts[0] + tail) == Some(Parsed(cells[0], tail));
      assert tail[1..] == Join(texts[1..], ",") + more;
      RecordBack(texts[1..], cells[1..], more);
      assert [cells[0]] + cells[1..] == cells;
      var others := WithFirst(cells[1..], more);
      if others.Some? {
        assert [cells] + others.value[1..] == WithFirst(cells, more).value;
      }
    }
  }

  lemma RowBack(row: seq<Cell>, more: string)
    requires row != [] && (more == "" || more[0] == '\n')
    ensures ReadRecords(PrintRow(row) + more) == WithFirst(row, more)
  {
    forall i, tail | 0 <= i < |row| && Ends(tail)
      ensures ReadCell(PrintCells(row)[i] + tail) == Some(Parsed(row[i], tail))
    {
      CellBack(row[i], tail);
    }
    RecordBack(PrintCells(row), row, more);
  }

  lemma {:induction false} RowsBack(rows: seq<seq<Cell>>)
    requires rows != [] && forall i :: 0 <= i < |rows| ==> rows[i] != []
    ensures ReadRecords(Join(PrintRows(rows), "\n")) == Some(rows)
  {
    hide ReadRecords, PrintRow;
    var lines := PrintRows(rows);
    if |rows| == 1 {
      RowBack(rows[0], "");
      assert PrintRow(rows[0]) + "" == PrintRow(rows[0]) && rows == [rows[0]];
    } else {
      var more := "\n" + Join(lines[1..], "\n");
      assert lines[1..] == PrintRows(rows[1..]);
      assert Join(lines, "\n") == PrintRow(rows[0]) + more;
      RowBack(rows[0], more);
      assert more[1..] == Join(lines[1..], "\n");
      RowsBack(rows[1..]);
      assert [rows[0]] + rows[1..] == rows;
    }
  }

  function NameCells(names: seq<string>): (cells: seq<Cell>)
    ensures |cells| == |names|
  {
    seq(|names|, i requires 0 <= i < |names| => Some(names[i]))
  }

  /** The export can be read back: header and every row, whatever the cells hold, with null and the
      empty string kept apart. */
  lemma ExportBack(names: seq<string>, rows: seq<seq<Cell>>)
    requires names != [] && rows != []
    requires forall i :: 0 <= i < |names| ==> PlainName(names[i])
    requires forall i :: 0 <= i < |rows| ==> |rows[i]| == |names|
    ensures ReadRecords(Export(names, rows)) == Some([NameCells(names)] + rows)
  {
    forall i, tail | 0 <= i < |names| && Ends(tail)
      ensures ReadCell(names[i] + tail) == Some(Parsed(NameCells(names)[i], tail))
    {
      NameBack(names[i], tail);
    }
    hide ReadRecords;
    var lines := PrintRows(rows);
    var more := "\n" + Join(lines, "\n");
    assert ([Join(names, ",")] + lines)[1..] == lines;
    assert Export(names, rows) == Join(names, ",") + more;
    RecordBack(names, NameCells(names), more);
    assert more[1..] == Join(lines, "\n");
    RowsBack(rows);
  }

  /** "No data" is the export of no table with rows. */
  lemma NoDataIsEmpty(names: seq<string>, rows: seq<seq<Cell>>)
    requires names != [] && rows != []
    requires forall i :: 0 <= i < |names| ==> PlainName(names[i])
    requires forall i :: 0 <= i < |rows| ==> |rows[i]| == |names|
    ensures Export(names, rows) != "No data"
  {
    hide Export, ReadRecords;
    ExportBack(names, rows);
    assert PlainName("No data");
    NameBack("No data", "");
    assert "No data" + "" == "No data";
    OneCell("No data");
  }

  lemma OneCell(s: string)
    requires ReadCell(s) == Some(Parsed(Some(s), ""))
    ensures ReadRecords(s) == Some([[Some(s)]])
  {
    hide ReadCell;
  }

  /** Two exports with the same text have the same rows and, unless there are none, the same header. */
  lemma ExportInjective(names: seq<string>, rows: seq<seq<Cell>>, names2: seq<string>, rows2: seq<seq<Cell>>)
    requires names != [] && names2 != []
    requires forall i :: 0 <= i < |names| ==> PlainName(names[i])
    requires forall i :: 0 <= i < |names2| ==> PlainName(names2[i])
    requires forall i :: 0 <= i < |rows| ==> |rows[i]| == |names|
    requires forall i :: 0 <= i < |rows2| ==> |rows2[i]| == |names2|
    requires Export(names, rows) == Export(names2, rows2)
    ensures rows == rows2 && (rows != [] ==> names == names2)
  {
    if rows == [] || rows2 == [] {
      if rows != [] {
        NoDataIsEmpty(names, rows);
      } else if rows2 != [] {
        NoDataIsEmpty(names2, rows2);
      }
    } else {
      TableBack(names, rows, names2, rows2);
    }
  }

  lemma TableBack(names: seq<string>, rows: seq<seq<Cell>>, names2: seq<string>, rows2: seq<seq<Cell>>)
    requires names != [] && names2 != [] && rows != [] && rows2 != []
    requires forall i :: 0 <= i < |names| ==> PlainName(names[i])
    requires forall i :: 0 <= i < |names2| ==> PlainName(names2[i])
    requires forall i :: 0 <= i < |rows| ==> |rows[i]| == |names|
    requires forall i :: 0 <= i < |rows2| ==> |rows2[i]| == |names2|
    requires Export(names, rows) == Export(names2, rows2)
    ensures names == names2 && rows == rows2
  {
    hide Export, ReadRecords;
    ExportBack(names, rows);
    ExportBack(names2, rows2);
    var a, b := [NameCells(names)] + rows, [NameCells(names2)] + rows2;
    assert a[0] == b[0] && a[1..] == b[1..] && a[1..] == rows && b[1..] == rows2;
    assert |names| == |names2|;
    forall i | 0 <= i < |names| ensures names[i] == names2[i] {
      assert NameCells(names)[i] == NameCells(names2)[i];
    }
  }
}
