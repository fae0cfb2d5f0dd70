/** A reader for the YAML text `_FormatSchemaAsYAML`
    (sqliterc/schema_extractor.py) writes, and the round trip: reading a
    rendering gives back its tables, with an empty value type read as no
    value type, as long as no name or type holds a newline. */
module YamlReader {
  import opened Wrappers
  import opened PyStrings
  import opened Resources
  import opened YamlFormat

  /** The tables of a rendering, or None when the text is not laid out as
      one. */
  function ReadYaml(text: string): Option<seq<Table>> {
    var lines := Split(text, '\n');
    if |lines| < 2 || lines[0] != YamlTitle || lines[|lines| - 1] != "" then None
    else ReadDocuments(lines[1..|lines| - 1])
  }

  /** One document per table: a marker, the table's name, the "columns:" key
      and its entries. */
  function ReadDocuments(lines: seq<string>): Option<seq<Table>>
    decreases |lines|
  {
    if lines == [] then Some([])
    else if |lines| < 3 || lines[0] != "---" || !StartsWith(lines[1], "table: ") || lines[2] != "columns:" then None
    else
      var (columns, rest) := ReadEntries(lines[3..]);
      match ReadDocuments(rest)
      case None => None
      case Some(tables) => Some([Table(lines[1][7..], columns)] + tables)
  }

  /** The column entries at the head of the lines and the lines after them. */
  function ReadEntries(lines: seq<string>): (r: (seq<ColumnDefinition>, seq<string>))
    ensures |r.1| <= |lines|
  {
    if lines == [] || !StartsWith(lines[0], "- name: ") then ([], lines)
    else if |lines| > 1 && StartsWith(lines[1], "  value_type: ") then
      var (columns, rest) := ReadEntries(lines[2..]);
      ([ColumnDefinition(lines[0][8..], Some(lines[1][14..]))] + columns, rest)
    else
      var (columns, rest) := ReadEntries(lines[1..]);
      ([ColumnDefinition(lines[0][8..], None)] + columns, rest)
  }

  /** A column as the rendering shows it: an empty value type is not
      written, so it reads back as none. */
  function Shown(column: ColumnDefinition): ColumnDefinition {
    if HasValueType(column) then column else ColumnDefinition(column.name, None)
  }

  function ShownColumns(columns: seq<ColumnDefinition>): (r: seq<ColumnDefinition>)
    ensures |r| == |columns|
    ensures forall i :: 0 <= i < |columns| ==> r[i] == Shown(columns[i])
  {
    if columns == [] then [] else [Shown(columns[0])] + ShownColumns(columns[1..])
  }

  function ShownTables(tables: seq<Table>): (r: seq<Table>)
    ensures |r| == |tables|
    ensures forall i :: 0 <= i < |tables| ==> r[i] == Table(tables[i].name, ShownColumns(tables[i].columns))
  {
    if tables == [] then [] else [Table(tables[0].name, ShownColumns(tables[0].columns))] + ShownTables(tables[1..])
  }

  /** No line that could follow a column's entries is taken for part of
      them. */
  predicate EndsEntries(rest: seq<string>) {
    rest == [] || (!StartsWith(rest[0], "- name: ") && !StartsWith(rest[0], "  value_type: "))
  }

  /** One column's entry is read back as the column shown, whatever the
      entries after it, as long as no value type line follows. */
  lemma ReadEntryLines(column: ColumnDefinition, tail: seq<string>)
    requires tail == [] || !StartsWith(tail[0], "  value_type: ")
    ensures ReadEntries(EntryLines(column) + tail) == ([Shown(column)] + ReadEntries(tail).0, ReadEntries(tail).1)
  {
    var lines := EntryLines(column) + tail;
    var name := "- name: " + column.name;
    assert name[..8] == "- name: " && name[8..] == column.name;
    if HasValueType(column) {
      var valueType := "  value_type: " + column.valueType.value;
      assert valueType[..14] == "  value_type: " && valueType[14..] == column.valueType.value;
      assert lines == [name, valueType] + tail;
      assert lines[2..] == tail;
    } else {
      assert lines == [name] + tail;
      assert lines[1..] == tail;
    }
  }

  lemma {:induction false} ReadColumnLines(columns: seq<ColumnDefinition>, rest: seq<string>)
    requires EndsEntries(rest)
    ensures ReadEntries(ColumnLines(columns) + rest) == (ShownColumns(columns), rest)
  {
    if columns == [] {
      assert ColumnLines(columns) + rest == rest;
    } else {
      var tail := ColumnLines(columns[1..]) + rest;
      ReadColumnLines(columns[1..], rest);
      if ColumnLines(columns[1..]) != [] {
        assert tail[0] == "- name: " + columns[1..][0].name;
        assert tail[0][0] == '-';
      }
      ReadEntryLines(columns[0], tail);
      assert ColumnLines(columns) + rest == EntryLines(columns[0]) + tail;
    }
  }

  /** One table's document is read back as the table shown, whatever the
      documents after it. */
  lemma ReadDocumentLinesOf(table: Table, rest: seq<string>)
    requires EndsEntries(rest)
    ensures ReadDocuments(TableDocument(table) + rest)
         == match ReadDocuments(rest)
            case None => None
            case Some(tables) => Some([Table(table.name, ShownColumns(table.columns))] + tables)
  {
    var lines := TableDocument(table) + rest;
    var title := "table: " + table.name;
    assert title[..7] == "table: " && title[7..] == table.name;
    assert lines == ["---", title, "columns:"] + (ColumnLines(table.columns) + rest);
    assert lines[3..] == ColumnLines(table.columns) + rest;
    ReadColumnLines(table.columns, rest);
  }

  lemma {:induction false} ReadDocumentLines(tables: seq<Table>)
    ensures ReadDocuments(Documents(tables)) == Some(ShownTables(tables))
  {
    if tables != [] {
      var rest := Documents(tables[1..]);
      ReadDocumentLines(tables[1..]);
      assert EndsEntries(rest) by {
        if rest != [] {
          assert rest[0] == "---";
          assert rest[0][1] == '-';
        }
      }
      ReadDocumentLinesOf(tables[0], rest);
    }
  }

  /** No name or value type of the table holds a newline. */
  predicate HasNoNewline(table: Table) {
    '\n' !in table.name
    && forall j :: 0 <= j < |table.columns| ==> ColumnHasNoNewline(table.columns[j])
  }

  predicate ColumnHasNoNewline(column: ColumnDefinition) {
    '\n' !in column.name && (column.valueType.Some? ==> '\n' !in column.valueType.value)
  }

  lemma {:induction false} ColumnLinesHaveNoNewline(columns: seq<ColumnDefinition>)
    requires forall j :: 0 <= j < |columns| ==> ColumnHasNoNewline(columns[j])
    ensures forall l :: l in ColumnLines(columns) ==> '\n' !in l
  {
    if columns != [] {
      ColumnLinesHaveNoNewline(columns[1..]);
    }
  }

  lemma {:induction false} DocumentsHaveNoNewline(tables: seq<Table>)
    requires forall i :: 0 <= i < |tables| ==> HasNoNewline(tables[i])
    ensures forall l :: l in Documents(tables) ==> '\n' !in l
  {
    if tables != [] {
      ColumnLinesHaveNoNewline(tables[0].columns);
      DocumentsHaveNoNewline(tables[1..]);
    }
  }

  lemma RenderedLinesHaveNoNewline(tables: seq<Table>)
    requires forall i :: 0 <= i < |tables| ==> HasNoNewline(tables[i])
    ensures forall k :: 0 <= k < |RenderedLines(tables)| ==> '\n' !in RenderedLines(tables)[k]
  {
    var documents := Documents(tables);
    var lines := RenderedLines(tables);
    DocumentsHaveNoNewline(tables);
    forall k | 0 <= k < |lines|
      ensures '\n' !in lines[k]
    {
      if 0 < k < |lines| - 1 {
        assert lines[k] == documents[k - 1];
      }
    }
  }

  lemma SplitJoinedLines(text: string, lines: seq<string>)
    requires |lines| >= 1
    requires forall k :: 0 <= k < |lines| ==> '\n' !in lines[k]
    requires text == Join(lines, "\n")
    ensures Split(text, '\n') == lines
  {
    SplitJoin(lines, '\n');
  }

  /** The lines of a rendering come back from splitting it at newlines. */
  lemma SplitRender(tables: seq<Table>)
    requires forall i :: 0 <= i < |tables| ==> HasNoNewline(tables[i])
    ensures Split(Render(tables), '\n') == RenderedLines(tables)
  {
    RenderedLinesHaveNoNewline(tables);
    SplitJoinedLines(Render(tables), RenderedLines(tables));
  }

  lemma ReadYamlLines(text: string, documents: seq<string>)
    requires Split(text, '\n') == [YamlTitle] + documents + [""]
    ensures ReadYaml(text) == ReadDocuments(documents)
  {
    var lines := [YamlTitle] + documents + [""];
    assert lines[1..|lines| - 1] == documents;
  }

  /** Reading a rendering gives back its tables as shown. */
  lemma ReadRender(tables: seq<Table>)
    requires forall i :: 0 <= i < |tables| ==> HasNoNewline(tables[i])
    ensures ReadYaml(Render(tables)) == Some(ShownTables(tables))
  {
    SplitRender(tables);
    ReadYamlLines(Render(tables), Documents(tables));
    ReadDocumentLines(tables);
  }
}
