/** `_FormatSchemaAsYAML` (sqliterc/schema_extractor.py): the schema of one
    database as a YAML text, one document per table in sorted order, listing
    each column's name and value type. */
module YamlFormat {
  import opened Wrappers
  import opened PyStrings
  import opened Resources
  import opened Ordering
  import opened DdlParser

  /** The comment line every rendering starts with. */
  const YamlTitle := "# SQLite-kb database schema."

  /** A table that contributes a document: its name and its columns. */
  datatype Table = Table(name: string, columns: seq<ColumnDefinition>)

  /** Python's truthiness of `value_type`: set and not empty. */
  predicate HasValueType(column: ColumnDefinition) {
    column.valueType.Some? && column.valueType.value != []
  }

  /** The lines of one column: its name, then its value type if it has one. */
  function EntryLines(column: ColumnDefinition): seq<string> {
    ["- name: " + column.name] + (if HasValueType(column) then ["  value_type: " + column.valueType.value] else [])
  }

  function ColumnLines(columns: seq<ColumnDefinition>): seq<string> {
    if columns == [] then [] else EntryLines(columns[0]) + ColumnLines(columns[1..])
  }

  /** The document of one table. */
  function TableDocument(table: Table): seq<string> {
    ["---", "table: " + table.name, "columns:"] + ColumnLines(table.columns)
  }

  function Documents(tables: seq<Table>): seq<string> {
    if tables == [] then [] else TableDocument(tables[0]) + Documents(tables[1..])
  }

  function PrependTable(table: Table, r: Result<seq<Table>, SchemaError>): Result<seq<Table>, SchemaError> {
    match r
    case Success(tables) => Success([table] + tables)
    case Failure(e) => Failure(e)
  }

  /** The tables parsed in the given order: virtual tables skipped, and the
      first rejected table's error ending everything. */
  function ParsedTables(items: seq<Item>): Result<seq<Table>, SchemaError> {
    if items == [] then Success([])
    else Contribution(items[0].0, ParseTable(items[0].0, items[0].1), ParsedTables(items[1..]))
  }

  /** What one table adds in front of the tables after it. */
  function Contribution(tableName: string, outcome: TableOutcome, rest: Result<seq<Table>, SchemaError>)
    : Result<seq<Table>, SchemaError>
  {
    match outcome
    case Rejected(e) => Failure(e)
    case Virtual => rest
    case Columns(columns) => PrependTable(Table(tableName, columns), rest)
  }

  /** The lines of the rendering joined by newlines, with the final empty
      line giving the text its trailing newline. */
  function Render(tables: seq<Table>): string {
    Join(RenderedLines(tables), "\n")
  }

  function RenderedLines(tables: seq<Table>): seq<string> {
    [YamlTitle] + Documents(tables) + [""]
  }

  /** What `_FormatSchemaAsYAML` returns or raises for a schema whose items
      are the (table name, CREATE statement) pairs of the dictionary. */
  function YamlRendering(schema: seq<Item>): Result<string, SchemaError> {
    match ParsedTables(SortItems(schema))
    case Failure(e) => Failure(e)
    case Success(tables) => Success(Render(tables))
  }

  /** `_FormatSchemaAsYAML`, appending lines table by table and column by
      column. */
  method FormatSchemaAsYaml(schema: seq<Item>) returns (r: Result<string, SchemaError>)
    ensures r == YamlRendering(schema)
  {
    var lines := [YamlTitle];
    ghost var tables: seq<Table> := [];
    var sorted := SortItems(schema);
    assert sorted[0..] == sorted;
    AppendTablesNone(ParsedTables(sorted));
    for i := 0 to |sorted|
      invariant lines == [YamlTitle] + Documents(tables)
      invariant ParsedTables(sorted) == AppendTables(tables, ParsedTables(sorted[i..]))
    {
      var (tableName, query) := sorted[i];
      ParsedTablesStep(sorted, i);
      var outcome := ParseCreateTable(tableName, query);
      match outcome {
        case Rejected(e) =>
          AppendTablesFailure(tables, e);
          return Failure(e);
        case Virtual =>
        case Columns(columnDefinitions) =>
          var table := Table(tableName, columnDefinitions);
          lines := AppendTableDocument(lines, tables, table);
          AppendTablesPrepend(tables, table, ParsedTables(sorted[i + 1..]));
          tables := tables + [table];
      }
    }
    assert sorted[|sorted|..] == [];
    assert tables + [] == tables;
    assert ParsedTables(sorted) == Success(tables);
    lines := lines + [""];
    return Success(Join(lines, "\n"));
  }

  /** The lines one table adds: a document marker, the table's name, the
      "columns:" key and the column entries. */
  method AppendTableDocument(lines: seq<string>, ghost tables: seq<Table>, table: Table) returns (r: seq<string>)
    requires lines == [YamlTitle] + Documents(tables)
    ensures r == [YamlTitle] + Documents(tables + [table])
  {
    r := lines + ["---", "table: " + table.name, "columns:"];
    r := AppendColumnLines(r, table.columns);
    DocumentsAppend(tables, table);
  }

  /** The inner loop of `_FormatSchemaAsYAML`: one "- name:" line per
      column, and a "  value_type:" line after it when the type is set. */
  method AppendColumnLines(lines: seq<string>, columnDefinitions: seq<ColumnDefinition>) returns (r: seq<string>)
    ensures r == lines + ColumnLines(columnDefinitions)
  {
    r := lines;
    for j := 0 to |columnDefinitions|
      invariant r == lines + ColumnLines(columnDefinitions[..j])
    {
      var columnDefinition := columnDefinitions[j];
      ColumnLinesAppend(columnDefinitions[..j], columnDefinition);
      assert columnDefinitions[..j + 1] == columnDefinitions[..j] + [columnDefinition];
      r := r + ["- name: " + columnDefinition.name];
      if columnDefinition.valueType.Some? && columnDefinition.valueType.value != [] {
        r := r + ["  value_type: " + columnDefinition.valueType.value];
      }
    }
    assert columnDefinitions[..|columnDefinitions|] == columnDefinitions;
  }

  function AppendTables(done: seq<Table>, r: Result<seq<Table>, SchemaError>): Result<seq<Table>, SchemaError> {
    match r
    case Success(tables) => Success(done + tables)
    case Failure(e) => Failure(e)
  }

  lemma ParsedTablesStep(items: seq<Item>, i: int)
    requires 0 <= i < |items|
    ensures ParsedTables(items[i..])
         == Contribution(items[i].0, ParseTable(items[i].0, items[i].1), ParsedTables(items[i + 1..]))
  {
    assert items[i..][0] == items[i];
    assert items[i..][1..] == items[i + 1..];
  }

  lemma AppendTablesNone(r: Result<seq<Table>, SchemaError>)
    ensures AppendTables([], r) == r
  {
    if r.Success? {
      assert [] + r.value == r.value;
    }
  }

  lemma AppendTablesFailure(done: seq<Table>, e: SchemaError)
    ensures AppendTables(done, Failure(e)) == Failure(e)
  {
  }

  lemma AppendTablesPrepend(done: seq<Table>, table: Table, r: Result<seq<Table>, SchemaError>)
    ensures AppendTables(done, PrependTable(table, r)) == AppendTables(done + [table], r)
  {
    if r.Success? {
      assert done + ([table] + r.value) == done + [table] + r.value;
    }
  }

  lemma {:induction false} ColumnLinesAppend(columns: seq<ColumnDefinition>, column: ColumnDefinition)
    ensures ColumnLines(columns + [column]) == ColumnLines(columns) + EntryLines(column)
  {
    if columns == [] {
      assert columns + [column] == [column];
    } else {
      assert (columns + [column])[1..] == columns[1..] + [column];
      ColumnLinesAppend(columns[1..], column);
    }
  }

  lemma {:induction false} DocumentsAppend(tables: seq<Table>, table: Table)
    ensures Documents(tables + [table]) == Documents(tables) + TableDocument(table)
  {
    if tables == [] {
      assert tables + [table] == [table];
    } else {
      assert (tables + [table])[1..] == tables[1..] + [table];
      DocumentsAppend(tables[1..], table);
    }
  }
}
