/** `_FormatSchemaAsText` (sqliterc/schema_extractor.py): the schema of one
    database as lines of Python source, one entry per table in sorted order,
    holding its CREATE statement word-wrapped into string literals that
    Python concatenates.

    The word wrapping of `textwrap.TextWrapper` is a parameter, `wrap`: the
    formatter only relies on it returning the lines of a text. */
module TextFormat {
  import opened Wrappers
  import opened PyStrings
  import opened Resources
  import opened Ordering

  /** The start of every line holding a piece of a statement: ten spaces and
      an opening quote. */
  const PieceIndent := "          '"

  /** The line that opens a table's entry. */
  function OpeningLine(tableName: string): string {
    "      '" + tableName + "': ("
  }

  /** The statement as it is wrapped: every run of newlines and tabs one
      space, and every single quote escaped. */
  function PreparedQuery(query: string): string {
    EscapeQuotes(CollapseRuns(query, {'\n', '\t'}))
  }

  /** One wrapped piece as a string literal followed by a space. */
  function QuotedLine(piece: string): string {
    PieceIndent + piece + " '"
  }

  function QuotedLines(pieces: seq<string>): (r: seq<string>)
    ensures |r| == |pieces|
    ensures forall i :: 0 <= i < |pieces| ==> r[i] == QuotedLine(pieces[i])
  {
    if pieces == [] then [] else [QuotedLine(pieces[0])] + QuotedLines(pieces[1..])
  }

  /** What replaces the space and closing quote of a table's last literal:
      the end of the last table's entry closes the enclosing structures. */
  function Closing(isLast: bool): string {
    if isLast then "')}}]" else "'),"
  }

  /** The lines of one table's entry, or Python's IndexError when the
      wrapped statement has no line. */
  function TableBlock(tableName: string, pieces: seq<string>, isLast: bool): Result<seq<string>, SchemaError> {
    if pieces == [] then Failure(IndexOutOfRange)
    else
      var quoted := QuotedLines(pieces);
      var lastLine := quoted[|quoted| - 1];
      Success([OpeningLine(tableName)] + quoted[..|quoted| - 1] + [lastLine[..|lastLine| - 2] + Closing(isLast)])
  }

  /** The entries of the items in the given order, the last one closing the
      text, or the first error. */
  function Blocks(items: seq<Item>, wrap: string -> seq<string>): Result<seq<string>, SchemaError> {
    if items == [] then Success([])
    else
      match TableBlock(items[0].0, wrap(PreparedQuery(items[0].1)), |items| == 1)
      case Failure(e) => Failure(e)
      case Success(block) =>
        match Blocks(items[1..], wrap)
        case Failure(e) => Failure(e)
        case Success(rest) => Success(block + rest)
  }

  /** What `_FormatSchemaAsText` returns or raises. */
  function TextRendering(schema: seq<Item>, wrap: string -> seq<string>): Result<string, SchemaError> {
    match Blocks(SortItems(schema), wrap)
    case Failure(e) => Failure(e)
    case Success(lines) => Success(Join(lines, "\n"))
  }

  /** `_FormatSchemaAsText`, counting tables to tell the last one. */
  method FormatSchemaAsText(schema: seq<Item>, wrap: string -> seq<string>) returns (r: Result<string, SchemaError>)
    ensures r == TextRendering(schema, wrap)
  {
    var lines: seq<string> := [];
    var tableIndex := 1;
    var numberOfTables := |schema|;
    var sorted := SortItems(schema);
    SortedLength(schema);
    assert sorted[0..] == sorted;
    AppendBlocksNone(Blocks(sorted, wrap));
    for i := 0 to |sorted|
      invariant tableIndex == i + 1
      invariant Blocks(sorted, wrap) == AppendBlocks(lines, Blocks(sorted[i..], wrap))
    {
      var (tableName, query) := sorted[i];
      BlocksStep(sorted, i, wrap);
      var opening := OpeningLine(tableName);
      var pieces := wrap(PreparedQuery(query));
      var quoted := QuotedLines(pieces);
      if quoted == [] {
        assert TableBlock(tableName, pieces, i == |sorted| - 1) == Failure(IndexOutOfRange);
        return Failure(IndexOutOfRange);
      }
      var lastLine := quoted[|quoted| - 1];
      ghost var body := quoted[..|quoted| - 1];
      assert tableIndex == numberOfTables <==> i == |sorted| - 1;
      if tableIndex == numberOfTables {
        quoted := quoted[..|quoted| - 1] + [lastLine[..|lastLine| - 2] + "')}}]"];
      } else {
        quoted := quoted[..|quoted| - 1] + [lastLine[..|lastLine| - 2] + "'),"];
      }
      assert quoted == body + [lastLine[..|lastLine| - 2] + Closing(i == |sorted| - 1)];
      assert [opening] + body + [lastLine[..|lastLine| - 2] + Closing(i == |sorted| - 1)] == [opening] + quoted;
      assert TableBlock(tableName, pieces, i == |sorted| - 1) == Success([opening] + quoted);
      AppendBlocksBlock(lines, [opening] + quoted, Blocks(sorted[i + 1..], wrap));
      lines := lines + ([opening] + quoted);
      tableIndex := tableIndex + 1;
    }
    assert sorted[|sorted|..] == [];
    assert lines + [] == lines;
    return Success(Join(lines, "\n"));
  }

  function AppendBlocks(done: seq<string>, r: Result<seq<string>, SchemaError>): Result<seq<string>, SchemaError> {
    match r
    case Success(lines) => Success(done + lines)
    case Failure(e) => Failure(e)
  }

  lemma SortedLength(schema: seq<Item>)
    ensures |SortItems(schema)| == |schema|
  {
    SortItemsCorrect(schema);
    assert |multiset(SortItems(schema))| == |multiset(schema)|;
  }

  lemma BlocksStep(items: seq<Item>, i: int, wrap: string -> seq<string>)
    requires 0 <= i < |items|
    ensures Blocks(items[i..], wrap)
         == match TableBlock(items[i].0, wrap(PreparedQuery(items[i].1)), i == |items| - 1)
            case Failure(e) => Failure(e)
            case Success(block) =>
              match Blocks(items[i + 1..], wrap)
              case Failure(e) => Failure(e)
              case Success(rest) => Success(block + rest)
  {
    assert items[i..][0] == items[i];
    assert items[i..][1..] == items[i + 1..];
  }

  lemma AppendBlocksNone(r: Result<seq<string>, SchemaError>)
    ensures AppendBlocks([], r) == r
  {
    if r.Success? {
      assert [] + r.value == r.value;
    }
  }

  lemma AppendBlocksBlock(done: seq<string>, block: seq<string>, r: Result<seq<string>, SchemaError>)
    ensures AppendBlocks(done, match r case Failure(e) => Failure(e) case Success(rest) => Success(block + rest))
         == AppendBlocks(done + block, r)
  {
    if r.Success? {
      assert done + (block + r.value) == done + block + r.value;
    }
  }
}
