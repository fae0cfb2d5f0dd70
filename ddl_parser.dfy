/** The CREATE TABLE parser inside `_FormatSchemaAsYAML`
    (sqliterc/schema_extractor.py): it turns the statement SQLite keeps in
    sqlite_master for one table into the table's ordered column definitions. */
module DdlParser {
  import opened Wrappers
  import opened PyStrings
  import opened Resources

  /** What one table contributes: its columns, nothing (a virtual table), or
      the error that aborts the whole rendering. */
  datatype TableOutcome =
    | Columns(columns: seq<ColumnDefinition>)
    | Virtual
    | Rejected(error: SchemaError)

  /** The five ways the statement may write the table name. */
  datatype TableQuoting = Bare | SingleQuoted | DoubleQuoted | Backticked | Bracketed

  function QuotedName(quoting: TableQuoting, tableName: string): string {
    match quoting
    case Bare => tableName
    case SingleQuoted => "'" + tableName + "'"
    case DoubleQuoted => "\"" + tableName + "\""
    case Backticked => "`" + tableName + "`"
    case Bracketed => "[" + tableName + "]"
  }

  /** The quoting the parser expects, chosen by the first character after
      "TABLE ". */
  function QuotingOf(first: char): TableQuoting {
    if first == '\'' then SingleQuoted
    else if first == '"' then DoubleQuoted
    else if first == '`' then Backticked
    else if first == '[' then Bracketed
    else Bare
  }

  /** The characters that make a column name quoted. */
  predicate IsQuoteOpener(c: char) {
    c == '\'' || c == '"' || c == '`' || c == '['
  }

  /** A table-level clause, at which the column loop stops. */
  predicate IsTableConstraint(clause: string) {
    StartsWith(clause, "CONSTRAINT") || StartsWith(clause, "UNIQUE") || StartsWith(clause, "PRIMARY KEY")
  }

  /** Drops one leading "-- " comment line and the whitespace after it. */
  function SkipComment(query: string): (r: string)
    ensures |r| <= |query|
  {
    if StartsWith(query, "-- ") then LStrip(Partition(query, '\n').1) else query
  }

  /** Python's name[1:-1]: drops the first and the last character, whatever
      the last one is; a one-character name becomes empty. */
  function Unquote(name: string): string {
    if |name| >= 2 then name[1..|name| - 1] else []
  }

  /** One column clause: the first space-separated word names the column,
      unquoted when it starts with a quote character, and the second word,
      when there is one, is its value type. */
  function ParseColumn(column: string): (r: Result<ColumnDefinition, SchemaError>)
    ensures r.Success? ==> column != []
    ensures r.Failure? ==> r.error == IndexOutOfRange
  {
    var segments := Split(column, ' ');
    var name := segments[0];
    if name == [] then Failure(IndexOutOfRange)
    else
      Success(ColumnDefinition(
        if IsQuoteOpener(name[0]) then Unquote(name) else name,
        if |segments| > 1 then Some(segments[1]) else None))
  }

  /** A clause fails exactly when it is empty or starts with a space, so
      that its first space-separated word is empty. */
  lemma ColumnFailsIffNoFirstWord(column: string)
    ensures ParseColumn(column).Failure? <==> column == [] || column[0] == ' '
  {
    var first := Split(column, ' ')[0];
    if column != [] && ' ' in column {
      var (before, after) := Partition(column, ' ');
      assert first == before;
      if before != [] {
        assert column[0] == before[0];
      }
    }
  }

  /** A name opened by a quote character loses its first and its last
      character, whatever that last character is; the word after the
      first space is the value type. */
  lemma QuotedColumnIsUnquoted(o: char, n: string, c: char, valueType: Option<string>)
    requires IsQuoteOpener(o)
    requires ' ' !in n && c != ' '
    requires valueType.Some? ==> ' ' !in valueType.value
    ensures var word := [o] + n + [c];
      ParseColumn(word + (if valueType.Some? then " " + valueType.value else []))
        == Success(ColumnDefinition(n, valueType))
  {
    var word := [o] + n + [c];
    assert ' ' !in word by {
      assert forall i :: 0 <= i < |word| ==> word[i] == o || word[i] == c || word[i] in n;
    }
    assert word[0] == o && Unquote(word) == n;
    ColumnOfWords(word, valueType);
  }

  lemma ColumnOfWords(word: string, valueType: Option<string>)
    requires word != [] && ' ' !in word
    requires valueType.Some? ==> ' ' !in valueType.value
    ensures ParseColumn(word + (if valueType.Some? then " " + valueType.value else []))
      == Success(ColumnDefinition(if IsQuoteOpener(word[0]) then Unquote(word) else word, valueType))
  {
    if valueType.Some? {
      var t := valueType.value;
      assert word + " " + t == word + [' '] + t;
      SplitAt(word, ' ', t);
      assert Split(t, ' ') == [t];
      assert word + (" " + t) == word + " " + t;
      var segments := Split(word + " " + t, ' ');
      assert segments == [word, t];
      assert segments[0] == word && segments[1] == t;
    } else {
      assert word + [] == word;
      assert Split(word, ' ') == [word];
    }
  }

  /** Only the second word is the value type: the words after it are
      dropped, and two spaces after the name give the empty type. */
  lemma ColumnOfLeadingWords(word: string, second: string, more: string)
    requires word != [] && ' ' !in word && ' ' !in second
    ensures ParseColumn(word + " " + second + " " + more)
      == Success(ColumnDefinition(if IsQuoteOpener(word[0]) then Unquote(word) else word, Some(second)))
  {
    assert word + " " + second + " " + more == word + [' '] + (second + [' '] + more);
    SplitAt(word, ' ', second + [' '] + more);
    SplitAt(second, ' ', more);
  }

  /** A name followed by two spaces gets the empty value type. */
  lemma DoubleSpaceGivesEmptyType(word: string, more: string)
    requires word != [] && ' ' !in word
    ensures ParseColumn(word + "  " + more).Success?
    ensures ParseColumn(word + "  " + more).value.valueType == Some([])
  {
    assert word + "  " + more == word + " " + [] + " " + more;
    ColumnOfLeadingWords(word, [], more);
  }

  /** A one-character quoted name becomes the empty name. */
  lemma LoneQuoteIsEmptyName(o: char, valueType: string)
    requires IsQuoteOpener(o)
    requires ' ' !in valueType
    ensures ParseColumn([o] + " " + valueType) == Success(ColumnDefinition([], Some(valueType)))
  {
    assert [o] + " " + valueType == [o] + [' '] + valueType;
    SplitAt([o], ' ', valueType);
  }

  predicate Defines(columns: seq<ColumnDefinition>, name: string) {
    exists i :: 0 <= i < |columns| && columns[i].name == name
  }

  predicate DistinctNames(columns: seq<ColumnDefinition>) {
    forall i, j :: 0 <= i < j < |columns| ==> columns[i].name != columns[j].name
  }

  /** The column loop: from the text after "(", with `columns` already
      collected, the columns in declaration order or the first error. */
  function ParseColumns(query: string, columns: seq<ColumnDefinition>): Result<seq<ColumnDefinition>, SchemaError>
    decreases |query|
  {
    if query == [] then Success(columns)
    else
      var q := SkipComment(query);
      if IsTableConstraint(q) then Success(columns)
      else
        var (column, rest) := Partition(q, ',');
        match ParseColumn(column)
        case Failure(e) => Failure(e)
        case Success(definition) =>
          if Defines(columns, definition.name) then Failure(ColumnAlreadyDefined(definition.name))
          else ParseColumns(LStrip(rest), columns + [definition])
  }

  /** What the statement leaves for the column loop: the text after "(",
      or a virtual table, or an error. */
  datatype Header = Body(text: string) | VirtualTable | HeaderRejected(error: SchemaError)

  /** The checks before the column loop: the statement must read
      `CREATE TABLE <name> (...)` once tab runs are one space, with the
      table name written as the first character after "TABLE " says. */
  function ParseHeader(tableName: string, query: string): Header {
    ParseStatement(tableName, query, CollapseRuns(query, {'\t'}))
  }

  /** The checks on the statement `q` once its tab runs are collapsed;
      `query` is the statement as stored, which the errors quote. */
  function ParseStatement(tableName: string, query: string, q: string): Header {
    if !StartsWith(q, "CREATE ") || q[|q| - 1] != ')' then HeaderRejected(UnsupportedQuery(query))
    else
      assert q[..7][6] == ' ';
      ParseKind(tableName, query, q[7..|q| - 1])
  }

  /** The checks on what follows "CREATE ", without the closing ")". */
  function ParseKind(tableName: string, query: string, q: string): Header {
    if StartsWith(q, "VIRTUAL ") then VirtualTable
    else if !StartsWith(q, "TABLE ") then HeaderRejected(UnsupportedQuery(query))
    else ParseTableName(tableName, query, q[6..])
  }

  /** The checks on what follows "TABLE ": the table name as its first
      character says it is quoted, optional whitespace, and "(". */
  function ParseTableName(tableName: string, query: string, q: string): Header {
    if q == [] then HeaderRejected(IndexOutOfRange)
    else
      var start := QuotedName(QuotingOf(q[0]), tableName);
      if !StartsWith(q, start) then HeaderRejected(UnsupportedQuery(query))
      else
        var q := LStrip(q[|start|..]);
        if q == [] then HeaderRejected(IndexOutOfRange)
        else if q[0] != '(' then HeaderRejected(UnsupportedQuery(query))
        else Body(LStrip(q[1..]))
  }

  /** The whole statement of one table, as the parser reads it. */
  function ParseTable(tableName: string, query: string): TableOutcome {
    match ParseHeader(tableName, query)
    case VirtualTable => Virtual
    case HeaderRejected(e) => Rejected(e)
    case Body(text) =>
      match ParseColumns(text, [])
      case Success(columns) => Columns(columns)
      case Failure(e) => Rejected(e)
  }

  /** Parses the statement of one table, as the loop body of
      `_FormatSchemaAsYAML` does. */
  method ParseCreateTable(tableName: string, query: string) returns (outcome: TableOutcome)
    ensures outcome == ParseTable(tableName, query)
  {
    var header := ReadHeader(tableName, query);
    match header {
      case VirtualTable => return Virtual;
      case HeaderRejected(e) => return Rejected(e);
      case Body(text) =>
        var columns := CollectColumns(text);
        match columns {
          case Success(definitions) => return Columns(definitions);
          case Failure(e) => return Rejected(e);
        }
    }
  }

  /** The checks before the column loop, reassigning the query step by step. */
  method ReadHeader(tableName: string, originalQuery: string) returns (header: Header)
    ensures header == ParseHeader(tableName, originalQuery)
  {
    var query := CollapseRuns(originalQuery, {'\t'});
    if !StartsWith(query, "CREATE ") || query[|query| - 1] != ')' {
      return HeaderRejected(UnsupportedQuery(originalQuery));
    }
    assert query[..7][6] == ' ';
    query := query[7..|query| - 1];
    if StartsWith(query, "VIRTUAL ") {
      return VirtualTable;
    }
    if !StartsWith(query, "TABLE ") {
      return HeaderRejected(UnsupportedQuery(originalQuery));
    }
    query := query[6..];
    assert ParseHeader(tableName, originalQuery) == ParseTableName(tableName, originalQuery, query);
    if query == [] {
      return HeaderRejected(IndexOutOfRange);
    }
    var queryStart := QuotedName(QuotingOf(query[0]), tableName);
    if !StartsWith(query, queryStart) {
      return HeaderRejected(UnsupportedQuery(originalQuery));
    }
    query := LStrip(query[|queryStart|..]);
    if query == [] {
      return HeaderRejected(IndexOutOfRange);
    }
    if query[0] != '(' {
      return HeaderRejected(UnsupportedQuery(originalQuery));
    }
    return Body(LStrip(query[1..]));
  }

  /** The `while query:` loop: one column per comma-separated clause, until
      the text runs out or a table constraint starts. */
  method CollectColumns(body: string) returns (r: Result<seq<ColumnDefinition>, SchemaError>)
    ensures r == ParseColumns(body, [])
  {
    var query := body;
    var columnDefinitions: seq<ColumnDefinition> := [];
    while query != []
      invariant ParseColumns(query, columnDefinitions) == ParseColumns(body, [])
      decreases |query|
    {
      ghost var before := query;
      if StartsWith(query, "-- ") {
        query := LStrip(Partition(query, '\n').1);
      }
      assert query == SkipComment(before);
      if IsTableConstraint(query) {
        break;
      }
      var column, rest := Partition(query, ',').0, Partition(query, ',').1;
      query := LStrip(rest);
      var parsed := ParseColumn(column);
      if parsed.Failure? {
        return Failure(parsed.error);
      }
      var definition := parsed.value;
      if Defines(columnDefinitions, definition.name) {
        return Failure(ColumnAlreadyDefined(definition.name));
      }
      columnDefinitions := columnDefinitions + [definition];
    }
    return Success(columnDefinitions);
  }

  /** The column loop only ever appends: the columns collected before it
      starts stay first, in order, and no name occurs twice. */
  lemma {:induction false} ParseColumnsKeepsCollected(query: string, columns: seq<ColumnDefinition>)
    requires DistinctNames(columns)
    ensures ParseColumns(query, columns).Success? ==>
      var all := ParseColumns(query, columns).value;
      |columns| <= |all| && all[..|columns|] == columns && DistinctNames(all)
    decreases |query|
  {
    if query != [] {
      var q := SkipComment(query);
      if !IsTableConstraint(q) {
        var (column, rest) := Partition(q, ',');
        var parsed := ParseColumn(column);
        if parsed.Success? && !Defines(columns, parsed.value.name) {
          var next := columns + [parsed.value];
          assert DistinctNames(next) by {
            forall i, j | 0 <= i < j < |next|
              ensures next[i].name != next[j].name
            {
              if j == |columns| {
                assert next[i] == columns[i];
              }
            }
          }
          ParseColumnsKeepsCollected(LStrip(rest), next);
          assert ParseColumns(query, columns) == ParseColumns(LStrip(rest), next);
          if ParseColumns(query, columns).Success? {
            var all := ParseColumns(query, columns).value;
            assert all[..|columns|] == all[..|next|][..|columns|];
          }
        }
      }
    }
  }

  /** A parsed table never defines a column name twice. */
  lemma ParsedColumnsAreDistinct(tableName: string, query: string)
    ensures ParseTable(tableName, query).Columns? ==> DistinctNames(ParseTable(tableName, query).columns)
  {
    var header := ParseHeader(tableName, query);
    if header.Body? {
      ParseColumnsKeepsCollected(header.text, []);
    }
  }

  /** The statement text ends with ")". */
  predicate ClosesWithParen(q: string) {
    q != [] && q[|q| - 1] == ')'
  }

  /** A statement that passes the first check is longer than "CREATE )". */
  lemma CreateLength(q: string)
    requires StartsWith(q, "CREATE ") && ClosesWithParen(q)
    ensures |q| >= 8
  {
    assert q[..7][6] == ' ';
  }

  lemma StatementIsVirtual(tableName: string, query: string, q: string)
    ensures ParseStatement(tableName, query, q) == VirtualTable <==>
      StartsWith(q, "CREATE VIRTUAL ") && ClosesWithParen(q)
  {
    if StartsWith(q, "CREATE ") && ClosesWithParen(q) {
      CreateLength(q);
      var body := q[7..|q| - 1];
      if StartsWith(q, "CREATE VIRTUAL ") {
        assert q[..15][14] == ' ';
        assert body[..8] == q[..15][7..];
      }
      if StartsWith(body, "VIRTUAL ") {
        assert q[..15] == q[..7] + body[..8];
      }
    } else if StartsWith(q, "CREATE VIRTUAL ") {
      assert q[..7] == q[..15][..7];
    }
  }

  /** A table is skipped, without an error, exactly when its statement reads
      "CREATE VIRTUAL " ... ")" once tab runs are one space. */
  lemma VirtualTablesAreSkipped(tableName: string, query: string)
    ensures ParseTable(tableName, query) == Virtual <==>
      (var q := CollapseRuns(query, {'\t'}); StartsWith(q, "CREATE VIRTUAL ") && ClosesWithParen(q))
  {
    StatementIsVirtual(tableName, query, CollapseRuns(query, {'\t'}));
  }

  lemma StatementIsUnsupported(tableName: string, query: string, q: string)
    ensures ParseStatement(tableName, query, q) != HeaderRejected(UnsupportedQuery(query)) ==>
      ClosesWithParen(q) && (StartsWith(q, "CREATE TABLE ") || StartsWith(q, "CREATE VIRTUAL "))
  {
    if StartsWith(q, "CREATE ") && ClosesWithParen(q) {
      CreateLength(q);
      var body := q[7..|q| - 1];
      if StartsWith(body, "VIRTUAL ") {
        assert q[..15] == q[..7] + body[..8];
      } else if StartsWith(body, "TABLE ") {
        assert q[..13] == q[..7] + body[..6];
      }
    }
  }

  /** Anything but "CREATE TABLE " or "CREATE VIRTUAL " ... ")" is an
      unsupported query. */
  lemma OnlyCreateStatementsAreSupported(tableName: string, query: string)
    requires var q := CollapseRuns(query, {'\t'});
      !ClosesWithParen(q) || !(StartsWith(q, "CREATE TABLE ") || StartsWith(q, "CREATE VIRTUAL "))
    ensures ParseTable(tableName, query) == Rejected(UnsupportedQuery(query))
  {
    StatementIsUnsupported(tableName, query, CollapseRuns(query, {'\t'}));
  }

  /** The statement names the table as `tableName` written with `quoting`,
      followed by optional whitespace and "(". */
  predicate DeclaresTable(statement: string, tableName: string, quoting: TableQuoting) {
    var prefix := "CREATE TABLE " + QuotedName(quoting, tableName);
    && StartsWith(statement, prefix)
    && var rest := LStrip(statement[|prefix|..]);
    && rest != []
    && rest[0] == '('
  }

  lemma {:induction false} LStripAppend(a: string, b: string)
    requires LStrip(a) != []
    ensures LStrip(a + b) == LStrip(a) + b
  {
    assert a != [];
    assert (a + b)[0] == a[0];
    if IsSpace(a[0]) {
      assert (a + b)[1..] == a[1..] + b;
      LStripAppend(a[1..], b);
    }
  }

  lemma TableNameDeclared(tableName: string, query: string, rest: string)
    requires ParseTableName(tableName, query, rest).Body?
    ensures rest != [] && StartsWith(rest, QuotedName(QuotingOf(rest[0]), tableName))
    ensures var after := LStrip(rest[|QuotedName(QuotingOf(rest[0]), tableName)|..]);
      after != [] && after[0] == '('
  {
  }

  lemma StatementBody(tableName: string, query: string, q: string)
    requires ParseStatement(tableName, query, q).Body?
    ensures StartsWith(q, "CREATE ") && ClosesWithParen(q) && |q| >= 8
    ensures ParseKind(tableName, query, q[7..|q| - 1]).Body?
  {
    CreateLength(q);
  }

  lemma KindBody(tableName: string, query: string, body: string)
    requires ParseKind(tableName, query, body).Body?
    ensures StartsWith(body, "TABLE ")
    ensures ParseTableName(tableName, query, body[6..]).Body?
  {
  }

  lemma CreateTableShape(q: string)
    requires StartsWith(q, "CREATE ") && ClosesWithParen(q)
    requires StartsWith(q[7..|q| - 1], "TABLE ")
    ensures |q| >= 14 && q[7..|q| - 1][6..] == q[13..|q| - 1]
    ensures q == "CREATE TABLE " + q[13..|q| - 1] + ")"
  {
    var body := q[7..|q| - 1];
    assert q[..13] == q[..7] + body[..6];
    assert q == q[..13] + q[13..|q| - 1] + [q[|q| - 1]];
  }

  lemma StatementDeclaresName(tableName: string, query: string, q: string)
    requires ParseStatement(tableName, query, q).Body?
    ensures |q| > 13 && DeclaresTable(q, tableName, QuotingOf(q[13]))
  {
    StatementBody(tableName, query, q);
    KindBody(tableName, query, q[7..|q| - 1]);
    CreateTableShape(q);
    var rest := q[13..|q| - 1];
    TableNameDeclared(tableName, query, rest);
    DeclaredPrefix(q, rest, QuotedName(QuotingOf(rest[0]), tableName));
  }

  lemma DeclaredPrefix(q: string, rest: string, name: string)
    requires q == "CREATE TABLE " + rest + ")"
    requires StartsWith(rest, name)
    requires var after := LStrip(rest[|name|..]); after != [] && after[0] == '('
    ensures var prefix := "CREATE TABLE " + name;
      StartsWith(q, prefix) && LStrip(q[|prefix|..]) == LStrip(rest[|name|..]) + ")"
  {
    DeclaredPrefixShape(q, rest, name);
    var prefix := "CREATE TABLE " + name;
    LStripClosed(q[|prefix|..], rest[|name|..]);
  }

  lemma DeclaredPrefixShape(q: string, rest: string, name: string)
    requires q == "CREATE TABLE " + rest + ")"
    requires StartsWith(rest, name)
    ensures var prefix := "CREATE TABLE " + name;
      StartsWith(q, prefix) && q[|prefix|..] == rest[|name|..] + ")"
  {
    var prefix := "CREATE TABLE " + name;
    assert q[..|prefix|] == prefix;
  }

  lemma LStripClosed(closed: string, open: string)
    requires LStrip(open) != []
    requires closed == open + ")"
    ensures LStrip(closed) == LStrip(open) + ")"
  {
    LStripAppend(open, ")");
  }

  lemma StatementOfCreate(tableName: string, query: string, q: string, inner: string)
    requires q == "CREATE " + inner + ")"
    ensures ParseStatement(tableName, query, q) == ParseKind(tableName, query, inner)
  {
    assert q[..7] == "CREATE ";
    assert q[7..|q| - 1] == inner;
  }

  lemma KindOfTable(tableName: string, query: string, inner: string, rest: string)
    requires inner == "TABLE " + rest
    ensures ParseKind(tableName, query, inner) == ParseTableName(tableName, query, rest)
  {
    assert inner[..6] == "TABLE ";
    assert !StartsWith(inner, "VIRTUAL ") by {
      if |inner| >= 8 {
        assert inner[..8][0] == 'T';
      }
    }
    assert inner[6..] == rest;
  }

  /** A table whose columns are read was declared under its own name, in the
      quoting that the first character after "CREATE TABLE " picks. */
  lemma ParsedTableDeclaresItsName(tableName: string, query: string)
    ensures var q := CollapseRuns(query, {'\t'});
      ParseTable(tableName, query).Columns? ==> |q| > 13 && DeclaresTable(q, tableName, QuotingOf(q[13]))
  {
    var q := CollapseRuns(query, {'\t'});
    if ParseStatement(tableName, query, q).Body? {
      StatementDeclaresName(tableName, query, q);
    }
  }

  /** The name check of a "CREATE TABLE <rest>)" statement: an empty rest, a
      rest that does not begin with the table name in the quoting its first
      character picks, and a name followed by nothing but whitespace or by
      anything but "(" all reject the table. */
  lemma TableNameCheckRejects(tableName: string, query: string, rest: string)
    requires CollapseRuns(query, {'\t'}) == "CREATE TABLE " + rest + ")"
    ensures rest == [] ==> ParseTable(tableName, query) == Rejected(IndexOutOfRange)
    ensures rest != [] && !StartsWith(rest, QuotedName(QuotingOf(rest[0]), tableName)) ==>
      ParseTable(tableName, query) == Rejected(UnsupportedQuery(query))
    ensures rest != [] && StartsWith(rest, QuotedName(QuotingOf(rest[0]), tableName)) ==>
      var after := LStrip(rest[|QuotedName(QuotingOf(rest[0]), tableName)|..]);
      (after == [] ==> ParseTable(tableName, query) == Rejected(IndexOutOfRange)) &&
      (after != [] && after[0] != '(' ==> ParseTable(tableName, query) == Rejected(UnsupportedQuery(query)))
  {
    var q := CollapseRuns(query, {'\t'});
    var inner := "TABLE " + rest;
    assert q == "CREATE " + inner + ")";
    StatementOfCreate(tableName, query, q, inner);
    KindOfTable(tableName, query, inner, rest);
  }

  /** A "-- " comment line in front of a clause is dropped with the
      whitespace after it, and the clause that follows is read as usual,
      provided it is not a second comment line (only one is skipped per
      clause). */
  lemma CommentLineIsSkipped(comment: string, rest: string, columns: seq<ColumnDefinition>)
    requires '\n' !in comment
    requires LStrip(rest) != [] && !StartsWith(LStrip(rest), "-- ")
    ensures ParseColumns("-- " + comment + "\n" + rest, columns) == ParseColumns(LStrip(rest), columns)
  {
    var line := "-- " + comment;
    assert '\n' !in line;
    PartitionAt(line, '\n', rest);
    assert StartsWith(line + "\n" + rest, "-- ");
  }

  /** A comment line with nothing but whitespace after it leaves an empty
      clause, which raises IndexError. */
  lemma TrailingComment(comment: string, ws: string, columns: seq<ColumnDefinition>)
    requires '\n' !in comment && LStrip(ws) == []
    ensures ParseColumns("-- " + comment + "\n" + ws, columns) == Failure(IndexOutOfRange)
  {
    var line := "-- " + comment;
    assert '\n' !in line;
    PartitionAt(line, '\n', ws);
    assert StartsWith(line + "\n" + ws, "-- ");
    assert Partition([], ',') == ([], []);
  }

  /** A comment with no newline after it takes the rest of the body with
      it and leaves an empty clause, which raises IndexError too. */
  lemma UnterminatedComment(comment: string, columns: seq<ColumnDefinition>)
    requires '\n' !in comment
    ensures ParseColumns("-- " + comment, columns) == Failure(IndexOutOfRange)
  {
    var line := "-- " + comment;
    assert '\n' !in line;
    assert StartsWith(line, "-- ");
    assert Partition([], ',') == ([], []);
  }

  /** Only one comment line is skipped per clause: a second one is read as
      a column named "--" whose value type is the comment's first word. */
  lemma SecondCommentLineIsColumn(first: string, second: string, rest: string, columns: seq<ColumnDefinition>)
    requires '\n' !in first && ' ' !in second && ',' !in second
    ensures var query := "-- " + first + "\n" + "-- " + second + "\n " + rest;
      var (clauseRest, after) := Partition(rest, ',');
      ParseColumns(query, columns) ==
        if Defines(columns, "--") then Failure(ColumnAlreadyDefined("--"))
        else ParseColumns(LStrip(after), columns + [ColumnDefinition("--", Some(second + "\n"))])
  {
    var next := "-- " + second + "\n " + rest;
    var query := "-- " + first + "\n" + "-- " + second + "\n " + rest;
    assert query == "-- " + first + "\n" + next by {
      CommentLines(first, second, rest);
    }
    OneCommentSkipped(first, next);
    var head := "-- " + second + "\n ";
    var (clauseRest, after) := Partition(rest, ',');
    SecondCommentClause(second, rest);
    ColumnOfLeadingWords("--", second + "\n", clauseRest);
    assert "--" + " " + (second + "\n") + " " + clauseRest == head + clauseRest by {
      CommentWords(second, clauseRest);
    }
    ColumnsStep(query, columns, head + clauseRest, after,
                ColumnDefinition("--", Some(second + "\n")));
  }

  lemma CommentLines(first: string, second: string, rest: string)
    ensures "-- " + first + "\n" + "-- " + second + "\n " + rest == "-- " + first + "\n" + ("-- " + second + "\n " + rest)
  {
  }

  lemma CommentWords(second: string, clauseRest: string)
    ensures "--" + " " + (second + "\n") + " " + clauseRest == "-- " + second + "\n " + clauseRest
  {
  }

  lemma OneCommentSkipped(first: string, next: string)
    requires '\n' !in first && next != [] && next[0] == '-'
    ensures SkipComment("-- " + first + "\n" + next) == next
  {
    var line := "-- " + first;
    assert '\n' !in line;
    PartitionAt(line, '\n', next);
    assert StartsWith(line + "\n" + next, "-- ");
  }

  lemma SecondCommentClause(second: string, rest: string)
    requires ' ' !in second && ',' !in second
    ensures var next := "-- " + second + "\n " + rest;
      !IsTableConstraint(next) &&
      Partition(next, ',') == ("-- " + second + "\n " + Partition(rest, ',').0, Partition(rest, ',').1)
  {
    var head := "-- " + second + "\n ";
    var next := head + rest;
    assert next[0] == '-';
    DashIsNoConstraint(next);
    assert ',' !in head by {
      assert forall i :: 0 <= i < |head| ==> head[i] in "- \n" || head[i] in second;
    }
    PartitionAfter(head, rest, ',');
  }

  lemma DashIsNoConstraint(clause: string)
    requires clause != [] && clause[0] == '-'
    ensures !IsTableConstraint(clause)
  {
  }

  /** One turn of the column loop over a clause that parses. */
  lemma ColumnsStep(query: string, columns: seq<ColumnDefinition>, clause: string, after: string,
                    definition: ColumnDefinition)
    requires query != [] && !IsTableConstraint(SkipComment(query))
    requires Partition(SkipComment(query), ',') == (clause, after)
    requires ParseColumn(clause) == Success(definition)
    ensures ParseColumns(query, columns) ==
      if Defines(columns, definition.name) then Failure(ColumnAlreadyDefined(definition.name))
      else ParseColumns(LStrip(after), columns + [definition])
  {
  }

  /** Once a clause starts with "CONSTRAINT", "UNIQUE" or "PRIMARY KEY",
      after at most one comment line, the loop ends with the columns it
      has, whatever text follows. */
  lemma TableConstraintEndsColumns(query: string, columns: seq<ColumnDefinition>)
    requires query != [] && IsTableConstraint(SkipComment(query))
    ensures ParseColumns(query, columns) == Success(columns)
  {
  }
}
