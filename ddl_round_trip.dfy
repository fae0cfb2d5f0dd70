/** CREATE TABLE statements written the way SQLite stores a plain table
    definition, and what the parser of `_FormatSchemaAsYAML` reads back from
    them: the columns in declaration order, or the first column defined twice. */
module DdlRoundTrip {
  import opened Wrappers
  import opened PyStrings
  import opened Resources
  import opened DdlParser

  /** One word of a column clause: no space, comma or tab. */
  predicate IsPlainWord(s: string) {
    forall i :: 0 <= i < |s| ==> s[i] != ' ' && s[i] != ',' && s[i] != '\t'
  }

  /** The clause declaring one column: its name, then its type after one space. */
  function ClauseText(column: ColumnDefinition): string {
    match column.valueType
    case None => column.name
    case Some(t) => column.name + " " + t
  }

  /** A column the parser can read back from its clause: an unquoted name
      that does not start with whitespace, words without separators, and a
      clause that is neither a comment nor a table constraint. */
  predicate IsPlainColumn(column: ColumnDefinition) {
    && column.name != []
    && IsPlainWord(column.name)
    && !IsSpace(column.name[0])
    && !IsQuoteOpener(column.name[0])
    && (column.valueType.Some? ==> IsPlainWord(column.valueType.value))
    && !StartsWith(ClauseText(column), "-- ")
    && !IsTableConstraint(ClauseText(column))
  }

  /** A table name the parser can find after "TABLE ": no tab, and, when it
      is written bare, not empty and not starting with a quote character. */
  predicate IsPlainTableName(quoting: TableQuoting, tableName: string) {
    && (forall i :: 0 <= i < |tableName| ==> tableName[i] != '\t')
    && (quoting == Bare ==> tableName != [] && !IsQuoteOpener(tableName[0]))
  }

  /** A table-level clause without tabs that ends the column list. */
  predicate IsTrailingConstraint(constraint: Option<string>) {
    constraint.Some? ==>
      IsTableConstraint(constraint.value) && forall i :: 0 <= i < |constraint.value| ==> constraint.value[i] != '\t'
  }

  function Clauses(columns: seq<ColumnDefinition>): seq<string> {
    seq(|columns|, i requires 0 <= i < |columns| => ClauseText(columns[i]))
  }

  function Trailer(constraint: Option<string>): seq<string> {
    if constraint.Some? then [constraint.value] else []
  }

  /** The text between the parentheses: the column clauses, then the
      optional table constraint, separated by ", ". */
  function TableBody(columns: seq<ColumnDefinition>, constraint: Option<string>): string {
    Join(Clauses(columns) + Trailer(constraint), ", ")
  }

  function CreateTableStatement(quoting: TableQuoting, tableName: string, columns: seq<ColumnDefinition>,
                                constraint: Option<string>): string {
    "CREATE TABLE " + QuotedName(quoting, tableName) + " (" + TableBody(columns, constraint) + ")"
  }

  /** Column `j` is the first one whose name an earlier column already has. */
  predicate FirstRepeat(columns: seq<ColumnDefinition>, j: int) {
    0 < j < |columns| && DistinctNames(columns[..j]) && Defines(columns[..j], columns[j].name)
  }

  /** The definitions collected one at a time after `defined`, stopping at the
      first name already collected. */
  function Accumulate(defined: seq<ColumnDefinition>, columns: seq<ColumnDefinition>): Result<seq<ColumnDefinition>, SchemaError>
    decreases |columns|
  {
    if columns == [] then Success(defined)
    else if Defines(defined, columns[0].name) then Failure(ColumnAlreadyDefined(columns[0].name))
    else Accumulate(defined + [columns[0]], columns[1..])
  }

  /** Collecting succeeds with every column exactly when the names are
      distinct, and otherwise reports the first repeated name. */
  lemma {:induction false} AccumulateOutcome(defined: seq<ColumnDefinition>, columns: seq<ColumnDefinition>)
    requires DistinctNames(defined)
    ensures DistinctNames(defined + columns) ==> Accumulate(defined, columns) == Success(defined + columns)
    ensures !DistinctNames(defined + columns) ==>
      exists j :: |defined| <= j && FirstRepeat(defined + columns, j)
        && Accumulate(defined, columns) == Failure(ColumnAlreadyDefined((defined + columns)[j].name))
    decreases |columns|
  {
    var all := defined + columns;
    if columns == [] {
      assert all == defined;
    } else if Defines(defined, columns[0].name) {
      var j := |defined|;
      assert all[..j] == defined && all[j] == columns[0];
      assert FirstRepeat(all, j);
      var i :| 0 <= i < |defined| && defined[i].name == columns[0].name;
      assert all[i].name == all[j].name;
    } else {
      var next := defined + [columns[0]];
      assert DistinctNames(next) by {
        forall i, k | 0 <= i < k < |next|
          ensures next[i].name != next[k].name
        {
          if k == |defined| {
            assert next[i] == defined[i];
          }
        }
      }
      assert next + columns[1..] == all;
      AccumulateOutcome(next, columns[1..]);
    }
  }

  lemma ParseClause(column: ColumnDefinition)
    requires IsPlainColumn(column)
    ensures ParseColumn(ClauseText(column)) == Success(column)
  {
    var name := column.name;
    assert ' ' !in name by {
      forall i | 0 <= i < |name| ensures name[i] != ' ' { }
    }
    match column.valueType {
      case None =>
        SplitJoin([name], ' ');
      case Some(t) =>
        assert ' ' !in t by {
          forall i | 0 <= i < |t| ensures t[i] != ' ' { }
        }
        SplitJoin([name, t], ' ');
        assert Join([name, t], " ") == name + " " + t;
    }
  }

  lemma ClauseAvoids(column: ColumnDefinition, c: char)
    requires IsPlainColumn(column)
    requires c == ',' || c == '\t'
    ensures c !in ClauseText(column)
  {
    var text := ClauseText(column);
    forall i | 0 <= i < |text|
      ensures text[i] != c
    {
      if i >= |column.name| && column.valueType.Some? {
        if i > |column.name| {
          assert text[i] == column.valueType.value[i - |column.name| - 1];
        }
      }
    }
  }

  /** A text beginning with a comma-free clause followed by nothing or by a
      comma starts with a comma-free keyword only if the clause does. */
  lemma StartsWithBeforeComma(clause: string, after: string, keyword: string)
    requires ',' !in clause && ',' !in keyword
    requires after == [] || after[0] == ','
    ensures StartsWith(clause + after, keyword) ==> StartsWith(clause, keyword)
  {
    if |keyword| > |clause| && after != [] {
      assert (clause + after)[|clause|] == ',';
      assert keyword[|clause|] != ',';
    } else if |keyword| <= |clause| {
      assert (clause + after)[..|keyword|] == clause[..|keyword|];
    }
  }

  /** A clause that is neither a comment nor a constraint stays so when the
      rest of the list follows it after a comma. */
  lemma ClauseHead(first: string, after: string)
    requires ',' !in first && (after == [] || after[0] == ',')
    requires !StartsWith(first, "-- ") && !IsTableConstraint(first)
    ensures !IsTableConstraint(first + after)
    ensures SkipComment(first + after) == first + after
  {
    StartsWithBeforeComma(first, after, "-- ");
    StartsWithBeforeComma(first, after, "CONSTRAINT");
    StartsWithBeforeComma(first, after, "UNIQUE");
    StartsWithBeforeComma(first, after, "PRIMARY KEY");
  }

  lemma JoinFirst(parts: seq<string>, sep: string)
    requires |parts| >= 1 && parts[0] != []
    ensures Join(parts, sep) != [] && Join(parts, sep)[0] == parts[0][0]
  {
  }

  lemma ConstraintStart(constraint: string)
    requires IsTableConstraint(constraint)
    ensures constraint != [] && !IsSpace(constraint[0]) && !StartsWith(constraint, "-- ")
  {
    assert constraint[0] == constraint[..6][0];
  }

  /** The clauses after the first one, joined, start with a non-space. */
  lemma RestStart(columns: seq<ColumnDefinition>, constraint: Option<string>)
    requires forall i :: 0 <= i < |columns| ==> IsPlainColumn(columns[i])
    requires IsTrailingConstraint(constraint)
    ensures var text := TableBody(columns, constraint); text == [] || !IsSpace(text[0])
  {
    var parts := Clauses(columns) + Trailer(constraint);
    if columns != [] {
      assert parts[0] == ClauseText(columns[0]);
      JoinFirst(parts, ", ");
    } else if constraint.Some? {
      assert parts == [constraint.value];
      ConstraintStart(constraint.value);
    }
  }

  /** The clause text of one column followed by the rest of the body. */
  lemma BodySplit(columns: seq<ColumnDefinition>, constraint: Option<string>)
    requires columns != []
    ensures var rest := TableBody(columns[1..], constraint);
      var more := Clauses(columns[1..]) + Trailer(constraint);
      TableBody(columns, constraint) == ClauseText(columns[0]) + (if more == [] then [] else ", " + rest)
  {
    var more := Clauses(columns[1..]) + Trailer(constraint);
    var parts := Clauses(columns) + Trailer(constraint);
    assert parts == [ClauseText(columns[0])] + more;
    assert parts[1..] == more;
  }

  /** The column loop reads the clauses of plain columns back, in order,
      stopping at the table constraint or the first repeated name. */
  lemma {:induction false} ParseClauses(columns: seq<ColumnDefinition>, constraint: Option<string>,
                                        defined: seq<ColumnDefinition>)
    requires forall i :: 0 <= i < |columns| ==> IsPlainColumn(columns[i])
    requires IsTrailingConstraint(constraint)
    ensures ParseColumns(TableBody(columns, constraint), defined) == Accumulate(defined, columns)
    decreases |columns|
  {
    var text := TableBody(columns, constraint);
    if columns == [] {
      assert Clauses(columns) + Trailer(constraint) == Trailer(constraint);
      if constraint.Some? {
        ConstraintStart(constraint.value);
      }
    } else {
      var column := columns[0];
      var tail := FirstClause(columns, constraint);
      ParseClause(column);
      ColumnsStep(text, defined, ClauseText(column), tail, column);
      if !Defines(defined, column.name) {
        ParseClauses(columns[1..], constraint, defined + [column]);
      }
    }
  }

  /** The column loop's view of a body of plain clauses: the first clause is
      neither a comment nor a constraint, it ends at the first comma, and
      what follows is the body of the remaining clauses once stripped. */
  lemma FirstClause(columns: seq<ColumnDefinition>, constraint: Option<string>) returns (tail: string)
    requires columns != []
    requires forall i :: 0 <= i < |columns| ==> IsPlainColumn(columns[i])
    requires IsTrailingConstraint(constraint)
    ensures TableBody(columns, constraint) != []
    ensures SkipComment(TableBody(columns, constraint)) == TableBody(columns, constraint)
    ensures !IsTableConstraint(TableBody(columns, constraint))
    ensures Partition(TableBody(columns, constraint), ',') == (ClauseText(columns[0]), tail)
    ensures LStrip(tail) == TableBody(columns[1..], constraint)
  {
    var text := TableBody(columns, constraint);
    var column := columns[0];
    var first := ClauseText(column);
    var more := Clauses(columns[1..]) + Trailer(constraint);
    var rest := TableBody(columns[1..], constraint);
    tail := if more == [] then [] else " " + rest;
    var after := if more == [] then [] else [','] + tail;
    BodySplit(columns, constraint);
    assert text == first + after;
    ClauseAvoids(column, ',');
    ClauseHead(first, after);
    assert column.name != [];
    RestStart(columns[1..], constraint);
    if more == [] {
      assert text == first;
    } else {
      PartitionAt(first, ',', tail);
      assert text == first + [','] + tail;
    }
    assert LStrip(tail) == rest;
  }

  lemma TableBodyHasNoTab(columns: seq<ColumnDefinition>, constraint: Option<string>)
    requires forall i :: 0 <= i < |columns| ==> IsPlainColumn(columns[i])
    requires IsTrailingConstraint(constraint)
    ensures '\t' !in TableBody(columns, constraint)
  {
    var parts := Clauses(columns) + Trailer(constraint);
    forall i | 0 <= i < |parts|
      ensures '\t' !in parts[i]
    {
      if i < |columns| {
        ClauseAvoids(columns[i], '\t');
      } else {
        assert parts[i] == constraint.value;
        assert forall k :: 0 <= k < |parts[i]| ==> parts[i][k] != '\t';
      }
    }
    JoinAvoids(parts, ", ", '\t');
  }

  lemma StatementHasNoTab(quoting: TableQuoting, tableName: string, columns: seq<ColumnDefinition>,
                          constraint: Option<string>)
    requires IsPlainTableName(quoting, tableName)
    requires forall i :: 0 <= i < |columns| ==> IsPlainColumn(columns[i])
    requires IsTrailingConstraint(constraint)
    ensures forall i :: 0 <= i < |CreateTableStatement(quoting, tableName, columns, constraint)| ==>
      CreateTableStatement(quoting, tableName, columns, constraint)[i] != '\t'
  {
    TableBodyHasNoTab(columns, constraint);
    QuotedNameHasNoTab(quoting, tableName);
    var statement := CreateTableStatement(quoting, tableName, columns, constraint);
    assert '\t' !in statement;
    NotInAnyIndex(statement, '\t');
  }

  lemma QuotedNameHasNoTab(quoting: TableQuoting, tableName: string)
    requires forall i :: 0 <= i < |tableName| ==> tableName[i] != '\t'
    ensures '\t' !in QuotedName(quoting, tableName)
  {
  }

  lemma NotInAnyIndex(s: string, c: char)
    requires c !in s
    ensures forall i :: 0 <= i < |s| ==> s[i] != c
  {
  }

  lemma TableNameParts(quoting: TableQuoting, tableName: string, query: string, body: string)
    requires IsPlainTableName(quoting, tableName)
    requires body == [] || !IsSpace(body[0])
    ensures ParseTableName(tableName, query, QuotedName(quoting, tableName) + " (" + body) == Body(body)
  {
    var name := QuotedName(quoting, tableName);
    var q := name + " (" + body;
    assert name != [] && q[0] == name[0];
    assert QuotingOf(q[0]) == quoting;
    assert q[..|name|] == name;
    assert q[|name|..] == " (" + body;
    LStripOpenParen(body);
  }

  lemma LStripOpenParen(body: string)
    ensures LStrip(" (" + body) == "(" + body
    ensures ("(" + body)[1..] == body
  {
    assert (" (" + body)[1..] == "(" + body;
  }

  /** A CREATE TABLE statement for plain columns parses back to its columns,
      whichever quoting the table name has; a name declared twice is rejected
      at its second declaration. */
  lemma CreateTableRoundTrip(quoting: TableQuoting, tableName: string, columns: seq<ColumnDefinition>,
                             constraint: Option<string>)
    requires IsPlainTableName(quoting, tableName)
    requires forall i :: 0 <= i < |columns| ==> IsPlainColumn(columns[i])
    requires IsTrailingConstraint(constraint)
    ensures var statement := CreateTableStatement(quoting, tableName, columns, constraint);
      DistinctNames(columns) ==> ParseTable(tableName, statement) == Columns(columns)
    ensures var statement := CreateTableStatement(quoting, tableName, columns, constraint);
      !DistinctNames(columns) ==>
        (exists j :: FirstRepeat(columns, j)
           && ParseTable(tableName, statement) == Rejected(ColumnAlreadyDefined(columns[j].name)))
  {
    var statement := CreateTableStatement(quoting, tableName, columns, constraint);
    HeaderOfStatement(quoting, tableName, columns, constraint);
    ParseClauses(columns, constraint, []);
    AccumulateOutcome([], columns);
    assert [] + columns == columns;
  }

  lemma HeaderOfStatement(quoting: TableQuoting, tableName: string, columns: seq<ColumnDefinition>,
                          constraint: Option<string>)
    requires IsPlainTableName(quoting, tableName)
    requires forall i :: 0 <= i < |columns| ==> IsPlainColumn(columns[i])
    requires IsTrailingConstraint(constraint)
    ensures ParseHeader(tableName, CreateTableStatement(quoting, tableName, columns, constraint))
         == Body(TableBody(columns, constraint))
  {
    StatementHasNoTab(quoting, tableName, columns, constraint);
    RestStart(columns, constraint);
    HeaderOfParts(quoting, tableName, TableBody(columns, constraint),
                  CreateTableStatement(quoting, tableName, columns, constraint));
  }

  lemma HeaderOfParts(quoting: TableQuoting, tableName: string, body: string, statement: string)
    requires IsPlainTableName(quoting, tableName)
    requires body == [] || !IsSpace(body[0])
    requires statement == "CREATE TABLE " + QuotedName(quoting, tableName) + " (" + body + ")"
    requires forall i :: 0 <= i < |statement| ==> statement[i] != '\t'
    ensures ParseHeader(tableName, statement) == Body(body)
  {
    var rest := QuotedName(quoting, tableName) + " (" + body;
    var inner := "TABLE " + rest;
    Regroup(statement, QuotedName(quoting, tableName), body);
    CollapseRunsIdentity(statement, {'\t'});
    StatementThroughName(tableName, statement, inner, rest);
    TableNameParts(quoting, tableName, statement, body);
  }

  lemma Regroup(statement: string, name: string, body: string)
    requires statement == "CREATE TABLE " + name + " (" + body + ")"
    ensures statement == "CREATE " + ("TABLE " + (name + " (" + body)) + ")"
  {
  }

  /** A statement "CREATE TABLE <rest>)" is read from the table name on. */
  lemma StatementThroughName(tableName: string, statement: string, inner: string, rest: string)
    requires statement == "CREATE " + inner + ")"
    requires inner == "TABLE " + rest
    ensures ParseStatement(tableName, statement, statement) == ParseTableName(tableName, statement, rest)
  {
    StatementOfCreate(tableName, statement, statement, inner);
    KindOfTable(tableName, statement, inner, rest);
  }
}
