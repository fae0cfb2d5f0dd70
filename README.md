# SQLite-kb schema extractor, modelled in Dafny

This project models the core of the sqlite-kb schema extractor
(`sqliterc/schema_extractor.py`). The extractor does four things:

- It recognises SQLite 3 database files by their 16-byte magic header.
- It tells which known database a file is by matching its path against
  artifact path templates.
- It reads the `CREATE TABLE` statements of a database schema into column
  definitions.
- It renders a schema in one of two forms: a word-wrapped listing of the
  statements in Python-literal form, or one YAML document per table.

The model keeps the Python code's branches, constants and error paths. Every
exception the code raises is a `SchemaError` value in a `Result`:

- `UnsupportedQuery`, `ColumnAlreadyDefined` and `UnsupportedOutputFormat`
  stand for the three `RuntimeError`s.
- `IndexOutOfRange` stands for the `IndexError` Python raises when it indexes
  an empty string or list.

A schema (`dict[str, str]` from table name to statement) is a sequence of
`(name, statement)` items. `sorted(schema.items())` is an insertion sort on
Python's tuple order. It is proved to be a sorted permutation, and the only
one, so no result depends on the order in which the dictionary holds its
items.

Modules, one per concern:

- `Wrappers`: `Option` and `Result`.
- `Resources`: `ColumnDefinition` and `SchemaError`.
- `PyStrings`: the Python string operations the code uses, with lemmas about
  them. They are `lstrip`, `partition`, `split`, `join`, ASCII `lower`,
  negative slices, `re.sub` of a run of characters, and quote escaping.
- `Ordering`: Python string and tuple comparison, and the sort.
- `DdlParser`: the parser inside `_FormatSchemaAsYAML`.
- `DdlRoundTrip`: statements built from column lists, and what the parser
  reads back from them.
- `YamlFormat`, `YamlProperties`, `YamlReader`: the YAML rendering, what it
  promises, and a reader that takes the YAML apart again.
- `TextFormat`, `TextProperties`: the word-wrapped rendering and what it
  promises.
- `IdentifierMatcher`: `_GetDatabaseIdentifier`.
- `DisplayPath`: `GetDisplayPath`.
- `Signature`: `_CheckSignature`.
- `SchemaFormat`: `FormatSchema`.

The operations that work step by step in the source are methods. The two
renderings, the column loop and the matcher's nested loops are loops with
their invariants. The header checks are a method without a loop that
reassigns the statement check by check. Each such method is proved equal to a specification function,
and the properties are proved about that function.

The model follows the code in these details, which are easy to miss:

- Only tab runs are collapsed before the statement is parsed (line 144).
  Newlines stay. For example, a statement that ends in `INT\n)` gives its
  last column the value type `INT\n`: `DdlRoundTrip.IsPlainWord` admits
  newlines, so `CreateTableRoundTrip` covers that case.
- One rejected statement aborts the whole YAML rendering (lines 146-211). It
  does not skip just that table.
- A quoted column name loses its first and last characters, whatever the last
  character is (line 208).
- A column clause is not trimmed. Only the text after each comma is
  left-stripped (line 203).
- When the last template segment is the `%variable%`, `[-index + 1:]` with
  `index == 1` keeps the whole template (line 297). It does not trim it away.

## Model

| member | source | states |
|---|---|---|
| `Signature.ReadFromStart` | sqliterc/schema_extractor.py:84-85 | reading 16 bytes from the start gives a prefix of the file, exactly 16 bytes long when the file has that many, and the whole file when it is shorter |
| `Signature.CheckSignatureIff` | sqliterc/schema_extractor.py:71-86 | `CheckSignature`, the model of `_CheckSignature`, passes a file exactly when there is a file object, it has at least 16 bytes, and they are the magic header string |
| `Signature.MagicIsAsciiText` | sqliterc/schema_extractor.py:86 | the magic is the 15 ASCII codes of "SQLite format 3" followed by a zero byte |
| `DdlParser.ParseColumn` | sqliterc/schema_extractor.py:205-218 | a clause gives a column only when it is non-empty; the only failure is the IndexError on an empty first word |
| `DdlParser.ColumnOfLeadingWords` | sqliterc/schema_extractor.py:205-218 | in a clause of three or more words the value type is the second word alone, and the words after it are dropped |
| `DdlParser.DoubleSpaceGivesEmptyType` | sqliterc/schema_extractor.py:205-218 | a name followed by two spaces gets the empty value type |
| `DdlParser.ColumnFailsIffNoFirstWord` | sqliterc/schema_extractor.py:205-207 | a clause fails with the IndexError exactly when it is empty or starts with a space |
| `DdlParser.QuotedColumnIsUnquoted` | sqliterc/schema_extractor.py:205-218 | a first word opened by `'`, `"`, `` ` `` or `[` loses its first and last characters, whatever the last one is; in a clause of one or two words the second word, when there is one, is the value type (longer clauses are `ColumnOfLeadingWords`) |
| `DdlParser.LoneQuoteIsEmptyName` | sqliterc/schema_extractor.py:206-208 | a one-character quoted first word gives a column with the empty name |
| `DdlParser.ParseCreateTable` | sqliterc/schema_extractor.py:141-220 | the loop body's outcome for one table (columns, skipped as virtual, or the error) is the specification `ParseTable` |
| `DdlParser.ReadHeader` | sqliterc/schema_extractor.py:141-180 | the step-by-step header checks give the specification `ParseHeader`: the text after "(", a virtual table, or the error |
| `DdlParser.CollectColumns` | sqliterc/schema_extractor.py:182-220 | the `while query:` loop gives the specification `ParseColumns` of the body |
| `DdlParser.ParseColumnsKeepsCollected` | sqliterc/schema_extractor.py:183-220 | the column loop only appends: earlier columns stay first, in order, and names stay distinct |
| `DdlParser.ParsedColumnsAreDistinct` | sqliterc/schema_extractor.py:210-211 | a parsed table never holds two columns with the same name |
| `DdlParser.VirtualTablesAreSkipped` | sqliterc/schema_extractor.py:143-152 | a table is skipped without an error exactly when its tab-collapsed statement starts "CREATE VIRTUAL " and ends with ")" |
| `DdlParser.OnlyCreateStatementsAreSupported` | sqliterc/schema_extractor.py:143-155 | a statement that neither starts "CREATE TABLE " nor "CREATE VIRTUAL " or does not end with ")" is rejected as unsupported, quoting the original statement |
| `DdlParser.ParsedTableDeclaresItsName` | sqliterc/schema_extractor.py:157-180 | a table whose columns are read declares its own name, in the quoting that the first character after "CREATE TABLE " picks, followed by optional whitespace and "(" |
| `DdlParser.TableNameCheckRejects` | sqliterc/schema_extractor.py:157-177 | for "CREATE TABLE <rest>)": an empty rest raises IndexError; a rest that does not begin with the name in the quoting its first character picks is an unsupported query; a name followed by only whitespace raises IndexError, and one followed by anything but "(" is an unsupported query |
| `DdlParser.CommentLineIsSkipped` | sqliterc/schema_extractor.py:184-187 | one "-- " comment line before a clause is dropped with the whitespace after it |
| `DdlParser.UnterminatedComment` | sqliterc/schema_extractor.py:184-207 | a comment with no newline after it takes the rest of the body, and the empty clause left raises IndexError |
| `DdlParser.TrailingComment` | sqliterc/schema_extractor.py:184-207 | a comment line followed only by whitespace leaves an empty clause, which raises IndexError |
| `DdlParser.SecondCommentLineIsColumn` | sqliterc/schema_extractor.py:184-220 | a second comment line is not skipped: it is read as a column named "--" whose value type is the comment's first word with its newline |
| `DdlParser.TableConstraintEndsColumns` | sqliterc/schema_extractor.py:189-198 | a clause starting with CONSTRAINT, UNIQUE or PRIMARY KEY ends the column list, whatever follows |
| `DdlRoundTrip.AccumulateOutcome` | sqliterc/schema_extractor.py:210-220 | collecting columns one by one succeeds with all of them when their names are distinct; otherwise it fails at the first repeated name |
| `DdlRoundTrip.CreateTableRoundTrip` | sqliterc/schema_extractor.py:141-220 | `CREATE TABLE` with any quoting of the name, plain column clauses and an optional trailing table constraint parses back to exactly those columns in order; with a repeated name it fails at the first repeat |
| `Ordering.SortItemsCorrect` | sqliterc/schema_extractor.py:140 | `sorted(schema.items())` is sorted in Python's tuple order and a permutation of the items |
| `Ordering.SortedUnique` | sqliterc/schema_extractor.py:140 | two sorted permutations of the same items are equal |
| `Ordering.SortItemsIgnoresOrder` | sqliterc/schema_extractor.py:105 | the sorted items depend only on the multiset of items |
| `YamlFormat.FormatSchemaAsYaml` | sqliterc/schema_extractor.py:126-233 | the method's result is the specification `YamlRendering` |
| `YamlFormat.AppendTableDocument` | sqliterc/schema_extractor.py:222-230 | appending one table's lines extends the title and documents by that table's document |
| `YamlFormat.AppendColumnLines` | sqliterc/schema_extractor.py:227-230 | the column loop appends exactly the entry lines of the columns, in order |
| `YamlProperties.ParsedTablesFailIffRejected` | sqliterc/schema_extractor.py:140-211 | parsing the items fails exactly when some item's statement is rejected |
| `YamlProperties.FirstRejectionWins` | sqliterc/schema_extractor.py:140-211 | the error reported is that of the first rejected item in sorted order |
| `YamlProperties.ParsedTablesAreTheParsedItems` | sqliterc/schema_extractor.py:140-231 | a table is among the parsed tables exactly when an item with its name parsed to its columns (that each appears once is `TablesStrictlyAscending`) |
| `YamlProperties.TablesStrictlyAscending` | sqliterc/schema_extractor.py:140-231 | when the items have distinct names, as a dictionary's keys are, the parsed tables' names strictly ascend, so no table appears twice |
| `Ordering.KeysDistinctPermutation` | sqliterc/schema_extractor.py:140 | sorting a dictionary's items keeps their names distinct |
| `YamlProperties.TablesInNameOrder` | sqliterc/schema_extractor.py:140 | the rendered tables come in ascending name order |
| `YamlProperties.YamlFailsIffSomeTableRejected` | sqliterc/schema_extractor.py:126-233 | the YAML rendering raises exactly when the statement of some table of the schema is rejected |
| `YamlProperties.YamlDocumentsAreTheParsedTables` | sqliterc/schema_extractor.py:126-233 | on success the text renders tables in ascending name order, and those are exactly the schema's tables that parsed to columns; with distinct names the order is strict, so each appears once |
| `YamlProperties.YamlIgnoresItemOrder` | sqliterc/schema_extractor.py:140 | the YAML rendering depends only on the items, not on their order |
| `YamlReader.ReadEntryLines` | sqliterc/schema_extractor.py:228-230 | a column's entry reads back as its name, with its value type when that is non-empty |
| `YamlReader.ReadColumnLines` | sqliterc/schema_extractor.py:227-230 | the entry lines of a table read back as its columns in order (an empty type reads as none) |
| `YamlReader.ReadDocumentLines` | sqliterc/schema_extractor.py:222-231 | the documents read back as the tables in order |
| `YamlReader.SplitRender` | sqliterc/schema_extractor.py:232-233 | splitting the joined text at newlines gives back the title, the document lines and the final empty line |
| `YamlReader.ReadRender` | sqliterc/schema_extractor.py:138-233 | when no name or type holds a newline, the rendered YAML reads back as the rendered tables |
| `TextFormat.FormatSchemaAsText` | sqliterc/schema_extractor.py:88-124 | the method, counting tables to find the last one, gives the specification `TextRendering` |
| `TextProperties.LiteralLinesAt` | sqliterc/schema_extractor.py:113-119 | every literal line of an entry but the last is the quoted piece; the last ends in the closing text, `')}}]` for the last table and `'),` otherwise |
| `TextProperties.TableBlockLines` | sqliterc/schema_extractor.py:106-121 | a table's entry is its opening line followed by its literal lines |
| `TextProperties.BlocksFailIffEmptyWrap` | sqliterc/schema_extractor.py:105-121 | the entries fail exactly when some statement wraps to no line, and the error is then the IndexError |
| `TextProperties.TextFailsIffSomeWrapEmpty` | sqliterc/schema_extractor.py:88-124 | the text rendering raises exactly when some table's statement wraps to no line |
| `TextProperties.TextIgnoresItemOrder` | sqliterc/schema_extractor.py:105 | the text rendering depends only on the items, not on their order |
| `TextProperties.ReadLiteralLines` | sqliterc/schema_extractor.py:113-119 | the raw contents of an entry's literals, taken between their quotes and concatenated, are the wrapped pieces joined by spaces |
| `TextProperties.ReadBlocks` | sqliterc/schema_extractor.py:102-124 | the entries read back as each table's name and its wrapped statement, in sorted order |
| `TextProperties.BlocksEmpty` | sqliterc/schema_extractor.py:102-124 | the entries are empty exactly when the schema is |
| `TextProperties.StatementReadsBack` | sqliterc/schema_extractor.py:109-112 | when wrapping only breaks at spaces, turning each `\'` of the raw literal contents back into `'` gives the statement with newline and tab runs collapsed |
| `IdentifierMatcher.GetDatabaseIdentifier` | sqliterc/schema_extractor.py:265-321 | the loops give the specification `Identify` |
| `IdentifierMatcher.MatchDefinition` | sqliterc/schema_extractor.py:277-319 | a definition matches exactly when one of its sources matches |
| `IdentifierMatcher.MatchSource` | sqliterc/schema_extractor.py:278-319 | a source matches exactly when it has a file system type and one of its distinct paths matches, whatever order the set gives |
| `IdentifierMatcher.MatchTemplate` | sqliterc/schema_extractor.py:283-318 | one template matches exactly when its split, trimmed segments are no more than the path's and match its tail |
| `IdentifierMatcher.TrimTemplate` | sqliterc/schema_extractor.py:289-298 | the scan from the end gives `Trimmed` of the segments |
| `IdentifierMatcher.MatchTail` | sqliterc/schema_extractor.py:303-316 | the comparison from the last segment, stopping at the first mismatch, matches exactly when every segment matches its aligned path segment |
| `IdentifierMatcher.TrimmedIsAfterLastVariable` | sqliterc/schema_extractor.py:289-298 | trimming keeps the segments after the last `%variable%` segment; it keeps all of them when there is none, or when the last segment is the variable |
| `IdentifierMatcher.TrimmedHasNoVariable` | sqliterc/schema_extractor.py:289-298 | unless the last segment is a variable, the compared segments hold no variable |
| `IdentifierMatcher.TemplateOfAbsolutePath` | sqliterc/schema_extractor.py:283-286 | a leading separator's empty segment is dropped |
| `IdentifierMatcher.MatchIgnoresCase` | sqliterc/schema_extractor.py:311-314 | matching is the same after lower-casing template and path |
| `IdentifierMatcher.WildcardsMatchAnything` | sqliterc/schema_extractor.py:308-309 | a template made of `*` segments matches every path at least as long |
| `IdentifierMatcher.IdentifyIsFirstMatch` | sqliterc/schema_extractor.py:275-321 | the identifier returned is that of the first definition with a match; none is returned exactly when no definition matches |
| `DisplayPath.TranslateAll` | sqliterc/schema_extractor.py:357-360 | the result is a new list of the translated segments, one for one and in order |
| `DisplayPath.GetDisplayPath` | sqliterc/schema_extractor.py:344-368 | the display path is never empty, and without a stream it is "/" whenever the translated segments join to the empty text, as `display_path or '/'` gives |
| `DisplayPath.DisplayPathSegments` | sqliterc/schema_extractor.py:357-361 | without a stream, splitting at "/" gives back the translated segments when they hold no "/" |
| `DisplayPath.DisplayPathStream` | sqliterc/schema_extractor.py:363-366 | with a non-empty stream, the text after the last ":" is the translated stream name |
| `DisplayPath.DisplayPathWithStream` | sqliterc/schema_extractor.py:357-366 | with a non-empty stream, the displayed path splits at its one ":" into the slash-joined path, which splits back into the translated segments, and the translated stream name |
| `SchemaFormat.FormatSchema` | sqliterc/schema_extractor.py:427-446 | "text" gives the text rendering, "yaml" the YAML one, and any other format the unsupported-format error |
| `PyStrings.LStripDropsOnlySpace` | sqliterc/schema_extractor.py:174 | `lstrip` drops only a leading run of whitespace |
| `PyStrings.Partition` | sqliterc/schema_extractor.py:202 | `partition` splits at the first separator when there is one, and gives the whole text and nothing otherwise |
| `PyStrings.SplitJoin` | sqliterc/schema_extractor.py:205 | splitting pieces joined by a separator gives them back |
| `PyStrings.JoinSplit` | sqliterc/schema_extractor.py:283 | joining the pieces of a split gives the text back |
| `PyStrings.SplitAppend` | sqliterc/schema_extractor.py:366 | splitting at a separator between two texts splits each on its own |
| `PyStrings.UnescapeEscapeQuotes` | sqliterc/schema_extractor.py:111 | escaping single quotes can be undone |
| `PyStrings.CollapseRunsIdentity` | sqliterc/schema_extractor.py:144 | collapsing runs changes nothing in a text that holds none of the characters |

## Left out

- `__init__` reads the known-databases file and the artifact registry. The
  model takes its result, the known databases in order, as the input of
  `GetDatabaseIdentifier`.
- `_GetDatabaseSchema` and `_GetDatabaseSchemaFromFileObject` query SQLite
  through `sqlite3` and a temporary file. They are I/O and are not modelled;
  a schema is an input.
- `ExtractSchemas` walks a storage image through dfVFS and is left out. The
  command-line scripts and the tests are left out too.
- `_CheckSignature` reads through a file-like object. Its seek and read are
  modelled on the file's content.
- The word wrapping of `textwrap.TextWrapper` (width 66, long words kept,
  whitespace dropped) is the parameter `wrap`. The text properties hold for
  every `wrap`. `StatementReadsBack` needs a `wrap` whose pieces join back
  with single spaces.
- Backslash escapes are not modelled. The source escapes only single quotes
  (line 111), so a statement that holds a backslash would be read back by
  Python differently. `ReadLiteralLines` and `StatementReadsBack` speak of
  the raw text between the quotes, not of the string Python builds from it.
- The non-printable-character translation table is the parameter `translate`.
- `str.lower()` is modelled on ASCII letters only.
- An artifact source's separator is one character.
- The artifact type indicators are the datatype `SourceType`. Their string
  values belong to the artifacts library.
- `set(source.paths)` is the set of the listed paths, visited in an arbitrary
  order chosen by `:|`.
- IdentifierMatcher.MatchTail: requires the template to be no longer than the
  path. Its only caller, `MatchTemplate`, returns false before it otherwise,
  as the source does at line 300.
- A schema is a sequence of items that may repeat a name. A Python dict
  cannot, so the proofs cover more inputs than the source meets. Where a
  property needs distinct names, the predicate `Ordering.KeysDistinct`
  states it.
