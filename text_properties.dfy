/** What `_FormatSchemaAsText` (sqliterc/schema_extractor.py) promises: it
    raises exactly when some statement wraps to no line, the order of the
    dictionary does not matter, and the raw contents of the string literals
    of each entry, concatenated, give back the wrapped statement. Backslash
    escapes other than the escaped quote are not interpreted. */
module TextProperties {
  import opened Wrappers
  import opened PyStrings
  import opened Resources
  import opened Ordering
  import opened TextFormat

  /** The lines of one entry after its opening line. */
  function LiteralLines(pieces: seq<string>, isLast: bool): seq<string>
    requires pieces != []
  {
    if |pieces| == 1 then [PieceIndent + pieces[0] + Closing(isLast)]
    else [QuotedLine(pieces[0])] + LiteralLines(pieces[1..], isLast)
  }

  lemma LastLiteralLine(piece: string, isLast: bool)
    ensures var line := QuotedLine(piece);
            line[..|line| - 2] + Closing(isLast) == PieceIndent + piece + Closing(isLast)
  {
    var line := QuotedLine(piece);
    assert line[..|line| - 2] == PieceIndent + piece;
  }

  /** Every line of an entry but the last is the quoted piece. */
  lemma {:induction false} LiteralLinesAt(pieces: seq<string>, isLast: bool)
    requires pieces != []
    ensures |LiteralLines(pieces, isLast)| == |pieces|
    ensures forall k :: 0 <= k < |pieces| - 1 ==> LiteralLines(pieces, isLast)[k] == QuotedLine(pieces[k])
    ensures LiteralLines(pieces, isLast)[|pieces| - 1] == PieceIndent + pieces[|pieces| - 1] + Closing(isLast)
    decreases |pieces|
  {
    if |pieces| > 1 {
      var rest := LiteralLines(pieces[1..], isLast);
      LiteralLinesAt(pieces[1..], isLast);
      assert LiteralLines(pieces, isLast) == [QuotedLine(pieces[0])] + rest;
      forall k | 1 <= k < |pieces|
        ensures LiteralLines(pieces, isLast)[k] == rest[k - 1]
      {
      }
      forall k | 1 <= k < |pieces|
        ensures pieces[1..][k - 1] == pieces[k]
      {
      }
    }
  }

  lemma LiteralLinesOf(pieces: seq<string>, isLast: bool)
    requires pieces != []
    ensures LiteralLines(pieces, isLast)
         == QuotedLines(pieces)[..|pieces| - 1] + [PieceIndent + pieces[|pieces| - 1] + Closing(isLast)]
  {
    var lines := LiteralLines(pieces, isLast);
    var other := QuotedLines(pieces)[..|pieces| - 1] + [PieceIndent + pieces[|pieces| - 1] + Closing(isLast)];
    LiteralLinesAt(pieces, isLast);
    forall k | 0 <= k < |pieces|
      ensures lines[k] == other[k]
    {
    }
  }

  /** Every literal but the last ends in a space and a quote; the last one
      closes the entry instead. */
  lemma TableBlockLines(tableName: string, pieces: seq<string>, isLast: bool)
    requires pieces != []
    ensures TableBlock(tableName, pieces, isLast) == Success([OpeningLine(tableName)] + LiteralLines(pieces, isLast))
  {
    var quoted := QuotedLines(pieces);
    var lastLine := quoted[|quoted| - 1];
    assert lastLine == QuotedLine(pieces[|pieces| - 1]);
    LastLiteralLine(pieces[|pieces| - 1], isLast);
    LiteralLinesOf(pieces, isLast);
    assert [OpeningLine(tableName)] + quoted[..|quoted| - 1] + [lastLine[..|lastLine| - 2] + Closing(isLast)]
        == [OpeningLine(tableName)] + LiteralLines(pieces, isLast);
  }

  /** The tables' entries fail exactly when some statement wraps to no line,
      and the error is then always Python's IndexError. */
  lemma {:induction false} BlocksFailIffEmptyWrap(items: seq<Item>, wrap: string -> seq<string>)
    ensures Blocks(items, wrap).Failure? <==> exists k :: 0 <= k < |items| && wrap(PreparedQuery(items[k].1)) == []
    ensures Blocks(items, wrap).Failure? ==> Blocks(items, wrap).error == IndexOutOfRange
  {
    if items != [] {
      BlocksFailIffEmptyWrap(items[1..], wrap);
      if exists k :: 0 <= k < |items[1..]| && wrap(PreparedQuery(items[1..][k].1)) == [] {
        var k :| 0 <= k < |items[1..]| && wrap(PreparedQuery(items[1..][k].1)) == [];
        assert items[k + 1] == items[1..][k];
      }
      if exists k :: 0 <= k < |items| && wrap(PreparedQuery(items[k].1)) == [] {
        var k :| 0 <= k < |items| && wrap(PreparedQuery(items[k].1)) == [];
        if k > 0 {
          assert items[1..][k - 1] == items[k];
        }
      }
    }
  }

  /** `_FormatSchemaAsText` raises exactly when the statement of some table
      wraps to no line (an empty or all-blank statement). */
  lemma TextFailsIffSomeWrapEmpty(schema: seq<Item>, wrap: string -> seq<string>)
    ensures TextRendering(schema, wrap).Failure? <==> exists item :: item in schema && wrap(PreparedQuery(item.1)) == []
    ensures TextRendering(schema, wrap).Failure? ==> TextRendering(schema, wrap).error == IndexOutOfRange
  {
    var sorted := SortItems(schema);
    SortItemsCorrect(schema);
    BlocksFailIffEmptyWrap(sorted, wrap);
    if exists item :: item in schema && wrap(PreparedQuery(item.1)) == [] {
      var item :| item in schema && wrap(PreparedQuery(item.1)) == [];
      assert item in multiset(sorted);
      var k :| 0 <= k < |sorted| && sorted[k] == item;
    }
    if exists k :: 0 <= k < |sorted| && wrap(PreparedQuery(sorted[k].1)) == [] {
      var k :| 0 <= k < |sorted| && wrap(PreparedQuery(sorted[k].1)) == [];
      assert sorted[k] in multiset(schema);
    }
  }

  /** The result depends only on the items, not on the order in which the
      dictionary holds them. */
  lemma TextIgnoresItemOrder(schema: seq<Item>, reordered: seq<Item>, wrap: string -> seq<string>)
    requires multiset(schema) == multiset(reordered)
    ensures TextRendering(schema, wrap) == TextRendering(reordered, wrap)
  {
    SortItemsIgnoresOrder(schema, reordered);
  }

  predicate EndsWith(s: string, suffix: string) {
    |suffix| <= |s| && s[|s| - |suffix|..] == suffix
  }

  /** Reads the string literals of one entry: their concatenation, whether
      the entry closes the whole text, and the lines after it. */
  function ReadLiterals(lines: seq<string>): (r: Option<(string, bool, seq<string>)>)
    ensures r.Some? ==> |r.value.2| < |lines|
  {
    if lines == [] || !StartsWith(lines[0], PieceIndent) then None
    else
      var line := lines[0];
      if |line| >= 16 && EndsWith(line, "')}}]") then Some((line[11..|line| - 5], true, lines[1..]))
      else if |line| >= 14 && EndsWith(line, "'),") then Some((line[11..|line| - 3], false, lines[1..]))
      else if |line| >= 13 && EndsWith(line, " '") then
        match ReadLiterals(lines[1..])
        case None => None
        case Some((text, closesAll, rest)) => Some((line[11..|line| - 1] + text, closesAll, rest))
      else None
  }

  /** Reads the entries of a text's lines: each table's name and the
      concatenation of its literals; only the last entry closes the text. */
  function ReadTableEntries(lines: seq<string>): Option<seq<(string, string)>>
    decreases |lines|
  {
    if lines == [] then Some([])
    else
      var line := lines[0];
      if !(|line| >= 11 && StartsWith(line, "      '") && EndsWith(line, "': (")) then None
      else
        match ReadLiterals(lines[1..])
        case None => None
        case Some((text, closesAll, rest)) =>
          if closesAll != (rest == []) then None
          else
            match ReadTableEntries(rest)
            case None => None
            case Some(entries) => Some([(line[7..|line| - 4], text)] + entries)
  }

  lemma ReadClosingLiteral(piece: string, isLast: bool, rest: seq<string>)
    ensures ReadLiterals([PieceIndent + piece + Closing(isLast)] + rest) == Some((piece, isLast, rest))
  {
    var lines := [PieceIndent + piece + Closing(isLast)] + rest;
    var line := lines[0];
    assert line[..11] == PieceIndent;
    assert lines[1..] == rest;
    if isLast {
      assert line[|line| - 5..] == "')}}]";
      assert line[11..|line| - 5] == piece;
    } else {
      assert line[|line| - 1] == ',';
      assert !EndsWith(line, "')}}]");
      assert line[|line| - 3..] == "'),";
      assert line[11..|line| - 3] == piece;
    }
  }

  lemma ReadQuotedLiteral(piece: string, tail: seq<string>)
    ensures ReadLiterals([QuotedLine(piece)] + tail)
         == match ReadLiterals(tail)
            case None => None
            case Some((text, closesAll, rest)) => Some((piece + " " + text, closesAll, rest))
  {
    var lines := [QuotedLine(piece)] + tail;
    var line := lines[0];
    assert line[..11] == PieceIndent;
    assert lines[1..] == tail;
    assert line[|line| - 1] == '\'';
    assert !EndsWith(line, "')}}]") && !EndsWith(line, "'),");
    assert line[|line| - 2..] == " '";
    assert line[11..|line| - 1] == piece + " ";
  }

  /** The raw contents of an entry's literals, taken between their quotes,
      concatenate to its pieces joined by spaces. */
  lemma {:induction false} ReadLiteralLines(pieces: seq<string>, isLast: bool, rest: seq<string>)
    requires pieces != []
    ensures ReadLiterals(LiteralLines(pieces, isLast) + rest) == Some((Join(pieces, " "), isLast, rest))
    decreases |pieces|
  {
    if |pieces| == 1 {
      ReadClosingLiteral(pieces[0], isLast, rest);
    } else {
      ReadLiteralLines(pieces[1..], isLast, rest);
      ReadQuotedLiteral(pieces[0], LiteralLines(pieces[1..], isLast) + rest);
      assert LiteralLines(pieces, isLast) + rest == [QuotedLine(pieces[0])] + (LiteralLines(pieces[1..], isLast) + rest);
    }
  }

  /** Each table's name, with its wrapped statement as the text shows it. */
  function ShownEntries(items: seq<Item>, wrap: string -> seq<string>): (r: seq<(string, string)>)
    ensures |r| == |items|
    ensures forall k :: 0 <= k < |items| ==> r[k] == (items[k].0, Join(wrap(PreparedQuery(items[k].1)), " "))
  {
    if items == [] then [] else [(items[0].0, Join(wrap(PreparedQuery(items[0].1)), " "))] + ShownEntries(items[1..], wrap)
  }

  lemma ReadOpeningLine(tableName: string)
    ensures var line := OpeningLine(tableName);
            |line| >= 11 && StartsWith(line, "      '") && EndsWith(line, "': (") && line[7..|line| - 4] == tableName
  {
    var line := OpeningLine(tableName);
    assert line[..7] == "      '";
    assert line[|line| - 4..] == "': (";
    assert line[7..|line| - 4] == tableName;
  }

  /** One entry is read as its table's name and its pieces joined by
      spaces, as long as it closes the text exactly when nothing follows. */
  lemma ReadTableEntryLines(tableName: string, pieces: seq<string>, isLast: bool, rest: seq<string>)
    requires pieces != []
    requires isLast <==> rest == []
    ensures ReadTableEntries([OpeningLine(tableName)] + LiteralLines(pieces, isLast) + rest)
         == match ReadTableEntries(rest)
            case None => None
            case Some(entries) => Some([(tableName, Join(pieces, " "))] + entries)
  {
    var lines := [OpeningLine(tableName)] + LiteralLines(pieces, isLast) + rest;
    ReadOpeningLine(tableName);
    ReadLiteralLines(pieces, isLast, rest);
    assert lines[1..] == LiteralLines(pieces, isLast) + rest;
  }

  /** Reading the lines of the entries gives back every table's name and
      wrapped statement, in order. */
  lemma {:induction false} ReadBlocks(items: seq<Item>, wrap: string -> seq<string>, lines: seq<string>)
    requires Blocks(items, wrap) == Success(lines)
    ensures ReadTableEntries(lines) == Some(ShownEntries(items, wrap))
  {
    if items != [] {
      var pieces := wrap(PreparedQuery(items[0].1));
      var isLast := |items| == 1;
      var rest := Blocks(items[1..], wrap).value;
      ReadBlocks(items[1..], wrap, rest);
      TableBlockLines(items[0].0, pieces, isLast);
      BlocksEmpty(items[1..], wrap);
      ReadTableEntryLines(items[0].0, pieces, isLast, rest);
    }
  }

  lemma BlocksEmpty(items: seq<Item>, wrap: string -> seq<string>)
    requires Blocks(items, wrap).Success?
    ensures Blocks(items, wrap).value == [] <==> items == []
  {
    if items != [] {
      var pieces := wrap(PreparedQuery(items[0].1));
      TableBlockLines(items[0].0, pieces, |items| == 1);
    }
  }

  /** When the wrapping keeps every word and breaks only at single spaces,
      reading the literals and undoing the quote escaping gives the
      statement with its newlines and tabs collapsed. */
  lemma StatementReadsBack(query: string, wrap: string -> seq<string>)
    requires Join(wrap(PreparedQuery(query)), " ") == PreparedQuery(query)
    ensures UnescapeQuotes(Join(wrap(PreparedQuery(query)), " ")) == CollapseRuns(query, {'\n', '\t'})
  {
    UnescapeEscapeQuotes(CollapseRuns(query, {'\n', '\t'}));
  }
}
