/** What `_FormatSchemaAsYAML` (sqliterc/schema_extractor.py) promises about
    its result: which schemas it rejects and with which error, that every
    parsed table and only those appear, in ascending name order, and that
    the order in which the dictionary holds its items does not matter. */
module YamlProperties {
  import opened Wrappers
  import opened Resources
  import opened Ordering
  import opened DdlParser
  import opened YamlFormat

  /** The outcome of parsing one item of a schema. */
  function OutcomeOf(item: Item): TableOutcome {
    ParseTable(item.0, item.1)
  }

  /** The tables are parsed to a failure exactly when some item is rejected. */
  lemma {:induction false} ParsedTablesFailIffRejected(items: seq<Item>)
    ensures ParsedTables(items).Failure? <==> exists k :: 0 <= k < |items| && OutcomeOf(items[k]).Rejected?
  {
    if items != [] {
      ParsedTablesFailIffRejected(items[1..]);
      if OutcomeOf(items[0]).Rejected? {
      } else {
        forall k | 1 <= k < |items| && OutcomeOf(items[k]).Rejected?
          ensures exists k' :: 0 <= k' < |items[1..]| && OutcomeOf(items[1..][k']).Rejected?
        {
          assert items[1..][k - 1] == items[k];
        }
        if exists k' :: 0 <= k' < |items[1..]| && OutcomeOf(items[1..][k']).Rejected? {
          var k' :| 0 <= k' < |items[1..]| && OutcomeOf(items[1..][k']).Rejected?;
          assert items[k' + 1] == items[1..][k'];
        }
      }
    }
  }

  /** The error reported is the error of the first rejected item. */
  lemma {:induction false} FirstRejectionWins(items: seq<Item>, e: SchemaError)
    requires ParsedTables(items) == Failure(e)
    ensures exists k :: 0 <= k < |items| && OutcomeOf(items[k]) == Rejected(e)
                        && forall j :: 0 <= j < k ==> !OutcomeOf(items[j]).Rejected?
  {
    if OutcomeOf(items[0]).Rejected? {
      assert OutcomeOf(items[0]) == Rejected(e);
    } else {
      FirstRejectionWins(items[1..], e);
      var k :| 0 <= k < |items[1..]| && OutcomeOf(items[1..][k]) == Rejected(e)
               && forall j :: 0 <= j < k ==> !OutcomeOf(items[1..][j]).Rejected?;
      assert items[k + 1] == items[1..][k];
      forall j | 0 <= j < k + 1
        ensures !OutcomeOf(items[j]).Rejected?
      {
        if j > 0 {
          assert items[j] == items[1..][j - 1];
        }
      }
    }
  }

  /** Every table in a successful parse is an item whose statement parsed to
      exactly those columns, and every item that parsed to columns is
      there. */
  lemma {:induction false} ParsedTablesAreTheParsedItems(items: seq<Item>, tables: seq<Table>)
    requires ParsedTables(items) == Success(tables)
    ensures forall t :: t in tables <==>
              exists k :: 0 <= k < |items| && items[k].0 == t.name && OutcomeOf(items[k]) == Columns(t.columns)
  {
    if items != [] {
      var rest := ParsedTables(items[1..]);
      assert rest.Success?;
      ParsedTablesAreTheParsedItems(items[1..], rest.value);
      forall t
        ensures t in tables <==>
                exists k :: 0 <= k < |items| && items[k].0 == t.name && OutcomeOf(items[k]) == Columns(t.columns)
      {
        if t in rest.value {
          var k :| 0 <= k < |items[1..]| && items[1..][k].0 == t.name && OutcomeOf(items[1..][k]) == Columns(t.columns);
          assert items[k + 1] == items[1..][k];
        }
        if k :| 0 <= k < |items| && items[k].0 == t.name && OutcomeOf(items[k]) == Columns(t.columns) {
          if k > 0 {
            assert items[1..][k - 1] == items[k];
          }
        }
      }
    }
  }

  lemma SortedTail(items: seq<Item>)
    requires items != [] && IsSorted(items)
    ensures IsSorted(items[1..])
  {
    forall i, j | 0 <= i < j < |items[1..]|
      ensures ItemAtMost(items[1..][i], items[1..][j])
    {
      assert items[1..][i] == items[i + 1] && items[1..][j] == items[j + 1];
    }
  }

  /** A table parsed from a later item of sorted items has a name no smaller
      than the first item's. */
  lemma LaterTableNotBelow(items: seq<Item>, t: Table)
    requires items != [] && IsSorted(items)
    requires exists k :: 0 <= k < |items[1..]| && items[1..][k].0 == t.name && OutcomeOf(items[1..][k]) == Columns(t.columns)
    ensures !Below(t.name, items[0].0)
  {
    var k :| 0 <= k < |items[1..]| && items[1..][k].0 == t.name && OutcomeOf(items[1..][k]) == Columns(t.columns);
    assert items[k + 1] == items[1..][k];
    assert ItemAtMost(items[0], items[k + 1]);
  }

  /** What one item's contribution leaves of a successful parse. */
  lemma ContributionSucceeds(tableName: string, outcome: TableOutcome, rest: Result<seq<Table>, SchemaError>, tables: seq<Table>)
    requires Contribution(tableName, outcome, rest) == Success(tables)
    ensures rest.Success?
    ensures outcome.Columns? ==> tables == [Table(tableName, outcome.columns)] + rest.value
    ensures outcome.Virtual? ==> tables == rest.value
  {
  }

  /** The documents follow the items' order: a table never comes after one
      whose name is greater, so in sorted items the names ascend. */
  lemma {:induction false} TablesInNameOrder(items: seq<Item>, tables: seq<Table>)
    requires IsSorted(items)
    requires ParsedTables(items) == Success(tables)
    ensures forall i, j :: 0 <= i < j < |tables| ==> !Below(tables[j].name, tables[i].name)
  {
    if items != [] {
      var outcome := OutcomeOf(items[0]);
      var rest := ParsedTables(items[1..]);
      ContributionSucceeds(items[0].0, outcome, rest, tables);
      SortedTail(items);
      TablesInNameOrder(items[1..], rest.value);
      if outcome.Columns? {
        ParsedTablesAreTheParsedItems(items[1..], rest.value);
        forall t | t in rest.value
          ensures !Below(t.name, items[0].0)
        {
          LaterTableNotBelow(items, t);
        }
        NamesAfterFirst(Table(items[0].0, outcome.columns), rest.value);
      }
    }
  }

  lemma NamesAfterFirst(first: Table, rest: seq<Table>)
    requires forall i, j :: 0 <= i < j < |rest| ==> !Below(rest[j].name, rest[i].name)
    requires forall t :: t in rest ==> !Below(t.name, first.name)
    ensures var tables := [first] + rest;
            forall i, j :: 0 <= i < j < |tables| ==> !Below(tables[j].name, tables[i].name)
  {
    var tables := [first] + rest;
    forall i, j | 0 <= i < j < |tables|
      ensures !Below(tables[j].name, tables[i].name)
    {
      assert tables[j] == rest[j - 1];
      if i > 0 {
        assert tables[i] == rest[i - 1];
      }
    }
  }

  /** With distinct table names, as a dictionary has, the names of sorted
      items strictly ascend, so no table is rendered twice. */
  lemma {:induction false} TablesStrictlyAscending(items: seq<Item>, tables: seq<Table>)
    requires IsSorted(items) && KeysDistinct(items)
    requires ParsedTables(items) == Success(tables)
    ensures forall i, j :: 0 <= i < j < |tables| ==> Below(tables[i].name, tables[j].name)
  {
    if items != [] {
      var outcome := OutcomeOf(items[0]);
      var rest := ParsedTables(items[1..]);
      ContributionSucceeds(items[0].0, outcome, rest, tables);
      SortedTail(items);
      assert KeysDistinct(items[1..]) by {
        forall i, j | 0 <= i < j < |items[1..]|
          ensures items[1..][i].0 != items[1..][j].0
        {
          assert items[1..][i] == items[i + 1] && items[1..][j] == items[j + 1];
        }
      }
      TablesStrictlyAscending(items[1..], rest.value);
      if outcome.Columns? {
        ParsedTablesAreTheParsedItems(items[1..], rest.value);
        forall t | t in rest.value
          ensures Below(items[0].0, t.name)
        {
          LaterTableAbove(items, t);
        }
        NamesAboveFirst(Table(items[0].0, outcome.columns), rest.value);
      }
    }
  }

  /** A table parsed from a later item of sorted items with distinct names
      has a greater name than the first item's. */
  lemma LaterTableAbove(items: seq<Item>, t: Table)
    requires items != [] && IsSorted(items) && KeysDistinct(items)
    requires exists k :: 0 <= k < |items[1..]| && items[1..][k].0 == t.name && OutcomeOf(items[1..][k]) == Columns(t.columns)
    ensures Below(items[0].0, t.name)
  {
    var k :| 0 <= k < |items[1..]| && items[1..][k].0 == t.name && OutcomeOf(items[1..][k]) == Columns(t.columns);
    assert items[k + 1] == items[1..][k];
    assert ItemAtMost(items[0], items[k + 1]);
    BelowTotal(items[0].0, t.name);
  }

  lemma NamesAboveFirst(first: Table, rest: seq<Table>)
    requires forall i, j :: 0 <= i < j < |rest| ==> Below(rest[i].name, rest[j].name)
    requires forall t :: t in rest ==> Below(first.name, t.name)
    ensures var tables := [first] + rest;
            forall i, j :: 0 <= i < j < |tables| ==> Below(tables[i].name, tables[j].name)
  {
    var tables := [first] + rest;
    forall i, j | 0 <= i < j < |tables|
      ensures Below(tables[i].name, tables[j].name)
    {
      assert tables[j] == rest[j - 1];
      if i > 0 {
        assert tables[i] == rest[i - 1];
      }
    }
  }

  /** `_FormatSchemaAsYAML` raises exactly when the statement of some table of
      the schema is rejected. */
  lemma YamlFailsIffSomeTableRejected(schema: seq<Item>)
    ensures YamlRendering(schema).Failure? <==> exists item :: item in schema && OutcomeOf(item).Rejected?
  {
    var sorted := SortItems(schema);
    SortItemsCorrect(schema);
    ParsedTablesFailIffRejected(sorted);
    if exists item :: item in schema && OutcomeOf(item).Rejected? {
      var item :| item in schema && OutcomeOf(item).Rejected?;
      assert item in multiset(sorted);
      var k :| 0 <= k < |sorted| && sorted[k] == item;
    }
    if exists k :: 0 <= k < |sorted| && OutcomeOf(sorted[k]).Rejected? {
      var k :| 0 <= k < |sorted| && OutcomeOf(sorted[k]).Rejected?;
      assert sorted[k] in multiset(schema);
    }
  }

  /** `text` holds one document per table of `tables`, in ascending name
      order (strictly ascending when the schema's names are distinct, so
      that no table appears twice), and those are exactly the tables whose
      items in `schema` parsed to columns. */
  ghost predicate RendersParsedTables(schema: seq<Item>, text: string, tables: seq<Table>) {
    && text == Render(tables)
    && (forall i, j :: 0 <= i < j < |tables| ==> !Below(tables[j].name, tables[i].name))
    && (KeysDistinct(schema) ==> forall i, j :: 0 <= i < j < |tables| ==> Below(tables[i].name, tables[j].name))
    && (forall t :: t in tables <==> exists item :: item in schema && item.0 == t.name && OutcomeOf(item) == Columns(t.columns))
  }

  /** On success the documents are those of the parsed tables, in ascending
      name order, and every table that parsed to columns is there, once
      when the schema's names are distinct. */
  lemma YamlDocumentsAreTheParsedTables(schema: seq<Item>, text: string)
    requires YamlRendering(schema) == Success(text)
    ensures exists tables: seq<Table> :: RendersParsedTables(schema, text, tables)
  {
    var sorted := SortItems(schema);
    SortItemsCorrect(schema);
    var tables := ParsedTables(sorted).value;
    assert text == Render(tables);
    TablesInNameOrder(sorted, tables);
    if KeysDistinct(schema) {
      KeysDistinctPermutation(schema, sorted);
      TablesStrictlyAscending(sorted, tables);
    }
    ParsedTablesAreTheParsedItems(sorted, tables);
    TablesOfSchema(schema, sorted, tables);
    assert RendersParsedTables(schema, text, tables);
  }

  /** The tables parsed from the sorted items are those parsed from the
      schema's items, as sorting keeps every item. */
  lemma TablesOfSchema(schema: seq<Item>, sorted: seq<Item>, tables: seq<Table>)
    requires multiset(sorted) == multiset(schema)
    requires forall t :: t in tables <==>
               exists k :: 0 <= k < |sorted| && sorted[k].0 == t.name && OutcomeOf(sorted[k]) == Columns(t.columns)
    ensures forall t :: t in tables <==>
              exists item :: item in schema && item.0 == t.name && OutcomeOf(item) == Columns(t.columns)
  {
    forall t
      ensures t in tables <==> exists item :: item in schema && item.0 == t.name && OutcomeOf(item) == Columns(t.columns)
    {
      if t in tables {
        var k :| 0 <= k < |sorted| && sorted[k].0 == t.name && OutcomeOf(sorted[k]) == Columns(t.columns);
        assert sorted[k] in multiset(schema);
      }
      if exists item :: item in schema && item.0 == t.name && OutcomeOf(item) == Columns(t.columns) {
        var item :| item in schema && item.0 == t.name && OutcomeOf(item) == Columns(t.columns);
        assert item in multiset(sorted);
        var k :| 0 <= k < |sorted| && sorted[k] == item;
      }
    }
  }

  /** The result depends only on the items, not on the order in which the
      dictionary holds them. */
  lemma YamlIgnoresItemOrder(schema: seq<Item>, reordered: seq<Item>)
    requires multiset(schema) == multiset(reordered)
    ensures YamlRendering(schema) == YamlRendering(reordered)
  {
    SortItemsIgnoresOrder(schema, reordered);
  }
}
