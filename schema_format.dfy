/** `FormatSchema` (sqliterc/schema_extractor.py): the choice between the
    text and the YAML rendering of a schema. */
module SchemaFormat {
  import opened Wrappers
  import opened Resources
  import opened Ordering
  import opened YamlFormat
  import opened TextFormat

  /** "text" gives the word-wrapped rendering, "yaml" the YAML one, and any
      other output format raises. */
  method FormatSchema(schema: seq<Item>, outputFormat: string, wrap: string -> seq<string>)
    returns (r: Result<string, SchemaError>)
    ensures outputFormat == "text" ==> r == TextRendering(schema, wrap)
    ensures outputFormat == "yaml" ==> r == YamlRendering(schema)
    ensures outputFormat != "text" && outputFormat != "yaml" ==> r == Failure(UnsupportedOutputFormat(outputFormat))
  {
    if outputFormat == "text" {
      r := FormatSchemaAsText(schema, wrap);
      return;
    }
    if outputFormat == "yaml" {
      r := FormatSchemaAsYaml(schema);
      return;
    }
    return Failure(UnsupportedOutputFormat(outputFormat));
  }
}
