/** The records the extractor builds and the errors it raises. */
module Resources {
  import opened Wrappers

  /** A column of a table: its name and, when the CREATE statement gives one,
      its value type. */
  datatype ColumnDefinition = ColumnDefinition(name: string, valueType: Option<string>)

  /** What the extractor raises: a RuntimeError for an unsupported query, a
      column defined twice or an unknown output format, and Python's
      IndexError where the code indexes an empty string or list. */
  datatype SchemaError =
    | UnsupportedQuery(query: string)
    | ColumnAlreadyDefined(name: string)
    | IndexOutOfRange
    | UnsupportedOutputFormat(outputFormat: string)
}
