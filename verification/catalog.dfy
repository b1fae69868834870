/** One snapshot of the three `information_schema` views the package reads,
    with only the fields some logic reads. Storage statistics are omitted. */
module Catalog {
  import opened Wrappers

  /** A row of `information_schema.tables`. `TABLE_COMMENT` may be `NULL`. */
  datatype TableRow = TableRow(schema: string, name: string, comment: Option<string>)

  /** A row of `information_schema.columns`; `columnKey` is `COLUMN_KEY`
      (`"PRI"`, `"UNI"`, `"MUL"` or `""`). */
  datatype ColumnRow = ColumnRow(schema: string, tableName: string, name: string, columnKey: string)

  /** A row of `information_schema.key_column_usage`. The `REFERENCED_*` fields
      are `NULL` for primary and unique keys, which reference nothing. */
  datatype KeyUsageRow = KeyUsageRow(
    constraintName: string,
    schema: string,
    tableName: string,
    columnName: string,
    refSchema: Option<string>,
    refTable: Option<string>,
    refColumn: Option<string>)

  /** The catalog rows in the order the database returns them, and the name of
      the database of the current connection. */
  datatype Snapshot = Snapshot(
    database: string,
    tables: seq<TableRow>,
    columns: seq<ColumnRow>,
    keys: seq<KeyUsageRow>)

  /** The two string helpers the package borrows from the framework
      (`Str::singular`, `Str::studly`); their definitions are not part of this model. */
  datatype Inflector = Inflector(singular: string -> string, studly: string -> string)

  /** SQL `field != ''`: false for `NULL` (the comparison is unknown) and for `''`. */
  predicate SqlNonEmpty(field: Option<string>) {
    field.Some? && field.value != ""
  }
}
