/** The lookups of a `key_column_usage` row: its owning table, the column it
    references and its own column. Each is a scoped first-match query; a query
    declared `withDefault()` yields a blank model when nothing matches. */
module KeyColumnUsage {
  import opened Wrappers
  import opened Seqs
  import opened Catalog
  import Scope = OwnDatabaseScope

  /** `tables.TABLE_NAME = key.TABLE_NAME`. */
  function OwnerOf(k: KeyUsageRow): TableRow -> bool {
    (t: TableRow) => t.name == k.tableName
  }

  /** `columns.COLUMN_NAME = key.REFERENCED_COLUMN_NAME` and the same for the
      table and schema. A `NULL` reference compares as `IS NULL`, which no
      catalog column satisfies. */
  function ReferencedBy(k: KeyUsageRow): ColumnRow -> bool {
    (c: ColumnRow) =>
      && k.refColumn == Some(c.name)
      && k.refTable == Some(c.tableName)
      && k.refSchema == Some(c.schema)
  }

  /** `columns.COLUMN_NAME = key.COLUMN_NAME` and the same for the table and schema. */
  function SourceOf(k: KeyUsageRow): ColumnRow -> bool {
    (c: ColumnRow) => c.name == k.columnName && c.tableName == k.tableName && c.schema == k.schema
  }

  /** `table()`: the first scoped table named like the row's `TABLE_NAME`, or a blank table. */
  function Table(k: KeyUsageRow, cat: Snapshot): (r: Fetched<TableRow>)
    ensures r.Blank? <==> forall t :: t in Scope.Tables(cat) ==> t.name != k.tableName
    ensures r.Found? ==> r.row in Scope.Tables(cat) && r.row.name == k.tableName
    ensures r.Found? ==> IsFirst(Scope.Tables(cat), OwnerOf(k), r.row)
  {
    OrBlank(First(Scope.Tables(cat), OwnerOf(k)))
  }

  /** The query behind `belongs_to`, before `withDefault()`: the first scoped
      column the row references. `Column.BelongsTo` calls `->first()` on it. */
  function ReferencedColumn(k: KeyUsageRow, cat: Snapshot): (r: Option<ColumnRow>)
    ensures r.None? <==> forall c :: c in Scope.Columns(cat) ==> !ReferencedBy(k)(c)
    ensures r.Some? ==> r.value in Scope.Columns(cat)
    ensures r.Some? ==>
      && k.refColumn == Some(r.value.name)
      && k.refTable == Some(r.value.tableName)
      && k.refSchema == Some(r.value.schema)
    ensures r.Some? ==> IsFirst(Scope.Columns(cat), ReferencedBy(k), r.value)
  {
    First(Scope.Columns(cat), ReferencedBy(k))
  }

  /** The query behind `has_many`, before `withDefault()`: the first scoped column
      that is the row's own column. */
  function OwnColumn(k: KeyUsageRow, cat: Snapshot): (r: Option<ColumnRow>)
    ensures r.None? <==> forall c :: c in Scope.Columns(cat) ==> !SourceOf(k)(c)
    ensures r.Some? ==> r.value in Scope.Columns(cat)
    ensures r.Some? ==>
      && r.value.name == k.columnName
      && r.value.tableName == k.tableName
      && r.value.schema == k.schema
    ensures r.Some? ==> IsFirst(Scope.Columns(cat), SourceOf(k), r.value)
  {
    First(Scope.Columns(cat), SourceOf(k))
  }

  /** `belongs_to`: the referenced column, or a blank column when it is missing. */
  function BelongsTo(k: KeyUsageRow, cat: Snapshot): (r: Fetched<ColumnRow>)
    ensures r.Blank? <==> forall c :: c in Scope.Columns(cat) ==> !ReferencedBy(k)(c)
    ensures r.Found? ==> r.row in Scope.Columns(cat) && IsFirst(Scope.Columns(cat), ReferencedBy(k), r.row)
    ensures r.Found? ==> Some(r.row.name) == k.refColumn && Some(r.row.tableName) == k.refTable
  {
    OrBlank(ReferencedColumn(k, cat))
  }

  /** `has_many`: the row's own column, or a blank column when it is missing. */
  function HasMany(k: KeyUsageRow, cat: Snapshot): (r: Fetched<ColumnRow>)
    ensures r.Blank? <==> forall c :: c in Scope.Columns(cat) ==> !SourceOf(k)(c)
    ensures r.Found? ==> r.row in Scope.Columns(cat) && IsFirst(Scope.Columns(cat), SourceOf(k), r.row)
    ensures r.Found? ==> r.row.name == k.columnName && r.row.tableName == k.tableName
  {
    OrBlank(OwnColumn(k, cat))
  }

  /** A row with no referenced table (a primary or unique key) never resolves a
      `belongs_to` column: every lookup of it falls back to the blank model. */
  lemma UnreferencingRowBelongsToBlank(k: KeyUsageRow, cat: Snapshot)
    requires k.refTable.None? || k.refColumn.None? || k.refSchema.None?
    ensures BelongsTo(k, cat).Blank?
  {
  }
}
