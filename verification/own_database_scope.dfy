/** The global scope every catalog model carries: keep only rows of the
    connection's own database, minus the framework's housekeeping tables. */
module OwnDatabaseScope {
  import opened Wrappers
  import opened Seqs
  import opened Catalog

  /** Tables created by the framework itself, never reported as entities. */
  const DenyList: seq<string> := ["failed_jobs", "migrations", "password_resets"]

  /** The condition `table_schema = <database> AND table_name NOT IN (<deny list>)`. */
  predicate Visible(schema: string, tableName: string, database: string) {
    schema == database && tableName !in DenyList
  }

  function VisibleTable(database: string): TableRow -> bool {
    (t: TableRow) => Visible(t.schema, t.name, database)
  }

  function VisibleColumn(database: string): ColumnRow -> bool {
    (c: ColumnRow) => Visible(c.schema, c.tableName, database)
  }

  function VisibleKey(database: string): KeyUsageRow -> bool {
    (k: KeyUsageRow) => Visible(k.schema, k.tableName, database)
  }

  /** The scope applied to `information_schema.tables`. */
  function ScopeTables(rows: seq<TableRow>, database: string): (r: seq<TableRow>)
    ensures forall t :: t in r <==> t in rows && t.schema == database && t.name !in DenyList
    ensures forall t :: t in r ==> t.name != "failed_jobs" && t.name != "migrations" && t.name != "password_resets"
    ensures IsSubsequence(r, rows)
  {
    Filter(rows, VisibleTable(database))
  }

  /** The scope applied to `information_schema.columns` (on the owning table's name). */
  function ScopeColumns(rows: seq<ColumnRow>, database: string): (r: seq<ColumnRow>)
    ensures forall c :: c in r <==> c in rows && c.schema == database && c.tableName !in DenyList
    ensures forall c :: c in r ==> c.tableName != "failed_jobs" && c.tableName != "migrations" && c.tableName != "password_resets"
    ensures IsSubsequence(r, rows)
  {
    Filter(rows, VisibleColumn(database))
  }

  /** The scope applied to `information_schema.key_column_usage` (on the row's own
      table, not on the referenced one). */
  function ScopeKeys(rows: seq<KeyUsageRow>, database: string): (r: seq<KeyUsageRow>)
    ensures forall k :: k in r <==> k in rows && k.schema == database && k.tableName !in DenyList
    ensures forall k :: k in r ==> k.tableName != "failed_jobs" && k.tableName != "migrations" && k.tableName != "password_resets"
    ensures IsSubsequence(r, rows)
  {
    Filter(rows, VisibleKey(database))
  }

  /** The scoped views of a snapshot, as every model query sees them. */
  function Tables(cat: Snapshot): seq<TableRow> {
    ScopeTables(cat.tables, cat.database)
  }

  function Columns(cat: Snapshot): seq<ColumnRow> {
    ScopeColumns(cat.columns, cat.database)
  }

  function Keys(cat: Snapshot): seq<KeyUsageRow> {
    ScopeKeys(cat.keys, cat.database)
  }

  /** Applying the scope to already scoped rows changes nothing. */
  lemma ScopeIdempotent(cat: Snapshot)
    ensures ScopeTables(Tables(cat), cat.database) == Tables(cat)
    ensures ScopeColumns(Columns(cat), cat.database) == Columns(cat)
    ensures ScopeKeys(Keys(cat), cat.database) == Keys(cat)
  {
    FilterIdempotent(cat.tables, VisibleTable(cat.database));
    FilterIdempotent(cat.columns, VisibleColumn(cat.database));
    FilterIdempotent(cat.keys, VisibleKey(cat.database));
  }
}
