/** A row of `information_schema.columns` and the two relations the package
    derives for it: the column it references through a foreign key
    (`belongs_to`) and the column that references it (`has_many`). */
module Column {
  import opened Wrappers
  import opened Seqs
  import opened Catalog
  import Scope = OwnDatabaseScope
  import Key = KeyColumnUsage

  /** Name of the connection whose catalog reports lower-case field names. */
  const Pgsql: string := "pgsql"

  /** PHP `strtolower` on one character: only ASCII `A`..`Z` change. */
  function LowerChar(c: char): (r: char)
    ensures 'A' <= c <= 'Z' ==> r as int == c as int + 32
    ensures !('A' <= c <= 'Z') ==> r == c
    ensures !('A' <= r <= 'Z')
  {
    if 'A' <= c <= 'Z' then (c as int + 32) as char else c
  }

  /** PHP `strtolower`. */
  function Lower(s: string): (r: string)
    ensures |r| == |s|
    ensures forall i :: 0 <= i < |s| ==> r[i] == LowerChar(s[i])
  {
    if |s| == 0 then "" else [LowerChar(s[0])] + Lower(s[1..])
  }

  /** Lower-casing a lower-cased name changes nothing. */
  lemma LowerIdempotent(s: string)
    ensures Lower(Lower(s)) == Lower(s)
  {
    assert forall i :: 0 <= i < |s| ==> LowerChar(LowerChar(s[i])) == LowerChar(s[i]);
  }

  /** The key `__get` hands to `getAttribute`: lower-cased when the default
      connection is `pgsql`, unchanged otherwise. */
  function AttributeKey(key: string, defaultConnection: string): (r: string)
    ensures |r| == |key|
    ensures defaultConnection == Pgsql ==> forall i :: 0 <= i < |r| ==> r[i] == LowerChar(key[i])
    ensures defaultConnection == Pgsql ==> forall i :: 0 <= i < |r| ==> !('A' <= r[i] <= 'Z')
    ensures defaultConnection != Pgsql ==> r == key
  {
    if defaultConnection == Pgsql then Lower(key) else key
  }

  /** `__get`: the attribute stored under the normalised key; `null` when absent. */
  function Attribute<V>(attributes: map<string, V>, key: string, defaultConnection: string): (r: Option<V>)
    ensures r.Some? <==> AttributeKey(key, defaultConnection) in attributes
    ensures r.Some? ==> r.value == attributes[AttributeKey(key, defaultConnection)]
  {
    var k := AttributeKey(key, defaultConnection);
    if k in attributes then Some(attributes[k]) else None
  }

  /** On `pgsql`, names that differ only in ASCII case read the same attribute,
      and a key that is already normalised reads itself. */
  lemma PgsqlAttributeIgnoresCase<V>(attributes: map<string, V>, key1: string, key2: string)
    requires Lower(key1) == Lower(key2)
    ensures Attribute(attributes, key1, Pgsql) == Attribute(attributes, key2, Pgsql)
    ensures Attribute(attributes, AttributeKey(key1, Pgsql), Pgsql) == Attribute(attributes, key1, Pgsql)
  {
    LowerIdempotent(key1);
  }

  /** The upper-case property `TABLE_NAME` reaches the `table_name` field
      PostgreSQL reports only through the `pgsql` normalisation. */
  lemma UpperCasePropertyReadsPgsqlField(v: string)
    ensures Attribute(map["table_name" := v], "TABLE_NAME", Pgsql) == Some(v)
    ensures Attribute(map["table_name" := v], "TABLE_NAME", "mysql") == None
  {
    assert Lower("TABLE_NAME") == "table_name";
  }

  /** `tables.TABLE_NAME = column.TABLE_NAME`. */
  function OwnedBy(col: ColumnRow): TableRow -> bool {
    (t: TableRow) => t.name == col.tableName
  }

  /** `table()`: the first scoped table named like the column's `TABLE_NAME`;
      unlike the key-usage lookups there is no default, so `null` when missing. */
  function Table(col: ColumnRow, cat: Snapshot): (r: Option<TableRow>)
    ensures r.None? <==> forall t :: t in Scope.Tables(cat) ==> t.name != col.tableName
    ensures r.Some? ==> r.value in Scope.Tables(cat) && r.value.name == col.tableName
    ensures r.Some? ==> IsFirst(Scope.Tables(cat), OwnedBy(col), r.value)
  {
    First(Scope.Tables(cat), OwnedBy(col))
  }

  /** `key_column_usage.COLUMN_NAME/TABLE_NAME/TABLE_SCHEMA` equal the column's,
      and `REFERENCED_TABLE_NAME != ''`, `REFERENCED_COLUMN_NAME != ''`. */
  function Constrains(col: ColumnRow): KeyUsageRow -> bool {
    (k: KeyUsageRow) =>
      && k.columnName == col.name
      && k.tableName == col.tableName
      && k.schema == col.schema
      && SqlNonEmpty(k.refTable)
      && SqlNonEmpty(k.refColumn)
  }

  /** `key_column_usage.REFERENCED_COLUMN_NAME/_TABLE_NAME/_TABLE_SCHEMA` equal
      the column's name, table and schema. */
  function Targets(col: ColumnRow): KeyUsageRow -> bool {
    (k: KeyUsageRow) =>
      && k.refColumn == Some(col.name)
      && k.refTable == Some(col.tableName)
      && k.refSchema == Some(col.schema)
  }

  /** The first scoped foreign-key row sourced from this column. */
  function OutgoingKey(col: ColumnRow, cat: Snapshot): (r: Option<KeyUsageRow>)
    ensures r.None? <==> forall k :: k in Scope.Keys(cat) ==> !Constrains(col)(k)
    ensures r.Some? ==> r.value in Scope.Keys(cat) && IsFirst(Scope.Keys(cat), Constrains(col), r.value)
    ensures r.Some? ==> r.value.columnName == col.name && r.value.tableName == col.tableName
    ensures r.Some? ==> SqlNonEmpty(r.value.refTable) && SqlNonEmpty(r.value.refColumn)
  {
    First(Scope.Keys(cat), Constrains(col))
  }

  /** The first scoped key row that references this column; `None` stands for
      the blank row `firstOrNew()` makes when there is none. */
  function IncomingKey(col: ColumnRow, cat: Snapshot): (r: Option<KeyUsageRow>)
    ensures r.None? <==> forall k :: k in Scope.Keys(cat) ==> !Targets(col)(k)
    ensures r.Some? ==> r.value in Scope.Keys(cat) && IsFirst(Scope.Keys(cat), Targets(col), r.value)
    ensures r.Some? ==> r.value.refColumn == Some(col.name) && r.value.refTable == Some(col.tableName)
  {
    First(Scope.Keys(cat), Targets(col))
  }

  /** `belongs_to`: `null` when no foreign key is sourced from this column;
      otherwise the first scoped column that key references (`null` if missing). */
  function BelongsTo(col: ColumnRow, cat: Snapshot): (r: Option<ColumnRow>)
    ensures OutgoingKey(col, cat).None? ==> r.None?
    ensures r.Some? ==> exists k ::
      && IsFirst(Scope.Keys(cat), Constrains(col), k)
      && IsFirst(Scope.Columns(cat), Key.ReferencedBy(k), r.value)
    ensures r.Some? ==> r.value in Scope.Columns(cat)
    ensures OutgoingKey(col, cat).Some? ==>
      (r.None? <==> forall c :: c in Scope.Columns(cat) ==> !Key.ReferencedBy(OutgoingKey(col, cat).value)(c))
  {
    match OutgoingKey(col, cat)
    case None => None
    case Some(k) => Key.ReferencedColumn(k, cat)
  }

  /** `has_many`: the own column of the first key row referencing this column.
      With no such row, `firstOrNew()` yields a blank row whose `NULL` names
      become `IS NULL` conditions no catalog column meets, so the result is `null`. */
  function HasMany(col: ColumnRow, cat: Snapshot): (r: Option<ColumnRow>)
    ensures IncomingKey(col, cat).None? ==> r.None?
    ensures r.Some? ==> exists k ::
      && IsFirst(Scope.Keys(cat), Targets(col), k)
      && IsFirst(Scope.Columns(cat), Key.SourceOf(k), r.value)
    ensures r.Some? ==> r.value in Scope.Columns(cat)
    ensures IncomingKey(col, cat).Some? ==>
      (r.None? <==> forall c :: c in Scope.Columns(cat) ==> !Key.SourceOf(IncomingKey(col, cat).value)(c))
  {
    match IncomingKey(col, cat)
    case None => None
    case Some(k) => Key.OwnColumn(k, cat)
  }

  /** The converse of `BelongsTo`'s contract: the first column referenced by
      the first key row leaving `col` is the one `belongs_to` yields, so the
      lookup has exactly one possible result. */
  lemma BelongsToCharacterised(col: ColumnRow, cat: Snapshot, k: KeyUsageRow, c: ColumnRow)
    requires IsFirst(Scope.Keys(cat), Constrains(col), k)
    requires IsFirst(Scope.Columns(cat), Key.ReferencedBy(k), c)
    ensures BelongsTo(col, cat) == Some(c)
  {
    var out := OutgoingKey(col, cat);
    assert k in Scope.Keys(cat) && Constrains(col)(k);
    FirstIsUnique(Scope.Keys(cat), Constrains(col), out.value, k);
    var ref := Key.ReferencedColumn(k, cat);
    assert c in Scope.Columns(cat) && Key.ReferencedBy(k)(c);
    FirstIsUnique(Scope.Columns(cat), Key.ReferencedBy(k), ref.value, c);
  }

  /** The converse of `HasMany`'s contract: the own column of the first key
      row referencing `col` is the one `has_many` yields. */
  lemma HasManyCharacterised(col: ColumnRow, cat: Snapshot, k: KeyUsageRow, c: ColumnRow)
    requires IsFirst(Scope.Keys(cat), Targets(col), k)
    requires IsFirst(Scope.Columns(cat), Key.SourceOf(k), c)
    ensures HasMany(col, cat) == Some(c)
  {
    var inc := IncomingKey(col, cat);
    assert k in Scope.Keys(cat) && Targets(col)(k);
    FirstIsUnique(Scope.Keys(cat), Targets(col), inc.value, k);
    var own := Key.OwnColumn(k, cat);
    assert c in Scope.Columns(cat) && Key.SourceOf(k)(c);
    FirstIsUnique(Scope.Columns(cat), Key.SourceOf(k), own.value, c);
  }

  /** In a catalog a column is identified by schema, table and name. */
  ghost predicate ColumnsIdentified(cat: Snapshot) {
    forall c1, c2 | c1 in Scope.Columns(cat) && c2 in Scope.Columns(cat) ::
      c1.schema == c2.schema && c1.tableName == c2.tableName && c1.name == c2.name ==> c1 == c2
  }

  /** The two lookups are inverse along one foreign key: when `a` belongs to `b`
      through key row `k`, and `k` is also the first row referencing `b`, then
      `b`'s has-many partner is `a`. */
  lemma BelongsToHasManyInverse(a: ColumnRow, b: ColumnRow, cat: Snapshot)
    requires ColumnsIdentified(cat)
    requires a in Scope.Columns(cat)
    requires BelongsTo(a, cat) == Some(b)
    requires IncomingKey(b, cat) == OutgoingKey(a, cat)
    ensures HasMany(b, cat) == Some(a)
  {
    var k := OutgoingKey(a, cat).value;
    assert Key.SourceOf(k)(a);
    var c := Key.OwnColumn(k, cat);
    assert c.Some?;
    assert c.value == a;
  }
}
