/** A row of `information_schema.tables` and everything the package derives
    for it: its columns and primary key, its own foreign-key rows, the tables
    it belongs to, the tables that have many of it, the tables it is linked
    to through a junction table, and the class names generated from it. */
module Table {
  import opened Wrappers
  import opened Seqs
  import opened Catalog
  import Scope = OwnDatabaseScope

  // ---------------------------------------------------------------------
  // Row conditions, named so that the same predicate value appears in the
  // functions below and in the lemmas about them.

  function OfTable(t: TableRow): ColumnRow -> bool {
    (c: ColumnRow) => c.tableName == t.name
  }

  function IsPrimary(): ColumnRow -> bool {
    (c: ColumnRow) => c.columnKey == "PRI"
  }

  /** `key.TABLE_NAME = t.TABLE_NAME`, `REFERENCED_TABLE_NAME IS NOT NULL`,
      `REFERENCED_COLUMN_NAME IS NOT NULL`. */
  function OwnedResolvedKey(t: TableRow): KeyUsageRow -> bool {
    (k: KeyUsageRow) => k.tableName == t.name && k.refTable.Some? && k.refColumn.Some?
  }

  /** `key.REFERENCED_TABLE_NAME = t.TABLE_NAME`, `REFERENCED_COLUMN_NAME IS NOT NULL`. */
  function ResolvedKeyInto(t: TableRow): KeyUsageRow -> bool {
    (k: KeyUsageRow) => k.refTable == Some(t.name) && k.refColumn.Some?
  }

  function NameIn(names: seq<string>): TableRow -> bool {
    (x: TableRow) => x.name in names
  }

  /** `TABLE_COMMENT != ''` and `TABLE_NAME IN (names)`. */
  function CommentedNameIn(names: seq<string>): TableRow -> bool {
    (x: TableRow) => SqlNonEmpty(x.comment) && x.name in names
  }

  function RefTableOf(): KeyUsageRow -> Option<string> {
    (k: KeyUsageRow) => k.refTable
  }

  function TableNameOf(): KeyUsageRow -> Option<string> {
    (k: KeyUsageRow) => Some(k.tableName)
  }

  // ---------------------------------------------------------------------
  // Columns and keys of one table.

  /** `columns()`: the scoped columns whose `TABLE_NAME` is this table's. */
  function Columns(t: TableRow, cat: Snapshot): (r: seq<ColumnRow>)
    ensures forall c :: c in r <==> c in cat.columns && c.schema == cat.database && c.tableName == t.name && t.name !in Scope.DenyList
    ensures IsSubsequence(r, Scope.Columns(cat))
  {
    Filter(Scope.Columns(cat), OfTable(t))
  }

  /** `keyColumnUsages()`: the scoped key rows of this table that reference something. */
  function KeyColumnUsages(t: TableRow, cat: Snapshot): (r: seq<KeyUsageRow>)
    ensures forall k :: k in r <==>
      && k in Scope.Keys(cat)
      && k.tableName == t.name
      && k.refTable.Some?
      && k.refColumn.Some?
    ensures IsSubsequence(r, Scope.Keys(cat))
  {
    Filter(Scope.Keys(cat), OwnedResolvedKey(t))
  }

  /** `primary_key`: the table's columns flagged `PRI`, in catalog order;
      empty, not an error, when the table has no primary key. */
  function PrimaryKey(t: TableRow, cat: Snapshot): (r: seq<ColumnRow>)
    ensures forall c :: c in r <==> c in Columns(t, cat) && c.columnKey == "PRI"
    ensures IsSubsequence(r, Columns(t, cat))
    ensures r == [] <==> forall c :: c in Columns(t, cat) ==> c.columnKey != "PRI"
  {
    var r := Filter(Columns(t, cat), IsPrimary());
    assert r != [] ==> r[0] in r;
    r
  }

  // ---------------------------------------------------------------------
  // Relations between tables.

  /** `belongs_to`: the scoped tables some key row of this table references. */
  function BelongsTo(t: TableRow, cat: Snapshot): (r: seq<TableRow>)
    ensures forall x :: x in r <==>
      && x in Scope.Tables(cat)
      && exists k :: k in KeyColumnUsages(t, cat) && k.refTable == Some(x.name)
    ensures IsSubsequence(r, Scope.Tables(cat))
  {
    Filter(Scope.Tables(cat), NameIn(Pluck(KeyColumnUsages(t, cat), RefTableOf())))
  }

  /** The `TABLE_NAME`s of the scoped key rows that reference this table. */
  function ChildNames(t: TableRow, cat: Snapshot): (r: seq<string>)
    ensures forall n :: n in r <==> exists k :: k in Scope.Keys(cat) && ResolvedKeyInto(t)(k) && k.tableName == n
  {
    Pluck(Filter(Scope.Keys(cat), ResolvedKeyInto(t)), TableNameOf())
  }

  /** `has_many`: the scoped tables with a non-empty comment that own a key row
      referencing this table. */
  function HasMany(t: TableRow, cat: Snapshot): (r: seq<TableRow>)
    ensures forall x :: x in r <==>
      && x in Scope.Tables(cat)
      && SqlNonEmpty(x.comment)
      && exists k :: k in Scope.Keys(cat) && k.tableName == x.name && k.refTable == Some(t.name) && k.refColumn.Some?
    ensures IsSubsequence(r, Scope.Tables(cat))
  {
    Filter(Scope.Tables(cat), CommentedNameIn(ChildNames(t, cat)))
  }

  /** `has_many` and `belongs_to` are converse relations, up to the comment
      gate on the child side. */
  lemma HasManyIsConverseOfBelongsTo(parent: TableRow, child: TableRow, cat: Snapshot)
    requires parent in Scope.Tables(cat) && child in Scope.Tables(cat)
    ensures child in HasMany(parent, cat) <==> SqlNonEmpty(child.comment) && parent in BelongsTo(child, cat)
  {
    if child in HasMany(parent, cat) {
      var k :| k in Scope.Keys(cat) && k.tableName == child.name && k.refTable == Some(parent.name) && k.refColumn.Some?;
      assert k in KeyColumnUsages(child, cat);
    }
  }

  /** A key row from a table to itself puts the table in its own `belongs_to`,
      and in its own `has_many` when it carries a comment. */
  lemma SelfReference(t: TableRow, k: KeyUsageRow, cat: Snapshot)
    requires t in Scope.Tables(cat) && k in Scope.Keys(cat)
    requires k.tableName == t.name && k.refTable == Some(t.name) && k.refColumn.Some?
    ensures t in BelongsTo(t, cat)
    ensures SqlNonEmpty(t.comment) ==> t in HasMany(t, cat)
  {
    assert k in KeyColumnUsages(t, cat);
  }

  // ---------------------------------------------------------------------
  // belongs_to_many: junction tables named `<singular a>_<singular b>`.

  /** PHP truthiness of a string: `null`, `""` and `"0"` are false. */
  predicate PhpFalsy(s: Option<string>) {
    s.None? || s == Some("") || s == Some("0")
  }

  /** Candidate tables on the "many" sides: `reject(TABLE_COMMENT === '')`. A
      `NULL` comment is not identical to `''`, so such a table stays. */
  function CommentedTable(): TableRow -> bool {
    (x: TableRow) => x.comment != Some("")
  }

  function NameOf(): TableRow -> Option<string> {
    (x: TableRow) => Some(x.name)
  }

  /** The names of the candidate tables, in catalog order. */
  function CandidateNames(cat: Snapshot): (r: seq<string>)
    ensures forall n :: n in r <==> exists x :: x in Scope.Tables(cat) && x.comment != Some("") && x.name == n
  {
    Pluck(Filter(Scope.Tables(cat), CommentedTable()), NameOf())
  }

  /** `implode('_', array_map(Str::singular, [a, b]))`. */
  function JunctionName(a: string, b: string, infl: Inflector): string {
    infl.singular(a) + "_" + infl.singular(b)
  }

  /** The junction names pairing `a` with every name of `bs`, in order. */
  function JunctionRow(a: string, bs: seq<string>, infl: Inflector): (r: seq<string>)
    ensures |r| == |bs|
    ensures forall j :: j in r <==> exists b :: b in bs && j == JunctionName(a, b, infl)
  {
    if |bs| == 0 then []
    else
      assert forall b :: b in bs <==> b == bs[0] || b in bs[1..];
      [JunctionName(a, bs[0], infl)] + JunctionRow(a, bs[1..], infl)
  }

  /** `$tables->crossJoin($tables)->map(...)`, for any two lists: one junction name per ordered pair. */
  function CrossJoin(left: seq<string>, right: seq<string>, infl: Inflector): (r: seq<string>)
    ensures |r| == |left| * |right|
    ensures forall j :: j in r <==> exists a, b :: a in left && b in right && j == JunctionName(a, b, infl)
  {
    if |left| == 0 then []
    else
      var rest := CrossJoin(left[1..], right, infl);
      assert |left| * |right| == |right| + |left[1..]| * |right| by {
        assert |left| == 1 + |left[1..]|;
      }
      assert forall a :: a in left <==> a == left[0] || a in left[1..];
      JunctionRow(left[0], right, infl) + rest
  }

  /** The junction names the package tries: every ordered pair of candidate
      tables, a table paired with itself included. */
  function JunctionCandidates(cat: Snapshot, infl: Inflector): (r: seq<string>)
    ensures |r| == |CandidateNames(cat)| * |CandidateNames(cat)|
    ensures forall j :: j in r <==> exists a, b ::
      && a in Scope.Tables(cat) && a.comment != Some("")
      && b in Scope.Tables(cat) && b.comment != Some("")
      && j == JunctionName(a.name, b.name, infl)
  {
    var names := CandidateNames(cat);
    var r := CrossJoin(names, names, infl);
    forall j | j in r
      ensures exists a, b ::
        && a in Scope.Tables(cat) && a.comment != Some("")
        && b in Scope.Tables(cat) && b.comment != Some("")
        && j == JunctionName(a.name, b.name, infl)
    {
      var an, bn :| an in names && bn in names && j == JunctionName(an, bn, infl);
      var a :| a in Scope.Tables(cat) && a.comment != Some("") && a.name == an;
      var b :| b in Scope.Tables(cat) && b.comment != Some("") && b.name == bn;
      assert j == JunctionName(a.name, b.name, infl);
    }
    forall a, b | a in Scope.Tables(cat) && a.comment != Some("") && b in Scope.Tables(cat) && b.comment != Some("")
      ensures JunctionName(a.name, b.name, infl) in r
    {
      assert a.name in names && b.name in names;
    }
    r
  }

  /** The sub-query's condition, `REFERENCED_TABLE_NAME = t.TABLE_NAME` and
      `TABLE_NAME IN (junction candidates)`. */
  function JunctionInto(t: TableRow, candidates: seq<string>): KeyUsageRow -> bool {
    (k: KeyUsageRow) => k.refTable == Some(t.name) && k.tableName in candidates
  }

  /** The sub-query: names of junction tables holding a key row into this table.
      The sub-query is built on a raw `from(...)`, so the database scope does
      not apply to it: it reads every key row of the catalog. */
  function JunctionTables(t: TableRow, cat: Snapshot, infl: Inflector): (r: seq<string>)
    ensures forall j :: j in r <==> exists k ::
      && k in cat.keys
      && k.refTable == Some(t.name)
      && k.tableName == j
      && j in JunctionCandidates(cat, infl)
  {
    var candidates := JunctionCandidates(cat, infl);
    var into := Filter(cat.keys, JunctionInto(t, candidates));
    assert forall k :: k in into <==> k in cat.keys && k.refTable == Some(t.name) && k.tableName in candidates;
    Pluck(into, TableNameOf())
  }

  /** The outer query's condition: `TABLE_NAME IN (junctions)`,
      `REFERENCED_TABLE_NAME IS NOT NULL`, `REFERENCED_TABLE_NAME <> t.TABLE_NAME`. */
  function FarSide(t: TableRow, junctions: seq<string>): KeyUsageRow -> bool {
    (k: KeyUsageRow) => k.tableName in junctions && k.refTable.Some? && k.refTable.value != t.name
  }

  /** The scoped key rows leading from a junction table to some other table. */
  function JunctionEdges(t: TableRow, cat: Snapshot, infl: Inflector): (r: seq<KeyUsageRow>)
    ensures forall k :: k in r <==>
      && k in Scope.Keys(cat)
      && k.tableName in JunctionTables(t, cat, infl)
      && k.refTable.Some?
      && k.refTable.value != t.name
    ensures IsSubsequence(r, Scope.Keys(cat))
  {
    Filter(Scope.Keys(cat), FarSide(t, JunctionTables(t, cat, infl)))
  }

  /** `j` is the name of a junction table for `t`: it pairs two candidate
      tables, and some key row of `j` references `t`. */
  ghost predicate IsJunctionFor(j: string, t: TableRow, cat: Snapshot, infl: Inflector) {
    && (exists k0 :: k0 in cat.keys && k0.tableName == j && k0.refTable == Some(t.name))
    && (exists a, b ::
          && a in Scope.Tables(cat) && a.comment != Some("")
          && b in Scope.Tables(cat) && b.comment != Some("")
          && j == JunctionName(a.name, b.name, infl))
  }

  /** The sub-query selects exactly the junction tables of `t`. */
  lemma JunctionTablesExact(j: string, t: TableRow, cat: Snapshot, infl: Inflector)
    ensures j in JunctionTables(t, cat, infl) <==> IsJunctionFor(j, t, cat, infl)
  {
    if IsJunctionFor(j, t, cat, infl) {
      assert j in JunctionCandidates(cat, infl);
    }
  }

  /** The scoped tables some junction edge of `t` leads to. */
  function FarTables(t: TableRow, cat: Snapshot, infl: Inflector): (r: seq<TableRow>)
    ensures forall x :: x in r <==>
      && x in Scope.Tables(cat)
      && exists k :: k in JunctionEdges(t, cat, infl) && k.refTable == Some(x.name)
    ensures IsSubsequence(r, Scope.Tables(cat))
  {
    Filter(Scope.Tables(cat), NameIn(Pluck(JunctionEdges(t, cat, infl), RefTableOf())))
  }

  /** The far-side tables of `t`, described without the intermediate queries. */
  lemma FarTablesExact(t: TableRow, cat: Snapshot, infl: Inflector, x: TableRow)
    ensures x in FarTables(t, cat, infl) <==>
      && x in Scope.Tables(cat)
      && x.name != t.name
      && exists k :: k in Scope.Keys(cat) && k.refTable == Some(x.name) && IsJunctionFor(k.tableName, t, cat, infl)
  {
    if x in FarTables(t, cat, infl) {
      var k :| k in JunctionEdges(t, cat, infl) && k.refTable == Some(x.name);
      JunctionTablesExact(k.tableName, t, cat, infl);
    }
    if x in Scope.Tables(cat) && x.name != t.name {
      forall k | k in Scope.Keys(cat) && k.refTable == Some(x.name) && IsJunctionFor(k.tableName, t, cat, infl)
        ensures x in FarTables(t, cat, infl)
      {
        JunctionTablesExact(k.tableName, t, cat, infl);
        assert k in JunctionEdges(t, cat, infl);
      }
    }
  }

  /** `belongs_to_many`: `null` for a table whose comment is falsy; otherwise the
      scoped tables that a junction table of this one also references. */
  function BelongsToMany(t: TableRow, cat: Snapshot, infl: Inflector): (r: Option<seq<TableRow>>)
    ensures r.None? <==> PhpFalsy(t.comment)
    ensures r.Some? ==> forall x :: x in r.value <==>
      && x in Scope.Tables(cat)
      && x.name != t.name
      && exists k :: k in Scope.Keys(cat) && k.refTable == Some(x.name) && IsJunctionFor(k.tableName, t, cat, infl)
    ensures r.Some? ==> t !in r.value
    ensures r.Some? ==> IsSubsequence(r.value, Scope.Tables(cat))
  {
    if PhpFalsy(t.comment) then None
    else
      assert forall x :: x in FarTables(t, cat, infl) <==>
        && x in Scope.Tables(cat)
        && x.name != t.name
        && exists k :: k in Scope.Keys(cat) && k.refTable == Some(x.name) && IsJunctionFor(k.tableName, t, cat, infl)
      by {
        forall x {
          FarTablesExact(t, cat, infl, x);
        }
      }
      Some(FarTables(t, cat, infl))
  }

  // ---------------------------------------------------------------------
  // Key rows that reference nothing.

  function References(): KeyUsageRow -> bool {
    (k: KeyUsageRow) => k.refTable.Some?
  }

  /** The snapshot without the key rows whose `REFERENCED_TABLE_NAME` is `NULL`
      (primary and unique keys). */
  function WithoutUnreferencing(cat: Snapshot): (r: Snapshot)
    ensures r.database == cat.database && r.tables == cat.tables && r.columns == cat.columns
    ensures forall k :: k in r.keys <==> k in cat.keys && k.refTable.Some?
  {
    cat.(keys := Filter(cat.keys, References()))
  }

  /** Dropping the key rows that reference nothing keeps `belongs_to`. */
  lemma UnreferencingKeysIgnoredByBelongsTo(t: TableRow, cat: Snapshot)
    ensures BelongsTo(t, WithoutUnreferencing(cat)) == BelongsTo(t, cat)
  {
    var clean := WithoutUnreferencing(cat);
    assert Scope.Tables(clean) == Scope.Tables(cat);
    assert forall k :: k in KeyColumnUsages(t, clean) <==> k in KeyColumnUsages(t, cat);
    FilterCongruent(Scope.Tables(cat),
      NameIn(Pluck(KeyColumnUsages(t, clean), RefTableOf())),
      NameIn(Pluck(KeyColumnUsages(t, cat), RefTableOf())));
  }

  /** Dropping the key rows that reference nothing keeps `has_many`. */
  lemma UnreferencingKeysIgnoredByHasMany(t: TableRow, cat: Snapshot)
    ensures HasMany(t, WithoutUnreferencing(cat)) == HasMany(t, cat)
  {
    var clean := WithoutUnreferencing(cat);
    assert Scope.Tables(clean) == Scope.Tables(cat);
    assert forall n :: n in ChildNames(t, clean) <==> n in ChildNames(t, cat);
    FilterCongruent(Scope.Tables(cat), CommentedNameIn(ChildNames(t, clean)), CommentedNameIn(ChildNames(t, cat)));
  }

  /** Dropping the key rows that reference nothing keeps the junction edges. */
  lemma UnreferencingKeysIgnoredByJunctionEdges(t: TableRow, cat: Snapshot, infl: Inflector)
    ensures forall k :: k in JunctionEdges(t, WithoutUnreferencing(cat), infl) <==> k in JunctionEdges(t, cat, infl)
  {
    var clean := WithoutUnreferencing(cat);
    assert Scope.Tables(clean) == Scope.Tables(cat);
    assert CandidateNames(clean) == CandidateNames(cat);
    assert JunctionCandidates(clean, infl) == JunctionCandidates(cat, infl);
    assert forall j :: j in JunctionTables(t, clean, infl) <==> j in JunctionTables(t, cat, infl);
  }

  /** Dropping the key rows that reference nothing keeps `belongs_to_many`. */
  lemma UnreferencingKeysIgnoredByBelongsToMany(t: TableRow, cat: Snapshot, infl: Inflector)
    ensures BelongsToMany(t, WithoutUnreferencing(cat), infl) == BelongsToMany(t, cat, infl)
  {
    var clean := WithoutUnreferencing(cat);
    assert Scope.Tables(clean) == Scope.Tables(cat);
    UnreferencingKeysIgnoredByJunctionEdges(t, cat, infl);
    FilterCongruent(Scope.Tables(cat),
      NameIn(Pluck(JunctionEdges(t, clean, infl), RefTableOf())),
      NameIn(Pluck(JunctionEdges(t, cat, infl), RefTableOf())));
  }

  /** Key rows with a `NULL` referenced table never influence the three
      relations: dropping them from the catalog leaves every result unchanged. */
  lemma UnreferencingKeysIgnored(t: TableRow, cat: Snapshot, infl: Inflector)
    ensures BelongsTo(t, WithoutUnreferencing(cat)) == BelongsTo(t, cat)
    ensures HasMany(t, WithoutUnreferencing(cat)) == HasMany(t, cat)
    ensures BelongsToMany(t, WithoutUnreferencing(cat), infl) == BelongsToMany(t, cat, infl)
  {
    UnreferencingKeysIgnoredByBelongsTo(t, cat);
    UnreferencingKeysIgnoredByHasMany(t, cat);
    UnreferencingKeysIgnoredByBelongsToMany(t, cat, infl);
  }

  // ---------------------------------------------------------------------
  // Names of the generated artefacts.

  /** `model_name`: `Str::studly(Str::singular(TABLE_NAME))`. */
  function ModelName(t: TableRow, infl: Inflector): string {
    infl.studly(infl.singular(t.name))
  }

  /** The classes generated next to the model. */
  datatype Artefact = Controller | FormRequest | Policy | Composer

  function Suffix(a: Artefact): string {
    match a
    case Controller => "Controller"
    case FormRequest => "FormRequest"
    case Policy => "Policy"
    case Composer => "Composer"
  }

  /** `controller_name`, `request_name`, `policy_name`, `view_composer_name`:
      `sprintf('%s<Suffix>', model_name)`. */
  function ArtefactName(t: TableRow, infl: Inflector, a: Artefact): (r: string)
    ensures |r| == |ModelName(t, infl)| + |Suffix(a)|
    ensures r[..|ModelName(t, infl)|] == ModelName(t, infl)
    ensures r[|ModelName(t, infl)|..] == Suffix(a)
  {
    ModelName(t, infl) + Suffix(a)
  }

  /** `controller_name`. */
  function ControllerName(t: TableRow, infl: Inflector): (r: string)
    ensures |r| >= 10 && r[|r| - 10..] == "Controller"
    ensures ModelNameOf(r, Controller) == Some(ModelName(t, infl))
  {
    ArtefactNameRoundTrip(t, infl, Controller);
    ArtefactName(t, infl, Controller)
  }

  /** `request_name`. */
  function RequestName(t: TableRow, infl: Inflector): (r: string)
    ensures |r| >= 11 && r[|r| - 11..] == "FormRequest"
    ensures ModelNameOf(r, FormRequest) == Some(ModelName(t, infl))
  {
    ArtefactNameRoundTrip(t, infl, FormRequest);
    ArtefactName(t, infl, FormRequest)
  }

  /** `policy_name`. */
  function PolicyName(t: TableRow, infl: Inflector): (r: string)
    ensures |r| >= 6 && r[|r| - 6..] == "Policy"
    ensures ModelNameOf(r, Policy) == Some(ModelName(t, infl))
  {
    ArtefactNameRoundTrip(t, infl, Policy);
    ArtefactName(t, infl, Policy)
  }

  /** `view_composer_name`. */
  function ViewComposerName(t: TableRow, infl: Inflector): (r: string)
    ensures |r| >= 8 && r[|r| - 8..] == "Composer"
    ensures ModelNameOf(r, Composer) == Some(ModelName(t, infl))
  {
    ArtefactNameRoundTrip(t, infl, Composer);
    ArtefactName(t, infl, Composer)
  }

  /** Recovers the model name from an artefact name: the inverse of `ArtefactName`. */
  function ModelNameOf(name: string, a: Artefact): (r: Option<string>)
    ensures r.Some? ==> r.value + Suffix(a) == name
    ensures r.None? <==> !(|Suffix(a)| <= |name| && name[|name| - |Suffix(a)|..] == Suffix(a))
  {
    var n := |name| - |Suffix(a)|;
    if 0 <= n && name[n..] == Suffix(a) then
      assert name[..n] + name[n..] == name;
      Some(name[..n])
    else None
  }

  /** Every artefact name carries its model name back. */
  lemma ArtefactNameRoundTrip(t: TableRow, infl: Inflector, a: Artefact)
    ensures ModelNameOf(ArtefactName(t, infl, a), a) == Some(ModelName(t, infl))
  {
    var m := ModelName(t, infl);
    var name := ArtefactName(t, infl, a);
    assert name[..|m|] == m;
  }

  /** The four artefacts of one table have four different names, and two tables
      share an artefact name exactly when they share the model name. */
  lemma ArtefactNamesDistinct(t: TableRow, u: TableRow, infl: Inflector, a: Artefact, b: Artefact)
    ensures a != b ==> ArtefactName(t, infl, a) != ArtefactName(t, infl, b)
    ensures ArtefactName(t, infl, a) == ArtefactName(u, infl, a) <==> ModelName(t, infl) == ModelName(u, infl)
  {
    ArtefactNameRoundTrip(t, infl, a);
    ArtefactNameRoundTrip(u, infl, a);
  }
}
