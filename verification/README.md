# laravel-database-utilities: catalog introspection, modelled in Dafny

The package reads three `information_schema` views of the connected database
(`tables`, `columns`, `key_column_usage`) through Eloquent models and derives,
for every table, its primary key, the tables it belongs to, the tables that
have many of it, the tables it reaches through a junction table, and the class
names a code generator would use for it. Each derivation is an Eloquent query
in the package; here each becomes a pure function over one in-memory
`Catalog.Snapshot` (the rows of the three views, in catalog order, plus the
name of the connection's database).

Modules, leaf first:

- `Wrappers` — `Option` (SQL `NULL` / PHP `null`) and `Fetched` (first row or
  the blank model of `withDefault()`).
- `Seqs` — `Filter` (`where`), `Pluck` (`pluck` feeding a `WHERE IN`), `First`
  (`->first()`), the `IsSubsequence` and `IsFirst` predicates, and the
  lemmas about them (idempotence, congruence, uniqueness).
- `Catalog` — the row datatypes, the snapshot, and `Inflector`, which carries
  `Str::singular` and `Str::studly` as uninterpreted function values.
- `OwnDatabaseScope` — the global scope: own database only, three framework
  tables hidden.
- `KeyColumnUsage`, `Column`, `Table` — one module per model class.
- `Scenario` — a small blog schema (four tables and the framework's `migrations`)
  worked through the scope, `key_column_usages`, `primary_key`, the three table
  relations, the column relations and the generated names.

Modelling choices that follow the code:

- `REFERENCED_*` fields are `Option<string>`. `Table.php` tests them with
  `whereNotNull`, `Column.php` with `!= ''`, which in SQL is false for `NULL`
  and for `''` (`Catalog.SqlNonEmpty`).
- `TABLE_COMMENT` is `Option<string>`, because the code tests it three ways:
  `!$this->TABLE_COMMENT` (PHP falsy: `null`, `""`, `"0"`; `Table.PhpFalsy`),
  `=== ''` when picking junction candidates (a `NULL` comment stays), and SQL
  `!= ''` in `has_many` (`NULL` and `''` both excluded).
- The sub-query of `belongs_to_many` is built on a raw `from(...)`, so the
  database scope does not apply to it; `Table.JunctionTables` reads every key
  row of the snapshot. Every other query is scoped.
- Laravel turns `where(col, null)` into `whereNull(col)`. A key row with a
  `NULL` reference therefore resolves no column, and the blank key row that
  `firstOrNew()` creates in `Column::getHasManyAttribute` matches no column
  either: `Column.HasMany` returns `None` for it.
- `->first()` on a relation query returns `null` when nothing matches;
  `withDefault()` only acts when the relation itself is read. So
  `Column.BelongsTo` yields `Option`, `KeyColumnUsage.BelongsTo` yields `Fetched`.

What the code does not do, and the model therefore does not either: the
relations return table or column rows, not richer relation records; junction
tables are not collected into a map; no query carries an `ORDER BY`; every
connection filters `table_schema` on the database name, whatever the driver;
and the only casing rule is the `pgsql` lower-casing in `Column::__get`.

## Model

| member | source | states |
|---|---|---|
| OwnDatabaseScope.ScopeTables | src/Scopes/OwnDatabaseScope.php:18-27 | a table row survives iff it is in the connection's database and its name is not `failed_jobs`, `migrations` or `password_resets`; survivors keep their order and content |
| OwnDatabaseScope.ScopeColumns | src/Scopes/OwnDatabaseScope.php:18-27 | the same filter on column rows, judged by their owning table |
| OwnDatabaseScope.ScopeKeys | src/Scopes/OwnDatabaseScope.php:18-27 | the same filter on key-usage rows, judged by the row's own table and not the referenced one |
| OwnDatabaseScope.ScopeIdempotent | src/Scopes/OwnDatabaseScope.php:21-26 | applying the scope to scoped rows changes nothing |
| KeyColumnUsage.Table | src/Models/KeyColumnUsage.php:33-36 | the first scoped table named like the row's `TABLE_NAME`; blank exactly when there is none |
| KeyColumnUsage.ReferencedColumn | src/Models/KeyColumnUsage.php:41-47 | the first scoped column whose name, table and schema equal the row's `REFERENCED_*` fields; none exactly when no column matches |
| KeyColumnUsage.OwnColumn | src/Models/KeyColumnUsage.php:52-58 | the first scoped column whose name, table and schema equal the row's own |
| KeyColumnUsage.BelongsTo | src/Models/KeyColumnUsage.php:41-47 | the referenced column, or the blank default model exactly when it is missing |
| KeyColumnUsage.HasMany | src/Models/KeyColumnUsage.php:52-58 | the row's own column, or the blank default model exactly when it is missing |
| KeyColumnUsage.UnreferencingRowBelongsToBlank | src/Models/KeyColumnUsage.php:43-46 | a row with a `NULL` referenced table, column or schema always yields the blank model |
| Column.Lower | src/Models/Column.php:47 | `strtolower` keeps the length and lower-cases exactly the ASCII capitals |
| Column.LowerIdempotent | src/Models/Column.php:47 | lower-casing twice equals lower-casing once |
| Column.AttributeKey | src/Models/Column.php:44-50 | on `pgsql` the key is lower-cased character by character (`strtolower`), so it keeps its length and holds no ASCII capital; on any other connection it is unchanged |
| Column.Attribute | src/Models/Column.php:44-50 | `__get` finds a value iff the normalised key is present, and returns the value stored under it |
| Column.PgsqlAttributeIgnoresCase | src/Models/Column.php:44-50 | on `pgsql`, keys equal up to ASCII case read the same attribute, and normalising a key first changes nothing |
| Column.UpperCasePropertyReadsPgsqlField | src/Models/Column.php:44-50 | `TABLE_NAME` reads a `table_name` field on `pgsql` and finds nothing on `mysql` |
| Column.Table | src/Models/Column.php:55-58 | the first scoped table named like the column's `TABLE_NAME`, `null` exactly when there is none |
| Column.OutgoingKey | src/Models/Column.php:65-71 | the first scoped key row with the column's name, table and schema and non-empty referenced table and column |
| Column.IncomingKey | src/Models/Column.php:85-89 | the first scoped key row whose referenced column, table and schema are this column's |
| Column.BelongsTo | src/Models/Column.php:63-78 | `null` when no key row leaves the column; otherwise the first column referenced by the first such row, `null` exactly when that column is missing |
| Column.HasMany | src/Models/Column.php:83-92 | `null` when no key row references the column; otherwise the first column that is the own column of the first such row |
| Column.BelongsToCharacterised | src/Models/Column.php:63-78 | conversely, if `k` is the first key row leaving the column and `c` the first column `k` references, `belongs_to` is `c`: the lookup has exactly one result |
| Column.HasManyCharacterised | src/Models/Column.php:83-92 | conversely, if `k` is the first key row referencing the column and `c` the first column that is `k`'s own, `has_many` is `c` |
| Column.BelongsToHasManyInverse | src/Models/Column.php:63-92 | if `a` belongs to `b` through the key row that is also the first row referencing `b`, then `b`'s has-many partner is `a` |
| Table.Columns | src/Models/Table.php:72-75 | the scoped columns whose `TABLE_NAME` is the table's, in catalog order |
| Table.KeyColumnUsages | src/Models/Table.php:80-85 | exactly the scoped key rows of the table whose referenced table and column are both non-null, in catalog order |
| Table.PrimaryKey | src/Models/Table.php:91-98 | exactly the table's columns with `COLUMN_KEY` `PRI`, in their original order; empty iff the table has none |
| Table.BelongsTo | src/Models/Table.php:104-109 | a scoped table is present iff some key row of this table references its name; catalog order |
| Table.ChildNames | src/Models/Table.php:169-173 | a name is listed iff a scoped key row from that table references this table with a non-null referenced column |
| Table.HasMany | src/Models/Table.php:163-176 | a scoped table is present iff its comment is non-empty and one of its key rows references this table with a non-null referenced column |
| Table.HasManyIsConverseOfBelongsTo | src/Models/Table.php:104-109 | for scoped tables, `child` has-many-of `parent` iff `child` has a non-empty comment and `parent` is in `child`'s `belongs_to` |
| Table.SelfReference | src/Models/Table.php:104-109 | a key row from a table to itself puts the table in its own `belongs_to`, and in its own `has_many` when commented |
| Table.CandidateNames | src/Models/Table.php:120-124 | a name is a candidate iff it names a scoped table whose comment is not identical to `''` |
| Table.JunctionRow | src/Models/Table.php:126-138 | one junction name per right-hand name, and a name occurs iff it pairs the left name with one of them |
| Table.CrossJoin | src/Models/Table.php:126-138 | `n*m` junction names; a name occurs iff it is `singular(a) + "_" + singular(b)` for some `a` on the left and `b` on the right |
| Table.JunctionCandidates | src/Models/Table.php:120-138 | the candidate set is exactly `singular(a) + "_" + singular(b)` over ordered pairs of candidate tables, `a = b` included |
| Table.JunctionTables | src/Models/Table.php:143-149 | a name is listed iff some key row of the whole catalog with that table name references this table and the name is a junction candidate |
| Table.JunctionTablesExact | src/Models/Table.php:140-149 | the sub-query selects exactly the junction tables of this table |
| Table.JunctionEdges | src/Models/Table.php:140-153 | exactly the scoped key rows from a junction table of this one to a non-null table other than this one |
| Table.FarTables | src/Models/Table.php:155-156 | a scoped table is present iff some junction edge references its name |
| Table.FarTablesExact | src/Models/Table.php:140-156 | the far-side tables described directly: scoped, not this table, referenced by a scoped key row of a junction table that also references this table |
| Table.BelongsToMany | src/Models/Table.php:115-157 | `null` iff this table's comment is PHP-falsy; otherwise the tables a junction table of this one references, never this table itself |
| Table.UnreferencingKeysIgnored | src/Models/Table.php:80-176 | dropping key rows with a `NULL` referenced table leaves `belongs_to`, `has_many` and `belongs_to_many` unchanged |
| Table.UnreferencingKeysIgnoredByBelongsTo | src/Models/Table.php:80-109 | dropping key rows with a `NULL` referenced table leaves `belongs_to` unchanged |
| Table.UnreferencingKeysIgnoredByHasMany | src/Models/Table.php:163-176 | dropping key rows with a `NULL` referenced table leaves `has_many` unchanged |
| Table.UnreferencingKeysIgnoredByBelongsToMany | src/Models/Table.php:140-157 | dropping key rows with a `NULL` referenced table leaves `belongs_to_many` unchanged |
| Table.ArtefactName | src/Models/Table.php:187-221 | each artefact name (`ControllerName`, `RequestName`, `PolicyName`, `ViewComposerName`) is the model name `studly(singular(TABLE_NAME))` followed by `Controller`, `FormRequest`, `Policy` or `Composer` |
| Table.ControllerName | src/Models/Table.php:191-194 | `controller_name` ends in `Controller`, and stripping that suffix gives back the model name |
| Table.RequestName | src/Models/Table.php:200-203 | `request_name` ends in `FormRequest`, and stripping that suffix gives back the model name |
| Table.PolicyName | src/Models/Table.php:209-212 | `policy_name` ends in `Policy`, and stripping that suffix gives back the model name |
| Table.ViewComposerName | src/Models/Table.php:218-221 | `view_composer_name` ends in `Composer`, and stripping that suffix gives back the model name |
| Table.ArtefactNameRoundTrip | src/Models/Table.php:182-221 | stripping the suffix from an artefact name gives back `studly(singular(TABLE_NAME))` |
| Table.ArtefactNamesDistinct | src/Models/Table.php:182-221 | a table's four artefact names differ, and two tables share an artefact name iff they share the model name |
| Scenario.BlogTables | src/Scopes/OwnDatabaseScope.php:21-26 | in the example the scope hides `migrations` and keeps the other tables in order |
| Scenario.BlogBelongsTo | src/Models/Table.php:104-109 | `posts` belongs to `[users]` |
| Scenario.UsersHasMany | src/Models/Table.php:163-176 | `users` has many `[posts]` |
| Scenario.PostsHasMany | src/Models/Table.php:163-176 | `posts` has many of nothing, because `post_tag` has an empty comment |
| Scenario.BlogBelongsToMany | src/Models/Table.php:115-157 | `posts` belongs to many `[tags]` through `post_tag`, and not to `post_tag` itself |
| Scenario.UncommentedBelongsToMany | src/Models/Table.php:117-119 | `post_tag`, whose comment is empty, gets `null` from `belongs_to_many` |
| Scenario.PostsPrimaryKey | src/Models/Table.php:91-98 | the primary key of `posts` is `[posts.id]`; `posts.user_id` is not part of it |
| Scenario.BlogColumnRelations | src/Models/Column.php:63-92 | `posts.user_id` belongs to `users.id`, and `users.id` has many `posts.user_id` |
| Scenario.PostsUserLookups | src/Models/KeyColumnUsage.php:33-58 | the key row `posts_user_id_foreign` resolves its table to `posts`, its referenced column to `users.id` and its own column to `posts.user_id` |
| Scenario.BlogModelNames | src/Models/Table.php:182-185 | with an English inflector the model names of `users`, `posts` and `tags` are `User`, `Post` and `Tag` |
| Scenario.BlogNames | src/Models/Table.php:191-221 | `posts` gets `PostController`, `PostFormRequest`, `PostPolicy` and `PostComposer` |

## Left out

- Eloquent mechanics (relation objects, `$appends` serialisation, the `boot`
  hook of `InformationSchema`): the relations are modelled as filters over the snapshot.
- Database connections, `config()` and `app('db.connection')`: the database name
  is `Snapshot.database`, and the default connection name is a parameter of `Column.Attribute`.
- The definitions of `Str::singular` and `Str::studly`: library code, carried
  as function values in `Inflector`. So the model does not show `"blog_posts"` becoming `"BlogPost"`.
- SQL result order without `ORDER BY`: the model uses catalog order and claims
  no more (`IsSubsequence` of the scoped rows, `IsFirst` in catalog order).
- Storage statistics and other fields of the catalog rows that no logic reads.
- Collations: every comparison is exact string equality. MySQL compares
  `information_schema` strings under the column's collation, which may ignore case.
- OwnDatabaseScope.ScopeTables: the name test is exact, not collation-aware (see above); the same holds for ScopeColumns and ScopeKeys.
- The `pgsql` key normalisation is modelled on an attribute map (`Column.Attribute`); the row datatypes hold fields already read, so `__get` is not threaded through every lookup.
- Column.HasMany: the blank `firstOrNew()` row is represented as no row, on the argument that `IS NULL` tests on catalog names never hold.
- Table.JunctionCandidates: states the length and exact membership of the cross join, not the position of each pair.
- Table.ModelName: carries no contract of its own. With `Str::singular` and `Str::studly` uninterpreted it is `studly(singular(TABLE_NAME))` by definition, so its properties are stated through `Table.ArtefactNameRoundTrip`, the four accessors and `Scenario.BlogModelNames`.
