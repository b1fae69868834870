/** A small blog schema worked through the relations: `posts.user_id`
    references `users.id`, and the comment-less junction table `post_tag`
    links `posts` to `tags`. */
module Scenario {
  import opened Wrappers
  import opened Catalog
  import Table
  import Column
  import Key = KeyColumnUsage
  import OwnDatabaseScope
  import Seqs

  const Users := TableRow("blog", "users", Some("App users"))
  const Posts := TableRow("blog", "posts", Some("Blog posts"))
  const PostTag := TableRow("blog", "post_tag", Some(""))
  const Tags := TableRow("blog", "tags", Some("Tags"))
  const Migrations := TableRow("blog", "migrations", Some("Framework"))

  const UsersId := ColumnRow("blog", "users", "id", "PRI")
  const PostsId := ColumnRow("blog", "posts", "id", "PRI")
  const PostsUserId := ColumnRow("blog", "posts", "user_id", "MUL")

  const PostsPrimary := KeyUsageRow("PRIMARY", "blog", "posts", "id", None, None, None)
  const PostsUser := KeyUsageRow("posts_user_id_foreign", "blog", "posts", "user_id", Some("blog"), Some("users"), Some("id"))
  const PostTagPost := KeyUsageRow("post_tag_post_id_foreign", "blog", "post_tag", "post_id", Some("blog"), Some("posts"), Some("id"))
  const PostTagTag := KeyUsageRow("post_tag_tag_id_foreign", "blog", "post_tag", "tag_id", Some("blog"), Some("tags"), Some("id"))

  const Blog := Snapshot(
    "blog",
    [Users, Posts, PostTag, Tags, Migrations],
    [UsersId, PostsId, PostsUserId],
    [PostsPrimary, PostsUser, PostTagPost, PostTagTag])

  /** Stand-ins for `Str::singular` and `Str::studly` on the names of the example. */
  function Singular(s: string): string {
    if s == "users" then "user"
    else if s == "posts" then "post"
    else if s == "tags" then "tag"
    else s
  }

  function Studly(s: string): string {
    if s == "post" then "Post"
    else if s == "tag" then "Tag"
    else if s == "user" then "User"
    else s
  }

  const English := Inflector(Singular, Studly)

  function Keep<T>(keep: T -> bool, x: T): seq<T> {
    if keep(x) then [x] else []
  }

  /** A proof device for this example, not part of the model: `Filter`
      without its contract, so that evaluating it on the rows of the example
      does not instantiate the contract's quantifiers at every step.
      `SieveIsFilter` ties the two together. */
  function Sieve<T>(s: seq<T>, keep: T -> bool): seq<T> {
    if |s| == 0 then []
    else if keep(s[0]) then [s[0]] + Sieve(s[1..], keep)
    else Sieve(s[1..], keep)
  }

  lemma {:induction false} SieveIsFilter<T(!new)>(s: seq<T>, keep: T -> bool)
    ensures Seqs.Filter(s, keep) == Sieve(s, keep)
  {
    if |s| > 0 {
      SieveIsFilter(s[1..], keep);
    }
  }

  lemma SieveTwo<T>(s: seq<T>, keep: T -> bool)
    requires |s| == 2
    ensures Sieve(s, keep) == Keep(keep, s[0]) + Keep(keep, s[1])
  {
    assert s[1..][1..] == [];
    assert Sieve(s[1..], keep) == Keep(keep, s[1]);
  }

  lemma SieveThree<T>(s: seq<T>, keep: T -> bool)
    requires |s| == 3
    ensures Sieve(s, keep) == Keep(keep, s[0]) + (Keep(keep, s[1]) + Keep(keep, s[2]))
  {
    var t := s[1..];
    assert t[0] == s[1] && t[1] == s[2];
    SieveTwo(t, keep);
  }

  lemma SieveFour<T>(s: seq<T>, keep: T -> bool)
    requires |s| == 4
    ensures Sieve(s, keep) == Keep(keep, s[0]) + (Keep(keep, s[1]) + (Keep(keep, s[2]) + Keep(keep, s[3])))
  {
    var t := s[1..];
    assert t[0] == s[1] && t[1] == s[2] && t[2] == s[3];
    SieveThree(t, keep);
  }

  lemma SieveFive<T>(s: seq<T>, keep: T -> bool)
    requires |s| == 5
    ensures Sieve(s, keep) == Keep(keep, s[0]) + (Keep(keep, s[1]) + (Keep(keep, s[2]) + (Keep(keep, s[3]) + Keep(keep, s[4]))))
  {
    var t := s[1..];
    assert t[0] == s[1] && t[1] == s[2] && t[2] == s[3] && t[3] == s[4];
    SieveFour(t, keep);
  }

  /** A condition evaluated on the rows of the example yields the same rows
      through `Filter` as through `Sieve`. */
  lemma FilterBy<T(!new)>(s: seq<T>, keep: T -> bool, r: seq<T>)
    requires Sieve(s, keep) == r
    ensures Seqs.Filter(s, keep) == r
  {
    SieveIsFilter(s, keep);
  }

  lemma PluckOne<T(!new), U(!new)>(x: T, f: T -> Option<U>)
    ensures Seqs.Pluck([x], f) == (if f(x).Some? then [f(x).value] else [])
  {
    assert [x][1..] == [];
  }

  /** Of the example's table names only `migrations` is on the deny list. */
  lemma DeniedNames()
    ensures "users" !in OwnDatabaseScope.DenyList && "posts" !in OwnDatabaseScope.DenyList
    ensures "post_tag" !in OwnDatabaseScope.DenyList && "tags" !in OwnDatabaseScope.DenyList
    ensures "migrations" in OwnDatabaseScope.DenyList
  {
    var d := OwnDatabaseScope.DenyList;
    assert d[1] == "migrations";
    assert forall i | 0 <= i < |d| :: |d[i]| == 11 || |d[i]| == 10 || |d[i]| == 15;
  }

  /** The tables of the example the scope lets through. */
  const Scoped := [Users, Posts, PostTag, Tags]

  lemma VisibleBlogTables()
    ensures Sieve(Blog.tables, OwnDatabaseScope.VisibleTable("blog")) == Scoped
  {
    var vis := OwnDatabaseScope.VisibleTable("blog");
    DeniedNames();
    assert Keep(vis, Users) == [Users] && Keep(vis, Posts) == [Posts];
    assert Keep(vis, PostTag) == [PostTag] && Keep(vis, Tags) == [Tags];
    assert Keep(vis, Migrations) == [];
    SieveFive(Blog.tables, vis);
  }

  /** The scope keeps every table of the example except `migrations`. */
  lemma BlogTables()
    ensures OwnDatabaseScope.Tables(Blog) == [Users, Posts, PostTag, Tags]
  {
    VisibleBlogTables();
    FilterBy(Blog.tables, OwnDatabaseScope.VisibleTable("blog"), Scoped);
  }

  lemma VisibleBlogKeys()
    ensures Sieve(Blog.keys, OwnDatabaseScope.VisibleKey("blog")) == Blog.keys
  {
    var vis := OwnDatabaseScope.VisibleKey("blog");
    DeniedNames();
    assert Keep(vis, PostsPrimary) == [PostsPrimary];
    assert Keep(vis, PostsUser) == [PostsUser];
    assert Keep(vis, PostTagPost) == [PostTagPost];
    assert Keep(vis, PostTagTag) == [PostTagTag];
    SieveFour(Blog.keys, vis);
  }

  /** The scope keeps every key row of the example. */
  lemma BlogKeys()
    ensures OwnDatabaseScope.Keys(Blog) == Blog.keys
  {
    VisibleBlogKeys();
    FilterBy(Blog.keys, OwnDatabaseScope.VisibleKey("blog"), Blog.keys);
  }

  /** The key rows selected by `keep`, one condition per row of the example. */
  lemma KeysWhere(keep: KeyUsageRow -> bool, r: seq<KeyUsageRow>)
    requires r == Keep(keep, PostsPrimary) + (Keep(keep, PostsUser) + (Keep(keep, PostTagPost) + Keep(keep, PostTagTag)))
    ensures Seqs.Filter(Blog.keys, keep) == r
  {
    SieveFour(Blog.keys, keep);
    FilterBy(Blog.keys, keep, r);
  }

  /** The scoped key rows selected by `keep`. */
  lemma ScopedKeysWhere(keep: KeyUsageRow -> bool, r: seq<KeyUsageRow>)
    requires r == Keep(keep, PostsPrimary) + (Keep(keep, PostsUser) + (Keep(keep, PostTagPost) + Keep(keep, PostTagTag)))
    ensures Seqs.Filter(OwnDatabaseScope.Keys(Blog), keep) == r
  {
    BlogKeys();
    KeysWhere(keep, r);
  }

  /** The scoped tables selected by `keep`. */
  lemma ScopedTablesWhere(keep: TableRow -> bool, r: seq<TableRow>)
    requires r == Keep(keep, Users) + (Keep(keep, Posts) + (Keep(keep, PostTag) + Keep(keep, Tags)))
    ensures Seqs.Filter(OwnDatabaseScope.Tables(Blog), keep) == r
  {
    BlogTables();
    SieveFour(Scoped, keep);
    FilterBy(Scoped, keep, r);
  }

  lemma PostsKeyUsages()
    ensures Table.KeyColumnUsages(Posts, Blog) == [PostsUser]
  {
    var own := Table.OwnedResolvedKey(Posts);
    assert Keep(own, PostsPrimary) == [] && Keep(own, PostsUser) == [PostsUser];
    assert Keep(own, PostTagPost) == [] && Keep(own, PostTagTag) == [];
    ScopedKeysWhere(own, [PostsUser]);
  }

  /** Scoped tables of the example whose name is `name`. */
  lemma TablesNamed(name: string, x: TableRow)
    requires x in Scoped && x.name == name
    ensures Seqs.Filter(OwnDatabaseScope.Tables(Blog), Table.NameIn([name])) == [x]
  {
    var keep := Table.NameIn([name]);
    assert forall y | y in Scoped :: keep(y) <==> y == x;
    assert Keep(keep, Users) + (Keep(keep, Posts) + (Keep(keep, PostTag) + Keep(keep, Tags))) == [x];
    ScopedTablesWhere(keep, [x]);
  }

  /** `posts` belongs to `users`. */
  lemma BlogBelongsTo()
    ensures Table.BelongsTo(Posts, Blog) == [Users]
  {
    PostsKeyUsages();
    PluckOne(PostsUser, Table.RefTableOf());
    TablesNamed("users", Users);
  }

  lemma KeysIntoUsers()
    ensures Seqs.Filter(OwnDatabaseScope.Keys(Blog), Table.ResolvedKeyInto(Users)) == [PostsUser]
  {
    var into := Table.ResolvedKeyInto(Users);
    assert Keep(into, PostsPrimary) == [] && Keep(into, PostsUser) == [PostsUser];
    assert Keep(into, PostTagPost) == [] && Keep(into, PostTagTag) == [];
    ScopedKeysWhere(into, [PostsUser]);
  }

  lemma KeysIntoPosts()
    ensures Seqs.Filter(OwnDatabaseScope.Keys(Blog), Table.ResolvedKeyInto(Posts)) == [PostTagPost]
  {
    var into := Table.ResolvedKeyInto(Posts);
    assert Keep(into, PostsPrimary) == [] && Keep(into, PostsUser) == [];
    assert Keep(into, PostTagPost) == [PostTagPost] && Keep(into, PostTagTag) == [];
    ScopedKeysWhere(into, [PostTagPost]);
  }

  lemma CommentedTablesNamed(name: string, r: seq<TableRow>)
    requires name == "posts" ==> r == [Posts]
    requires name == "post_tag" ==> r == []
    requires name == "posts" || name == "post_tag"
    ensures Seqs.Filter(OwnDatabaseScope.Tables(Blog), Table.CommentedNameIn([name])) == r
  {
    var keep := Table.CommentedNameIn([name]);
    assert Keep(keep, Users) == [] && Keep(keep, PostTag) == [] && Keep(keep, Tags) == [];
    assert Keep(keep, Posts) == (if name == "posts" then [Posts] else []);
    ScopedTablesWhere(keep, r);
  }

  lemma UsersChildNames()
    ensures Table.ChildNames(Users, Blog) == ["posts"]
  {
    KeysIntoUsers();
    PluckOne(PostsUser, Table.TableNameOf());
  }

  /** `users` has many `posts`. */
  lemma UsersHasMany()
    ensures Table.HasMany(Users, Blog) == [Posts]
  {
    UsersChildNames();
    CommentedTablesNamed("posts", [Posts]);
  }

  lemma PostsChildNames()
    ensures Table.ChildNames(Posts, Blog) == ["post_tag"]
  {
    KeysIntoPosts();
    PluckOne(PostTagPost, Table.TableNameOf());
  }

  /** `posts` has many of nothing: the only table referencing it, `post_tag`,
      has an empty comment. */
  lemma PostsHasMany()
    ensures Table.HasMany(Posts, Blog) == []
  {
    PostsChildNames();
    CommentedTablesNamed("post_tag", []);
  }

  lemma PostTagName()
    ensures Table.JunctionName("posts", "tags", English) == "post_tag"
  {
  }

  /** `post_tag` is among the junction names tried: it pairs `posts` with `tags`. */
  lemma PostTagIsCandidate()
    ensures "post_tag" in Table.JunctionCandidates(Blog, English)
  {
    BlogTables();
    PostTagName();
    var ts := OwnDatabaseScope.Tables(Blog);
    assert ts[1] == Posts && ts[3] == Tags;
    assert Posts in ts && Tags in ts;
    assert Posts.comment != Some("") && Tags.comment != Some("");
  }

  lemma KeysIntoPostsFrom(candidates: seq<string>)
    requires "post_tag" in candidates
    ensures Seqs.Filter(Blog.keys, Table.JunctionInto(Posts, candidates)) == [PostTagPost]
  {
    var into := Table.JunctionInto(Posts, candidates);
    assert Keep(into, PostsPrimary) == [] && Keep(into, PostsUser) == [];
    assert Keep(into, PostTagPost) == [PostTagPost] && Keep(into, PostTagTag) == [];
    KeysWhere(into, [PostTagPost]);
  }

  lemma PostsJunctionTables()
    ensures Table.JunctionTables(Posts, Blog, English) == ["post_tag"]
  {
    PostTagIsCandidate();
    KeysIntoPostsFrom(Table.JunctionCandidates(Blog, English));
    PluckOne(PostTagPost, Table.TableNameOf());
  }

  lemma KeysFromPostTag()
    ensures Seqs.Filter(OwnDatabaseScope.Keys(Blog), Table.FarSide(Posts, ["post_tag"])) == [PostTagTag]
  {
    var far := Table.FarSide(Posts, ["post_tag"]);
    assert Keep(far, PostsPrimary) == [] && Keep(far, PostsUser) == [];
    assert Keep(far, PostTagPost) == [] && Keep(far, PostTagTag) == [PostTagTag];
    ScopedKeysWhere(far, [PostTagTag]);
  }

  lemma PostsJunctionEdges()
    ensures Table.JunctionEdges(Posts, Blog, English) == [PostTagTag]
  {
    PostsJunctionTables();
    KeysFromPostTag();
  }

  lemma PostsFarTables()
    ensures Table.FarTables(Posts, Blog, English) == [Tags]
  {
    PostsJunctionEdges();
    PluckOne(PostTagTag, Table.RefTableOf());
    TablesNamed("tags", Tags);
  }

  /** `posts` reaches `tags` through the junction table `post_tag`, which is
      itself not a result. */
  lemma BlogBelongsToMany()
    ensures Table.BelongsToMany(Posts, Blog, English) == Some([Tags])
  {
    PostsFarTables();
    CommentedBelongsToMany(Posts, Blog, English);
  }

  /** With a truthy comment `belongs_to_many` is the far-side tables. */
  lemma CommentedBelongsToMany(t: TableRow, cat: Snapshot, infl: Inflector)
    requires t.comment.Some? && |t.comment.value| > 1
    ensures Table.BelongsToMany(t, cat, infl) == Some(Table.FarTables(t, cat, infl))
  {
  }

  /** A table with an empty comment gets `null`. */
  lemma UncommentedBelongsToMany()
    ensures Table.BelongsToMany(PostTag, Blog, English) == None
  {
  }

  // Columns and the key-usage lookups.

  lemma VisibleBlogColumns()
    ensures Sieve(Blog.columns, OwnDatabaseScope.VisibleColumn("blog")) == Blog.columns
  {
    var vis := OwnDatabaseScope.VisibleColumn("blog");
    DeniedNames();
    assert Keep(vis, UsersId) == [UsersId] && Keep(vis, PostsId) == [PostsId];
    assert Keep(vis, PostsUserId) == [PostsUserId];
    SieveThree(Blog.columns, vis);
  }

  /** The scope keeps every column of the example. */
  lemma BlogColumns()
    ensures OwnDatabaseScope.Columns(Blog) == Blog.columns
  {
    VisibleBlogColumns();
    FilterBy(Blog.columns, OwnDatabaseScope.VisibleColumn("blog"), Blog.columns);
  }

  lemma PostsColumns()
    ensures Table.Columns(Posts, Blog) == [PostsId, PostsUserId]
  {
    var own := Table.OfTable(Posts);
    BlogColumns();
    assert Keep(own, UsersId) == [] && Keep(own, PostsId) == [PostsId];
    assert Keep(own, PostsUserId) == [PostsUserId];
    SieveThree(Blog.columns, own);
    FilterBy(Blog.columns, own, [PostsId, PostsUserId]);
  }

  /** The primary key of `posts` is its `id` column alone. */
  lemma PostsPrimaryKey()
    ensures Table.PrimaryKey(Posts, Blog) == [PostsId]
  {
    PostsColumns();
    var pri := Table.IsPrimary();
    assert Keep(pri, PostsId) == [PostsId] && Keep(pri, PostsUserId) == [];
    SieveTwo([PostsId, PostsUserId], pri);
    FilterBy([PostsId, PostsUserId], pri, [PostsId]);
  }

  /** `posts_user_id_foreign` is the first key row leaving `posts.user_id`
      and the first referencing `users.id`. */
  lemma PostsUserIsFirstKey()
    ensures Seqs.IsFirst(OwnDatabaseScope.Keys(Blog), Column.Constrains(PostsUserId), PostsUser)
    ensures Seqs.IsFirst(OwnDatabaseScope.Keys(Blog), Column.Targets(UsersId), PostsUser)
  {
    BlogKeys();
    var ks := OwnDatabaseScope.Keys(Blog);
    assert ks[0] == PostsPrimary && ks[1] == PostsUser;
    assert !Column.Constrains(PostsUserId)(PostsPrimary) && Column.Constrains(PostsUserId)(PostsUser);
    assert !Column.Targets(UsersId)(PostsPrimary) && Column.Targets(UsersId)(PostsUser);
  }

  /** `users.id` is the first column `posts_user_id_foreign` references, and
      `posts.user_id` the first that is its own column. */
  lemma PostsUserColumns()
    ensures Seqs.IsFirst(OwnDatabaseScope.Columns(Blog), Key.ReferencedBy(PostsUser), UsersId)
    ensures Seqs.IsFirst(OwnDatabaseScope.Columns(Blog), Key.SourceOf(PostsUser), PostsUserId)
  {
    BlogColumns();
    var cs := OwnDatabaseScope.Columns(Blog);
    assert cs[0] == UsersId && cs[1] == PostsId && cs[2] == PostsUserId;
    assert Key.ReferencedBy(PostsUser)(UsersId);
    assert !Key.SourceOf(PostsUser)(UsersId) && !Key.SourceOf(PostsUser)(PostsId);
    assert Key.SourceOf(PostsUser)(PostsUserId);
  }

  /** `posts.user_id` belongs to `users.id`, and `users.id` has many `posts.user_id`. */
  lemma BlogColumnRelations()
    ensures Column.BelongsTo(PostsUserId, Blog) == Some(UsersId)
    ensures Column.HasMany(UsersId, Blog) == Some(PostsUserId)
  {
    PostsUserIsFirstKey();
    PostsUserColumns();
    Column.BelongsToCharacterised(PostsUserId, Blog, PostsUser, UsersId);
    Column.HasManyCharacterised(UsersId, Blog, PostsUser, PostsUserId);
  }

  /** The lookups of the key row `posts_user_id_foreign`: its table, and the
      columns on either end. */
  lemma PostsUserLookups()
    ensures Key.Table(PostsUser, Blog) == Found(Posts)
    ensures Key.BelongsTo(PostsUser, Blog) == Found(UsersId)
    ensures Key.HasMany(PostsUser, Blog) == Found(PostsUserId)
  {
    BlogTables();
    var ts := OwnDatabaseScope.Tables(Blog);
    assert ts[0] == Users && ts[1] == Posts;
    assert !Key.OwnerOf(PostsUser)(Users) && Key.OwnerOf(PostsUser)(Posts);
    assert Seqs.IsFirst(ts, Key.OwnerOf(PostsUser), Posts);
    var t := Key.Table(PostsUser, Blog);
    Seqs.FirstIsUnique(ts, Key.OwnerOf(PostsUser), t.row, Posts);

    PostsUserColumns();
    var cs := OwnDatabaseScope.Columns(Blog);
    var up := Key.BelongsTo(PostsUser, Blog);
    assert UsersId in cs && Key.ReferencedBy(PostsUser)(UsersId);
    Seqs.FirstIsUnique(cs, Key.ReferencedBy(PostsUser), up.row, UsersId);
    var own := Key.HasMany(PostsUser, Blog);
    assert PostsUserId in cs && Key.SourceOf(PostsUser)(PostsUserId);
    Seqs.FirstIsUnique(cs, Key.SourceOf(PostsUser), own.row, PostsUserId);
  }

  /** The model names of the example's tables. */
  lemma BlogModelNames()
    ensures Table.ModelName(Users, English) == "User"
    ensures Table.ModelName(Posts, English) == "Post"
    ensures Table.ModelName(Tags, English) == "Tag"
  {
  }

  lemma PostController()
    ensures Table.ControllerName(Posts, English) == "PostController"
  {
    assert Table.ModelName(Posts, English) == "Post";
  }

  lemma PostFormRequest()
    ensures Table.RequestName(Posts, English) == "PostFormRequest"
  {
    assert Table.ModelName(Posts, English) == "Post";
  }

  lemma PostPolicy()
    ensures Table.PolicyName(Posts, English) == "PostPolicy"
  {
    assert Table.ModelName(Posts, English) == "Post";
  }

  lemma PostComposer()
    ensures Table.ViewComposerName(Posts, English) == "PostComposer"
  {
    assert Table.ModelName(Posts, English) == "Post";
  }

  /** The classes generated for `posts`. */
  lemma BlogNames()
    ensures Table.ControllerName(Posts, English) == "PostController"
    ensures Table.RequestName(Posts, English) == "PostFormRequest"
    ensures Table.PolicyName(Posts, English) == "PostPolicy"
    ensures Table.ViewComposerName(Posts, English) == "PostComposer"
  {
    PostController();
    PostFormRequest();
    PostPolicy();
    PostComposer();
  }
}
