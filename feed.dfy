/**
 * The optimized discussion list and the feed built on it: sort normalisation, the page
 * query, enrichment of each page row with its author, category, counts and the viewer's
 * likes, the client-side stable sort on aggregate counts, and the caching around them
 * (`list_discussions_optimized`, `get_feed_optimized`, `prefetch_discussions`, and the input
 * bounds of `batch_discussions`).
 */
module Feed {
  import opened Wrappers
  import opened Http
  import opened Text
  import opened Values
  import opened Cache
  import opened StableSort
  import opened Store

  /** The six sort fields `list_discussions_optimized` accepts. */
  datatype SortField = CreatedAt | UpdatedAt | Title | ViewCount | CommentCount | LikeCount

  function FieldName(f: SortField): string {
    match f
    case CreatedAt => "created_at"
    case UpdatedAt => "updated_at"
    case Title => "title"
    case ViewCount => "view_count"
    case CommentCount => "comment_count"
    case LikeCount => "like_count"
  }

  /** `sortBy`, replaced by `created_at` when it is not one of the six field names. */
  function ParseSortField(sortBy: string): (f: SortField)
    ensures FieldName(f) == sortBy || (f == CreatedAt && forall g :: FieldName(g) != sortBy)
  {
    if sortBy == "updated_at" then UpdatedAt
    else if sortBy == "title" then Title
    else if sortBy == "view_count" then ViewCount
    else if sortBy == "comment_count" then CommentCount
    else if sortBy == "like_count" then LikeCount
    else CreatedAt
  }

  /** Every allowed name is kept as it is. */
  lemma ParseFieldName(f: SortField)
    ensures ParseSortField(FieldName(f)) == f
  {
  }

  /** The fields the store cannot order by: counts computed after the query. */
  predicate IsAggregate(f: SortField) {
    f == CommentCount || f == LikeCount
  }

  /** `sortOrder.lower() == "desc"`. */
  predicate IsDesc(sortOrder: string) {
    LowerAscii(sortOrder) == "desc"
  }

  /** Descending is any upper/lower-case spelling of `desc`, and nothing else. */
  lemma IsDescSpelling(sortOrder: string)
    ensures IsDesc(sortOrder) <==>
      |sortOrder| == 4 &&
      (sortOrder[0] == 'd' || sortOrder[0] == 'D') && (sortOrder[1] == 'e' || sortOrder[1] == 'E') &&
      (sortOrder[2] == 's' || sortOrder[2] == 'S') && (sortOrder[3] == 'c' || sortOrder[3] == 'C')
  {
    var l := LowerAscii(sortOrder);
    if IsDesc(sortOrder) {
      assert l[0] == 'd' && l[1] == 'e' && l[2] == 's' && l[3] == 'c';
    } else if |sortOrder| == 4 {
      assert exists i :: 0 <= i < 4 && l[i] != "desc"[i];
    }
  }

  /** The query arguments of `list_discussions_optimized`. */
  datatype ListQuery = ListQuery(
    limit: int,
    offset: int,
    sortBy: string,
    sortOrder: string,
    userIds: Option<seq<Json>>,
    sub: Option<string>)

  /** The page query sent to the store: a user filter, an ORDER BY and a range. */
  datatype PageRequest = PageRequest(
    userFilter: Option<seq<Json>>,
    order: Option<(SortField, bool)>,
    first: int,
    last: int)

  /**
   * The page query: filtered by `user_ids` only when that list is non-empty, ordered by the
   * normalised field only when it is a column, over rows `offset..offset + limit - 1`.
   */
  function BuildPageRequest(q: ListQuery): (p: PageRequest)
    ensures p.userFilter.Some? <==> q.userIds.Some? && q.userIds.value != []
    ensures p.userFilter.Some? ==> p.userFilter == q.userIds
    ensures p.order.Some? <==> !IsAggregate(ParseSortField(q.sortBy))
    ensures p.order.Some? ==> p.order.value == (ParseSortField(q.sortBy), IsDesc(q.sortOrder))
    ensures p.first == q.offset && p.last - p.first + 1 == q.limit
  {
    var field := ParseSortField(q.sortBy);
    PageRequest(
      if q.userIds.Some? && q.userIds.value != [] then q.userIds else None,
      if IsAggregate(field) then None else Some((field, IsDesc(q.sortOrder))),
      q.offset,
      q.offset + q.limit - 1)
  }

  /** The related data each page row is merged with. */
  datatype Lookups = Lookups(
    authors: map<Json, UserRow>,
    categories: map<Json, Row>,
    commentCounts: map<Json, int>,
    likeCounts: map<Json, int>,
    liked: set<Json>)

  /** The tables enrichment reads. */
  datatype Tables = Tables(
    users: seq<UserRow>,
    follows: seq<Edge>,
    likes: seq<Like>,
    categories: seq<Row>,
    comments: seq<Row>)

  function TablesOf(db: Db): Tables
    reads db
  {
    Tables(db.users, db.follows, db.likes, db.categories, db.comments)
  }

  /** The distinct truthy values of column `col` on the page. */
  function ColumnIds(page: seq<Row>, col: string): (ids: set<Json>)
    ensures forall v :: v in ids <==> JTruthy(v) && exists r :: r in page && Get(r, col) == v
  {
    set r | r in page && JTruthy(Get(r, col)) :: Get(r, col)
  }

  /** `[d["id"] for d in discussions]`. */
  function PageIds(page: seq<Row>): (ids: seq<Json>)
    ensures |ids| == |page| && forall i :: 0 <= i < |page| ==> ids[i] == Get(page[i], "id")
  {
    if page == [] then [] else [Get(page[0], "id")] + PageIds(page[1..])
  }

  /**
   * `{key(x): x for x in rows}` over the rows whose key was asked for: each key maps to a
   * row carrying it (the last one, when several do).
   */
  function IndexBy<T>(rows: seq<T>, key: T -> Json, ids: set<Json>): (m: map<Json, T>)
    ensures forall k :: k in m ==> k in ids && m[k] in rows && key(m[k]) == k
    ensures forall x :: x in rows && key(x) in ids ==> key(x) in m
  {
    if rows == [] then map[]
    else
      var last := rows[|rows| - 1];
      var m := IndexBy(rows[..|rows| - 1], key, ids);
      assert forall x :: x in rows ==> x in rows[..|rows| - 1] || x == last;
      if key(last) in ids then m[key(last) := last] else m
  }

  function UserKey(u: UserRow): Json {
    JStr(u.id)
  }

  function RowId(r: Row): Json {
    Get(r, "id")
  }

  /** Comments on discussion `id`: a row of `get_discussion_comment_counts`. */
  function CommentsOn(comments: seq<Row>, id: Json): nat {
    Count(comments, (c: Row) => Get(c, "discussion_id") == id)
  }

  /** Likes on discussion `id`: a row of `get_discussion_like_counts`. */
  function LikesOn(likes: seq<Like>, id: Json): nat {
    Count(likes, (l: Like) => l.discussion.Some? && JStr(l.discussion.value) == id)
  }

  /**
   * An SQL `GROUP BY` count over the page's ids as a dict: an entry for each id with at
   * least one row, so `.get(id, 0)` is the count of every id of the page.
   */
  function CountMap(ids: seq<Json>, count: Json -> nat): (m: map<Json, int>)
    ensures forall k :: k in m ==> k in ids && m[k] == count(k) > 0
    ensures forall k :: k in ids ==> (if k in m then m[k] else 0) == count(k)
  {
    map k | k in ids && count(k) > 0 :: count(k)
  }

  /** The page ids the viewer has liked; empty without a viewer id. */
  function ViewerLikes(likes: seq<Like>, sub: Option<string>, ids: seq<Json>): (s: set<Json>)
    ensures forall k :: k in s ==> Truthy(sub) && k in ids
  {
    if Truthy(sub) && ids != [] then
      set l | l in likes && l.user == sub.value && l.discussion.Some? && JStr(l.discussion.value) in ids
        :: JStr(l.discussion.value)
    else {}
  }

  /** The viewer liked `k` exactly when one of the viewer's likes targets discussion `k`. */
  lemma ViewerLikesMeaning(likes: seq<Like>, sub: Option<string>, ids: seq<Json>, k: Json)
    requires k in ids
    ensures k in ViewerLikes(likes, sub, ids) <==>
      Truthy(sub) && exists l :: l in likes && l.user == sub.value && OfOpt(l.discussion) == k && k != JNull
  {
    if Truthy(sub) && exists l :: l in likes && l.user == sub.value && OfOpt(l.discussion) == k && k != JNull {
      var l :| l in likes && l.user == sub.value && OfOpt(l.discussion) == k && k != JNull;
      assert l.discussion.Some? && JStr(l.discussion.value) == k;
    }
  }

  /** The lookups `list_discussions_optimized` fetches for a page. */
  function Context(page: seq<Row>, t: Tables, sub: Option<string>): Lookups {
    var ids := PageIds(page);
    Lookups(
      IndexBy(t.users, UserKey, ColumnIds(page, "user_id")),
      IndexBy(t.categories, RowId, ColumnIds(page, "category_id")),
      CountMap(ids, id => CommentsOn(t.comments, id)),
      CountMap(ids, id => LikesOn(t.likes, id)),
      ViewerLikes(t.likes, sub, ids))
  }

  /** The keys enrichment adds to a row. */
  const Added: set<string> := {
    "content", "author_username", "author_avatar", "author_display_name", "category_name",
    "comment_count", "like_count", "is_liked"
  }

  /** The columns enrichment adds to one page row, taken from the lookups. */
  function Extras(r: Row, ctx: Lookups): (x: Row)
    ensures x.Keys == Added
  {
    var id := Get(r, "id");
    var author := Get(r, "user_id");
    var category := Get(r, "category_id");
    map[
      "content" := if "body" in r then r["body"] else JStr(""),
      "author_username" := if author in ctx.authors then OfOpt(ctx.authors[author].username) else JNull,
      "author_avatar" := if author in ctx.authors then OfOpt(ctx.authors[author].avatarUrl) else JNull,
      "author_display_name" := if author in ctx.authors then OfOpt(ctx.authors[author].displayName) else JNull,
      "category_name" := if category in ctx.categories then Get(ctx.categories[category], "name") else JNull,
      "comment_count" := JInt(if id in ctx.commentCounts then ctx.commentCounts[id] else 0),
      "like_count" := JInt(if id in ctx.likeCounts then ctx.likeCounts[id] else 0),
      "is_liked" := JBool(id in ctx.liked)]
  }

  /** `{**discussion, "content": discussion.pop("body", ""), ...}`: the added columns win. */
  function EnrichOne(r: Row, ctx: Lookups): Row {
    r + Extras(r, ctx)
  }

  function EnrichAll(page: seq<Row>, ctx: Lookups): seq<Row> {
    seq(|page|, i requires 0 <= i < |page| => EnrichOne(page[i], ctx))
  }

  /**
   * An enriched row has the row's columns plus the added ones; every column it had keeps its
   * value (`body` included) unless enrichment overwrites it, and `content` is the body or `""`.
   */
  lemma EnrichedColumns(page: seq<Row>, t: Tables, sub: Option<string>, i: nat)
    requires i < |page|
    ensures var e := EnrichAll(page, Context(page, t, sub))[i]; var r := page[i];
      && e.Keys == r.Keys + Added
      && (forall k :: k in r && k !in Added ==> e[k] == r[k])
      && e["content"] == (if "body" in r then r["body"] else JStr(""))
  {
    var ctx := Context(page, t, sub);
    assert EnrichAll(page, ctx)[i] == EnrichOne(page[i], ctx);
    EnrichOneColumns(page[i], ctx);
  }

  /** `EnrichedColumns` for any lookups. */
  lemma EnrichOneColumns(r: Row, ctx: Lookups)
    ensures var e := EnrichOne(r, ctx);
      && e.Keys == r.Keys + Added
      && (forall k :: k in r && k !in Added ==> e[k] == r[k])
      && e["content"] == (if "body" in r then r["body"] else JStr(""))
  {
    var x := Extras(r, ctx);
    assert x["content"] == (if "body" in r then r["body"] else JStr(""));
  }

  /**
   * The counts of an enriched row are the number of comments and of likes on that discussion
   * (0 when there are none), and `is_liked` holds exactly when the viewer has a like on it.
   */
  lemma EnrichedCounts(page: seq<Row>, t: Tables, sub: Option<string>, i: nat)
    requires i < |page|
    ensures var e := EnrichAll(page, Context(page, t, sub))[i]; var id := Get(page[i], "id");
      && e["comment_count"] == JInt(CommentsOn(t.comments, id))
      && e["like_count"] == JInt(LikesOn(t.likes, id))
      && (e["is_liked"] == JBool(true) <==>
           Truthy(sub) && exists l :: l in t.likes && l.user == sub.value && OfOpt(l.discussion) == id && id != JNull)
  {
    var id := Get(page[i], "id");
    assert id in PageIds(page);
    ViewerLikesMeaning(t.likes, sub, PageIds(page), id);
  }

  /** The author columns of an enriched row come from the author lookup, or are `None`. */
  lemma AuthorColumns(r: Row, ctx: Lookups)
    ensures var e := EnrichOne(r, ctx); var a := Get(r, "user_id");
      && (a in ctx.authors ==>
           e["author_username"] == OfOpt(ctx.authors[a].username) && e["author_avatar"] == OfOpt(ctx.authors[a].avatarUrl) &&
           e["author_display_name"] == OfOpt(ctx.authors[a].displayName))
      && (a !in ctx.authors ==>
           e["author_username"] == JNull && e["author_avatar"] == JNull && e["author_display_name"] == JNull)
  {
  }

  /**
   * The author columns come from a user row whose id is the row's `user_id` when there is
   * one, and are all `None` otherwise.
   */
  lemma EnrichedAuthor(page: seq<Row>, t: Tables, sub: Option<string>, i: nat)
    requires i < |page|
    ensures var e := EnrichAll(page, Context(page, t, sub))[i]; var author := Get(page[i], "user_id");
      && ((JTruthy(author) && exists u :: u in t.users && JStr(u.id) == author) ==>
           exists u :: u in t.users && JStr(u.id) == author &&
             e["author_username"] == OfOpt(u.username) && e["author_avatar"] == OfOpt(u.avatarUrl) &&
             e["author_display_name"] == OfOpt(u.displayName))
      && (!(JTruthy(author) && exists u :: u in t.users && JStr(u.id) == author) ==>
           e["author_username"] == JNull && e["author_avatar"] == JNull && e["author_display_name"] == JNull)
  {
    var author := Get(page[i], "user_id");
    var ctx := Context(page, t, sub);
    var authors := IndexBy(t.users, UserKey, ColumnIds(page, "user_id"));
    assert ctx.authors == authors;
    AuthorColumns(page[i], ctx);
    if JTruthy(author) && exists u :: u in t.users && JStr(u.id) == author {
      var u :| u in t.users && JStr(u.id) == author;
      assert page[i] in page;
      assert UserKey(u) in ColumnIds(page, "user_id");
      var w := authors[author];
      assert w in t.users && JStr(w.id) == author;
    }
  }

  /** `category_name` is the name of a category row with the row's `category_id`, else `None`. */
  lemma EnrichedCategory(page: seq<Row>, t: Tables, sub: Option<string>, i: nat)
    requires i < |page|
    ensures var e := EnrichAll(page, Context(page, t, sub))[i]; var category := Get(page[i], "category_id");
      && ((JTruthy(category) && exists c :: c in t.categories && Get(c, "id") == category) ==>
           exists c :: c in t.categories && Get(c, "id") == category && e["category_name"] == Get(c, "name"))
      && (!(JTruthy(category) && exists c :: c in t.categories && Get(c, "id") == category) ==>
           e["category_name"] == JNull)
  {
    var category := Get(page[i], "category_id");
    var ctx := Context(page, t, sub);
    var categories := IndexBy(t.categories, RowId, ColumnIds(page, "category_id"));
    assert ctx.categories == categories;
    assert EnrichAll(page, ctx)[i] == EnrichOne(page[i], ctx);
    CategoryColumn(page[i], ctx);
    if JTruthy(category) && exists c :: c in t.categories && Get(c, "id") == category {
      var c :| c in t.categories && Get(c, "id") == category;
      assert page[i] in page;
      assert RowId(c) in ColumnIds(page, "category_id");
      assert category in categories;
      var w := categories[category];
      assert w in t.categories && Get(w, "id") == category;
    }
  }

  /** The category column of an enriched row comes from the category lookup, or is `None`. */
  lemma CategoryColumn(r: Row, ctx: Lookups)
    ensures var e := EnrichOne(r, ctx); var c := Get(r, "category_id");
      e["category_name"] == if c in ctx.categories then Get(ctx.categories[c], "name") else JNull
  {
  }

  /** The sort key of an aggregate count column. */
  function CountKey(col: string): Row -> int {
    (r: Row) => match Get(r, col) case JInt(n) => n case _ => 0
  }

  /** The enriched page, re-sorted on the client when the sort field is an aggregate count. */
  function ListPage(page: seq<Row>, ctx: Lookups, field: SortField, desc: bool): seq<Row> {
    var e := EnrichAll(page, ctx);
    if IsAggregate(field) then Sort(e, CountKey(FieldName(field)), desc) else e
  }

  /**
   * For an aggregate field the result is the enriched page re-ordered: non-increasing (`desc`)
   * or non-decreasing counts, with rows of equal count in page order. For any other field the
   * store's order is kept.
   */
  lemma ListPageOrder(page: seq<Row>, ctx: Lookups, field: SortField, desc: bool)
    ensures var r := ListPage(page, ctx, field, desc); var e := EnrichAll(page, ctx);
      && |r| == |page|
      && (!IsAggregate(field) ==> r == e)
      && (IsAggregate(field) ==>
           var key := CountKey(FieldName(field));
           multiset(r) == multiset(e) && SortedBy(r, key, desc) &&
           forall k :: WithKey(r, key, k) == WithKey(e, key, k))
  {
  }

  /** The page the store answers the request with (its ORDER BY is not modelled). */
  type Fetch = PageRequest -> seq<Row>

  /** The list `list_discussions_optimized` computes on a cache miss. */
  function Compute(q: ListQuery, t: Tables, fetch: Fetch): seq<Json> {
    var page := fetch(BuildPageRequest(q));
    Objs(ListPage(page, Context(page, t, q.sub), ParseSortField(q.sortBy), IsDesc(q.sortOrder)))
  }

  /** The keyword arguments of the list's cache key (the raw `sortBy`, before normalisation). */
  function ListParams(q: ListQuery): seq<Param> {
    [Param("limit", JInt(q.limit)), Param("offset", JInt(q.offset)), Param("sortBy", JStr(q.sortBy)),
     Param("sortOrder", JStr(q.sortOrder)),
     Param("user_ids", if q.userIds.Some? then JList(q.userIds.value) else JNull),
     Param("user_id", OfOpt(q.sub))]
  }

  function ListKey(q: ListQuery, digest: seq<Param> -> string): string {
    CacheKey("discussions", ListParams(q), digest)
  }

  type Entries = map<string, Entry<seq<Json>>>

  /** `cached = get_cached_data(key, ttl); if cached: return cached`: a fresh, non-empty list. */
  function Served(m: Entries, key: string, ttl: int, now: int): Option<seq<Json>> {
    var c := Lookup(m, key, ttl, now);
    if c.Some? && c.value != [] then c else None
  }

  /** A handler's answer and the cache it leaves. */
  datatype Step = Step(result: seq<Json>, entries: Entries)

  /** Serve `key` from the cache, or answer `computed` and store it under `key`. */
  function CachedStep(m: Entries, key: string, ttl: int, now: int, computed: seq<Json>): Step {
    var s := Served(m, key, ttl, now);
    if s.Some? then Step(s.value, m)
    else Step(computed, Expire(m, key, ttl, now)[key := Entry(computed, now)])
  }

  /**
   * A miss answers the computed list, leaves it readable under the key for the TTL, and
   * touches no other key except by the lazy expiry of this one.
   */
  lemma CachedStepMiss(m: Entries, key: string, ttl: int, now: int, computed: seq<Json>)
    requires Served(m, key, ttl, now).None?
    requires ttl > 0
    ensures var s := CachedStep(m, key, ttl, now, computed);
      s.result == computed &&
      Lookup(s.entries, key, ttl, now) == Some(computed) &&
      s.entries.Keys == m.Keys + {key} &&
      forall k :: k in m && k != key ==> s.entries[k] == m[k]
  {
    assert DeltaSeconds(now, now) == 0;
  }

  /**
   * A cached empty list is never served: `if cached_data:` treats it as a miss, so the list is
   * recomputed (and stored again) however fresh the empty entry is.
   */
  lemma CachedEmptyListIsMiss(m: Entries, key: string, ttl: int, now: int, t: int, computed: seq<Json>)
    ensures CachedStep(m[key := Entry([], t)], key, ttl, now, computed).result == computed
  {
  }

  /** `list_discussions_optimized`: answer and new cache state. */
  function ListStep(m: Entries, now: int, digest: seq<Param> -> string, q: ListQuery, t: Tables, fetch: Fetch): Step {
    CachedStep(m, ListKey(q, digest), 30, now, Compute(q, t, fetch))
  }

  /** `[f["following_id"] for f in follows if f["follower_id"] == user]`, in table order. */
  function Followees(follows: seq<Edge>, user: string): (r: seq<string>)
    ensures forall x :: x in r <==> Edge(user, x) in follows
  {
    if follows == [] then []
    else
      var rest := Followees(follows[1..], user);
      assert forall e :: e in follows <==> e == follows[0] || e in follows[1..];
      (if follows[0].follower == user then [follows[0].following] else []) + rest
  }

  /** The following list the feed caches: the viewer's followees, then the viewer. */
  function FollowingIds(follows: seq<Edge>, user: string): seq<Json> {
    Strs(Followees(follows, user)) + [JStr(user)]
  }

  /** The viewer is always in their own following list, after exactly the users they follow. */
  lemma FollowingIdsMeaning(follows: seq<Edge>, user: string)
    ensures var ids := FollowingIds(follows, user);
      ids != [] && ids[|ids| - 1] == JStr(user) &&
      forall x: string :: JStr(x) in ids <==> x == user || Edge(user, x) in follows
  {
    var f := Followees(follows, user);
    var ids := FollowingIds(follows, user);
    forall x: string ensures JStr(x) in ids <==> x == user || Edge(user, x) in follows {
      if JStr(x) in ids && x != user {
        var i :| 0 <= i < |ids| && ids[i] == JStr(x);
        assert i < |f|;
        assert f[i] == x;
      }
      if Edge(user, x) in follows {
        var i :| 0 <= i < |f| && f[i] == x;
        assert ids[i] == JStr(x);
      }
    }
  }

  function FeedKey(user: string, limit: int, page: int, digest: seq<Param> -> string): string {
    CacheKey("feed", [Param("user_id", JStr(user)), Param("page", JInt(page)), Param("limit", JInt(limit))], digest)
  }

  function FollowingKey(user: string): string {
    "following:" + user
  }

  /** The list query the feed delegates to: newest first, from the followed users. */
  function FeedQuery(limit: int, page: int, ids: seq<Json>, sub: Option<string>): ListQuery {
    ListQuery(limit, page * limit, "created_at", "desc", Some(ids), sub)
  }

  /** The viewer's following list, cached for five minutes under `following:<user>`. */
  function FollowingStep(m: Entries, follows: seq<Edge>, user: string, now: int): Step {
    var key := FollowingKey(user);
    var cached := Lookup(m, key, 300, now);
    if cached.Some? then Step(cached.value, m)
    else
      var ids := FollowingIds(follows, user);
      Step(ids, Expire(m, key, 300, now)[key := Entry(ids, now)])
  }

  /** `get_feed_optimized`: answer and new cache state. */
  function FeedStep(
    m: Entries, t: Tables, sub: Option<string>, limit: int, page: int, now: int,
    digest: seq<Param> -> string, fetch: Fetch): Step
  {
    if !Truthy(sub) then Step([], m)
    else
      var feedKey := FeedKey(sub.value, limit, page, digest);
      var s := Served(m, feedKey, 30, now);
      if s.Some? then Step(s.value, m)
      else
        var f := FollowingStep(Expire(m, feedKey, 30, now), t.follows, sub.value, now);
        if f.result == [] then f
        else ListStep(f.entries, now, digest, FeedQuery(limit, page, f.result, sub), t, fetch)
  }

  /** No entry lies in the `feed` key space. */
  predicate NoFeedEntries(m: Entries) {
    forall k :: k in m ==> !InSpace(k, "feed")
  }

  lemma ListKeySpace(q: ListQuery, digest: seq<Param> -> string)
    ensures !InSpace(ListKey(q, digest), "feed")
  {
    OutsideSpace("discussions", ListParams(q), digest, "feed");
  }

  lemma FeedKeySpace(user: string, limit: int, page: int, digest: seq<Param> -> string)
    ensures InSpace(FeedKey(user, limit, page, digest), "feed")
  {
    CacheKeySpace("feed", [Param("user_id", JStr(user)), Param("page", JInt(page)), Param("limit", JInt(limit))], digest);
  }

  lemma FollowingKeySpace(user: string)
    ensures !InSpace(FollowingKey(user), "feed")
  {
    assert FollowingKey(user)[1] == 'o';
  }

  /** The list never writes under the `feed` prefix. */
  lemma ListStepKeepsNoFeed(m: Entries, now: int, digest: seq<Param> -> string, q: ListQuery, t: Tables, fetch: Fetch)
    requires NoFeedEntries(m)
    ensures NoFeedEntries(ListStep(m, now, digest, q, t, fetch).entries)
  {
    ListKeySpace(q, digest);
  }

  /**
   * The feed's own key is read but never written: from a cache with no `feed` entry, the feed
   * is never served from the cache, and it leaves no `feed` entry behind.
   */
  lemma FeedNeverCached(
    m: Entries, t: Tables, sub: Option<string>, limit: int, page: int, now: int,
    digest: seq<Param> -> string, fetch: Fetch)
    requires NoFeedEntries(m) && Truthy(sub)
    ensures Served(m, FeedKey(sub.value, limit, page, digest), 30, now).None?
    ensures NoFeedEntries(FeedStep(m, t, sub, limit, page, now, digest, fetch).entries)
  {
    var user := sub.value;
    FeedKeySpace(user, limit, page, digest);
    var feedKey := FeedKey(user, limit, page, digest);
    assert feedKey !in m;
    assert Served(m, feedKey, 30, now).None?;
    assert Expire(m, feedKey, 30, now) == m;
    FollowingStepKeepsNoFeed(m, t.follows, user, now);
    var f := FollowingStep(m, t.follows, user, now);
    if f.result != [] {
      ListStepKeepsNoFeed(f.entries, now, digest, FeedQuery(limit, page, f.result, sub), t, fetch);
    }
  }

  /** Reading or storing the following list never writes under the `feed` prefix. */
  lemma FollowingStepKeepsNoFeed(m: Entries, follows: seq<Edge>, user: string, now: int)
    requires NoFeedEntries(m)
    ensures NoFeedEntries(FollowingStep(m, follows, user, now).entries)
  {
    FollowingKeySpace(user);
  }

  /**
   * Without a viewer id the feed is empty and the cache untouched. With one, when no fresh
   * following list is cached, the feed is the optimized list for the viewer's followees and
   * the viewer, from offset `page * limit`, newest first (`FeedFollowingCached` covers a fresh
   * following list).
   */
  lemma FeedDelegates(
    m: Entries, t: Tables, sub: Option<string>, limit: int, page: int, now: int,
    digest: seq<Param> -> string, fetch: Fetch)
    requires NoFeedEntries(m)
    requires Truthy(sub) ==> Lookup(m, FollowingKey(sub.value), 300, now).None?
    ensures var s := FeedStep(m, t, sub, limit, page, now, digest, fetch);
      (!Truthy(sub) ==> s == Step([], m)) &&
      (Truthy(sub) ==>
        var ids := FollowingIds(t.follows, sub.value);
        var q := FeedQuery(limit, page, ids, sub);
        s == ListStep(m[FollowingKey(sub.value) := Entry(ids, now)], now, digest, q, t, fetch) &&
        q.offset == page * limit && ParseSortField(q.sortBy) == CreatedAt && IsDesc(q.sortOrder))
  {
    if Truthy(sub) {
      FeedViewerMiss(m, t, sub.value, limit, page, now, digest, fetch);
      FeedQueryNewestFirst(limit, page, FollowingIds(t.follows, sub.value), sub);
    }
  }

  /**
   * With a fresh following list `ids` cached for the viewer, the feed is empty when `ids` is,
   * and otherwise the optimized list for exactly `ids`, from offset `page * limit`, newest
   * first, over the unchanged cache.
   */
  lemma FeedFollowingCached(
    m: Entries, t: Tables, sub: Option<string>, ids: seq<Json>, limit: int, page: int, now: int,
    digest: seq<Param> -> string, fetch: Fetch)
    requires NoFeedEntries(m) && Truthy(sub)
    requires Lookup(m, FollowingKey(sub.value), 300, now) == Some(ids)
    ensures var s := FeedStep(m, t, sub, limit, page, now, digest, fetch);
      var q := FeedQuery(limit, page, ids, sub);
      (ids == [] ==> s == Step([], m)) &&
      (ids != [] ==> s == ListStep(m, now, digest, q, t, fetch)) &&
      q.offset == page * limit && ParseSortField(q.sortBy) == CreatedAt && IsDesc(q.sortOrder)
  {
    var feedKey := FeedKey(sub.value, limit, page, digest);
    FeedKeySpace(sub.value, limit, page, digest);
    assert feedKey !in m;
    assert Served(m, feedKey, 30, now).None?;
    assert Expire(m, feedKey, 30, now) == m;
    assert FollowingStep(m, t.follows, sub.value, now) == Step(ids, m);
    FeedQueryNewestFirst(limit, page, ids, sub);
  }

  /** The feed's query starts at `page * limit` and sorts by `created_at`, newest first. */
  lemma FeedQueryNewestFirst(limit: int, page: int, ids: seq<Json>, sub: Option<string>)
    ensures var q := FeedQuery(limit, page, ids, sub);
      q.offset == page * limit && ParseSortField(q.sortBy) == CreatedAt && IsDesc(q.sortOrder)
  {
    assert LowerAscii("desc") == "desc";
  }

  /** The viewer's feed, with neither the feed nor a fresh following list cached. */
  lemma FeedViewerMiss(
    m: Entries, t: Tables, user: string, limit: int, page: int, now: int,
    digest: seq<Param> -> string, fetch: Fetch)
    requires NoFeedEntries(m) && Lookup(m, FollowingKey(user), 300, now).None? && user != ""
    ensures var ids := FollowingIds(t.follows, user);
      FeedStep(m, t, Some(user), limit, page, now, digest, fetch) ==
      ListStep(m[FollowingKey(user) := Entry(ids, now)], now, digest, FeedQuery(limit, page, ids, Some(user)), t, fetch)
  {
    FeedKeySpace(user, limit, page, digest);
    FollowingIdsMeaning(t.follows, user);
    var feedKey := FeedKey(user, limit, page, digest);
    assert feedKey !in m;
    assert Served(m, feedKey, 30, now).None?;
    assert Expire(m, feedKey, 30, now) == m;
    FollowingStepMiss(m, t.follows, user, now);
  }

  /** Without a fresh cached following list, the list is computed and stored under its key. */
  lemma FollowingStepMiss(m: Entries, follows: seq<Edge>, user: string, now: int)
    requires Lookup(m, FollowingKey(user), 300, now).None?
    ensures var ids := FollowingIds(follows, user);
      FollowingStep(m, follows, user, now) == Step(ids, m[FollowingKey(user) := Entry(ids, now)])
  {
    var key, ids := FollowingKey(user), FollowingIds(follows, user);
    assert Expire(m, key, 300, now)[key := Entry(ids, now)] == m[key := Entry(ids, now)];
  }

  /** `batch_discussions` accepts 1 to 50 ids; its 400 is re-raised by the generic handler as 500. */
  function BatchBounds(ids: seq<Json>): (r: Outcome<()>)
    ensures r.Ok? <==> 1 <= |ids| <= 50
    ensures r.Fail? ==> r.status == ServerError
  {
    Rewrap(if ids == [] || |ids| > 50 then Fail(BadRequest) else Ok(()), ServerError)
  }

  /** `prefetch_discussions` accepts 1 to 20 users; its 400 likewise surfaces as 500. */
  function PrefetchBounds(users: seq<string>): (r: Outcome<()>)
    ensures r.Ok? <==> 1 <= |users| <= 20
    ensures r.Fail? ==> r.status == ServerError
  {
    Rewrap(if users == [] || |users| > 20 then Fail(BadRequest) else Ok(()), ServerError)
  }

  function PrefetchKey(user: string, digest: seq<Param> -> string): string {
    CacheKey("user_discussions", [Param("user_id", JStr(user))], digest)
  }

  /** `row` restricted to the selected columns. */
  function Project(r: Row, cols: set<string>): (p: Row)
    ensures p.Keys == r.Keys * cols
    ensures forall k :: k in p ==> p[k] == r[k]
  {
    map k | k in r && k in cols :: r[k]
  }

  function Take<T>(s: seq<T>, n: nat): (r: seq<T>)
    ensures |r| == Min(n, |s|) && r == s[..|r|]
  {
    if |s| <= n then s else s[..n]
  }

  /** The sort key of `.order("created_at")`: the rank of the row's `created_at` value. */
  function Newness(rank: Json -> int): Row -> int {
    (r: Row) => rank(Get(r, "created_at"))
  }

  /** `.eq("user_id", user)`. */
  function ByUser(user: string): Row -> bool {
    (r: Row) => Get(r, "user_id") == JStr(user)
  }

  /**
   * `.eq("user_id", user).order("created_at", desc=True).limit(10)`: the user's ten newest
   * discussions, newest first; every row of the user's that is left out is no newer than
   * every row that is taken.
   */
  function Newest(discussions: seq<Row>, user: string, rank: Json -> int): (top: seq<Row>)
    ensures var own := Filter(discussions, ByUser(user));
      |top| == Min(10, |own|) && multiset(top) <= multiset(own) &&
      SortedBy(top, Newness(rank), true) &&
      forall x, y :: x in multiset(own) - multiset(top) && y in top ==> Newness(rank)(x) <= Newness(rank)(y)
  {
    var own := Filter(discussions, ByUser(user));
    var sorted := Sort(own, Newness(rank), true);
    NewestPrefix(own, sorted, Newness(rank), Min(10, |own|));
    Take(sorted, 10)
  }

  /** A prefix of a newest-first permutation holds rows no older than the rest. */
  lemma NewestPrefix<T>(own: seq<T>, sorted: seq<T>, key: T -> int, n: nat)
    requires multiset(sorted) == multiset(own) && SortedBy(sorted, key, true) && n <= |sorted|
    ensures multiset(sorted[..n]) <= multiset(own)
    ensures SortedBy(sorted[..n], key, true)
    ensures forall x, y :: x in multiset(own) - multiset(sorted[..n]) && y in sorted[..n] ==> key(x) <= key(y)
  {
    var top, rest := sorted[..n], sorted[n..];
    assert sorted == top + rest;
    assert multiset(own) - multiset(top) == multiset(rest);
    forall x, y | x in multiset(own) - multiset(top) && y in top ensures key(x) <= key(y) {
      assert x in rest;
      var j :| 0 <= j < |rest| && rest[j] == x;
      var i :| 0 <= i < |top| && top[i] == y;
      assert sorted[n + j] == x && sorted[i] == y;
    }
  }

  /** The cached list: each of the user's newest rows as `id, title, created_at, view_count`. */
  function Recent(discussions: seq<Row>, user: string, rank: Json -> int): seq<Json> {
    var top := Newest(discussions, user, rank);
    Objs(seq(|top|, i requires 0 <= i < |top| => Project(top[i], {"id", "title", "created_at", "view_count"})))
  }

  /** One user of the prefetch loop: skipped when a fresh non-empty entry exists. */
  function PrefetchOne(m: Entries, user: string, discussions: seq<Row>, rank: Json -> int, now: int, digest: seq<Param> -> string): Entries {
    var key := PrefetchKey(user, digest);
    if Served(m, key, 300, now).Some? then m
    else Expire(m, key, 300, now)[key := Entry(Recent(discussions, user, rank), now)]
  }

  function PrefetchAll(m: Entries, users: seq<string>, discussions: seq<Row>, rank: Json -> int, now: int, digest: seq<Param> -> string): Entries
  {
    if users == [] then m
    else PrefetchOne(PrefetchAll(m, users[..|users| - 1], discussions, rank, now, digest), users[|users| - 1], discussions, rank, now, digest)
  }

  /** A prefetch step keeps every live entry live and makes the user's entry live. */
  lemma PrefetchOneKeepsLive(m: Entries, user: string, discussions: seq<Row>, rank: Json -> int, now: int, digest: seq<Param> -> string, k: string)
    ensures Lookup(m, k, 300, now).Some? ==> Lookup(PrefetchOne(m, user, discussions, rank, now, digest), k, 300, now).Some?
    ensures Lookup(PrefetchOne(m, user, discussions, rank, now, digest), PrefetchKey(user, digest), 300, now).Some?
  {
    assert DeltaSeconds(now, now) == 0;
  }

  /** After the prefetch loop every listed user has a live entry, and no live entry was lost. */
  lemma {:induction false} PrefetchWarms(m: Entries, users: seq<string>, discussions: seq<Row>, rank: Json -> int, now: int, digest: seq<Param> -> string)
    ensures var m' := PrefetchAll(m, users, discussions, rank, now, digest);
      (forall u :: u in users ==> Lookup(m', PrefetchKey(u, digest), 300, now).Some?) &&
      (forall k :: Lookup(m, k, 300, now).Some? ==> Lookup(m', k, 300, now).Some?)
  {
    if users != [] {
      var init := users[..|users| - 1];
      var last := users[|users| - 1];
      var mid := PrefetchAll(m, init, discussions, rank, now, digest);
      PrefetchWarms(m, init, discussions, rank, now, digest);
      forall k ensures Lookup(mid, k, 300, now).Some? ==> Lookup(PrefetchOne(mid, last, discussions, rank, now, digest), k, 300, now).Some? {
        PrefetchOneKeepsLive(mid, last, discussions, rank, now, digest, k);
      }
      PrefetchOneKeepsLive(mid, last, discussions, rank, now, digest, "");
      forall u | u in users ensures Lookup(PrefetchAll(m, users, discussions, rank, now, digest), PrefetchKey(u, digest), 300, now).Some? {
        if u != last {
          assert u in init;
        }
      }
    }
  }

  /** Prefetch never writes under the `feed` prefix. */
  lemma {:induction false} PrefetchKeepsNoFeed(m: Entries, users: seq<string>, discussions: seq<Row>, rank: Json -> int, now: int, digest: seq<Param> -> string)
    requires NoFeedEntries(m)
    ensures NoFeedEntries(PrefetchAll(m, users, discussions, rank, now, digest))
  {
    if users != [] {
      var last := users[|users| - 1];
      PrefetchKeepsNoFeed(m, users[..|users| - 1], discussions, rank, now, digest);
      OutsideSpace("user_discussions", [Param("user_id", JStr(last))], digest, "feed");
    }
  }

  /** No two listed users share a prefetch key (the hash does not collide on them). */
  predicate KeysDistinct(users: seq<string>, digest: seq<Param> -> string) {
    forall u, v :: u in users && v in users && u != v ==> PrefetchKey(u, digest) != PrefetchKey(v, digest)
  }

  /** The prefetch loop leaves a key that belongs to none of its users as it was. */
  lemma {:induction false} PrefetchFrame(m: Entries, users: seq<string>, discussions: seq<Row>, rank: Json -> int, now: int, digest: seq<Param> -> string, k: string)
    requires forall u :: u in users ==> PrefetchKey(u, digest) != k
    ensures var m' := PrefetchAll(m, users, discussions, rank, now, digest);
      (k in m' <==> k in m) && (k in m ==> m'[k] == m[k])
  {
    if users != [] {
      var init := users[..|users| - 1];
      forall u | u in init ensures PrefetchKey(u, digest) != k {
        assert u in users;
      }
      PrefetchFrame(m, init, discussions, rank, now, digest, k);
      assert users[|users| - 1] in users;
      PrefetchOneFrame(PrefetchAll(m, init, discussions, rank, now, digest), users[|users| - 1], discussions, rank, now, digest, k);
    }
  }

  /** One pass leaves every key but its user's as it was. */
  lemma PrefetchOneFrame(m: Entries, user: string, discussions: seq<Row>, rank: Json -> int, now: int, digest: seq<Param> -> string, k: string)
    requires PrefetchKey(user, digest) != k
    ensures var m' := PrefetchOne(m, user, discussions, rank, now, digest);
      (k in m' <==> k in m) && (k in m ==> m'[k] == m[k])
  {
  }

  /**
   * The entry the prefetch leaves for `u`: the one `m` served before the loop, or else the
   * user's newest discussions written at `now`.
   */
  predicate Prefetched(m: Entries, m': Entries, u: string, discussions: seq<Row>, rank: Json -> int, now: int, digest: seq<Param> -> string) {
    var key := PrefetchKey(u, digest);
    key in m' &&
    m'[key] == if Served(m, key, 300, now).Some? then m[key] else Entry(Recent(discussions, u, rank), now)
  }

  /**
   * What the prefetch loop caches: every listed user's entry is the one served before the
   * loop, or else that user's newest discussions.
   */
  lemma {:induction false} PrefetchCaches(m: Entries, users: seq<string>, discussions: seq<Row>, rank: Json -> int, now: int, digest: seq<Param> -> string)
    requires KeysDistinct(users, digest)
    ensures forall u :: u in users ==>
      Prefetched(m, PrefetchAll(m, users, discussions, rank, now, digest), u, discussions, rank, now, digest)
  {
    if users != [] {
      var init, last := users[..|users| - 1], users[|users| - 1];
      var mid := PrefetchAll(m, init, discussions, rank, now, digest);
      var m' := PrefetchOne(mid, last, discussions, rank, now, digest);
      assert PrefetchAll(m, users, discussions, rank, now, digest) == m';
      KeysDistinctInit(users, digest);
      PrefetchCaches(m, init, discussions, rank, now, digest);
      assert users == init + [last];
      PrefetchBeforeLast(m, init, last, discussions, rank, now, digest);
      PrefetchLast(m, mid, last, discussions, rank, now, digest);
      forall u | u in users ensures Prefetched(m, m', u, discussions, rank, now, digest) {
        if u != last {
          assert u in init;
          PrefetchOther(m, mid, last, u, discussions, rank, now, digest);
        }
      }
    }
  }

  /** Dropping the last user keeps the keys distinct. */
  lemma KeysDistinctInit(users: seq<string>, digest: seq<Param> -> string)
    requires users != [] && KeysDistinct(users, digest)
    ensures KeysDistinct(users[..|users| - 1], digest)
  {
    forall u, v | u in users[..|users| - 1] && v in users[..|users| - 1] && u != v
      ensures PrefetchKey(u, digest) != PrefetchKey(v, digest)
    {
      assert u in users && v in users;
    }
  }

  /**
   * Before the last user's pass, that user's entry is already `Prefetched` (the user came up
   * earlier) or still the one the loop started from.
   */
  lemma PrefetchBeforeLast(m: Entries, init: seq<string>, last: string, discussions: seq<Row>, rank: Json -> int, now: int, digest: seq<Param> -> string)
    requires KeysDistinct(init + [last], digest)
    requires forall u :: u in init ==>
      Prefetched(m, PrefetchAll(m, init, discussions, rank, now, digest), u, discussions, rank, now, digest)
    ensures var mid, key := PrefetchAll(m, init, discussions, rank, now, digest), PrefetchKey(last, digest);
      Prefetched(m, mid, last, discussions, rank, now, digest) ||
      ((key in mid <==> key in m) && (key in m ==> mid[key] == m[key]))
  {
    if last !in init {
      forall u | u in init ensures PrefetchKey(u, digest) != PrefetchKey(last, digest) {
        assert u in init + [last] && last in init + [last];
      }
      PrefetchFrame(m, init, discussions, rank, now, digest, PrefetchKey(last, digest));
    }
  }

  /** The last user's pass leaves that user's entry as `Prefetched` says. */
  lemma PrefetchLast(m: Entries, mid: Entries, last: string, discussions: seq<Row>, rank: Json -> int, now: int, digest: seq<Param> -> string)
    requires var key := PrefetchKey(last, digest);
      Prefetched(m, mid, last, discussions, rank, now, digest) ||
      ((key in mid <==> key in m) && (key in m ==> mid[key] == m[key]))
    ensures Prefetched(m, PrefetchOne(mid, last, discussions, rank, now, digest), last, discussions, rank, now, digest)
  {
  }

  /** Another user's pass leaves `u`'s entry alone. */
  lemma PrefetchOther(m: Entries, mid: Entries, last: string, u: string, discussions: seq<Row>, rank: Json -> int, now: int, digest: seq<Param> -> string)
    requires PrefetchKey(u, digest) != PrefetchKey(last, digest)
    requires Prefetched(m, mid, u, discussions, rank, now, digest)
    ensures Prefetched(m, PrefetchOne(mid, last, discussions, rank, now, digest), u, discussions, rank, now, digest)
  {
  }

  /** The enrichment loop of `list_discussions_optimized`. */
  method Enrich(page: seq<Row>, ctx: Lookups) returns (out: seq<Row>)
    ensures out == EnrichAll(page, ctx)
  {
    out := [];
    for i := 0 to |page|
      invariant |out| == i
      invariant forall j :: 0 <= j < i ==> out[j] == EnrichOne(page[j], ctx)
    {
      out := out + [EnrichOne(page[i], ctx)];
    }
  }

  /** `list_discussions_optimized` over the module-level cache. */
  method ListDiscussionsOptimized(
    cache: TtlCache<seq<Json>>, db: Db, q: ListQuery, now: int,
    digest: seq<Param> -> string, fetch: Fetch)
    returns (r: seq<Json>)
    modifies cache
    ensures Step(r, cache.entries) == ListStep(old(cache.entries), now, digest, q, TablesOf(db), fetch)
  {
    var key := ListKey(q, digest);
    ghost var m := cache.entries;
    var cached := cache.Get(key, 30, now);
    if cached.Some? && cached.value != [] {
      assert Served(m, key, 30, now) == cached;
      return cached.value;
    }
    assert Served(m, key, 30, now).None?;
    var field := ParseSortField(q.sortBy);
    var desc := IsDesc(q.sortOrder);
    var page := fetch(BuildPageRequest(q));
    if page == [] {
      assert Compute(q, TablesOf(db), fetch) == [];
      cache.Set(key, [], now);
      return [];
    }
    var ctx := Context(page, TablesOf(db), q.sub);
    var enriched := Enrich(page, ctx);
    if IsAggregate(field) {
      enriched := Sort(enriched, CountKey(FieldName(field)), desc);
    }
    r := Objs(enriched);
    assert r == Compute(q, TablesOf(db), fetch);
    cache.Set(key, r, now);
  }

  /** `get_feed_optimized` over the module-level cache. */
  method GetFeedOptimized(
    cache: TtlCache<seq<Json>>, db: Db, sub: Option<string>, limit: int, page: int, now: int,
    digest: seq<Param> -> string, fetch: Fetch)
    returns (r: seq<Json>)
    modifies cache
    ensures Step(r, cache.entries) == FeedStep(old(cache.entries), TablesOf(db), sub, limit, page, now, digest, fetch)
  {
    if !Truthy(sub) {
      return [];
    }
    var user := sub.value;
    var cached := cache.Get(FeedKey(user, limit, page, digest), 30, now);
    if cached.Some? && cached.value != [] {
      return cached.value;
    }
    var followingIds := cache.Get(FollowingKey(user), 300, now);
    var ids: seq<Json>;
    if followingIds.None? {
      ids := Strs(Followees(db.follows, user));
      ids := ids + [JStr(user)];
      cache.Set(FollowingKey(user), ids, now);
    } else {
      ids := followingIds.value;
    }
    if ids == [] {
      return [];
    }
    r := ListDiscussionsOptimized(cache, db, FeedQuery(limit, page, ids, sub), now, digest, fetch);
  }

  /** `prefetch_discussions`: warms the cache for each listed user; answers the number of users. */
  method PrefetchDiscussions(
    cache: TtlCache<seq<Json>>, db: Db, users: seq<string>, rank: Json -> int, now: int, digest: seq<Param> -> string)
    returns (r: Outcome<int>)
    modifies cache
    ensures r.Ok? <==> PrefetchBounds(users).Ok?
    ensures r.Ok? ==> r.value == |users| && cache.entries == PrefetchAll(old(cache.entries), users, db.discussions, rank, now, digest)
    ensures r.Ok? && KeysDistinct(users, digest) ==> forall u :: u in users ==>
      Prefetched(old(cache.entries), cache.entries, u, db.discussions, rank, now, digest)
    ensures r.Fail? ==> r.status == ServerError && cache.entries == old(cache.entries)
  {
    if users == [] || |users| > 20 {
      return Fail(ServerError);
    }
    for i := 0 to |users|
      invariant cache.entries == PrefetchAll(old(cache.entries), users[..i], db.discussions, rank, now, digest)
    {
      assert users[..i + 1][..i] == users[..i];
      PrefetchUser(cache, db, users[i], rank, now, digest);
    }
    assert users[..|users|] == users;
    if KeysDistinct(users, digest) {
      PrefetchCaches(old(cache.entries), users, db.discussions, rank, now, digest);
    }
    return Ok(|users|);
  }

  /** One pass of the prefetch loop: the user's newest discussions are stored unless a fresh entry exists. */
  method PrefetchUser(cache: TtlCache<seq<Json>>, db: Db, user: string, rank: Json -> int, now: int, digest: seq<Param> -> string)
    modifies cache
    ensures cache.entries == PrefetchOne(old(cache.entries), user, db.discussions, rank, now, digest)
    ensures Prefetched(old(cache.entries), cache.entries, user, db.discussions, rank, now, digest)
  {
    var key := PrefetchKey(user, digest);
    var cached := cache.Get(key, 300, now);
    if cached.Some? && cached.value != [] {
      return;
    }
    cache.Set(key, Recent(db.discussions, user, rank), now);
  }
}
