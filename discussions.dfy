/**
 * The simplified discussion endpoints: the newest-first page, the single discussion and
 * discussion creation. The store keeps a discussion's text in the column `body`; the API
 * calls it `content`, and each handler renames the field on the way in or out.
 */
module Discussions {
  import opened Wrappers
  import opened Http
  import opened Values
  import opened Store
  import opened StableSort
  import opened Fields
  import opened DiscussionSchema

  /** A stored row as the API returns it: `body` popped and stored under `content`. */
  function Renamed(row: Row): (r: Row)
    ensures "body" !in r
    ensures "body" in row ==> "content" in r && r["content"] == row["body"]
    ensures forall k :: k in row && k != "body" && k != "content" ==> k in r && r[k] == row[k]
    ensures forall k :: k in r && k != "content" ==> k in row && r[k] == row[k]
    ensures "body" !in row ==> r == row
  {
    if "body" in row then (row - {"body"})["content" := row["body"]] else row
  }

  /** A request row as the store receives it: `content` popped and stored under `body`. */
  function ToBody(row: Row): (r: Row)
    ensures "content" !in r
    ensures "content" in row ==> "body" in r && r["body"] == row["content"]
    ensures forall k :: k in row && k != "body" && k != "content" ==> k in r && r[k] == row[k]
    ensures forall k :: k in r && k != "body" ==> k in row && r[k] == row[k]
  {
    if "content" in row then (row - {"content"})["body" := row["content"]] else row
  }

  /** The two renamings undo each other: a request row survives the round trip through the store. */
  lemma BodyContentRoundTrip(row: Row)
    requires "body" !in row
    ensures Renamed(ToBody(row)) == row
  {
    var r := Renamed(ToBody(row));
    assert r.Keys == row.Keys;
  }

  /** The sort key of `order("created_at")`: the position of a row's timestamp in time. */
  function CreatedAt(rank: Json -> int): Row -> int {
    (r: Row) => rank(Get(r, "created_at"))
  }

  /** The rows the list query returns, before renaming: newest first, `offset` to `offset + limit - 1`. */
  function Page(table: seq<Row>, rank: Json -> int, limit: int, offset: nat): seq<Row> {
    Window(Sort(table, CreatedAt(rank), true), offset, offset + limit - 1)
  }

  /**
   * `list_discussions`: a `limit` above 100 or a negative `offset` is refused with 422;
   * otherwise the page with every row renamed.
   */
  function ListDiscussionsSpec(table: seq<Row>, rank: Json -> int, limit: int, offset: int): (r: Outcome<seq<Row>>)
    ensures r.Ok? <==> limit <= 100 && offset >= 0
    ensures r.Fail? ==> r.status == Unprocessable
    ensures r.Ok? ==>
      |r.value| == (if limit <= 0 || offset >= |table| then 0 else Min(limit, |table| - offset)) &&
      forall k :: 0 <= k < |r.value| ==>
        offset + k < |table| && r.value[k] == Renamed(Sort(table, CreatedAt(rank), true)[offset + k])
  {
    if limit > 100 || offset < 0 then Fail(Unprocessable)
    else
      var page := Page(table, rank, limit, offset);
      Ok(seq(|page|, k requires 0 <= k < |page| => Renamed(page[k])))
  }

  /**
   * A page holds at most `limit` rows, each a renamed table row without `body`, newest first,
   * and consecutive pages follow each other in the sorted table.
   */
  lemma ListDiscussionsPage(table: seq<Row>, rank: Json -> int, limit: int, offset: nat)
    requires limit <= 100
    ensures var r := ListDiscussionsSpec(table, rank, limit, offset).value;
      && (limit >= 0 ==> |r| <= limit)
      && (forall k :: 0 <= k < |r| ==> "body" !in r[k])
      && (forall k :: 0 <= k < |r| ==> exists row :: row in table && r[k] == Renamed(row))
      && SortedBy(r, CreatedAt(rank), true)
  {
    var sorted := Sort(table, CreatedAt(rank), true);
    var page := Page(table, rank, limit, offset);
    var r := ListDiscussionsSpec(table, rank, limit, offset).value;
    forall k | 0 <= k < |r| ensures exists row :: row in table && r[k] == Renamed(row) {
      var row := sorted[offset + k];
      assert row in multiset(sorted);
      assert row in table && r[k] == Renamed(row);
    }
    forall k | 0 <= k < |r| ensures CreatedAt(rank)(r[k]) == CreatedAt(rank)(page[k]) {
      assert Get(r[k], "created_at") == Get(page[k], "created_at");
    }
    forall i, j | 0 <= i < j < |r| ensures !Before(CreatedAt(rank)(r[j]), CreatedAt(rank)(r[i]), true) {
      assert page[i] == sorted[offset + i] && page[j] == sorted[offset + j];
    }
  }

  /** The pages for `offset` and `offset + limit` together are the page of `2 * limit` rows. */
  lemma ListDiscussionsPagesTile(table: seq<Row>, rank: Json -> int, limit: nat, offset: nat)
    ensures Page(table, rank, limit, offset) + Page(table, rank, limit, offset + limit) ==
      Page(table, rank, 2 * limit, offset)
  {
    WindowsTile(Sort(table, CreatedAt(rank), true), offset, offset + limit, offset + 2 * limit - 1);
  }

  /** `list_discussions` on the database: the page is renamed row by row, in place. */
  method ListDiscussions(db: Db, rank: Json -> int, limit: int, offset: int) returns (r: Outcome<seq<Row>>)
    ensures r == ListDiscussionsSpec(db.discussions, rank, limit, offset)
  {
    if limit > 100 || offset < 0 {
      return Fail(Unprocessable);
    }
    var page := Page(db.discussions, rank, limit, offset);
    var ds := page;
    var i := 0;
    while i < |ds|
      invariant 0 <= i <= |ds| == |page|
      invariant forall k :: 0 <= k < i ==> ds[k] == Renamed(page[k])
      invariant forall k :: i <= k < |ds| ==> ds[k] == page[k]
    {
      if "body" in ds[i] {
        var text := ds[i]["body"];
        ds := ds[i := (ds[i] - {"body"})["content" := text]];
      }
      i := i + 1;
    }
    assert ds == seq(|page|, k requires 0 <= k < |page| => Renamed(page[k]));
    r := Ok(ds);
  }

  /**
   * `get_discussion`: the one row with the id, renamed. No row, several rows (both errors of
   * `.single()`) and an empty row are all answered with 404.
   */
  function GetDiscussion(table: seq<Row>, id: string): (r: Outcome<Row>)
    ensures r.Ok? <==> Count(table, Where("id", JStr(id))) == 1 && Single(table, Where("id", JStr(id))).value != map[]
    ensures r.Fail? ==> r.status == NotFound
    ensures r.Ok? ==> "body" !in r.value && Get(r.value, "id") == JStr(id)
    ensures r.Ok? ==> exists row :: row in table && r.value == Renamed(row)
  {
    var found := Single(table, Where("id", JStr(id)));
    if found.None? || found.value == map[] then Fail(NotFound) else Ok(Renamed(found.value))
  }

  /** A discussion stored once under its id is found, with its `body` as `content`. */
  lemma GetStoredDiscussion(table: seq<Row>, i: nat)
    requires i < |table| && Get(table[i], "id").JStr?
    requires forall j :: 0 <= j < |table| && j != i ==> Get(table[j], "id") != Get(table[i], "id")
    ensures var r := GetDiscussion(table, Get(table[i], "id").s);
      r == Ok(Renamed(table[i]))
      && ("body" in table[i] ==> r.value["content"] == table[i]["body"])
  {
    var p := Where("id", Get(table[i], "id"));
    FilterOne(table, p, i);
  }

  /** `model_dump(exclude_none=True)`: the fields whose value is not `None`. */
  function ExcludeNone(row: Row): (r: Row)
    ensures forall k :: k in r <==> k in row && row[k] != JNull
    ensures forall k :: k in r ==> r[k] == row[k]
  {
    map k | k in row && row[k] != JNull :: row[k]
  }

  /** `category_id` is `None` or `0` (a missing key reads as `None`). */
  predicate NoCategory(data: Row) {
    Get(data, "category_id") == JNull || Get(data, "category_id") == JInt(0)
  }

  /**
   * The row `create_discussion` inserts: the request without its `None` fields, `content`
   * moved to `body`, the caller's `user_id`, and no `category_id` when it is `None` or 0.
   */
  function Prepared(req: DiscussionCreate, userId: string): Row {
    var data := ToBody(ExcludeNone(DumpCreate(req)))["user_id" := JStr(userId)];
    if NoCategory(data) then data - {"category_id"} else data
  }

  /**
   * The inserted row holds the title, the content under `body` and never under `content`, the
   * caller's id, a category exactly when one other than 0 was given, and tags exactly when
   * given; nothing else.
   */
  lemma PreparedRow(req: DiscussionCreate, userId: string)
    ensures var p := Prepared(req, userId);
      && p.Keys <= {"title", "body", "user_id", "category_id", "tags"}
      && "content" !in p
      && "title" in p && p["title"] == JStr(req.title)
      && "body" in p && p["body"] == JStr(req.content)
      && "user_id" in p && p["user_id"] == JStr(userId)
      && ("category_id" in p <==> req.categoryId.Some? && req.categoryId.value != 0)
      && ("category_id" in p ==> p["category_id"] == JInt(req.categoryId.value))
      && ("tags" in p <==> req.tags.Some?)
      && ("tags" in p ==> p["tags"] == JList(Strs(req.tags.value)))
  {
    var dump := DumpCreate(req);
    assert dump["title"] == JStr(req.title) && dump["content"] == JStr(req.content);
    assert dump["category_id"] == OfInt(req.categoryId) && dump["tags"] == OfStrs(req.tags);
    assert dump.Keys == {"title", "content", "category_id", "tags"};
  }

  /**
   * `create_discussion`: the body is validated as `DiscussionCreate` (422 otherwise), then the
   * prepared row is inserted. `generated` stands for the store's answer: the columns it
   * fills in itself (id, timestamps, defaults), or `None` when the insert returns no row,
   * which is answered with 400 and leaves the table as it was. The answer is the stored row
   * with `body` renamed back to `content`.
   */
  function CreateDiscussionSpec(table: seq<Row>, body: Row, userId: string, generated: Option<Row>): (r: (Outcome<Row>, seq<Row>))
    ensures r.0.Fail? ==> r.1 == table && (r.0.status == Unprocessable || r.0.status == BadRequest)
    ensures r.0.Ok? ==> |r.1| == |table| + 1 && r.1[..|table|] == table && r.0.value == Renamed(r.1[|table|])
  {
    var req := ParseCreate(body);
    if req.Fail? then (Fail(Unprocessable), table)
    else if generated.None? then (Fail(BadRequest), table)
    else
      var stored := generated.value + Prepared(req.value, userId);
      (Ok(Renamed(stored)), table + [stored])
  }

  /**
   * The stored row of a created discussion holds the content as `body`, a category only when
   * one other than 0 was given, and the store's own columns the request does not set; the
   * answer made from it holds the content as `content`, never as `body`.
   */
  lemma StoredDiscussion(req: DiscussionCreate, userId: string, generated: Row)
    ensures var p := Prepared(req, userId);
      var stored := generated + p;
      var r := Renamed(stored);
      && Get(stored, "body") == JStr(req.content) && Get(stored, "title") == JStr(req.title)
      && Get(stored, "user_id") == JStr(userId)
      && (req.categoryId.Some? && req.categoryId.value != 0 ==> Get(stored, "category_id") == JInt(req.categoryId.value))
      && (forall k :: k in generated && k !in p ==> k in stored && stored[k] == generated[k])
      && "body" !in r && Get(r, "content") == JStr(req.content) && Get(r, "title") == JStr(req.title)
      && Get(r, "user_id") == JStr(userId)
  {
    PreparedRow(req, userId);
  }

  /**
   * A created discussion answers with the request's title and content and the caller's id,
   * and the row appended to the table is the stored row described by `StoredDiscussion`.
   */
  lemma CreateDiscussionEcho(table: seq<Row>, body: Row, userId: string, generated: Row)
    requires ParseCreate(body).Ok?
    ensures var (r, after) := CreateDiscussionSpec(table, body, userId, Some(generated));
      && after == table + [generated + Prepared(ParseCreate(body).value, userId)]
      && r.Ok? && "body" !in r.value
      && Get(r.value, "content") == Get(body, "content") && Get(r.value, "title") == Get(body, "title")
      && Get(r.value, "user_id") == JStr(userId)
  {
    StoredDiscussion(ParseCreate(body).value, userId, generated);
  }

  /** `create_discussion` on the database, the insert row built step by step. */
  method CreateDiscussion(db: Db, body: Row, userId: string, generated: Option<Row>) returns (r: Outcome<Row>)
    modifies db`discussions
    ensures (r, db.discussions) == CreateDiscussionSpec(old(db.discussions), body, userId, generated)
  {
    var parsed := ParseCreate(body);
    if parsed.Fail? {
      return Fail(Unprocessable);
    }
    var data := ExcludeNone(DumpCreate(parsed.value));
    if "content" in data {
      var text := data["content"];
      data := (data - {"content"})["body" := text];
    }
    data := data["user_id" := JStr(userId)];
    if NoCategory(data) {
      data := data - {"category_id"};
    }
    if generated.None? {
      return Fail(BadRequest);
    }
    var stored := generated.value + data;
    db.discussions := db.discussions + [stored];
    var response := stored;
    if "body" in response {
      var text := response["body"];
      response := (response - {"body"})["content" := text];
    }
    r := Ok(response);
  }
}
