/**
 * The request and response schemas of discussions, categories and comments: which JSON
 * bodies each accepts, with which defaults, and how each is dumped back to a dict.
 */
module DiscussionSchema {
  import opened Wrappers
  import opened Http
  import opened Values
  import opened Fields
  import opened Uuid

  const TitleLen := Len(1, Some(200))
  const ContentLen := Len(1, None)
  const CategoryNameLen := Len(1, Some(100))
  const IconLen := Len(0, Some(50))
  const CommentBodyLen := Len(1, None)

  /** `DiscussionCreate`. */
  datatype DiscussionCreate = DiscussionCreate(
    title: string, content: string, categoryId: Option<int>, tags: Option<seq<string>>)

  predicate ValidCreate(d: DiscussionCreate) {
    Fits(d.title, TitleLen) && Fits(d.content, ContentLen)
  }

  /**
   * Validating a body as `DiscussionCreate`: a title of 1 to 200 characters and a non-empty
   * content are required; `tags` defaults to the empty list and `category_id` to `None`.
   */
  function ParseCreate(body: Row): (r: Outcome<DiscussionCreate>)
    ensures r.Ok? ==> ValidCreate(r.value)
    ensures r.Fail? ==> r.status == Unprocessable
    ensures !(Get(body, "title").JStr? && Fits(Get(body, "title").s, TitleLen)) ==> r.Fail?
    ensures !(Get(body, "content").JStr? && Fits(Get(body, "content").s, ContentLen)) ==> r.Fail?
    ensures r.Ok? ==> JStr(r.value.title) == body["title"] && JStr(r.value.content) == body["content"]
    ensures r.Ok? && "tags" !in body ==> r.value.tags == Some([])
    ensures r.Ok? && Absent(body, "category_id") ==> r.value.categoryId.None?
  {
    var title := ReqStr(body, "title", TitleLen);
    var content := ReqStr(body, "content", ContentLen);
    var category := OptInt(body, "category_id");
    var tags := OptStrs(body, "tags", Some([]));
    if title.Fail? || content.Fail? || category.Fail? || tags.Fail? then Fail(Unprocessable)
    else Ok(DiscussionCreate(title.value, content.value, category.value, tags.value))
  }

  /** `model_dump()` of a `DiscussionCreate`. */
  function DumpCreate(d: DiscussionCreate): Row {
    map["title" := JStr(d.title), "content" := JStr(d.content), "category_id" := OfInt(d.categoryId),
        "tags" := OfStrs(d.tags)]
  }

  /** A valid discussion survives dumping and validating again. */
  lemma CreateRoundTrip(d: DiscussionCreate)
    requires ValidCreate(d)
    ensures ParseCreate(DumpCreate(d)) == Ok(d)
  {
    var body := DumpCreate(d);
    assert Get(body, "tags") == OfStrs(d.tags);
    if d.tags.Some? {
      TextsOfStrs(d.tags.value);
    }
  }

  /** `DiscussionUpdate`: every field optional. */
  datatype DiscussionUpdate = DiscussionUpdate(
    title: Option<string>, content: Option<string>, tags: Option<seq<string>>,
    isPinned: Option<bool>, isLocked: Option<bool>)

  predicate ValidUpdate(u: DiscussionUpdate) {
    (u.title.Some? ==> Fits(u.title.value, TitleLen)) && (u.content.Some? ==> Fits(u.content.value, ContentLen))
  }

  /** Validating a body as `DiscussionUpdate`: present titles and contents obey the create bounds. */
  function ParseUpdate(body: Row): (r: Outcome<DiscussionUpdate>)
    ensures r.Ok? ==> ValidUpdate(r.value)
    ensures r.Fail? ==> r.status == Unprocessable
    ensures Get(body, "title").JStr? && !Fits(Get(body, "title").s, TitleLen) ==> r.Fail?
    ensures Get(body, "content").JStr? && !Fits(Get(body, "content").s, ContentLen) ==> r.Fail?
    ensures body == map[] ==> r == Ok(DiscussionUpdate(None, None, None, None, None))
  {
    var title := OptStr(body, "title", TitleLen);
    var content := OptStr(body, "content", ContentLen);
    var tags := OptStrs(body, "tags", None);
    var pinned := OptBool(body, "is_pinned");
    var locked := OptBool(body, "is_locked");
    if title.Fail? || content.Fail? || tags.Fail? || pinned.Fail? || locked.Fail? then Fail(Unprocessable)
    else Ok(DiscussionUpdate(title.value, content.value, tags.value, pinned.value, locked.value))
  }

  /** `model_dump()` of a `DiscussionUpdate`. */
  function DumpUpdate(u: DiscussionUpdate): Row {
    map["title" := OfOpt(u.title), "content" := OfOpt(u.content), "tags" := OfStrs(u.tags),
        "is_pinned" := OfBool(u.isPinned), "is_locked" := OfBool(u.isLocked)]
  }

  lemma UpdateRoundTrip(u: DiscussionUpdate)
    requires ValidUpdate(u)
    ensures ParseUpdate(DumpUpdate(u)) == Ok(u)
  {
    var body := DumpUpdate(u);
    assert Get(body, "tags") == OfStrs(u.tags);
    if u.tags.Some? {
      TextsOfStrs(u.tags.value);
    }
  }

  /** The defaults `DiscussionPublic` gives the fields a row lacks. */
  const PublicDefaults: Row := map[
    "category_id" := JNull, "tags" := JList([]), "is_pinned" := JBool(false), "is_locked" := JBool(false),
    "view_count" := JInt(0), "author_username" := JNull, "author_avatar" := JNull, "category_name" := JNull,
    "comment_count" := JInt(0), "like_count" := JInt(0), "is_liked" := JBool(false), "last_comment_at" := JNull]

  /** A row as `DiscussionPublic` returns it. */
  function PublicDiscussion(row: Row): Row {
    Fill(row, PublicDefaults)
  }

  /**
   * Without them in the row, the counts are 0, `is_liked`, `is_pinned` and `is_locked` are
   * false and the tags are empty; fields the row has are kept.
   */
  lemma PublicDiscussionDefaults(row: Row)
    ensures var r := PublicDiscussion(row);
      && (forall k :: k in row ==> k in r && r[k] == row[k])
      && ("comment_count" !in row ==> r["comment_count"] == JInt(0))
      && ("like_count" !in row ==> r["like_count"] == JInt(0))
      && ("is_liked" !in row ==> r["is_liked"] == JBool(false))
      && ("tags" !in row ==> r["tags"] == JList([]))
      && ("is_pinned" !in row ==> r["is_pinned"] == JBool(false))
      && ("is_locked" !in row ==> r["is_locked"] == JBool(false))
  {
    CountDefaults();
    FlagDefaults();
  }

  lemma CountDefaults()
    ensures "comment_count" in PublicDefaults && PublicDefaults["comment_count"] == JInt(0)
    ensures "like_count" in PublicDefaults && PublicDefaults["like_count"] == JInt(0)
    ensures "is_liked" in PublicDefaults && PublicDefaults["is_liked"] == JBool(false)
  {
  }

  lemma FlagDefaults()
    ensures "tags" in PublicDefaults && PublicDefaults["tags"] == JList([])
    ensures "is_pinned" in PublicDefaults && PublicDefaults["is_pinned"] == JBool(false)
    ensures "is_locked" in PublicDefaults && PublicDefaults["is_locked"] == JBool(false)
  {
  }

  /** `CategoryCreate`. */
  datatype CategoryCreate = CategoryCreate(
    name: string, description: Option<string>, icon: Option<string>, displayOrder: int)

  predicate ValidCategory(c: CategoryCreate) {
    Fits(c.name, CategoryNameLen) && (c.icon.Some? ==> Fits(c.icon.value, IconLen))
  }

  /**
   * Validating a body as `CategoryCreate`: a name of 1 to 100 characters, an icon of at most
   * 50, and `display_order` defaulting to 0.
   */
  function ParseCategory(body: Row): (r: Outcome<CategoryCreate>)
    ensures r.Ok? ==> ValidCategory(r.value)
    ensures r.Fail? ==> r.status == Unprocessable
    ensures !(Get(body, "name").JStr? && Fits(Get(body, "name").s, CategoryNameLen)) ==> r.Fail?
    ensures Get(body, "icon").JStr? && |Get(body, "icon").s| > 50 ==> r.Fail?
    ensures r.Ok? && "display_order" !in body ==> r.value.displayOrder == 0
  {
    var name := ReqStr(body, "name", CategoryNameLen);
    var description := OptStr(body, "description", Len(0, None));
    var icon := OptStr(body, "icon", IconLen);
    var order := IntOr(body, "display_order", 0);
    if name.Fail? || description.Fail? || icon.Fail? || order.Fail? then Fail(Unprocessable)
    else Ok(CategoryCreate(name.value, description.value, icon.value, order.value))
  }

  function DumpCategory(c: CategoryCreate): Row {
    map["name" := JStr(c.name), "description" := OfOpt(c.description), "icon" := OfOpt(c.icon),
        "display_order" := JInt(c.displayOrder)]
  }

  lemma CategoryRoundTrip(c: CategoryCreate)
    requires ValidCategory(c)
    ensures ParseCategory(DumpCategory(c)) == Ok(c)
  {
  }

  /**
   * `CommentCreate`: the parent and the two targets are independent optional UUIDs, held as
   * their canonical text.
   */
  datatype CommentCreate = CommentCreate(
    body: string, parentId: Option<string>, discussionId: Option<string>, cameraId: Option<string>)

  /** Validating a body as `CommentCreate`: a non-empty body; parent and targets optional UUIDs. */
  function ParseComment(body: Row): (r: Outcome<CommentCreate>)
    ensures r.Ok? <==>
      Get(body, "body").JStr? && Fits(Get(body, "body").s, CommentBodyLen) &&
      OptUuid(body, "parent_id").Ok? && OptUuid(body, "discussion_id").Ok? && OptUuid(body, "camera_id").Ok?
    ensures r.Ok? ==> Get(body, "body") == JStr(r.value.body) && Fits(r.value.body, CommentBodyLen)
    ensures r.Ok? ==>
      r.value.parentId == OptUuid(body, "parent_id").value &&
      r.value.discussionId == OptUuid(body, "discussion_id").value && r.value.cameraId == OptUuid(body, "camera_id").value
    ensures r.Fail? ==> r.status == Unprocessable
  {
    var text := ReqStr(body, "body", CommentBodyLen);
    var parent := OptUuid(body, "parent_id");
    var discussion := OptUuid(body, "discussion_id");
    var camera := OptUuid(body, "camera_id");
    if text.Fail? || parent.Fail? || discussion.Fail? || camera.Fail? then Fail(Unprocessable)
    else Ok(CommentCreate(text.value, parent.value, discussion.value, camera.value))
  }

  /**
   * No exactly-one rule: a comment naming both a discussion and a camera, or neither, is
   * accepted, as long as each id is a UUID.
   */
  lemma CommentTargetsUnconstrained(text: string, d: string, c: string)
    requires text != "" && IsUuidText(d) && IsUuidText(c)
    ensures ParseComment(map["body" := JStr(text), "discussion_id" := JStr(d), "camera_id" := JStr(c)])
      == Ok(CommentCreate(text, None, Some(Canonical(d)), Some(Canonical(c))))
    ensures ParseComment(map["body" := JStr(text)]) == Ok(CommentCreate(text, None, None, None))
  {
    var body := map["body" := JStr(text), "discussion_id" := JStr(d), "camera_id" := JStr(c)];
    assert Get(body, "parent_id") == JNull;
  }

  /** A parent or target id that is not a UUID, `"abc"` for one, is refused with 422. */
  lemma CommentIdsMustBeUuids(text: string, key: string, id: string)
    requires key == "parent_id" || key == "discussion_id" || key == "camera_id"
    requires !IsUuidText(id)
    ensures ParseComment(map["body" := JStr(text), key := JStr(id)]) == Fail(Unprocessable)
  {
    assert Get(map["body" := JStr(text), key := JStr(id)], key) == JStr(id);
  }

  /** `"abc"` is not a UUID in any spelling. */
  lemma AbcIsNotUuid()
    ensures !IsUuidText("abc")
  {
  }

  /** `CommentUpdate`: a non-empty body, required. */
  function ParseCommentUpdate(body: Row): (r: Outcome<string>)
    ensures r.Ok? <==> Get(body, "body").JStr? && Get(body, "body").s != []
    ensures r.Ok? ==> JStr(r.value) == Get(body, "body")
    ensures r.Fail? ==> r.status == Unprocessable
  {
    ReqStr(body, "body", CommentBodyLen)
  }
}
