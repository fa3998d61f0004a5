/**
 * The simplified camera endpoints: the page of public cameras, a camera with its images and
 * owner (counting the view), and camera creation.
 */
module Cameras {
  import opened Wrappers
  import opened Http
  import opened Values
  import opened Store
  import opened StableSort
  import opened Fields
  import opened Uuid
  import Users
  import CameraSchema

  /** The filter `.eq("is_public", True)`. */
  function IsPublic(): Row -> bool {
    Where("is_public", JBool(true))
  }

  /**
   * `list_cameras`: a `limit` above 100 or a negative `offset` is refused with 422;
   * otherwise the public cameras at positions `offset` to `offset + limit - 1`.
   */
  function ListCameras(table: seq<Row>, limit: int, offset: int): (r: Outcome<seq<Row>>)
    ensures r.Ok? <==> limit <= 100 && offset >= 0
    ensures r.Fail? ==> r.status == Unprocessable
    ensures r.Ok? ==> var pub := Filter(table, IsPublic());
      |r.value| == (if limit <= 0 || offset >= |pub| then 0 else Min(limit, |pub| - offset)) &&
      forall k :: 0 <= k < |r.value| ==> offset + k < |pub| && r.value[k] == pub[offset + k]
  {
    if limit > 100 || offset < 0 then Fail(Unprocessable)
    else Ok(Window(Filter(table, IsPublic()), offset, offset + limit - 1))
  }

  /** A page holds at most `limit` cameras, each of them a public camera of the table. */
  lemma ListCamerasPublic(table: seq<Row>, limit: int, offset: nat)
    requires limit <= 100
    ensures var r := ListCameras(table, limit, offset).value;
      && (limit >= 0 ==> |r| <= limit)
      && forall k :: 0 <= k < |r| ==> r[k] in table && Get(r[k], "is_public") == JBool(true)
  {
    var pub := Filter(table, IsPublic());
    var r := ListCameras(table, limit, offset).value;
    forall k | 0 <= k < |r| ensures r[k] in table && Get(r[k], "is_public") == JBool(true) {
      assert r[k] == pub[offset + k];
      assert pub[offset + k] in pub;
    }
  }

  /** The pages for `offset` and `offset + limit` together are the page of `2 * limit` rows. */
  lemma ListCamerasPages(table: seq<Row>, limit: nat, offset: nat)
    requires 2 * limit <= 100
    ensures ListCameras(table, limit, offset).value + ListCameras(table, limit, offset + limit).value ==
      ListCameras(table, 2 * limit, offset).value
  {
    WindowsTile(Filter(table, IsPublic()), offset, offset + limit, offset + 2 * limit - 1);
  }

  /** A page as long as the table lists every public camera, in table order. */
  lemma ListCamerasAll(table: seq<Row>, limit: nat)
    requires |table| <= limit <= 100
    ensures ListCameras(table, limit, 0).value == Filter(table, IsPublic())
  {
    var pub := Filter(table, IsPublic());
    assert |pub| <= |table|;
    assert Window(pub, 0, limit - 1) == pub[0..|pub|];
  }

  /** An image with an integer `display_order`. */
  function HasOrder(): Row -> bool {
    (r: Row) => Get(r, "display_order").JInt?
  }

  /** An image whose `display_order` is null. */
  function NoOrder(): Row -> bool {
    (r: Row) => !Get(r, "display_order").JInt?
  }

  function DisplayOrder(r: Row): int {
    if Get(r, "display_order").JInt? then Get(r, "display_order").i else 0
  }

  /**
   * `order("display_order")`: ascending, nulls last (PostgreSQL's default for ascending
   * order); images with equal order keep their table order.
   */
  function OrderedImages(rows: seq<Row>): seq<Row> {
    Sort(Filter(rows, HasOrder()), DisplayOrder, false) + Filter(rows, NoOrder())
  }

  /** The ordered images are the camera's images, those with an order first, ascending. */
  lemma OrderedImagesFacts(rows: seq<Row>)
    ensures var r := OrderedImages(rows);
      && multiset(r) == multiset(rows)
      && forall i, j :: 0 <= i < j < |r| && HasOrder()(r[j]) ==> HasOrder()(r[i]) && DisplayOrder(r[i]) <= DisplayOrder(r[j])
  {
    var ordered := Filter(rows, HasOrder());
    var sorted := Sort(ordered, DisplayOrder, false);
    FilterSplit(rows, HasOrder(), NoOrder());
    forall x | x in sorted ensures HasOrder()(x) {
      assert x in multiset(ordered);
    }
  }

  /**
   * `update({"view_count": n}).eq("id", id)`: the rows with the id get the count `n`, every
   * other field and row stays.
   */
  function SetViewCount(cameras: seq<Row>, id: string, n: int): (r: seq<Row>)
    ensures |r| == |cameras|
  {
    if cameras == [] then []
    else
      [if Get(cameras[0], "id") == JStr(id) then cameras[0]["view_count" := JInt(n)] else cameras[0]]
      + SetViewCount(cameras[1..], id, n)
  }

  /** Row by row: the rows with the id get the count `n`, the others are unchanged. */
  lemma {:induction false} SetViewCountRows(cameras: seq<Row>, id: string, n: int)
    ensures var r := SetViewCount(cameras, id, n);
      forall k :: 0 <= k < |cameras| ==>
        r[k] == if Get(cameras[k], "id") == JStr(id) then cameras[k]["view_count" := JInt(n)] else cameras[k]
  {
    if cameras != [] {
      SetViewCountRows(cameras[1..], id, n);
      var r := SetViewCount(cameras, id, n);
      forall k | 1 <= k < |cameras|
        ensures r[k] == if Get(cameras[k], "id") == JStr(id) then cameras[k]["view_count" := JInt(n)] else cameras[k]
      {
        assert r[k] == SetViewCount(cameras[1..], id, n)[k - 1];
        assert cameras[k] == cameras[1..][k - 1];
      }
    }
  }

  /** The camera's images, in display order, attached as `images`; no other field changes. */
  function WithImages(camera: Row, images: seq<Row>, id: string): (r: Row)
    ensures Get(r, "images") == JList(Objs(OrderedImages(Filter(images, Where("camera_id", JStr(id))))))
    ensures forall k :: k != "images" ==> Get(r, k) == Get(camera, k)
  {
    camera["images" := JList(Objs(OrderedImages(Filter(images, Where("camera_id", JStr(id))))))]
  }

  /** The owner's username and avatar attached; no other field changes. */
  function WithOwner(camera: Row, owner: UserRow): (r: Row)
    ensures Get(r, "owner_username") == OfOpt(owner.username) && Get(r, "owner_avatar") == OfOpt(owner.avatarUrl)
    ensures forall k :: k != "owner_username" && k != "owner_avatar" ==> Get(r, k) == Get(camera, k)
  {
    camera["owner_username" := OfOpt(owner.username)]["owner_avatar" := OfOpt(owner.avatarUrl)]
  }

  /**
   * The owner lookup `.eq("id", camera["user_id"]).single()`: the one users row with that id;
   * a missing or non-text `user_id` finds none.
   */
  function OwnerOf(camera: Row, users: seq<UserRow>): (r: Option<UserRow>)
    ensures r.Some? <==> Get(camera, "user_id").JStr? && Count(users, Users.HasId(Get(camera, "user_id").s)) == 1
    ensures r.Some? ==> r.value in users && JStr(r.value.id) == Get(camera, "user_id")
  {
    var ownerId := Get(camera, "user_id");
    if ownerId.JStr? then Single(users, Users.HasId(ownerId.s)) else None
  }

  /**
   * The answer of `get_camera`. The camera must be the one row with the id; its images are
   * attached in display order; the owner must be the one users row with the camera's
   * `user_id`, and its username and avatar are added; the `view_count` read must be an
   * integer, and the answer keeps that value. Every failure (no camera, no owner, a
   * `view_count` that is not an integer) is answered with 404.
   */
  function CameraView(cameras: seq<Row>, images: seq<Row>, users: seq<UserRow>, id: string): (r: Outcome<Row>)
    ensures r.Fail? ==> r.status == NotFound
    ensures r.Ok? ==> Get(r.value, "view_count").JInt?
  {
    var found := Single(cameras, Where("id", JStr(id)));
    if found.None? || found.value == map[] then Fail(NotFound)
    else
      var camera := WithImages(found.value, images, id);
      var owner := OwnerOf(camera, users);
      if owner.None? then Fail(NotFound)
      else
        var camera := WithOwner(camera, owner.value);
        if !Get(camera, "view_count").JInt? then Fail(NotFound) else Ok(camera)
  }

  /**
   * The cameras table after `get_camera` answered `r`: a failure writes nothing; a success
   * sets the stored `view_count` of the rows with the id to the value answered plus one.
   */
  function Counted(cameras: seq<Row>, id: string, r: Outcome<Row>): (after: seq<Row>)
    ensures |after| == |cameras|
    ensures r.Fail? ==> after == cameras
  {
    if r.Fail? || !Get(r.value, "view_count").JInt? then cameras
    else SetViewCount(cameras, id, Get(r.value, "view_count").i + 1)
  }

  /**
   * Viewing a camera stored once under its id, whose owner is stored once and whose
   * `view_count` is an integer, succeeds: the stored count goes up by exactly one and no other
   * row changes; the answer carries the count before the view, the camera's images in display
   * order and the owner's username and avatar.
   */
  lemma GetCameraCountsView(cameras: seq<Row>, images: seq<Row>, users: seq<UserRow>, i: nat, j: nat)
    requires i < |cameras| && Get(cameras[i], "id").JStr?
    requires forall k :: 0 <= k < |cameras| && k != i ==> Get(cameras[k], "id") != Get(cameras[i], "id")
    requires Get(cameras[i], "view_count").JInt?
    requires j < |users| && Get(cameras[i], "user_id") == JStr(users[j].id)
    requires forall k :: 0 <= k < |users| && k != j ==> users[k].id != users[j].id
    ensures var id := Get(cameras[i], "id").s;
      var v := Get(cameras[i], "view_count").i;
      var r := CameraView(cameras, images, users, id);
      var after := Counted(cameras, id, r);
      && r.Ok?
      && after == cameras[i := cameras[i]["view_count" := JInt(v + 1)]]
      && Get(r.value, "view_count") == JInt(v)
      && Get(r.value, "id") == JStr(id)
      && Get(r.value, "images") == JList(Objs(OrderedImages(Filter(images, Where("camera_id", JStr(id))))))
      && Get(r.value, "owner_username") == OfOpt(users[j].username)
      && Get(r.value, "owner_avatar") == OfOpt(users[j].avatarUrl)
  {
    var id := Get(cameras[i], "id").s;
    ViewAnswer(cameras, images, users, i, j);
    CountedTable(cameras, i, CameraView(cameras, images, users, id));
  }

  /** The answer for a camera stored once whose owner is stored once. */
  lemma ViewAnswer(cameras: seq<Row>, images: seq<Row>, users: seq<UserRow>, i: nat, j: nat)
    requires i < |cameras| && Get(cameras[i], "id").JStr?
    requires forall k :: 0 <= k < |cameras| && k != i ==> Get(cameras[k], "id") != Get(cameras[i], "id")
    requires Get(cameras[i], "view_count").JInt?
    requires j < |users| && Get(cameras[i], "user_id") == JStr(users[j].id)
    requires forall k :: 0 <= k < |users| && k != j ==> users[k].id != users[j].id
    ensures var id := Get(cameras[i], "id").s;
      CameraView(cameras, images, users, id) == Ok(WithOwner(WithImages(cameras[i], images, id), users[j]))
  {
    FilterOne(cameras, Where("id", Get(cameras[i], "id")), i);
    FilterOne(users, Users.HasId(users[j].id), j);
  }

  /** After answering a camera stored once, only that camera's count changes, to one more. */
  lemma CountedTable(cameras: seq<Row>, i: nat, r: Outcome<Row>)
    requires i < |cameras| && Get(cameras[i], "id").JStr?
    requires forall k :: 0 <= k < |cameras| && k != i ==> Get(cameras[k], "id") != Get(cameras[i], "id")
    requires r.Ok? && Get(r.value, "view_count") == Get(cameras[i], "view_count") && Get(r.value, "view_count").JInt?
    ensures var v := Get(cameras[i], "view_count").i;
      Counted(cameras, Get(cameras[i], "id").s, r) == cameras[i := cameras[i]["view_count" := JInt(v + 1)]]
  {
    var id := Get(cameras[i], "id").s;
    var v := Get(cameras[i], "view_count").i;
    var n := Get(r.value, "view_count").i + 1;
    assert n == v + 1;
    var after := SetViewCount(cameras, id, n);
    SetViewCountRows(cameras, id, n);
    var expected := cameras[i := cameras[i]["view_count" := JInt(v + 1)]];
    forall k | 0 <= k < |cameras| ensures after[k] == expected[k] {
      if k != i {
        assert Get(cameras[k], "id") != JStr(id);
      }
    }
    assert after == expected;
  }

  /**
   * A camera whose owner has no users row cannot be viewed: the view is answered with 404
   * and the count is not incremented.
   */
  lemma GetCameraWithoutOwner(cameras: seq<Row>, images: seq<Row>, users: seq<UserRow>, id: string)
    requires forall c :: c in cameras ==> Get(c, "user_id").JStr? && forall u :: u in users ==> u.id != Get(c, "user_id").s
    ensures CameraView(cameras, images, users, id) == Fail(NotFound)
  {
    var found := Single(cameras, Where("id", JStr(id)));
    if found.Some? {
      var ownerId := Get(found.value, "user_id").s;
      FilterNone(users, Users.HasId(ownerId));
    }
  }

  /** `get_camera` on the database: the reads, then the stored count raised by one. */
  method GetCamera(db: Db, id: string) returns (r: Outcome<Row>)
    modifies db`cameras
    ensures r == CameraView(old(db.cameras), old(db.cameraImages), old(db.users), id)
    ensures db.cameras == Counted(old(db.cameras), id, r)
  {
    r := ReadCamera(db, id);
    CountView(db, id, r);
  }

  /** The write of `get_camera`: after a successful read, the stored count raised by one. */
  method CountView(db: Db, id: string, r: Outcome<Row>)
    modifies db`cameras
    ensures db.cameras == Counted(old(db.cameras), id, r)
  {
    if r.Ok? && Get(r.value, "view_count").JInt? {
      db.cameras := SetViewCount(db.cameras, id, Get(r.value, "view_count").i + 1);
    }
  }

  /** The reads of `get_camera`: the camera, its images and its owner, in that order. */
  method ReadCamera(db: Db, id: string) returns (r: Outcome<Row>)
    ensures r == CameraView(db.cameras, db.cameraImages, db.users, id)
  {
    var found := Single(db.cameras, Where("id", JStr(id)));
    if found.None? || found.value == map[] {
      return Fail(NotFound);
    }
    var camera := WithImages(found.value, db.cameraImages, id);
    var owner := OwnerOf(camera, db.users);
    if owner.None? {
      return Fail(NotFound);
    }
    camera := WithOwner(camera, owner.value);
    if !Get(camera, "view_count").JInt? {
      return Fail(NotFound);
    }
    r := Ok(camera);
  }

  /** The row `create_camera` inserts: the full dump of the request and the owner's id. */
  function Inserted(c: CameraSchema.CameraCreate, userId: string): Row {
    CameraSchema.DumpCreate(c)["user_id" := JStr(userId)]
  }

  /**
   * `create_camera`: the body is validated as `CameraCreate` and the `user_id` query parameter
   * as a UUID (422 otherwise), and the body is inserted with `str(user_id)`. `generated` stands for the store's answer: the columns it fills in itself, or
   * `None` when the insert returns no row, which is answered with 400 and leaves the table
   * as it was. The answer is the stored row.
   */
  function CreateCameraSpec(table: seq<Row>, body: Row, userId: string, generated: Option<Row>): (r: (Outcome<Row>, seq<Row>))
    ensures r.0.Fail? ==> r.1 == table && (r.0.status == Unprocessable || r.0.status == BadRequest)
    ensures r.0.Ok? ==> r.1 == table + [r.0.value]
    ensures r.0.Fail? && r.0.status == Unprocessable <==> CameraSchema.ParseCreate(body).Fail? || !IsUuidText(userId)
  {
    var c := CameraSchema.ParseCreate(body);
    if c.Fail? || !IsUuidText(userId) then (Fail(Unprocessable), table)
    else if generated.None? then (Fail(BadRequest), table)
    else
      var stored := generated.value + Inserted(c.value, Canonical(userId));
      (Ok(stored), table + [stored])
  }

  /** The stored texts of a created camera. */
  lemma StoredTexts(c: CameraSchema.CameraCreate, userId: string, generated: Row)
    ensures var stored := generated + Inserted(c, userId);
      && Get(stored, "year") == OfOpt(c.details.year) && Get(stored, "camera_type") == OfOpt(c.details.cameraType)
      && Get(stored, "film_format") == OfOpt(c.details.filmFormat)
  {
  }

  /** The stored condition and story of a created camera. */
  lemma StoredStory(c: CameraSchema.CameraCreate, userId: string, generated: Row)
    ensures var stored := generated + Inserted(c, userId);
      && Get(stored, "condition") == OfOpt(c.details.condition)
      && Get(stored, "acquisition_story") == OfOpt(c.details.acquisitionStory)
  {
  }

  /** The stored names and specs of a created camera. */
  lemma StoredNames(c: CameraSchema.CameraCreate, userId: string, generated: Row)
    ensures var stored := generated + Inserted(c, userId);
      && Get(stored, "brand_name") == JStr(c.brandName) && Get(stored, "model") == JStr(c.model)
      && Get(stored, "technical_specs") == OfObj(c.technicalSpecs)
  {
  }

  /** The stored market values, flags and owner of a created camera. */
  lemma StoredRest(c: CameraSchema.CameraCreate, userId: string, generated: Row)
    ensures var stored := generated + Inserted(c, userId);
      && Get(stored, "market_value_min") == OfInt(c.marketValueMin)
      && Get(stored, "market_value_max") == OfInt(c.marketValueMax)
      && Get(stored, "is_for_sale") == JBool(c.isForSale) && Get(stored, "is_for_trade") == JBool(c.isForTrade)
      && Get(stored, "is_public") == JBool(c.isPublic) && Get(stored, "user_id") == JStr(userId)
  {
  }

  /** The stored camera holds the owner's id and validates back to the request. */
  lemma StoredCamera(c: CameraSchema.CameraCreate, userId: string, generated: Row)
    requires CameraSchema.ValidCreate(c)
    ensures var stored := generated + Inserted(c, userId);
      Get(stored, "user_id") == JStr(userId) && CameraSchema.ParseCreate(stored) == Ok(c)
  {
    var stored := generated + Inserted(c, userId);
    StoredTexts(c, userId, generated);
    StoredStory(c, userId, generated);
    StoredNames(c, userId, generated);
    StoredRest(c, userId, generated);
    CameraSchema.DetailsRoundTrip(c.details, stored);
    CameraSchema.ParseCreateOf(stored, c);
  }

  /**
   * A created camera answers with the request's fields and the owner's id as `str(user_id)`,
   * and is appended.
   */
  lemma CreateCameraEcho(table: seq<Row>, body: Row, userId: string, generated: Row)
    requires CameraSchema.ParseCreate(body).Ok? && IsUuidText(userId)
    ensures var (r, after) := CreateCameraSpec(table, body, userId, Some(generated));
      && r.Ok? && after == table + [r.value]
      && Get(r.value, "user_id") == JStr(Canonical(userId))
      && CameraSchema.ParseCreate(r.value) == CameraSchema.ParseCreate(body)
  {
    StoredCamera(CameraSchema.ParseCreate(body).value, Canonical(userId), generated);
  }

  /** `create_camera` on the database. */
  method CreateCamera(db: Db, body: Row, userId: string, generated: Option<Row>) returns (r: Outcome<Row>)
    modifies db`cameras
    ensures (r, db.cameras) == CreateCameraSpec(old(db.cameras), body, userId, generated)
  {
    var c := CameraSchema.ParseCreate(body);
    if c.Fail? || !IsUuidText(userId) {
      return Fail(Unprocessable);
    }
    var data := CameraSchema.DumpCreate(c.value);
    data := data["user_id" := JStr(Canonical(userId))];
    if generated.None? {
      return Fail(BadRequest);
    }
    var stored := generated.value + data;
    db.cameras := db.cameras + [stored];
    r := Ok(stored);
  }
}
