/**
 * Likes gated by mutual follows: the gate, the owner lookup of the liked content, the
 * target selection shared by the four endpoints, and the like table they read and change.
 */
module Likes {
  import opened Wrappers
  import opened Http
  import opened Values
  import opened Store

  /** The body (or query) of the like endpoints: ideally exactly one target id. */
  datatype LikeRequest = LikeRequest(discussion: Option<string>, camera: Option<string>, comment: Option<string>)

  /** `len([t for t in targets if t is not None])`: an empty-string id counts. */
  function NonNullCount(req: LikeRequest): (n: nat)
    ensures n <= 3
    ensures n == 0 <==> req.discussion.None? && req.camera.None? && req.comment.None?
    ensures n == 1 <==>
      (req.discussion.Some? && req.camera.None? && req.comment.None?) ||
      (req.discussion.None? && req.camera.Some? && req.comment.None?) ||
      (req.discussion.None? && req.camera.None? && req.comment.Some?)
  {
    (if req.discussion.Some? then 1 else 0) + (if req.camera.Some? then 1 else 0) +
    (if req.comment.Some? then 1 else 0)
  }

  /** The column filter the `if/elif` chains add: the first truthy id, or none at all. */
  datatype Target = OnDiscussion(id: string) | OnCamera(id: string) | OnComment(id: string) | NoFilter

  function TargetOf(req: LikeRequest): (t: Target)
    ensures t.NoFilter? <==> !Truthy(req.discussion) && !Truthy(req.camera) && !Truthy(req.comment)
    ensures t.OnDiscussion? ==> req.discussion == Some(t.id) && t.id != ""
    ensures t.OnCamera? ==> !Truthy(req.discussion) && req.camera == Some(t.id) && t.id != ""
    ensures t.OnComment? ==> !Truthy(req.discussion) && !Truthy(req.camera) && req.comment == Some(t.id) && t.id != ""
  {
    if Truthy(req.discussion) then OnDiscussion(req.discussion.value)
    else if Truthy(req.camera) then OnCamera(req.camera.value)
    else if Truthy(req.comment) then OnComment(req.comment.value)
    else NoFilter
  }

  /** Whether a like passes the target's `eq` filter (a NULL column matches no id). */
  predicate Matches(l: Like, t: Target) {
    match t
    case OnDiscussion(id) => l.discussion == Some(id)
    case OnCamera(id) => l.camera == Some(id)
    case OnComment(id) => l.comment == Some(id)
    case NoFilter => true
  }

  /** The likes, by anyone, that the target filter selects. */
  function OnTarget(t: Target): Like -> bool {
    (l: Like) => Matches(l, t)
  }

  /** The likes of `user` that the target filter selects. */
  function Mine(user: string, t: Target): Like -> bool {
    (l: Like) => l.user == user && Matches(l, t)
  }

  /**
   * `check_users_follow_each_other`: true for the same user without a lookup; otherwise both
   * edges must exist, and a failing lookup (`fault`) answers false.
   */
  function Mutual(follows: seq<Edge>, u1: string, u2: string, fault: bool): bool {
    if u1 == u2 then true
    else !fault && Edge(u1, u2) in follows && Edge(u2, u1) in follows
  }

  /** The gate does not depend on the order of the two users. */
  lemma MutualSymmetric(follows: seq<Edge>, u1: string, u2: string, fault: bool)
    ensures Mutual(follows, u1, u2, fault) == Mutual(follows, u2, u1, fault)
  {
  }

  /** A user passes the gate with themself, whatever the table and even on a failing lookup. */
  lemma MutualSelf(follows: seq<Edge>, u: string, fault: bool)
    ensures Mutual(follows, u, u, fault)
  {
  }

  /** The gate fails closed, and one edge alone does not open it. */
  lemma MutualNeedsBothEdges(follows: seq<Edge>, u1: string, u2: string, fault: bool)
    requires u1 != u2
    ensures fault ==> !Mutual(follows, u1, u2, fault)
    ensures Edge(u2, u1) !in follows ==> !Mutual(follows, u1, u2, fault)
    ensures Mutual(follows, u1, u2, fault) <==> !fault && Edge(u1, u2) in follows && Edge(u2, u1) in follows
  {
  }

  /** The three tables likes can point into. */
  datatype Content = Content(discussions: seq<Row>, cameras: seq<Row>, comments: seq<Row>)

  function ContentOf(db: Db): Content
    reads db
  {
    Content(db.discussions, db.cameras, db.comments)
  }

  /**
   * `select("user_id").eq("id", id).single()`: the owner of the one row with that id; `None`
   * when there is no such row, several, or a `user_id` that is not a string.
   */
  function OwnerIn(table: seq<Row>, id: string): (o: Option<string>)
    ensures o.Some? ==> Count(table, (r: Row) => Get(r, "id") == JStr(id)) == 1
    ensures o.Some? ==> exists r :: r in table && Get(r, "id") == JStr(id) && Get(r, "user_id") == JStr(o.value)
  {
    var row := Single(table, (r: Row) => Get(r, "id") == JStr(id));
    if row.Some? && Get(row.value, "user_id").JStr? then Some(Get(row.value, "user_id").s) else None
  }

  /** `get_content_owner_id`: the owner of the first truthy target, looked up in its table. */
  function OwnerOf(c: Content, req: LikeRequest): (o: Option<string>)
    ensures TargetOf(req).NoFilter? ==> o.None?
  {
    match TargetOf(req)
    case OnDiscussion(id) => OwnerIn(c.discussions, id)
    case OnCamera(id) => OwnerIn(c.cameras, id)
    case OnComment(id) => OwnerIn(c.comments, id)
    case NoFilter => None
  }

  /**
   * `create_like`: the inserted row, or the status of the first check that fails, in the
   * order 401, 400, 404, 403, 400.
   */
  function CreateLikeSpec(
    c: Content, follows: seq<Edge>, likes: seq<Like>, sub: Option<string>, req: LikeRequest, fault: bool): Outcome<Like>
  {
    if !Truthy(sub) then Fail(Unauthorized)
    else if NonNullCount(req) != 1 then Fail(BadRequest)
    else
      var owner := OwnerOf(c, req);
      if !Truthy(owner) then Fail(NotFound)
      else if !Mutual(follows, sub.value, owner.value, fault) then Fail(Forbidden)
      else if Count(likes, Mine(sub.value, TargetOf(req))) > 0 then Fail(BadRequest)
      else Ok(Like(sub.value, req.discussion, req.camera, req.comment))
  }

  /**
   * A like is created exactly when the viewer is known, names one target, that target has an
   * owner, the two pass the gate and the viewer has no like on it yet; the row is the
   * viewer's like on exactly that target. Each failing check has its own status: 401, 400,
   * 404, 403 and 400, in that order.
   */
  lemma CreateLikeChecks(
    c: Content, follows: seq<Edge>, likes: seq<Like>, sub: Option<string>, req: LikeRequest, fault: bool)
    ensures var r := CreateLikeSpec(c, follows, likes, sub, req, fault);
      && (r.Ok? <==>
           Truthy(sub) && NonNullCount(req) == 1 && Truthy(OwnerOf(c, req)) &&
           Mutual(follows, sub.value, OwnerOf(c, req).value, fault) &&
           forall l :: l in likes ==> !Mine(sub.value, TargetOf(req))(l))
      && (r.Ok? ==> r.value.user == sub.value && Mine(sub.value, TargetOf(req))(r.value) && !TargetOf(req).NoFilter?)
      && (!Truthy(sub) ==> r == Fail(Unauthorized))
      && (Truthy(sub) && NonNullCount(req) != 1 ==> r == Fail(BadRequest))
      && (Truthy(sub) && NonNullCount(req) == 1 && !Truthy(OwnerOf(c, req)) ==> r == Fail(NotFound))
      && ((Truthy(sub) && NonNullCount(req) == 1 && Truthy(OwnerOf(c, req)) &&
           !Mutual(follows, sub.value, OwnerOf(c, req).value, fault))
          ==> r == Fail(Forbidden))
      && ((Truthy(sub) && NonNullCount(req) == 1 && Truthy(OwnerOf(c, req)) &&
           Mutual(follows, sub.value, OwnerOf(c, req).value, fault) &&
           exists l :: l in likes && Mine(sub.value, TargetOf(req))(l))
          ==> r == Fail(BadRequest))
  {
  }

  /**
   * An empty-string id passes the "exactly one target" check but selects no owner, so the
   * like is refused as not found.
   */
  lemma EmptyIdIsNotFound(c: Content, follows: seq<Edge>, likes: seq<Like>, user: string, fault: bool)
    requires user != ""
    ensures NonNullCount(LikeRequest(Some(""), None, None)) == 1
    ensures CreateLikeSpec(c, follows, likes, Some(user), LikeRequest(Some(""), None, None), fault) == Fail(NotFound)
  {
  }

  /** A mutual follow unlocks a like on the other user's discussion. */
  lemma MutualFollowUnlocks(c: Content, follows: seq<Edge>, likes: seq<Like>, user: string, owner: string, d: string)
    requires user != "" && d != "" && owner != ""
    requires Edge(user, owner) in follows && Edge(owner, user) in follows
    requires OwnerIn(c.discussions, d) == Some(owner)
    requires forall l :: l in likes ==> l.user != user || l.discussion != Some(d)
    ensures CreateLikeSpec(c, follows, likes, Some(user), LikeRequest(Some(d), None, None), false).Ok?
  {
    var p := Mine(user, OnDiscussion(d));
    assert forall l :: l in likes ==> !p(l);
  }

  /**
   * `delete_like`: the like table afterwards, or 401 without a viewer id, 400 unless exactly
   * one id is given, and 404 when the viewer has no like the target filter selects.
   */
  function DeleteLikeSpec(likes: seq<Like>, sub: Option<string>, req: LikeRequest): (r: Outcome<seq<Like>>)
    ensures !Truthy(sub) ==> r == Fail(Unauthorized)
    ensures Truthy(sub) && NonNullCount(req) != 1 ==> r == Fail(BadRequest)
    ensures Truthy(sub) && NonNullCount(req) == 1 ==>
      (r.Ok? <==> exists l :: l in likes && Mine(sub.value, TargetOf(req))(l))
    ensures Truthy(sub) && NonNullCount(req) == 1 && (forall l :: l in likes ==> !Mine(sub.value, TargetOf(req))(l)) ==>
      r == Fail(NotFound)
    ensures r.Ok? ==> Truthy(sub) && |r.value| == |likes| - |Filter(likes, Mine(sub.value, TargetOf(req)))| < |likes|
    ensures r.Ok? ==> forall l :: l in r.value <==> l in likes && !Mine(sub.value, TargetOf(req))(l)
  {
    if !Truthy(sub) then Fail(Unauthorized)
    else if NonNullCount(req) != 1 then Fail(BadRequest)
    else
      var p := Mine(sub.value, TargetOf(req));
      if Count(likes, p) == 0 then Fail(NotFound) else Ok(Delete(likes, p))
  }

  /**
   * With an empty-string id no target filter is added, so `delete_like` removes every like of
   * the viewer, on any content, and keeps everyone else's.
   */
  lemma EmptyIdDeletesAllOwnLikes(likes: seq<Like>, user: string)
    requires user != ""
    requires exists l :: l in likes && l.user == user
    ensures var r := DeleteLikeSpec(likes, Some(user), LikeRequest(Some(""), None, None));
      r.Ok? && (forall l :: l in r.value <==> l in likes && l.user != user)
  {
    var l :| l in likes && l.user == user;
    assert Mine(user, NoFilter)(l);
  }

  /** `check_like_status`: whether the viewer has a like on the target; every failure becomes 400. */
  function CheckLikeStatus(likes: seq<Like>, sub: Option<string>, req: LikeRequest): (r: Outcome<bool>)
    ensures r.Ok? <==> Truthy(sub) && NonNullCount(req) == 1
    ensures r.Fail? ==> r.status == BadRequest
    ensures r.Ok? ==> (r.value <==> exists l :: l in likes && Mine(sub.value, TargetOf(req))(l))
  {
    var inner: Outcome<bool> :=
      if !Truthy(sub) then Fail(Unauthorized)
      else if NonNullCount(req) != 1 then Fail(BadRequest)
      else Ok(Count(likes, Mine(sub.value, TargetOf(req))) > 0);
    Rewrap(inner, BadRequest)
  }

  /** `get_like_count`: the likes on the target, by anyone; no sign-in needed. */
  function GetLikeCount(likes: seq<Like>, req: LikeRequest): (r: Outcome<nat>)
    ensures r.Ok? <==> NonNullCount(req) == 1
    ensures r.Fail? ==> r.status == BadRequest
    ensures r.Ok? ==> r.value <= |likes| && (r.value == 0 <==> forall l :: l in likes ==> !Matches(l, TargetOf(req)))
  {
    if NonNullCount(req) != 1 then Fail(BadRequest)
    else Ok(Count(likes, OnTarget(TargetOf(req))))
  }

  /** With an empty-string id nothing filters the count: it is the size of the whole table. */
  lemma EmptyIdCountsAll(likes: seq<Like>)
    ensures GetLikeCount(likes, LikeRequest(Some(""), None, None)) == Ok(|likes|)
  {
    var p := OnTarget(NoFilter);
    FilterAll(likes, p);
  }

  /** After a like is created the viewer sees the target as liked. */
  lemma CreateThenCheck(
    c: Content, follows: seq<Edge>, likes: seq<Like>, sub: Option<string>, req: LikeRequest, fault: bool)
    requires CreateLikeSpec(c, follows, likes, sub, req, fault).Ok?
    ensures CheckLikeStatus(likes + [CreateLikeSpec(c, follows, likes, sub, req, fault).value], sub, req) == Ok(true)
  {
    var l := CreateLikeSpec(c, follows, likes, sub, req, fault).value;
    assert l in likes + [l];
  }

  /** After a like is created the target's count has grown by exactly one. */
  lemma CreateThenCount(
    c: Content, follows: seq<Edge>, likes: seq<Like>, sub: Option<string>, req: LikeRequest, fault: bool)
    requires CreateLikeSpec(c, follows, likes, sub, req, fault).Ok?
    ensures var l := CreateLikeSpec(c, follows, likes, sub, req, fault).value;
      GetLikeCount(likes + [l], req) == Ok(GetLikeCount(likes, req).value + 1)
  {
    CreateLikeChecks(c, follows, likes, sub, req, fault);
    var l := CreateLikeSpec(c, follows, likes, sub, req, fault).value;
    assert Mine(sub.value, TargetOf(req))(l);
    MatchingLikeCounts(likes, l, req);
  }

  /** Adding a like that the target filter selects adds one to the target's count. */
  lemma MatchingLikeCounts(likes: seq<Like>, l: Like, req: LikeRequest)
    requires NonNullCount(req) == 1 && Matches(l, TargetOf(req))
    ensures GetLikeCount(likes + [l], req) == Ok(GetLikeCount(likes, req).value + 1)
  {
    LikeCountAppend(likes, l, req);
  }

  /** Adding a like that the target filter does not select leaves the target's count as it was. */
  lemma OtherLikeCounts(likes: seq<Like>, l: Like, req: LikeRequest)
    requires NonNullCount(req) == 1 && !Matches(l, TargetOf(req))
    ensures GetLikeCount(likes + [l], req) == GetLikeCount(likes, req)
  {
    LikeCountAppend(likes, l, req);
  }

  /** Appending a like adds one to the count exactly when the target filter selects it. */
  lemma LikeCountAppend(likes: seq<Like>, l: Like, req: LikeRequest)
    requires NonNullCount(req) == 1
    ensures GetLikeCount(likes + [l], req) ==
      Ok(GetLikeCount(likes, req).value + if Matches(l, TargetOf(req)) then 1 else 0)
  {
    CountAppend(likes, l, OnTarget(TargetOf(req)));
    LikeCountIs(likes, req);
    LikeCountIs(likes + [l], req);
  }

  /** The count is the number of likes the target filter selects. */
  lemma LikeCountMeaning(likes: seq<Like>, req: LikeRequest)
    ensures var r := GetLikeCount(likes, req);
      r.Ok? ==> r.value == |Filter(likes, OnTarget(TargetOf(req)))|
  {
    if NonNullCount(req) == 1 {
      LikeCountIs(likes, req);
    }
  }

  /** With one id given, the count is `Count` of the target filter. */
  lemma LikeCountIs(likes: seq<Like>, req: LikeRequest)
    requires NonNullCount(req) == 1
    ensures GetLikeCount(likes, req) == Ok(Count(likes, OnTarget(TargetOf(req))))
  {
  }

  /** Liking the same target twice is refused with 400 the second time. */
  lemma CreateTwice(
    c: Content, follows: seq<Edge>, likes: seq<Like>, sub: Option<string>, req: LikeRequest, fault: bool)
    requires CreateLikeSpec(c, follows, likes, sub, req, fault).Ok?
    ensures var l := CreateLikeSpec(c, follows, likes, sub, req, fault).value;
      CreateLikeSpec(c, follows, likes + [l], sub, req, fault) == Fail(BadRequest)
  {
    var l := CreateLikeSpec(c, follows, likes, sub, req, fault).value;
    CountAppend(likes, l, Mine(sub.value, TargetOf(req)));
  }

  /** Deleting a like just created restores the like table exactly. */
  lemma CreateThenDelete(
    c: Content, follows: seq<Edge>, likes: seq<Like>, sub: Option<string>, req: LikeRequest, fault: bool)
    requires CreateLikeSpec(c, follows, likes, sub, req, fault).Ok?
    ensures var l := CreateLikeSpec(c, follows, likes, sub, req, fault).value;
      DeleteLikeSpec(likes + [l], sub, req) == Ok(likes)
  {
    var l := CreateLikeSpec(c, follows, likes, sub, req, fault).value;
    var p := Mine(sub.value, TargetOf(req));
    assert Count(likes, p) == 0;
    assert p(l);
    CountAppend(likes, l, p);
    DeleteAppend(likes, l, p);
    DeleteNone(likes, p);
    assert Delete(likes + [l], p) == likes;
  }

  /** `create_like` on the database: inserts the row `CreateLikeSpec` answers, or changes nothing. */
  method CreateLike(db: Db, sub: Option<string>, req: LikeRequest, fault: bool) returns (r: Outcome<Like>)
    modifies db`likes
    ensures r == CreateLikeSpec(ContentOf(db), db.follows, old(db.likes), sub, req, fault)
    ensures db.likes == if r.Ok? then old(db.likes) + [r.value] else old(db.likes)
  {
    if !Truthy(sub) {
      return Fail(Unauthorized);
    }
    var userId := sub.value;
    if NonNullCount(req) != 1 {
      return Fail(BadRequest);
    }
    var owner := OwnerOf(ContentOf(db), req);
    if !Truthy(owner) {
      return Fail(NotFound);
    }
    if !Mutual(db.follows, userId, owner.value, fault) {
      return Fail(Forbidden);
    }
    if Count(db.likes, Mine(userId, TargetOf(req))) > 0 {
      return Fail(BadRequest);
    }
    var row := Like(userId, req.discussion, req.camera, req.comment);
    db.likes := db.likes + [row];
    r := Ok(row);
  }

  /** `delete_like` on the database: the table `DeleteLikeSpec` answers, or no change. */
  method DeleteLike(db: Db, sub: Option<string>, req: LikeRequest) returns (r: Outcome<()>)
    modifies db`likes
    ensures var s := DeleteLikeSpec(old(db.likes), sub, req);
      (r.Ok? <==> s.Ok?) && (r.Fail? ==> r.status == s.status) &&
      db.likes == if s.Ok? then s.value else old(db.likes)
  {
    if !Truthy(sub) {
      return Fail(Unauthorized);
    }
    if NonNullCount(req) != 1 {
      return Fail(BadRequest);
    }
    var p := Mine(sub.value, TargetOf(req));
    var deleted := Filter(db.likes, p);
    if deleted == [] {
      return Fail(NotFound);
    }
    db.likes := Delete(db.likes, p);
    r := Ok(());
  }
}
