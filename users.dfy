/**
 * The `/users` endpoints: syncing an identity-provider user into the users table (update or
 * insert, with username conflict resolution), creating a user, a profile with its counts, the
 * paged list, and following or unfollowing through a JSON request body.
 */
module Users {
  import opened Wrappers
  import opened Http
  import opened Text
  import opened Values
  import opened Store
  import opened Follows
  import opened Fields

  /** No two rows share an id. */
  predicate UniqueIds(users: seq<UserRow>) {
    forall i, j :: 0 <= i < j < |users| ==> users[i].id != users[j].id
  }

  /** No two rows share a (non-null) username. */
  predicate UniqueUsernames(users: seq<UserRow>) {
    forall i, j :: 0 <= i < j < |users| && users[i].username.Some? ==> users[i].username != users[j].username
  }

  function HasId(id: string): UserRow -> bool {
    (u: UserRow) => u.id == id
  }

  function HasName(name: string): UserRow -> bool {
    (u: UserRow) => u.username == Some(name)
  }

  /** Some row holds `name` (`select("id").eq("username", name)` is non-empty). */
  predicate Taken(users: seq<UserRow>, name: string) {
    Count(users, HasName(name)) > 0
  }

  lemma TakenMeans(users: seq<UserRow>, name: string)
    ensures Taken(users, name) <==> exists u :: u in users && u.username == Some(name)
  {
    if exists u :: u in users && u.username == Some(name) {
      var u :| u in users && u.username == Some(name);
      assert HasName(name)(u);
    }
  }

  /** `f"{username}_{random.randint(1000, 9999)}"` for the drawn number `n`. */
  function Suffixed(base: string, n: int): string {
    base + "_" + IntText(n)
  }

  /** The numbers `random.randint(1000, 9999)` can return. */
  predicate ValidDraws(draws: seq<int>) {
    forall i :: 0 <= i < |draws| ==> 1000 <= draws[i] <= 9999
  }

  /** The first candidate, in draw order, that no row holds. */
  function FirstFree(users: seq<UserRow>, base: string, draws: seq<int>): (r: Option<string>)
    ensures r.Some? ==> !Taken(users, r.value) && exists i :: 0 <= i < |draws| && r.value == Suffixed(base, draws[i])
    ensures r.None? <==> forall i :: 0 <= i < |draws| ==> Taken(users, Suffixed(base, draws[i]))
  {
    if draws == [] then None
    else if !Taken(users, Suffixed(base, draws[0])) then Some(Suffixed(base, draws[0]))
    else
      var r := FirstFree(users, base, draws[1..]);
      assert forall i :: 1 <= i < |draws| ==> draws[i] == draws[1..][i - 1];
      r
  }

  /**
   * The retry loop of `sync_user`: draw until the candidate is free. The draws are the
   * numbers the random generator returns, in order; some of them must give a free name.
   */
  method ChooseUsername(users: seq<UserRow>, base: string, draws: seq<int>) returns (name: string)
    requires exists i :: 0 <= i < |draws| && !Taken(users, Suffixed(base, draws[i]))
    ensures FirstFree(users, base, draws) == Some(name)
  {
    var i := 0;
    name := Suffixed(base, draws[0]);
    assert draws[0..] == draws;
    assert FirstFree(users, base, draws).Some?;
    while Taken(users, name)
      invariant 0 <= i < |draws| && name == Suffixed(base, draws[i])
      invariant FirstFree(users, base, draws[i..]) == FirstFree(users, base, draws)
      decreases |draws| - i
    {
      FirstFreeFrom(users, base, draws, i);
      i := i + 1;
      name := Suffixed(base, draws[i]);
    }
    FirstFreeFrom(users, base, draws, i);
  }

  /** One step of the search: the draw at `i` is taken, or it is the answer from `i` on. */
  lemma FirstFreeFrom(users: seq<UserRow>, base: string, draws: seq<int>, i: int)
    requires 0 <= i < |draws|
    ensures var name := Suffixed(base, draws[i]);
      FirstFree(users, base, draws[i..]) ==
      if Taken(users, name) then FirstFree(users, base, draws[i + 1..]) else Some(name)
    ensures i + 1 == |draws| ==> FirstFree(users, base, draws[i + 1..]) == None
  {
    assert draws[i..][1..] == draws[i + 1..];
  }

  /** The body of `POST /users/sync`. */
  datatype SyncRequest = SyncRequest(
    clerkId: string, email: string, username: string, fullName: Option<string>, avatarUrl: Option<string>)

  /**
   * Validating a body as `UserSyncRequest`: `clerk_id`, `email` and `username` are required
   * strings; `full_name` and `avatar_url` are optional strings, `""` when missing and `None`
   * when null; `metadata` is an optional object that is never read. Anything else is 422.
   */
  function ParseSyncRequest(body: Row): (r: Outcome<SyncRequest>)
    ensures r.Ok? <==>
      Get(body, "clerk_id").JStr? && Get(body, "email").JStr? && Get(body, "username").JStr? &&
      OptStrOr(body, "full_name", "").Ok? && OptStrOr(body, "avatar_url", "").Ok? &&
      (Get(body, "metadata") == JNull || Get(body, "metadata").JObj?)
    ensures r.Ok? ==>
      Get(body, "clerk_id") == JStr(r.value.clerkId) && Get(body, "email") == JStr(r.value.email) &&
      Get(body, "username") == JStr(r.value.username)
    ensures r.Ok? && "full_name" !in body ==> r.value.fullName == Some("")
    ensures r.Ok? && "avatar_url" !in body ==> r.value.avatarUrl == Some("")
    ensures r.Ok? && "full_name" in body ==> OfOpt(r.value.fullName) == body["full_name"]
    ensures r.Ok? && "avatar_url" in body ==> OfOpt(r.value.avatarUrl) == body["avatar_url"]
    ensures r.Fail? ==> r.status == Unprocessable
  {
    var clerkId := ReqStr(body, "clerk_id", Len(0, None));
    var email := ReqStr(body, "email", Len(0, None));
    var username := ReqStr(body, "username", Len(0, None));
    var fullName := OptStrOr(body, "full_name", "");
    var avatarUrl := OptStrOr(body, "avatar_url", "");
    var metadata := Get(body, "metadata");
    if clerkId.Fail? || email.Fail? || username.Fail? || fullName.Fail? || avatarUrl.Fail? ||
       !(metadata == JNull || metadata.JObj?)
    then Fail(Unprocessable)
    else Ok(SyncRequest(clerkId.value, email.value, username.value, fullName.value, avatarUrl.value))
  }

  /** `a or b` over nullable text: `a` unless it is `None` or empty. */
  function Or(a: Option<string>, b: Option<string>): Option<string> {
    if Truthy(a) then a else b
  }

  /**
   * The username an existing user ends up with: the requested one, unless the first row
   * holding it belongs to another id, in which case the current one is kept.
   */
  function KeptName(users: seq<UserRow>, first: UserRow, requested: string): Option<string> {
    var holders := Filter(users, HasName(requested));
    if first.username != Some(requested) && holders != [] && holders[0].id != first.id then first.username
    else Some(requested)
  }

  /** The update `sync_user` applies to the rows of an existing user. */
  function SyncUpdate(first: UserRow, req: SyncRequest, name: Option<string>): UserRow -> UserRow {
    (u: UserRow) => u.(
      email := Some(req.email),
      username := name,
      displayName := Or(req.fullName, first.displayName),
      avatarUrl := Or(req.avatarUrl, first.avatarUrl))
  }

  /** The row `sync_user` inserts for a new user. */
  function NewSyncRow(req: SyncRequest, name: string): UserRow {
    UserRow(
      req.clerkId, Some(req.email), Some(name),
      Some(if Truthy(req.fullName) then req.fullName.value else req.username),
      req.avatarUrl, Some(""), Some(""), Some("beginner"), None, None)
  }

  /** Whether the random draws can settle the username when a new user's requested one is taken. */
  predicate DrawsSuffice(users: seq<UserRow>, req: SyncRequest, draws: seq<int>) {
    Count(users, HasId(req.clerkId)) == 0 && Taken(users, req.username) ==>
      FirstFree(users, req.username, draws).Some?
  }

  /** `sync_user`: the user id it answers and the users table afterwards. */
  function SyncUserSpec(users: seq<UserRow>, req: SyncRequest, draws: seq<int>): (string, seq<UserRow>)
    requires DrawsSuffice(users, req, draws)
  {
    var existing := Filter(users, HasId(req.clerkId));
    if existing != [] then
      var first := existing[0];
      var name := KeptName(users, first, req.username);
      (first.id, Update(users, HasId(first.id), SyncUpdate(first, req, name)))
    else
      var name := if Taken(users, req.username) then FirstFree(users, req.username, draws).value else req.username;
      (req.clerkId, users + [NewSyncRow(req, name)])
  }

  /** Two different rows of a table with unique usernames hold different names. */
  lemma NameOwner(users: seq<UserRow>, a: UserRow, b: UserRow)
    requires UniqueUsernames(users)
    requires a in users && b in users && a != b && a.username.Some?
    ensures a.username != b.username
  {
    var i :| 0 <= i < |users| && users[i] == a;
    var j :| 0 <= j < |users| && users[j] == b;
    if i < j {
      assert users[i].username != users[j].username;
    } else {
      assert users[j].username.Some? ==> users[j].username != users[i].username;
    }
  }

  /** An update that gives one id's row a name no other row holds keeps usernames unique. */
  lemma RenameKeepsUnique(users: seq<UserRow>, uid: string, f: UserRow -> UserRow, name: Option<string>)
    requires UniqueIds(users) && UniqueUsernames(users)
    requires forall u :: f(u).id == u.id && f(u).username == name
    requires name.Some? ==> forall u :: u in users && u.id != uid ==> u.username != name
    ensures var r := Update(users, HasId(uid), f); UniqueIds(r) && UniqueUsernames(r)
  {
    var r := Update(users, HasId(uid), f);
    forall i, j | 0 <= i < j < |r| ensures r[i].id != r[j].id {
    }
    forall i, j | 0 <= i < j < |r| && r[i].username.Some? ensures r[i].username != r[j].username {
      assert users[i] in users && users[j] in users;
    }
  }

  /**
   * Syncing keeps ids and usernames unique: an existing user only takes a name no other id
   * holds, and a new user gets a fresh id and a free name.
   */
  lemma SyncKeepsUnique(users: seq<UserRow>, req: SyncRequest, draws: seq<int>)
    requires UniqueIds(users) && UniqueUsernames(users)
    requires DrawsSuffice(users, req, draws)
    ensures var after := SyncUserSpec(users, req, draws).1; UniqueIds(after) && UniqueUsernames(after)
  {
    var existing := Filter(users, HasId(req.clerkId));
    if existing != [] {
      var first := existing[0];
      assert first in existing;
      var name := KeptName(users, first, req.username);
      var holders := Filter(users, HasName(req.username));
      if name.Some? {
        forall u | u in users && u.id != first.id ensures u.username != name {
          if name == first.username {
            NameOwner(users, first, u);
          } else if holders != [] {
            assert holders[0] in holders;
            NameOwner(users, holders[0], u);
          }
        }
      }
      RenameKeepsUnique(users, first.id, SyncUpdate(first, req, name), name);
    } else {
      var name := if Taken(users, req.username) then FirstFree(users, req.username, draws).value else req.username;
      var row := NewSyncRow(req, name);
      var after := users + [row];
      TakenMeans(users, name);
      forall i, j | 0 <= i < j < |after| ensures after[i].id != after[j].id {
        if j == |users| {
          assert after[i] in users;
          assert !HasId(req.clerkId)(after[i]);
        }
      }
      forall i, j | 0 <= i < j < |after| && after[i].username.Some? ensures after[i].username != after[j].username {
        if j == |users| {
          assert after[i] in users;
        }
      }
    }
  }

  /**
   * For an existing user (ids and usernames unique), the requested username is taken exactly
   * when no other id holds it; otherwise the current one stays. Display name and avatar fall
   * back to the current values when the request leaves them empty.
   */
  lemma SyncExistingUser(users: seq<UserRow>, req: SyncRequest, draws: seq<int>, i: nat)
    requires UniqueIds(users) && UniqueUsernames(users)
    requires DrawsSuffice(users, req, draws)
    requires i < |users| && users[i].id == req.clerkId
    ensures var after := SyncUserSpec(users, req, draws).1;
      |after| == |users| &&
      after[i].username ==
        (if exists u :: u in users && u.username == Some(req.username) && u.id != req.clerkId
         then users[i].username else Some(req.username)) &&
      after[i].email == Some(req.email) &&
      after[i].displayName == Or(req.fullName, users[i].displayName) &&
      after[i].avatarUrl == Or(req.avatarUrl, users[i].avatarUrl)
  {
    var existing := Filter(users, HasId(req.clerkId));
    assert users[i] in existing;
    var first := existing[0];
    assert first in existing;
    assert first == users[i] by {
      var k :| 0 <= k < |users| && users[k] == first;
    }
    KeptNameMeaning(users, i, req.username);
    var after := SyncUserSpec(users, req, draws).1;
    assert after == Update(users, HasId(first.id), SyncUpdate(first, req, KeptName(users, first, req.username)));
    assert after[i] == SyncUpdate(first, req, KeptName(users, first, req.username))(users[i]);
  }

  /**
   * The name an existing user keeps: the requested one, unless another id holds it, in which
   * case the current one.
   */
  lemma KeptNameMeaning(users: seq<UserRow>, i: nat, requested: string)
    requires UniqueIds(users) && UniqueUsernames(users) && i < |users|
    ensures KeptName(users, users[i], requested) ==
      (if exists u :: u in users && u.username == Some(requested) && u.id != users[i].id
       then users[i].username else Some(requested))
  {
    var first := users[i];
    var holders := Filter(users, HasName(requested));
    if exists u :: u in users && u.username == Some(requested) && u.id != first.id {
      var u :| u in users && u.username == Some(requested) && u.id != first.id;
      assert u in holders;
      assert holders[0] in holders;
      NameOwnerOrSame(users, holders[0], u);
      if first.username == Some(requested) {
        NameOwnerOrSame(users, first, u);
      }
    } else if holders != [] {
      assert holders[0] in holders;
    }
  }

  /** Two rows of a table with unique usernames that share a name are the same row. */
  lemma NameOwnerOrSame(users: seq<UserRow>, a: UserRow, b: UserRow)
    requires UniqueUsernames(users) && a in users && b in users
    requires a.username.Some? && a.username == b.username
    ensures a == b
  {
    if a != b {
      NameOwner(users, a, b);
    }
  }

  /**
   * A new user gets the requested name when it is free, and otherwise the first drawn
   * `name_NNNN` (four digits) that is free; the display name falls back to the requested
   * username, and bio, location and expertise get their fixed starting values.
   */
  lemma SyncNewUser(users: seq<UserRow>, req: SyncRequest, draws: seq<int>)
    requires ValidDraws(draws)
    requires DrawsSuffice(users, req, draws)
    requires forall u :: u in users ==> u.id != req.clerkId
    ensures var (id, after) := SyncUserSpec(users, req, draws);
      var row := after[|after| - 1];
      && id == req.clerkId && after[..|users|] == users && |after| == |users| + 1
      && row.id == req.clerkId
      && row.username.Some? && !Taken(users, row.username.value)
      && (!Taken(users, req.username) ==> row.username == Some(req.username))
      && (Taken(users, req.username) ==>
           exists n :: 1000 <= n <= 9999 && row.username == Some(req.username + "_" + Decimal(n)) && |Decimal(n)| == 4)
      && row.displayName == Some(if Truthy(req.fullName) then req.fullName.value else req.username)
      && row.bio == Some("") && row.location == Some("") && row.expertiseLevel == Some("beginner")
  {
    assert Count(users, HasId(req.clerkId)) == 0;
    if Taken(users, req.username) {
      var name := FirstFree(users, req.username, draws).value;
      var i :| 0 <= i < |draws| && name == Suffixed(req.username, draws[i]);
      FourDigits(draws[i]);
    }
  }

  /**
   * The request defaults reach a new user's row: a body that leaves out `avatar_url` stores
   * `""`, one that sends `null` stores `None`; a missing, null or empty `full_name` makes the
   * display name the username.
   */
  lemma SyncDefaults(users: seq<UserRow>, body: Row, draws: seq<int>)
    requires ParseSyncRequest(body).Ok?
    requires DrawsSuffice(users, ParseSyncRequest(body).value, draws)
    requires forall u :: u in users ==> u.id != ParseSyncRequest(body).value.clerkId
    ensures var req := ParseSyncRequest(body).value;
      var after := SyncUserSpec(users, req, draws).1;
      |after| == |users| + 1 &&
      ("avatar_url" !in body ==> after[|users|].avatarUrl == Some("")) &&
      ("avatar_url" in body && body["avatar_url"] == JNull ==> after[|users|].avatarUrl == None) &&
      (Absent(body, "full_name") || Get(body, "full_name") == JStr("") ==> after[|users|].displayName == Some(req.username))
  {
    var req := ParseSyncRequest(body).value;
    assert Count(users, HasId(req.clerkId)) == 0;
  }

  /** `sync_user` on the database: the id it answers and the table `SyncUserSpec` describes. */
  method SyncUser(db: Db, req: SyncRequest, draws: seq<int>) returns (id: string)
    requires DrawsSuffice(db.users, req, draws)
    modifies db`users
    ensures (id, db.users) == SyncUserSpec(old(db.users), req, draws)
  {
    var existing := Filter(db.users, HasId(req.clerkId));
    if existing != [] {
      var first := existing[0];
      var userId := first.id;
      var name := Some(req.username);
      if first.username != Some(req.username) {
        var holders := Filter(db.users, HasName(req.username));
        if holders != [] && holders[0].id != userId {
          name := first.username;
        }
      }
      db.users := Update(db.users, HasId(userId), SyncUpdate(first, req, name));
      return userId;
    }
    var name := req.username;
    if Taken(db.users, req.username) {
      var k :| 0 <= k < |draws| && !Taken(db.users, Suffixed(req.username, draws[k]));
      name := ChooseUsername(db.users, req.username, draws);
    }
    db.users := db.users + [NewSyncRow(req, name)];
    id := req.clerkId;
  }

  /** The body of `POST /users` (`UserCreate`). */
  datatype UserCreate = UserCreate(
    username: string,
    email: string,
    displayName: Option<string>,
    bio: Option<string>,
    avatarUrl: Option<string>,
    location: Option<string>,
    expertiseLevel: Option<string>,
    websiteUrl: Option<string>,
    instagramUrl: Option<string>)

  /** `create_user`: 400 when the username exists, else the row stored under a fresh id. */
  function CreateUserSpec(users: seq<UserRow>, req: UserCreate, freshId: string): (r: Outcome<UserRow>)
    ensures r.Ok? <==> forall u :: u in users ==> u.username != Some(req.username)
    ensures r.Fail? ==> r.status == BadRequest
    ensures r.Ok? ==> r.value.id == freshId && r.value.username == Some(req.username) && r.value.email == Some(req.email)
  {
    TakenMeans(users, req.username);
    if Taken(users, req.username) then Fail(BadRequest)
    else Ok(UserRow(freshId, Some(req.email), Some(req.username), req.displayName, req.avatarUrl, req.bio,
                    req.location, req.expertiseLevel, req.websiteUrl, req.instagramUrl))
  }

  /** With a fresh id, creating a user keeps ids and usernames unique. */
  lemma CreateUserKeepsUnique(users: seq<UserRow>, req: UserCreate, freshId: string)
    requires UniqueIds(users) && UniqueUsernames(users)
    requires forall u :: u in users ==> u.id != freshId
    ensures var r := CreateUserSpec(users, req, freshId);
      var after := if r.Ok? then users + [r.value] else users;
      UniqueIds(after) && UniqueUsernames(after)
  {
    var r := CreateUserSpec(users, req, freshId);
    if r.Ok? {
      var after := users + [r.value];
      forall i, j | 0 <= i < j < |after| ensures after[i].id != after[j].id && (after[i].username.Some? ==> after[i].username != after[j].username) {
        if j == |users| {
          assert after[i] in users;
        }
      }
    }
  }

  /** `create_user` on the database. */
  method CreateUser(db: Db, req: UserCreate, freshId: string) returns (r: Outcome<UserRow>)
    modifies db`users
    ensures r == CreateUserSpec(old(db.users), req, freshId)
    ensures db.users == if r.Ok? then old(db.users) + [r.value] else old(db.users)
  {
    var existing := Filter(db.users, HasName(req.username));
    if existing != [] {
      return Fail(BadRequest);
    }
    var row := UserRow(freshId, Some(req.email), Some(req.username), req.displayName, req.avatarUrl, req.bio,
                       req.location, req.expertiseLevel, req.websiteUrl, req.instagramUrl);
    db.users := db.users + [row];
    r := Ok(row);
  }

  /** A user row with the four counts `get_user` adds. */
  datatype Profile = Profile(
    user: UserRow, cameraCount: nat, discussionCount: nat, followerCount: nat, followingCount: nat)

  function OwnedBy(id: string): Row -> bool {
    (r: Row) => Get(r, "user_id") == JStr(id)
  }

  function FollowerOf(id: string): Edge -> bool {
    (e: Edge) => e.following == id
  }

  function FollowedBy(id: string): Edge -> bool {
    (e: Edge) => e.follower == id
  }

  /**
   * `get_user`: the one row with the id and its counts: cameras and discussions owned, edges
   * into and out of the user (0 when there are none). No row, or several, is 404.
   */
  function GetUser(users: seq<UserRow>, cameras: seq<Row>, discussions: seq<Row>, follows: seq<Edge>, id: string)
    : (r: Outcome<Profile>)
    ensures r.Ok? <==> Count(users, HasId(id)) == 1
    ensures r.Fail? ==> r.status == NotFound
    ensures r.Ok? ==> r.value.user in users && r.value.user.id == id
    ensures r.Ok? ==> r.value.followerCount == |Filter(follows, FollowerOf(id))|
    ensures r.Ok? ==> r.value.followingCount == |Filter(follows, FollowedBy(id))|
    ensures r.Ok? ==> r.value.cameraCount == |Filter(cameras, OwnedBy(id))|
    ensures r.Ok? ==> r.value.discussionCount == |Filter(discussions, OwnedBy(id))|
    ensures r.Ok? ==> (r.value.cameraCount == 0 <==> forall c :: c in cameras ==> Get(c, "user_id") != JStr(id))
    ensures r.Ok? ==> (r.value.discussionCount == 0 <==> forall d :: d in discussions ==> Get(d, "user_id") != JStr(id))
  {
    var row := Single(users, HasId(id));
    if row.None? then Fail(NotFound)
    else
      Ok(Profile(row.value, Count(cameras, OwnedBy(id)), Count(discussions, OwnedBy(id)),
                 Count(follows, FollowerOf(id)), Count(follows, FollowedBy(id))))
  }

  /** A new follow edge adds one follower to the followed user and one followee to the follower. */
  lemma FollowCounts(
    users: seq<UserRow>, cameras: seq<Row>, discussions: seq<Row>, follows: seq<Edge>, follower: string, following: string)
    requires CreateFollowSpec(follows, follower, following).Ok?
    requires Count(users, HasId(follower)) == 1 && Count(users, HasId(following)) == 1
    ensures var after := follows + [Edge(follower, following)];
      GetUser(users, cameras, discussions, after, following).value.followerCount ==
        GetUser(users, cameras, discussions, follows, following).value.followerCount + 1 &&
      GetUser(users, cameras, discussions, after, follower).value.followingCount ==
        GetUser(users, cameras, discussions, follows, follower).value.followingCount + 1 &&
      GetUser(users, cameras, discussions, after, follower).value.followerCount ==
        GetUser(users, cameras, discussions, follows, follower).value.followerCount
  {
    var x := Edge(follower, following);
    CountAppend(follows, x, FollowerOf(following));
    CountAppend(follows, x, FollowedBy(follower));
    CountAppend(follows, x, FollowerOf(follower));
  }

  /** `list_users`: the rows at positions `offset` to `offset + limit - 1`. */
  function ListUsers(users: seq<UserRow>, limit: int, offset: nat): (r: seq<UserRow>)
    ensures |r| == if limit <= 0 || offset >= |users| then 0 else Min(limit, |users| - offset)
    ensures forall k :: 0 <= k < |r| ==> offset + k < |users| && r[k] == users[offset + k]
  {
    Window(users, offset, offset + limit - 1)
  }

  /** Two consecutive pages of the list are one page of twice the size. */
  lemma ListUsersPages(users: seq<UserRow>, limit: nat, offset: nat)
    ensures ListUsers(users, limit, offset) + ListUsers(users, limit, offset + limit) ==
      ListUsers(users, 2 * limit, offset)
  {
    WindowsTile(users, offset, offset + limit, offset + 2 * limit - 1);
  }

  /**
   * `follow_user`: the edge from `str(follower_id)` to the user, or 400 when the id is missing
   * or falsy, equals the user id, or the edge exists.
   */
  function FollowUserSpec(follows: seq<Edge>, userId: string, followerId: Json, repr: Json -> string): (r: Outcome<Edge>)
    ensures r.Fail? ==> r.status == BadRequest
    ensures !JTruthy(followerId) ==> r == Fail(BadRequest)
    ensures r.Ok? <==>
      JTruthy(followerId) && followerId != JStr(userId) && Edge(PyStr(followerId, repr), userId) !in follows
    ensures r.Ok? ==> r.value == Edge(PyStr(followerId, repr), userId)
  {
    if !JTruthy(followerId) then Fail(BadRequest)
    else if followerId == JStr(userId) then Fail(BadRequest)
    else
      var e := Edge(PyStr(followerId, repr), userId);
      if Count(follows, Is(e)) > 0 then Fail(BadRequest) else Ok(e)
  }

  /** With a non-empty string id, `follow_user` decides exactly as `create_follow` does. */
  lemma FollowUserAgreesWithCreateFollow(follows: seq<Edge>, userId: string, follower: string, repr: Json -> string)
    requires follower != ""
    ensures FollowUserSpec(follows, userId, JStr(follower), repr) == CreateFollowSpec(follows, follower, userId)
  {
  }

  /**
   * The self-follow check compares the raw JSON value with the user id, so a numeric
   * `follower_id` whose text is the user id passes it and a self-follow edge is stored.
   */
  lemma NumericFollowerBypassesSelfCheck(follows: seq<Edge>, repr: Json -> string)
    requires Edge("42", "42") !in follows
    ensures FollowUserSpec(follows, "42", JInt(42), repr) == Ok(Edge("42", "42"))
  {
    assert Decimal(4) == "4" && Decimal(2) == "2";
    assert Decimal(42) == Decimal(4) + [Digit(2)];
    assert IntText(42) == "42";
    assert Count(follows, Is(Edge("42", "42"))) == 0;
  }

  /** `unfollow_user`: the table without the edge; every failure (missing id, no edge) is 400. */
  function UnfollowUserSpec(follows: seq<Edge>, userId: string, followerId: Json, repr: Json -> string)
    : (r: Outcome<seq<Edge>>)
    ensures r.Fail? ==> r.status == BadRequest
    ensures !JTruthy(followerId) ==> r == Fail(BadRequest)
    ensures r.Ok? <==> JTruthy(followerId) && Edge(PyStr(followerId, repr), userId) in follows
    ensures r.Ok? ==> forall e :: e in r.value <==> e in follows && e != Edge(PyStr(followerId, repr), userId)
  {
    if !JTruthy(followerId) then Fail(BadRequest)
    else
      var p := Is(Edge(PyStr(followerId, repr), userId));
      if Count(follows, p) == 0 then Fail(BadRequest) else Ok(Delete(follows, p))
  }

  /** Unfollowing right after a follow restores the table exactly, whatever the id's type. */
  lemma FollowThenUnfollowUser(follows: seq<Edge>, userId: string, followerId: Json, repr: Json -> string)
    requires FollowUserSpec(follows, userId, followerId, repr).Ok?
    ensures var e := FollowUserSpec(follows, userId, followerId, repr).value;
      UnfollowUserSpec(follows + [e], userId, followerId, repr) == Ok(follows)
  {
    var x := FollowUserSpec(follows, userId, followerId, repr).value;
    var p := Is(x);
    assert Count(follows, p) == 0;
    assert p(x);
    CountAppend(follows, x, p);
    DeleteAppend(follows, x, p);
    DeleteNone(follows, p);
    assert Delete(follows + [x], p) == follows;
  }

  /** `follow_user` on the database. */
  method FollowUser(db: Db, userId: string, body: Row, repr: Json -> string) returns (r: Outcome<Edge>)
    modifies db`follows
    ensures r == FollowUserSpec(old(db.follows), userId, Get(body, "follower_id"), repr)
    ensures db.follows == if r.Ok? then old(db.follows) + [r.value] else old(db.follows)
  {
    var followerId := Get(body, "follower_id");
    if !JTruthy(followerId) {
      return Fail(BadRequest);
    }
    if followerId == JStr(userId) {
      return Fail(BadRequest);
    }
    var edge := Edge(PyStr(followerId, repr), userId);
    var existing := Filter(db.follows, Is(edge));
    if existing != [] {
      return Fail(BadRequest);
    }
    db.follows := db.follows + [edge];
    r := Ok(edge);
  }

  /** `unfollow_user` on the database. */
  method UnfollowUser(db: Db, userId: string, body: Row, repr: Json -> string) returns (r: Outcome<()>)
    modifies db`follows
    ensures var s := UnfollowUserSpec(old(db.follows), userId, Get(body, "follower_id"), repr);
      (r.Ok? <==> s.Ok?) && (r.Fail? ==> r.status == BadRequest) &&
      db.follows == if s.Ok? then s.value else old(db.follows)
  {
    var followerId := Get(body, "follower_id");
    if !JTruthy(followerId) {
      return Fail(BadRequest);
    }
    var p := Is(Edge(PyStr(followerId, repr), userId));
    var deleted := Filter(db.follows, p);
    if deleted == [] {
      return Fail(BadRequest);
    }
    db.follows := Delete(db.follows, p);
    r := Ok(());
  }
}
