/**
 * The dependency-free `/test/sync` endpoint: the same update-or-insert decision as
 * `/users/sync`, without the username conflict handling, and answering failures with an
 * error value instead of raising.
 */
module TestSync {
  import opened Wrappers
  import opened Store
  import Users

  /** The body of the test sync request; the optional texts default to `""`. */
  datatype SyncRequest = SyncRequest(clerkId: string, email: string, username: string, fullName: string, avatarUrl: string)

  /** The two answers: a success message with the ids, or `{"error": ...}`. */
  datatype Reply = Synced(message: string, userId: string, clerkId: string) | SyncError(error: string)

  /** `a or b` for a request text `a` and a stored nullable `b`. */
  function OrStored(a: string, b: Option<string>): Option<string> {
    if a != "" then Some(a) else b
  }

  /**
   * `sync_user_test`: the reply and the users table afterwards. `failure` is the message of
   * the exception a store call raised, if one did; the handler then writes nothing and
   * answers with the message.
   */
  function TestSyncSpec(users: seq<UserRow>, req: SyncRequest, failure: Option<string>): (r: (Reply, seq<UserRow>))
    ensures failure.Some? ==> r == (SyncError(failure.value), users)
    ensures failure.None? ==> r.0.Synced? && r.0.clerkId == req.clerkId
  {
    if failure.Some? then (SyncError(failure.value), users)
    else
      var existing := Filter(users, Users.HasId(req.clerkId));
      if existing != [] then
        var first := existing[0];
        var f := (u: UserRow) => u.(
          email := Some(req.email),
          username := Some(req.username),
          displayName := OrStored(req.fullName, first.displayName),
          avatarUrl := OrStored(req.avatarUrl, first.avatarUrl));
        (Synced("User updated successfully", first.id, req.clerkId), Update(users, Users.HasId(first.id), f))
      else
        var row := UserRow(
          req.clerkId, Some(req.email), Some(req.username), Some(req.fullName), Some(req.avatarUrl),
          Some(""), Some(""), Some("beginner"), None, None);
        (Synced("User created successfully", req.clerkId, req.clerkId), users + [row])
  }

  /** The request as `/users/sync` would receive it. */
  function AsUsersRequest(req: SyncRequest): Users.SyncRequest {
    Users.SyncRequest(req.clerkId, req.email, req.username, Some(req.fullName), Some(req.avatarUrl))
  }

  /**
   * For an existing user the update sets the requested username with no conflict check:
   * another row holding the name keeps it, and uniqueness is lost.
   */
  lemma RenameIgnoresConflicts()
    ensures var users := [
        UserRow("a", None, Some("ann"), None, None, None, None, None, None, None),
        UserRow("b", None, Some("bea"), None, None, None, None, None, None, None)];
      var after := TestSyncSpec(users, SyncRequest("a", "a@x", "bea", "", ""), None).1;
      Users.UniqueUsernames(users) && !Users.UniqueUsernames(after)
  {
    var users := [
      UserRow("a", None, Some("ann"), None, None, None, None, None, None, None),
      UserRow("b", None, Some("bea"), None, None, None, None, None, None, None)];
    assert Users.HasId("a")(users[0]);
    assert users[0] in Filter(users, Users.HasId("a"));
    var after := TestSyncSpec(users, SyncRequest("a", "a@x", "bea", "", ""), None).1;
    assert after[0].username == after[1].username;
  }

  /**
   * For an existing user whose requested username no other id holds, the test endpoint
   * writes the same table as `/users/sync`, including the display-name and avatar fallbacks.
   */
  lemma UpdateAgreesWithUsersSync(users: seq<UserRow>, req: SyncRequest, draws: seq<int>)
    requires Users.UniqueIds(users) && Users.UniqueUsernames(users)
    requires Count(users, Users.HasId(req.clerkId)) > 0
    requires forall u :: u in users && u.id != req.clerkId ==> u.username != Some(req.username)
    ensures Users.DrawsSuffice(users, AsUsersRequest(req), draws)
    ensures TestSyncSpec(users, req, None).1 == Users.SyncUserSpec(users, AsUsersRequest(req), draws).1
  {
    var existing := Filter(users, Users.HasId(req.clerkId));
    assert existing[0] in existing;
    var i :| 0 <= i < |users| && users[i] == existing[0];
    Users.SyncExistingUser(users, AsUsersRequest(req), draws, i);
    var a := TestSyncSpec(users, req, None).1;
    var b := Users.SyncUserSpec(users, AsUsersRequest(req), draws).1;
    forall k | 0 <= k < |users| ensures a[k] == b[k] {
      if users[k].id == req.clerkId {
        assert k == i;
      }
    }
  }

  /**
   * A new user row takes the request's fields as given (an empty full name stays empty)
   * with an empty bio and location and the `beginner` level; `/users/sync` inserts the same
   * row when the name is free and the full name is not empty.
   */
  lemma NewUserVerbatim(users: seq<UserRow>, req: SyncRequest, draws: seq<int>)
    requires forall u :: u in users ==> u.id != req.clerkId
    requires forall u :: u in users ==> u.username != Some(req.username)
    ensures var (reply, after) := TestSyncSpec(users, req, None);
      && reply == Synced("User created successfully", req.clerkId, req.clerkId)
      && after == users + [UserRow(req.clerkId, Some(req.email), Some(req.username), Some(req.fullName),
                                   Some(req.avatarUrl), Some(""), Some(""), Some("beginner"), None, None)]
    ensures Users.DrawsSuffice(users, AsUsersRequest(req), draws)
    ensures req.fullName != "" ==> TestSyncSpec(users, req, None).1 == Users.SyncUserSpec(users, AsUsersRequest(req), draws).1
  {
    assert Count(users, Users.HasId(req.clerkId)) == 0;
    Users.TakenMeans(users, req.username);
  }

  /** `sync_user_test` on the database: every outcome, failures included, is a reply. */
  method SyncUserTest(db: Db, req: SyncRequest, failure: Option<string>) returns (reply: Reply)
    modifies db`users
    ensures (reply, db.users) == TestSyncSpec(old(db.users), req, failure)
  {
    if failure.Some? {
      return SyncError(failure.value);
    }
    var existing := Filter(db.users, Users.HasId(req.clerkId));
    if existing != [] {
      var first := existing[0];
      var userId := first.id;
      var f := (u: UserRow) => u.(
        email := Some(req.email),
        username := Some(req.username),
        displayName := OrStored(req.fullName, first.displayName),
        avatarUrl := OrStored(req.avatarUrl, first.avatarUrl));
      db.users := Update(db.users, Users.HasId(userId), f);
      return Synced("User updated successfully", userId, req.clerkId);
    }
    var row := UserRow(
      req.clerkId, Some(req.email), Some(req.username), Some(req.fullName), Some(req.avatarUrl),
      Some(""), Some(""), Some("beginner"), None, None);
    db.users := db.users + [row];
    reply := Synced("User created successfully", req.clerkId, req.clerkId);
  }
}
