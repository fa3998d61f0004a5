/**
 * The `/auth` endpoints: the caller's claims as `/me` reports them, the token check, and
 * `sync-user`, which creates the caller's users row on first sight.
 */
module Auth {
  import opened Wrappers
  import opened Http
  import opened Text
  import opened Values
  import opened Store
  import Users

  /**
   * The verified token claims the handlers read. `name` is `None` both when the claim is
   * missing and when it is null; the handlers treat the two alike.
   */
  datatype Claims = Claims(sub: string, email: Option<string>, name: Option<string>)

  /** The body of `GET /auth/me`. */
  datatype Me = Me(clerkId: string, email: Option<string>, name: Option<string>, authenticated: bool)

  /** `get_current_user_info`: the subject, email and name claims, marked authenticated. */
  function CurrentUserInfo(c: Claims): (r: Me)
    ensures r.authenticated
    ensures r.clerkId == c.sub && r.email == c.email && r.name == c.name
  {
    Me(c.sub, c.email, c.name, true)
  }

  /** The body of `GET /auth/verify-token`. */
  datatype TokenStatus = TokenStatus(valid: bool, userId: string)

  /** `verify_token`: every token that reaches the handler is valid for its subject. */
  function VerifyToken(c: Claims): (r: TokenStatus)
    ensures r.valid && r.userId == c.sub
  {
    TokenStatus(true, c.sub)
  }

  /** Only whitespace: `s.split()` is then empty. */
  predicate Blank(s: string) {
    forall i :: 0 <= i < |s| ==> IsSpace(s[i])
  }

  /**
   * The base username: the email's text before the first `@`, or, without an email,
   * `user_` followed by the first eight characters of the subject.
   */
  function BaseUsername(c: Claims): (r: string)
    ensures Truthy(c.email) ==> '@' !in r && StartsWith(c.email.value, r)
    ensures Truthy(c.email) && '@' in c.email.value ==> c.email.value[|r|] == '@'
    ensures !Truthy(c.email) ==> exists k :: 0 <= k <= 8 && k <= |c.sub| && r == "user_" + c.sub[..k]
    ensures !Truthy(c.email) && |c.sub| >= 8 ==> |r| == 13
    ensures !Truthy(c.email) ==> |r| == 5 + Min(8, |c.sub|)
    ensures Truthy(c.email) && '@' !in c.email.value ==> r == c.email.value
  {
    if Truthy(c.email) then
      var r := BeforeFirst(c.email.value, '@');
      assert '@' !in c.email.value ==> r == c.email.value[..|r|] == c.email.value;
      r
    else "user_" + c.sub[..Min(8, |c.sub|)]
  }

  /**
   * `sync_user_with_database`: the row it answers and the users table afterwards. A
   * non-empty name made only of whitespace makes `name.split()[0]` raise before the `try`,
   * an unhandled error (500). An existing row is answered as it is; otherwise a row is
   * inserted whose username gets one `_NNNN` suffix, from the single `draw`, when the base
   * is taken.
   */
  function SyncWithDatabase(users: seq<UserRow>, c: Claims, draw: int): (Outcome<UserRow>, seq<UserRow>) {
    if Truthy(c.name) && Blank(c.name.value) then (Fail(ServerError), users)
    else
      var base := BaseUsername(c);
      var existing := Filter(users, Users.HasId(c.sub));
      if existing != [] then (Ok(existing[0]), users)
      else
        var name := if Users.Taken(users, base) then Users.Suffixed(base, draw) else base;
        var row := UserRow(
          c.sub, c.email, Some(name), Some(if Truthy(c.name) then c.name.value else base),
          None, None, None, None, None, None);
        (Ok(row), users + [row])
  }

  /** The error path: a whitespace-only name fails with 500 and writes nothing. */
  lemma BlankNameFails(users: seq<UserRow>, c: Claims, draw: int)
    ensures var (r, after) := SyncWithDatabase(users, c, draw);
      (r.Fail? <==> Truthy(c.name) && Blank(c.name.value)) &&
      (r.Fail? ==> r.status == ServerError && after == users)
  {
  }

  /** A caller who already has a row gets it back, and nothing is written. */
  lemma ExistingUserUnchanged(users: seq<UserRow>, c: Claims, draw: int, i: nat)
    requires i < |users| && users[i].id == c.sub
    requires !(Truthy(c.name) && Blank(c.name.value))
    ensures var (r, after) := SyncWithDatabase(users, c, draw);
      after == users && r.Ok? && r.value in users && r.value.id == c.sub
    ensures Users.UniqueIds(users) ==> SyncWithDatabase(users, c, draw).0 == Ok(users[i])
  {
    var existing := Filter(users, Users.HasId(c.sub));
    assert users[i] in existing;
    assert existing[0] in existing;
    if Users.UniqueIds(users) {
      var k :| 0 <= k < |users| && users[k] == existing[0];
      assert k == i by {
        assert users[k].id == users[i].id;
      }
    }
  }

  /**
   * A new caller gets a row with their subject as id and their email; the username is the
   * base, or the base with a four-digit suffix when the base is taken; the display name is
   * the name claim, or the unsuffixed base when the claim is empty.
   */
  lemma NewUserRow(users: seq<UserRow>, c: Claims, draw: int)
    requires 1000 <= draw <= 9999
    requires forall u :: u in users ==> u.id != c.sub
    requires !(Truthy(c.name) && Blank(c.name.value))
    ensures var (r, after) := SyncWithDatabase(users, c, draw);
      var base := BaseUsername(c);
      && r.Ok? && after == users + [r.value]
      && r.value.id == c.sub && r.value.email == c.email
      && (!Users.Taken(users, base) ==> r.value.username == Some(base))
      && (Users.Taken(users, base) ==>
           r.value.username == Some(base + "_" + Decimal(draw)) && |Decimal(draw)| == 4)
      && r.value.displayName == Some(if Truthy(c.name) then c.name.value else base)
  {
    assert Count(users, Users.HasId(c.sub)) == 0;
    FourDigits(draw);
  }

  /** When the drawn name is also free, the new row keeps usernames unique. */
  lemma NewUserKeepsUniqueWhenDrawFree(users: seq<UserRow>, c: Claims, draw: int)
    requires Users.UniqueIds(users) && Users.UniqueUsernames(users)
    requires !Users.Taken(users, Users.Suffixed(BaseUsername(c), draw))
    ensures var after := SyncWithDatabase(users, c, draw).1; Users.UniqueIds(after) && Users.UniqueUsernames(after)
  {
    var (r, after) := SyncWithDatabase(users, c, draw);
    if after != users {
      var row := after[|users|];
      Users.TakenMeans(users, row.username.value);
      assert forall u :: u in users ==> u.id != c.sub by {
        forall u | u in users ensures u.id != c.sub {
          assert !Users.HasId(c.sub)(u);
        }
      }
      forall i, j | 0 <= i < j < |after|
        ensures after[i].id != after[j].id && (after[i].username.Some? ==> after[i].username != after[j].username)
      {
        if j == |users| {
          assert after[i] in users;
        }
      }
    }
  }

  /** With an `@` at position `k` and none before it, the base is the first `k` characters. */
  lemma LocalPart(s: string, k: nat)
    requires k < |s| && s[k] == '@' && '@' !in s[..k]
    ensures BeforeFirst(s, '@') == s[..k]
  {
    var r := BeforeFirst(s, '@');
    assert s[k] in s;
    assert forall j :: 0 <= j < |r| ==> s[j] == r[j];
    assert forall j :: 0 <= j < k ==> s[j] == s[..k][j];
    assert |r| == k;
  }

  /** The draw 1234 suffixes `bob` as `bob_1234`. */
  lemma BobSuffix()
    ensures Users.Suffixed("bob", 1234) == "bob_1234"
  {
    assert 1234 / 10 == 123 && 1234 % 10 == 4 && 123 / 10 == 12 && 123 % 10 == 3;
    assert 12 / 10 == 1 && 12 % 10 == 2;
    assert Decimal(1) == "1";
    assert Decimal(12) == Decimal(1) + [Digit(2)] == "12";
    assert Decimal(123) == Decimal(12) + [Digit(3)] == "123";
    assert Decimal(1234) == Decimal(123) + [Digit(4)] == "1234";
  }

  /**
   * Two rows named `bob` and `bob_1234`. The examples below take the users table to have no
   * unique constraint on `username`: the table's schema is not part of this model, and such a
   * constraint would turn the collision into a failed insert.
   */
  function BobTable(): seq<UserRow> {
    [UserRow("a", None, Some("bob"), None, None, None, None, None, None, None),
     UserRow("b", None, Some("bob_1234"), None, None, None, None, None, None, None)]
  }

  /**
   * The suffix is drawn once and not checked again, so a new caller can receive a username
   * another row already holds: with rows named `bob` and `bob_1234`, the email `bob@x` and
   * the draw 1234 store a second `bob_1234` (when the database has no unique constraint on
   * `username`; see `BobTable`).
   */
  lemma SuffixCanCollide()
    ensures var after := SyncWithDatabase(BobTable(), Claims("c", Some("bob@x"), None), 1234).1;
      Users.UniqueUsernames(BobTable()) && !Users.UniqueUsernames(after)
  {
    BobSync();
    var after := SyncWithDatabase(BobTable(), Claims("c", Some("bob@x"), None), 1234).1;
    assert after[1] == BobTable()[1];
    assert 0 <= 1 < 2 < |after| && after[1].username.Some? && after[1].username == after[2].username;
    BobTableUnique();
  }

  /** The example table starts with unique usernames. */
  lemma BobTableUnique()
    ensures Users.UniqueUsernames(BobTable())
  {
    var t := BobTable();
    assert t[0].username != t[1].username;
  }

  /**
   * The caller `c` with email `bob@x` is appended to `BobTable()` as `bob_1234`, an insert
   * that succeeds only without a unique constraint on `username`.
   */
  lemma BobSync()
    ensures var after := SyncWithDatabase(BobTable(), Claims("c", Some("bob@x"), None), 1234).1;
      |after| == 3 && after[..2] == BobTable() && after[2].username == Some("bob_1234")
  {
    var users := BobTable();
    var c := Claims("c", Some("bob@x"), None);
    LocalPart("bob@x", 3);
    assert "bob@x"[..3] == "bob";
    assert BaseUsername(c) == "bob";
    BobSuffix();
    assert Users.HasName("bob")(users[0]);
    NewUserRow(users, c, 1234);
  }

  /** `sync_user_with_database` on the database. */
  method SyncUserWithDatabase(db: Db, c: Claims, draw: int) returns (r: Outcome<UserRow>)
    modifies db`users
    ensures (r, db.users) == SyncWithDatabase(old(db.users), c, draw)
  {
    if Truthy(c.name) && Blank(c.name.value) {
      return Fail(ServerError);
    }
    var username := BaseUsername(c);
    var existing := Filter(db.users, Users.HasId(c.sub));
    if existing != [] {
      return Ok(existing[0]);
    }
    var row := UserRow(
      c.sub, c.email, Some(username), Some(if Truthy(c.name) then c.name.value else username),
      None, None, None, None, None, None);
    var check := Filter(db.users, Users.HasName(username));
    if check != [] {
      row := row.(username := Some(Users.Suffixed(username, draw)));
    }
    db.users := db.users + [row];
    r := Ok(row);
  }
}
