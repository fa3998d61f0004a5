/**
 * The follow-edge ledger of the `/follows` endpoints: listing edges by either end, creating an
 * edge (no self-follows, no duplicates) and deleting one.
 */
module Follows {
  import opened Wrappers
  import opened Http
  import opened Store

  /** No user follows themself and no edge appears twice. */
  predicate WellFormed(follows: seq<Edge>) {
    (forall i :: 0 <= i < |follows| ==> follows[i].follower != follows[i].following) &&
    (forall i, j :: 0 <= i < j < |follows| ==> follows[i] != follows[j])
  }

  /** The `eq` filters `list_follows` adds: one for each truthy query argument. */
  predicate Selects(e: Edge, followerId: Option<string>, followingId: Option<string>) {
    (Truthy(followerId) ==> e.follower == followerId.value) &&
    (Truthy(followingId) ==> e.following == followingId.value)
  }

  /**
   * `list_follows`: the edges matching whichever of the two ids is given, in table order; the
   * whole table when neither is.
   */
  function ListFollows(follows: seq<Edge>, followerId: Option<string>, followingId: Option<string>): (r: seq<Edge>)
    ensures forall e :: e in r <==> e in follows && Selects(e, followerId, followingId)
    ensures !Truthy(followerId) && !Truthy(followingId) ==> r == follows
  {
    var p := (e: Edge) => Selects(e, followerId, followingId);
    if !Truthy(followerId) && !Truthy(followingId) then
      FilterAll(follows, p);
      Filter(follows, p)
    else
      Filter(follows, p)
  }

  /** The filter `.eq("follower_id", ...).eq("following_id", ...)` for one edge. */
  function Is(x: Edge): Edge -> bool {
    (e: Edge) => e == x
  }

  /** `create_follow`: the new edge, or 400 for a self-follow or an edge that already exists. */
  function CreateFollowSpec(follows: seq<Edge>, follower: string, following: string): (r: Outcome<Edge>)
    ensures r.Ok? <==> follower != following && Edge(follower, following) !in follows
    ensures r.Ok? ==> r.value == Edge(follower, following)
    ensures r.Fail? ==> r.status == BadRequest
  {
    if follower == following then Fail(BadRequest)
    else if Count(follows, Is(Edge(follower, following))) > 0 then Fail(BadRequest)
    else Ok(Edge(follower, following))
  }

  /** Creating a follow keeps the ledger free of self-follows and duplicates. */
  lemma CreateFollowKeepsWellFormed(follows: seq<Edge>, follower: string, following: string)
    requires WellFormed(follows)
    ensures var r := CreateFollowSpec(follows, follower, following);
      WellFormed(if r.Ok? then follows + [r.value] else follows)
  {
    var r := CreateFollowSpec(follows, follower, following);
    if r.Ok? {
      var s := follows + [r.value];
      forall i, j | 0 <= i < j < |s| ensures s[i] != s[j] {
        if j == |follows| {
          assert s[i] in follows;
        } else {
          assert s[i] == follows[i] && s[j] == follows[j];
        }
      }
    }
  }

  /**
   * `delete_follow`: the table without the edge; the 404 for a missing edge is re-raised by the
   * generic handler, so every failure is 400.
   */
  function DeleteFollowSpec(follows: seq<Edge>, follower: string, following: string): (r: Outcome<seq<Edge>>)
    ensures r.Ok? <==> Edge(follower, following) in follows
    ensures r.Ok? ==> Edge(follower, following) !in r.value && |r.value| < |follows|
    ensures r.Ok? ==> forall e :: e != Edge(follower, following) ==> (e in r.value <==> e in follows)
    ensures r.Fail? ==> r.status == BadRequest
  {
    var p := Is(Edge(follower, following));
    var inner: Outcome<seq<Edge>> := if Count(follows, p) == 0 then Fail(NotFound) else Ok(Delete(follows, p));
    Rewrap(inner, BadRequest)
  }

  /** Unfollowing right after following restores the ledger exactly. */
  lemma FollowThenUnfollow(follows: seq<Edge>, follower: string, following: string)
    requires CreateFollowSpec(follows, follower, following).Ok?
    ensures DeleteFollowSpec(follows + [Edge(follower, following)], follower, following) == Ok(follows)
  {
    var x := Edge(follower, following);
    var p := Is(x);
    assert Count(follows, p) == 0;
    assert p(x);
    CountAppend(follows, x, p);
    DeleteAppend(follows, x, p);
    DeleteNone(follows, p);
    assert Delete(follows + [x], p) == follows;
  }

  /** `create_follow` on the database. */
  method CreateFollow(db: Db, follower: string, following: string) returns (r: Outcome<Edge>)
    modifies db`follows
    ensures r == CreateFollowSpec(old(db.follows), follower, following)
    ensures db.follows == if r.Ok? then old(db.follows) + [r.value] else old(db.follows)
  {
    if follower == following {
      return Fail(BadRequest);
    }
    var existing := Filter(db.follows, Is(Edge(follower, following)));
    if existing != [] {
      return Fail(BadRequest);
    }
    var edge := Edge(follower, following);
    db.follows := db.follows + [edge];
    r := Ok(edge);
  }

  /** `delete_follow` on the database. */
  method DeleteFollow(db: Db, follower: string, following: string) returns (r: Outcome<()>)
    modifies db`follows
    ensures var s := DeleteFollowSpec(old(db.follows), follower, following);
      (r.Ok? <==> s.Ok?) && (r.Fail? ==> r.status == BadRequest) &&
      db.follows == if s.Ok? then s.value else old(db.follows)
  {
    var p := Is(Edge(follower, following));
    var deleted := Filter(db.follows, p);
    if deleted == [] {
      return Fail(BadRequest);
    }
    db.follows := Delete(db.follows, p);
    r := Ok(());
  }
}
