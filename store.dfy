/**
 * The Supabase tables the handlers read and write, held in memory: every table is a
 * sequence of rows in the order the store returns them, and every PostgREST query the
 * handlers build (`eq` filters, `single()`, `range`, `delete`, `update`) is a function on
 * such a sequence.
 */
module Store {
  import opened Wrappers
  import opened Values
  import opened StableSort

  /** Number of rows satisfying `p`: `len(result.data)` or the `count="exact"` of a filtered select. */
  function Count<T>(s: seq<T>, p: T -> bool): (n: nat)
    ensures n <= |s|
    ensures n == 0 <==> forall x :: x in s ==> !p(x)
  {
    if s == [] then 0 else (if p(s[0]) then 1 else 0) + Count(s[1..], p)
  }

  /** The rows satisfying `p`, in table order: a select with `eq` filters. */
  function Filter<T>(s: seq<T>, p: T -> bool): (r: seq<T>)
    ensures |r| == Count(s, p)
    ensures forall x :: x in r ==> x in s && p(x)
    ensures forall x :: x in s && p(x) ==> x in r
  {
    if s == [] then [] else (if p(s[0]) then [s[0]] else []) + Filter(s[1..], p)
  }

  /** Appending a row adds one to a count exactly when the row matches. */
  lemma {:induction false} CountAppend<T>(s: seq<T>, x: T, p: T -> bool)
    ensures Count(s + [x], p) == Count(s, p) + (if p(x) then 1 else 0)
  {
    if s != [] {
      assert (s + [x])[1..] == s[1..] + [x];
      CountAppend(s[1..], x, p);
    }
  }

  /** Appending a row extends a filter by that row exactly when the row matches. */
  lemma {:induction false} FilterAppend<T>(s: seq<T>, x: T, p: T -> bool)
    ensures Filter(s + [x], p) == Filter(s, p) + (if p(x) then [x] else [])
  {
    if s != [] {
      var h := if p(s[0]) then [s[0]] else [];
      var t := if p(x) then [x] else [];
      assert (s + [x])[1..] == s[1..] + [x];
      FilterAppend(s[1..], x, p);
      calc {
        Filter(s + [x], p);
        h + Filter(s[1..] + [x], p);
        h + (Filter(s[1..], p) + t);
        { ConcatAssoc(h, Filter(s[1..], p), t); }
        (h + Filter(s[1..], p)) + t;
        Filter(s, p) + t;
      }
    }
  }

  /** A filter that every row passes keeps the whole table. */
  lemma {:induction false} FilterAll<T>(s: seq<T>, p: T -> bool)
    requires forall x :: x in s ==> p(x)
    ensures Filter(s, p) == s
  {
    if s != [] {
      FilterAll(s[1..], p);
    }
  }

  /** A filter keeps the rows that satisfy it in their relative order. */
  lemma {:induction false} FilterFirst<T>(s: seq<T>, p: T -> bool, i: nat)
    requires i < |s| && p(s[i]) && forall j :: 0 <= j < i ==> !p(s[j])
    ensures Filter(s, p) != [] && Filter(s, p)[0] == s[i]
  {
    if i > 0 {
      FilterFirst(s[1..], p, i - 1);
    }
  }

  /** A filter no row passes keeps nothing. */
  lemma {:induction false} FilterNone<T>(s: seq<T>, p: T -> bool)
    requires forall x :: x in s ==> !p(x)
    ensures Filter(s, p) == []
  {
    if s != [] {
      FilterNone(s[1..], p);
    }
  }

  /** A filter exactly one row passes keeps that row alone. */
  lemma {:induction false} FilterOne<T>(s: seq<T>, p: T -> bool, i: nat)
    requires i < |s| && p(s[i]) && forall j :: 0 <= j < |s| && j != i ==> !p(s[j])
    ensures Filter(s, p) == [s[i]]
  {
    if i > 0 {
      FilterOne(s[1..], p, i - 1);
    } else {
      assert forall x :: x in s[1..] ==> !p(x) by {
        forall x | x in s[1..] ensures !p(x) {
          var k :| 0 <= k < |s[1..]| && s[1..][k] == x;
          assert s[k + 1] == x;
        }
      }
      FilterNone(s[1..], p);
    }
  }

  /** Two complementary filters split a table between them. */
  lemma {:induction false} FilterSplit<T>(s: seq<T>, p: T -> bool, q: T -> bool)
    requires forall x :: q(x) == !p(x)
    ensures multiset(Filter(s, p)) + multiset(Filter(s, q)) == multiset(s)
  {
    if s != [] {
      FilterSplit(s[1..], p, q);
      var head := if p(s[0]) then [s[0]] else [];
      var rest := if q(s[0]) then [s[0]] else [];
      SplitHead(s, head, rest, Filter(s[1..], p), Filter(s[1..], q));
    }
  }

  /** One step of `FilterSplit`: the first row goes to exactly one side. */
  lemma SplitHead<T>(s: seq<T>, head: seq<T>, rest: seq<T>, fp: seq<T>, fq: seq<T>)
    requires s != [] && ((head == [s[0]] && rest == []) || (head == [] && rest == [s[0]]))
    requires multiset(fp) + multiset(fq) == multiset(s[1..])
    ensures multiset(head + fp) + multiset(rest + fq) == multiset(s)
  {
    assert s == [s[0]] + s[1..];
  }

  /** The rows deleted by a `delete()` with filter `p` are gone; the others stay in order. */
  function Delete<T>(s: seq<T>, p: T -> bool): (r: seq<T>)
    ensures |r| == |s| - Count(s, p)
    ensures forall x :: x in r ==> x in s && !p(x)
    ensures forall x :: x in s && !p(x) ==> x in r
  {
    if s == [] then [] else (if p(s[0]) then [] else [s[0]]) + Delete(s[1..], p)
  }

  /** Appending a row and deleting is deleting and then appending the row unless it matches. */
  lemma {:induction false} DeleteAppend<T>(s: seq<T>, x: T, p: T -> bool)
    ensures Delete(s + [x], p) == Delete(s, p) + (if p(x) then [] else [x])
  {
    if s != [] {
      var h := if p(s[0]) then [] else [s[0]];
      var t := if p(x) then [] else [x];
      assert (s + [x])[1..] == s[1..] + [x];
      DeleteAppend(s[1..], x, p);
      calc {
        Delete(s + [x], p);
        h + Delete(s[1..] + [x], p);
        h + (Delete(s[1..], p) + t);
        { ConcatAssoc(h, Delete(s[1..], p), t); }
        (h + Delete(s[1..], p)) + t;
        Delete(s, p) + t;
      }
    }
  }

  /** A delete that matches no row leaves the table as it was. */
  lemma {:induction false} DeleteNone<T>(s: seq<T>, p: T -> bool)
    requires forall x :: x in s ==> !p(x)
    ensures Delete(s, p) == s
  {
    if s != [] {
      DeleteNone(s[1..], p);
    }
  }

  /** `update(...)` with filter `p`: the matching rows become `f(row)`, the others stay. */
  function Update<T>(s: seq<T>, p: T -> bool, f: T -> T): (r: seq<T>)
    ensures |r| == |s|
    ensures forall i :: 0 <= i < |s| ==> r[i] == (if p(s[i]) then f(s[i]) else s[i])
  {
    if s == [] then [] else [if p(s[0]) then f(s[0]) else s[0]] + Update(s[1..], p, f)
  }

  /**
   * `.single()`: the one row satisfying `p`. PostgREST answers anything other than exactly
   * one row with an error, which the client raises.
   */
  function Single<T>(s: seq<T>, p: T -> bool): (r: Option<T>)
    ensures r.Some? <==> Count(s, p) == 1
    ensures r.Some? ==> r.value in s && p(r.value)
  {
    var rows := Filter(s, p);
    if |rows| == 1 then assert rows[0] in rows; Some(rows[0]) else None
  }

  function Min(a: int, b: int): int {
    if a <= b then a else b
  }

  /**
   * `.range(first, last)`: the rows at positions `first` to `last`, both included, clipped
   * to the result; nothing when `last < first`.
   */
  function Window<T>(s: seq<T>, first: nat, last: int): (r: seq<T>)
    ensures |r| == if last < first || first >= |s| then 0 else Min(last + 1, |s|) - first
    ensures forall k :: 0 <= k < |r| ==> r[k] == s[first + k]
  {
    if last < first || first >= |s| then [] else s[first..Min(last + 1, |s|)]
  }

  /** Consecutive windows tile the table: page `n` followed by page `n + 1` is one double page. */
  lemma WindowsTile<T>(s: seq<T>, first: nat, mid: nat, last: int)
    requires first <= mid <= last + 1
    ensures Window(s, first, mid - 1) + Window(s, mid, last) == Window(s, first, last)
  {
    var a, b, c := Window(s, first, mid - 1), Window(s, mid, last), Window(s, first, last);
    assert |a + b| == |c|;
    forall k | 0 <= k < |c| ensures (a + b)[k] == c[k] {
      if k >= |a| {
        assert (a + b)[k] == b[k - |a|];
      }
    }
  }

  /** The filter `.eq(key, v)` on a table of rows. */
  function Where(key: string, v: Json): Row -> bool {
    (r: Row) => Get(r, key) == v
  }

  /** A row of the `follows` table: `follower_id` follows `following_id`. */
  datatype Edge = Edge(follower: string, following: string)

  /** A row of the `likes` table; exactly one target column is meant to be set. */
  datatype Like = Like(user: string, discussion: Option<string>, camera: Option<string>, comment: Option<string>)

  /** A row of the `users` table; `id` holds the identity provider's user id. */
  datatype UserRow = UserRow(
    id: string,
    email: Option<string>,
    username: Option<string>,
    displayName: Option<string>,
    avatarUrl: Option<string>,
    bio: Option<string>,
    location: Option<string>,
    expertiseLevel: Option<string>,
    websiteUrl: Option<string>,
    instagramUrl: Option<string>)

  /** The database behind `supabase_client`. */
  class Db {
    var users: seq<UserRow>
    var follows: seq<Edge>
    var likes: seq<Like>
    var discussions: seq<Row>
    var categories: seq<Row>
    var comments: seq<Row>
    var cameras: seq<Row>
    var cameraImages: seq<Row>

    constructor ()
      ensures users == [] && follows == [] && likes == []
      ensures discussions == [] && categories == [] && comments == []
      ensures cameras == [] && cameraImages == []
    {
      users, follows, likes := [], [], [];
      discussions, categories, comments := [], [], [];
      cameras, cameraImages := [], [];
    }
  }
}
