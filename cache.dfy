/**
 * The in-process TTL cache of the optimized discussion endpoints: key derivation
 * (`get_cache_key`), lazy expiry on read (`get_cached_data`) and overwrite (`set_cache_data`).
 *
 * Times are microsecond readings of `datetime.utcnow()`, passed in as integers. The JSON
 * serialisation and MD5 hex digest of the parameters are one opaque function, `digest`,
 * supplied by the caller; only the canonical order it is applied to is modelled.
 */
module Cache {
  import opened Wrappers
  import opened Text
  import opened Values

  /** A keyword argument `name=value` of `get_cache_key`. */
  datatype Param = Param(name: string, value: Json)

  /** Keyword arguments never repeat a name. */
  predicate DistinctNames(ps: seq<Param>) {
    forall i, j :: 0 <= i < j < |ps| ==> ps[i].name != ps[j].name
  }

  /** Strictly increasing names: the order of `json.dumps(..., sort_keys=True)`. */
  ghost predicate ByName(ps: seq<Param>) {
    forall i, j :: 0 <= i < j < |ps| ==> LexLess(ps[i].name, ps[j].name)
  }

  function InsertByName(p: Param, ps: seq<Param>): seq<Param> {
    if ps == [] then [p]
    else if LexLess(p.name, ps[0].name) then [p] + ps
    else [ps[0]] + InsertByName(p, ps[1..])
  }

  /** The parameters in `sort_keys` order, by insertion of each one into the sorted rest. */
  function Canonical(ps: seq<Param>): seq<Param> {
    if ps == [] then [] else InsertByName(ps[|ps| - 1], Canonical(ps[..|ps| - 1]))
  }

  /** `Canonical` re-orders the parameters and, when their names are distinct, sorts them by name. */
  lemma {:induction false} CanonicalFacts(ps: seq<Param>)
    ensures multiset(Canonical(ps)) == multiset(ps)
    ensures DistinctNames(ps) ==> ByName(Canonical(ps))
  {
    if ps != [] {
      var init, last := ps[..|ps| - 1], ps[|ps| - 1];
      assert ps == init + [last];
      CanonicalFacts(init);
      var sorted := Canonical(init);
      LastNameIsNew(init, last, sorted);
      InsertByNameFacts(last, sorted, DistinctNames(ps));
    }
  }

  lemma LastNameIsNew(init: seq<Param>, last: Param, sorted: seq<Param>)
    requires multiset(sorted) == multiset(init)
    ensures DistinctNames(init + [last]) ==>
      DistinctNames(init) && forall q :: q in sorted ==> q.name != last.name
  {
    var ps := init + [last];
    if DistinctNames(ps) {
      forall q | q in sorted ensures q.name != last.name {
        assert q in multiset(init);
        var i :| 0 <= i < |init| && init[i] == q;
        assert ps[i] == q && ps[|init|] == last;
      }
      forall i, j | 0 <= i < j < |init| ensures init[i].name != init[j].name {
        assert ps[i] == init[i] && ps[j] == init[j];
      }
    }
  }

  lemma {:induction false} InsertByNameFacts(p: Param, ps: seq<Param>, distinct: bool)
    requires distinct ==> ByName(ps) && forall q :: q in ps ==> q.name != p.name
    ensures multiset(InsertByName(p, ps)) == multiset(ps) + multiset{p}
    ensures distinct ==> ByName(InsertByName(p, ps))
  {
    InsertByNameMultiset(p, ps);
    if distinct {
      InsertByNameOrdered(p, ps);
    }
  }

  lemma {:induction false} InsertByNameMultiset(p: Param, ps: seq<Param>)
    ensures multiset(InsertByName(p, ps)) == multiset(ps) + multiset{p}
  {
    if ps != [] && !LexLess(p.name, ps[0].name) {
      assert ps == [ps[0]] + ps[1..];
      InsertByNameMultiset(p, ps[1..]);
    }
  }

  lemma {:induction false} InsertByNameOrdered(p: Param, ps: seq<Param>)
    requires ByName(ps) && forall q :: q in ps ==> q.name != p.name
    ensures ByName(InsertByName(p, ps))
  {
    if ps == [] {
    } else if LexLess(p.name, ps[0].name) {
      forall q | q in ps ensures LexLess(p.name, q.name) {
        var j :| 0 <= j < |ps| && ps[j] == q;
        if j > 0 { LexLessTransitive(p.name, ps[0].name, ps[j].name); }
      }
      ByNameCons(p, ps);
    } else {
      var tail := InsertByName(p, ps[1..]);
      ByNameTail(ps);
      assert ps[0] in ps;
      InsertByNameOrdered(p, ps[1..]);
      InsertByNameMultiset(p, ps[1..]);
      LexLessTotal(p.name, ps[0].name);
      forall q | q in tail ensures LexLess(ps[0].name, q.name) {
        assert q in multiset(tail);
        if q != p {
          assert q in multiset(ps[1..]);
        }
      }
      ByNameCons(ps[0], tail);
    }
  }

  lemma ByNameCons(x: Param, ps: seq<Param>)
    requires ByName(ps) && forall q :: q in ps ==> LexLess(x.name, q.name)
    ensures ByName([x] + ps)
  {
    var r := [x] + ps;
    forall i, j | 0 <= i < j < |r| ensures LexLess(r[i].name, r[j].name) {
      if i == 0 {
        assert r[j] in ps;
      } else {
        assert r[i] == ps[i - 1] && r[j] == ps[j - 1];
      }
    }
  }

  lemma ByNameTail(ps: seq<Param>)
    requires ByName(ps) && ps != []
    ensures ByName(ps[1..]) && forall q :: q in ps[1..] ==> LexLess(ps[0].name, q.name)
  {
    forall q | q in ps[1..] ensures LexLess(ps[0].name, q.name) {
      var k :| 0 <= k < |ps[1..]| && ps[1..][k] == q;
      assert ps[k + 1] == q;
    }
  }

  /** Two name-ordered lists of the same parameters are the same list. */
  lemma {:induction false} ByNameUnique(a: seq<Param>, b: seq<Param>)
    requires ByName(a) && ByName(b) && multiset(a) == multiset(b)
    ensures a == b
  {
    if a == [] {
      assert |multiset(b)| == 0;
    } else {
      assert |multiset(b)| == |multiset(a)| > 0;
      SameHead(a, b);
      SameTailMultiset(a, b);
      ByNameTail(a);
      ByNameTail(b);
      ByNameUnique(a[1..], b[1..]);
      assert a == [a[0]] + a[1..] && b == [b[0]] + b[1..];
    }
  }

  lemma SameHead(a: seq<Param>, b: seq<Param>)
    requires ByName(a) && ByName(b) && multiset(a) == multiset(b) && a != [] && b != []
    ensures a[0] == b[0]
  {
    assert a[0] in multiset(b) && b[0] in multiset(a);
    var j :| 0 <= j < |b| && b[j] == a[0];
    var i :| 0 <= i < |a| && a[i] == b[0];
    if i > 0 && j > 0 {
      LexLessAsymmetric(a[0].name, b[0].name);
      assert false;
    }
  }

  lemma SameTailMultiset<T>(a: seq<T>, b: seq<T>)
    requires a != [] && b != [] && a[0] == b[0] && multiset(a) == multiset(b)
    ensures multiset(a[1..]) == multiset(b[1..])
  {
    assert a == [a[0]] + a[1..] && b == [b[0]] + b[1..];
    assert multiset(a[1..]) == multiset(a) - multiset{a[0]};
    assert multiset(b[1..]) == multiset(b) - multiset{b[0]};
  }

  /** `get_cache_key(prefix, **kwargs)`: `prefix + ":" + md5(json.dumps(kwargs, sort_keys=True))`. */
  function CacheKey(prefix: string, params: seq<Param>, digest: seq<Param> -> string): string {
    prefix + ":" + digest(Canonical(params))
  }

  /** The same keyword arguments passed in any order yield the same key. */
  lemma KeyIgnoresArgumentOrder(prefix: string, p1: seq<Param>, p2: seq<Param>, digest: seq<Param> -> string)
    requires DistinctNames(p1) && DistinctNames(p2) && multiset(p1) == multiset(p2)
    ensures CacheKey(prefix, p1, digest) == CacheKey(prefix, p2, digest)
  {
    CanonicalFacts(p1);
    CanonicalFacts(p2);
    ByNameUnique(Canonical(p1), Canonical(p2));
  }

  /** Whether `key` lies in the key space of `prefix`: it starts with the prefix and a `:`. */
  predicate InSpace(key: string, prefix: string) {
    StartsWith(key, prefix + ":")
  }

  /** Every key made by `CacheKey` lies in its prefix's key space. */
  lemma CacheKeySpace(prefix: string, params: seq<Param>, digest: seq<Param> -> string)
    ensures InSpace(CacheKey(prefix, params, digest), prefix)
  {
    var k := CacheKey(prefix, params, digest);
    assert k[..|prefix + ":"|] == prefix + ":";
  }

  /** Distinct prefixes without `:` have disjoint key spaces, so their entries never collide. */
  lemma SpacesDisjoint(key: string, p1: string, p2: string)
    requires ':' !in p1 && ':' !in p2 && p1 != p2
    requires InSpace(key, p1)
    ensures !InSpace(key, p2)
  {
    if |p1| < |p2| {
      assert key[|p1|] == ':';
    } else if |p2| < |p1| {
      assert key[|p2|] == p1[|p2|];
    } else {
      assert key[..|p1|] == p1;
    }
  }

  /** A key made with one prefix lies outside the key space of any other prefix. */
  lemma OutsideSpace(prefix: string, params: seq<Param>, digest: seq<Param> -> string, other: string)
    requires ':' !in prefix && ':' !in other && prefix != other
    ensures !InSpace(CacheKey(prefix, params, digest), other)
  {
    CacheKeySpace(prefix, params, digest);
    SpacesDisjoint(CacheKey(prefix, params, digest), prefix, other);
  }

  const MicrosPerSecond := 1_000_000
  const SecondsPerDay := 86400

  /**
   * `(now - earlier).seconds` for microsecond readings: the whole seconds of the difference
   * with whole days dropped, as `timedelta` normalises it (floor division, so a negative
   * difference wraps into the previous day).
   */
  function DeltaSeconds(now: int, earlier: int): (s: int)
    ensures 0 <= s < SecondsPerDay
  {
    ((now - earlier) / MicrosPerSecond) % SecondsPerDay
  }

  /** The freshness test of `get_cached_data`, as written. */
  predicate Fresh(timestamp: int, now: int, ttl: int) {
    DeltaSeconds(now, timestamp) < ttl
  }

  /** A freshness test on the whole elapsed time: less than `ttl` seconds since the write. */
  predicate FreshByTotalTime(timestamp: int, now: int, ttl: int) {
    now - timestamp < ttl * MicrosPerSecond
  }

  /** Within one day of the write, the two tests agree. */
  lemma FreshAgreesWithinADay(timestamp: int, now: int, ttl: int)
    requires 0 <= now - timestamp < SecondsPerDay * MicrosPerSecond
    requires ttl <= SecondsPerDay
    ensures Fresh(timestamp, now, ttl) <==> FreshByTotalTime(timestamp, now, ttl)
  {
    var d := now - timestamp;
    assert 0 <= d / MicrosPerSecond < SecondsPerDay;
    assert DeltaSeconds(now, timestamp) == d / MicrosPerSecond;
  }

  /** Freshness as written repeats every day: adding a day to the elapsed time changes nothing. */
  lemma {:induction false} FreshRepeatsDaily(timestamp: int, now: int, ttl: int)
    ensures Fresh(timestamp, now + SecondsPerDay * MicrosPerSecond, ttl) <==> Fresh(timestamp, now, ttl)
  {
    var d := now - timestamp;
    var q := d / MicrosPerSecond;
    var m := d % MicrosPerSecond;
    assert d == q * MicrosPerSecond + m && 0 <= m < MicrosPerSecond;
    var d' := d + SecondsPerDay * MicrosPerSecond;
    assert d' == (q + SecondsPerDay) * MicrosPerSecond + m;
    assert d' / MicrosPerSecond == q + SecondsPerDay;
    assert (q + SecondsPerDay) % SecondsPerDay == q % SecondsPerDay;
  }

  /**
   * An entry a day (plus less than its TTL) old is served again: as written, `.seconds`
   * ignores whole days, while its total age is far beyond the TTL.
   */
  lemma DayOldEntryServed(timestamp: int, now: int, ttl: int)
    requires 0 < ttl <= SecondsPerDay
    requires SecondsPerDay * MicrosPerSecond <= now - timestamp < (SecondsPerDay + ttl) * MicrosPerSecond
    ensures Fresh(timestamp, now, ttl)
    ensures !FreshByTotalTime(timestamp, now, ttl)
  {
    var earlier := now - SecondsPerDay * MicrosPerSecond;
    FreshRepeatsDaily(timestamp, earlier, ttl);
    FreshAgreesWithinADay(timestamp, earlier, ttl);
  }

  /** A cache entry: the payload and the `utcnow()` reading when it was stored. */
  datatype Entry<T> = Entry(data: T, timestamp: int)

  /** What `get_cached_data(key, ttl)` returns. */
  function Lookup<T>(m: map<string, Entry<T>>, key: string, ttl: int, now: int): (r: Option<T>)
    ensures r.Some? <==> key in m && Fresh(m[key].timestamp, now, ttl)
    ensures r.Some? ==> r.value == m[key].data
  {
    if key in m && Fresh(m[key].timestamp, now, ttl) then Some(m[key].data) else None
  }

  /** The store after `get_cached_data(key, ttl)`: a stale entry under `key` is deleted. */
  function Expire<T>(m: map<string, Entry<T>>, key: string, ttl: int, now: int): (m': map<string, Entry<T>>)
    ensures m'.Keys == if key in m && !Fresh(m[key].timestamp, now, ttl) then m.Keys - {key} else m.Keys
    ensures forall k :: k in m' ==> m'[k] == m[k]
  {
    if key in m && !Fresh(m[key].timestamp, now, ttl) then m - {key} else m
  }

  /** A value stored at `now` is read back unchanged at `now` exactly when the TTL is positive. */
  lemma SetThenGet<T>(m: map<string, Entry<T>>, key: string, v: T, ttl: int, now: int)
    ensures Lookup(m[key := Entry(v, now)], key, ttl, now) == (if ttl > 0 then Some(v) else None)
  {
    assert DeltaSeconds(now, now) == 0;
  }

  /** The module-level `cache_store` dictionary. */
  class TtlCache<T> {
    var entries: map<string, Entry<T>>

    constructor ()
      ensures entries == map[]
    {
      entries := map[];
    }

    /** `get_cached_data(key, ttl)` at time `now`. */
    method Get(key: string, ttl: int, now: int) returns (r: Option<T>)
      modifies this
      ensures r == Lookup(old(entries), key, ttl, now)
      ensures entries == Expire(old(entries), key, ttl, now)
    {
      if key in entries {
        var cached := entries[key];
        if DeltaSeconds(now, cached.timestamp) < ttl {
          return Some(cached.data);
        } else {
          entries := entries - {key};
        }
      }
      return None;
    }

    /** `set_cache_data(key, data)` at time `now`: overwrites the entry, nothing else changes. */
    method Set(key: string, data: T, now: int)
      modifies this
      ensures entries == old(entries)[key := Entry(data, now)]
    {
      entries := entries[key := Entry(data, now)];
    }
  }
}
