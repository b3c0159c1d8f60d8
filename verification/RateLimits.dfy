/** The fixed-window rate limiter (internal/store/ratelimit.go). Every statement is atomic and reads the clock once. */
module RateLimits {
  import opened Options
  import opened Timeline

  datatype Row = Row(count: nat, start: int)

  type Table = map<string, Row>

  /** Times are in microseconds. */
  const DAY: int := 86_400_000_000

  function Find(t: Table, key: string): Option<Row> {
    if key in t then Some(t[key]) else None
  }

  predicate Expired(r: Row, window: nat, now: int) {
    r.start < now - window
  }

  // ---- the statements on one row ----

  function HitRow(r: Option<Row>, window: nat, now: int): Row {
    if r.None? then Row(1, now)
    else Row(if Expired(r.value, window, now) then 1 else r.value.count + 1,
             if Expired(r.value, window, now) then now else r.value.start)
  }

  function CountRow(r: Option<Row>, window: nat, now: int): nat {
    if r.None? || Expired(r.value, window, now) then 0 else r.value.count
  }

  function CleanRow(r: Option<Row>, now: int): Option<Row> {
    if r.Some? && r.value.start < now - DAY then None else r
  }

  class Limits {
    var rows: Table

    constructor ()
      ensures rows == map[]
    {
      rows := map[];
    }

    method RateHit(key: string, window: nat, now: int) returns (count: nat)
      modifies this
      ensures rows == Step(old(rows), Hit(key, window, now)) && Answer(old(rows), Hit(key, window, now)) == Some(count)
      ensures Answer(old(rows), Count(key, window, now)) == Some(count - 1)
    {
      if key !in rows {
        rows := rows[key := Row(1, now)];
      } else {
        var r := rows[key];
        var expired := r.start < now - window;
        rows := rows[key := Row(if expired then 1 else r.count + 1, if expired then now else r.start)];
      }
      count := rows[key].count;
    }

    method RateCount(key: string, window: nat, now: int) returns (count: nat)
      ensures Answer(rows, Count(key, window, now)) == Some(count)
    {
      count := if key in rows && rows[key].start >= now - window then rows[key].count else 0;
    }

    method DeleteOldRateLimits(now: int)
      modifies this
      ensures rows == Step(old(rows), Clean(now))
    {
      rows := map k | k in rows && !(rows[k].start < now - DAY) :: rows[k];
    }
  }

  // ---- runs ----

  datatype Event = Hit(key: string, window: nat, now: int) | Count(key: string, window: nat, now: int) | Clean(now: int)

  const AT: Event -> int := (e: Event) => e.now

  function Step(t: Table, e: Event): Table {
    match e
    case Hit(key, window, now) => t[key := HitRow(Find(t, key), window, now)]
    case Count(_, _, _) => t
    case Clean(now) => map k | k in t && CleanRow(Some(t[k]), now).Some? :: t[k]
  }

  function Answer(t: Table, e: Event): Option<nat> {
    match e
    case Hit(key, window, now) => Some(HitRow(Find(t, key), window, now).count)
    case Count(key, window, now) => Some(CountRow(Find(t, key), window, now))
    case Clean(_) => None
  }

  function Answers(t: Table, es: seq<Event>): seq<nat>
    decreases |es|
  {
    if es == [] then []
    else
      var a := Answer(t, es[0]);
      (if a.Some? then [a.value] else []) + Answers(Step(t, es[0]), es[1..])
  }

  // ---- cleaning ----

  function WithoutCleans(es: seq<Event>): seq<Event> {
    if es == [] then [] else (if es[0].Clean? then [] else [es[0]]) + WithoutCleans(es[1..])
  }

  ghost predicate WindowsWithin(es: seq<Event>, limit: int) {
    forall e <- es :: !e.Clean? ==> e.window <= limit
  }

  /** What a day's memory sees of a row. */
  function Fresh(r: Option<Row>, now: int): Option<Row> {
    CleanRow(r, now)
  }

  ghost predicate Alike(t: Table, u: Table, now: int) {
    forall k :: Fresh(Find(t, k), now) == Fresh(Find(u, k), now)
  }

  lemma FreshAnswers(r: Option<Row>, window: nat, now: int)
    requires window <= DAY
    ensures HitRow(r, window, now) == HitRow(Fresh(r, now), window, now)
    ensures CountRow(r, window, now) == CountRow(Fresh(r, now), window, now)
  {
  }

  lemma AlikeStep(t: Table, u: Table, e: Event, from: int)
    requires Alike(t, u, from) && e.now >= from && (!e.Clean? ==> e.window <= DAY)
    ensures Answer(t, e) == Answer(u, e) && Alike(Step(t, e), Step(u, e), e.now)
    ensures e.Clean? ==> Alike(Step(t, e), u, e.now)
  {
    forall k ensures Fresh(Find(t, k), e.now) == Fresh(Find(u, k), e.now) {
      assert Fresh(Find(t, k), from) == Fresh(Find(u, k), from);
    }
    if e.Clean? {
      Cleaned(t, e.now);
      Cleaned(u, e.now);
    } else {
      FreshAnswers(Find(t, e.key), e.window, e.now);
      FreshAnswers(Find(u, e.key), e.window, e.now);
      if e.Hit? {
        forall k ensures Fresh(Find(Step(t, e), k), e.now) == Fresh(Find(Step(u, e), k), e.now) {
          if k != e.key {
            assert Find(Step(t, e), k) == Find(t, k) && Find(Step(u, e), k) == Find(u, k);
          }
        }
      }
    }
  }

  lemma Cleaned(t: Table, now: int)
    ensures forall k :: Find(Step(t, Clean(now)), k) == CleanRow(Find(t, k), now)
  {
  }

  lemma {:induction false} CleanUnseen(t: Table, u: Table, es: seq<Event>, from: int)
    requires Alike(t, u, from) && Timed(es, AT, from) && WindowsWithin(es, DAY)
    ensures Answers(t, es) == Answers(u, WithoutCleans(es))
    decreases |es|
  {
    if es != [] {
      var e, rest := es[0], es[1..];
      AlikeStep(t, u, e, from);
      assert WindowsWithin(rest, DAY) by {
        forall x | x in rest ensures x in es {}
      }
      if e.Clean? {
        CleanUnseen(Step(t, e), u, rest, e.now);
        assert WithoutCleans(es) == WithoutCleans(rest);
        assert Answers(t, es) == Answers(Step(t, e), rest);
      } else {
        CleanUnseen(Step(t, e), Step(u, e), rest, e.now);
        var others := WithoutCleans(es);
        assert others[0] == e && others[1..] == WithoutCleans(rest);
        assert Answers(u, others) == [Answer(u, e).value] + Answers(Step(u, e), WithoutCleans(rest));
      }
    }
  }

  ghost predicate SameAnswers(t: Table, es: seq<Event>) {
    Answers(t, es) == Answers(t, WithoutCleans(es))
  }

  ghost predicate CleaningUnseen(limit: nat) {
    forall t: Table, es, from | Timed(es, AT, from) && WindowsWithin(es, limit) :: SameAnswers(t, es)
  }

  /** Deleting old rows changes no later answer, in any run, exactly when no window is longer than a day. */
  lemma CleaningUnseenExactly(limit: nat)
    ensures CleaningUnseen(limit) <==> limit <= DAY
  {
    if limit <= DAY {
      forall t: Table, es, from | Timed(es, AT, from) && WindowsWithin(es, limit) ensures SameAnswers(t, es) {
        CleanUnseen(t, t, es, from);
      }
    } else {
      LongWindow(limit);
    }
  }

  /** A window longer than a day, forgotten before its end. */
  lemma LongWindow(limit: nat)
    requires limit > DAY
    ensures !CleaningUnseen(limit)
  {
    var key := "k";
    var r := Row(1, 0);
    var t: Table := map[key := r];
    var clean, count := Clean(DAY + 1), Count(key, limit, DAY + 1);
    var es := [clean, count];
    assert Timed([count], AT, DAY + 1) && es[1..] == [count];
    assert Timed(es, AT, 0) && WindowsWithin(es, limit);
    assert key !in Step(t, clean);
    assert [count][1..] == [] && WithoutCleans([count]) == [count];
    assert WithoutCleans(es) == [count];
    assert Answers(t, [count]) == [1];
    assert Answers(Step(t, clean), [count]) == [0];
    assert Answers(t, es) == [0];
    assert [0] != [1] && !SameAnswers(t, es);
  }

  // ---- the limit ----

  /** How many hits of the key between two times are told a count of at most max. */
  function Admitted(t: Table, es: seq<Event>, key: string, max: nat, a: int, b: int): nat
    decreases |es|
  {
    if es == [] then 0
    else
      var e := es[0];
      var one := e.Hit? && e.key == key && a <= e.now <= b && HitRow(Find(t, key), e.window, e.now).count <= max;
      (if one then 1 else 0) + Admitted(Step(t, e), es[1..], key, max, a, b)
  }

  ghost predicate OneWindow(es: seq<Event>, key: string, window: nat) {
    forall e <- es :: e.Hit? && e.key == key ==> e.window == window
  }

  ghost predicate Counted(t: Table, key: string) {
    key in t ==> t[key].count >= 1
  }

  function Left(max: nat, count: nat): nat {
    if count < max then max - count else 0
  }

  /** The most hits still admitted: what is left of the window running, and a full one unless it began in the interval. */
  function Most(r: Option<Row>, max: nat, a: int): nat {
    if r.None? then max else if r.value.start >= a then Left(max, r.value.count) else Left(max, r.value.count) + max
  }

  lemma HitMost(r: Option<Row>, window: nat, now: int, max: nat, a: int)
    requires a <= now <= a + window && (r.Some? ==> r.value.count >= 1)
    ensures var h := HitRow(r, window, now); (if h.count <= max then 1 else 0) + Most(Some(h), max, a) <= Most(r, max, a)
  {
  }

  lemma CleanMost(r: Option<Row>, now: int, max: nat, a: int, b: int)
    requires now <= b && b - a <= DAY
    ensures Most(CleanRow(r, now), max, a) <= Most(r, max, a)
  {
  }

  lemma {:induction false} NothingAfter(t: Table, es: seq<Event>, key: string, max: nat, a: int, b: int, from: int)
    requires Timed(es, AT, from) && from > b
    ensures Admitted(t, es, key, max, a, b) == 0
    decreases |es|
  {
    if es != [] {
      NothingAfter(Step(t, es[0]), es[1..], key, max, a, b, es[0].now);
    }
  }

  /** From a moment inside the interval on. */
  lemma {:induction false} AdmittedFrom(t: Table, es: seq<Event>, key: string, window: nat, max: nat, a: int, from: int)
    requires Timed(es, AT, from) && from >= a && window <= DAY && OneWindow(es, key, window) && Counted(t, key)
    ensures Admitted(t, es, key, max, a, a + window) <= Most(Find(t, key), max, a)
    decreases |es|
  {
    if es != [] {
      var e, rest := es[0], es[1..];
      if e.now > a + window {
        NothingAfter(t, es, key, max, a, a + window, e.now);
      } else {
        assert OneWindow(rest, key, window) by {
          forall x | x in rest ensures x in es {}
        }
        AdmittedFrom(Step(t, e), rest, key, window, max, a, e.now);
        if e.Hit? && e.key == key {
          HitMost(Find(t, key), window, e.now, max, a);
        } else if e.Clean? {
          CleanMost(Find(t, key), e.now, max, a, a + window);
          assert Find(Step(t, e), key) == CleanRow(Find(t, key), e.now);
        }
      }
    }
  }

  lemma {:induction false} AdmittedAtMost(t: Table, es: seq<Event>, key: string, window: nat, max: nat, a: int, from: int)
    requires Timed(es, AT, from) && window <= DAY && OneWindow(es, key, window) && max >= 1
    requires Counted(t, key) && (key in t ==> t[key].start <= from)
    ensures Admitted(t, es, key, max, a, a + window) <= 2 * max - 1
    decreases |es|
  {
    if es != [] {
      var e, rest := es[0], es[1..];
      if e.now >= a {
        AdmittedFrom(t, es, key, window, max, a, e.now);
      } else {
        assert OneWindow(rest, key, window) by {
          forall x | x in rest ensures x in es {}
        }
        AdmittedAtMost(Step(t, e), rest, key, window, max, a, e.now);
      }
    }
  }

  /** The limit over any run: no closed interval as long as the window holds more than 2 max - 1 admitted hits. */
  lemma RateLimited(es: seq<Event>, key: string, window: nat, max: nat, a: int, from: int)
    requires Timed(es, AT, from) && window <= DAY && OneWindow(es, key, window) && max >= 1
    ensures Admitted(map[], es, key, max, a, a + window) <= 2 * max - 1
  {
    AdmittedAtMost(map[], es, key, window, max, a, from);
  }

  // ---- the limit is reached ----

  function Hits(key: string, window: nat, now: int, n: nat): (r: seq<Event>)
    ensures |r| == n && forall i :: 0 <= i < n ==> r[i] == Hit(key, window, now)
  {
    seq(n, i => Hit(key, window, now))
  }

  /** One hit, the rest of its window at its very end, and a full window just after. */
  function Burst(key: string, window: nat, max: nat): seq<Event>
    requires max >= 1
  {
    Hits(key, window, 0, 1) + Hits(key, window, window, max - 1) + Hits(key, window, window + 1, max)
  }

  lemma {:induction false} HitsTimed(key: string, window: nat, now: int, n: nat, rest: seq<Event>)
    requires rest == [] || Timed(rest, AT, now)
    ensures Timed(Hits(key, window, now, n) + rest, AT, now)
  {
    var es := Hits(key, window, now, n) + rest;
    if n == 0 {
      assert es == rest;
    } else {
      HitsTimed(key, window, now, n - 1, rest);
      assert es[1..] == Hits(key, window, now, n - 1) + rest;
    }
  }

  lemma {:induction false} LaterTimed(es: seq<Event>, from: int, earlier: int)
    requires Timed(es, AT, from) && earlier <= from
    ensures Timed(es, AT, earlier)
  {
  }

  /** n hits at one moment within a running window are all admitted as long as they fit. */
  lemma {:induction false} HitsAdmitted(t: Table, key: string, window: nat, now: int, n: nat, rest: seq<Event>, max: nat, a: int, b: int)
    requires key in t && t[key].count + n <= max && !Expired(t[key], window, now)
    ensures var es := Hits(key, window, now, n) + rest;
      Admitted(t, es, key, max, a, b)
      == (if a <= now <= b then n else 0) + Admitted(t[key := Row(t[key].count + n, t[key].start)], rest, key, max, a, b)
    decreases n
  {
    var es := Hits(key, window, now, n) + rest;
    if n == 0 {
      assert es == rest && t[key := t[key]] == t;
    } else {
      var t2 := Step(t, es[0]);
      assert es[1..] == Hits(key, window, now, n - 1) + rest;
      HitsAdmitted(t2, key, window, now, n - 1, rest, max, a, b);
      assert t2[key := Row(t[key].count + n, t[key].start)] == t[key := Row(t[key].count + n, t[key].start)];
    }
  }

  /** Hits that begin a window of their own. */
  lemma {:induction false} FirstHitsAdmitted(t: Table, key: string, window: nat, now: int, n: nat, rest: seq<Event>, max: nat, a: int, b: int)
    requires 1 <= n <= max && (key in t ==> Expired(t[key], window, now))
    ensures var es := Hits(key, window, now, n) + rest;
      Admitted(t, es, key, max, a, b)
      == (if a <= now <= b then n else 0) + Admitted(t[key := Row(n, now)], rest, key, max, a, b)
  {
    var es := Hits(key, window, now, n) + rest;
    var t2 := Step(t, es[0]);
    assert t2 == t[key := Row(1, now)];
    assert es[1..] == Hits(key, window, now, n - 1) + rest;
    HitsAdmitted(t2, key, window, now, n - 1, rest, max, a, b);
    assert t2[key := Row(n, now)] == t[key := Row(n, now)];
  }

  /** The bound is reached for every limit and every window. */
  lemma {:induction false} LimitReached(key: string, window: nat, max: nat)
    requires max >= 1 && window >= 1
    ensures var es := Burst(key, window, max);
      Timed(es, AT, 0) && OneWindow(es, key, window) && Admitted(map[], es, key, max, 1, 1 + window) == 2 * max - 1
  {
    var last := Hits(key, window, window + 1, max) + [];
    var middle := Hits(key, window, window, max - 1) + last;
    var es := Burst(key, window, max);
    assert es == Hits(key, window, 0, 1) + middle;
    HitsTimed(key, window, window + 1, max, []);
    LaterTimed(last, window + 1, window);
    HitsTimed(key, window, window, max - 1, last);
    LaterTimed(middle, window, 0);
    HitsTimed(key, window, 0, 1, middle);
    var t1: Table := map[][key := Row(1, 0)];
    var t2 := t1[key := Row(max, 0)];
    FirstHitsAdmitted(map[], key, window, 0, 1, middle, max, 1, 1 + window);
    HitsAdmitted(t1, key, window, window, max - 1, last, max, 1, 1 + window);
    FirstHitsAdmitted(t2, key, window, window + 1, max, [], max, 1, 1 + window);
  }
}
