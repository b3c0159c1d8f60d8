/** The least-recently-used cache of terrain tiles (internal/dem/cache.go). */
module TileCache {

  import opened Options
  import opened GoMath
  import opened Hgt

  // ---- recency ----

  function Without(s: seq<string>, x: string): (r: seq<string>)
    ensures x !in r && |r| <= |s|
    ensures forall y :: y in r <==> y in s && y != x
  {
    if s == [] then [] else if s[0] == x then Without(s[1..], x) else [s[0]] + Without(s[1..], x)
  }

  function Touch(s: seq<string>, x: string): seq<string> {
    [x] + Without(s, x)
  }

  function First<T>(s: seq<T>, n: nat): seq<T> {
    if |s| <= n then s else s[..n]
  }

  /** The names fetched with success, each once, the one asked for last in front. */
  /** The names called, each once, the one called last in front. */
  function Recency(calls: seq<string>): seq<string> {
    if calls == [] then [] else Touch(Recency(calls[..|calls| - 1]), calls[|calls| - 1])
  }

  ghost predicate Distinct(s: seq<string>) {
    forall i, j :: 0 <= i < j < |s| ==> s[i] != s[j]
  }

  /** The last call for x is call k. */
  ghost predicate LastCall(history: seq<string>, x: string, k: int) {
    0 <= k < |history| && history[k] == x && forall j :: k < j < |history| ==> history[j] != x
  }

  ghost predicate AskedAfter(history: seq<string>, x: string, y: string) {
    forall k, l :: LastCall(history, x, k) && LastCall(history, y, l) ==> k > l
  }

  ghost predicate InOrder(s: seq<string>, x: string, y: string) {
    exists i, j :: 0 <= i < j < |s| && s[i] == x && s[j] == y
  }

  lemma {:induction false} WithoutKeepsOrder(s: seq<string>, x: string, i: nat, j: nat)
    requires i < j < |Without(s, x)|
    ensures InOrder(s, Without(s, x)[i], Without(s, x)[j])
  {
    var t := s[1..];
    var d := if s[0] == x then 0 else 1;
    if d == 1 && i == 0 {
      assert Without(t, x)[j - 1] in t;
      var b :| 0 <= b < |t| && t[b] == Without(t, x)[j - 1];
      assert s[b + 1] == t[b];
    } else {
      WithoutKeepsOrder(t, x, i - d, j - d);
      var a, b :| 0 <= a < b < |t| && t[a] == Without(t, x)[i - d] && t[b] == Without(t, x)[j - d];
      assert s[a + 1] == t[a] && s[b + 1] == t[b];
    }
  }

  lemma {:induction false} WithoutDistinct(s: seq<string>, x: string)
    requires Distinct(s)
    ensures Distinct(Without(s, x))
  {
    forall i, j | 0 <= i < j < |Without(s, x)| ensures Without(s, x)[i] != Without(s, x)[j] {
      WithoutKeepsOrder(s, x, i, j);
    }
  }

  /** What recency means: exactly the names called, once each, in the order of their last calls. */
  lemma {:induction false} RecencyIs(calls: seq<string>)
    ensures Distinct(Recency(calls))
    ensures forall x :: x in Recency(calls) <==> x in calls
    ensures forall y, z :: InOrder(Recency(calls), y, z) ==> AskedAfter(calls, y, z)
  {
    if calls != [] {
      var n := |calls| - 1;
      var h, x := calls[..n], calls[n];
      var before, r := Recency(h), Recency(calls);
      RecencyIs(h);
      assert calls == h + [x];
      WithoutDistinct(before, x);
      hide LastCall, AskedAfter, InOrder, Without;
      forall y, z | InOrder(r, y, z) ensures AskedAfter(calls, y, z) {
        TouchOrder(before, h, x, y, z);
      }
    }
  }

  lemma TouchOrder(before: seq<string>, h: seq<string>, x: string, y: string, z: string)
    requires Distinct(before) && InOrder(Touch(before, x), y, z)
    requires forall y, z :: InOrder(before, y, z) ==> AskedAfter(h, y, z)
    ensures AskedAfter(h + [x], y, z)
  {
    var r, w := Touch(before, x), Without(before, x);
    var i, j :| 0 <= i < j < |r| && r[i] == y && r[j] == z;
    assert z == w[j - 1] && z in w;
    if i > 0 {
      assert y == w[i - 1] && y in w;
      WithoutKeepsOrder(before, x, i - 1, j - 1);
      StillAfter(h, x, y, z);
    } else {
      LaterCall(h, x, z);
    }
  }

  lemma LaterCall(h: seq<string>, x: string, z: string)
    requires x != z
    ensures AskedAfter(h + [x], x, z)
  {
    forall k | LastCall(h + [x], x, k) ensures k == |h| {
      assert (h + [x])[|h|] == x;
    }
  }

  lemma StillAfter(h: seq<string>, x: string, y: string, z: string)
    requires AskedAfter(h, y, z) && x != y && x != z
    ensures AskedAfter(h + [x], y, z)
  {
    forall k, l | LastCall(h + [x], y, k) && LastCall(h + [x], z, l) ensures k > l {
      assert (h + [x])[|h|] == x;
      forall j | k < j < |h| ensures h[j] != y { assert (h + [x])[j] == h[j]; }
      forall j | l < j < |h| ensures h[j] != z { assert (h + [x])[j] == h[j]; }
      assert LastCall(h, y, k) && LastCall(h, z, l);
    }
  }

  lemma {:induction false} FirstWithout(s: seq<string>, x: string, n: nat)
    requires Distinct(s) && n > 0
    ensures First(Without(First(s, n), x), n - 1) == First(Without(s, x), n - 1)
    ensures x !in First(s, n) ==> Without(First(s, n), x) == First(s, n)
    ensures x in First(s, n) ==> Without(First(s, n), x) == First(Without(s, x), n - 1)
    decreases |s|
  {
    WithoutAbsent(First(s, n), x);
    if |s| > n {
      assert s == s[..n] + s[n..];
      WithoutConcat(s[..n], s[n..], x);
      WithoutAbsent(s[n..], x);
      if x in s[..n] {
        WithoutLength(s[..n], x);
        assert x !in s[n..];
      }
    } else if x in s {
      WithoutLength(s, x);
    }
  }

  lemma {:induction false} WithoutAbsent(s: seq<string>, x: string)
    ensures x !in s ==> Without(s, x) == s
  {
    if s != [] && x !in s {
      WithoutAbsent(s[1..], x);
    }
  }

  lemma {:induction false} WithoutConcat(s: seq<string>, t: seq<string>, x: string)
    ensures Without(s + t, x) == Without(s, x) + Without(t, x)
  {
    if s == [] {
      assert s + t == t;
    } else {
      assert (s + t)[1..] == s[1..] + t;
      WithoutConcat(s[1..], t, x);
    }
  }

  lemma {:induction false} WithoutLength(s: seq<string>, x: string)
    requires Distinct(s) && x in s
    ensures |Without(s, x)| == |s| - 1
  {
    if s[0] == x {
      WithoutAbsent(s[1..], x);
    } else {
      WithoutLength(s[1..], x);
    }
  }

  /** A call for x keeps the front of the list right: what the cache does is what recency does. */
  lemma {:induction false} TouchFirst(s: seq<string>, x: string, n: nat)
    requires Distinct(s) && n > 0
    ensures First(Touch(s, x), n) == [x] + First(Without(s, x), n - 1)
    ensures x in First(s, n) ==> First(Touch(s, x), n) == Touch(First(s, n), x)
    ensures x !in First(s, n) ==> First(Touch(s, x), n) == First([x] + First(s, n), n)
  {
    FirstWithout(s, x, n);
  }

  // ---- a cache over its calls ----

  /** A call for a name, and what load would answer at that moment; it is asked on a miss only. */
  datatype Call = Call(name: string, loaded: Option<Tile>)

  datatype Entry = Entry(name: string, tile: Tile)

  function Names(es: seq<Entry>): (r: seq<string>)
    ensures |r| == |es| && forall i :: 0 <= i < |es| ==> r[i] == es[i].name
  {
    seq(|es|, i requires 0 <= i < |es| => es[i].name)
  }

  function Position(es: seq<Entry>, name: string): (i: nat)
    requires name in Names(es)
    ensures i < |es| && es[i].name == name
  {
    if es[0].name == name then 0
    else
      assert Names(es)[1..] == Names(es[1..]);
      1 + Position(es[1..], name)
  }

  function ToFront(es: seq<Entry>, i: nat): seq<Entry>
    requires i < |es|
  {
    [es[i]] + (es[..i] + es[i + 1..])
  }

  /** What a call makes of the list of a cache of n tiles. */
  function Next(es: seq<Entry>, c: Call, n: nat): seq<Entry> {
    if c.name in Names(es) then ToFront(es, Position(es, c.name))
    else if c.loaded.Some? then First([Entry(c.name, c.loaded.value)] + es, n)
    else es
  }

  function Held(history: seq<Call>, n: nat): seq<Entry> {
    if history == [] then [] else Next(Held(history[..|history| - 1], n), history[|history| - 1], n)
  }

  predicate Hits(es: seq<Entry>, c: Call) {
    c.name in Names(es)
  }

  /** The names of the calls that were answered with a tile, from the cache or by load. */
  function Answered(history: seq<Call>, n: nat): seq<string> {
    if history == [] then []
    else
      var k := |history| - 1;
      var c := history[k];
      Answered(history[..k], n) + if Hits(Held(history[..k], n), c) || c.loaded.Some? then [c.name] else []
  }

  /** The same on names alone. */
  function Ask(s: seq<string>, x: string, ok: bool, n: nat): seq<string> {
    if x in s then Touch(s, x) else if ok then First([x] + s, n) else s
  }

  lemma {:induction false} RemoveAt(s: seq<string>, i: nat)
    requires Distinct(s) && i < |s|
    ensures s[..i] + s[i + 1..] == Without(s, s[i])
  {
    if i == 0 {
      WithoutAbsent(s[1..], s[0]);
    } else {
      RemoveAt(s[1..], i - 1);
      assert s[0] != s[i];
      assert s[..i] + s[i + 1..] == [s[0]] + (s[1..][..i - 1] + s[1..][i..]);
    }
  }

  lemma NamesToFront(es: seq<Entry>, i: nat)
    requires Distinct(Names(es)) && i < |es|
    ensures Names(ToFront(es, i)) == Touch(Names(es), es[i].name)
  {
    var held := Names(es);
    RemoveAt(held, i);
    hide Names, Without, Distinct;
    assert Names(ToFront(es, i)) == [es[i].name] + (held[..i] + held[i + 1..]);
  }

  lemma NextNames(es: seq<Entry>, c: Call, n: nat)
    requires Distinct(Names(es))
    ensures Names(Next(es, c, n)) == Ask(Names(es), c.name, c.loaded.Some?, n)
  {
    if Hits(es, c) {
      NamesToFront(es, Position(es, c.name));
    } else if c.loaded.Some? {
      assert Names([Entry(c.name, c.loaded.value)] + es) == [c.name] + Names(es);
    }
  }

  /** After any calls the list holds exactly the most recent n of the names whose calls were answered. */
  lemma {:induction false} HeldIsRecent(history: seq<Call>, n: nat)
    requires n >= 1
    ensures Names(Held(history, n)) == First(Recency(Answered(history, n)), n)
    ensures Distinct(Names(Held(history, n)))
  {
    RecencyIs(Answered(history, n));
    if history != [] {
      var k := |history| - 1;
      var c, es, calls := history[k], Held(history[..k], n), Answered(history[..k], n);
      HeldIsRecent(history[..k], n);
      RecencyIs(calls);
      NextNames(es, c, n);
      hide Names, Next, Recency, Distinct, First;
      if Hits(es, c) || c.loaded.Some? {
        var all := calls + [c.name];
        assert all[..|all| - 1] == calls;
        RecencyAdds(calls, c.name);
        TouchFirst(Recency(calls), c.name, n);
      } else {
        assert Answered(history, n) == calls;
      }
    }
  }

  lemma {:induction false} RecencyAdds(calls: seq<string>, x: string)
    ensures Recency(calls + [x]) == Touch(Recency(calls), x)
  {
    var all := calls + [x];
    assert all[..|all| - 1] == calls;
  }

  /** Call k loads the tile of that name. */
  ghost predicate Loads(history: seq<Call>, n: nat, k: int, name: string) {
    0 <= k < |history| && history[k].name == name && history[k].loaded.Some? && !Hits(Held(history[..k], n), history[k])
  }

  ghost predicate LastLoad(history: seq<Call>, n: nat, k: int, name: string) {
    Loads(history, n, k, name) && forall j :: k < j < |history| ==> !Loads(history, n, j, name)
  }

  /** A tile in the cache is the one that its last load answered. */
  lemma {:induction false} HeldIsLoaded(history: seq<Call>, n: nat, e: Entry) returns (k: nat)
    requires e in Held(history, n) && n >= 1
    ensures LastLoad(history, n, k, e.name) && history[k].loaded == Some(e.tile)
  {
    var last := |history| - 1;
    var h, c := history[..last], history[last];
    HeldIsRecent(h, n);
    NextKeeps(Held(h, n), c, n, e);
    if e in Held(h, n) && (c.name != e.name || Hits(Held(h, n), c)) {
      k := HeldIsLoaded(h, n, e);
      assert history == h + [c];
      LastLoadStays(h, c, n, k, e.name);
    } else {
      k := last;
    }
  }

  lemma {:induction false} LastLoadStays(h: seq<Call>, c: Call, n: nat, k: nat, name: string)
    requires LastLoad(h, n, k, name) && (c.name != name || Hits(Held(h, n), c))
    ensures LastLoad(h + [c], n, k, name)
  {
    hide Held, Hits;
    var all := h + [c];
    assert all[..|h|] == h && all[..k] == h[..k];
    forall j | k < j < |all| ensures !Loads(all, n, j, name) {
      if j < |h| {
        assert all[..j] == h[..j] && all[j] == h[j] && !Loads(h, n, j, name);
      }
    }
  }

  lemma NextKeeps(es: seq<Entry>, c: Call, n: nat, e: Entry)
    requires e in Next(es, c, n)
    ensures e in es || (c == Call(e.name, Some(e.tile)) && !Hits(es, c))
    ensures e in es ==> e.name in Names(es)
  {
    if e in es {
      var i :| 0 <= i < |es| && es[i] == e;
      assert Names(es)[i] == e.name;
    }
  }

  /** Every tile load ever answered is the one in the files; errors may come and go. */
  ghost predicate Steady(history: seq<Call>, files: string -> Option<Tile>) {
    forall i :: 0 <= i < |history| && history[i].loaded.Some? ==> history[i].loaded == files(history[i].name)
  }

  /** Then so is every tile in the cache. */
  lemma {:induction false} HeldIsSteady(history: seq<Call>, n: nat, files: string -> Option<Tile>)
    requires Steady(history, files) && n >= 1
    ensures forall e :: e in Held(history, n) ==> files(e.name) == Some(e.tile)
  {
    forall e | e in Held(history, n) ensures files(e.name) == Some(e.tile) {
      var k := HeldIsLoaded(history, n, e);
    }
  }

  // ---- caches of different sizes ----

  /** What a smaller cache of n tiles holds, the larger one holds in the same order; while the smaller has room, they are alike. */
  ghost predicate Covers(large: seq<string>, small: seq<string>, n: nat) {
    && Distinct(small) && Distinct(large) && |small| <= n
    && (forall y :: y in small ==> y in large)
    && (forall y, z :: InOrder(small, y, z) ==> InOrder(large, y, z))
    && (|small| < n ==> forall y :: y in large ==> y in small)
  }

  lemma TouchedOrder(s: seq<string>, x: string, y: string, z: string)
    requires InOrder(Touch(s, x), y, z) && z != x
    ensures (y == x && z in s) || InOrder(s, y, z)
  {
    var w, t := Without(s, x), Touch(s, x);
    var i, j :| 0 <= i < j < |t| && t[i] == y && t[j] == z;
    assert w[j - 1] == z;
    if i > 0 {
      assert w[i - 1] == y;
      WithoutKeepsOrder(s, x, i - 1, j - 1);
    }
  }

  lemma TouchFirstOrder(s: seq<string>, x: string, z: string)
    requires z in s && z != x
    ensures InOrder(Touch(s, x), x, z)
  {
    var w, t := Without(s, x), Touch(s, x);
    var j :| 0 <= j < |w| && w[j] == z;
    assert t[0] == x && t[j + 1] == z;
  }

  lemma TouchKeepsOrder(s: seq<string>, x: string, y: string, z: string)
    requires InOrder(s, y, z) && y != x && z != x
    ensures InOrder(Touch(s, x), y, z)
  {
    var w, t := Without(s, x), Touch(s, x);
    WithoutOrder(s, x, y, z);
    var i, j :| 0 <= i < j < |w| && w[i] == y && w[j] == z;
    assert t[i + 1] == y && t[j + 1] == z;
  }

  lemma {:induction false} WithoutOrder(s: seq<string>, x: string, y: string, z: string)
    requires InOrder(s, y, z) && y != x && z != x
    ensures InOrder(Without(s, x), y, z)
  {
    var i, j :| 0 <= i < j < |s| && s[i] == y && s[j] == z;
    var t, w := s[1..], Without(s, x);
    if i == 0 {
      assert t[j - 1] == z && z in Without(t, x);
      var k :| 0 <= k < |Without(t, x)| && Without(t, x)[k] == z;
      assert w[0] == y && w[k + 1] == z;
    } else {
      assert t[i - 1] == y && t[j - 1] == z;
      WithoutOrder(t, x, y, z);
      var a, b :| 0 <= a < b < |Without(t, x)| && Without(t, x)[a] == y && Without(t, x)[b] == z;
      var d := if s[0] == x then 0 else 1;
      assert w[a + d] == y && w[b + d] == z;
    }
  }

  lemma TouchSize(s: seq<string>, x: string)
    requires Distinct(s)
    ensures Distinct(Touch(s, x)) && |Touch(s, x)| == |s| + if x in s then 0 else 1
  {
    WithoutDistinct(s, x);
    if x in s {
      WithoutLength(s, x);
    } else {
      WithoutAbsent(s, x);
    }
  }

  lemma AskTouches(s: seq<string>, x: string, ok: bool, n: nat)
    requires Distinct(s) && |s| <= n && n >= 1
    ensures x in s || ok ==> Ask(s, x, ok, n) == First(Touch(s, x), n)
  {
    TouchSize(s, x);
    WithoutAbsent(s, x);
  }

  lemma NoRoomForMore(s: seq<string>, t: seq<string>)
    requires Distinct(s) && forall y :: y in s ==> y in t
    ensures |s| <= |t|
  {
    var a, b := set y | y in s, set y | y in t;
    DistinctSize(s);
    SetSize(t);
    assert a <= b && b == a + (b - a);
  }

  lemma {:induction false} DistinctSize(s: seq<string>)
    requires Distinct(s)
    ensures |set y | y in s| == |s|
  {
    if s != [] {
      var n := |s| - 1;
      DistinctSize(s[..n]);
      assert s == s[..n] + [s[n]];
      assert (set y | y in s) == (set y | y in s[..n]) + {s[n]};
    }
  }

  lemma {:induction false} SetSize(s: seq<string>)
    ensures |set y | y in s| <= |s|
  {
    if s != [] {
      var n := |s| - 1;
      SetSize(s[..n]);
      assert s == s[..n] + [s[n]];
      assert (set y | y in s) == (set y | y in s[..n]) + {s[n]};
    }
  }

  lemma TouchBoth(large: seq<string>, small: seq<string>, x: string, n: nat)
    requires Covers(large, small, n)
    ensures forall y, z :: InOrder(Touch(small, x), y, z) ==> InOrder(Touch(large, x), y, z)
    ensures forall y :: y in Touch(small, x) ==> y in Touch(large, x)
    ensures |small| < n ==> forall y :: y in Touch(large, x) ==> y in Touch(small, x)
  {
    TouchSize(small, x);
    forall y, z | InOrder(Touch(small, x), y, z) ensures InOrder(Touch(large, x), y, z) {
      HeadIsFirst(small, x, y, z);
      TouchedOrder(small, x, y, z);
      if y == x {
        TouchFirstOrder(large, x, z);
      } else {
        TouchKeepsOrder(large, x, y, z);
      }
    }
  }

  lemma HeadIsFirst(s: seq<string>, x: string, y: string, z: string)
    requires InOrder(Touch(s, x), y, z)
    ensures z != x && (y == x ==> z in s) && y in Touch(s, x)
  {
    var t := Touch(s, x);
    var i, j :| 0 <= i < j < |t| && t[i] == y && t[j] == z;
    assert t[j] == Without(s, x)[j - 1];
  }

  /** What falls out of the larger list was the last of the smaller one, if it was in it. */
  lemma CutCovers(large: seq<string>, small: seq<string>, n: nat, m: nat)
    requires Distinct(large) && Distinct(small) && 1 <= n <= m
    requires forall y :: y in small ==> y in large
    requires forall y, z :: InOrder(small, y, z) ==> InOrder(large, y, z)
    requires |large| <= m + 1 && |small| <= n + 1 && (|large| > m ==> |small| > n)
    requires |small| < n ==> forall y :: y in large ==> y in small
    ensures Covers(First(large, m), First(small, n), n)
  {
    var l, s := First(large, m), First(small, n);
    FirstDistinct(large, m);
    FirstDistinct(small, n);
    forall y | y in s ensures y in l {
      CutMember(large, small, n, m, y);
    }
    forall y, z | InOrder(s, y, z) ensures InOrder(l, y, z) {
      CutOrder(small, n, y, z);
      KeptOrder(large, m, y, z);
    }
  }

  lemma FirstDistinct(s: seq<string>, n: nat)
    requires Distinct(s)
    ensures Distinct(First(s, n)) && forall y :: y in First(s, n) ==> y in s
  {
  }

  lemma CutMember(large: seq<string>, small: seq<string>, n: nat, m: nat, y: string)
    requires Distinct(large) && Distinct(small) && y in First(small, n) && y in large
    requires forall y, z :: InOrder(small, y, z) ==> InOrder(large, y, z)
    requires |large| <= m + 1 && |small| <= n + 1 && (|large| > m ==> |small| > n)
    ensures y in First(large, m)
  {
    if |large| > m {
      assert InOrder(small, y, small[n]);
      assert InOrder(large, y, small[n]);
      var i, j :| 0 <= i < j < |large| && large[i] == y && large[j] == small[n];
      assert large[..m][i] == y;
    }
  }

  lemma CutOrder(s: seq<string>, n: nat, y: string, z: string)
    requires InOrder(First(s, n), y, z)
    ensures InOrder(s, y, z) && y in First(s, n) && z in First(s, n)
  {
    var i, j :| 0 <= i < j < |First(s, n)| && First(s, n)[i] == y && First(s, n)[j] == z;
    assert s[i] == y && s[j] == z;
  }

  lemma KeptOrder(s: seq<string>, n: nat, y: string, z: string)
    requires Distinct(s) && InOrder(s, y, z) && z in First(s, n)
    ensures InOrder(First(s, n), y, z)
  {
    var i, j :| 0 <= i < j < |s| && s[i] == y && s[j] == z;
    var k :| 0 <= k < |First(s, n)| && First(s, n)[k] == z;
    assert s[k] == z;
    assert First(s, n)[i] == y;
  }

  /** One call to both caches, whatever load answers. */
  lemma AskCovers(large: seq<string>, small: seq<string>, x: string, ok: bool, n: nat, m: nat)
    requires Covers(large, small, n) && 1 <= n <= m && |large| <= m
    ensures Covers(Ask(large, x, ok, m), Ask(small, x, ok, n), n) && |Ask(large, x, ok, m)| <= m
  {
    AskTouches(large, x, ok, m);
    AskTouches(small, x, ok, n);
    TouchSize(large, x);
    TouchSize(small, x);
    TouchBoth(large, small, x, n);
    if x in small || ok {
      if |small| < n {
        NoRoomForMore(large, small);
      }
      CutCovers(Touch(large, x), Touch(small, x), n, m);
    } else if x in large {
      forall y, z | InOrder(small, y, z) ensures InOrder(Touch(large, x), y, z) {
        OrderedIn(small, y, z);
        TouchKeepsOrder(large, x, y, z);
      }
    }
  }

  lemma OrderedIn(s: seq<string>, y: string, z: string)
    requires InOrder(s, y, z)
    ensures y in s && z in s
  {
  }

  /** The calls of the history that a cache of n tiles passes to load. */
  function Misses(history: seq<Call>, n: nat): nat {
    if history == [] then 0
    else
      var k := |history| - 1;
      Misses(history[..k], n) + if Hits(Held(history[..k], n), history[k]) then 0 else 1
  }

  /**
   * A larger cache always holds what a smaller one does, in the same order, and never misses more, on any calls and
   * whatever load answers to each of them.
   */
  lemma {:induction false} LargerMissesNoMore(history: seq<Call>, n: nat, m: nat)
    requires 1 <= n <= m
    ensures Covers(Names(Held(history, m)), Names(Held(history, n)), n)
    ensures Misses(history, m) <= Misses(history, n)
  {
    HeldIsRecent(history, m);
    if history != [] {
      var k := |history| - 1;
      var h, c := history[..k], history[k];
      LargerMissesNoMore(h, n, m);
      HeldIsRecent(h, m);
      HeldIsRecent(h, n);
      NextNames(Held(h, m), c, m);
      NextNames(Held(h, n), c, n);
      AskCovers(Names(Held(h, m)), Names(Held(h, n)), c.name, c.loaded.Some?, n, m);
    }
  }

  // ---- the program ----

  /** The map finds the entries of the list by their names. */
  ghost predicate Indexed(tiles: map<string, Entry>, lru: seq<Entry>) {
    && Distinct(Names(lru))
    && (forall i :: 0 <= i < |lru| ==> lru[i].name in tiles && tiles[lru[i].name] == lru[i])
    && (forall x <- tiles :: x in Names(lru))
  }

  ghost predicate GoodTiles(lru: seq<Entry>) {
    forall i :: 0 <= i < |lru| ==> lru[i].tile.Valid()
  }

  lemma FrontIndexed(tiles: map<string, Entry>, lru: seq<Entry>, i: nat)
    requires Indexed(tiles, lru) && GoodTiles(lru) && i < |lru|
    ensures Indexed(tiles, ToFront(lru, i)) && GoodTiles(ToFront(lru, i))
  {
    var front := ToFront(lru, i);
    NamesToFront(lru, i);
    WithoutDistinct(Names(lru), lru[i].name);
    assert Distinct(Names(front));
    hide Names, Without, Distinct;
    forall k | 0 <= k < |front| ensures front[k] in lru {
      assert front[k] == if k == 0 then lru[i] else if k <= i then lru[k - 1] else lru[k];
    }
    forall x | x in tiles ensures x in Names(front) {
      assert x in Names(lru);
    }
  }

  lemma PushedIndexed(tiles: map<string, Entry>, lru: seq<Entry>, e: Entry)
    requires Indexed(tiles, lru) && GoodTiles(lru) && e.name !in tiles && e.tile.Valid()
    ensures Indexed(tiles[e.name := e], [e] + lru) && GoodTiles([e] + lru)
  {
    assert Names([e] + lru) == [e.name] + Names(lru);
  }

  lemma LastDropped(tiles: map<string, Entry>, lru: seq<Entry>)
    requires Indexed(tiles, lru) && GoodTiles(lru) && lru != []
    ensures var n := |lru| - 1; Indexed(tiles - {lru[n].name}, lru[..n]) && GoodTiles(lru[..n])
  {
    var n := |lru| - 1;
    var held := Names(lru);
    assert Names(lru[..n]) == held[..n];
    forall x | x in tiles && x != lru[n].name ensures x in held[..n] {
      assert held == held[..n] + [held[n]];
    }
  }

  lemma {:induction false} FoundByName(tiles: map<string, Entry>, lru: seq<Entry>, name: string)
    requires Indexed(tiles, lru) && GoodTiles(lru)
    ensures name in tiles <==> name in Names(lru)
    ensures name in tiles ==> tiles[name] == lru[Position(lru, name)] && tiles[name].tile.Valid()
  {
  }

  /** The list is what the calls make of it, and the map finds each of its entries. */
  ghost predicate Holds(tiles: map<string, Entry>, lru: seq<Entry>, history: seq<Call>, n: nat) {
    lru == Held(history, n) && Indexed(tiles, lru) && GoodTiles(lru)
  }

  lemma HoldsTile(tiles: map<string, Entry>, lru: seq<Entry>, history: seq<Call>, n: nat, name: string)
    requires Holds(tiles, lru, history, n)
    ensures name in tiles ==> tiles[name].tile.Valid()
  {
    FoundByName(tiles, lru, name);
  }

  lemma ErrorHolds(tiles: map<string, Entry>, lru: seq<Entry>, history: seq<Call>, n: nat, c: Call)
    requires Holds(tiles, lru, history, n) && c.name !in tiles && c.loaded.None?
    ensures Holds(tiles, lru, history + [c], n)
  {
    FoundByName(tiles, lru, c.name);
    HeldNext(history, c, n);
  }

  class Cache {
    const max: nat
    var tiles: map<string, Entry>
    var lru: seq<Entry>
    var spacing: real
    /** Every call ever made. */
    ghost var history: seq<Call>

    ghost predicate Valid()
      reads this
    {
      max >= 1 && Holds(tiles, lru, history, max)
    }

    constructor (maxTiles: int)
      ensures Valid() && history == [] && max == (if maxTiles < 1 then 1 else maxTiles)
      ensures spacing == DEFAULT_SPACING
    {
      max := if maxTiles < 1 then 1 else maxTiles;
      tiles, lru, spacing, history := map[], [], DEFAULT_SPACING, [];
    }

    /**
     * The tile of that name: the one held, or else the answer of load at this moment, which is kept and puts out the
     * least recently used one. An error changes nothing.
     */
    method Get(name: string, load: string -> Option<Tile>) returns (tile: Option<Tile>)
      requires Valid() && (load(name).Some? ==> load(name).value.Valid())
      modifies this
      ensures Valid() && history == old(history) + [Call(name, load(name))]
      ensures tile == if name in old(tiles) then Some(old(tiles)[name].tile) else load(name)
      ensures tile.Some? ==> tile.value.Valid()
      ensures tile.None? ==> lru == old(lru) && tiles == old(tiles)
      ensures spacing == if name !in old(tiles) && tile.Some? then tile.value.Spacing() else old(spacing)
    {
      hide Holds, Tile.Spacing;
      ghost var c := Call(name, load(name));
      HoldsTile(tiles, lru, history, max, name);
      if name in tiles {
        var held := Hit(name, c);
        tile := Some(held);
      } else {
        tile := load(name);
        if tile.Some? {
          spacing := tile.value.Spacing();
          Push(c, Entry(name, tile.value));
        } else {
          ErrorHolds(tiles, lru, history, max, c);
        }
      }
      history := history + [c];
    }

    /** An entry moves to the front. */
    method Hit(name: string, ghost c: Call) returns (tile: Tile)
      requires Valid() && c.name == name && name in tiles
      modifies this`lru
      ensures Holds(tiles, lru, history + [c], max) && tile == tiles[name].tile
    {
      var el := tiles[name];
      FoundByName(tiles, lru, name);
      var i := Position(lru, name);
      FrontIndexed(tiles, lru, i);
      HeldNext(history, c, max);
      hide Held, Indexed, GoodTiles, Names;
      lru := ToFront(lru, i);
      tile := el.tile;
    }

    /** A new entry in front. */
    method Push(ghost c: Call, e: Entry)
      requires Valid() && c == Call(e.name, Some(e.tile)) && e.name !in tiles && e.tile.Valid()
      modifies this`lru, this`tiles
      ensures Holds(tiles, lru, history + [c], max)
    {
      FoundByName(tiles, lru, e.name);
      PushedIndexed(tiles, lru, e);
      HeldNext(history, c, max);
      hide Held, Indexed, GoodTiles, Names;
      lru := [e] + lru;
      tiles := tiles[e.name := e];
      Evict();
    }

    /** Entries leave the back of the list until it is no longer than it may be. */
    method Evict()
      requires Indexed(tiles, lru) && GoodTiles(lru)
      modifies this`lru, this`tiles
      ensures lru == First(old(lru), max) && Indexed(tiles, lru) && GoodTiles(lru)
    {
      hide Indexed, GoodTiles;
      while |lru| > max
        invariant Indexed(tiles, lru) && GoodTiles(lru)
        invariant |lru| <= |old(lru)| && lru == old(lru)[..|lru|]
        invariant |lru| >= max || lru == old(lru)
      {
        LastDropped(tiles, lru);
        var last := lru[|lru| - 1];
        lru := lru[..|lru| - 1];
        tiles := tiles - {last.name};
      }
    }
  }

  lemma {:induction false} HeldNext(history: seq<Call>, c: Call, n: nat)
    ensures Held(history + [c], n) == Next(Held(history, n), c, n)
  {
    var all := history + [c];
    assert all[..|all| - 1] == history;
  }

  const DEFAULT_SPACING: real := 30.0

  datatype Height = Metres(value: real) | Invalid | NoTile | Void

  /** The height in a tile. */
  function HeightIn(tile: Option<Tile>, lat: real, lon: real): Height
    requires tile.Some? ==> tile.value.Valid()
  {
    if tile.None? then NoTile
    else
      var s := tile.value.Sample(lat, lon);
      if s.None? then Void else Metres(s.value)
  }

  predicate OnEarth(lat: real, lon: real) {
    -90.0 <= lat <= 90.0 && -180.0 <= lon <= 180.0
  }

  /**
   * The height from the tile held or loaded. As long as load only ever answered with the tiles in the files, or not at
   * all, the cache is invisible: a height is the one in the file, whatever was asked before.
   */
  method Elevation(c: Cache, load: string -> Option<Tile>, lat: real, lon: real) returns (h: Height)
    requires c.Valid() && forall x :: load(x).Some? ==> load(x).value.Valid()
    modifies c
    ensures c.Valid()
    ensures !OnEarth(lat, lon) ==> h == Invalid && c.history == old(c.history)
    ensures OnEarth(lat, lon) ==>
      var name := TileName(lat, lon);
      var tile := if name in old(c.tiles) then Some(old(c.tiles)[name].tile) else load(name);
      && (tile.Some? ==> tile.value.Valid()) && h == HeightIn(tile, lat, lon)
      && c.history == old(c.history) + [Call(name, load(name))]
      && (h == NoTile ==> load(name) == None)
      && forall files: string -> Option<Tile> | Steady(c.history, files) && h != NoTile ::
           files(name).Some? && files(name).value.Valid() && h == HeightIn(files(name), lat, lon)
  {
    if Abs(lat) > 90.0 || Abs(lon) > 180.0 {
      return Invalid;
    }
    ghost var before, held, tiles := c.history, c.lru, c.tiles;
    var name := TileName(lat, lon);
    FoundByName(tiles, held, name);
    var tile := c.Get(name, load);
    forall files: string -> Option<Tile> | Steady(c.history, files) && tile.Some? ensures files(name) == tile {
      SteadyAnswer(before, c.max, held, Call(name, load(name)), files);
    }
    h := HeightIn(tile, lat, lon);
  }

  lemma {:induction false} SteadyAnswer(history: seq<Call>, n: nat, held: seq<Entry>, c: Call, files: string -> Option<Tile>)
    requires Steady(history + [c], files) && n >= 1 && held == Held(history, n)
    ensures c.loaded.Some? ==> files(c.name) == c.loaded
    ensures Hits(held, c) ==> files(c.name) == Some(held[Position(held, c.name)].tile)
  {
    var all := history + [c];
    assert all[|history|] == c;
    forall i | 0 <= i < |history| && history[i].loaded.Some? ensures history[i].loaded == files(history[i].name) {
      assert all[i] == history[i];
    }
    HeldIsSteady(history, n, files);
  }
}
