/** Sorting from high to low, and what it does not depend on. */
module OrderStatistics {
  import opened GoMath
  import opened Multisets

  ghost predicate Descending(s: seq<real>) {
    forall i, j :: 0 <= i < j < |s| ==> s[i] >= s[j]
  }

  function InsertDown(x: real, s: seq<real>): (r: seq<real>)
    ensures |r| == |s| + 1
  {
    if s == [] || x >= s[0] then [x] + s else [s[0]] + InsertDown(x, s[1..])
  }

  /** sort.Sort(sort.Reverse(...)) of the source. */
  function SortDown(s: seq<real>): (r: seq<real>)
    ensures |r| == |s|
  {
    if s == [] then [] else InsertDown(s[0], SortDown(s[1..]))
  }

  function Reversed(s: seq<real>): (r: seq<real>)
    ensures |r| == |s|
  {
    seq(|s|, i requires 0 <= i < |s| => s[|s| - 1 - i])
  }

  function ScaledBy(g: real, s: seq<real>): (r: seq<real>)
    ensures |r| == |s|
  {
    seq(|s|, i requires 0 <= i < |s| => Times(g, s[i]))
  }

  lemma {:induction false} InsertDownAdds(x: real, s: seq<real>)
    ensures multiset(InsertDown(x, s)) == multiset([x]) + multiset(s)
  {
    if s != [] && x < s[0] {
      InsertDownAdds(x, s[1..]);
      assert s == [s[0]] + s[1..];
      assert multiset(InsertDown(x, s)) == multiset([s[0]]) + multiset(InsertDown(x, s[1..]));
    }
  }

  lemma {:induction false} InsertDownSorted(x: real, s: seq<real>)
    requires Descending(s)
    ensures Descending(InsertDown(x, s))
  {
    if s != [] && x < s[0] {
      InsertDownSorted(x, s[1..]);
      InsertDownAdds(x, s[1..]);
      var r := InsertDown(x, s[1..]);
      forall k | 0 <= k < |r| ensures s[0] >= r[k] {
        assert r[k] in multiset(r);
        assert r[k] == x || r[k] in s[1..];
      }
    }
  }

  lemma {:induction false} SortDownSorts(s: seq<real>)
    ensures Descending(SortDown(s)) && multiset(SortDown(s)) == multiset(s)
  {
    if s != [] {
      SortDownSorts(s[1..]);
      InsertDownSorted(s[0], SortDown(s[1..]));
      InsertDownAdds(s[0], SortDown(s[1..]));
      assert s == [s[0]] + s[1..];
    }
  }

  lemma FirstIsHighest(a: seq<real>, x: real)
    requires Descending(a) && x in multiset(a)
    ensures a[0] >= x
  {
  }

  /** A sequence has only one descending arrangement. */
  lemma {:induction false} DescendingUnique(a: seq<real>, b: seq<real>)
    requires Descending(a) && Descending(b) && multiset(a) == multiset(b)
    ensures a == b
  {
    SameLength(a, b);
    if a != [] {
      FirstSame(a, b);
      TailDescends(a);
      TailDescends(b);
      hide Descending;
      DescendingUnique(a[1..], b[1..]);
      assert a == [a[0]] + a[1..] && b == [b[0]] + b[1..];
    }
  }

  lemma FirstSame(a: seq<real>, b: seq<real>)
    requires Descending(a) && Descending(b) && multiset(a) == multiset(b) && a != [] && b != []
    ensures a[0] == b[0]
  {
    assert a[0] in multiset(a) && b[0] in multiset(b);
    FirstIsHighest(a, b[0]);
    FirstIsHighest(b, a[0]);
  }

  lemma TailDescends(a: seq<real>)
    requires Descending(a) && a != []
    ensures Descending(a[1..]) && multiset(a[1..]) == multiset(a) - multiset{a[0]}
  {
    TailMultiset(a);
  }

  lemma {:induction false} ReversedMultiset(s: seq<real>)
    ensures multiset(Reversed(s)) == multiset(s)
  {
    if s != [] {
      ReversedMultiset(s[1..]);
      assert s == [s[0]] + s[1..];
      assert Reversed(s) == Reversed(s[1..]) + [s[0]];
    }
  }

  /** Sorting forgets the direction of the samples. */
  lemma {:induction false} SortDownReversed(s: seq<real>)
    ensures SortDown(Reversed(s)) == SortDown(s)
  {
    SortDownSorts(s);
    SortDownSorts(Reversed(s));
    ReversedMultiset(s);
    DescendingUnique(SortDown(Reversed(s)), SortDown(s));
  }

  lemma ScaledSplits(g: real, b: seq<real>, j: int)
    requires 0 <= j < |b|
    ensures multiset(ScaledBy(g, b)) == multiset(ScaledBy(g, b[..j] + b[j + 1..])) + multiset{Times(g, b[j])}
  {
    hide Times;
    var t := ScaledBy(g, b);
    assert t == t[..j] + [t[j]] + t[j + 1..];
    assert ScaledBy(g, b[..j] + b[j + 1..]) == t[..j] + t[j + 1..];
  }

  lemma {:induction false} ScaledMultiset(g: real, a: seq<real>, b: seq<real>)
    requires multiset(a) == multiset(b)
    ensures multiset(ScaledBy(g, a)) == multiset(ScaledBy(g, b))
  {
    hide Times, ScaledBy;
    SameLength(a, b);
    if a == [] {
      assert b == a;
    } else {
      var j := PositionIn(a, b, 0);
      RestMultiset(a, 0);
      RestMultiset(b, j);
      ScaledMultiset(g, a[..0] + a[1..], b[..j] + b[j + 1..]);
      ScaledSplits(g, a, 0);
      ScaledSplits(g, b, j);
    }
  }

  /** Scaling commutes with sorting; a negative factor turns the order around. */
  lemma {:induction false} SortDownScaled(g: real, s: seq<real>)
    ensures g >= 0.0 ==> SortDown(ScaledBy(g, s)) == ScaledBy(g, SortDown(s))
    ensures g <= 0.0 ==> SortDown(ScaledBy(g, s)) == Reversed(ScaledBy(g, SortDown(s)))
  {
    var t := SortDown(s);
    SortDownSorts(s);
    SortDownSorts(ScaledBy(g, s));
    ScaledMultiset(g, s, t);
    ReversedMultiset(ScaledBy(g, t));
    ScaledDescends(g, t);
    hide Times, ScaledBy, SortDown, Descending, Reversed;
    if g >= 0.0 {
      DescendingUnique(SortDown(ScaledBy(g, s)), ScaledBy(g, t));
    }
    if g <= 0.0 {
      DescendingUnique(SortDown(ScaledBy(g, s)), Reversed(ScaledBy(g, t)));
    }
  }

  lemma ScaledDescends(g: real, t: seq<real>)
    requires Descending(t)
    ensures g >= 0.0 ==> Descending(ScaledBy(g, t))
    ensures g <= 0.0 ==> Descending(Reversed(ScaledBy(g, t)))
  {
    hide Times;
    forall i, j | 0 <= i < j < |t|
      ensures g >= 0.0 ==> Times(g, t[i]) >= Times(g, t[j])
      ensures g <= 0.0 ==> Times(g, t[i]) <= Times(g, t[j])
    {
      TimesMonotone(g, t[i], t[j]);
    }
  }

  // ---- which order statistic ----

  function Above(x: real): real -> bool {
    y => y > x
  }

  function AtLeast(x: real): real -> bool {
    y => y >= x
  }

  function Below(x: real): real -> bool {
    y => y < x
  }

  function AtMost(x: real): real -> bool {
    y => y <= x
  }

  /** x is the p-th highest of the values, counting from 1: fewer than p exceed it, and at least p reach it. */
  ghost predicate Highest(s: seq<real>, p: int, x: real) {
    x in s && Count(s, Above(x)) < p <= Count(s, AtLeast(x))
  }

  /** x is the p-th lowest. */
  ghost predicate Lowest(s: seq<real>, p: int, x: real) {
    x in s && Count(s, Below(x)) < p <= Count(s, AtMost(x))
  }

  lemma SortedHighest(t: seq<real>, p: int)
    requires Descending(t) && 1 <= p <= |t|
    ensures Highest(t, p, t[p - 1])
  {
    var x := t[p - 1];
    SplitCount(t, p - 1, Above(x));
    SplitCount(t, p, AtLeast(x));
    CountLimits(t[..p - 1], Above(x));
    CountLimits(t[p - 1..], Above(x));
    CountLimits(t[..p], AtLeast(x));
  }

  lemma SortedLowest(t: seq<real>, p: int)
    requires Descending(t) && 1 <= p <= |t|
    ensures Lowest(t, p, t[|t| - p])
  {
    var n := |t| - p;
    var x := t[n];
    SplitCount(t, n + 1, Below(x));
    SplitCount(t, n, AtMost(x));
    CountLimits(t[..n + 1], Below(x));
    CountLimits(t[n + 1..], Below(x));
    CountLimits(t[n..], AtMost(x));
  }

  lemma {:induction false} SplitCount(t: seq<real>, n: int, p: real -> bool)
    requires 0 <= n <= |t|
    ensures Count(t, p) == Count(t[..n], p) + Count(t[n..], p)
  {
    assert t == t[..n] + t[n..];
    CountJoins(t[..n], t[n..], p);
  }

  /** The p-th entry from either end of the sorted values is the p-th highest and the p-th lowest of the values. */
  lemma {:induction false} SortDownSelects(s: seq<real>, p: int)
    requires 1 <= p <= |s|
    ensures |SortDown(s)| == |s| && Highest(s, p, SortDown(s)[p - 1]) && Lowest(s, p, SortDown(s)[|s| - p])
  {
    var t := SortDown(s);
    SortDownSorts(s);
    SameLength(s, t);
    SortedHighest(t, p);
    SortedLowest(t, p);
    var hi, lo := t[p - 1], t[|s| - p];
    hide SortDown;
    CountSame(s, t, Above(hi));
    CountSame(s, t, AtLeast(hi));
    CountSame(s, t, Below(lo));
    CountSame(s, t, AtMost(lo));
    assert hi in multiset(t) && lo in multiset(t);
  }
}
