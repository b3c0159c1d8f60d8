/**
 * The exchange sort of the HF model: two nested loops that both run over the whole range and exchange s[i] and s[j]
 * whenever key(s[i]) > key(s[j]). It sorts by descending key, for a range of any length.
 */
module ExchangeSort {

  function Exchanged(s: seq<int>, i: nat, j: nat, key: int -> real): (r: seq<int>)
    requires i < |s| && j < |s|
    ensures |r| == |s|
  {
    if key(s[i]) > key(s[j]) then s[i := s[j]][j := s[i]] else s
  }

  ghost predicate DescendingTo(s: seq<int>, i: nat, key: int -> real)
    requires i <= |s|
  {
    forall a, b :: 0 <= a < b < i ==> key(s[a]) >= key(s[b])
  }

  ghost predicate Lowest(s: seq<int>, i: nat, key: int -> real)
    requires i < |s|
  {
    forall a :: 0 <= a < |s| ==> key(s[i]) <= key(s[a])
  }

  /** Before round i: the first i entries descend and end in the lowest of all. */
  ghost predicate Outer(s: seq<int>, all: multiset<int>, i: nat, key: int -> real) {
    i <= |s| && multiset(s) == all && DescendingTo(s, i, key) && (i > 0 ==> Lowest(s, i - 1, key))
  }

  /**
   * Before step j of round i. Up to j == i the round inserts s[i] into the first i entries; then s[i] is the lowest
   * and the rest of the round changes nothing.
   */
  ghost predicate Inner(s: seq<int>, all: multiset<int>, i: nat, j: nat, key: int -> real) {
    && i < |s| && j <= |s| && multiset(s) == all && DescendingTo(s, i, key)
    && (forall a :: 0 <= a < j ==> key(s[a]) >= key(s[i]))
    && (j < i ==> Lowest(s, i - 1, key))
    && (0 < i <= j ==> Lowest(s, i, key))
  }

  lemma SortBegins(s: seq<int>, key: int -> real)
    ensures Outer(s, multiset(s), 0, key)
  {
  }

  lemma RoundBegins(s: seq<int>, all: multiset<int>, i: nat, key: int -> real)
    requires Outer(s, all, i, key) && i < |s|
    ensures Inner(s, all, i, 0, key)
  {
  }

  lemma ExchangedMultiset(s: seq<int>, i: nat, j: nat, key: int -> real)
    requires i < |s| && j < |s|
    ensures multiset(Exchanged(s, i, j, key)) == multiset(s)
  {
  }

  lemma InnerStepBefore(s: seq<int>, all: multiset<int>, i: nat, j: nat, key: int -> real)
    requires Inner(s, all, i, j, key) && j < i
    ensures var r := Exchanged(s, i, j, key);
            DescendingTo(r, i, key) && key(r[j]) >= key(r[i]) && Lowest(r, if j + 1 < i then i - 1 else i, key)
  {
    var r := Exchanged(s, i, j, key);
    assert key(s[i - 1]) <= key(s[i]) && key(s[i - 1]) <= key(s[j]);
    forall a, b | 0 <= a < b < i ensures key(r[a]) >= key(r[b]) {
      assert key(s[a]) >= key(s[b]);
    }
    var low := if j + 1 < i then i - 1 else i;
    forall a | 0 <= a < |r| ensures key(r[low]) <= key(r[a]) {
      assert key(s[i - 1]) <= key(s[a]);
    }
  }

  lemma InnerStep(s: seq<int>, all: multiset<int>, i: nat, j: nat, key: int -> real)
    requires Inner(s, all, i, j, key) && j < |s|
    ensures Inner(Exchanged(s, i, j, key), all, i, j + 1, key)
  {
    ExchangedMultiset(s, i, j, key);
    if j < i {
      InnerStepBefore(s, all, i, j, key);
      hide Lowest, DescendingTo;
    } else if i > 0 {
      assert key(s[i]) <= key(s[j]);
    }
  }

  lemma RoundEnds(s: seq<int>, all: multiset<int>, i: nat, key: int -> real)
    requires Inner(s, all, i, |s|, key)
    ensures Outer(s, all, i + 1, key)
  {
  }

  lemma SortEnds(s: seq<int>, all: multiset<int>, key: int -> real)
    requires Outer(s, all, |s|, key)
    ensures multiset(s) == all && DescendingTo(s, |s|, key)
  {
  }

  // ---- the two loops ----

  /** The inner loop from step j on. */
  function Round(s: seq<int>, i: nat, j: nat, key: int -> real): (r: seq<int>)
    requires i < |s|
    ensures |r| == |s|
    decreases |s| - j
  {
    if j >= |s| then s else Round(Exchanged(s, i, j, key), i, j + 1, key)
  }

  /** The outer loop from round i on. */
  function Rounds(s: seq<int>, i: nat, key: int -> real): (r: seq<int>)
    ensures |r| == |s|
    decreases |s| - i
  {
    if i >= |s| then s else Rounds(Round(s, i, 0, key), i + 1, key)
  }

  lemma {:induction false} RoundKeeps(s: seq<int>, all: multiset<int>, i: nat, j: nat, key: int -> real)
    requires Inner(s, all, i, j, key)
    ensures Outer(Round(s, i, j, key), all, i + 1, key)
    decreases |s| - j
  {
    if j >= |s| {
      RoundEnds(s, all, i, key);
    } else {
      InnerStep(s, all, i, j, key);
      hide Inner, Outer;
      RoundKeeps(Exchanged(s, i, j, key), all, i, j + 1, key);
    }
  }

  lemma {:induction false} RoundsKeep(s: seq<int>, all: multiset<int>, i: nat, key: int -> real)
    requires Outer(s, all, i, key)
    ensures Outer(Rounds(s, i, key), all, |s|, key)
    decreases |s| - i
  {
    if i < |s| {
      RoundBegins(s, all, i, key);
      RoundKeeps(s, all, i, 0, key);
      hide Inner;
      RoundsKeep(Round(s, i, 0, key), all, i + 1, key);
    }
  }

  /** Two loops over the full range sort a sequence of any length. */
  lemma {:induction false} LoopsSort(s: seq<int>, key: int -> real)
    ensures multiset(Rounds(s, 0, key)) == multiset(s)
    ensures DescendingTo(Rounds(s, 0, key), |s|, key)
  {
    SortBegins(s, key);
    RoundsKeep(s, multiset(s), 0, key);
  }
}
