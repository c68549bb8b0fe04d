/**
 * Room identifiers and the sequence vocabulary shared by the allocator:
 * floor and position of an identifier, ascending order, the numeric sort
 * the source applies with `sort((a, b) => a - b)`, minimum and maximum.
 */
module Rooms {

  /** Floor of a room: `Math.floor(id / 100)`. Dafny's `/` by a positive
      divisor already rounds toward negative infinity. */
  function Floor(id: int): int
  {
    id / 100
  }

  /** Position of a room on its floor: the source's `id % 100`, whose sign
      follows the dividend (it truncates toward zero, unlike Dafny's `%`). */
  function Position(id: int): (p: int)
    ensures -100 < p < 100
    ensures id >= 0 ==> p == id - 100 * Floor(id)
  {
    if id >= 0 then id % 100 else -((-id) % 100)
  }

  function Abs(x: int): int
  {
    if x < 0 then -x else x
  }

  function MinNat(a: nat, b: nat): nat
  {
    if a <= b then a else b
  }

  /** A room of the fixed building: floors 1-9 hold positions 1-10,
      floor 10 holds positions 1-7. */
  predicate InLayout(id: int)
  {
    (1 <= Floor(id) <= 9 && 1 <= Position(id) <= 10) ||
    (Floor(id) == 10 && 1 <= Position(id) <= 7)
  }

  predicate Sorted(s: seq<int>)
  {
    forall i, j :: 0 <= i < j < |s| ==> s[i] <= s[j]
  }

  predicate Distinct(s: seq<int>)
  {
    forall i, j :: 0 <= i < j < |s| ==> s[i] != s[j]
  }

  /** Inserts `x` before the first entry of `s` that is not smaller. */
  function Insert(x: int, s: seq<int>): (r: seq<int>)
    ensures |r| == |s| + 1
    ensures multiset(r) == multiset(s) + multiset{x}
  {
    if s == [] then [x]
    else if x <= s[0] then [x] + s
    else
      assert s == [s[0]] + s[1..];
      [s[0]] + Insert(x, s[1..])
  }

  /** The numeric ascending sort used throughout the source, as insertion
      sort. Sorting whole numbers is deterministic, so any correct sort
      gives this same list. */
  function SortSeq(s: seq<int>): (r: seq<int>)
    ensures |r| == |s|
    ensures multiset(r) == multiset(s)
  {
    if s == [] then []
    else
      assert s == [s[0]] + s[1..];
      Insert(s[0], SortSeq(s[1..]))
  }

  /** Inserting into an ascending list keeps it ascending. */
  lemma {:induction false} InsertSorted(x: int, s: seq<int>)
    requires Sorted(s)
    ensures Sorted(Insert(x, s))
  {
    if s != [] && x > s[0] {
      InsertSorted(x, s[1..]);
      var rest := Insert(x, s[1..]);
      forall k | 0 <= k < |rest| ensures s[0] <= rest[k] {
        assert rest[k] in multiset(rest);
        assert rest[k] == x || rest[k] in s[1..];
      }
    }
  }

  /** The sort returns an ascending list. */
  lemma {:induction false} SortSeqSorted(s: seq<int>)
    ensures Sorted(SortSeq(s))
  {
    if s != [] {
      SortSeqSorted(s[1..]);
      InsertSorted(s[0], SortSeq(s[1..]));
    }
  }

  /** The smallest identifier of a non-empty list. */
  function Min(s: seq<int>): (m: int)
    requires |s| > 0
    ensures m in s
    ensures forall x :: x in s ==> m <= x
  {
    if |s| == 1 then s[0]
    else
      var m := Min(s[1..]);
      assert forall x :: x in s ==> x == s[0] || x in s[1..];
      if s[0] <= m then s[0] else m
  }

  /** The largest identifier of a non-empty list. */
  function Max(s: seq<int>): (m: int)
    requires |s| > 0
    ensures m in s
    ensures forall x :: x in s ==> x <= m
  {
    if |s| == 1 then s[0]
    else
      var m := Max(s[1..]);
      assert forall x :: x in s ==> x == s[0] || x in s[1..];
      if s[0] >= m then s[0] else m
  }

  /** Sorting an already ascending list changes nothing. */
  lemma {:induction false} SortSorted(s: seq<int>)
    requires Sorted(s)
    ensures SortSeq(s) == s
  {
    if s != [] {
      SortSorted(s[1..]);
      assert SortSeq(s[1..]) == s[1..];
      assert s == [s[0]] + s[1..];
    }
  }

  /** The first and last entries of an ascending rearrangement of `s` are
      the minimum and maximum of `s`. */
  lemma SortedEnds(s: seq<int>, r: seq<int>)
    requires |s| > 0 && Sorted(r) && multiset(r) == multiset(s)
    ensures |r| == |s|
    ensures r[0] == Min(s) && r[|r| - 1] == Max(s)
  {
    assert |r| == |multiset(r)| == |multiset(s)| == |s|;
    assert r[0] in multiset(s) && r[|r| - 1] in multiset(s);
    assert Min(s) in multiset(r) && Max(s) in multiset(r);
    var i :| 0 <= i < |r| && r[i] == Min(s);
    var j :| 0 <= j < |r| && r[j] == Max(s);
    assert r[0] <= r[i] && r[j] <= r[|r| - 1];
    assert r[0] in s && r[|r| - 1] in s;
  }

  /** The sort puts the minimum first and the maximum last. */
  lemma SortEnds(s: seq<int>)
    requires |s| > 0
    ensures SortSeq(s)[0] == Min(s) && SortSeq(s)[|SortSeq(s)| - 1] == Max(s)
  {
    SortSeqSorted(s);
    SortedEnds(s, SortSeq(s));
  }

  /** Minimum and maximum depend only on the multiset of identifiers. */
  lemma {:induction false} MinMaxPermutation(a: seq<int>, b: seq<int>)
    requires |a| > 0 && multiset(a) == multiset(b)
    ensures |b| > 0 && Min(a) == Min(b) && Max(a) == Max(b)
  {
    assert |b| == |multiset(b)| == |multiset(a)| == |a|;
    assert Min(a) in multiset(b) && Min(b) in multiset(a);
    assert Max(a) in multiset(b) && Max(b) in multiset(a);
    assert Min(a) in b && Min(b) in a && Max(a) in b && Max(b) in a;
  }

  /** A slice never holds more of an identifier than the list it is cut from. */
  lemma SliceSubMultiset(s: seq<int>, i: nat, j: nat)
    requires i <= j <= |s|
    ensures multiset(s[i..j]) <= multiset(s)
  {
    assert s == s[..i] + s[i..j] + s[j..];
  }

  /** Every slice of an ascending list is ascending. */
  lemma SliceSorted(s: seq<int>, i: nat, j: nat)
    requires i <= j <= |s| && Sorted(s)
    ensures Sorted(s[i..j])
  {
  }

  /** A list without repeats holds each identifier at most once, and back. */
  lemma {:induction false} DistinctCounts(s: seq<int>)
    ensures Distinct(s) <==> forall x :: multiset(s)[x] <= 1
  {
    if s != [] {
      var t := s[1..];
      assert s == [s[0]] + t;
      DistinctCounts(t);
      if Distinct(s) {
        assert Distinct(t);
        forall k | 0 <= k < |t| ensures t[k] != s[0] {
          assert t[k] == s[k + 1];
        }
        assert s[0] !in t;
      }
      if forall x :: multiset(s)[x] <= 1 {
        assert forall x :: multiset(t)[x] <= multiset(s)[x];
        assert multiset(t)[s[0]] == 0;
        forall i, j | 0 <= i < j < |s| ensures s[i] != s[j] {
          if i == 0 {
            assert s[j] == t[j - 1] && s[j] in t;
          } else {
            assert s[i] == t[i - 1] && s[j] == t[j - 1];
          }
        }
      }
    }
  }

  /** Taking identifiers out of a list without repeats keeps it without repeats. */
  lemma DistinctSubMultiset(a: seq<int>, b: seq<int>)
    requires Distinct(a) && multiset(b) <= multiset(a)
    ensures Distinct(b)
  {
    DistinctCounts(a);
    DistinctCounts(b);
    assert forall x :: multiset(b)[x] <= multiset(a)[x];
  }

  /** Among the first `upto` scores, the one at `best` is least and every
      score before it is strictly greater: what a scan that replaces its
      best only on a strictly smaller score has kept after `upto` steps. */
  predicate FirstMinAmong(scores: seq<int>, best: nat, upto: nat)
    requires upto <= |scores|
  {
    best < upto &&
    (forall j :: 0 <= j < upto ==> scores[best] <= scores[j]) &&
    (forall j :: 0 <= j < best ==> scores[best] < scores[j])
  }

  /** The score at `best` is the first least one of all scores. */
  predicate FirstMin(scores: seq<int>, best: nat)
  {
    FirstMinAmong(scores, best, |scores|)
  }

  /** One more step of such a scan: the new score takes over exactly when it
      is strictly smaller than the best so far. */
  lemma FirstMinStep(scores: seq<int>, best: nat, i: nat)
    requires i < |scores|
    requires i == 0 || FirstMinAmong(scores, best, i)
    ensures i == 0 ==> FirstMinAmong(scores, i, i + 1)
    ensures i > 0 && scores[i] < scores[best] ==> FirstMinAmong(scores, i, i + 1)
    ensures i > 0 && scores[i] >= scores[best] ==> FirstMinAmong(scores, best, i + 1)
  {
  }

  /** A fresh array holding `s`: the new array the source obtains from
      `slice` or from spreading a list into `[...]`. */
  method NewArray(s: seq<int>) returns (a: array<int>)
    ensures fresh(a) && a[..] == s
  {
    a := new int[|s|](k requires 0 <= k < |s| => s[k]);
  }
}
