/**
 * `HotelManager.selectClosestRooms`: slides a window of the requested size
 * over one floor's rooms and keeps the first window of least travel time.
 */
module SameFloor {
  import opened Wrappers
  import opened Rooms
  import opened TravelTimeCalculator

  /** The `size` consecutive rooms of `s` starting at index `start`. */
  function Window(s: seq<int>, start: nat, size: nat): (w: seq<int>)
    requires start + size <= |s|
    ensures |w| == size
  {
    s[start..start + size]
  }

  /** Travel time of every window of `s` of the given size, by start index. */
  function WindowTimes(s: seq<int>, size: nat): seq<int>
    requires size <= |s|
  {
    seq(|s| - size + 1, j requires 0 <= j < |s| - size + 1 => TravelTime(Window(s, j, size)))
  }

  /** The window at `best` is the first of least travel time among all
      windows of `s` of the given size. */
  predicate FirstBestWindow(s: seq<int>, size: nat, best: nat)
    requires size <= |s|
  {
    FirstMin(WindowTimes(s, size), best)
  }

  /** `selectClosestRooms`: each window is copied out, scored by
      `calculateTravelTime` (which sorts the copy in place) and kept when it
      is strictly better than the best so far. No window exists when the
      floor has fewer rooms than requested, and the result is then empty. */
  method SelectClosestRooms(floorRooms: seq<int>, numRooms: nat) returns (bestSelection: seq<int>)
    ensures |floorRooms| < numRooms ==> bestSelection == []
    ensures |floorRooms| >= numRooms ==>
      exists best :: FirstBestWindow(floorRooms, numRooms, best) &&
        bestSelection == SortSeq(Window(floorRooms, best, numRooms))
    ensures Sorted(floorRooms) && |floorRooms| >= numRooms ==>
      exists best :: FirstBestWindow(floorRooms, numRooms, best) &&
        bestSelection == Window(floorRooms, best, numRooms)
  {
    bestSelection := [];
    var bestTime: Option<int> := None;
    ghost var best: nat := 0;
    ghost var times := if |floorRooms| >= numRooms then WindowTimes(floorRooms, numRooms) else [];
    var i := 0;
    while i <= |floorRooms| - numRooms
      invariant 0 <= i && (i == 0 || i <= |floorRooms| - numRooms + 1)
      invariant i == 0 ==> bestTime == None && bestSelection == []
      invariant i > 0 ==> FirstMinAmong(times, best, i)
      invariant i > 0 ==> bestTime == Some(times[best])
      invariant i > 0 ==> bestSelection == SortSeq(Window(floorRooms, best, numRooms))
    {
      var selection := NewArray(Window(floorRooms, i, numRooms));
      var time := CalculateTravelTime(selection);
      assert time == times[i];
      FirstMinStep(times, best, i);
      if bestTime.None? || time < bestTime.value {
        bestTime := Some(time);
        bestSelection := selection[..];
        best := i;
      }
      i := i + 1;
    }
    if |floorRooms| >= numRooms {
      assert i == |times| && FirstBestWindow(floorRooms, numRooms, best);
      if Sorted(floorRooms) {
        SliceSorted(floorRooms, best, best + numRooms);
        SortSorted(Window(floorRooms, best, numRooms));
      }
    }
  }

  /** Taking the same room out of both sides keeps a sub-multiset. */
  lemma CancelCommon(x: int, a: multiset<int>, b: multiset<int>)
    requires multiset{x} + a <= multiset{x} + b
    ensures a <= b
  {
    forall y ensures a[y] <= b[y] {
      assert (multiset{x} + a)[y] == multiset{x}[y] + a[y];
      assert (multiset{x} + b)[y] == multiset{x}[y] + b[y];
    }
  }

  /** A non-empty list holds its first room plus the rest. */
  lemma MultisetHead(s: seq<int>)
    requires |s| > 0
    ensures multiset(s) == multiset{s[0]} + multiset(s[1..])
  {
    assert s == [s[0]] + s[1..];
  }

  /** When both lists start with the same room, the rests still nest. */
  lemma DropCommonHead(t: seq<int>, s: seq<int>)
    requires |t| > 0 && |s| > 0 && t[0] == s[0] && multiset(t) <= multiset(s)
    ensures multiset(t[1..]) <= multiset(s[1..])
  {
    MultisetHead(t);
    MultisetHead(s);
    CancelCommon(t[0], multiset(t[1..]), multiset(s[1..]));
  }

  /** When an ascending `t` drawn from an ascending `s` does not start with
      `s`'s first room, it does not hold that room at all. */
  lemma SkipHead(t: seq<int>, s: seq<int>)
    requires |t| > 0 && Sorted(t) && Sorted(s) && multiset(t) <= multiset(s)
    requires t[0] != s[0]
    ensures multiset(t) <= multiset(s[1..])
  {
    assert t[0] in multiset(s);
    var i :| 0 <= i < |s| && s[i] == t[0];
    assert s[0] <= s[i];
    forall k | 0 <= k < |t| ensures t[k] != s[0] {
      assert t[0] <= t[k];
    }
    assert s[0] !in t;
    MultisetHead(s);
  }

  /** An ascending list `t` drawn from an ascending list `s` fits in a
      window of `s` as long as `t`: the window at `j` starts at an
      occurrence of `t`'s first room and ends no higher than `t`'s last. */
  lemma {:induction false} SortedSubWindow(t: seq<int>, s: seq<int>) returns (j: nat)
    requires |t| >= 1 && Sorted(t) && Sorted(s) && multiset(t) <= multiset(s)
    ensures j + |t| <= |s| && s[j] == t[0] && s[j + |t| - 1] <= t[|t| - 1]
    decreases |s|
  {
    assert t[0] in multiset(s);
    if t[0] == s[0] {
      if |t| > 1 {
        DropCommonHead(t, s);
        var k := SortedSubWindow(t[1..], s[1..]);
        assert s[|t| - 1] <= s[k + |t| - 1];
      }
      j := 0;
    } else {
      SkipHead(t, s);
      var k := SortedSubWindow(t, s[1..]);
      j := k + 1;
    }
  }

  /** A room drawn from a list of rooms of one floor lies on that floor. */
  lemma DrawnOnFloor(s: seq<int>, f: int, x: int)
    requires forall k :: 0 <= k < |s| ==> Floor(s[k]) == f
    requires x in multiset(s)
    ensures Floor(x) == f
  {
    var i :| 0 <= i < |s| && s[i] == x;
  }

  /** A choice of rooms is no longer than the list it is drawn from. */
  lemma DrawnLength(sub: seq<int>, s: seq<int>)
    requires multiset(sub) <= multiset(s)
    ensures |sub| <= |s|
  {
    var d := multiset(s) - multiset(sub);
    assert multiset(s) == multiset(sub) + d;
    assert |multiset(s)| == |multiset(sub)| + |d|;
  }

  /** A window of an ascending one-floor list costs its last room minus its
      first. */
  lemma WindowTimeOnFloor(s: seq<int>, f: int, j: nat, m: nat)
    requires Sorted(s) && j + m <= |s| && m >= 2
    requires forall k :: 0 <= k < |s| ==> Floor(s[k]) == f
    ensures TravelTime(Window(s, j, m)) == s[j + m - 1] - s[j]
  {
    var w := Window(s, j, m);
    SliceSorted(s, j, j + m);
    SortSorted(w);
    assert w[0] == s[j] && w[m - 1] == s[j + m - 1];
  }

  /** Any choice of two or more rooms of one floor costs its highest room
      minus its lowest. */
  lemma ChoiceTimeOnFloor(s: seq<int>, f: int, sub: seq<int>)
    requires forall k :: 0 <= k < |s| ==> Floor(s[k]) == f
    requires multiset(sub) <= multiset(s) && |sub| >= 2
    ensures TravelTime(sub) == SortSeq(sub)[|SortSeq(sub)| - 1] - SortSeq(sub)[0]
  {
    var t := SortSeq(sub);
    var lo, hi := t[0], t[|t| - 1];
    assert lo in multiset(sub) && hi in multiset(sub);
    assert lo in multiset(s) && hi in multiset(s);
    DrawnOnFloor(s, f, lo);
    DrawnOnFloor(s, f, hi);
    assert TravelTime(sub) == Metric(lo, hi);
  }

  /** Windows are exhaustive on one floor: for any choice of rooms from an
      ascending list of rooms of one floor, some window of as many rooms
      costs no more. */
  lemma WindowsCoverChoices(s: seq<int>, f: int, sub: seq<int>)
    requires Sorted(s)
    requires forall k :: 0 <= k < |s| ==> Floor(s[k]) == f
    requires multiset(sub) <= multiset(s)
    ensures |sub| <= |s|
    ensures exists j: nat :: j + |sub| <= |s| && TravelTime(Window(s, j, |sub|)) <= TravelTime(sub)
  {
    DrawnLength(sub, s);
    var m := |sub|;
    if m < 2 {
      assert TravelTime(Window(s, 0, m)) == 0;
    } else {
      var t := SortSeq(sub);
      assert |t| == m;
      SortSeqSorted(sub);
      var j := SortedSubWindow(t, s);
      WindowTimeOnFloor(s, f, j, m);
      ChoiceTimeOnFloor(s, f, sub);
      assert s[j + m - 1] <= t[m - 1];
      assert TravelTime(Window(s, j, m)) <= TravelTime(sub);
    }
  }

  /** The first best window of an ascending one-floor list costs no more
      than any other choice of as many of its rooms, window or not. */
  lemma FirstBestWindowOptimal(s: seq<int>, f: int, n: nat, best: nat, sub: seq<int>)
    requires Sorted(s) && n <= |s|
    requires forall k :: 0 <= k < |s| ==> Floor(s[k]) == f
    requires FirstBestWindow(s, n, best)
    requires |sub| == n && multiset(sub) <= multiset(s)
    ensures TravelTime(Window(s, best, n)) <= TravelTime(sub)
  {
    WindowsCoverChoices(s, f, sub);
    var j: nat :| j + n <= |s| && TravelTime(Window(s, j, n)) <= TravelTime(sub);
    assert WindowTimes(s, n)[j] == TravelTime(Window(s, j, n));
  }

  /** Every window of a run of consecutive rooms on one floor costs one
      minute per room beyond the first. */
  lemma ConsecutiveWindowTime(s: seq<int>, n: nat, j: nat)
    requires j + n <= |s| && 0 < |s|
    requires forall k :: 0 <= k < |s| ==> s[k] == s[0] + k
    requires Floor(s[0]) == Floor(s[|s| - 1])
    ensures TravelTime(Window(s, j, n)) == if n < 2 then 0 else n - 1
  {
    if n >= 2 {
      var w := Window(s, j, n);
      assert forall k :: 0 <= k < n ==> w[k] == s[0] + j + k;
      SortSorted(w);
      FloorMonotone(s[0], w[0]);
      FloorMonotone(w[0], w[n - 1]);
      FloorMonotone(w[n - 1], s[|s| - 1]);
    }
  }

  /** On a run of consecutive rooms of one floor all windows tie, so the
      first window wins. */
  lemma ConsecutiveFirstWindow(s: seq<int>, n: nat, best: nat)
    requires 0 < |s| && n <= |s|
    requires forall k :: 0 <= k < |s| ==> s[k] == s[0] + k
    requires Floor(s[0]) == Floor(s[|s| - 1])
    requires FirstBestWindow(s, n, best)
    ensures best == 0 && Window(s, best, n) == s[..n]
  {
    var t := WindowTimes(s, n);
    ConsecutiveWindowTime(s, n, best);
    ConsecutiveWindowTime(s, n, 0);
    assert t[best] == t[0];
  }

  /** A request for every room of a list has one window, the list itself. */
  lemma SingleWindow(s: seq<int>)
    ensures forall best :: FirstBestWindow(s, |s|, best) ==> best == 0 && Window(s, best, |s|) == s
  {
    assert |WindowTimes(s, |s|)| == 1;
  }
}
