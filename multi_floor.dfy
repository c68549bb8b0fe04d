/**
 * `HotelManager.findOptimalMultiFloorRooms`: a backtracking search that,
 * floor by floor in ascending order, takes a contiguous window of the
 * floor's sorted rooms (possibly empty) until the requested number of rooms
 * is reached, and keeps the first complete selection of least travel time.
 */
module MultiFloor {
  import opened Wrappers
  import opened Rooms
  import opened TravelTimeCalculator
  import opened Grouping

  /** The best selection the search has kept so far: `time` is `None`
      while nothing has been scored (the source's positive infinity). */
  datatype Best = Best(time: Option<int>, selection: seq<int>)

  /** A complete selection once `calculateTravelTime` has run on it: its
      travel time and the selection as the call leaves it, sorted. */
  datatype Scored = Scored(time: int, sorted: seq<int>)

  function Score(candidate: seq<int>): Scored
  {
    Scored(TravelTime(candidate), SortSeq(candidate))
  }

  /** The best after a scored selection: it takes over only when its time
      is strictly smaller than the best so far. */
  function Keep(best: Best, scored: Scored): Best
  {
    if best.time.None? || scored.time < best.time.value then Best(Some(scored.time), scored.sorted)
    else best
  }

  /** Scoring one complete selection. */
  function Consider(best: Best, candidate: seq<int>): Best
  {
    Keep(best, Score(candidate))
  }

  /** Scoring a list of complete selections in order. */
  function ConsiderAll(best: Best, candidates: seq<seq<int>>): Best
    decreases |candidates|
  {
    if candidates == [] then best
    else ConsiderAll(Consider(best, candidates[0]), candidates[1..])
  }

  /** Travel time of each candidate, in order. */
  function Scores(candidates: seq<seq<int>>): seq<int>
  {
    seq(|candidates|, j requires 0 <= j < |candidates| => TravelTime(candidates[j]))
  }

  /** Scoring two lists one after the other is scoring their concatenation. */
  lemma {:induction false} ConsiderAllAppend(best: Best, xs: seq<seq<int>>, ys: seq<seq<int>>)
    ensures ConsiderAll(best, xs + ys) == ConsiderAll(ConsiderAll(best, xs), ys)
    decreases |xs|
  {
    if xs == [] {
      assert xs + ys == ys;
    } else {
      assert (xs + ys)[1..] == xs[1..] + ys;
      ConsiderAllAppend(Consider(best, xs[0]), xs[1..], ys);
    }
  }

  /** Scoring one candidate from a given best. */
  lemma ConsiderOne(best: Best, candidate: seq<int>)
    ensures ConsiderAll(best, [candidate]) == Consider(best, candidate)
  {
    assert [candidate][1..] == [];
  }

  // The same fold over selections that are already scored, where the
  // travel times are plain numbers.

  function ScoreAll(candidates: seq<seq<int>>): (xs: seq<Scored>)
    ensures |xs| == |candidates|
  {
    seq(|candidates|, j requires 0 <= j < |candidates| => Score(candidates[j]))
  }

  function KeepAll(best: Best, xs: seq<Scored>): Best
    decreases |xs|
  {
    if xs == [] then best
    else KeepAll(Keep(best, xs[0]), xs[1..])
  }

  function Times(xs: seq<Scored>): seq<int>
  {
    seq(|xs|, j requires 0 <= j < |xs| => xs[j].time)
  }

  /** Scoring candidates is keeping their scored forms. */
  lemma {:induction false} ConsiderAllScored(best: Best, candidates: seq<seq<int>>)
    ensures ConsiderAll(best, candidates) == KeepAll(best, ScoreAll(candidates))
    decreases |candidates|
  {
    if candidates != [] {
      assert ScoreAll(candidates)[1..] == ScoreAll(candidates[1..]);
      ConsiderAllScored(Consider(best, candidates[0]), candidates[1..]);
    }
  }

  lemma {:induction false} KeepAllAppend(best: Best, xs: seq<Scored>, ys: seq<Scored>)
    ensures KeepAll(best, xs + ys) == KeepAll(KeepAll(best, xs), ys)
    decreases |xs|
  {
    if xs == [] {
      assert xs + ys == ys;
    } else {
      assert (xs + ys)[1..] == xs[1..] + ys;
      KeepAllAppend(Keep(best, xs[0]), xs[1..], ys);
    }
  }

  /** A prefix is the prefix one shorter followed by its last element. */
  lemma PrefixSnoc<T>(s: seq<T>, i: nat)
    requires 1 <= i <= |s|
    ensures s[..i] == s[..i - 1] + [s[i - 1]]
  {
  }

  /** The index a strict-less scan over the first `i` scored selections
      ends up holding. */
  function ScanIndex(xs: seq<Scored>, i: nat): (k: nat)
    requires 1 <= i <= |xs|
    ensures k < i
  {
    if i == 1 then 0
    else
      var k := ScanIndex(xs, i - 1);
      if xs[i - 1].time < xs[k].time then i - 1 else k
  }

  /** The scan holds the first least time among those it has seen. */
  lemma {:induction false} ScanIndexFirstMin(xs: seq<Scored>, i: nat)
    requires 1 <= i <= |xs|
    ensures FirstMinAmong(Times(xs), ScanIndex(xs, i), i)
  {
    if i == 1 {
      FirstMinStep(Times(xs), 0, 0);
    } else {
      ScanIndexFirstMin(xs, i - 1);
      FirstMinStep(Times(xs), ScanIndex(xs, i - 1), i - 1);
    }
  }

  /** Keeping the first `i` scored selections from nothing holds the one
      the scan holds. */
  lemma {:induction false} KeepPrefix(xs: seq<Scored>, i: nat)
    requires 1 <= i <= |xs|
    ensures KeepAll(Best(None, []), xs[..i]) == Best(Some(xs[ScanIndex(xs, i)].time), xs[ScanIndex(xs, i)].sorted)
  {
    if i == 1 {
      assert xs[..1] == [xs[0]];
      assert [xs[0]][1..] == [];
    } else {
      KeepPrefix(xs, i - 1);
      PrefixSnoc(xs, i);
      KeepAllAppend(Best(None, []), xs[..i - 1], [xs[i - 1]]);
      assert [xs[i - 1]][1..] == [];
    }
  }

  /** The times of the scored candidates are their travel times. */
  lemma TimesOfScoreAll(candidates: seq<seq<int>>)
    ensures Times(ScoreAll(candidates)) == Scores(candidates)
  {
  }

  /** Scoring a non-empty list from nothing keeps its first candidate of
      least travel time, sorted: ties go to the candidate found first. */
  lemma ConsiderAllFirstMin(candidates: seq<seq<int>>)
    requires candidates != []
    ensures exists k: nat :: (FirstMin(Scores(candidates), k) &&
      ConsiderAll(Best(None, []), candidates) == Best(Some(TravelTime(candidates[k])), SortSeq(candidates[k])))
  {
    var xs := ScoreAll(candidates);
    var k := ScanIndex(xs, |xs|);
    ScanIndexFirstMin(xs, |xs|);
    TimesOfScoreAll(candidates);
    KeepPrefix(xs, |xs|);
    assert xs[..|xs|] == xs;
    ConsiderAllScored(Best(None, []), candidates);
    assert xs[k] == Score(candidates[k]);
  }

  // ---------------------------------------------------------------------
  // The enumeration. `buckets` are the sorted room lists of the floors in
  // ascending floor order; `cur` is the selection built so far and `rem`
  // the number of rooms still to choose.

  /** How many rooms floor `idx` can give: `Math.min(remaining, length)`. */
  function TakeBound(buckets: seq<seq<int>>, idx: nat, rem: nat): nat
    requires idx < |buckets|
  {
    MinNat(rem, |buckets[idx]|)
  }

  /** The complete selections `generateCombinations(idx, cur, rem)`
      scores, in the order it scores them. */
  function Candidates(buckets: seq<seq<int>>, idx: nat, cur: seq<int>, rem: nat): seq<seq<int>>
    requires idx <= |buckets|
    decreases |buckets| - idx, 2, 0
  {
    if rem == 0 then [cur]
    else if idx == |buckets| then []
    else TakesFrom(buckets, idx, cur, rem, 0)
  }

  /** The iterations `take`, `take + 1`, ... of the loop over window sizes. */
  function TakesFrom(buckets: seq<seq<int>>, idx: nat, cur: seq<int>, rem: nat, take: nat): seq<seq<int>>
    requires idx < |buckets|
    decreases |buckets| - idx, 1, TakeBound(buckets, idx, rem) + 1 - take
  {
    if take > TakeBound(buckets, idx, rem) then []
    else StartsFrom(buckets, idx, cur, rem, take, 0) + TakesFrom(buckets, idx, cur, rem, take + 1)
  }

  /** The iterations `start`, `start + 1`, ... of the loop over window
      starts, for windows of size `take`. */
  function StartsFrom(buckets: seq<seq<int>>, idx: nat, cur: seq<int>, rem: nat, take: nat, start: nat): seq<seq<int>>
    requires idx < |buckets| && take <= TakeBound(buckets, idx, rem)
    decreases |buckets| - idx, 0, |buckets[idx]| - take + 1 - start
  {
    if start > |buckets[idx]| - take then []
    else
      Candidates(buckets, idx + 1, cur + buckets[idx][start..start + take], rem - take) +
      StartsFrom(buckets, idx, cur, rem, take, start + 1)
  }

  /** What `generateCombinations(idx, cur, rem)` leaves as the best when
      it starts from `best`: the source's recursion, as a function. */
  function Explore(best: Best, buckets: seq<seq<int>>, idx: nat, cur: seq<int>, rem: nat): Best
    requires idx <= |buckets|
    decreases |buckets| - idx, 2, 0
  {
    if rem == 0 then Consider(best, cur)
    else if idx == |buckets| then best
    else ExploreTakes(best, buckets, idx, cur, rem, 0)
  }

  /** The loop over window sizes, from size `take` on. */
  function ExploreTakes(best: Best, buckets: seq<seq<int>>, idx: nat, cur: seq<int>, rem: nat, take: nat): Best
    requires idx < |buckets|
    decreases |buckets| - idx, 1, TakeBound(buckets, idx, rem) + 1 - take
  {
    if take > TakeBound(buckets, idx, rem) then best
    else ExploreTakes(ExploreStarts(best, buckets, idx, cur, rem, take, 0), buckets, idx, cur, rem, take + 1)
  }

  /** The loop over window starts for windows of size `take`, from `start`
      on. */
  function ExploreStarts(best: Best, buckets: seq<seq<int>>, idx: nat, cur: seq<int>, rem: nat, take: nat, start: nat): Best
    requires idx < |buckets| && take <= TakeBound(buckets, idx, rem)
    decreases |buckets| - idx, 0, |buckets[idx]| - take + 1 - start
  {
    if start > |buckets[idx]| - take then best
    else
      var next := Explore(best, buckets, idx + 1, cur + buckets[idx][start..start + take], rem - take);
      ExploreStarts(next, buckets, idx, cur, rem, take, start + 1)
  }

  /** The recursion scores exactly the enumerated candidates, in order. */
  lemma {:induction false} ExploreCandidates(best: Best, buckets: seq<seq<int>>, idx: nat, cur: seq<int>, rem: nat)
    requires idx <= |buckets|
    ensures Explore(best, buckets, idx, cur, rem) == ConsiderAll(best, Candidates(buckets, idx, cur, rem))
    decreases |buckets| - idx, 2, 0
  {
    if rem == 0 {
      ConsiderOne(best, cur);
    } else if idx < |buckets| {
      ExploreTakesFrom(best, buckets, idx, cur, rem, 0);
    }
  }

  lemma {:induction false} ExploreTakesFrom(best: Best, buckets: seq<seq<int>>, idx: nat, cur: seq<int>, rem: nat, take: nat)
    requires idx < |buckets|
    ensures ExploreTakes(best, buckets, idx, cur, rem, take) == ConsiderAll(best, TakesFrom(buckets, idx, cur, rem, take))
    decreases |buckets| - idx, 1, TakeBound(buckets, idx, rem) + 1 - take
  {
    if take <= TakeBound(buckets, idx, rem) {
      var starts := StartsFrom(buckets, idx, cur, rem, take, 0);
      ExploreStartsFrom(best, buckets, idx, cur, rem, take, 0);
      ExploreTakesFrom(ConsiderAll(best, starts), buckets, idx, cur, rem, take + 1);
      ConsiderAllAppend(best, starts, TakesFrom(buckets, idx, cur, rem, take + 1));
    }
  }

  lemma {:induction false} ExploreStartsFrom(best: Best, buckets: seq<seq<int>>, idx: nat, cur: seq<int>, rem: nat, take: nat, start: nat)
    requires idx < |buckets| && take <= TakeBound(buckets, idx, rem)
    ensures ExploreStarts(best, buckets, idx, cur, rem, take, start) == ConsiderAll(best, StartsFrom(buckets, idx, cur, rem, take, start))
    decreases |buckets| - idx, 0, |buckets[idx]| - take + 1 - start
  {
    if start <= |buckets[idx]| - take {
      var here := Candidates(buckets, idx + 1, cur + buckets[idx][start..start + take], rem - take);
      ExploreCandidates(best, buckets, idx + 1, cur + buckets[idx][start..start + take], rem - take);
      ExploreStartsFrom(ConsiderAll(best, here), buckets, idx, cur, rem, take, start + 1);
      ConsiderAllAppend(best, here, StartsFrom(buckets, idx, cur, rem, take, start + 1));
    }
  }

  /** A legal choice on floor `idx`: a window of `take` rooms starting at
      `start`, no larger than what is still needed. */
  predicate WindowChoice(buckets: seq<seq<int>>, idx: nat, rem: nat, take: nat, start: nat)
    requires idx < |buckets|
  {
    take <= rem && start + take <= |buckets[idx]|
  }

  /** `c` extends `cur` by one contiguous window of each floor from `idx`
      on, in floor order, adding exactly `rem` rooms: the selections the
      search is meant to range over. */
  ghost predicate PerFloorWindows(buckets: seq<seq<int>>, idx: nat, cur: seq<int>, rem: nat, c: seq<int>)
    requires idx <= |buckets|
    decreases |buckets| - idx
  {
    if rem == 0 then c == cur
    else
      idx < |buckets| &&
      exists take: nat, start: nat :: WindowChoice(buckets, idx, rem, take, start) &&
        PerFloorWindows(buckets, idx + 1, cur + buckets[idx][start..start + take], rem - take, c)
  }

  /** Everything the search scores is a per-floor-window selection. */
  lemma {:induction false} CandidatesSound(buckets: seq<seq<int>>, idx: nat, cur: seq<int>, rem: nat)
    requires idx <= |buckets|
    ensures forall c :: c in Candidates(buckets, idx, cur, rem) ==> PerFloorWindows(buckets, idx, cur, rem, c)
    decreases |buckets| - idx, 2, 0
  {
    if rem != 0 && idx < |buckets| {
      TakesSound(buckets, idx, cur, rem, 0);
    }
  }

  lemma {:induction false} TakesSound(buckets: seq<seq<int>>, idx: nat, cur: seq<int>, rem: nat, take: nat)
    requires idx < |buckets| && rem > 0
    ensures forall c :: c in TakesFrom(buckets, idx, cur, rem, take) ==> PerFloorWindows(buckets, idx, cur, rem, c)
    decreases |buckets| - idx, 1, TakeBound(buckets, idx, rem) + 1 - take
  {
    if take <= TakeBound(buckets, idx, rem) {
      StartsSound(buckets, idx, cur, rem, take, 0);
      TakesSound(buckets, idx, cur, rem, take + 1);
    }
  }

  lemma {:induction false} StartsSound(buckets: seq<seq<int>>, idx: nat, cur: seq<int>, rem: nat, take: nat, start: nat)
    requires idx < |buckets| && rem > 0 && take <= TakeBound(buckets, idx, rem)
    ensures forall c :: c in StartsFrom(buckets, idx, cur, rem, take, start) ==> PerFloorWindows(buckets, idx, cur, rem, c)
    decreases |buckets| - idx, 0, |buckets[idx]| - take + 1 - start
  {
    if start <= |buckets[idx]| - take {
      var next := cur + buckets[idx][start..start + take];
      CandidatesSound(buckets, idx + 1, next, rem - take);
      StartsSound(buckets, idx, cur, rem, take, start + 1);
      forall c | c in Candidates(buckets, idx + 1, next, rem - take)
        ensures PerFloorWindows(buckets, idx, cur, rem, c)
      {
        assert WindowChoice(buckets, idx, rem, take, start);
      }
    }
  }

  /** A selection reached through the window of size `take` at `start` is
      scored by the start loop from any earlier start on. */
  lemma {:induction false} InStartsFrom(buckets: seq<seq<int>>, idx: nat, cur: seq<int>, rem: nat, take: nat, from: nat, start: nat, c: seq<int>)
    requires idx < |buckets| && take <= TakeBound(buckets, idx, rem)
    requires from <= start && start + take <= |buckets[idx]|
    requires c in Candidates(buckets, idx + 1, cur + buckets[idx][start..start + take], rem - take)
    ensures c in StartsFrom(buckets, idx, cur, rem, take, from)
    decreases start - from
  {
    if from < start {
      InStartsFrom(buckets, idx, cur, rem, take, from + 1, start, c);
    }
  }

  /** A selection scored in the iteration for `take` is scored by the loop
      over sizes from any smaller size on. */
  lemma {:induction false} InTakesFrom(buckets: seq<seq<int>>, idx: nat, cur: seq<int>, rem: nat, from: nat, take: nat, c: seq<int>)
    requires idx < |buckets| && from <= take <= TakeBound(buckets, idx, rem)
    requires c in StartsFrom(buckets, idx, cur, rem, take, 0)
    ensures c in TakesFrom(buckets, idx, cur, rem, from)
    decreases take - from
  {
    if from < take {
      InTakesFrom(buckets, idx, cur, rem, from + 1, take, c);
    }
  }

  /** The search scores every per-floor-window selection: restricting the
      search to windows loses nothing among such selections. */
  lemma {:induction false} CandidatesComplete(buckets: seq<seq<int>>, idx: nat, cur: seq<int>, rem: nat, c: seq<int>)
    requires idx <= |buckets| && PerFloorWindows(buckets, idx, cur, rem, c)
    ensures c in Candidates(buckets, idx, cur, rem)
    decreases |buckets| - idx
  {
    if rem != 0 {
      var take: nat, start: nat :| WindowChoice(buckets, idx, rem, take, start) &&
        PerFloorWindows(buckets, idx + 1, cur + buckets[idx][start..start + take], rem - take, c);
      CandidatesComplete(buckets, idx + 1, cur + buckets[idx][start..start + take], rem - take, c);
      InStartsFrom(buckets, idx, cur, rem, take, 0, start, c);
      InTakesFrom(buckets, idx, cur, rem, 0, take, c);
    }
  }

  /** All rooms of the floors from `idx` on, with their multiplicities. */
  function Pool(buckets: seq<seq<int>>): multiset<int>
  {
    if buckets == [] then multiset{} else multiset(buckets[0]) + Pool(buckets[1..])
  }

  /** The pool from floor `idx` on is that floor's rooms plus the pool of
      the floors after it. */
  lemma PoolFrom(buckets: seq<seq<int>>, idx: nat)
    requires idx < |buckets|
    ensures Pool(buckets[idx..]) == multiset(buckets[idx]) + Pool(buckets[idx + 1..])
    ensures |Pool(buckets[idx..])| == |buckets[idx]| + |Pool(buckets[idx + 1..])|
  {
    assert buckets[idx..][1..] == buckets[idx + 1..];
  }

  /** A per-floor-window selection adds exactly `rem` rooms, all drawn from
      the floors still open. */
  lemma {:induction false} PerFloorWindowsDrawn(buckets: seq<seq<int>>, idx: nat, cur: seq<int>, rem: nat, c: seq<int>)
    requires idx <= |buckets| && PerFloorWindows(buckets, idx, cur, rem, c)
    ensures |c| == |cur| + rem
    ensures multiset(c) <= multiset(cur) + Pool(buckets[idx..])
    decreases |buckets| - idx
  {
    if rem != 0 {
      var take: nat, start: nat :| WindowChoice(buckets, idx, rem, take, start) &&
        PerFloorWindows(buckets, idx + 1, cur + buckets[idx][start..start + take], rem - take, c);
      var window := buckets[idx][start..start + take];
      PerFloorWindowsDrawn(buckets, idx + 1, cur + window, rem - take, c);
      SliceSubMultiset(buckets[idx], start, start + take);
      PoolFrom(buckets, idx);
      assert multiset(cur + window) == multiset(cur) + multiset(window);
      DrawnFrom(multiset(c), multiset(cur), multiset(window), multiset(buckets[idx]), Pool(buckets[idx + 1..]));
    }
  }

  /** Drawing within a floor's rooms stays within the pool it belongs to. */
  lemma DrawnFrom(c: multiset<int>, cur: multiset<int>, window: multiset<int>, floor: multiset<int>, rest: multiset<int>)
    requires c <= cur + window + rest && window <= floor
    ensures c <= cur + (floor + rest)
  {
  }

  /** When the open floors hold at least `rem` rooms, some per-floor-window
      selection exists: take as many rooms as possible from each floor. */
  lemma {:induction false} PerFloorWindowsExist(buckets: seq<seq<int>>, idx: nat, cur: seq<int>, rem: nat)
    requires idx <= |buckets| && |Pool(buckets[idx..])| >= rem
    ensures exists c :: PerFloorWindows(buckets, idx, cur, rem, c)
    decreases |buckets| - idx
  {
    if rem == 0 {
      assert PerFloorWindows(buckets, idx, cur, rem, cur);
    } else {
      assert buckets[idx..] != [];
      PoolFrom(buckets, idx);
      var take := TakeBound(buckets, idx, rem);
      var next := cur + buckets[idx][0..take];
      PerFloorWindowsExist(buckets, idx + 1, next, rem - take);
      var c :| PerFloorWindows(buckets, idx + 1, next, rem - take, c);
      assert WindowChoice(buckets, idx, rem, take, 0);
      assert PerFloorWindows(buckets, idx, cur, rem, c);
    }
  }

  // ---------------------------------------------------------------------
  // The buckets of a list of available rooms.

  /** The floors holding an available room, ascending: the source's
      `Object.keys(roomsByFloor).map(Number).sort((a, b) => a - b)`. */
  function FloorOrder(rooms: seq<int>): seq<int>
  {
    SortSeq(FloorKeys(rooms))
  }

  /** The sorted room list of each of `floors`, in that order. */
  function BucketsFor(rooms: seq<int>, floors: seq<int>): seq<seq<int>>
  {
    seq(|floors|, i requires 0 <= i < |floors| => SortSeq(OnFloor(rooms, floors[i])))
  }

  /** The buckets the search walks for a list of available rooms. */
  function FloorBuckets(rooms: seq<int>): seq<seq<int>>
  {
    BucketsFor(rooms, FloorOrder(rooms))
  }

  /** The buckets of a list of distinct floors hold each room whose floor
      is listed, as often as the input does, and nothing else. */
  lemma {:induction false} PoolOfBucketsFor(rooms: seq<int>, floors: seq<int>, y: int)
    requires Distinct(floors)
    ensures Pool(BucketsFor(rooms, floors))[y] == if Floor(y) in floors then multiset(rooms)[y] else 0
  {
    if floors != [] {
      var buckets := BucketsFor(rooms, floors);
      assert buckets[1..] == BucketsFor(rooms, floors[1..]);
      assert Distinct(floors[1..]);
      PoolOfBucketsFor(rooms, floors[1..], y);
      OnFloorCount(rooms, floors[0], y);
      assert Pool(buckets)[y] == multiset(SortSeq(OnFloor(rooms, floors[0])))[y] + Pool(buckets[1..])[y];
      if floors[0] == Floor(y) {
        forall k | 0 <= k < |floors[1..]| ensures floors[1..][k] != Floor(y) {
          assert floors[1..][k] == floors[k + 1];
        }
      } else {
        assert Floor(y) in floors <==> Floor(y) in floors[1..];
      }
    }
  }

  /** The floor list the search walks has no repeats. */
  lemma FloorOrderDistinct(rooms: seq<int>)
    ensures Distinct(FloorOrder(rooms))
  {
    forall f ensures multiset(FloorOrder(rooms))[f] <= 1 {
      FloorKeysCount(rooms, f);
    }
    DistinctCounts(FloorOrder(rooms));
  }

  /** The search's buckets hold exactly the available rooms: every room
      once per copy in the input, none added. */
  lemma PoolOfFloorBuckets(rooms: seq<int>)
    ensures Pool(FloorBuckets(rooms)) == multiset(rooms)
  {
    FloorOrderDistinct(rooms);
    FloorKeysMembership(rooms);
    forall y ensures Pool(FloorBuckets(rooms))[y] == multiset(rooms)[y] {
      PoolOfBucketsFor(rooms, FloorOrder(rooms), y);
      if y in rooms {
        var k :| 0 <= k < |rooms| && rooms[k] == y;
        assert HasFloor(rooms, Floor(y));
        assert Floor(y) in multiset(FloorOrder(rooms));
      }
    }
  }

  /** The selection the search returns for `numRooms` rooms out of `rooms`. */
  function MultiFloorSelection(rooms: seq<int>, numRooms: nat): seq<int>
  {
    ConsiderAll(Best(None, []), Candidates(FloorBuckets(rooms), 0, [], numRooms)).selection
  }

  /** Every candidate the search scores holds exactly `numRooms` of the
      available rooms. */
  lemma CandidatesOfRooms(rooms: seq<int>, numRooms: nat)
    ensures forall c :: c in Candidates(FloorBuckets(rooms), 0, [], numRooms) ==>
      |c| == numRooms && multiset(c) <= multiset(rooms)
  {
    var buckets := FloorBuckets(rooms);
    PoolOfFloorBuckets(rooms);
    assert buckets[0..] == buckets;
    CandidatesSound(buckets, 0, [], numRooms);
    forall c | c in Candidates(buckets, 0, [], numRooms)
      ensures |c| == numRooms && multiset(c) <= multiset(rooms)
    {
      PerFloorWindowsDrawn(buckets, 0, [], numRooms, c);
    }
  }

  /** The search scores some candidate exactly when enough rooms are free. */
  lemma CandidatesNonEmpty(rooms: seq<int>, numRooms: nat)
    ensures Candidates(FloorBuckets(rooms), 0, [], numRooms) != [] <==> |rooms| >= numRooms
  {
    var buckets := FloorBuckets(rooms);
    var candidates := Candidates(buckets, 0, [], numRooms);
    if candidates != [] {
      CandidatesOfRooms(rooms, numRooms);
      var c := candidates[0];
      assert c in candidates;
      assert multiset(rooms) == multiset(c) + (multiset(rooms) - multiset(c));
    }
    if |rooms| >= numRooms {
      PoolOfFloorBuckets(rooms);
      assert buckets[0..] == buckets;
      assert |Pool(buckets[0..])| >= numRooms;
      PerFloorWindowsExist(buckets, 0, [], numRooms);
      var c :| PerFloorWindows(buckets, 0, [], numRooms, c);
      CandidatesComplete(buckets, 0, [], numRooms, c);
    }
  }

  /** When enough rooms are free, the search returns, sorted, the first
      scored candidate of least travel time. */
  lemma MultiFloorSelectionFirstMin(rooms: seq<int>, numRooms: nat)
    requires |rooms| >= numRooms
    ensures var candidates := Candidates(FloorBuckets(rooms), 0, [], numRooms);
      (exists k: nat :: FirstMin(Scores(candidates), k) &&
        MultiFloorSelection(rooms, numRooms) == SortSeq(candidates[k]))
  {
    var candidates := Candidates(FloorBuckets(rooms), 0, [], numRooms);
    CandidatesNonEmpty(rooms, numRooms);
    ConsiderAllFirstMin(candidates);
  }

  /** The shape of the result: no rooms when there are too few, otherwise
      exactly `numRooms` of the available rooms, in ascending order. */
  lemma MultiFloorSelectionShape(rooms: seq<int>, numRooms: nat)
    ensures var r := MultiFloorSelection(rooms, numRooms);
      (|rooms| < numRooms ==> r == []) &&
      (|rooms| >= numRooms ==> |r| == numRooms) &&
      multiset(r) <= multiset(rooms) &&
      Sorted(r)
  {
    var candidates := Candidates(FloorBuckets(rooms), 0, [], numRooms);
    CandidatesOfRooms(rooms, numRooms);
    CandidatesNonEmpty(rooms, numRooms);
    if |rooms| >= numRooms {
      MultiFloorSelectionFirstMin(rooms, numRooms);
      var k: nat :| FirstMin(Scores(candidates), k) &&
        MultiFloorSelection(rooms, numRooms) == SortSeq(candidates[k]);
      assert candidates[k] in candidates;
      SortSeqSorted(candidates[k]);
    }
  }

  /** The result has the least travel time of all per-floor-window
      selections, not only of those the search happened to compare. */
  lemma MultiFloorSelectionOptimal(rooms: seq<int>, numRooms: nat)
    requires |rooms| >= numRooms
    ensures exists c :: (PerFloorWindows(FloorBuckets(rooms), 0, [], numRooms, c) &&
      MultiFloorSelection(rooms, numRooms) == SortSeq(c) &&
      forall c' :: PerFloorWindows(FloorBuckets(rooms), 0, [], numRooms, c') ==> TravelTime(c) <= TravelTime(c'))
  {
    var buckets := FloorBuckets(rooms);
    var candidates := Candidates(buckets, 0, [], numRooms);
    MultiFloorSelectionFirstMin(rooms, numRooms);
    var k: nat :| FirstMin(Scores(candidates), k) &&
      MultiFloorSelection(rooms, numRooms) == SortSeq(candidates[k]);
    var c := candidates[k];
    assert c in candidates;
    CandidatesSound(buckets, 0, [], numRooms);
    forall c' | PerFloorWindows(buckets, 0, [], numRooms, c')
      ensures TravelTime(c) <= TravelTime(c')
    {
      CandidatesComplete(buckets, 0, [], numRooms, c');
      var j :| 0 <= j < |candidates| && candidates[j] == c';
      assert Scores(candidates)[k] <= Scores(candidates)[j];
    }
  }

  /**
   * The state the source's recursive closure `generateCombinations`
   * captures: the grouping and the ascending floor list, which it only
   * reads, and the best time and selection, which it updates.
   */
  class MultiFloorSearch {
    const roomsByFloor: map<int, seq<int>>
    const floors: seq<int>
    var bestSelection: seq<int>
    var bestTime: Option<int>

    /** Every listed floor has a bucket. */
    ghost predicate Valid()
    {
      forall k :: 0 <= k < |floors| ==> floors[k] in roomsByFloor
    }

    /** The sorted bucket of each listed floor, in floor order. */
    ghost function Buckets(): seq<seq<int>>
      requires Valid()
    {
      seq(|floors|, i requires 0 <= i < |floors| => SortSeq(roomsByFloor[floors[i]]))
    }

    /** The best kept so far. */
    function Current(): Best
      reads this
    {
      Best(bestTime, bestSelection)
    }

    constructor (roomsByFloor: map<int, seq<int>>, floors: seq<int>)
      requires forall k :: 0 <= k < |floors| ==> floors[k] in roomsByFloor
      ensures this.roomsByFloor == roomsByFloor && this.floors == floors
      ensures Valid() && Current() == Best(None, [])
    {
      this.roomsByFloor := roomsByFloor;
      this.floors := floors;
      bestSelection := [];
      bestTime := None;
    }

    /** The complete-selection case of `generateCombinations`: a copy of
        the selection is scored by `calculateTravelTime` and, sorted by it,
        replaces the best when strictly better. */
    method ScoreSelection(currentSelection: seq<int>)
      modifies this
      ensures Current() == Consider(old(Current()), currentSelection)
    {
      var scored := NewArray(currentSelection);
      var time := CalculateTravelTime(scored);
      if bestTime.None? || time < bestTime.value {
        bestTime := Some(time);
        bestSelection := scored[..];
      }
    }

    /** `generateCombinations(floorIdx, currentSelection, remaining)`:
        scores the current selection once it is complete; otherwise tries,
        on floor `floorIdx`, every window size up to what is still needed
        and every window start, and recurses on the next floor. */
    method GenerateCombinations(floorIdx: nat, currentSelection: seq<int>, remaining: nat)
      requires Valid() && floorIdx <= |floors|
      modifies this
      ensures Current() == Explore(old(Current()), Buckets(), floorIdx, currentSelection, remaining)
      decreases |floors| - floorIdx, 1
    {
      ghost var buckets := Buckets();
      if remaining == 0 {
        ScoreSelection(currentSelection);
        return;
      }
      if floorIdx >= |floors| {
        return;
      }
      var floor := floors[floorIdx];
      var floorRooms := roomsByFloor[floor];
      ghost var target := ExploreTakes(old(Current()), buckets, floorIdx, currentSelection, remaining, 0);
      assert |buckets[floorIdx]| == |floorRooms|;
      var take := 0;
      while take <= MinNat(remaining, |floorRooms|)
        invariant take <= TakeBound(buckets, floorIdx, remaining) + 1
        invariant ExploreTakes(Current(), buckets, floorIdx, currentSelection, remaining, take) == target
      {
        var sortedFloorRooms := SortSeq(floorRooms);
        ScanWindows(floorIdx, currentSelection, remaining, take, sortedFloorRooms);
        take := take + 1;
      }
    }

    /** The start loop of `generateCombinations` for windows of size `take`
        of the floor's sorted rooms: each window extends the selection and
        the search recurses on the next floor. */
    method ScanWindows(floorIdx: nat, currentSelection: seq<int>, remaining: nat, take: nat, sortedFloorRooms: seq<int>)
      requires Valid() && floorIdx < |floors| && remaining > 0
      requires take <= TakeBound(Buckets(), floorIdx, remaining) && sortedFloorRooms == Buckets()[floorIdx]
      modifies this
      ensures Current() == ExploreStarts(old(Current()), Buckets(), floorIdx, currentSelection, remaining, take, 0)
      decreases |floors| - floorIdx, 0
    {
      ghost var buckets := Buckets();
      ghost var target := ExploreStarts(old(Current()), buckets, floorIdx, currentSelection, remaining, take, 0);
      var start := 0;
      while start <= |sortedFloorRooms| - take
        invariant start <= |sortedFloorRooms| - take + 1
        invariant ExploreStarts(Current(), buckets, floorIdx, currentSelection, remaining, take, start) == target
      {
        var selectedFromFloor := sortedFloorRooms[start..start + take];
        GenerateCombinations(floorIdx + 1, currentSelection + selectedFromFloor, remaining - take);
        start := start + 1;
      }
    }
  }

  /** The grouping built by `groupRoomsByFloor` has a bucket for each of
      its floors in ascending order, and sorting those buckets gives the
      buckets the search is specified over. */
  lemma GroupedBuckets(rooms: seq<int>, grouped: FloorIndex)
    requires grouped.keys == FloorKeys(rooms)
    requires forall f :: f in grouped.rooms <==> HasFloor(rooms, f)
    requires forall f :: f in grouped.rooms ==> grouped.rooms[f] == OnFloor(rooms, f)
    ensures forall k :: 0 <= k < |FloorOrder(rooms)| ==> FloorOrder(rooms)[k] in grouped.rooms
    ensures seq(|FloorOrder(rooms)|, i requires 0 <= i < |FloorOrder(rooms)| && FloorOrder(rooms)[i] in grouped.rooms =>
                SortSeq(grouped.rooms[FloorOrder(rooms)[i]])) == FloorBuckets(rooms)
  {
    var floors := FloorOrder(rooms);
    FloorKeysMembership(rooms);
    forall k | 0 <= k < |floors| ensures floors[k] in grouped.rooms {
      assert floors[k] in multiset(floors);
      assert floors[k] in multiset(grouped.keys);
      assert HasFloor(rooms, floors[k]);
    }
  }

  /** `findOptimalMultiFloorRooms`: groups the rooms, lists the floors in
      ascending order and runs the search from the lowest floor with
      nothing chosen yet. */
  method FindOptimalMultiFloorRooms(availableRooms: seq<int>, numRooms: nat) returns (bestSelection: seq<int>)
    ensures bestSelection == MultiFloorSelection(availableRooms, numRooms)
    ensures |availableRooms| < numRooms ==> bestSelection == []
    ensures |availableRooms| >= numRooms ==> |bestSelection| == numRooms
    ensures multiset(bestSelection) <= multiset(availableRooms)
    ensures Sorted(bestSelection)
    ensures |availableRooms| >= numRooms ==>
      exists c :: PerFloorWindows(FloorBuckets(availableRooms), 0, [], numRooms, c) &&
        bestSelection == SortSeq(c) &&
        forall c' :: PerFloorWindows(FloorBuckets(availableRooms), 0, [], numRooms, c') ==>
          TravelTime(c) <= TravelTime(c')
  {
    var roomsByFloor := GroupRoomsByFloor(availableRooms);
    var floors := SortSeq(roomsByFloor.keys);
    GroupedBuckets(availableRooms, roomsByFloor);
    var search := new MultiFloorSearch(roomsByFloor.rooms, floors);
    search.GenerateCombinations(0, [], numRooms);
    bestSelection := search.bestSelection;
    assert search.Buckets() == FloorBuckets(availableRooms);
    ExploreCandidates(Best(None, []), FloorBuckets(availableRooms), 0, [], numRooms);
    MultiFloorSelectionShape(availableRooms, numRooms);
    if |availableRooms| >= numRooms {
      MultiFloorSelectionOptimal(availableRooms, numRooms);
    }
  }
}
