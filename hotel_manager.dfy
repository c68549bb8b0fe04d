/**
 * `HotelManager.findOptimalRooms`: the booking policy. A request that one
 * floor of the building (floors 1 to 10) can satisfy is served from the
 * lowest such floor by the closest window of its rooms; otherwise the
 * multi-floor search picks the cheapest per-floor-window combination.
 */
module HotelManager {
  import opened Wrappers
  import opened Rooms
  import opened TravelTimeCalculator
  import opened Grouping
  import opened SameFloor
  import opened MultiFloor

  /** The floors the single-floor pass scans, in order:
      `Array.from({ length: 10 }, (_, i) => i + 1)`. */
  const LowestFloor := 1
  const HighestFloor := 10

  /** Floor `f` is the lowest of floors 1 to 10 holding at least
      `numRooms` of the available rooms. */
  predicate FirstFittingFloor(rooms: seq<int>, numRooms: nat, f: int)
  {
    LowestFloor <= f <= HighestFloor && |OnFloor(rooms, f)| >= numRooms &&
    forall g :: LowestFloor <= g < f ==> |OnFloor(rooms, g)| < numRooms
  }

  /** None of floors 1 to 10 holds `numRooms` of the available rooms. */
  predicate NoFittingFloor(rooms: seq<int>, numRooms: nat)
  {
    forall g :: LowestFloor <= g <= HighestFloor ==> |OnFloor(rooms, g)| < numRooms
  }

  /** The single-floor pass: the first floor from `floor` up to 10 that
      holds at least `numRooms` of the available rooms, if any. */
  function FirstFit(rooms: seq<int>, numRooms: nat, floor: int): Option<int>
    decreases HighestFloor + 1 - floor
  {
    if floor > HighestFloor then None
    else if |OnFloor(rooms, floor)| >= numRooms then Some(floor)
    else FirstFit(rooms, numRooms, floor + 1)
  }

  /** Scanning from `from` finds what scanning from floor 1 finds once the
      floors below `from` are known not to fit: the lowest fitting floor, or
      nothing exactly when no floor fits. */
  lemma {:induction false} FirstFitFrom(rooms: seq<int>, numRooms: nat, from: int)
    requires LowestFloor <= from <= HighestFloor + 1
    requires forall g :: LowestFloor <= g < from ==> |OnFloor(rooms, g)| < numRooms
    ensures forall f :: FirstFit(rooms, numRooms, from) == Some(f) <==> FirstFittingFloor(rooms, numRooms, f)
    ensures FirstFit(rooms, numRooms, from) == None <==> NoFittingFloor(rooms, numRooms)
    decreases HighestFloor + 1 - from
  {
    if from <= HighestFloor && |OnFloor(rooms, from)| < numRooms {
      FirstFitFrom(rooms, numRooms, from + 1);
    }
  }

  /** The scan over floors 1 to 10 yields exactly the lowest fitting floor,
      and nothing exactly when no floor fits. */
  lemma FirstFitLowest(rooms: seq<int>, numRooms: nat)
    ensures forall f :: FirstFit(rooms, numRooms, LowestFloor) == Some(f) <==> FirstFittingFloor(rooms, numRooms, f)
    ensures FirstFit(rooms, numRooms, LowestFloor) == None <==> NoFittingFloor(rooms, numRooms)
  {
    FirstFitFrom(rooms, numRooms, LowestFloor);
  }

  /** No floor fits a request larger than the whole list of rooms. */
  lemma {:induction false} FirstFitTooFew(rooms: seq<int>, numRooms: nat, from: int)
    requires |rooms| < numRooms
    ensures FirstFit(rooms, numRooms, from) == None
    decreases HighestFloor + 1 - from
  {
    if from <= HighestFloor {
      FirstFitTooFew(rooms, numRooms, from + 1);
    }
  }

  /** A window of an ascending list of rooms of one floor, taken from the
      available rooms, is ascending, lies on that floor and is drawn from
      the available rooms. */
  lemma FloorWindowDrawn(rooms: seq<int>, sorted: seq<int>, f: int, start: nat, numRooms: nat)
    requires Sorted(sorted) && multiset(sorted) <= multiset(rooms)
    requires forall k :: 0 <= k < |sorted| ==> Floor(sorted[k]) == f
    requires start + numRooms <= |sorted|
    ensures Sorted(Window(sorted, start, numRooms))
    ensures multiset(Window(sorted, start, numRooms)) <= multiset(rooms)
    ensures forall k :: 0 <= k < numRooms ==> Floor(Window(sorted, start, numRooms)[k]) == f
  {
    var w := Window(sorted, start, numRooms);
    SliceSubMultiset(sorted, start, start + numRooms);
    forall k | 0 <= k < numRooms ensures Floor(w[k]) == f {
      assert w[k] == sorted[start + k];
    }
  }

  /** `findOptimalRooms`: no rooms when fewer are available than
      requested; otherwise the closest window of the lowest floor among 1
      to 10 that can hold the whole request, and failing that the
      multi-floor search. The caller's array is only read. */
  method FindOptimalRooms(availableRooms: array<int>, numRooms: nat) returns (r: seq<int>)
    ensures availableRooms.Length < numRooms ==> r == []
    ensures availableRooms.Length >= numRooms ==> |r| == numRooms
    ensures multiset(r) <= multiset(availableRooms[..])
    ensures Distinct(availableRooms[..]) ==> Distinct(r)
    ensures Sorted(r)
    ensures FirstFit(availableRooms[..], numRooms, LowestFloor).Some? ==>
      var f := FirstFit(availableRooms[..], numRooms, LowestFloor).value;
      (forall k :: 0 <= k < |r| ==> Floor(r[k]) == f) &&
      exists best :: FirstBestWindow(SortSeq(OnFloor(availableRooms[..], f)), numRooms, best) &&
        r == Window(SortSeq(OnFloor(availableRooms[..], f)), best, numRooms)
    ensures availableRooms.Length >= numRooms && FirstFit(availableRooms[..], numRooms, LowestFloor).None? ==>
      r == MultiFloorSelection(availableRooms[..], numRooms)
  {
    var rooms := availableRooms[..];
    if availableRooms.Length < numRooms {
      FirstFitTooFew(rooms, numRooms, LowestFloor);
      return [];
    }
    var roomsByFloor := GroupRoomsByFloor(rooms);
    for floor := LowestFloor to HighestFloor + 1
      invariant FirstFit(rooms, numRooms, LowestFloor) == FirstFit(rooms, numRooms, floor)
    {
      var floorRooms := if floor in roomsByFloor.rooms then roomsByFloor.rooms[floor] else [];
      OnFloorEmpty(rooms, floor);
      assert floorRooms == OnFloor(rooms, floor);
      if |floorRooms| >= numRooms {
        var sortedFloorRooms := SortSeq(floorRooms);
        SortSeqSorted(floorRooms);
        r := SelectClosestRooms(sortedFloorRooms, numRooms);
        var best :| FirstBestWindow(sortedFloorRooms, numRooms, best) && r == Window(sortedFloorRooms, best, numRooms);
        OnFloorSubMultiset(rooms, floor);
        SameFloorSubMultiset(sortedFloorRooms, floorRooms, floor);
        FloorWindowDrawn(rooms, sortedFloorRooms, floor, best, numRooms);
        if Distinct(rooms) {
          DistinctSubMultiset(rooms, r);
        }
        return;
      }
    }
    r := FindOptimalMultiFloorRooms(rooms, numRooms);
    if Distinct(rooms) {
      DistinctSubMultiset(rooms, r);
    }
  }

  /** Same floor first: with room 110 free on floor 1 and rooms 201 and
      202 free on floor 2, a request for two rooms is served from floor 2,
      whose only window is 201, 202, although the cross-floor pair 110,
      201 exists (`PairExamples` gives their travel times, 1 and 11). By
      the contract of `FindOptimalRooms`, that window is the result. */
  lemma SameFloorFirstExample()
    ensures FirstFit([110, 201, 202], 2, LowestFloor) == Some(2)
    ensures SortSeq(OnFloor([110, 201, 202], 2)) == [201, 202]
    ensures forall best :: FirstBestWindow([201, 202], 2, best) ==> Window([201, 202], best, 2) == [201, 202]
  {
    SingleWindow([201, 202]);
    SameFloorFirstPass();
  }

  /** The floor pass of `SameFloorFirstExample`. */
  lemma SameFloorFirstPass()
    ensures FirstFit([110, 201, 202], 2, LowestFloor) == Some(2)
    ensures SortSeq(OnFloor([110, 201, 202], 2)) == [201, 202]
  {
    var rooms := [110, 201, 202];
    assert rooms[..2] == [110, 201] && [110, 201][..1] == [110] && [110][..0] == [];
    assert OnFloor(rooms, 1) == [110];
    assert OnFloor(rooms, 2) == [201, 202];
    SortSorted([201, 202]);
  }

  /** Same floor first even at a price: with rooms 101 and 110 free on
      floor 1 and room 201 on floor 2, a request for two rooms is served
      from floor 1 by its only window 101, 110 (`CheaperPairExample` gives
      the prices). */
  lemma SameFloorCostExample()
    ensures FirstFit([101, 110, 201], 2, LowestFloor) == Some(1)
    ensures SortSeq(OnFloor([101, 110, 201], 1)) == [101, 110]
    ensures forall best :: FirstBestWindow([101, 110], 2, best) ==> Window([101, 110], best, 2) == [101, 110]
  {
    SingleWindow([101, 110]);
    SameFloorCostPass();
  }

  /** The floor pass of `SameFloorCostExample`. */
  lemma SameFloorCostPass()
    ensures FirstFit([101, 110, 201], 2, LowestFloor) == Some(1)
    ensures SortSeq(OnFloor([101, 110, 201], 1)) == [101, 110]
  {
    var rooms := [101, 110, 201];
    assert rooms[..2] == [101, 110] && [101, 110][..1] == [101] && [101][..0] == [];
    assert OnFloor(rooms, 1) == [101, 110];
    SortSorted([101, 110]);
  }

  /** The window 101, 110 costs 9 minutes, while the pair 101, 201, one
      room from each floor of the same free rooms, costs only 2. */
  lemma CheaperPairExample()
    ensures TravelTime([101, 110]) == 9
    ensures TravelTime([101, 201]) == 2
  {
    TravelTimeOfExtremes([101, 110]);
    TravelTimeOfExtremes([101, 201]);
  }

  /** When the free rooms are a run of consecutive rooms of one floor
      among 1 to 10, any request they can hold is served from that floor,
      and since all its windows tie, by the first rooms of the run. */
  lemma ConsecutiveFloorRequest(s: seq<int>, f: int, n: nat)
    requires 1 <= n <= |s|
    requires forall k :: 0 <= k < |s| ==> s[k] == s[0] + k && Floor(s[k]) == f
    requires LowestFloor <= f <= HighestFloor
    ensures FirstFit(s, n, LowestFloor) == Some(f)
    ensures SortSeq(OnFloor(s, f)) == s
    ensures forall best :: FirstBestWindow(s, n, best) ==> Window(s, best, n) == s[..n]
  {
    OnFloorWhole(s, f);
    assert Sorted(s);
    SortSorted(s);
    forall g | LowestFloor <= g < f ensures |OnFloor(s, g)| < n {
      OnFloorEmpty(s, g);
    }
    FirstFitLowest(s, n);
    assert FirstFittingFloor(s, n, f);
    forall best | FirstBestWindow(s, n, best) ensures Window(s, best, n) == s[..n] {
      ConsecutiveFirstWindow(s, n, best);
    }
  }

  /** Rooms 101 to 110, the whole of floor 1. */
  const FloorOneRooms: seq<int> := seq(10, k => 101 + k)

  /** Floor 1 entirely free: three rooms requested give 101, 102, 103
      (2 minutes by `ThreeRoomExample`), five give 101 to 105 (4 minutes
      by `FiveRoomExample`). */
  lemma FloorOneExamples()
    ensures forall best :: FirstBestWindow(FloorOneRooms, 3, best) ==>
      Window(FloorOneRooms, best, 3) == [101, 102, 103]
    ensures forall best :: FirstBestWindow(FloorOneRooms, 5, best) ==>
      Window(FloorOneRooms, best, 5) == [101, 102, 103, 104, 105]
  {
    assert FloorOneRooms[..3] == [101, 102, 103];
    assert FloorOneRooms[..5] == [101, 102, 103, 104, 105];
    FloorOneShape();
    ConsecutiveFloorRequest(FloorOneRooms, 1, 3);
    ConsecutiveFloorRequest(FloorOneRooms, 1, 5);
  }

  /** Floor 1 entirely free: requests for three and for five rooms are
      both served from floor 1, whose sorted rooms are the whole run. */
  lemma FloorOnePass()
    ensures FirstFit(FloorOneRooms, 3, LowestFloor) == Some(1)
    ensures FirstFit(FloorOneRooms, 5, LowestFloor) == Some(1)
    ensures SortSeq(OnFloor(FloorOneRooms, 1)) == FloorOneRooms
  {
    FloorOneShape();
    ConsecutiveFloorRequest(FloorOneRooms, 1, 3);
    ConsecutiveFloorRequest(FloorOneRooms, 1, 5);
  }

  /** Floor 1's rooms are consecutive, ascending and all on floor 1. */
  lemma FloorOneShape()
    ensures |FloorOneRooms| == 10 && Sorted(FloorOneRooms)
    ensures forall k :: 0 <= k < |FloorOneRooms| ==>
      FloorOneRooms[k] == FloorOneRooms[0] + k && Floor(FloorOneRooms[k]) == 1
  {
    var s := FloorOneRooms;
    forall k | 0 <= k < |s| ensures s[k] == s[0] + k && Floor(s[k]) == 1 {
    }
  }
}
