/**
 * The travel-time metric of `HotelManager.calculateTravelTime`: two minutes
 * per floor between the lowest and the highest room, plus the walk along
 * the corridor. Only the two extreme identifiers of a group matter.
 */
module TravelTimeCalculator {
  import opened Rooms

  /** Cost of walking from room `firstRoom` to room `lastRoom`, where
      `firstRoom <= lastRoom`: vertical time is two minutes per floor; on one
      floor the walk is the difference of the identifiers, across floors it
      is the walk from each end room to the stairs at position 1. */
  function Metric(firstRoom: int, lastRoom: int): int
  {
    var firstFloor := Floor(firstRoom);
    var lastFloor := Floor(lastRoom);
    var verticalTime := Abs(lastFloor - firstFloor) * 2;
    var horizontalTime :=
      if firstFloor == lastFloor then lastRoom - firstRoom
      else (Position(firstRoom) - 1) + (Position(lastRoom) - 1);
    verticalTime + horizontalTime
  }

  /** Travel time of a group of rooms: zero for fewer than two rooms,
      otherwise the metric between the first and last room in ascending
      order. */
  function TravelTime(rooms: seq<int>): int
  {
    if |rooms| <= 1 then 0
    else
      var sortedRooms := SortSeq(rooms);
      Metric(sortedRooms[0], sortedRooms[|sortedRooms| - 1])
  }

  /** `calculateTravelTime` as the source runs it: the argument array is
      sorted in place (for two rooms or more; shorter arrays are already
      sorted) and the metric is read off its two ends. */
  method CalculateTravelTime(rooms: array<int>) returns (t: int)
    modifies rooms
    ensures rooms[..] == SortSeq(old(rooms[..]))
    ensures t == TravelTime(old(rooms[..]))
  {
    if rooms.Length <= 1 {
      SortSorted(rooms[..]);
      return 0;
    }
    var sortedRooms := SortSeq(rooms[..]);
    forall i | 0 <= i < rooms.Length {
      rooms[i] := sortedRooms[i];
    }
    assert rooms[..] == sortedRooms;
    var firstRoom := rooms[0];
    var lastRoom := rooms[rooms.Length - 1];
    var firstFloor := Floor(firstRoom);
    var lastFloor := Floor(lastRoom);
    var verticalTime := Abs(lastFloor - firstFloor) * 2;
    var horizontalTime := 0;
    if firstFloor == lastFloor {
      horizontalTime := lastRoom - firstRoom;
    } else {
      var firstRoomDistance := Position(firstRoom) - 1;
      var lastRoomDistance := Position(lastRoom) - 1;
      horizontalTime := firstRoomDistance + lastRoomDistance;
    }
    t := verticalTime + horizontalTime;
  }

  /** Floors never decrease as identifiers grow. */
  lemma FloorMonotone(a: int, b: int)
    requires a <= b
    ensures Floor(a) <= Floor(b)
  {
  }

  /** Only the minimum and the maximum identifier of a group matter. */
  lemma TravelTimeOfExtremes(rooms: seq<int>)
    requires |rooms| >= 2
    ensures TravelTime(rooms) == Metric(Min(rooms), Max(rooms))
  {
    assert TravelTime(rooms) == Metric(SortSeq(rooms)[0], SortSeq(rooms)[|SortSeq(rooms)| - 1]);
    SortEnds(rooms);
  }

  /** Reordering a group does not change its travel time. */
  lemma TravelTimePermutation(a: seq<int>, b: seq<int>)
    requires multiset(a) == multiset(b)
    ensures TravelTime(a) == TravelTime(b)
  {
    assert |a| == |multiset(a)| == |multiset(b)| == |b|;
    if |a| >= 2 {
      TravelTimeOfExtremes(a);
      TravelTimeOfExtremes(b);
      MinMaxPermutation(a, b);
    }
  }

  /** A group on one floor costs the difference between its extreme rooms. */
  lemma TravelTimeSameFloor(rooms: seq<int>)
    requires |rooms| >= 2 && Floor(Min(rooms)) == Floor(Max(rooms))
    ensures TravelTime(rooms) == Max(rooms) - Min(rooms)
  {
    TravelTimeOfExtremes(rooms);
  }

  /** A group spread over several floors costs two minutes per floor
      between its lowest and highest floor, plus the walk from each extreme
      room to the stairs. */
  lemma TravelTimeCrossFloor(rooms: seq<int>)
    requires |rooms| >= 2 && Floor(Min(rooms)) != Floor(Max(rooms))
    ensures Floor(Min(rooms)) < Floor(Max(rooms))
    ensures TravelTime(rooms) == 2 * (Floor(Max(rooms)) - Floor(Min(rooms)))
                                 + (Position(Min(rooms)) - 1) + (Position(Max(rooms)) - 1)
  {
    TravelTimeOfExtremes(rooms);
    FloorMonotone(Min(rooms), Max(rooms));
  }

  /** Groups of non-negative identifiers never have a negative travel time. */
  lemma TravelTimeNonNegative(rooms: seq<int>)
    requires forall k :: 0 <= k < |rooms| ==> rooms[k] >= 0
    ensures TravelTime(rooms) >= 0
  {
    if |rooms| >= 2 {
      var lo, hi := Min(rooms), Max(rooms);
      TravelTimeOfExtremes(rooms);
      FloorMonotone(lo, hi);
      assert lo >= 0 && hi >= 0;
    }
  }

  /** For rooms of the building, leaving the first floor of a group costs at
      least the two minutes per floor of the stairs. */
  lemma TravelTimeLayoutBounds(rooms: seq<int>)
    requires |rooms| >= 2
    requires forall k :: 0 <= k < |rooms| ==> InLayout(rooms[k])
    ensures 2 * (Floor(Max(rooms)) - Floor(Min(rooms))) <= TravelTime(rooms)
  {
    var lo, hi := Min(rooms), Max(rooms);
    TravelTimeOfExtremes(rooms);
    FloorMonotone(lo, hi);
    assert InLayout(lo) && InLayout(hi);
  }

  /** Travel times of small groups of neighbouring floor-1 rooms: three
      of them cost 2 minutes, whatever their order. */
  lemma ThreeRoomExample(rooms: seq<int>)
    requires multiset(rooms) == multiset{101, 102, 103}
    ensures TravelTime(rooms) == 2
  {
    assert |rooms| == 3;
    var lo, hi := Min(rooms), Max(rooms);
    assert lo in multiset(rooms) && hi in multiset(rooms);
    assert 101 <= lo <= 103 && 101 <= hi <= 103;
    assert 101 in multiset(rooms) && 103 in multiset(rooms);
    assert 101 in rooms && 103 in rooms;
    TravelTimeOfExtremes(rooms);
    assert Metric(101, 103) == 2;
  }

  /** Five neighbouring rooms of floor 1 cost 4 minutes. */
  lemma FiveRoomExample(rooms: seq<int>)
    requires multiset(rooms) == multiset{101, 102, 103, 104, 105}
    ensures TravelTime(rooms) == 4
  {
    assert |rooms| == 5;
    var lo, hi := Min(rooms), Max(rooms);
    assert lo in multiset(rooms) && hi in multiset(rooms);
    assert 101 <= lo <= 105 && 101 <= hi <= 105;
    assert 101 in multiset(rooms) && 105 in multiset(rooms);
    assert 101 in rooms && 105 in rooms;
    TravelTimeOfExtremes(rooms);
    assert Metric(101, 105) == 4;
  }

  /** Two neighbours on floor 2 cost one minute; the corner walk from room
      110 down the corridor, up one floor and along to room 201 costs 11. */
  lemma PairExamples()
    ensures TravelTime([201, 202]) == 1
    ensures TravelTime([110, 201]) == 11
  {
    TravelTimeOfExtremes([201, 202]);
    TravelTimeOfExtremes([110, 201]);
  }
}
