/**
 * `HotelManager.groupRoomsByFloor`: buckets room identifiers by floor,
 * keeping the input order inside each bucket.
 */
module Grouping {
  import opened Rooms

  /** The source's `Record<number, number[]>` from floor to rooms, with
      its floors listed in order of first appearance. A JavaScript object
      lists non-negative integer keys in ascending order instead; the
      source sorts the keys before use, so neither order ever shows. */
  datatype FloorIndex = FloorIndex(keys: seq<int>, rooms: map<int, seq<int>>)

  /** Some room of `rooms` lies on floor `f`. */
  predicate HasFloor(rooms: seq<int>, f: int)
  {
    exists k :: 0 <= k < |rooms| && Floor(rooms[k]) == f
  }

  /** The rooms of `rooms` on floor `f`, in input order. */
  function OnFloor(rooms: seq<int>, f: int): (r: seq<int>)
    ensures |r| <= |rooms|
    ensures forall k :: 0 <= k < |r| ==> Floor(r[k]) == f
  {
    if rooms == [] then []
    else
      var last := rooms[|rooms| - 1];
      OnFloor(rooms[..|rooms| - 1], f) + (if Floor(last) == f then [last] else [])
  }

  /** The floors of `rooms`, each once, in order of first appearance. */
  function FloorKeys(rooms: seq<int>): seq<int>
  {
    if rooms == [] then []
    else
      var keys := FloorKeys(rooms[..|rooms| - 1]);
      var f := Floor(rooms[|rooms| - 1]);
      if f in keys then keys else keys + [f]
  }

  /** What `groupRoomsByFloor` has built after its first `i` rooms: the
      floors seen so far as keys, and for each the rooms seen on it. */
  ghost predicate GroupedUpTo(grouped: FloorIndex, rooms: seq<int>, i: nat)
    requires i <= |rooms|
  {
    grouped.keys == FloorKeys(rooms[..i]) &&
    (forall f :: f in grouped.rooms <==> f in grouped.keys) &&
    (forall f :: f in grouped.rooms ==> grouped.rooms[f] == OnFloor(rooms[..i], f)) &&
    (forall f :: f !in grouped.rooms ==> OnFloor(rooms[..i], f) == [])
  }

  /** `groupRoomsByFloor`: one pass over the rooms, creating a bucket the
      first time a floor is seen and appending each room to its bucket. */
  method GroupRoomsByFloor(rooms: seq<int>) returns (grouped: FloorIndex)
    ensures grouped.keys == FloorKeys(rooms)
    ensures forall f :: f in grouped.rooms <==> HasFloor(rooms, f)
    ensures forall f :: f in grouped.rooms ==> grouped.rooms[f] == OnFloor(rooms, f)
  {
    grouped := FloorIndex([], map[]);
    for i := 0 to |rooms|
      invariant GroupedUpTo(grouped, rooms, i)
    {
      ghost var before := grouped;
      var room := rooms[i];
      var floor := Floor(room);
      if floor !in grouped.rooms {
        grouped := grouped.(keys := grouped.keys + [floor], rooms := grouped.rooms[floor := []]);
      }
      ghost var created := grouped;
      grouped := grouped.(rooms := grouped.rooms[floor := grouped.rooms[floor] + [room]]);
      GroupStep(rooms, i, before, created, grouped);
    }
    assert rooms[..|rooms|] == rooms;
    FloorKeysMembership(rooms);
  }

  /** Extending the scanned prefix by one room appends it to its floor's
      bucket and, if its floor is new, to the keys. */
  lemma PrefixStep(rooms: seq<int>, i: nat)
    requires i < |rooms|
    ensures FloorKeys(rooms[..i + 1]) ==
      if Floor(rooms[i]) in FloorKeys(rooms[..i]) then FloorKeys(rooms[..i]) else FloorKeys(rooms[..i]) + [Floor(rooms[i])]
    ensures forall f :: (OnFloor(rooms[..i + 1], f) ==
      OnFloor(rooms[..i], f) + if Floor(rooms[i]) == f then [rooms[i]] else [])
  {
    assert rooms[..i + 1][..i] == rooms[..i];
  }

  /** One iteration of the grouping loop keeps what it has built in step
      with the rooms scanned. */
  lemma GroupStep(rooms: seq<int>, i: nat, before: FloorIndex, created: FloorIndex, after: FloorIndex)
    requires i < |rooms| && GroupedUpTo(before, rooms, i)
    requires created == if Floor(rooms[i]) !in before.rooms
      then before.(keys := before.keys + [Floor(rooms[i])], rooms := before.rooms[Floor(rooms[i]) := []])
      else before
    requires after == created.(rooms := created.rooms[Floor(rooms[i]) := created.rooms[Floor(rooms[i])] + [rooms[i]]])
    ensures GroupedUpTo(after, rooms, i + 1)
  {
    PrefixStep(rooms, i);
  }

  /** A floor is a key exactly when some room lies on it. */
  lemma {:induction false} FloorKeysMembership(rooms: seq<int>)
    ensures forall f :: f in FloorKeys(rooms) <==> HasFloor(rooms, f)
  {
    if rooms != [] {
      var init := rooms[..|rooms| - 1];
      FloorKeysMembership(init);
      forall f ensures HasFloor(rooms, f) <==> HasFloor(init, f) || Floor(rooms[|rooms| - 1]) == f {
        if HasFloor(rooms, f) {
          var k :| 0 <= k < |rooms| && Floor(rooms[k]) == f;
          if k < |rooms| - 1 { assert init[k] == rooms[k]; }
        }
        if HasFloor(init, f) {
          var k :| 0 <= k < |init| && Floor(init[k]) == f;
          assert rooms[k] == init[k];
        }
      }
    }
  }

  /** Every floor appears exactly once among the keys, and only floors that
      hold a room appear. */
  lemma {:induction false} FloorKeysCount(rooms: seq<int>, f: int)
    ensures multiset(FloorKeys(rooms))[f] == if f in FloorKeys(rooms) then 1 else 0
  {
    if rooms != [] {
      var init := rooms[..|rooms| - 1];
      FloorKeysCount(init, f);
    }
  }

  /** Grouping loses no room and adds none: bucket `f` holds every copy of
      each room on floor `f`, and nothing else. */
  lemma {:induction false} OnFloorCount(rooms: seq<int>, f: int, y: int)
    ensures multiset(OnFloor(rooms, f))[y] == if Floor(y) == f then multiset(rooms)[y] else 0
  {
    if rooms != [] {
      var init := rooms[..|rooms| - 1];
      OnFloorCount(init, f, y);
      assert rooms == init + [rooms[|rooms| - 1]];
    }
  }

  /** A bucket never holds more of a room than the input. */
  lemma OnFloorSubMultiset(rooms: seq<int>, f: int)
    ensures multiset(OnFloor(rooms, f)) <= multiset(rooms)
  {
    forall y ensures multiset(OnFloor(rooms, f))[y] <= multiset(rooms)[y] {
      OnFloorCount(rooms, f, y);
    }
  }

  /** Bucketing respects input order: the bucket of a concatenation is the
      concatenation of the buckets. */
  lemma {:induction false} OnFloorAppend(a: seq<int>, b: seq<int>, f: int)
    ensures OnFloor(a + b, f) == OnFloor(a, f) + OnFloor(b, f)
  {
    if b != [] {
      var init := b[..|b| - 1];
      OnFloorAppend(a, init, f);
      assert (a + b)[..|a + b| - 1] == a + init;
    } else {
      assert a + b == a;
    }
  }

  /** A floor's bucket is empty exactly when no room lies on that floor. */
  lemma {:induction false} OnFloorEmpty(rooms: seq<int>, f: int)
    ensures OnFloor(rooms, f) == [] <==> !HasFloor(rooms, f)
  {
    if rooms != [] {
      var init := rooms[..|rooms| - 1];
      OnFloorEmpty(init, f);
      if HasFloor(init, f) {
        var k :| 0 <= k < |init| && Floor(init[k]) == f;
        assert rooms[k] == init[k];
      }
      if HasFloor(rooms, f) {
        var k :| 0 <= k < |rooms| && Floor(rooms[k]) == f;
        if k < |rooms| - 1 { assert init[k] == rooms[k]; }
      }
    }
  }

  /** Rooms taken from a list of rooms on one floor lie on that floor. */
  lemma SameFloorSubMultiset(a: seq<int>, b: seq<int>, f: int)
    requires multiset(a) <= multiset(b)
    requires forall k :: 0 <= k < |b| ==> Floor(b[k]) == f
    ensures forall k :: 0 <= k < |a| ==> Floor(a[k]) == f
  {
    forall k | 0 <= k < |a| ensures Floor(a[k]) == f {
      assert a[k] in multiset(b);
      var j :| 0 <= j < |b| && b[j] == a[k];
    }
  }

  /** When every room lies on floor `f`, its bucket is the whole list. */
  lemma {:induction false} OnFloorWhole(rooms: seq<int>, f: int)
    requires forall k :: 0 <= k < |rooms| ==> Floor(rooms[k]) == f
    ensures OnFloor(rooms, f) == rooms
  {
    if rooms != [] {
      var init := rooms[..|rooms| - 1];
      OnFloorWhole(init, f);
      assert rooms == init + [rooms[|rooms| - 1]];
    }
  }
}
