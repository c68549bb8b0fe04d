# Hotel room allocator, modelled in Dafny

This project models `HotelManager`, the room-allocation core of a hotel
booking tool. The building has floors 1 to 10. The identifier of a room
encodes its floor and its position along the corridor: floor `id / 100`,
position `id % 100`. A booking asks for a number of rooms out of a list of
free ones. The allocator answers with an ordered list of rooms:

- **Travel time.** A group of rooms costs two minutes per floor between its
  lowest and highest room. On top of that comes the walk along the
  corridor: the difference of the identifiers on one floor, or the walk
  from each end room to the stairs at position 1 across floors. Groups of
  zero or one room cost nothing.
- **Too few rooms.** A request larger than the list of free rooms gets no
  rooms.
- **Same floor first.** Floors 1 to 10 are scanned in ascending order. The
  first floor with enough free rooms serves the whole request. Its rooms
  are sorted and the first window of consecutive rooms with the least
  travel time is returned.
- **Across floors.** If none of floors 1 to 10 fits, a backtracking search runs.
  Floor by floor, in ascending order, it takes one contiguous window
  (possibly empty) of each floor's sorted rooms until the request is met.
  It keeps the first complete selection of least travel time, sorted.

The modules follow the source's methods:

- `Rooms`: floors, positions, the numeric sort and sequence vocabulary.
- `TravelTimeCalculator`: `calculateTravelTime`.
- `Grouping`: `groupRoomsByFloor`.
- `SameFloor`: `selectClosestRooms`.
- `MultiFloor`: `findOptimalMultiFloorRooms` and its recursive closure
  `generateCombinations`.
- `HotelManager`: `findOptimalRooms`.
- `Wrappers`: the `Option` type. `None` plays the source's
  `Number.POSITIVE_INFINITY` for "no best time yet".

Code that loops or updates state in place is modelled as imperative
Dafny, each method proved against a specification function:

- `CalculateTravelTime` sorts its array argument in place.
- `GroupRoomsByFloor` and `SelectClosestRooms` are loops.
- The multi-floor search is the class `MultiFloorSearch`. It holds the
  variables the closure captures: the grouping and the floor list, which
  it reads, and the best time and selection, which it updates.

The multi-floor search is specified three ways:

1. As the function `Explore`, which follows the source's recursion.
2. As the ordered list of complete selections it scores (`Candidates`),
   folded by the strict-less update (`ConsiderAll`).
3. Declaratively, as every selection made of one contiguous window per
   floor (`PerFloorWindows`).

Lemmas connect the three. `Explore` scores exactly the `Candidates`, in
order. The candidates are exactly the per-floor-window selections.

`findOptimalRooms` only reads the caller's array. Everything the source
sorts in place is a copy it made itself: a slice, a spread, or a bucket of
the grouping. `FindOptimalRooms` takes an `array` and has no `modifies`
clause, so Dafny checks that the array is left unchanged. One might expect
the opposite, because `calculateTravelTime` sorts its own argument. The
code shows that argument is always a fresh copy.

## Model

| member | source | states |
|---|---|---|
| Rooms.SortSeq | lib/hotel-manager.ts:10 | the numeric sort `sort((a, b) => a - b)` returns a rearrangement of its input: same length, same multiset |
| Rooms.SortSeqSorted | lib/hotel-manager.ts:10 | the sort's result is ascending |
| Rooms.SortSorted | lib/hotel-manager.ts:128 | sorting an ascending list changes nothing, so re-sorting a floor's bucket on each pass of the size loop is harmless |
| Rooms.SortEnds | lib/hotel-manager.ts:10-12 | after sorting, the first room is the minimum and the last is the maximum |
| Rooms.Position | lib/hotel-manager.ts:30-31 | the position `id % 100` lies strictly between -100 and 100; for non-negative identifiers it is the identifier minus 100 times its floor |
| Rooms.FirstMinStep | lib/hotel-manager.ts:90-93 | one step of a strict-less scan: the new score takes over exactly when it is smaller, so the first least score so far is kept |
| Rooms.DistinctSubMultiset | lib/hotel-manager.ts:43-64 | rooms drawn from a list without repeats have no repeats |
| TravelTimeCalculator.CalculateTravelTime | lib/hotel-manager.ts:7-36 | the argument array is left sorted ascending, and the result is the travel time of its original contents |
| TravelTimeCalculator.TravelTimeOfExtremes | lib/hotel-manager.ts:10-18 | for two rooms or more, the travel time is the metric between the minimum and the maximum room, whatever lies in between |
| TravelTimeCalculator.TravelTimePermutation | lib/hotel-manager.ts:7-36 | two groups holding the same rooms in any order have the same travel time |
| TravelTimeCalculator.TravelTimeSameFloor | lib/hotel-manager.ts:25-27 | a group on one floor costs its highest room minus its lowest |
| TravelTimeCalculator.TravelTimeCrossFloor | lib/hotel-manager.ts:14-33 | a group over several floors costs two minutes per floor spanned plus each end room's distance to position 1 |
| TravelTimeCalculator.TravelTimeNonNegative | lib/hotel-manager.ts:14-35 | groups of non-negative identifiers never cost less than zero |
| TravelTimeCalculator.TravelTimeLayoutBounds | lib/hotel-manager.ts:14-18 | for rooms of the building's layout, the travel time is at least two minutes per floor spanned |
| TravelTimeCalculator.ThreeRoomExample | lib/hotel-manager.ts:7-36 | rooms 101, 102 and 103 in any order cost 2 minutes |
| TravelTimeCalculator.FiveRoomExample | lib/hotel-manager.ts:7-36 | rooms 101 to 105 in any order cost 4 minutes |
| TravelTimeCalculator.PairExamples | lib/hotel-manager.ts:7-36 | rooms 201 and 202 cost 1 minute; rooms 110 and 201 cost 11 |
| Grouping.GroupRoomsByFloor | lib/hotel-manager.ts:66-78 | the keys are the floors in order of first appearance; a floor has a bucket exactly when some room lies on it; each bucket holds that floor's rooms in input order |
| Grouping.GroupStep | lib/hotel-manager.ts:69-75 | one loop iteration appends the room to its floor's bucket, creating the bucket and the key the first time the floor is seen |
| Grouping.FloorKeysMembership | lib/hotel-manager.ts:69-73 | a floor is a key exactly when some room lies on it |
| Grouping.FloorKeysCount | lib/hotel-manager.ts:71-73 | no floor is listed twice among the keys |
| Grouping.OnFloorCount | lib/hotel-manager.ts:69-75 | grouping partitions the input: bucket `f` holds every copy of each room on floor `f` and nothing else |
| Grouping.OnFloorSubMultiset | lib/hotel-manager.ts:74 | a bucket never holds more of a room than the input |
| Grouping.OnFloorAppend | lib/hotel-manager.ts:69-75 | input order is preserved: the bucket of a concatenation is the concatenation of the buckets |
| Grouping.OnFloorEmpty | lib/hotel-manager.ts:52 | the fallback `\|\| []` is the empty bucket: a floor's bucket is empty exactly when no room lies on it |
| Grouping.SameFloorSubMultiset | lib/hotel-manager.ts:56 | rooms taken from one floor's bucket lie on that floor |
| Grouping.OnFloorWhole | lib/hotel-manager.ts:69-75 | when every room lies on one floor, that floor's bucket is the whole list |
| SameFloor.SelectClosestRooms | lib/hotel-manager.ts:80-97 | no rooms when the floor has fewer than requested; otherwise the sorted first window of least travel time, ties going to the earliest start; on an ascending floor list, that window itself |
| SameFloor.WindowsCoverChoices | lib/hotel-manager.ts:80-97 | windows are exhaustive on one floor: for any choice of rooms drawn from an ascending list of rooms of one floor, some window of as many rooms costs no more |
| SameFloor.FirstBestWindowOptimal | lib/hotel-manager.ts:80-97 | the first best window of an ascending one-floor list costs no more than any choice of as many of its rooms, window or not |
| SameFloor.SingleWindow | lib/hotel-manager.ts:85-87 | a request for every room of a list has one window, the list itself |
| SameFloor.ConsecutiveWindowTime | lib/hotel-manager.ts:85-89 | every window of a run of consecutive rooms of one floor costs one minute per room beyond the first |
| SameFloor.ConsecutiveFirstWindow | lib/hotel-manager.ts:85-96 | on such a run all windows tie, so the strict-less scan keeps the first window |
| MultiFloor.ConsiderAllAppend | lib/hotel-manager.ts:110-134 | scoring two lists of selections one after the other is scoring their concatenation |
| MultiFloor.ScanIndexFirstMin | lib/hotel-manager.ts:113-116 | the strict-less scan holds the first least travel time among the selections seen |
| MultiFloor.KeepPrefix | lib/hotel-manager.ts:111-117 | after scoring a prefix of the selections, the best is the one the strict-less scan holds, with its travel time and sorted |
| MultiFloor.ConsiderAllFirstMin | lib/hotel-manager.ts:111-117 | scoring a non-empty list from infinity keeps its first selection of least travel time, sorted |
| MultiFloor.ExploreCandidates | lib/hotel-manager.ts:110-134 | the recursion scores exactly the enumerated complete selections, in the order of ascending floor, then ascending size, then ascending start |
| MultiFloor.ExploreTakesFrom | lib/hotel-manager.ts:126-133 | the size loop scores the windows of each size in turn |
| MultiFloor.ExploreStartsFrom | lib/hotel-manager.ts:129-132 | the start loop scores what the recursion on the next floor scores for each window in turn |
| MultiFloor.CandidatesSound | lib/hotel-manager.ts:110-134 | every scored selection is one contiguous window of each floor, in floor order, of exactly the requested size |
| MultiFloor.CandidatesComplete | lib/hotel-manager.ts:110-134 | every such per-floor-window selection is scored |
| MultiFloor.PerFloorWindowsDrawn | lib/hotel-manager.ts:126-131 | a per-floor-window selection adds exactly the rooms still needed, all from the floors still open |
| MultiFloor.PerFloorWindowsExist | lib/hotel-manager.ts:126-131 | when the open floors hold enough rooms, some per-floor-window selection exists |
| MultiFloor.PoolOfBucketsFor | lib/hotel-manager.ts:100-107 | the buckets of distinct floors hold each room of a listed floor as often as the input does |
| MultiFloor.FloorOrderDistinct | lib/hotel-manager.ts:105-107 | the ascending floor list has no repeats |
| MultiFloor.PoolOfFloorBuckets | lib/hotel-manager.ts:100-107 | the search's buckets hold exactly the available rooms |
| MultiFloor.CandidatesOfRooms | lib/hotel-manager.ts:110-136 | every scored selection holds exactly the requested number of available rooms |
| MultiFloor.CandidatesNonEmpty | lib/hotel-manager.ts:110-136 | some selection is scored exactly when enough rooms are available |
| MultiFloor.MultiFloorSelectionFirstMin | lib/hotel-manager.ts:99-138 | with enough rooms, the result is the first scored selection of least travel time, sorted |
| MultiFloor.MultiFloorSelectionShape | lib/hotel-manager.ts:99-138 | no rooms when too few are available, otherwise exactly the requested number; drawn from the available rooms; ascending |
| MultiFloor.MultiFloorSelectionOptimal | lib/hotel-manager.ts:99-138 | the result has the least travel time of all per-floor-window selections, not only of those compared |
| MultiFloor.MultiFloorSearch.ScoreSelection | lib/hotel-manager.ts:111-117 | a complete selection, sorted by `calculateTravelTime`, replaces the best exactly when its time is strictly smaller |
| MultiFloor.MultiFloorSearch.GenerateCombinations | lib/hotel-manager.ts:110-134 | the best after the call is what the recursion `Explore` gives from the best before it |
| MultiFloor.MultiFloorSearch.ScanWindows | lib/hotel-manager.ts:128-132 | the best after the start loop is what `ExploreStarts` gives from the best before it |
| MultiFloor.GroupedBuckets | lib/hotel-manager.ts:100-123 | every listed floor has a bucket, and the sorted buckets in floor order are the buckets the search is specified over |
| MultiFloor.FindOptimalMultiFloorRooms | lib/hotel-manager.ts:99-138 | the result is the search's selection: empty when too few rooms, otherwise exactly the requested number of available rooms, ascending, and of least travel time among all per-floor-window selections |
| HotelManager.FirstFitFrom | lib/hotel-manager.ts:51-60 | once the floors below are known not to fit, scanning on finds the lowest fitting floor, and nothing exactly when no floor up to 10 fits |
| HotelManager.FirstFitLowest | lib/hotel-manager.ts:51-60 | the scan of floors 1 to 10 yields exactly the lowest floor with enough rooms, or nothing exactly when none has enough |
| HotelManager.FirstFitTooFew | lib/hotel-manager.ts:44-46 | no floor fits a request larger than the list of rooms |
| HotelManager.FloorWindowDrawn | lib/hotel-manager.ts:53-58 | a window of one floor's sorted rooms is ascending, lies on that floor and is drawn from the available rooms |
| HotelManager.FindOptimalRooms | lib/hotel-manager.ts:43-64 | no rooms when too few are available, otherwise exactly the requested number; drawn from the available rooms; without repeats if the input has none; ascending. If a floor from 1 to 10 has enough rooms, the result is the first best window of the lowest such floor. Otherwise it is the multi-floor selection. The caller's array is only read |
| HotelManager.SameFloorFirstExample | lib/hotel-manager.ts:51-59 | with room 110 on floor 1 and rooms 201, 202 on floor 2, a two-room request is served from floor 2, whose only window is 201, 202; with `FindOptimalRooms` that pins the result to 201, 202 (1 minute by `PairExamples`), although the pair 110, 201 exists |
| HotelManager.SameFloorCostExample | lib/hotel-manager.ts:51-59 | with rooms 101, 110 on floor 1 and room 201 on floor 2, a two-room request is served from floor 1 by its only window 101, 110 |
| HotelManager.CheaperPairExample | lib/hotel-manager.ts:7-36 | the window 101, 110 costs 9 minutes, while the pair 101, 201 of the same free rooms costs 2: same floor first is not cheapest first |
| HotelManager.ConsecutiveFloorRequest | lib/hotel-manager.ts:51-59 | when the free rooms are a run of consecutive rooms of one of floors 1 to 10, a request they can hold is served from that floor by the first rooms of the run |
| HotelManager.FloorOnePass | lib/hotel-manager.ts:51-56 | with rooms 101 to 110 free, requests for three and five rooms are served from floor 1, whose sorted rooms are 101 to 110 |
| HotelManager.FloorOneExamples | lib/hotel-manager.ts:51-59 | with rooms 101 to 110 free, three rooms requested give 101, 102, 103 and five give 101 to 105 |

## Left out

- The web pages and components (`app/page.tsx`, `components/*.tsx`) are not part of this model. They hold the user interface and the room occupancy state.
- JavaScript numbers are modelled as unbounded integers. Fractional identifiers, NaN and infinities are not modelled, and a request count is a natural number.
- The floors taken from `Object.keys(...).map(Number)` are modelled as the integer floors directly. The conversion to strings and back is the identity on integers. The model lists the floors in order of first appearance, whereas a JavaScript object lists non-negative integer keys in ascending order and negative ones in insertion order; the keys are sorted before use (line 107), so the search never sees either order.
- The in-place sorts of a floor's bucket (lines 56 and 128) are modelled as reading a sorted copy of the bucket. The search never observes the difference: the grouping is private to one call, and sorting an ascending list changes nothing (`Rooms.SortSorted`).
- The start loop of `generateCombinations` is the helper method `MultiFloorSearch.ScanWindows`. Its body is unchanged.
- The search's running time is not modelled, and neither is its exponential growth.
- Identifiers outside the building's layout are accepted, as in the source. Only `TravelTimeLayoutBounds` assumes the layout.
- The same-floor selection is "without repeats" only when the free rooms have none. The source does not check for duplicates, so repeated identifiers in the input can reappear in the result.
