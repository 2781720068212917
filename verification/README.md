# Garbage-pickup dispatch planner

This is a Dafny model of the dispatch logic in the Angular map component of
*garbage-optimized-pickup* (`src/app/map/map.component.ts`). A click on the map
places a drop-off. The component stores the drop-off in two places: in
`dropoffs.features` and, under a random key, in the `pointHopper` object. It
then assembles a request to the Mapbox Optimization API for a route. The route
starts at the truck, visits every stored drop-off and ends at the warehouse.
While building the request, the component also decides whether a pick-up at
the warehouse ("garbage location") is needed. It records that decision in
`garbageIndex`, `keepTrack` and a list of precedence pairs (`distributions`).

The model has three modules:

- `Features` (`features.dfy`) holds the drop-off feature and the `pointHopper`
  object. The object is modelled as an insertion-ordered map, `Hopper`. The
  module also holds `Object.keys` order (`ObjectKeys`), `objectToArray`
  (`ObjectToArray`) and the lemmas on how a property assignment changes that
  list.
- `Planning` (`planning.dfy`) states what `assembleQueryURL` computes, as
  functions of the job list: the filter behind `needToPickUp` (`Pending`,
  `NeedToPickUp`), the coordinate list (`StopCoordinates`), `distributions`
  (`Distributions`), the `keepTrack` pushes (`JobEntries`, `KeepTrack`), the
  new `garbageIndex` (`GarbageIndexAfter`) and the query's stop list (`Url`).
  Its lemmas prove the properties of each.
- `Dispatch` (`dispatch.dfy`) holds the class `MapComponent`. Its fields
  `pointHopper`, `dropoffs`, `keepTrack` and `garbageIndex` are updated in
  place by `NewDropoff` and `AssembleQueryUrl`; `lastAtGarbage` is set by the
  constructor and never changed. The
  `restJobs.forEach` loop is the method `ForEachJob`, a `while` loop with its
  invariants. Each method's `ensures` ties the new state and its results to
  the `Planning` functions.

Some inputs come from outside the component. `Date.now()`, `Math.random()`
and the truck position (set by the geolocation callback) are parameters.
Coordinates are a pair of reals that no operation inspects. The URL is modelled as its list of
stops; its profile, options and access token are constant text.

## The code as written

Where the intent in the code's comments (lines 230-235) differs from what
the code does, the model follows the code:

- The warehouse is never added to `coordinates`, because the push at line 235
  is commented out. `garbageIndex` therefore becomes 1 whenever a pick-up is
  needed, and index 1 of the coordinate list is the first drop-off
  (`GarbageIndexNamesFirstJob`). With one order placed after the last depot
  visit, the model gives `[truck, order]` and the single pair (1, 1)
  (`OneLateOrder`).
- `distributions` is built but never used in the URL. The query's stops are
  the coordinate list plus the warehouse as the final stop, whatever
  `needToPickUp` is (`UrlStops`).
- `keepTrack` receives `this.pointHopper.warehouse` when a pick-up is needed.
  `pointHopper` only ever gets numeric keys, so that value is `undefined`
  (`TrackEntry.Undefined`).
- `lastAtGarbage` is set to 0 and never updated. Since `Date.now()` is
  positive, every job qualifies in the running component, and the first pair
  is (1, 1) (`EveryOrderQualifies`). The planning functions take
  `lastAtGarbage` as a parameter, so the other lemmas hold for any value.
- `Object.keys` lists canonical array-index keys first. Among values of
  `Math.random()`, only 0 (which prints as `"0"`) is such a key, so a drop-off
  with key 0 comes first in `objectToArray`. Every other key keeps insertion
  order (`ObjectToArrayAfterAppend`, `ObjectToArrayAfterIndexKey`).
- A repeated key overwrites the stored drop-off in place, and `dropoffs` still
  grows by one (`ObjectToArrayAfterOverwrite`, `NewDropoff`). Keys are not
  assumed to be fresh.

## Model

| member | source | states |
|---|---|---|
| `Features.Assign` | src/app/map/map.component.ts:183 | storing a drop-off under its key keeps `pointHopper` well formed: its keys stay distinct and match the insertion order |
| `Features.ObjectKeys` | src/app/map/map.component.ts:264 | `Object.keys` yields only keys the object holds, one entry per inserted key |
| `Features.ObjectKeysSpec` | src/app/map/map.component.ts:264 | `Object.keys` lists every own key exactly once and nothing else |
| `Features.ObjectToArray` | src/app/map/map.component.ts:263-268 | `objectToArray` returns one value per key (its length equals the number of keys), and element i is the value under the i-th key of `Object.keys` |
| `Features.ObjectToArrayCovers` | src/app/map/map.component.ts:263-268 | every stored value appears in the result, at the position of its key |
| `Features.ObjectToArrayAfterAppend` | src/app/map/map.component.ts:183 | after storing a fresh non-index key, the job list is the old list with the new drop-off appended |
| `Features.ObjectToArrayAfterIndexKey` | src/app/map/map.component.ts:183 | after storing the fresh key 0, the new drop-off comes first and the old list follows |
| `Features.ObjectToArrayAfterOverwrite` | src/app/map/map.component.ts:183 | storing under an existing key keeps the length and replaces only that key's value, in place |
| `Planning.PendingMembers` | src/app/map/map.component.ts:226-228 | the filter keeps exactly the jobs whose `orderTime` exceeds `lastAtGarbage` |
| `Planning.NeedToPickUpIff` | src/app/map/map.component.ts:226-228 | `needToPickUp` holds if and only if some job has `orderTime > lastAtGarbage` |
| `Planning.StopCoordinatesShape` | src/app/map/map.component.ts:215-243 | the coordinate list has 1 + n entries: the truck first, then job i at index i + 1 |
| `Planning.DistributionsCount` | src/app/map/map.component.ts:240-248 | `distributions` has exactly as many pairs as there are qualifying jobs |
| `Planning.DistributionsEntries` | src/app/map/map.component.ts:244-247 | every pair starts at `garbageIndex` and ends at the coordinate index of a qualifying job, and the pairs follow job order |
| `Planning.DistributionsComplete` | src/app/map/map.component.ts:244-247 | every qualifying job at position i has the pair (`garbageIndex`, i + 1) |
| `Planning.DistributionsShape` | src/app/map/map.component.ts:240-248 | one pair per qualifying job, in job order, each pairing `garbageIndex` with that job's coordinate index, and no other pairs |
| `Planning.DistributionsEmptyIff` | src/app/map/map.component.ts:223-248 | `distributions` is empty exactly when no pick-up is needed |
| `Planning.DistributionsIndexCoordinates` | src/app/map/map.component.ts:243-246 | the second index of each pair points, in the coordinate list, at the job the pair was made for |
| `Planning.JobEntriesShape` | src/app/map/map.component.ts:240-242 | the loop pushes one `keepTrack` entry per job, in job order |
| `Planning.KeepTrackShape` | src/app/map/map.component.ts:217-242 | `keepTrack` is the truck, then `undefined` when a pick-up is needed, then every job in order; its length is 1 + (needToPickUp ? 1 : 0) + n |
| `Planning.GarbageIndexNamesFirstJob` | src/app/map/map.component.ts:223-235 | with a pick-up needed, position 1 of the coordinate list, where `garbageIndex` points, holds the first job and not the warehouse (the push at line 235 is commented out); otherwise, including with no jobs, `garbageIndex` keeps its old value |
| `Planning.UrlStops` | src/app/map/map.component.ts:255-260 | the query's stops are the coordinate list then the warehouse: n + 2 stops, truck first, warehouse last, and the warehouse added exactly once |
| `Planning.WarehouseOnce` | src/app/map/map.component.ts:255-260 | when neither the truck nor any job is at the warehouse, the warehouse occurs once among the stops |
| `Planning.EveryOrderQualifies` | src/app/map/map.component.ts:245-246 | with `lastAtGarbage` 0 and positive order times, every job gets the pair (1, i + 1), the first being (1, 1) |
| `Planning.OneLateOrder` | src/app/map/map.component.ts:212-261 | one late order gives coordinates [truck, order], the single pair (1, 1), `keepTrack` [truck, undefined, order] and stops [truck, order, warehouse] |
| `Dispatch.MapComponent.constructor` | src/app/map/map.component.ts:24-30 | the component starts with an empty `pointHopper`, no drop-offs, empty `keepTrack`, `garbageIndex` undefined and `lastAtGarbage` 0 |
| `Dispatch.MapComponent.JobsArePlaced` | src/app/map/map.component.ts:172-183 | every job that `objectToArray` yields from `pointHopper` is a drop-off placed in `dropoffs`, no job occurs twice, so there are never more jobs than placed drop-offs |
| `Dispatch.MapComponent.AssembleQueryUrl` | src/app/map/map.component.ts:212-261 | the returned query, `distributions`, the new `keepTrack` and the new `garbageIndex` are the planning functions of the `objectToArray` job list; nothing else changes |
| `Dispatch.MapComponent.ForEachJob` | src/app/map/map.component.ts:240-248 | the loop leaves the truck-seeded coordinate list, the pairs for qualifying jobs and one `keepTrack` push per job |
| `Dispatch.MapComponent.NewDropoff` | src/app/map/map.component.ts:172-188 | exactly one feature is appended to `dropoffs`; the same feature is stored under its key, other entries unchanged; the invariant is kept; the route query is assembled over the new job list |

## Left out

- Map construction, layers, sources, `updateDropoffs` and the click-to-coordinate `unproject` (lines 59-168, 207-210): rendering through mapbox-gl.
- The geolocation callback and the truck marker (lines 39-57): browser I/O. The truck position is a parameter. The empty `truckLocation` before the first position fix is not modelled.
- The HTTP request and its response handling (lines 188-204), including the `waypoints.length === 12` notice: asynchronous network I/O. Line 189 reads `data.trips[0].geometry` before line 190 tests `data.trips[0]`, so the "no route" branch fails before it is reached; it is not modelled as working behaviour.
- `getRandomLocation` (lines 271-279): timer-driven demo seeding.
- `Date.now()` and `Math.random()` (lines 178-179): parameters of `NewDropoff`. The key's range [0, 1) is kept in its type.
- Floating-point coordinate values, number-to-string formatting of the URL and the access token: coordinates are never inspected, and the query is its stop list.
- The `warehouse` and `nothing` feature collections (lines 29, 31): used only for rendering.
- No operation visits the depot. `lastAtGarbage` is never updated in the code, so it stays a field that only the constructor sets.
- Dispatch.MapComponent.AssembleQueryUrl: returns `distributions` as a second result. The code builds it and drops it.
- Dispatch.MapComponent.NewDropoff: does not restate the job list in terms of the old one. `Features.ObjectToArrayAfterAppend`, `Features.ObjectToArrayAfterIndexKey` and `Features.ObjectToArrayAfterOverwrite` state that about `Assign`, which `NewDropoff` ensures it applied.
