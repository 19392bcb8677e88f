# Logistics backend: route planning, freight tariff and request rules

This project is a Dafny model of the computational core of a logistics
backend written in JavaScript (Express and Sequelize). The model proves
properties of that core.

- **Route service** (`src/services/routeService.js`):
  - the Held–Karp travelling-salesman table `solveTSP`;
  - `dijkstra` and `reconstructPath`;
  - the graph and distance-matrix builders;
  - `groupPackagesByStations`, which buckets packages by route;
  - `groupStationsByCapacity`, which packs the buckets next-fit into vehicle loads;
  - `calculateTimeWindows`, the delivery schedule;
  - the planning logic of `optimizeRoute`;
  - the retry/back-off/fallback control flow of `calculateRoute` and `calculateDistance`;
  - the per-kilometre estimates and `calculateTotalDistance`.
- **Freight tariff** (`utils/freightUtils.js`): every method of `FreightUtils`.
- **Admin controller** (`src/controllers/adminController.js`):
  - the ordered validation chain of `createAdmin`, ending in the `isEmail` validator of the User model (`src/models/user.js`);
  - the paging normalisation of the admin list;
  - the status whitelist of `updateAdminStatus`.
- **Station controller** (`src/controllers/stationController.js`):
  - paging and the `where` filter of the station list;
  - the look-ups that gate `updateStation`, its "new value if truthy, else the old one" merge and the status validator of the Station model (`src/models/station.js`) that the write runs;
  - the check order of `updateStationStatus`.

## How the model is built

Numbers become Dafny values:

- JavaScript numbers are `real`.
- Times are integer milliseconds.
- `undefined`/`null` become `Option`.
- A thrown `TypeError` becomes `Outcome.TypeError`.

Database tables are maps from primary key to row. The network is replaced by the sequence of outcomes the calls would see. The haversine formula is replaced by a distance function passed in as a parameter.

Imperative code is modelled as methods with loops, and the properties are proved as loop invariants and lemmas. This covers the DP table over `array2`, the Dijkstra loop over maps and a node set, the bucket and load loops, the schedule loop, the retry loop and the matrix loops. Pure code is modelled as functions.

Module layout:

| file | module | models |
|---|---|---|
| `js_builtins.dfy` | `JsBuiltins` | Math.floor/ceil/round, truthiness, `\s`, `trim`, `parseInt` |
| `list_query.dfy` | `ListQuery` | page/pageSize clamp, offset, page count, LIKE pattern |
| `freight.dfy` | `Freight` | `FreightUtils` |
| `admin_controller.dfy` | `AdminController` | admin endpoints |
| `station_controller.dfy` | `StationController` | station endpoints |
| `bitmask.dfy` | `Bitmask` | `1 << k`, `&`, `\|`, `^` on masks, as arithmetic |
| `held_karp.dfy` | `HeldKarp` | `solveTSP` |
| `dijkstra.dfy` | `ShortestPath` | `dijkstra`, `reconstructPath`, `buildGraph` |
| `capacity_grouping.dfy` | `CapacityGrouping` | `groupPackagesByStations`, `groupStationsByCapacity` |
| `time_windows.dfy` | `TimeWindows` | `calculateTimeWindows` |
| `distance_provider.dfy` | `DistanceProvider` | `calculateRoute`, `calculateDistance`, `buildDistanceMatrix` |
| `route_optimizer.dfy` | `RouteOptimizer` | `optimizeRoute`, estimates, `calculateTotalDistance` |

Two behaviours of the code are worth knowing when reading the model.

**`calculateDistance` is defined twice.**
- The class defines `calculateDistance` twice, and the later four-argument haversine method (line 662) replaces the asynchronous distance-service method (line 122).
- Both `buildGraph` and `buildDistanceMatrix` therefore get a number back and read `[0].distance` of it, which throws a `TypeError`.
- The model gives both builders twice: as written, where they throw, and as intended, with an abstract distance. Each is proved against what its caller needs.
- The asynchronous `calculateDistance` is still modelled. It cannot be reached through the class as shipped.

**The straight-line fallback assumes 30 km/h.** It reports `Math.ceil(2·d)` minutes for `d` km, although the comment next to it says 50 km/h. The model follows the code. `RouteOptimizer.FallbackSlowerThanEstimate` states the consequence: the fallback is never faster than `calculateEstimatedDuration`.

## Model

| member | source | states |
|---|---|---|
| JsBuiltins.Floor | utils/freightUtils.js:76 | Math.floor: the greatest integer not above x |
| JsBuiltins.Ceil | utils/freightUtils.js:29 | Math.ceil: the least integer not below x |
| JsBuiltins.Round | src/services/routeService.js:315 | Math.round: an integer within half a unit of x, halves rounding up |
| JsBuiltins.FloorMonotone | utils/freightUtils.js:76 | Math.floor never decreases as its argument grows |
| JsBuiltins.CeilMonotone | utils/freightUtils.js:29 | Math.ceil never decreases as its argument grows |
| JsBuiltins.TrimStart | src/controllers/adminController.js:22 | drops exactly the leading whitespace: what remains is a suffix starting with a non-blank character |
| JsBuiltins.TrimEnd | src/controllers/adminController.js:22 | drops exactly the trailing whitespace |
| JsBuiltins.TrimEmptyIff | src/controllers/stationController.js:22 | `s.trim()` is empty exactly when every character of s is whitespace |
| JsBuiltins.DigitPrefixLength | src/controllers/adminController.js:13 | parseInt reads the longest run of digits and stops at the first non-digit |
| JsBuiltins.ParseIntOfDecimal | src/controllers/adminController.js:9-14 | parseInt gives back every non-negative integer from its decimal numeral, so the numeric defaults `page = 1`, `pageSize = 10` survive parseInt |
| JsBuiltins.ParseIntOfNegativeDecimal | src/controllers/adminController.js:13-14 | parseInt reads a minus sign followed by a numeral as the negative number |
| ListQuery.Page | src/controllers/adminController.js:13 | the page is at least 1; a positive parsed page is kept, and NaN, zero, negative or missing pages become 1 |
| ListQuery.PageSize | src/controllers/adminController.js:14 | the page size lies in 1..100; NaN, zero or missing give 10, negative values give 1, anything above 100 gives 100 |
| ListQuery.PageDefaults | src/controllers/stationController.js:15-16 | a non-numeric, zero or missing page and size give page 1 and size 10 |
| ListQuery.Offset | src/controllers/stationController.js:41 | the offset `(page - 1)·pageSize` is never negative and is 0 on page 1 |
| ListQuery.PagesTile | src/controllers/adminController.js:37 | consecutive pages tile the rows: page p + 1 starts where page p ends |
| ListQuery.TotalPages | src/controllers/stationController.js:101 | `Math.ceil(total / pageSize)` is the fewest pages of that size that hold all the rows |
| ListQuery.PageInRange | src/controllers/stationController.js:41-101 | a page starts before the last row exactly when its number is at most totalPages |
| ListQuery.ContainsPattern | src/controllers/adminController.js:22-26 | a LIKE pattern is produced exactly when the term holds a non-whitespace character, and it is `%` + trimmed term + `%` |
| Freight.VolumeWeight | utils/freightUtils.js:18-20 | the volumetric weight times 6000 gives back the volume |
| Freight.ChargeableWeight | utils/freightUtils.js:23-25 | the chargeable weight is the larger of actual and volumetric weight: at least both, and equal to one of them |
| Freight.BaseFreight | utils/freightUtils.js:28-30 | the base fare is a whole multiple of 6, at least 6 per 50 km of distance pro rata and less than one fare above that |
| Freight.BaseFreightAtZero | utils/freightUtils.js:29 | distance 0 costs nothing |
| Freight.BaseFreightFirstStep | utils/freightUtils.js:29 | any distance in (0, 50 000] m costs exactly one fare of 6 |
| Freight.BaseFreightMonotone | utils/freightUtils.js:29 | the base fare never drops as the distance grows |
| Freight.BaseFreightStep | utils/freightUtils.js:29 | 50 km more costs exactly one more fare |
| Freight.WeightSurcharge | utils/freightUtils.js:33-36 | the surcharge is never negative, is 0 up to 1 kg and is 0.1 per kg above that |
| Freight.WeightSurchargeMonotone | utils/freightUtils.js:35 | a heavier chargeable weight never costs less |
| Freight.QuoteForVolume | utils/freightUtils.js:49-71 | the quote's volume weight, chargeable weight, base fare and surcharge agree with the helpers, and the total is their sum |
| Freight.TotalFreight | utils/freightUtils.js:39-72 | for a parcel: the volume is length·width·height, the volumetric weight is volume / 6000, the chargeable weight is the larger of actual and volumetric weight, the base fare is the stepped distance tariff, the surcharge is taken on the chargeable weight, and the total is their sum |
| Freight.LightParcelPaysBaseOnly | utils/freightUtils.js:39-72 | a parcel of at most 1 kg and at most 6000 cm³ pays only the base fare |
| Freight.DriverEarnings | utils/freightUtils.js:75-77 | earnings are whole cents, at most 83.33 % of the total and less than one cent below it |
| Freight.DriverEarningsMonotone | utils/freightUtils.js:76 | a larger freight total never pays the driver less |
| Freight.TotalsSplit | utils/freightUtils.js:82-86 | the volume and weight folds split over a concatenation of batches |
| Freight.BatchFreight | utils/freightUtils.js:80-101 | the batch is priced on the summed volume and summed weight: volumetric weight, chargeable weight (the larger of the two), base fare, surcharge and total are all fixed, with driver earnings on that total |
| Freight.BatchOfOne | utils/freightUtils.js:80-101 | a batch of one parcel is priced exactly like that parcel alone |
| Freight.EstimateFreight | utils/freightUtils.js:104-115 | the estimate charges the surcharge on the raw weight; the total is base plus surcharge, and the earnings are the driver share of it |
| Freight.EstimateAgainstFullTariff | utils/freightUtils.js:104-115 | the estimate never exceeds the full tariff, and equals it when the volumetric weight does not exceed the actual weight |
| AdminController.Utf16Length | src/controllers/adminController.js:103 | `password.length` counts UTF-16 units: between one and two per character, exactly one per character when none is astral (outside the Basic Multilingual Plane) and exactly two per character when all are |
| AdminController.Utf16LengthCountsAstral | src/controllers/adminController.js:103 | `password.length` is the number of characters plus the number of astral characters |
| AdminController.EmailMatchesIff | src/controllers/adminController.js:109 | the email pattern holds exactly when there is no whitespace, exactly one '@' with something before it, and a '.' after it that is neither the first nor the last character of the domain |
| AdminController.CreateAdmin | src/controllers/adminController.js:91-167 | every rejection is a 400; each error is answered exactly when every earlier check passes and its own check fails, in the order missing field, username, password, email, phone, username taken, email taken, phone taken, and last the User model's `isEmail` validator on the email column (src/models/user.js:19-25), whose SequelizeValidationError is caught as a 400; an active admin with the given username, email and phone is created exactly when all nine pass |
| AdminController.RegexAdmitsModelRefusedEmail | src/controllers/adminController.js:109 | the handler's email pattern admits "a@b.c"; when the model validator refuses it, a form that passes all eight handler checks is answered 400 by the catch, not 201 |
| AdminController.FormatErrorsIgnoreStore | src/controllers/adminController.js:91-118 | a form that fails a presence or format check gets the same answer whatever the user table holds and whatever the email validator would say |
| AdminController.AdminListRequest | src/controllers/adminController.js:13-37 | the admin-list query takes the page and the page size normalised from the request parameters (page ≥ 1, size in 1..100), the matching offset and role 'admin'; it filters on `%trimmed%` username exactly when the username is present and not blank |
| AdminController.AdminListTotalPages | src/controllers/adminController.js:58 | the reported page count is the fewest pages that hold all admins |
| AdminController.UpdateAdminStatus | src/controllers/adminController.js:183-196 | any status other than 'active'/'inactive' is refused before the look-up; otherwise a missing admin gives 404, and an admin gets exactly that status |
| AdminController.InvalidStatusIgnoresStore | src/controllers/adminController.js:183-185 | an invalid status gets the same answer whatever the store holds |
| StationController.BuildStationFilter | src/controllers/stationController.js:20-30 | the name filter is set exactly when the name holds a non-whitespace character, and it is `%trimmed%`; the status filter is set exactly when the status is 'active' or 'inactive', and anything else is dropped silently |
| StationController.StationListRequest | src/controllers/stationController.js:15-41 | the station-list query takes the page and the page size normalised from the request parameters (page ≥ 1, size in 1..100) and the matching non-negative offset; it filters on `%trimmed%` name exactly when the name is present and not blank, and on status exactly when the status is whitelisted |
| StationController.MergeText | src/controllers/stationController.js:226 | `next \|\| current` for text: a non-empty new value wins, and otherwise the old value stays |
| StationController.MergeNumber | src/controllers/stationController.js:228-229 | `next \|\| current` for a coordinate: a non-zero new value wins, and otherwise the old value stays |
| StationController.MergeId | src/controllers/stationController.js:230 | `next \|\| current` for the manager id |
| StationController.Merge | src/controllers/stationController.js:225-232 | the written row keeps the id, and each column is the truthy new value or the old one |
| StationController.UpdateStation | src/controllers/stationController.js:200-241 | 404 exactly when the station is missing; the name check fires only for a truthy name that differs from the current one and is in use; the manager check fires only for a truthy, different manager id that is not a station admin; after both, the write fails with 500 exactly when the merged status changes to a value outside 'active'/'inactive' (the isIn validator of src/models/station.js:27-33); otherwise the merged row is written, and a stored status the validator admits stays admitted |
| StationController.StatusRefusedIff | src/controllers/stationController.js:231 | the status validator refuses the write exactly when the body's status is non-empty, differs from the stored one and is not 'active'/'inactive' |
| StationController.FalsyValuesKeepOldColumns | src/controllers/stationController.js:225-232 | a zero coordinate, an empty string or a zero manager id never overwrites a stored value |
| StationController.UnchangedNameAndManagerSkipLookups | src/controllers/stationController.js:207-241 | resending the current name and manager skips both look-ups: the merged row is written unless the status validator refuses it, which answers 500 |
| StationController.StatusOnlyBodyOnBothEndpoints | src/controllers/stationController.js:225-241 | for a stored row the validator admitted and a body holding only a non-empty status, updateStation and updateStationStatus agree: both write an 'active'/'inactive' status, and both refuse any other, updateStation with 500 and updateStationStatus with 400 |
| StationController.UpdateStationStatus | src/controllers/stationController.js:274-285 | 'station missing' (404) is decided before 'invalid status' (400), and a valid status is written on the stored row |
| Bitmask.AddBit | src/services/routeService.js:281 | `mask \| (1 << v)` for v outside mask adds exactly v to the set |
| Bitmask.RemoveBitMembers | src/services/routeService.js:302 | `mask ^= (1 << pos)` for pos in mask removes exactly pos |
| Bitmask.FullHasAll | src/services/routeService.js:294 | `(1 << n) - 1` holds every station below n |
| Bitmask.SameBits | src/services/routeService.js:274 | two masks below 2^n with the same members are equal |
| HeldKarp.FillTable | src/services/routeService.js:266-290 | after the three nested loops every entry `dp[m][v]` is the DP value for (m, v), and each `parent` entry names the predecessor that value came from, or -1 for an untouched entry |
| HeldKarp.ProcessMask | src/services/routeService.js:275-289 | processing one mask turns the table for masks below it into the table for masks up to it |
| HeldKarp.RelaxEdge | src/services/routeService.js:281-287 | one relaxation lowers `dp[mask \| 1<<v][v]` to `dp[mask][u] + d[u][v]` when that is smaller, and records u as parent |
| HeldKarp.CostLowerBound | src/services/routeService.js:267-290 | no route from station 0 through exactly the stations of m to v is shorter than `dp[m][v]` |
| HeldKarp.CostAttained | src/services/routeService.js:267-290 | with non-negative distances, a finite `dp[m][v]` is the length of such a route |
| HeldKarp.ClosedAtStartUnreached | src/services/routeService.js:276-279 | with non-negative distances, `dp[full][0]` is 0 for one station and INF for two or more, because station 0 is never relaxed into |
| HeldKarp.WalkBack | src/services/routeService.js:293-304 | following `parent` from (full, last) gives a walk starting at last that, reversed, is a route through all the stations ending at last of length `dp[full][last]` when that entry is finite |
| HeldKarp.SolveTsp | src/services/routeService.js:265-310 | as written, the reported distance is `dp[full][0]` and the path ends at 0; with non-negative distances that is path [0] at distance 0 or INF |
| HeldKarp.SolveTspMissesRoute | src/services/routeService.js:308 | for two stations one unit apart a route of length 1 exists while `dp[full][0]` is INF |
| HeldKarp.SolveTspCorrected | src/services/routeService.js:293-309 | closing at the best last station, the distance is no longer than any route through all the stations, and the path is such a route of that length |
| ShortestPath.MinKey | src/services/routeService.js:611 | the least key of a non-empty node set |
| ShortestPath.ObjectKeys | src/services/routeService.js:611 | `Object.keys` of integer-keyed objects lists every key once, in ascending order |
| ShortestPath.SelectMin | src/services/routeService.js:620-629 | the scan finds no node exactly when all remaining nodes are at Infinity; otherwise it finds the smallest finite distance, with ties going to the smallest id |
| ShortestPath.RelaxNeighbors | src/services/routeService.js:634-642 | relaxing the neighbours of u lowers exactly the remaining nodes for which going through u is strictly shorter, and sets their previous node to u |
| ShortestPath.RelaxNeverIncreases | src/services/routeService.js:637-640 | relaxation never raises a distance, and a changed distance belongs to a node still in the set whose previous is now u |
| ShortestPath.Visit | src/services/routeService.js:631-642 | removing the closest node and relaxing its edges keeps the bookkeeping and the settled-distance invariant |
| ShortestPath.MainLoop | src/services/routeService.js:618-643 | when the loop stops, every node left in the set is at Infinity, and the invariants hold |
| ShortestPath.Dijkstra | src/services/routeService.js:605-646 | the start is at 0; a node other than the start has a previous exactly when it is reached; each previous link is an edge whose length accounts for the distance; the links follow removal order, so they never form a cycle; with non-negative weights no walk from the start is shorter than the reported distance of its end |
| ShortestPath.WalkBound | src/services/routeService.js:618-643 | with non-negative weights, the final distance of a walk's end is at most the walk's length |
| ShortestPath.ReconstructPath | src/services/routeService.js:649-659 | the path ends at the end node and each node is the previous of the next; an end with no previous gives [end]; the start node is not read |
| ShortestPath.ChainLength | src/services/routeService.js:649-659 | a reconstructed chain to a reached node is a walk from the start whose length is that node's distance |
| ShortestPath.ReconstructedPathIsShortest | src/services/routeService.js:649-659 | with non-negative weights, the reconstructed path is a walk from start to end that no other walk between them undercuts |
| ShortestPath.BuildGraphAsWritten | src/services/routeService.js:583-602 | as written it throws exactly when two stations have different ids; otherwise every row is empty |
| ShortestPath.BuildGraph | src/services/routeService.js:583-602 | with a distance function: one row per station id, holding every other id, with the distance between the last stations carrying those ids |
| ShortestPath.BuildRow | src/services/routeService.js:587-598 | the row of one station holds exactly the ids other than its own, each with the distance from that station to the last station carrying the id |
| ShortestPath.BuildGraphEntries | src/services/routeService.js:586-598 | with unique ids every ordered pair of distinct stations is an edge carrying their distance, and a non-negative distance gives a non-negative graph |
| CapacityGrouping.Select | src/services/routeService.js:432 | the packages of one key, drawn from the input |
| CapacityGrouping.FirstIndex | src/services/routeService.js:413 | the first package with a key, or the length when there is none |
| CapacityGrouping.BucketByStations | src/services/routeService.js:408-433 | the buckets are exactly the keys that occur, in order of first occurrence; each holds the packages of its key in input order and the station records of its first package |
| CapacityGrouping.AddPackage | src/services/routeService.js:412-432 | adding one package keeps the buckets and the key index in step with the packages seen |
| CapacityGrouping.InsertByCount | src/services/routeService.js:436 | inserting a bucket into a sorted list yields a permutation of the list plus that bucket |
| CapacityGrouping.SortByCount | src/services/routeService.js:436 | the sort is a permutation of the buckets |
| CapacityGrouping.SortRanked | src/services/routeService.js:436 | the sort orders by non-increasing count, with ties in first-occurrence order (a stable sort) |
| CapacityGrouping.GroupPackagesByStations | src/services/routeService.js:407-437 | every group holds exactly the packages of its key, every package has a group, counts do not increase, and ties keep first-occurrence order |
| CapacityGrouping.GroupsPartition | src/services/routeService.js:407-437 | each package lies in exactly one group |
| CapacityGrouping.FlattenMembers | src/services/routeService.js:361-401 | a bucket is in the concatenated loads exactly when some load holds it |
| CapacityGrouping.PackGroups | src/services/routeService.js:354-401 | next-fit packing. The buckets, in order, are the dropped opening buckets followed by the runs of the emitted lists. Each list is exactly the station list built from its run: the driver's station, then either `[from, to]` of the run's first bucket (when a load was seeded with it) or nothing, then each later bucket's from and to stations unless their id is already listed. Each load is within both limits unless it is a single oversized bucket. Each run's first bucket overflowed the load before it, and the first run's first bucket overflowed the dropped buckets. Only a first load of buckets going from the driver's station to itself is dropped |
| CapacityGrouping.StartLoad | src/services/routeService.js:380-395 | a bucket that does not fit closes the load (emitted only with more than one station) and seeds `[s0, from, to]` with that bucket's totals |
| CapacityGrouping.FoldGroup | src/services/routeService.js:366-379 | a bucket that fits is folded in: the list becomes the old list with the bucket's from and then to station appended, each only if its id is not yet listed; its packages are appended and the totals grow by its volume and weight |
| CapacityGrouping.CloseLoad | src/services/routeService.js:398-401 | after the loop, the open load is emitted exactly when it lists more than the driver's station, and the packing properties hold for all buckets |
| CapacityGrouping.GroupStationsByCapacity | src/services/routeService.js:348-404 | the buckets are those of `groupPackagesByStations`: each holds exactly the packages of its key, every package has one, largest first with ties in first-occurrence order. They are cut, in order, into dropped opening buckets and the runs, and each returned list is exactly the station list built from its run. Every list starts with the driver's station; each load is next-fit and within capacity unless it is one oversized bucket; every package not going from the driver's station to itself is served by a list holding both its stations |
| CapacityGrouping.ListedIsContainsId | src/services/routeService.js:369-373 | the `find` by id (modelled as a scan from the back) finds it exactly when some listed station has that id |
| CapacityGrouping.AddIfAbsentSpec | src/services/routeService.js:369-375 | adding a station keeps the list as a prefix, appends the station exactly when its id is not yet listed, and leaves its id listed |
| CapacityGrouping.LoadStationsAppend | src/services/routeService.js:366-375 | the station list of a run extended by one bucket is the run's list with that bucket's stations added |
| CapacityGrouping.OpeningListDistinct | src/services/routeService.js:354-375 | the list of the opening load, built only by folding, never lists two stations with the same id |
| CapacityGrouping.RunStationsMembers | src/services/routeService.js:366-394 | the stations a list may draw on after the driver's station are exactly the from and to stations of its run's buckets |
| TimeWindows.HandlingCount | src/services/routeService.js:453-456 | the count of packages that leave the origin or go to the destination: at most all of them, 0 exactly when none is handled, all exactly when all are |
| TimeWindows.CalculateTimeWindows | src/services/routeService.js:440-473 | one window per leg, for the leg's destination; the earliest arrival is the previous departure (or the start time) plus the driving time, the latest arrival is 30 minutes later, the departure adds 5 minutes per handled package, and each departure equals the start time plus the time of all legs so far |
| TimeWindows.ElapsedMonotone | src/services/routeService.js:459-469 | with no negative driving time, departures never go back in time |
| TimeWindows.ElapsedBounds | src/services/routeService.js:450-460 | the first k legs take at least their driving time and at most that plus 5 minutes per package per leg |
| DistanceProvider.FirstAnswer | src/services/routeService.js:62-100 | the first answering call among the three, or 3 when all fail |
| DistanceProvider.Retry | src/services/routeService.js:59-100 | an answer is returned exactly when one of the first three calls answers; the requests sent are up to and including that call, or three; after failure k of the first two the loop waits 1000·k ms |
| DistanceProvider.FirstAnswerIs | src/services/routeService.js:62-100 | k failures followed by an answer (or three failures) make the first answer k |
| DistanceProvider.FallbackAfterThreeFailures | src/services/routeService.js:93-97 | three failures exhaust the retries |
| DistanceProvider.Join | src/services/routeService.js:82 | `join(';')` of no part is "", of one part is that part, and otherwise as long as the parts plus one separator between neighbours |
| DistanceProvider.JoinContents | src/services/routeService.js:82 | in `join(';')` each part starts after the earlier parts and their separators, and a separator follows every part but the last |
| DistanceProvider.FromPath | src/services/routeService.js:76-89 | the provider's route in kilometres, minutes rounded up, tolls `\|\| 0`, and the steps' polylines joined |
| DistanceProvider.Fallback | src/services/routeService.js:105-118 | the fallback has the straight-line distance, `Math.ceil(2·d)` minutes, no tolls, an empty polyline and one step |
| DistanceProvider.FallbackStepMatchesRoute | src/services/routeService.js:106-117 | the fallback's single step is the whole route, in metres and seconds |
| DistanceProvider.CalculateRoute | src/services/routeService.js:57-120 | the provider's route when one of the first three calls answers, and the straight-line fallback after three failures |
| DistanceProvider.FromResults | src/services/routeService.js:139-142 | each distance entry is converted to kilometres, with minutes rounded up |
| DistanceProvider.FallbackLegs | src/services/routeService.js:157-160 | the fallback pairs `origins[i]` with `destinations[i]` and throws exactly when an origin has no destination |
| DistanceProvider.CalculateDistance | src/services/routeService.js:122-162 | the provider's entries when one of the first three calls answers, otherwise the pair-wise fallback |
| DistanceProvider.BuildDistanceMatrixAsWritten | src/services/routeService.js:244-262 | as written it throws exactly when there are two or more stations |
| DistanceProvider.BuildDistanceMatrix | src/services/routeService.js:244-262 | with a distance function: an n×n matrix with 0 on the diagonal and the pair's distance elsewhere, non-negative when the distance is |
| RouteOptimizer.EstimatedIncome | src/services/routeService.js:700-703 | 6 yuan per 50 km, pro rata |
| RouteOptimizer.EstimatedDuration | src/services/routeService.js:694-697 | 60 minutes per 50 km |
| RouteOptimizer.EstimatedEarnings | src/services/routeService.js:312-316 | whole cents, within half a cent of the pro-rata income |
| RouteOptimizer.IncomePerMinute | src/services/routeService.js:694-703 | the income estimate is one tenth of the duration estimate |
| RouteOptimizer.IncomeAgainstBaseFreight | src/services/routeService.js:700-703 | the pro-rata income never exceeds the stepped base fare of the freight tariff and stays within one fare of it |
| RouteOptimizer.FallbackSlowerThanEstimate | src/services/routeService.js:108 | the fallback's `ceil(2·d)` minutes are never less than the 50 km/h estimate |
| RouteOptimizer.CalculateTotalDistance | src/services/routeService.js:680-691 | the sum over consecutive station pairs, never negative for a non-negative distance |
| RouteOptimizer.PathLengthSplit | src/services/routeService.js:682-689 | the length of two joined station sequences is the sum of their lengths |
| RouteOptimizer.ValidPackages | src/services/routeService.js:186-194 | the filter keeps only packages within both vehicle limits, missing values counting as 0 |
| RouteOptimizer.ValidPackagesFromInput | src/services/routeService.js:186 | every kept package is an input package |
| RouteOptimizer.ValidPackagesKeepFitting | src/services/routeService.js:186-194 | every input package within the limits is kept |
| RouteOptimizer.BlankPackageFits | src/services/routeService.js:187-190 | a package with no dimensions and no weight passes the filter |
| RouteOptimizer.StopsMembers | src/services/routeService.js:213-216 | a point is a stop exactly when it is the current or destination station of some package |
| RouteOptimizer.StationList | src/services/routeService.js:212-217 | the driver's location, then each package's current and destination stations in order when present, then the driver's destination |
| RouteOptimizer.OptimizeRoute | src/services/routeService.js:165-242 | no packages gives the direct route; packages that all exceed the limits give the direct route; otherwise the plan visits the station list of the kept packages; the earnings always belong to the returned route |
| RouteOptimizer.FallbackIgnoresWaypoints | src/services/routeService.js:220-224 | when the provider fails on both requests the planned route equals the direct one: the fallback ignores the waypoints |
| RouteOptimizer.PlannedStopsComeFromValidPackages | src/services/routeService.js:212-217 | every stop between the two ends belongs to a package that fits the vehicle |

## Left out

- The HTTP calls to the map provider (axios, `geocode`, `getAMapDrivingRoute`) are network I/O. They are replaced by the sequence of call outcomes, and a response that cannot be read counts as a failed call.
- The haversine formula, `toRad`/`toRadians` and the four-argument `calculateDistance` are floating-point trigonometry. They become a distance function passed in as a parameter.
- `setTimeout` sleeps and `new Date()` are timing and the clock. Only the list of delays and a start-time parameter are modelled.
- `getOptimalDeliveryRoute` is left out because it calls a method the class does not define.
- `calculateShortestPath` is left out because it is database queries around `Promise.all`.
- Floating-point rounding, NaN and Infinity arithmetic are left out. Numbers are exact reals, and a NaN coming from a missing field is not represented.
- Freight.BatchFreight takes the cube of `Math.cbrt(total volume)` to be exactly the total volume, which floating point only approximates.
- `1 << n` is modelled as 2^n. The 32-bit wrap-around for n ≥ 31 is not captured, since the table would need 2^31 rows anyway.
- ShortestPath.ReconstructPath requires the end node to be a key of `previous`. Any other end walks through `undefined` forever.
- ShortestPath.Dijkstra models object keys as integer station ids. The string/number mix of JavaScript object keys (`nodes.has(neighbor)` on string keys) is not modelled.
- CapacityGrouping.GroupStationsByCapacity requires at least one station, because `stations[0]` is the driver's position. It does not state which packages are served when a bucket goes from the driver's station to itself, since such a bucket can be dropped with the first load. Like PackGroups, it states that each load's final totals are within both limits, not that every intermediate total was; for non-negative volumes and weights the two agree.
- CapacityGrouping.PackGroups: states that each load's final totals are within both limits, not that every intermediate total was. For non-negative volumes and weights the two agree.
- TimeWindows.CalculateTimeWindows requires a route segment for every leg. A missing segment throws in the source. Durations are whole seconds, as the provider reports them.
- HeldKarp.SolveTsp requires at least one station. With zero stations `dp[1]` does not exist and the source throws.
- The admin body fields (username, password, email, phone, status) and the station text fields (name, address, status) are taken to be strings or absent. A non-string JSON value, such as a number given as password, has no `.length`, skips the length check and fails later in the hashing step; such values are not represented.
- StationController.UpdateStation takes latitude, longitude and manager_id to be JSON numbers or absent. A URL-encoded form body delivers them as strings, which the model does not represent. There `"0"` is truthy and overwrites the stored coordinate or manager, so StationController.FalsyValuesKeepOldColumns does not cover it. A form string such as `"7"` is never `!==`-equal to the stored integer 7, so the manager look-up runs on every resend, which StationController.UnchangedNameAndManagerSkipLookups does not cover.
- The password hashing, the persisted rows and the response bodies of the controllers are database and HTTP work, and are left out. Of the Sequelize model validators, the two that can decide a controller's answer are modelled: `isEmail` on the user's email (AdminController.CreateAdmin) and `isIn` on the station's status (StationController.UpdateStation). The other columns these handlers write are always admitted by their validators.
- AdminController.CreateAdmin takes the verdict of the `isEmail` validator as its parameter `emailAccepted`. That validator belongs to the validator.js library, which is not part of this model, so its rules (top-level domain, local-part characters, lengths) are not spelled out.
- StationController.UpdateStation models `station.update` as validating only the columns whose value changes, and a NULL status as skipping the validator, as Sequelize does.
- SQL `LIKE` wildcards inside the search term are left out: the pattern string is modelled and the database's matching is not.

## Findings

| source | as written | input that shows it | evidently intended | confidence | as-written member | corrected member |
|---|---|---|---|---|---|---|
| src/services/routeService.js:293-309 | reconstruction starts from station 0 and reports `dp[full][0]`, an entry that is never relaxed for two or more stations | distances `[[0,1],[1,0]]`, n = 2: reports path [0] and distance `MAX_SAFE_INTEGER`, although route [0, 1] has length 1 | report the best entry `dp[full][v]` over every last station v and walk back from that v | not executed | HeldKarp.SolveTspMissesRoute | HeldKarp.SolveTspCorrected |
| src/services/routeService.js:590-596 | `this.calculateDistance(lat1, lon1, lat2, lon2)` reaches the haversine method, which returns a number, and `distance[0].distance` then throws a TypeError | two stations with ids 1 and 2 | `graph[a][b]` is the distance between stations a and b | not executed | ShortestPath.BuildGraphAsWritten | ShortestPath.BuildGraph |
| src/services/routeService.js:252-256 | `this.calculateDistance([a], [b])` reaches the four-argument haversine method, which returns NaN, and `distance[0].distance` then throws a TypeError | any two stations | `matrix[i][j]` is the distance from station i to station j | not executed | DistanceProvider.BuildDistanceMatrixAsWritten | DistanceProvider.BuildDistanceMatrix |
