# Smart_Car fleet monitoring — a verified model of its core

Smart_Car is a fleet-monitoring system. Its Java backend keeps a fleet of cars and drivers. Drivers request trips; an administrator approves and starts them, rejects them, stops them, and fines active trips for critical alerts. A seeding step fills a fare table for five places in Pune, and a scheduled simulator produces telemetry (speed, fuel, temperature, location) for every car on an active trip. Its React pages derive what they show from the server's lists: searches, paging, counts by type, severity or status, a nearest-timestamp join between alerts and telemetry, colour and penalty scales, and form checks.

This project models that core in Dafny and proves properties of the model. It follows the source's own form:

- `Trip`, `TripService`, `TripCostRepository`, the car and driver entities, `ProfileState` and `TelemetrySimulator` are classes whose methods update their fields in place.
- The trip repository is a sequence of `Trip` objects whose generated ids are their 1-based positions. The fare repository is a map from route to fare. Every stored trip has non-blank start and end points, because the entity's `@NotBlank` constraints refuse any other save.
- The simulator's maps are map fields.
- The loops of the source are methods with loop invariants, proved against specification functions.
- The frontend pages replace immutable React state, so they are modelled as functions over datatypes. The pages' loops (`countsByType`, `alertsBySeverity`, the nearest-record search, `severityPie`, `alertsByCarNumber`) are methods.

The modules are:

- **Shared:**
  - `Wrappers`: `Option` and `Result`.
  - `Ascii`: ASCII case mapping, `includes`, `trim`, and number-to-text.
  - `Seqs`: filters, ordered sublists, and tallies.
  - `Paging`: JavaScript `slice`, page counts, and Prev/Next.
  - `Sorting`: a stable newest-first sort, standing in for `Array.prototype.sort` with a comparator.
  - `PageHelpers`: date formatting, the alert cause text, the derived value, and the nearest record. Several pages repeat them with the same behaviour, so they are defined once here.
- **Backend:** `Fleet`, `TripModel`, `TripCosts`, `TripService`, `TelemetrySimulator` and `DataSeed`.
- **Frontend:** one module per page.

Two kinds of input are modelled as parameters:

- **Server and time:** what the server answers (a response, or a request that threw), the clock (`now`), and the random draws (a value in the range `nextInt` returns).
- **Dependencies of the simulator:** the car and trip services it calls become inputs, namely the ids of the ACTIVE cars and a map from car id to the id of its ACTIVE trip.

## Model

| member | source | states |
|---|---|---|
| TripModel.ParseStatus | backend/src/main/java/com/smartcar/monitoring/model/Trip.java:13-15 | a status name parses only to the status carrying that name |
| TripModel.StatusNameRoundTrip | backend/src/main/java/com/smartcar/monitoring/model/Trip.java:13-15 | each of the five statuses round-trips through its name |
| TripModel.NotBlankCases | backend/src/main/java/com/smartcar/monitoring/model/Trip.java:29-35 | a missing, empty or white-space point is blank under `@NotBlank`, and a place name is not |
| TripModel.NewTripRecord | backend/src/main/java/com/smartcar/monitoring/model/Trip.java:40-78 | a new trip is REQUESTED and active, with base cost, fine and total 0, creation, update and request times all `now`, and no id, driver, car or later timestamps |
| TripModel.Trip.constructor | backend/src/main/java/com/smartcar/monitoring/model/Trip.java:72-78 | the fields of a new `Trip` object are exactly those defaults |
| TripModel.Trip.SetId | backend/src/main/java/com/smartcar/monitoring/model/Trip.java:82 | only the id changes |
| TripModel.Trip.SetDriver | backend/src/main/java/com/smartcar/monitoring/model/Trip.java:85 | only the driver changes |
| TripModel.Trip.SetCar | backend/src/main/java/com/smartcar/monitoring/model/Trip.java:88 | only the car changes |
| TripModel.Trip.SetStartPoint | backend/src/main/java/com/smartcar/monitoring/model/Trip.java:91 | only the start point changes |
| TripModel.Trip.SetEndPoint | backend/src/main/java/com/smartcar/monitoring/model/Trip.java:94 | only the end point changes |
| TripModel.Trip.SetStatus | backend/src/main/java/com/smartcar/monitoring/model/Trip.java:97 | only the status changes |
| TripModel.Trip.SetRequestedAt | backend/src/main/java/com/smartcar/monitoring/model/Trip.java:100 | only the request time changes |
| TripModel.Trip.SetApprovedAt | backend/src/main/java/com/smartcar/monitoring/model/Trip.java:103 | only the approval time changes |
| TripModel.Trip.SetStartedAt | backend/src/main/java/com/smartcar/monitoring/model/Trip.java:106 | only the start time changes |
| TripModel.Trip.SetEndedAt | backend/src/main/java/com/smartcar/monitoring/model/Trip.java:109 | only the end time changes |
| TripModel.Trip.SetBaseCost | backend/src/main/java/com/smartcar/monitoring/model/Trip.java:112 | only the base cost changes |
| TripModel.Trip.SetAdditionalFine | backend/src/main/java/com/smartcar/monitoring/model/Trip.java:115 | only the additional fine changes |
| TripModel.Trip.SetTotalCost | backend/src/main/java/com/smartcar/monitoring/model/Trip.java:118 | only the total cost changes |
| TripModel.Trip.SetCreationDate | backend/src/main/java/com/smartcar/monitoring/model/Trip.java:121 | only the creation date changes |
| TripModel.Trip.SetLastUpdateOn | backend/src/main/java/com/smartcar/monitoring/model/Trip.java:124 | only the last-update time changes |
| TripModel.Trip.SetIsActive | backend/src/main/java/com/smartcar/monitoring/model/Trip.java:127 | only the active flag changes |
| TripModel.Trip.PreUpdate | backend/src/main/java/com/smartcar/monitoring/model/Trip.java:129-130 | only `lastUpdateOn` changes, to `now` |
| Fleet.Driver.constructor | backend/src/main/java/com/smartcar/monitoring/service/TripService.java:52-53 | a driver has the given id and assigned car |
| Fleet.Car.constructor | backend/src/main/java/com/smartcar/monitoring/service/TripService.java:79-82 | a car has the given id, status and driver |
| TripCosts.ActiveFare | backend/src/main/java/com/smartcar/monitoring/repository/TripCostRepository.java:13 | a fare is found exactly when the route has a row and that row is active, and it is that row |
| TripCosts.TripCostRepository.constructor | backend/src/main/java/com/smartcar/monitoring/repository/TripCostRepository.java:13 | the repository holds the given rows |
| TripCosts.TripCostRepository.FindActive | backend/src/main/java/com/smartcar/monitoring/repository/TripCostRepository.java:13 | the lookup answers `ActiveFare` |
| TripCosts.TripCostRepository.Insert | backend/src/main/java/com/smartcar/monitoring/model/TripCost.java:11-13 | a save succeeds exactly when the route has no row yet (the unique constraint), and then adds just that row; a failed save changes nothing |
| TripService.Fined | backend/src/main/java/com/smartcar/monitoring/service/TripService.java:192-200 | an ACTIVE trip on the car gets its fine raised by the amount (a missing fine counts as 0) and a total of base plus fine; any other trip is unchanged |
| TripService.FinesAccumulate | backend/src/main/java/com/smartcar/monitoring/service/TripService.java:189-201 | two fines in a row add up to one fine of their sum |
| TripService.ZeroFine | backend/src/main/java/com/smartcar/monitoring/service/TripService.java:189-201 | a fine of 0 on a trip whose total is base plus fine changes nothing but the update time |
| TripService.TripService.constructor | backend/src/main/java/com/smartcar/monitoring/service/TripService.java:25-37 | an empty trip store over the given cars, drivers and fares, with the invariant established |
| TripService.TripService.Records | backend/src/main/java/com/smartcar/monitoring/service/TripService.java:162-179 | the field values of every stored trip, in store order |
| TripService.TripService.GetTripById | backend/src/main/java/com/smartcar/monitoring/service/TripService.java:44-49 | it succeeds exactly when a stored trip has the id and returns that trip; otherwise "trip not found" |
| TripService.TripService.ListDriverTrips | backend/src/main/java/com/smartcar/monitoring/service/TripService.java:162-165 | exactly the driver's active-flagged trips |
| TripService.TripService.ListByStatus | backend/src/main/java/com/smartcar/monitoring/service/TripService.java:167-179 | exactly the trips with the status (pending, active, completed) |
| TripService.TripService.ActiveTripForDriver | backend/src/main/java/com/smartcar/monitoring/service/TripService.java:181-183 | none exactly when the driver has no ACTIVE trip; otherwise the driver's ACTIVE trip with the lowest id |
| TripService.TripService.ActiveTripForCar | backend/src/main/java/com/smartcar/monitoring/service/TripService.java:185-187 | none exactly when the car has no ACTIVE trip; otherwise the car's ACTIVE trip with the lowest id |
| TripService.TripService.RequestTrip | backend/src/main/java/com/smartcar/monitoring/service/TripService.java:51-75 | an unknown driver fails and saves nothing; a blank start or end point fails the `@NotBlank` check of Trip.java:29-35 and saves nothing; otherwise one new REQUESTED trip is appended, with the requested route, the driver, and the requested car when it exists (an unknown car id is ignored); base cost and total are the active fare's cost when there is one, and stay 0 otherwise |
| TripService.TripService.NewRequestedTrip | backend/src/main/java/com/smartcar/monitoring/service/TripService.java:55-71 | the fields of the trip built before it is saved |
| TripService.TripService.ApproveAndStart | backend/src/main/java/com/smartcar/monitoring/service/TripService.java:77-105 | an unknown trip or car fails before anything changes; otherwise the trip becomes ACTIVE with approval and start times set, whatever its status, and with a car the driver is assigned to it and the car is ACTIVE with that driver |
| TripService.TripService.ApproveThenStart | backend/src/main/java/com/smartcar/monitoring/service/TripService.java:83-90 | the two saves leave the trip ACTIVE on the car with both times set, and nothing else changed |
| TripService.TripService.AssignToCar | backend/src/main/java/com/smartcar/monitoring/service/TripService.java:93-105 | the driver's car is this car and the car's driver is this driver; the car is ACTIVE |
| TripService.TripService.Reject | backend/src/main/java/com/smartcar/monitoring/service/TripService.java:122-131 | an unknown trip fails; otherwise it becomes REJECTED with its end time set, whatever its status, and no car or driver changes |
| TripService.TripService.Stop | backend/src/main/java/com/smartcar/monitoring/service/TripService.java:133-160 | an unknown trip fails; otherwise it becomes COMPLETED with its end time set, its driver loses the assigned car, and its car is IDLE with no driver |
| TripService.TripService.Complete | backend/src/main/java/com/smartcar/monitoring/service/TripService.java:134-137 | only the status, end time and update time change |
| TripService.TripService.Release | backend/src/main/java/com/smartcar/monitoring/service/TripService.java:140-150 | the driver has no car; the car is IDLE with no driver |
| TripService.TripService.AddFineForCritical | backend/src/main/java/com/smartcar/monitoring/service/TripService.java:189-201 | every stored trip ends up as `Fined` says: the car's ACTIVE trips are fined, all others unchanged |
| TripService.TripService.FineAll | backend/src/main/java/com/smartcar/monitoring/service/TripService.java:192-200 | the loop fines each trip of the list as `Fined` says |
| TripService.TripService.AddFine | backend/src/main/java/com/smartcar/monitoring/service/TripService.java:193-199 | one trip's fine raised and total recomputed |
| TripService.TripService.KeepsInvariants | backend/src/main/java/com/smartcar/monitoring/service/TripService.java:77-160 | changing one trip's status and links, but not its id, driver, points or costs, keeps the store's invariant and the cost agreement |
| TripService.TripService.KeepsInvariantsOnAppend | backend/src/main/java/com/smartcar/monitoring/service/TripService.java:73 | appending a trip with the next id, a known driver and car, and non-blank points keeps the invariant |
| TripService.TripService.KeepsInvariantsOnFine | backend/src/main/java/com/smartcar/monitoring/service/TripService.java:189-201 | fining keeps the invariant and the cost agreement |
| TelemetrySimulator.PuneLocationsDistinct | backend/src/main/java/com/smartcar/monitoring/simulator/TelemetrySimulator.java:48-50 | five distinct locations |
| TelemetrySimulator.Clamp | backend/src/main/java/com/smartcar/monitoring/simulator/TelemetrySimulator.java:175-177 | within [min, max] when min ≤ max; the value itself when already in range; the nearer bound otherwise |
| TelemetrySimulator.RandBetween | backend/src/main/java/com/smartcar/monitoring/simulator/TelemetrySimulator.java:179-181 | the result lies in [a, b], and is a when b ≤ a |
| TelemetrySimulator.SpeedStep | backend/src/main/java/com/smartcar/monitoring/simulator/TelemetrySimulator.java:129-135 | ±3 in the current direction; pinned at 120 and turned down when rising to 120 or more; pinned at 60 and turned up when falling to 60 or less; always in [0, 170] |
| TelemetrySimulator.TempStep | backend/src/main/java/com/smartcar/monitoring/simulator/TelemetrySimulator.java:137-143 | the same bounce with step 2 between 80 and 120; always in [-5, 130] |
| TelemetrySimulator.FuelStep | backend/src/main/java/com/smartcar/monitoring/simulator/TelemetrySimulator.java:145-152 | a pending reset gives exactly 100 and clears the flag; otherwise a drop of 1 or 2 clamped to [0, 100], and the flag is set exactly when the level reaches 0 |
| TelemetrySimulator.LocationIndex | backend/src/main/java/com/smartcar/monitoring/simulator/TelemetrySimulator.java:165-170 | the search index is a valid index |
| TelemetrySimulator.Succ | backend/src/main/java/com/smartcar/monitoring/simulator/TelemetrySimulator.java:172 | the index after i is `(i + 1) % n` |
| TelemetrySimulator.NextLocationCycles | backend/src/main/java/com/smartcar/monitoring/simulator/TelemetrySimulator.java:164-173 | the next location is in the list; after the i-th comes the `(i + 1) % n`-th; an unknown location is followed by the second one |
| TelemetrySimulator.NextLocation | backend/src/main/java/com/smartcar/monitoring/simulator/TelemetrySimulator.java:164-173 | the search loop returns the round-robin successor |
| TelemetrySimulator.InitialFromCar | backend/src/main/java/com/smartcar/monitoring/simulator/TelemetrySimulator.java:116-124 | speed 0, fuel 100, temperature 30, a listed location, stamped `now` |
| TelemetrySimulator.InitialReachable | backend/src/main/java/com/smartcar/monitoring/simulator/TelemetrySimulator.java:116-127 | a fresh record with a fresh profile is in a reachable state |
| TelemetrySimulator.AdvanceReachable | backend/src/main/java/com/smartcar/monitoring/simulator/TelemetrySimulator.java:126-162 | from a reachable state one step stays reachable; speed moves exactly ±3 and temperature exactly ±2 unless pinned at a target where the direction flips; fuel refills to 100 after 0 and otherwise drops by the drawn 1 or 2, stopping at 0 |
| TelemetrySimulator.CarStep | backend/src/main/java/com/smartcar/monitoring/simulator/TelemetrySimulator.java:83-109 | a car without a trip loses both entries; a car with a trip gets a record carrying its id and the trip's id; other cars keep theirs |
| TelemetrySimulator.TripChangeRestarts | backend/src/main/java/com/smartcar/monitoring/simulator/TelemetrySimulator.java:95-102 | a car with no record, or one from another trip, restarts: its new record is one step from speed 0, fuel 100 and temperature 30 with a fresh profile |
| TelemetrySimulator.SameTripAdvances | backend/src/main/java/com/smartcar/monitoring/simulator/TelemetrySimulator.java:102-106 | a car on the same trip advances from its stored record and profile |
| TelemetrySimulator.CarStepSynced | backend/src/main/java/com/smartcar/monitoring/simulator/TelemetrySimulator.java:83-109 | one iteration keeps both maps over the same cars, every record stamped with its car and a trip, and every car reachable |
| TelemetrySimulator.SimulateKeepsOthers | backend/src/main/java/com/smartcar/monitoring/simulator/TelemetrySimulator.java:76-109 | a pass leaves cars outside its list untouched |
| TelemetrySimulator.SimulateCoversListed | backend/src/main/java/com/smartcar/monitoring/simulator/TelemetrySimulator.java:84-108 | after a pass a listed car without a trip has no entries, and one with a trip has a record carrying its id and that trip's id |
| TelemetrySimulator.SimulateCarsStep | backend/src/main/java/com/smartcar/monitoring/simulator/TelemetrySimulator.java:83-109 | one more car of the pass is one more iteration |
| TelemetrySimulator.SimulateSynced | backend/src/main/java/com/smartcar/monitoring/simulator/TelemetrySimulator.java:71-114 | a pass over any list of cars, so also a pass cut short by an exception, keeps the maps in step and every car reachable |
| TelemetrySimulator.ProfileState.constructor | backend/src/main/java/com/smartcar/monitoring/simulator/TelemetrySimulator.java:55-59 | both directions rising, no reset pending |
| TelemetrySimulator.AdvanceSpeed | backend/src/main/java/com/smartcar/monitoring/simulator/TelemetrySimulator.java:129-135 | the statements compute `SpeedStep` and change only the speed direction |
| TelemetrySimulator.AdvanceTemp | backend/src/main/java/com/smartcar/monitoring/simulator/TelemetrySimulator.java:137-143 | the statements compute `TempStep` and change only the temperature direction |
| TelemetrySimulator.AdvanceFuel | backend/src/main/java/com/smartcar/monitoring/simulator/TelemetrySimulator.java:145-152 | the statements compute `FuelStep` and change only the reset flag |
| TelemetrySimulator.AdvanceProfile | backend/src/main/java/com/smartcar/monitoring/simulator/TelemetrySimulator.java:129-161 | the new record and profile fields are those of one step |
| TelemetrySimulator.TelemetrySimulator.constructor | backend/src/main/java/com/smartcar/monitoring/simulator/TelemetrySimulator.java:39-53 | empty maps, not running |
| TelemetrySimulator.TelemetrySimulator.Init | backend/src/main/java/com/smartcar/monitoring/simulator/TelemetrySimulator.java:61-69 | running afterwards exactly when it was running or is enabled; a broadcast exactly when this starts it |
| TelemetrySimulator.TelemetrySimulator.StartSimulation | backend/src/main/java/com/smartcar/monitoring/simulator/TelemetrySimulator.java:183-188 | running afterwards; the status is broadcast only when it was stopped |
| TelemetrySimulator.TelemetrySimulator.StopSimulation | backend/src/main/java/com/smartcar/monitoring/simulator/TelemetrySimulator.java:190-195 | stopped afterwards; the status is broadcast only when it was running |
| TelemetrySimulator.TelemetrySimulator.IsRunning | backend/src/main/java/com/smartcar/monitoring/simulator/TelemetrySimulator.java:197-199 | the flag's value |
| TelemetrySimulator.TelemetrySimulator.SetSimulatorEnabled | backend/src/main/java/com/smartcar/monitoring/simulator/TelemetrySimulator.java:201-209 | the setting is stored and the simulator is running exactly when enabled |
| TelemetrySimulator.TelemetrySimulator.ProfileFor | backend/src/main/java/com/smartcar/monitoring/simulator/TelemetrySimulator.java:127 | the car's profile object, created fresh with the initial fields when it had none |
| TelemetrySimulator.TelemetrySimulator.SmoothAdvance | backend/src/main/java/com/smartcar/monitoring/simulator/TelemetrySimulator.java:126-162 | the returned record and the car's new profile are one step; no other car's profile changes |
| TelemetrySimulator.TelemetrySimulator.Forget | backend/src/main/java/com/smartcar/monitoring/simulator/TelemetrySimulator.java:84-89 | both of the car's entries are removed |
| TelemetrySimulator.TelemetrySimulator.SimulateCar | backend/src/main/java/com/smartcar/monitoring/simulator/TelemetrySimulator.java:83-109 | one iteration changes the maps as `CarStep` says |
| TelemetrySimulator.TelemetrySimulator.SimulateTelemetry | backend/src/main/java/com/smartcar/monitoring/simulator/TelemetrySimulator.java:71-114 | nothing changes unless enabled and running; otherwise the ACTIVE cars are advanced in order as `CarStep` says, and when an exception ends the pass after the first n cars were stored, the state is that of the pass over those n cars |
| DataSeed.SeedCost | backend/src/main/java/com/smartcar/monitoring/config/DataSeedConfig.java:35-36 | at least 50, and at least 100 for distinct points |
| DataSeed.Row | backend/src/main/java/com/smartcar/monitoring/config/DataSeedConfig.java:28 | the outer index of an iteration is below 5 |
| DataSeed.Col | backend/src/main/java/com/smartcar/monitoring/config/DataSeedConfig.java:29 | the inner index is below 5, and the iteration number is `5 * i + j` |
| DataSeed.CellOf | backend/src/main/java/com/smartcar/monitoring/config/DataSeedConfig.java:28-29 | each (i, j) pair is one iteration |
| DataSeed.SeedTripCosts | backend/src/main/java/com/smartcar/monitoring/config/DataSeedConfig.java:25-45 | the nested loops over the five Pune localities leave the fare table as `Seed` says, and complete exactly when no save failed |
| DataSeed.SeedRow | backend/src/main/java/com/smartcar/monitoring/config/DataSeedConfig.java:29-41 | one pass of the inner loop: five more iterations, or a failure that ends the seeding |
| DataSeed.SeedUpToStep | backend/src/main/java/com/smartcar/monitoring/config/DataSeedConfig.java:28-41 | one more iteration is one more step |
| DataSeed.SeedCell | backend/src/main/java/com/smartcar/monitoring/config/DataSeedConfig.java:30-38 | one iteration: skip equal points, keep an active fare, otherwise try to save |
| DataSeed.FailedStays | backend/src/main/java/com/smartcar/monitoring/config/DataSeedConfig.java:42-44 | after a failure no later iteration changes anything |
| DataSeed.SeedCostRange | backend/src/main/java/com/smartcar/monitoring/config/DataSeedConfig.java:35-36 | for distinct points the fare is symmetric and one of 100, 150, 200, 250 |
| DataSeed.CellRouteInjective | backend/src/main/java/com/smartcar/monitoring/config/DataSeedConfig.java:21-23 | distinct iterations name distinct routes |
| DataSeed.PointsDistinct | backend/src/main/java/com/smartcar/monitoring/config/DataSeedConfig.java:21-23 | the five Pune localities ("Shivajinagar, Pune" to "Kalyani Nagar, Pune") are distinct |
| DataSeed.SeedKeepsRows | backend/src/main/java/com/smartcar/monitoring/config/DataSeedConfig.java:33-37 | existing rows are kept as they were; every new row is the fare of some non-diagonal iteration |
| DataSeed.SeedCoversCells | backend/src/main/java/com/smartcar/monitoring/config/DataSeedConfig.java:30-37 | without a failure, every non-diagonal pair seen so far has an active fare |
| DataSeed.SeedNoOp | backend/src/main/java/com/smartcar/monitoring/config/DataSeedConfig.java:33 | when every pair already has an active fare, seeding changes nothing |
| DataSeed.SeedIdempotent | backend/src/main/java/com/smartcar/monitoring/config/DataSeedConfig.java:25-45 | a second seeding after a completed one adds nothing |
| DataSeed.SeedKeepsActiveFare | backend/src/main/java/com/smartcar/monitoring/config/DataSeedConfig.java:33 | an active fare is never overwritten |
| DataSeed.SeedFailsOnInactiveRow | backend/src/main/java/com/smartcar/monitoring/config/DataSeedConfig.java:33-44 | an inactive row for a pair makes its save fail, which ends the seeding |
| DataSeed.SeedEmptyRows | backend/src/main/java/com/smartcar/monitoring/config/DataSeedConfig.java:28-39 | seeding an empty table never fails, and every row it holds is a seeded fare |
| DataSeed.SeedEmptyFresh | backend/src/main/java/com/smartcar/monitoring/config/DataSeedConfig.java:33 | on an empty table each pair is new when its turn comes |
| DataSeed.SeedEmptyCount | backend/src/main/java/com/smartcar/monitoring/config/DataSeedConfig.java:28-39 | after n iterations on an empty table there are n minus the diagonal ones so far rows |
| DataSeed.DiagonalBelowStep | backend/src/main/java/com/smartcar/monitoring/config/DataSeedConfig.java:30 | counting the skipped iterations one at a time |
| DataSeed.StepCard | backend/src/main/java/com/smartcar/monitoring/config/DataSeedConfig.java:30-37 | an iteration adds one row for a fresh pair and none on the diagonal |
| DataSeed.SeedEmptyFare | backend/src/main/java/com/smartcar/monitoring/config/DataSeedConfig.java:35-37 | on an empty table, the route from the i-th to the j-th Pune locality gets the active fare `50 * (abs(i - j) + 1)` |
| DataSeed.SeedEmptyNoLoop | backend/src/main/java/com/smartcar/monitoring/config/DataSeedConfig.java:30 | no seeded route starts where it ends |
| DataSeed.SeedEmptyFares | backend/src/main/java/com/smartcar/monitoring/config/DataSeedConfig.java:28-39 | every ordered pair of distinct Pune localities gets its fare |
| DataSeed.SeedEmptyNamedFares | backend/src/main/java/com/smartcar/monitoring/config/DataSeedConfig.java:21-39 | on an empty table, "Shivajinagar, Pune" to "Kothrud, Pune" gets the active fare 100 and "Kalyani Nagar, Pune" to "Shivajinagar, Pune" gets 250 |
| DataSeed.SeedEmptyCompletes | backend/src/main/java/com/smartcar/monitoring/config/DataSeedConfig.java:25-45 | seeding an empty table completes |
| DataSeed.SeedEmptyTwenty | backend/src/main/java/com/smartcar/monitoring/config/DataSeedConfig.java:28-39 | seeding an empty table creates exactly 20 fares |
| DataSeed.SeedEmptyNoLoops | backend/src/main/java/com/smartcar/monitoring/config/DataSeedConfig.java:30 | no row of the seeded table has equal points |
| PageHelpers.FormatLocalDateTime | frontend/src/pages/AlertsPage.js:6-15 | the year's digits, then `-MM-DDTHH:mm:ss` with each field zero-padded to two digits |
| PageHelpers.TimeSuffix | frontend/src/pages/AlertsPage.js:7-14 | the part after the year is 15 characters |
| PageHelpers.TwoDigitsAt | frontend/src/pages/AlertsPage.js:7 | a padded two-digit field reads back as its number |
| PageHelpers.SuffixRoundTrip | frontend/src/pages/AlertsPage.js:8-14 | the part after the year reads back as the date's fields |
| PageHelpers.FormatRoundTrip | frontend/src/pages/AnalyticsPage.js:12-15 | the formatted text parses back to the same date and time, so the format loses nothing |
| PageHelpers.CompactCause | frontend/src/pages/AlertsPage.js:18-25 | speed, then fuel, then temp on the lowercased type; "Threshold exceeded" otherwise; the value text is passed through |
| PageHelpers.CauseText | frontend/src/pages/AlertsPage.js:21-24 | the text starts "Speed ", "Fuel " or "Temp " by kind, and is "Threshold exceeded" exactly when no kind matched |
| PageHelpers.DerivedValue | frontend/src/pages/AlertsPage.js:168-173 | with a record, fuel, then temp, then speed on the lowercased type, else none; none without a record |
| PageHelpers.CauseAndValueAgree | frontend/src/pages/DriverDashboard.js:114-125 | a speed-only type gives a speed value and an overspeed cause; a fuel type without speed gives a fuel value and a low-fuel cause; a type naming both gets an overspeed cause around a fuel value, because the two checks run in different orders |
| PageHelpers.ScanUpTo | frontend/src/pages/AlertsPage.js:163-167 | the best index so far has the least distance, and is the first such index because the comparison is strict |
| PageHelpers.NearestFacts | frontend/src/pages/DriverDashboard.js:104-113 | none for an empty list; otherwise a record at minimal distance with no earlier record as close |
| PageHelpers.Nearest | frontend/src/pages/DriverDashboard.js:104-113 | the search loop returns `NearestRecord` |
| PageHelpers.SeverityOfNames | frontend/src/pages/AlertsPage.js:152-155 | a key names a severity exactly when it is that severity's name |
| PageHelpers.OfSeverityMembers | frontend/src/pages/AlertsPage.js:153-156 | a severity's list holds exactly the alerts with that uppercased severity |
| PageHelpers.SeverityPartition | frontend/src/pages/AnalyticsPage.js:176-183 | the known-severity count plus the ungrouped count is the alert count |
| Sorting.SortNewestFirstFacts | frontend/src/pages/AlertsPage.js:56 | the newest-first sort is ordered, a permutation of its input, and stable (equal timestamps keep their order) |
| Sorting.SortedPageFacts | frontend/src/pages/DriverTripDetails.js:99-105 | a page of the sorted copy is ordered and holds only input elements |
| Sorting.FilterSorted | frontend/src/pages/AlertsPage.js:63-66 | filtering a sorted list keeps it sorted |
| Paging.TotalPages | frontend/src/pages/AlertsPage.js:216 | `max(1, ceil(n / size))`: at least 1, enough pages for n items, and no empty last page |
| Paging.PageShape | frontend/src/pages/AlertsPage.js:211-214 | a page has at most `size` items and is exactly the slice from `(page - 1) * size` |
| Paging.PagesCoverAll | frontend/src/pages/DriverTripDetails.js:99-115 | the pages, concatenated, are the list |
| Paging.PrevNextInRange | frontend/src/pages/AlertsPage.js:288-290 | Prev and Next keep the page within [1, total] and move by one unless at an end |
| AlertsPage.CountsSnoc | frontend/src/pages/AlertsPage.js:140-147 | one more alert raises exactly its bucket |
| AlertsPage.CountsByType | frontend/src/pages/AlertsPage.js:138-149 | the loop counts by bucket with precedence speed, fuel, temp, maint, other, and the buckets sum to the alert count |
| AlertsPage.CountsCoverAll | frontend/src/pages/AlertsPage.js:138-149 | every alert lands in exactly one bucket |
| AlertsPage.AlertsBySeverity | frontend/src/pages/AlertsPage.js:151-158 | the loop builds the severity groups of `GroupsOf` |
| AlertsPage.GroupsFacts | frontend/src/pages/AlertsPage.js:151-158 | each group holds only alerts of its severity; groups plus ungrouped alerts make up the list; everything is grouped exactly when every severity is known |
| AlertsPage.DeriveValueForAlert | frontend/src/pages/AlertsPage.js:160-174 | none for an empty window; otherwise the derived value of the nearest record |
| AlertsPage.AdminAlertsFacts | frontend/src/pages/AlertsPage.js:59-67 | admin alerts are newest first and are exactly the alerts whose car is in the car list |
| AlertsPage.PagedBySeverity | frontend/src/pages/AlertsPage.js:219-227 | for any pages of at least 1, each severity page has at most 5 items; a page in range is empty only when its group is, and a stale page past the group's last is empty |
| AlertsPage.GroupPageShape | frontend/src/pages/AlertsPage.js:222-224 | a severity page holds at most 5 alerts; in range it is empty only for an empty group, and past the last page it is empty |
| AlertsPage.SeverityStalePageIsEmpty | frontend/src/pages/AlertsPage.js:78 | after `loadAlerts` (which keeps `sevPage`) shrinks a group below its page, that group shows no alerts |
| AlertsPage.SeverityButtonsKeepPositive | frontend/src/pages/AlertsPage.js:403-412 | Prev and Next keep every page at least 1 from any positive pages; on a stale page Next is disabled and changes nothing, and Prev moves one page back |
| AlertsPage.InitialPagesInRange | frontend/src/pages/AlertsPage.js:39 | the initial pages are 1 for every severity, which is in range |
| AlertsPage.SeverityPrevInRange | frontend/src/pages/AlertsPage.js:403 | from pages in range (which a reload can end), Prev keeps every severity's page in range and changes only its own |
| AlertsPage.SeverityNextInRange | frontend/src/pages/AlertsPage.js:411-412 | from pages in range (which a reload can end), Next keeps every severity's page in range and changes only its own |
| AnalyticsPage.CarIds | frontend/src/pages/AnalyticsPage.js:110 | the ids of the cars, in order |
| AnalyticsPage.LatestForCars | frontend/src/pages/AnalyticsPage.js:110-111 | exactly the latest records of listed cars, in order |
| AnalyticsPage.StatusDistributionFacts | frontend/src/pages/AnalyticsPage.js:170-173 | one entry per distinct uppercased status, a missing status counted as "-", each entry's count in the list, and counts summing to the number of cars |
| AnalyticsPage.MissingStatusKey | frontend/src/pages/AnalyticsPage.js:171 | a missing or empty status counts as "-" |
| AnalyticsPage.SeverityPie | frontend/src/pages/AnalyticsPage.js:176-183 | exactly four entries LOW, MEDIUM, HIGH, CRITICAL, summing to the alert count minus the unknown severities |
| AnalyticsPage.PieSum | frontend/src/pages/AnalyticsPage.js:176-183 | the pie's sum plus the ungrouped alerts is the alert count |
| AnalyticsPage.PieStep | frontend/src/pages/AnalyticsPage.js:178-181 | one more alert raises exactly its severity's entry, or none |
| AnalyticsPage.IdToNumberKeys | frontend/src/pages/AnalyticsPage.js:253 | the id map holds exactly the listed cars' ids |
| AnalyticsPage.IdToNumberKey | frontend/src/pages/AnalyticsPage.js:253 | an id is a key exactly when some car has it |
| AnalyticsPage.IdToNumberIds | frontend/src/pages/AnalyticsPage.js:253 | the map's keys are the set of car ids |
| AnalyticsPage.IdsMembers | frontend/src/pages/AnalyticsPage.js:253 | the set of car ids holds exactly the listed ids |
| AnalyticsPage.IdToNumberLast | frontend/src/pages/AnalyticsPage.js:253 | the last car with an id decides its entry: the car number, else the id text |
| AnalyticsPage.AlertsByCarNumber | frontend/src/pages/AnalyticsPage.js:252-260 | the loop tallies alerts by key with distinct names, and the counts sum to the alert count |
| AnalyticsPage.AlertKeyedByNumber | frontend/src/pages/AnalyticsPage.js:256 | an alert on a listed car is keyed by its car number, falling back to the id text |
| AnalyticsPage.CarAlertCounts | frontend/src/pages/AnalyticsPage.js:129-146 | total is the length, unacknowledged is the length of `filter(a => !a.acknowledged)` and critical the length of `filter(a => a.severity === "CRITICAL")`, both at most total; a failed fetch gives zeros |
| AnalyticsPage.CountsAreFilterLengths | frontend/src/pages/AnalyticsPage.js:134-136 | the unacknowledged and critical counters equal the lengths of the two `filter` calls |
| AnalyticsPage.CountFacts | frontend/src/pages/AnalyticsPage.js:134-136 | each count is bounded by total, and is total or 0 exactly when all or none of the alerts qualify |
| AnalyticsPage.InRange | frontend/src/pages/AnalyticsPage.js:188-191 | exactly the alerts in the window and of the selected car, in order |
| AnalyticsPage.InRangeSelection | frontend/src/pages/AnalyticsPage.js:188-191 | "ALL" keeps every car's alerts in the window; a car's id keeps only that car's |
| AnalyticsPage.IntToStringNotAll | frontend/src/pages/AnalyticsPage.js:190 | no id's text is "ALL" |
| SettingsPage.FilterDrivers | frontend/src/pages/SettingsPage.js:87-96 | an empty search keeps the list; otherwise the ordered sublist of drivers whose id text, or lowercased username, name or contact number, contains the lowercased trimmed query |
| SettingsPage.FilterCars | frontend/src/pages/SettingsPage.js:104-108 | the same on id, driver name, car number and model |
| SettingsPage.BlankSearchKeepsAll | frontend/src/pages/SettingsPage.js:89-96 | a search of only white space hides nothing |
| SettingsPage.VisibleFacts | frontend/src/pages/SettingsPage.js:97-114 | the current page is in [1, totalPages], the table shows at most 8 rows from `(current - 1) * 8`, and is empty only for an empty list |
| SettingsPage.PageAfterChange | frontend/src/pages/SettingsPage.js:79-80 | back to page 1 whenever the search text or the list length changes; otherwise unchanged |
| SettingsPage.ResetShowsFirstPage | frontend/src/pages/SettingsPage.js:79-80 | after a reset the first rows are shown |
| SettingsPage.Normalize | frontend/src/pages/SettingsPage.js:138 | the normalised number has no white space and is no longer than the input |
| SettingsPage.NormalizeIdempotent | frontend/src/pages/SettingsPage.js:138 | normalising twice is normalising once |
| SettingsPage.Payload | frontend/src/pages/SettingsPage.js:151-159 | the normalised number, status defaulting to IDLE, and speed 0, fuel 100, temperature 40 at the start location |
| SettingsPage.HandleCreateCar | frontend/src/pages/SettingsPage.js:131-184 | rejected with the duplicate message exactly when the number normalises to an existing one; otherwise the payload is posted, and the car counts as created exactly when the answer has success and a non-zero id |
| SettingsPage.RejectionSendsNothing | frontend/src/pages/SettingsPage.js:141-149 | a rejected number does not depend on the server: nothing is posted |
| SettingsPage.CreatedNumberIsTaken | frontend/src/pages/SettingsPage.js:141-143 | once created, the number (in any spacing or letter case) is rejected next time |
| AdminDashboard.DriverMapKeys | frontend/src/pages/AdminDashboard.js:48-51 | the map holds exactly the assigned cars' ids |
| AdminDashboard.DriverMapLast | frontend/src/pages/AdminDashboard.js:48-51 | the last driver of a car wins, with name else username |
| AdminDashboard.CarMapLast | frontend/src/pages/AdminDashboard.js:54-58 | the last car with an id wins |
| AdminDashboard.ActiveTelemetry | frontend/src/pages/AdminDashboard.js:44-46 | exactly the records of listed cars, in order |
| AdminDashboard.RowFor | frontend/src/pages/AdminDashboard.js:78-89 | text fields are never empty (defaults "-"); each present reading is kept, 0 included, and each missing one is 0 on its own |
| AdminDashboard.BuildRows | frontend/src/pages/AdminDashboard.js:60-90 | one row per record of a listed car, in order, each built by `RowFor` |
| AdminDashboard.RowShowsCar | frontend/src/pages/AdminDashboard.js:78-83 | a row shows its car's number, model and status, or "-" where missing |
| AdminDashboard.RowWithoutDriver | frontend/src/pages/AdminDashboard.js:84 | a car no driver is assigned to shows "-" |
| AdminDashboard.RowShowsDriver | frontend/src/pages/AdminDashboard.js:84 | a car shows the name of the last driver assigned to it |
| AdminDashboard.FilteredVehicles | frontend/src/pages/AdminDashboard.js:136-145 | a blank query keeps all rows; otherwise the ordered sublist matching on id, driver or location |
| AdminDashboard.StatusCountsBound | frontend/src/pages/AdminDashboard.js:147-149 | the three status counts sum to at most the row count, and to exactly it when every status is one of the three |
| AdminDashboard.FuelColour | frontend/src/pages/AdminDashboard.js:151-155 | green above 50, orange above 25, red otherwise |
| AdminDashboard.TempColour | frontend/src/pages/AdminDashboard.js:157-161 | green up to 95, orange up to 100, red above |
| AdminDashboard.ColoursMonotone | frontend/src/pages/AdminDashboard.js:151-161 | less fuel is never a better colour, and a higher temperature never a better colour |
| AdminDashboard.LoadCritical | frontend/src/pages/AdminDashboard.js:102-110 | only open alerts whose uppercased severity is CRITICAL, in order; empty after a failure |
| AdminDashboard.LowercaseCriticalListed | frontend/src/pages/AdminDashboard.js:105-107 | the severity test ignores case |
| AdminDashboard.AcknowledgeAlert | frontend/src/pages/AdminDashboard.js:116-121 | on success exactly the entries with other ids remain, in order; on failure the list is unchanged; the list stays open-critical |
| AdminDashboard.AcknowledgeIdempotent | frontend/src/pages/AdminDashboard.js:116-121 | acknowledging twice is acknowledging once |
| AdminDashboard.AcknowledgeAll | frontend/src/pages/AdminDashboard.js:123-128 | when every request succeeds, the list is what acknowledging each alert in turn leaves, which is empty; unchanged when any fails |
| AdminDashboard.AcknowledgeEachLeaves | frontend/src/pages/AdminDashboard.js:116-121 | acknowledging ids one by one leaves the alerts with none of those ids |
| AdminDashboard.EachOfAllIdsEmpties | frontend/src/pages/AdminDashboard.js:116-128 | acknowledging every listed alert one at a time leaves no alert |
| AdminDashboard.AcknowledgeAllIsEach | frontend/src/pages/AdminDashboard.js:123-128 | when all succeed, acknowledging all agrees with acknowledging each |
| DriverTripDetails.PagesShowAll | frontend/src/pages/DriverTripDetails.js:99-115 | the pages of the newest-first copy, concatenated, are the whole sorted list |
| DriverTripDetails.PagerInRange | frontend/src/pages/DriverTripDetails.js:233-328 | Prev and Next keep each page in [1, total] |
| DriverTripDetails.Load | frontend/src/pages/DriverTripDetails.js:74-97 | success stores both lists (missing ones empty) and resets both pages to 1; failure empties both lists |
| DriverTripDetails.LoadPagesInRange | frontend/src/pages/DriverTripDetails.js:83-91 | after a load both page numbers are at least 1, and after a success they are within the page totals |
| DriverTripDetails.Penalty | frontend/src/pages/DriverTripDetails.js:297-298 | 10 exactly for HIGH, 20 exactly for CRITICAL, 0 otherwise, ignoring case |
| DriverTripDetails.PenaltyByLevel | frontend/src/pages/DriverTripDetails.js:297-298 | the penalty is a function of the severity level |
| DriverTripDetails.StyleOf | frontend/src/pages/DriverTripDetails.js:36-47 | the default style exactly for an unknown level |
| DriverTripDetails.SeverityBadge | frontend/src/pages/DriverTripDetails.js:33-48 | the uppercased severity as text, and the default style exactly when it is not a known level |
| DriverTripDetails.BadgeIdempotent | frontend/src/pages/DriverTripDetails.js:34 | badging a badge's text gives the same badge |
| DriverTripDetails.BadgeMatchesPenalty | frontend/src/pages/DriverTripDetails.js:36-47 | penalised alerts are exactly those with orange or red badges, and 20 exactly red |
| DriverDashboard.AssignedCar | frontend/src/pages/DriverDashboard.js:36-49 | a car exactly when the response names a non-zero id |
| DriverDashboard.LatestRecord | frontend/src/pages/DriverDashboard.js:70-78 | the first record when there is one |
| DriverDashboard.NewestAlerts | frontend/src/pages/DriverDashboard.js:80-90 | the alerts newest first, a permutation of the response; empty after a failure |
| DriverDashboard.Candidates | frontend/src/pages/DriverDashboard.js:94 | the first three (or fewer) alerts |
| DriverDashboard.CandidatesAreNewest | frontend/src/pages/DriverDashboard.js:83-95 | from a newest-first list the candidates are sorted and no older than any alert after them |
| DriverDashboard.MinTime | frontend/src/pages/DriverDashboard.js:96 | the least candidate timestamp |
| DriverDashboard.MaxTime | frontend/src/pages/DriverDashboard.js:97 | the greatest candidate timestamp |
| DriverDashboard.QueryWindow | frontend/src/pages/DriverDashboard.js:96-99 | from 10 minutes before the oldest to 10 minutes after the newest candidate, and no wider |
| DriverDashboard.WithNearest | frontend/src/pages/DriverDashboard.js:114-125 | the alert with the value of its nearest record and the matching cause |
| DriverDashboard.RecentAlerts | frontend/src/pages/DriverDashboard.js:92-130 | up to three alerts in order; with records each carries its nearest value; after a failure each is plain |
| DriverDashboard.ValuesNeedTelemetry | frontend/src/pages/DriverDashboard.js:114-125 | a value is shown only with records and a known alert type |
| DriverDashboard.RecentValueFromNearest | frontend/src/pages/DriverDashboard.js:104-125 | a shown value is the value of a record at minimal distance from the alert, the first such record |
| DriverDashboard.FetchAll | frontend/src/pages/DriverDashboard.js:132-146 | nothing happens without an assigned car; otherwise latest, alerts and recent values are refreshed and loading ends |
| DriverDashboard.RefreshShowsNewest | frontend/src/pages/DriverDashboard.js:132-146 | after a refresh there are at most three recent alerts, and none is older than any other alert |
| TripManagementPage.Load | frontend/src/pages/TripManagementPage.js:32-50 | success stores the four lists (missing ones empty); failure empties all four |
| TripManagementPage.CurrentTripsFacts | frontend/src/pages/TripManagementPage.js:59-66 | at most 12 trips, in descending end time, exactly the slice from `(page - 1) * 12` of the sorted copy |
| TripManagementPage.ShowPager | frontend/src/pages/TripManagementPage.js:250 | the pager shows exactly when there are more than 12 trips |
| TripManagementPage.NoTripsNoPages | frontend/src/pages/TripManagementPage.js:68 | with no trips there are 0 pages and no pager |
| TripManagementPage.PagerInRange | frontend/src/pages/TripManagementPage.js:253-263 | Prev and Next keep the page in [1, totalPages] |
| TripManagementPage.StalePageIsEmpty | frontend/src/pages/TripManagementPage.js:64-68 | a page beyond the total shows nothing |
| TripManagementPage.ApproveStart | frontend/src/pages/TripManagementPage.js:70-85 | needs a car exactly when none is selected; otherwise posts that trip and car and reports the answer |
| TripManagementPage.NoCarNoRequest | frontend/src/pages/TripManagementPage.js:72-76 | without a selected car nothing is posted |
| TripsPage.FindStatus | frontend/src/pages/TripsPage.js:60-63 | none exactly when no trip has the status; otherwise the first such trip |
| TripsPage.Current | frontend/src/pages/TripsPage.js:59-64 | a listed ACTIVE, APPROVED or REQUESTED trip; none exactly when there is no such trip |
| TripsPage.CurrentPriority | frontend/src/pages/TripsPage.js:59-64 | the first ACTIVE trip, else the first APPROVED, else the first REQUESTED |
| TripsPage.History | frontend/src/pages/TripsPage.js:66 | the ordered sublist of REJECTED and COMPLETED trips |
| TripsPage.CurrentNotInHistory | frontend/src/pages/TripsPage.js:59-66 | the current trip is never in the history |
| TripsPage.ShowRequestForm | frontend/src/pages/TripsPage.js:82 | the form shows exactly when there is no current trip |
| TripsPage.EstimatedCost | frontend/src/pages/TripsPage.js:40-44 | none for empty or equal points; otherwise the base cost of the first fare on the route, or none |
| TripsPage.SubmitRequest | frontend/src/pages/TripsPage.js:46-57 | empty or equal points send nothing; a valid route is posted, and the form clears only on success |
| TripsPage.NoDoubleSubmit | frontend/src/pages/TripsPage.js:51 | after a successful submission, submitting again sends nothing |
| TripsPage.SentRoutesAreValid | frontend/src/pages/TripsPage.js:40-47 | a sent route has distinct, non-empty points; an unsent one has no estimate |
| RegisterPage.OnChange | frontend/src/pages/RegisterPage.js:30-33 | only the named field changes, to the new value |
| RegisterPage.AgeNumber | frontend/src/pages/RegisterPage.js:49 | the number of a text that starts with a digit is not negative |
| RegisterPage.AgeRoundTrip | frontend/src/pages/RegisterPage.js:127 | every integer typed into the number field reads back as itself |
| RegisterPage.NaturalAge | frontend/src/pages/RegisterPage.js:127 | digits read back as their value |
| RegisterPage.NegativeAge | frontend/src/pages/RegisterPage.js:127 | a minus sign and digits read back as the negative value |
| RegisterPage.Validate | frontend/src/pages/RegisterPage.js:41-47 | no message exactly for a valid form; each message exactly when its check is the first to fail, in the order username, password, name, age, contact, email, license |
| RegisterPage.InitialIsInvalid | frontend/src/pages/RegisterPage.js:16-25 | the empty form fails on the username |
| RegisterPage.GenderNotChecked | frontend/src/pages/RegisterPage.js:41-47 | the gender never changes the validation |
| RegisterPage.PayloadOf | frontend/src/pages/RegisterPage.js:49 | the form's fields with the age as a number and role DRIVER |
| RegisterPage.ReadAnswer | frontend/src/pages/RegisterPage.js:50-66 | registered exactly when the answer has a non-zero user id; otherwise a failure with a non-empty message |
| RegisterPage.Submit | frontend/src/pages/RegisterPage.js:39-67 | an invalid form shows the first message and posts nothing; a registration resets the form to its initial values; a failure keeps the form |
| RegisterPage.InvalidPostsNothing | frontend/src/pages/RegisterPage.js:41-50 | an invalid form's outcome does not depend on the server |
| RegisterPage.NoDoubleRegistration | frontend/src/pages/RegisterPage.js:54-64 | after a registration, submitting again fails validation on the username |

## Left out

- HTTP calls, `Promise.all`, WebSocket broadcasts, MQTT publishing, logging and `System.out` are not modelled. A server answer is a parameter, or an `Option` that is `None` when the request threw. A status broadcast is a returned flag.
- The transient `loading`/`submitting` flags are not modelled. GET requests made after a success are not modelled either, and neither are the success and error toasts, except as outcome values.
- Timers, polling, and the race between late responses are not modelled; they are event-loop concerns.
- Date parsing, locale formatting, `getRange`, `formatDisplayTime` and the locale-string bucket keys of `alertsOverTime` are not modelled. Timestamps are integers in milliseconds, and invalid dates (NaN) are not modelled.
- PageHelpers.CompactCause: prints the value text as given. The source strips every character but digits, `.` and `-`, parses the rest with `parseFloat`, and prints that number when it is one (so "72 km/h" gives "Speed 72 > 100 (overspeed)" where the model gives "Speed 72 km/h > 100 (overspeed)"). JavaScript number parsing and printing are not modelled.
- RegisterPage.AgeNumber: models `Number()` only for decimal digits with an optional sign; fractions, exponents, white space and hexadecimal forms are not modelled, because the age input is a number field.
- `Object.entries` lists integer-like keys first. AnalyticsPage.StatusDistributionFacts and AnalyticsPage.AlertsByCarNumber keep insertion order instead and state only the set of names and their counts.
- Strings are sequences of ASCII characters. Unicode case mapping, Unicode white space and UTF-16 lengths are not modelled.
- TripService.TripService.ActiveTripForDriver and TripService.TripService.ActiveTripForCar return the ACTIVE trip with the lowest id. `findFirstByDriverIdAndStatus` and `findFirstByCarIdAndStatus` have no ORDER BY, so the database picks the row; the model fixes that choice.
- Costs are integers; `BigDecimal` is not modelled because fines and fares are whole rupees.
- `Random` draws and `LocalDateTime.now()` are parameters. `AtomicBoolean` is a plain flag because its uses are sequential.
- `setSimulatorInterval` is not modelled; it only changes the scheduler period.
- DriverService, CarService, the Car and Driver entities, and TripDto are not part of this model. `Fleet` carries only the car and driver fields that TripService reads or writes.
- The notification on reject, the broadcasts after approve and stop, and `notifySimulatorTripStarted` are not modelled; they are messaging.
- The "recent top 5" cause strings of AlertsPage (lines 176-209) are not modelled. They repeat the nearest-record join and `compactCause`, which are modelled, around one request per alert.
- The ascending sort of all alerts in AnalyticsPage (line 109) and the chart series are not modelled; they only feed charts.
- The SettingsPage form reset, `refreshFleet`, `handleDeleteCar` and `formatDateTime` are not modelled; they are request and state plumbing.
- The alert counts per car on AdminDashboard (line 52) and its last-update time are not modelled; the latter comes from the clock.
- The `telemetry.find` lookup on DriverTripDetails (lines 290-295) is not modelled. It is a display lookup.
- The `fetchStats` call on DriverDashboard (lines 51-68) is not modelled; it is a server aggregate copied into state.
- The reject handler of TripManagementPage (lines 87-95) and the status badge of TripsPage (lines 68-75) are not modelled; they are a plain request and a colour table.
- React rendering, the HistoryPage login form, Navigation and the TripController HTTP layer are not part of this model.
