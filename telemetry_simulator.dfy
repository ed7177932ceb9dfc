/**
 * `TelemetrySimulator`: every pass over the cars whose status is "ACTIVE"
 * advances, for each car that has an ACTIVE trip, a per-car telemetry record
 * and a per-car profile (gauge directions and a pending fuel reset), and stores
 * the new record. Speed bounces between 60 and 120 in steps of 3, temperature
 * between 80 and 120 in steps of 2, fuel drains by 1 or 2 and refills to 100 on
 * the step after it reaches 0, and the location moves round-robin through five
 * places.
 *
 * `Random` draws are parameters of the operations, constrained to the ranges
 * `nextInt` returns; `LocalDateTime.now()` is a timestamp parameter `now`, one
 * per pass; the car and trip services are inputs (the ids of the ACTIVE cars,
 * and a map from car id to the id of its ACTIVE trip); publishing, logging and
 * the status broadcast are left out, the broadcast becoming a returned flag.
 * `TelemetryDto` values are built fresh and never mutated after being stored,
 * so they are a datatype here; the profiles are mutated in place, so they are
 * objects.
 */
module TelemetrySimulator {
  import opened Wrappers
  import Seqs

  type Timestamp = int

  /** The simulated readings of one car at one moment (`TelemetryDto`). */
  datatype Telemetry = Telemetry(
    carId: Option<int>,
    tripId: Option<int>,
    speed: int,
    fuelLevel: int,
    temperature: int,
    location: string,
    timestamp: Timestamp)

  /** The places a simulated car drives through, in the order it visits them. */
  const PuneLocations: seq<string> :=
    ["Shivajinagar, Pune", "Kothrud, Pune", "Hinjewadi, Pune", "Viman Nagar, Pune", "Kalyani Nagar, Pune"]

  const TargetMaxSpeed := 120
  const TargetMinSpeed := 60
  const SpeedStepSize := 3
  const TargetMaxTemp := 120
  const TargetMinTemp := 80
  const TempStepSize := 2

  /** No location occurs twice. */
  predicate Distinct(locs: seq<string>) {
    forall i, j :: 0 <= i < j < |locs| ==> locs[i] != locs[j]
  }

  lemma PuneLocationsDistinct()
    ensures |PuneLocations| == 5 && Distinct(PuneLocations)
  {
  }

  // ------------------------------------------------------------ pure helpers

  /** `clamp(v, min, max)`, that is `Math.max(min, Math.min(max, v))`. */
  function Clamp(v: int, lo: int, hi: int): (r: int)
    ensures lo <= hi ==> lo <= r <= hi
    ensures lo <= v <= hi ==> r == v
    ensures v < lo || hi < lo ==> r == lo
    ensures lo <= hi < v ==> r == hi
  {
    var m := if hi < v then hi else v;
    if lo > m then lo else m
  }

  /**
   * `randBetween(a, b)`, that is `a + random.nextInt(max(1, b - a + 1))`, with
   * the value `nextInt` returned passed in as `draw`.
   */
  function RandBetween(a: int, b: int, draw: nat): (r: int)
    requires draw < (if b - a + 1 > 1 then b - a + 1 else 1)
    ensures a <= r
    ensures a <= b ==> r <= b
    ensures b <= a ==> r == a
  {
    a + draw
  }

  // ---------------------------------------------------------------- gauges

  /** A gauge reading together with the direction it is moving in. */
  datatype Gauge = Gauge(value: int, dir: int)

  /**
   * The bounce rule `smoothAdvance` applies to speed and to temperature: move
   * one step in the current direction (down unless the direction is positive);
   * going up and reaching `hi`, pin to `hi` and turn down; then, going down and
   * reaching `lo`, pin to `lo` and turn up.
   */
  function Bounce(prev: int, dir: int, step: int, lo: int, hi: int): Gauge {
    var v := prev + (if dir > 0 then step else -step);
    var g := if dir > 0 && v >= hi then Gauge(hi, -1) else Gauge(v, dir);
    if g.dir < 0 && g.value <= lo then Gauge(lo, 1) else g
  }

  /** The next speed and speed direction (the bounce, then a clamp to [0, 170]). */
  function SpeedStep(speed: int, dir: int): (r: Gauge)
    ensures 0 <= r.value <= 170
    ensures dir > 0 && speed + 3 >= 120 ==> r == Gauge(120, -1)
    ensures dir > 0 && 0 <= speed + 3 < 120 ==> r == Gauge(speed + 3, dir)
    ensures dir < 0 && speed - 3 <= 60 ==> r == Gauge(60, 1)
    ensures dir < 0 && 60 < speed - 3 <= 170 ==> r == Gauge(speed - 3, dir)
  {
    var g := Bounce(speed, dir, SpeedStepSize, TargetMinSpeed, TargetMaxSpeed);
    g.(value := Clamp(g.value, 0, 170))
  }

  /** The next temperature and its direction (the bounce, then a clamp to [-5, 130]). */
  function TempStep(temp: int, dir: int): (r: Gauge)
    ensures -5 <= r.value <= 130
    ensures dir > 0 && temp + 2 >= 120 ==> r == Gauge(120, -1)
    ensures dir > 0 && -5 <= temp + 2 < 120 ==> r == Gauge(temp + 2, dir)
    ensures dir < 0 && temp - 2 <= 80 ==> r == Gauge(80, 1)
    ensures dir < 0 && 80 < temp - 2 <= 130 ==> r == Gauge(temp - 2, dir)
  {
    var g := Bounce(temp, dir, TempStepSize, TargetMinTemp, TargetMaxTemp);
    g.(value := Clamp(g.value, -5, 130))
  }

  /** A fuel level together with the pending-reset flag. */
  datatype Fuel = Fuel(level: int, resetPending: bool)

  /**
   * The next fuel level: a pending reset refills to exactly 100 and clears the
   * flag; otherwise the level drops by `randBetween(1, 2)` (that is `1 + draw`),
   * clamped to [0, 100], and reaching 0 sets the flag.
   */
  function FuelStep(level: int, resetPending: bool, draw: nat): (r: Fuel)
    requires draw < 2
    ensures resetPending ==> r == Fuel(100, false)
    ensures !resetPending ==> 0 <= r.level <= 100 && (r.resetPending <==> r.level == 0)
    ensures !resetPending && 0 <= level - (1 + draw) <= 100 ==> r.level == level - (1 + draw)
    ensures !resetPending && level - (1 + draw) < 0 ==> r.level == 0
  {
    if resetPending then Fuel(100, false)
    else
      var f := Clamp(level - RandBetween(1, 2, draw), 0, 100);
      Fuel(f, f == 0)
  }

  // -------------------------------------------------------------- locations

  /** The index `nextLocation`'s search settles on: the first match, or 0 when there is none. */
  function LocationIndex(locs: seq<string>, current: string): (i: nat)
    requires |locs| > 0
    ensures i < |locs|
  {
    var k := Seqs.FirstIndex((l: string) => l == current, locs);
    if k < |locs| then k else 0
  }

  /** The index after `i`, wrapping round: `(i + 1) % n`. */
  function Succ(i: nat, n: nat): (r: nat)
    requires i < n
    ensures r == (i + 1) % n
  {
    if i + 1 < n then i + 1 else 0
  }

  /** The location after `current` in the round-robin. */
  function NextLocationOf(locs: seq<string>, current: string): string
    requires |locs| > 0
  {
    locs[Succ(LocationIndex(locs, current), |locs|)]
  }

  /**
   * With distinct locations, the location after the `i`-th is the
   * `(i + 1) % n`-th, and a location not in the list is followed by the one
   * after the first, because the search index stays 0.
   */
  lemma NextLocationCycles(locs: seq<string>, current: string)
    requires |locs| > 0 && Distinct(locs)
    ensures NextLocationOf(locs, current) in locs
    ensures forall i :: 0 <= i < |locs| && locs[i] == current ==> NextLocationOf(locs, current) == locs[Succ(i, |locs|)]
    ensures current !in locs ==> NextLocationOf(locs, current) == locs[Succ(0, |locs|)]
  {
  }

  /** `nextLocation`: a linear search for `current`, then the next index modulo the length. */
  method NextLocation(locs: seq<string>, current: string) returns (r: string)
    requires |locs| > 0
    ensures r == NextLocationOf(locs, current)
  {
    var idx := 0;
    var i := 0;
    while i < |locs|
      invariant 0 <= i <= |locs|
      invariant forall j :: 0 <= j < i ==> locs[j] != current
      // `idx` is assigned only on the iteration that breaks out, so at the loop head it is still 0
      invariant idx == 0
    {
      if locs[i] == current {
        idx := i;
        break;
      }
      i := i + 1;
    }
    // the search found the first occurrence, or left 0 when there is none
    assert idx == LocationIndex(locs, current);
    r := locs[(idx + 1) % |locs|];
  }

  // --------------------------------------------------------------- one step

  /** The fields of a `ProfileState`. */
  datatype Profile = Profile(speedDir: int, tempDir: int, fuelResetPending: bool)

  /** `new ProfileState()`: both gauges rising, no reset pending. */
  const InitialProfile := Profile(1, 1, false)

  /** The profile a map holds for the car, or the one `computeIfAbsent` would create. */
  function ProfileOf(profiles: map<int, Profile>, carId: int): Profile {
    if carId in profiles then profiles[carId] else InitialProfile
  }

  /** The random draws made for one car in one pass: fuel drain and starting location. */
  datatype Draw = Draw(fuel: nat, location: nat)

  /** `nextInt(2)` for the fuel drain and `nextInt(n)` for the location. */
  predicate ValidDraw(d: Draw, n: nat) {
    d.fuel < 2 && d.location < n
  }

  /** `initialFromCar`: speed 0, full tank, 30 degrees, at a randomly picked location. */
  function InitialFromCar(locs: seq<string>, pick: nat, now: Timestamp): (t: Telemetry)
    requires pick < |locs|
    ensures t.speed == 0 && t.fuelLevel == 100 && t.temperature == 30
    ensures t.location == locs[pick] && t.location in locs && t.timestamp == now
    ensures t.carId.None? && t.tripId.None?
  {
    Telemetry(None, None, 0, 100, 30, locs[pick], now)
  }

  /** A new record and the updated profile. */
  datatype Advanced = Advanced(next: Telemetry, profile: Profile)

  /** What `smoothAdvance` computes from the previous record and the car's profile. */
  function Advance(locs: seq<string>, prev: Telemetry, p: Profile, fuelDraw: nat, now: Timestamp): Advanced
    requires |locs| > 0 && fuelDraw < 2
  {
    var s := SpeedStep(prev.speed, p.speedDir);
    var tm := TempStep(prev.temperature, p.tempDir);
    var f := FuelStep(prev.fuelLevel, p.fuelResetPending, fuelDraw);
    Advanced(Telemetry(None, None, s.value, f.level, tm.value, NextLocationOf(locs, prev.location), now),
             Profile(s.dir, tm.dir, f.resetPending))
  }

  /**
   * The states a car's record and profile can be in: each gauge rising from
   * below its upper target, or falling from above its lower target, and the
   * pending-reset flag set exactly when the tank is empty.
   */
  ghost predicate Reachable(t: Telemetry, p: Profile) {
    && ((p.speedDir == 1 && 0 <= t.speed < 120) || (p.speedDir == -1 && 60 < t.speed <= 120))
    && ((p.tempDir == 1 && 30 <= t.temperature < 120) || (p.tempDir == -1 && 80 < t.temperature <= 120))
    && 0 <= t.fuelLevel <= 100
    && (p.fuelResetPending <==> t.fuelLevel == 0)
  }

  /** A fresh record with a fresh profile is reachable. */
  lemma InitialReachable(locs: seq<string>, pick: nat, now: Timestamp)
    requires pick < |locs|
    ensures Reachable(InitialFromCar(locs, pick, now), InitialProfile)
  {
  }

  /**
   * From a reachable state one step stays reachable; speed moves by exactly 3
   * and temperature by exactly 2 in the current direction unless pinned at a
   * target, where the direction turns; fuel refills to 100 after an empty tank
   * and otherwise drops by the drawn 1 or 2, stopping at 0.
   */
  lemma AdvanceReachable(locs: seq<string>, prev: Telemetry, p: Profile, fuelDraw: nat, now: Timestamp)
    requires |locs| > 0 && fuelDraw < 2 && Reachable(prev, p)
    ensures var a := Advance(locs, prev, p, fuelDraw, now);
      && Reachable(a.next, a.profile)
      && ((a.next.speed == prev.speed + 3 * p.speedDir && a.profile.speedDir == p.speedDir) ||
          (a.next.speed == 120 && a.profile.speedDir == -1 && p.speedDir == 1) ||
          (a.next.speed == 60 && a.profile.speedDir == 1 && p.speedDir == -1))
      && ((a.next.temperature == prev.temperature + 2 * p.tempDir && a.profile.tempDir == p.tempDir) ||
          (a.next.temperature == 120 && a.profile.tempDir == -1 && p.tempDir == 1) ||
          (a.next.temperature == 80 && a.profile.tempDir == 1 && p.tempDir == -1))
      && (prev.fuelLevel == 0 ==> a.next.fuelLevel == 100)
      && (prev.fuelLevel > 0 ==> a.next.fuelLevel == (if prev.fuelLevel > 1 + fuelDraw then prev.fuelLevel - (1 + fuelDraw) else 0))
  {
  }

  // ------------------------------------------------------------ the passes

  /** The two per-car maps, with each profile object replaced by its fields. */
  datatype SimState = SimState(last: map<int, Telemetry>, profiles: map<int, Profile>)

  /**
   * The state a pass keeps when every stored car has a profile and vice versa,
   * every stored record carries its car's id and a trip id, and every car is in
   * a reachable state.
   */
  ghost predicate Synced(st: SimState) {
    && st.last.Keys == st.profiles.Keys
    && forall c :: c in st.last ==>
         st.last[c].carId == Some(c) && st.last[c].tripId.Some? && Reachable(st.last[c], st.profiles[c])
  }

  /**
   * One iteration of `simulateTelemetry`'s loop, for a car with the given
   * ACTIVE trip (if any): without a trip the car's entries are dropped; with a
   * trip other than the stored record's, the entries are dropped and the car
   * starts afresh; the advanced record, stamped with the car and trip ids, is
   * stored.
   */
  function CarStep(locs: seq<string>, st: SimState, carId: int, activeTrip: Option<int>, d: Draw, now: Timestamp)
    : (r: SimState)
    requires ValidDraw(d, |locs|)
    ensures activeTrip.None? ==> r.last == st.last - {carId} && r.profiles == st.profiles - {carId}
    ensures activeTrip.Some? ==>
      && carId in r.last && carId in r.profiles
      && r.last[carId].carId == Some(carId) && r.last[carId].tripId == activeTrip
      && r.last.Keys == st.last.Keys + {carId} && r.profiles.Keys == st.profiles.Keys + {carId}
    ensures forall c :: c != carId && c in st.last ==> c in r.last && r.last[c] == st.last[c]
    ensures forall c :: c != carId && c in st.profiles ==> c in r.profiles && r.profiles[c] == st.profiles[c]
  {
    if activeTrip.None? then SimState(st.last - {carId}, st.profiles - {carId})
    else
      var st1 := if carId in st.last && st.last[carId].tripId != activeTrip
        then SimState(st.last - {carId}, st.profiles - {carId}) else st;
      var base := if carId in st1.last then st1.last[carId] else InitialFromCar(locs, d.location, now);
      var a := Advance(locs, base, ProfileOf(st1.profiles, carId), d.fuel, now);
      SimState(st1.last[carId := a.next.(carId := Some(carId), tripId := activeTrip)],
               st1.profiles[carId := a.profile])
  }

  /**
   * A car whose stored record belongs to another trip, or that has none,
   * restarts: its new record is one step from speed 0, fuel 100 and
   * temperature 30, with both gauges rising.
   */
  lemma TripChangeRestarts(locs: seq<string>, st: SimState, carId: int, trip: int, d: Draw, now: Timestamp)
    requires ValidDraw(d, |locs|) && Synced(st)
    requires carId !in st.last || st.last[carId].tripId != Some(trip)
    ensures var r := CarStep(locs, st, carId, Some(trip), d, now);
      && r.last[carId] == Telemetry(Some(carId), Some(trip), 3, 99 - d.fuel, 32,
                                   NextLocationOf(locs, locs[d.location]), now)
      && r.profiles[carId] == InitialProfile
  {
  }

  /** A car carrying on with the same trip advances from its stored record and profile. */
  lemma SameTripAdvances(locs: seq<string>, st: SimState, carId: int, trip: int, d: Draw, now: Timestamp)
    requires ValidDraw(d, |locs|) && Synced(st)
    requires carId in st.last && st.last[carId].tripId == Some(trip)
    ensures var r := CarStep(locs, st, carId, Some(trip), d, now);
      var a := Advance(locs, st.last[carId], st.profiles[carId], d.fuel, now);
      && r.last[carId] == a.next.(carId := Some(carId), tripId := Some(trip))
      && r.profiles[carId] == a.profile
  {
  }

  /** Every iteration keeps the maps in step and every car reachable. */
  lemma CarStepSynced(locs: seq<string>, st: SimState, carId: int, activeTrip: Option<int>, d: Draw, now: Timestamp)
    requires ValidDraw(d, |locs|) && Synced(st)
    ensures Synced(CarStep(locs, st, carId, activeTrip, d, now))
  {
    var r := CarStep(locs, st, carId, activeTrip, d, now);
    if activeTrip.Some? {
      if carId in st.last && st.last[carId].tripId == activeTrip {
        AdvanceReachable(locs, st.last[carId], st.profiles[carId], d.fuel, now);
      } else {
        InitialReachable(locs, d.location, now);
        AdvanceReachable(locs, InitialFromCar(locs, d.location, now), InitialProfile, d.fuel, now);
      }
      assert r.last.Keys == r.profiles.Keys;
    }
  }

  predicate ValidDraws(draws: seq<Draw>, n: nat) {
    forall i :: 0 <= i < |draws| ==> ValidDraw(draws[i], n)
  }

  /** The car's ACTIVE trip id under `getActiveTripForCar`, given as a map. */
  function TripOf(activeTrips: map<int, int>, carId: int): Option<int> {
    if carId in activeTrips then Some(activeTrips[carId]) else None
  }

  /** The cars a pass has stored when an exception ends it after `n` of its `count` cars. */
  function StoredBeforeThrow(n: nat, count: nat): (k: nat)
    ensures k <= count && k <= n
    ensures n <= count ==> k == n
  {
    if n < count then n else count
  }

  /** The loop of `simulateTelemetry`: one `CarStep` per ACTIVE car, in list order. */
  function SimulateCars(locs: seq<string>, st: SimState, cars: seq<int>, activeTrips: map<int, int>, draws: seq<Draw>,
                        now: Timestamp): (r: SimState)
    requires |draws| == |cars| && ValidDraws(draws, |locs|)
    decreases |cars|
  {
    if cars == [] then st
    else
      var n := |cars| - 1;
      var mid := SimulateCars(locs, st, cars[..n], activeTrips, draws[..n], now);
      CarStep(locs, mid, cars[n], TripOf(activeTrips, cars[n]), draws[n], now)
  }

  /** A pass leaves the entries of cars not in its list as they were. */
  lemma {:induction false} SimulateKeepsOthers(locs: seq<string>, st: SimState, cars: seq<int>, activeTrips: map<int, int>,
                                               draws: seq<Draw>, now: Timestamp)
    requires |draws| == |cars| && ValidDraws(draws, |locs|)
    ensures var r := SimulateCars(locs, st, cars, activeTrips, draws, now);
      && (forall c :: c !in cars && c in st.last ==> c in r.last && r.last[c] == st.last[c])
      && (forall c :: c !in cars && c in st.profiles ==> c in r.profiles && r.profiles[c] == st.profiles[c])
    decreases |cars|
  {
    if cars != [] {
      var n := |cars| - 1;
      SimulateKeepsOthers(locs, st, cars[..n], activeTrips, draws[..n], now);
      assert forall c :: c !in cars ==> c !in cars[..n] && c != cars[n];
    }
  }

  /**
   * After a pass, a listed car without an ACTIVE trip has no entries, and one
   * with a trip has a record carrying its id and that trip's id.
   */
  lemma {:induction false} SimulateCoversListed(locs: seq<string>, st: SimState, cars: seq<int>, activeTrips: map<int, int>,
                                                draws: seq<Draw>, now: Timestamp)
    requires |draws| == |cars| && ValidDraws(draws, |locs|)
    ensures var r := SimulateCars(locs, st, cars, activeTrips, draws, now);
      && (forall c :: c in cars && c !in activeTrips ==> c !in r.last && c !in r.profiles)
      && (forall c :: c in cars && c in activeTrips ==>
           c in r.last && r.last[c].carId == Some(c) && r.last[c].tripId == Some(activeTrips[c]))
    decreases |cars|
  {
    if cars != [] {
      var n := |cars| - 1;
      var init := cars[..n];
      SimulateCoversListed(locs, st, init, activeTrips, draws[..n], now);
      var mid := SimulateCars(locs, st, init, activeTrips, draws[..n], now);
      var r := SimulateCars(locs, st, cars, activeTrips, draws, now);
      assert r == CarStep(locs, mid, cars[n], TripOf(activeTrips, cars[n]), draws[n], now);
      forall c | c in cars && c != cars[n]
        ensures c in init
      {
        var i :| 0 <= i < |cars| && cars[i] == c;
        assert init[i] == c;
      }
    }
  }

  /** One more car of the pass is one more `CarStep`. */
  lemma SimulateCarsStep(locs: seq<string>, st: SimState, cars: seq<int>, activeTrips: map<int, int>, draws: seq<Draw>,
                         now: Timestamp, i: nat)
    requires |draws| == |cars| && ValidDraws(draws, |locs|) && i < |cars|
    ensures SimulateCars(locs, st, cars[..i + 1], activeTrips, draws[..i + 1], now) ==
      CarStep(locs, SimulateCars(locs, st, cars[..i], activeTrips, draws[..i], now), cars[i],
              TripOf(activeTrips, cars[i]), draws[i], now)
  {
    assert cars[..i + 1][..i] == cars[..i];
    assert draws[..i + 1][..i] == draws[..i];
  }

  /** A whole pass keeps the maps in step and every car reachable. */
  lemma {:induction false} SimulateSynced(locs: seq<string>, st: SimState, cars: seq<int>, activeTrips: map<int, int>,
                                          draws: seq<Draw>, now: Timestamp)
    requires |draws| == |cars| && ValidDraws(draws, |locs|) && Synced(st)
    ensures Synced(SimulateCars(locs, st, cars, activeTrips, draws, now))
    decreases |cars|
  {
    if cars != [] {
      var n := |cars| - 1;
      SimulateSynced(locs, st, cars[..n], activeTrips, draws[..n], now);
      CarStepSynced(locs, SimulateCars(locs, st, cars[..n], activeTrips, draws[..n], now), cars[n],
                    TripOf(activeTrips, cars[n]), draws[n], now);
    }
  }

  // ------------------------------------------------------------ the objects

  /** `ProfileState`: the per-car gauge directions and the pending fuel reset. */
  class ProfileState {
    var speedDir: int
    var tempDir: int
    var fuelResetPending: bool

    function Record(): Profile
      reads this
    {
      Profile(speedDir, tempDir, fuelResetPending)
    }

    constructor ()
      ensures Record() == InitialProfile
    {
      speedDir := 1;
      tempDir := 1;
      fuelResetPending := false;
    }
  }

  /** The speed statements of `smoothAdvance`: only the speed direction of the profile changes. */
  method AdvanceSpeed(ps: ProfileState, speed: int) returns (nextSpeed: int)
    modifies ps
    ensures Gauge(nextSpeed, ps.speedDir) == SpeedStep(speed, old(ps.speedDir))
    ensures ps.Record() == old(ps.Record()).(speedDir := ps.speedDir)
  {
    nextSpeed := speed + (if ps.speedDir > 0 then SpeedStepSize else -SpeedStepSize);
    if ps.speedDir > 0 && nextSpeed >= TargetMaxSpeed {
      ps.speedDir := -1;
      nextSpeed := TargetMaxSpeed;
    }
    if ps.speedDir < 0 && nextSpeed <= TargetMinSpeed {
      ps.speedDir := 1;
      nextSpeed := TargetMinSpeed;
    }
    nextSpeed := Clamp(nextSpeed, 0, 170);
  }

  /** The temperature statements of `smoothAdvance`: only the temperature direction changes. */
  method AdvanceTemp(ps: ProfileState, temp: int) returns (nextTemp: int)
    modifies ps
    ensures Gauge(nextTemp, ps.tempDir) == TempStep(temp, old(ps.tempDir))
    ensures ps.Record() == old(ps.Record()).(tempDir := ps.tempDir)
  {
    nextTemp := temp + (if ps.tempDir > 0 then TempStepSize else -TempStepSize);
    if ps.tempDir > 0 && nextTemp >= TargetMaxTemp {
      ps.tempDir := -1;
      nextTemp := TargetMaxTemp;
    }
    if ps.tempDir < 0 && nextTemp <= TargetMinTemp {
      ps.tempDir := 1;
      nextTemp := TargetMinTemp;
    }
    nextTemp := Clamp(nextTemp, -5, 130);
  }

  /** The fuel statements of `smoothAdvance`: only the pending-reset flag changes. */
  method AdvanceFuel(ps: ProfileState, level: int, fuelDraw: nat) returns (nextFuel: int)
    requires fuelDraw < 2
    modifies ps
    ensures Fuel(nextFuel, ps.fuelResetPending) == FuelStep(level, old(ps.fuelResetPending), fuelDraw)
    ensures ps.Record() == old(ps.Record()).(fuelResetPending := ps.fuelResetPending)
  {
    if ps.fuelResetPending {
      nextFuel := 100;
      ps.fuelResetPending := false;
    } else {
      nextFuel := Clamp(level - RandBetween(1, 2, fuelDraw), 0, 100);
      if nextFuel == 0 {
        ps.fuelResetPending := true;
      }
    }
  }

  /** The statements of `smoothAdvance` after the profile lookup, on the profile object itself. */
  method AdvanceProfile(locs: seq<string>, ps: ProfileState, ghost p: Profile, prev: Telemetry, fuelDraw: nat,
                        now: Timestamp) returns (t: Telemetry)
    requires |locs| > 0 && fuelDraw < 2 && ps.Record() == p
    modifies ps
    ensures Advanced(t, ps.Record()) == Advance(locs, prev, p, fuelDraw, now)
  {
    var nextSpeed := AdvanceSpeed(ps, prev.speed);
    var nextTemp := AdvanceTemp(ps, prev.temperature);
    var nextFuel := AdvanceFuel(ps, prev.fuelLevel, fuelDraw);
    var location := NextLocation(locs, prev.location);
    t := Telemetry(None, None, nextSpeed, nextFuel, nextTemp, location, now);
  }

  class TelemetrySimulator {
    const locations: seq<string>
    var simulatorEnabled: bool
    /** The `AtomicBoolean`; every use of it here is sequential. */
    var isRunning: bool
    var lastByCarId: map<int, Telemetry>
    var profileByCarId: map<int, ProfileState>

    /** The fields of each car's profile object. */
    ghost var profiles: map<int, Profile>
    /** The profile objects the simulator has created. */
    ghost var Repr: set<ProfileState>

    /**
     * Every profile object is one the simulator created, no two cars share one,
     * and `profiles` holds their current fields.
     */
    ghost predicate Valid()
      reads this, Repr
    {
      && |locations| > 0
      && profileByCarId.Keys == profiles.Keys
      && (forall c :: c in profileByCarId ==> profileByCarId[c] in Repr)
      && (forall a, b :: a in profileByCarId && b in profileByCarId && a != b ==> profileByCarId[a] != profileByCarId[b])
      && (forall c :: c in profileByCarId ==> profileByCarId[c].Record() == profiles[c])
    }

    ghost function State(): SimState
      reads this
    {
      SimState(lastByCarId, profiles)
    }

    /** A simulator with empty maps, not yet running. */
    constructor (simulatorEnabled: bool)
      ensures Valid() && Synced(State())
      ensures locations == PuneLocations && this.simulatorEnabled == simulatorEnabled && !isRunning
      ensures lastByCarId == map[] && profileByCarId == map[]
    {
      locations := PuneLocations;
      this.simulatorEnabled := simulatorEnabled;
      isRunning := false;
      lastByCarId := map[];
      profileByCarId := map[];
      profiles := map[];
      Repr := {};
    }

    /** `init`: starts the simulation when it is enabled. */
    method Init() returns (broadcast: bool)
      modifies this`isRunning
      ensures isRunning == (old(isRunning) || simulatorEnabled)
      ensures broadcast <==> simulatorEnabled && !old(isRunning)
    {
      broadcast := false;
      if simulatorEnabled {
        broadcast := StartSimulation();
      }
    }

    /** `startSimulation`: sets the flag; the status is broadcast only when it was clear. */
    method StartSimulation() returns (broadcast: bool)
      modifies this`isRunning
      ensures isRunning && (broadcast <==> !old(isRunning))
    {
      broadcast := !isRunning;
      isRunning := true;
    }

    /** `stopSimulation`: clears the flag; the status is broadcast only when it was set. */
    method StopSimulation() returns (broadcast: bool)
      modifies this`isRunning
      ensures !isRunning && (broadcast <==> old(isRunning))
    {
      broadcast := isRunning;
      isRunning := false;
    }

    /** `isRunning()`. */
    method IsRunning() returns (running: bool)
      ensures running == isRunning
    {
      running := isRunning;
    }

    /** `setSimulatorEnabled`: records the setting and starts or stops accordingly. */
    method SetSimulatorEnabled(enabled: bool) returns (broadcast: bool)
      modifies this`simulatorEnabled, this`isRunning
      ensures simulatorEnabled == enabled && isRunning == enabled
      ensures broadcast <==> old(isRunning) != enabled
    {
      simulatorEnabled := enabled;
      if enabled {
        broadcast := StartSimulation();
      } else {
        broadcast := StopSimulation();
      }
    }

    /** The car's profile object, created with the initial directions when it has none (`computeIfAbsent`). */
    method ProfileFor(carId: int) returns (ps: ProfileState)
      requires Valid()
      modifies this`profileByCarId, this`profiles, this`Repr
      ensures Valid() && fresh(Repr - old(Repr)) && Repr >= old(Repr)
      ensures carId in profileByCarId && profileByCarId[carId] == ps && ps in Repr
      ensures profiles == old(profiles)[carId := ProfileOf(old(profiles), carId)]
      ensures ps.Record() == ProfileOf(old(profiles), carId)
    {
      if carId in profileByCarId {
        ps := profileByCarId[carId];
      } else {
        ps := new ProfileState();
        profileByCarId := profileByCarId[carId := ps];
        profiles := profiles[carId := ps.Record()];
        Repr := Repr + {ps};
      }
    }

    /**
     * `smoothAdvance`: the car's profile is advanced in place, every other
     * profile is left alone, and the new record is returned.
     */
    method SmoothAdvance(prev: Telemetry, carId: int, fuelDraw: nat, now: Timestamp) returns (t: Telemetry)
      requires Valid() && fuelDraw < 2
      modifies this`profileByCarId, this`profiles, this`Repr, Repr
      ensures Valid() && fresh(Repr - old(Repr))
      ensures var a := Advance(locations, prev, ProfileOf(old(profiles), carId), fuelDraw, now);
        t == a.next && profiles == old(profiles)[carId := a.profile]
    {
      ghost var before := profiles;
      var ps := ProfileFor(carId);
      ghost var a := Advance(locations, prev, ProfileOf(before, carId), fuelDraw, now);
      t := AdvanceProfile(locations, ps, ProfileOf(before, carId), prev, fuelDraw, now);
      assert a.profile == ps.Record() && a.next == t;
      profiles := profiles[carId := ps.Record()];
      assert profiles == before[carId := a.profile];
      forall c | c in profileByCarId && c != carId
        ensures profileByCarId[c].Record() == profiles[c]
      {
        assert profileByCarId[c] != ps;
      }
    }

    /** Drops the car's last record and its profile. */
    method Forget(carId: int)
      requires Valid()
      modifies this`lastByCarId, this`profileByCarId, this`profiles
      ensures Valid()
      ensures lastByCarId == old(lastByCarId) - {carId} && profiles == old(profiles) - {carId}
    {
      lastByCarId := lastByCarId - {carId};
      profileByCarId := profileByCarId - {carId};
      profiles := profiles - {carId};
    }

    /** One iteration of `simulateTelemetry`'s loop. */
    method SimulateCar(carId: int, activeTrip: Option<int>, d: Draw, now: Timestamp)
      requires Valid() && ValidDraw(d, |locations|)
      modifies this`lastByCarId, this`profileByCarId, this`profiles, this`Repr, Repr
      ensures Valid() && fresh(Repr - old(Repr))
      ensures State() == CarStep(locations, old(State()), carId, activeTrip, d, now)
    {
      if activeTrip.None? {
        Forget(carId);
        return;
      }
      var last: Option<Telemetry> := if carId in lastByCarId then Some(lastByCarId[carId]) else None;
      if last.Some? && last.value.tripId != activeTrip {
        Forget(carId);
        last := None;
      }
      var base := if last.Some? then last.value else InitialFromCar(locations, d.location, now);
      var next := SmoothAdvance(base, carId, d.fuel, now);
      next := next.(carId := Some(carId), tripId := activeTrip);
      lastByCarId := lastByCarId[carId := next];
    }

    /**
     * `simulateTelemetry`: nothing happens unless the simulator is enabled and
     * running; otherwise the ACTIVE cars, in order, are advanced as `CarStep`
     * says. The whole pass sits in one try/catch: `thrown == Some(n)` says an
     * exception ended it once the first `n` cars were stored (`getCarsByStatus`
     * throwing is `n == 0`; `getActiveTripForCar` throwing on car `n`, or
     * `publishTelemetry` throwing on car `n - 1` after its `put`, leaves `n`).
     */
    method SimulateTelemetry(activeCars: seq<int>, activeTrips: map<int, int>, draws: seq<Draw>, now: Timestamp,
                             thrown: Option<nat>)
      requires Valid() && |draws| == |activeCars| && ValidDraws(draws, |locations|)
      modifies this`lastByCarId, this`profileByCarId, this`profiles, this`Repr, Repr
      ensures Valid() && fresh(Repr - old(Repr))
      ensures !simulatorEnabled || !isRunning ==> State() == old(State())
      ensures simulatorEnabled && isRunning && thrown.None? ==>
        State() == SimulateCars(locations, old(State()), activeCars, activeTrips, draws, now)
      ensures simulatorEnabled && isRunning && thrown.Some? ==>
        var n := StoredBeforeThrow(thrown.value, |activeCars|);
        State() == SimulateCars(locations, old(State()), activeCars[..n], activeTrips, draws[..n], now)
    {
      if !simulatorEnabled || !isRunning {
        return;
      }
      var stop := if thrown.Some? then StoredBeforeThrow(thrown.value, |activeCars|) else |activeCars|;
      if |activeCars| == 0 {
        return;
      }
      ghost var st0 := State();
      var i := 0;
      while i < stop
        invariant 0 <= i <= stop
        invariant Valid()
        invariant fresh(Repr - old(Repr))
        invariant State() == SimulateCars(locations, st0, activeCars[..i], activeTrips, draws[..i], now)
      {
        var carId := activeCars[i];
        SimulateCar(carId, TripOf(activeTrips, carId), draws[i], now);
        SimulateCarsStep(locations, st0, activeCars, activeTrips, draws, now, i);
        i := i + 1;
      }
      if thrown.None? {
        assert activeCars[..i] == activeCars;
        assert draws[..i] == draws;
      }
    }
  }
}
