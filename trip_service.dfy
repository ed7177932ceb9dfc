/**
 * `TripService`: the trip lifecycle REQUESTED -> ACTIVE (through APPROVED) ->
 * COMPLETED, or REQUESTED -> REJECTED, with its effects on the trip's car and
 * driver, fines for critical alerts, and the list queries.
 *
 * The trip repository is the sequence `trips`, trip `k` carrying the database
 * id `k + 1` (the ids are IDENTITY values, handed out in insertion order); the
 * car and driver repositories are maps from id to entity. Exceptions are
 * `Failure` results. One timestamp `now` stands for every clock read in a call,
 * and the `@PreUpdate` stamp that JPA applies when it flushes an updated trip is
 * applied at the end of the call.
 */
module TripService {
  import opened Wrappers
  import opened Fleet
  import opened TripModel
  import opened TripCosts
  import Seqs

  /** `DriverNotFoundException`, and the two `RuntimeException`s "Trip not found" and "Car not found". */
  datatype Error = DriverNotFound | TripNotFound | CarNotFound | ConstraintViolation

  /** `TripRequestDto`: the car is optional. */
  datatype TripRequest = TripRequest(driverId: int, carId: Option<int>, startPoint: string, endPoint: string)

  /** The record belongs to a trip of the driver with this id. */
  predicate OfDriver(rec: TripRecord, driverId: int) {
    rec.driver != null && rec.driver.id == driverId
  }

  /** The record belongs to a trip on the car with this id. */
  predicate OnCar(rec: TripRecord, carId: int) {
    rec.car != null && rec.car.id == carId
  }

  /** The total cost is the base cost plus the fines, a missing amount reading as zero. */
  predicate CostsAgree(rec: TripRecord) {
    rec.totalCost == Some(rec.baseCost.GetOr(0) + rec.additionalFine.GetOr(0))
  }

  /**
   * One iteration of `addFineForCritical`'s loop: an ACTIVE trip on the car has
   * `fine` added to its fines and its total recomputed; any other trip is left alone.
   */
  function Fined(rec: TripRecord, carId: int, fine: int, now: Timestamp): (r: TripRecord)
    ensures OnCar(rec, carId) && rec.status == ACTIVE ==>
      r.additionalFine == Some(rec.additionalFine.GetOr(0) + fine) && CostsAgree(r) &&
      r == rec.(additionalFine := r.additionalFine, totalCost := r.totalCost, lastUpdateOn := Some(now))
    ensures !(OnCar(rec, carId) && rec.status == ACTIVE) ==> r == rec
  {
    if OnCar(rec, carId) && rec.status == ACTIVE then
      var f := rec.additionalFine.GetOr(0) + fine;
      rec.(additionalFine := Some(f), totalCost := Some(rec.baseCost.GetOr(0) + f), lastUpdateOn := Some(now))
    else rec
  }

  /** Two fines on the same car add up: fining by `a` and then `b` is fining once by `a + b`. */
  lemma FinesAccumulate(rec: TripRecord, carId: int, a: int, b: int, t1: Timestamp, t2: Timestamp)
    ensures Fined(Fined(rec, carId, a, t1), carId, b, t2) == Fined(rec, carId, a + b, t2)
  {
  }

  /** A fine of zero changes no amount. */
  lemma ZeroFine(rec: TripRecord, carId: int, now: Timestamp)
    requires CostsAgree(rec) && rec.additionalFine.Some?
    ensures Fined(rec, carId, 0, now).(lastUpdateOn := rec.lastUpdateOn) == rec
  {
  }

  class TripService {
    var trips: seq<Trip>
    const cars: map<int, Car>
    const drivers: map<int, Driver>
    const tripCosts: TripCostRepository

    /**
     * Trip `k` has id `k + 1`; every trip has a driver (the column is NOT NULL)
     * from the driver repository, its car, if any, is from the car repository,
     * and its start and end points are not blank (`@NotBlank`, checked when the
     * entity is saved); the repositories are keyed by the entities' ids.
     */
    ghost predicate Valid()
      reads this, trips
    {
      && (forall k :: 0 <= k < |trips| ==> trips[k].id == Some(k + 1))
      && (forall k :: 0 <= k < |trips| ==> trips[k].driver != null && trips[k].driver in drivers.Values)
      && (forall k :: 0 <= k < |trips| ==> trips[k].car == null || trips[k].car in cars.Values)
      && (forall k :: 0 <= k < |trips| ==> NotBlank(trips[k].startPoint) && NotBlank(trips[k].endPoint))
      && (forall id :: id in cars ==> cars[id].id == id)
      && (forall id :: id in drivers ==> drivers[id].id == id)
    }

    /** Every stored trip's total is its base cost plus its fines. */
    ghost predicate AllCostsAgree()
      reads this, trips
    {
      forall k :: 0 <= k < |trips| ==>
        trips[k].totalCost == Some(trips[k].baseCost.GetOr(0) + trips[k].additionalFine.GetOr(0))
    }

    constructor (cars: map<int, Car>, drivers: map<int, Driver>, tripCosts: TripCostRepository)
      requires forall id :: id in cars ==> cars[id].id == id
      requires forall id :: id in drivers ==> drivers[id].id == id
      ensures Valid() && AllCostsAgree()
      ensures this.trips == [] && this.cars == cars && this.drivers == drivers && this.tripCosts == tripCosts
    {
      this.trips := [];
      this.cars := cars;
      this.drivers := drivers;
      this.tripCosts := tripCosts;
    }

    /** The current fields of every stored trip, in id order (what the DTOs copy). */
    function Records(): (rs: seq<TripRecord>)
      reads this, trips
      ensures |rs| == |trips|
      ensures forall k :: 0 <= k < |trips| ==> rs[k] == trips[k].Snapshot()
    {
      seq(|trips|, k reads this, trips requires 0 <= k < |trips| => trips[k].Snapshot())
    }

    // ---------------------------------------------------------------- queries

    /** `getTripById`: the trip with this id, or "Trip not found". */
    function GetTripById(tripId: int): (r: Result<TripRecord, Error>)
      reads this, trips
      requires Valid()
      ensures r.Success? <==> exists k :: 0 <= k < |trips| && trips[k].id == Some(tripId)
      ensures r.Success? ==> r.value.id == Some(tripId) && r.value in Records()
      ensures r.Failure? ==> r.error == TripNotFound
    {
      if 1 <= tripId <= |trips| then
        assert Records()[tripId - 1] == trips[tripId - 1].Snapshot();
        Success(trips[tripId - 1].Snapshot())
      else Failure(TripNotFound)
    }

    /** `listDriverTrips`: the driver's trips whose `isActive` flag is set, in order. */
    function ListDriverTrips(driverId: int): (r: seq<TripRecord>)
      reads this, trips
      ensures forall i :: 0 <= i < |r| ==> r[i] in Records() && OfDriver(r[i], driverId) && r[i].isActive
      ensures forall k :: 0 <= k < |trips| && OfDriver(trips[k].Snapshot(), driverId) && trips[k].isActive ==>
        trips[k].Snapshot() in r
    {
      Seqs.Filter((rec: TripRecord) => OfDriver(rec, driverId) && rec.isActive, Records())
    }

    /**
     * `findByStatus`, behind `listPendingTrips` (REQUESTED), `listActiveTrips`
     * (ACTIVE) and `listCompletedTrips` (COMPLETED).
     */
    function ListByStatus(status: TripStatus): (r: seq<TripRecord>)
      reads this, trips
      ensures forall i :: 0 <= i < |r| ==> r[i] in Records() && r[i].status == status
      ensures forall k :: 0 <= k < |trips| && trips[k].status == status ==> trips[k].Snapshot() in r
    {
      Seqs.Filter((rec: TripRecord) => rec.status == status, Records())
    }

    /** `getActiveTripForDriver`: the first ACTIVE trip of the driver (lowest id), if any. */
    function ActiveTripForDriver(driverId: int): (r: Option<Trip>)
      reads this, trips
      ensures r.None? <==> forall k :: 0 <= k < |trips| ==> !(OfDriver(trips[k].Snapshot(), driverId) && trips[k].status == ACTIVE)
      ensures r.Some? ==>
        exists k :: 0 <= k < |trips| && trips[k] == r.value &&
          OfDriver(trips[k].Snapshot(), driverId) && trips[k].status == ACTIVE &&
          (forall j :: 0 <= j < k ==> !(OfDriver(trips[j].Snapshot(), driverId) && trips[j].status == ACTIVE))
    {
      var k := Seqs.FirstIndex((rec: TripRecord) => OfDriver(rec, driverId) && rec.status == ACTIVE, Records());
      if k < |trips| then Some(trips[k]) else None
    }

    /** `getActiveTripForCar`: the first ACTIVE trip on the car (lowest id), if any. */
    function ActiveTripForCar(carId: int): (r: Option<Trip>)
      reads this, trips
      ensures r.None? <==> forall k :: 0 <= k < |trips| ==> !(OnCar(trips[k].Snapshot(), carId) && trips[k].status == ACTIVE)
      ensures r.Some? ==>
        exists k :: 0 <= k < |trips| && trips[k] == r.value &&
          OnCar(trips[k].Snapshot(), carId) && trips[k].status == ACTIVE &&
          (forall j :: 0 <= j < k ==> !(OnCar(trips[j].Snapshot(), carId) && trips[j].status == ACTIVE))
    {
      var k := Seqs.FirstIndex((rec: TripRecord) => OnCar(rec, carId) && rec.status == ACTIVE, Records());
      if k < |trips| then Some(trips[k]) else None
    }

    // ---------------------------------------------------------------- commands

    /**
     * `requestTrip`: an unknown driver is refused before anything is saved; a
     * blank start or end point makes the save fail its `@NotBlank` check, and
     * nothing is stored; otherwise a new REQUESTED trip is stored with the next id, priced from the
     * active fare of its route when there is one, and on the requested car when
     * that car exists (an unknown car id is ignored).
     */
    method RequestTrip(req: TripRequest, now: Timestamp) returns (r: Result<Trip, Error>)
      requires Valid()
      modifies this
      ensures Valid()
      ensures old(AllCostsAgree()) ==> AllCostsAgree()
      ensures req.driverId !in drivers ==> r == Failure(DriverNotFound) && trips == old(trips)
      ensures req.driverId in drivers && !(NotBlank(Some(req.startPoint)) && NotBlank(Some(req.endPoint))) ==>
        r == Failure(ConstraintViolation) && trips == old(trips)
      ensures req.driverId in drivers && NotBlank(Some(req.startPoint)) && NotBlank(Some(req.endPoint)) ==>
        r.Success? && fresh(r.value) && trips == old(trips) + [r.value]
      ensures r.Success? ==>
        var fare := ActiveFare(tripCosts.rows, Route(req.startPoint, req.endPoint));
        var cost := if fare.Some? then Some(fare.value.baseCost) else Some(0);
        var car := if req.carId.Some? && req.carId.value in cars then cars[req.carId.value] else null;
        && r.value.Snapshot() == NewTripRecord(now).(id := Some(|trips|), driver := drivers[req.driverId],
             startPoint := Some(req.startPoint), endPoint := Some(req.endPoint), car := car,
             baseCost := cost, totalCost := cost)
        && CostsAgree(r.value.Snapshot())
    {
      if req.driverId !in drivers {
        return Failure(DriverNotFound);
      }
      var fare := tripCosts.FindActive(Route(req.startPoint, req.endPoint));
      if !(NotBlank(Some(req.startPoint)) && NotBlank(Some(req.endPoint))) {
        return Failure(ConstraintViolation);
      }
      var car: Car? := null;
      if req.carId.Some? && req.carId.value in cars {
        car := cars[req.carId.value];
      }
      var trip := NewRequestedTrip(drivers[req.driverId], req, fare, car, |trips| + 1, now);
      assert CostsAgree(trip.Snapshot());
      trips := trips + [trip];
      KeepsInvariantsOnAppend(trip);
      return Success(trip);
    }

    /** The entity `requestTrip` builds before saving it, given what the repositories returned. */
    static method NewRequestedTrip(driver: Driver, req: TripRequest, fare: Option<Fare>, car: Car?, id: int, now: Timestamp)
      returns (trip: Trip)
      ensures fresh(trip)
      ensures
        var cost := if fare.Some? then Some(fare.value.baseCost) else Some(0);
        trip.Snapshot() == NewTripRecord(now).(id := Some(id), driver := driver,
          startPoint := Some(req.startPoint), endPoint := Some(req.endPoint), car := car,
          baseCost := cost, totalCost := cost)
    {
      trip := new Trip(now);
      trip.SetDriver(driver);
      trip.SetStartPoint(Some(req.startPoint));
      trip.SetEndPoint(Some(req.endPoint));
      trip.SetStatus(REQUESTED);
      trip.SetRequestedAt(Some(now));
      if fare.Some? {
        trip.SetBaseCost(Some(fare.value.baseCost));
        trip.SetTotalCost(Some(fare.value.baseCost));
      }
      if car != null {
        trip.SetCar(car);
      }
      trip.SetId(Some(id));
    }

    /**
     * `approveAndStart`: an unknown trip, or an unknown car id when one is given,
     * is refused before any field changes. Otherwise, whatever the trip's status
     * was, it becomes ACTIVE with approval and start times, on the given car (or
     * its own); when it has a car, its driver is assigned to the car and the car
     * becomes "ACTIVE" with that driver. Nothing else changes.
     */
    method ApproveAndStart(tripId: int, carId: Option<int>, now: Timestamp) returns (r: Result<Trip, Error>)
      requires Valid()
      modifies trips, cars.Values, drivers.Values
      ensures Valid()
      ensures old(AllCostsAgree()) ==> AllCostsAgree()
      ensures r.Success? <==> 1 <= tripId <= |trips| && (carId.None? || carId.value in cars)
      ensures !(1 <= tripId <= |trips|) ==> r == Failure(TripNotFound)
      ensures 1 <= tripId <= |trips| && carId.Some? && carId.value !in cars ==> r == Failure(CarNotFound)
      ensures r.Failure? ==> unchanged(trips) && unchanged(cars.Values) && unchanged(drivers.Values)
      ensures r.Success? ==>
        var t := trips[tripId - 1];
        var car := if carId.Some? then cars[carId.value] else old(t.car);
        && r.value == t
        && t.Snapshot() == old(t.Snapshot()).(car := car, status := ACTIVE, approvedAt := Some(now),
             startedAt := Some(now), lastUpdateOn := Some(now))
        && (car != null ==> t.driver.assignedCarId == Some(car.id) && car.status == "ACTIVE" && car.driver == t.driver)
        && (forall k :: 0 <= k < |trips| && k != tripId - 1 ==> unchanged(trips[k]))
        && (forall d :: d in drivers.Values && (car == null || d != t.driver) ==> unchanged(d))
        && (forall c :: c in cars.Values && c != car ==> unchanged(c))
    {
      if !(1 <= tripId <= |trips|) {
        return Failure(TripNotFound);
      }
      var trip := trips[tripId - 1];
      var car := trip.car;
      if carId.Some? {
        if carId.value !in cars {
          return Failure(CarNotFound);
        }
        car := cars[carId.value];
      }
      ApproveThenStart(trip, car, now);
      if car != null {
        AssignToCar(trip.driver, car);
      }
      KeepsInvariants(tripId - 1);
      return Success(trip);
    }

    /**
     * The updates `approveAndStart` makes to the trip itself: its car, APPROVED
     * with an approval time, then ACTIVE with a start time, then the update stamp.
     */
    static method ApproveThenStart(trip: Trip, car: Car?, now: Timestamp)
      modifies trip
      ensures trip.Snapshot() == old(trip.Snapshot()).(car := car, status := ACTIVE, approvedAt := Some(now),
        startedAt := Some(now), lastUpdateOn := Some(now))
    {
      trip.SetCar(car);
      trip.SetStatus(APPROVED);
      trip.SetApprovedAt(Some(now));
      trip.SetStatus(ACTIVE);
      trip.SetStartedAt(Some(now));
      trip.PreUpdate(now);
    }

    /** The driver is put on the car, and the car becomes "ACTIVE" with that driver. */
    static method AssignToCar(driver: Driver?, car: Car)
      modifies driver, car
      ensures driver != null ==> driver.assignedCarId == Some(car.id) && car.driver == driver
      ensures driver == null ==> car.driver == old(car.driver)
      ensures car.status == "ACTIVE"
    {
      if driver != null {
        driver.assignedCarId := Some(car.id);
      }
      car.status := "ACTIVE";
      if driver != null {
        car.driver := driver;
      }
    }

    /**
     * When an operation has changed the fields of trip `k` other than its id,
     * driver, points and amounts, moved it at most to a car of the repository, and left
     * the other trips alone, the invariants still hold.
     */
    twostate lemma KeepsInvariants(k: nat)
      requires old(Valid()) && trips == old(trips) && k < |trips|
      requires forall j :: 0 <= j < |trips| && j != k ==> unchanged(trips[j])
      requires trips[k].id == old(trips[k].id) && trips[k].driver == old(trips[k].driver)
      requires trips[k].startPoint == old(trips[k].startPoint) && trips[k].endPoint == old(trips[k].endPoint)
      requires trips[k].car == null || trips[k].car in cars.Values
      requires trips[k].baseCost == old(trips[k].baseCost) && trips[k].additionalFine == old(trips[k].additionalFine)
      requires trips[k].totalCost == old(trips[k].totalCost)
      ensures Valid()
      ensures old(AllCostsAgree()) ==> AllCostsAgree()
    {
    }

    /** Appending a fresh trip with the next id, a repository driver and car, non-blank points and agreeing amounts keeps the invariants. */
    twostate lemma KeepsInvariantsOnAppend(new t: Trip)
      requires old(Valid()) && trips == old(trips) + [t]
      requires forall j :: 0 <= j < |old(trips)| ==> unchanged(trips[j])
      requires t.id == Some(|trips|) && t.driver != null && t.driver in drivers.Values
      requires t.car == null || t.car in cars.Values
      requires NotBlank(t.startPoint) && NotBlank(t.endPoint)
      ensures Valid()
      ensures old(AllCostsAgree()) && CostsAgree(t.Snapshot()) ==> AllCostsAgree()
    {
    }

    /**
     * Fining keeps the ids, drivers and cars of all trips, and leaves each trip's
     * amounts either as they were or agreeing.
     */
    twostate lemma KeepsInvariantsOnFine()
      requires old(Valid()) && trips == old(trips)
      requires forall k :: 0 <= k < |trips| ==>
        trips[k].id == old(trips[k].id) && trips[k].driver == old(trips[k].driver) && trips[k].car == old(trips[k].car) &&
        trips[k].startPoint == old(trips[k].startPoint) && trips[k].endPoint == old(trips[k].endPoint)
      requires forall k :: 0 <= k < |trips| ==>
        (trips[k].baseCost == old(trips[k].baseCost) && trips[k].additionalFine == old(trips[k].additionalFine) &&
         trips[k].totalCost == old(trips[k].totalCost)) ||
        trips[k].totalCost == Some(trips[k].baseCost.GetOr(0) + trips[k].additionalFine.GetOr(0))
      ensures Valid()
      ensures old(AllCostsAgree()) ==> AllCostsAgree()
    {
    }

    /**
     * `reject`: an unknown trip is refused; otherwise, whatever its status was,
     * the trip becomes REJECTED with an end time. No car or driver changes.
     */
    method Reject(tripId: int, now: Timestamp) returns (r: Result<Trip, Error>)
      requires Valid()
      modifies trips
      ensures Valid()
      ensures old(AllCostsAgree()) ==> AllCostsAgree()
      ensures r.Success? <==> 1 <= tripId <= |trips|
      ensures r.Failure? ==> r.error == TripNotFound && unchanged(trips)
      ensures r.Success? ==>
        var t := trips[tripId - 1];
        && r.value == t
        && t.Snapshot() == old(t.Snapshot()).(status := REJECTED, endedAt := Some(now), lastUpdateOn := Some(now))
        && (forall k :: 0 <= k < |trips| && k != tripId - 1 ==> unchanged(trips[k]))
      ensures unchanged(cars.Values) && unchanged(drivers.Values)
    {
      if !(1 <= tripId <= |trips|) {
        return Failure(TripNotFound);
      }
      var trip := trips[tripId - 1];
      trip.SetStatus(REJECTED);
      trip.SetEndedAt(Some(now));
      trip.PreUpdate(now);
      KeepsInvariants(tripId - 1);
      return Success(trip);
    }

    /**
     * `stop`: an unknown trip is refused; otherwise, whatever its status was,
     * the trip becomes COMPLETED with an end time, its driver is unassigned, and
     * its car, if any, becomes "IDLE" with no driver. Nothing else changes.
     */
    method Stop(tripId: int, now: Timestamp) returns (r: Result<Trip, Error>)
      requires Valid()
      modifies trips, cars.Values, drivers.Values
      ensures Valid()
      ensures old(AllCostsAgree()) ==> AllCostsAgree()
      ensures r.Success? <==> 1 <= tripId <= |trips|
      ensures r.Failure? ==> r.error == TripNotFound && unchanged(trips) && unchanged(cars.Values) && unchanged(drivers.Values)
      ensures r.Success? ==>
        var t := trips[tripId - 1];
        && r.value == t
        && t.Snapshot() == old(t.Snapshot()).(status := COMPLETED, endedAt := Some(now), lastUpdateOn := Some(now))
        && t.driver.assignedCarId.None?
        && (t.car != null ==> t.car.status == "IDLE" && t.car.driver == null)
        && (forall k :: 0 <= k < |trips| && k != tripId - 1 ==> unchanged(trips[k]))
        && (forall d :: d in drivers.Values && d != t.driver ==> unchanged(d))
        && (forall c :: c in cars.Values && c != t.car ==> unchanged(c))
    {
      if !(1 <= tripId <= |trips|) {
        return Failure(TripNotFound);
      }
      var trip := trips[tripId - 1];
      Complete(trip, now);
      Release(trip.driver, trip.car);
      KeepsInvariants(tripId - 1);
      return Success(trip);
    }

    /** The updates `stop` makes to the trip itself. */
    static method Complete(trip: Trip, now: Timestamp)
      modifies trip
      ensures trip.Snapshot() == old(trip.Snapshot()).(status := COMPLETED, endedAt := Some(now), lastUpdateOn := Some(now))
    {
      trip.SetStatus(COMPLETED);
      trip.SetEndedAt(Some(now));
      trip.PreUpdate(now);
    }

    /** The driver is taken off any car, and the car becomes "IDLE" with no driver. */
    static method Release(driver: Driver?, car: Car?)
      modifies driver, car
      ensures driver != null ==> driver.assignedCarId.None?
      ensures car != null ==> car.status == "IDLE" && car.driver == null
    {
      if driver != null {
        driver.assignedCarId := None;
      }
      if car != null {
        car.status := "IDLE";
        car.driver := null;
      }
    }

    /**
     * `addFineForCritical`: every ACTIVE trip on the car gets `fine` more in
     * fines and a total of base cost plus fines; every other trip is unchanged.
     */
    method AddFineForCritical(carId: int, fine: int, now: Timestamp)
      requires Valid()
      modifies trips
      ensures Valid()
      ensures old(AllCostsAgree()) ==> AllCostsAgree()
      ensures forall k :: 0 <= k < |trips| ==> trips[k].Snapshot() == Fined(old(trips[k].Snapshot()), carId, fine, now)
    {
      forall i, j | 0 <= i < j < |trips| ensures trips[i] != trips[j] {
        assert trips[i].id != trips[j].id;
      }
      FineAll(trips, carId, fine, now);
      KeepsInvariantsOnFine();
    }

    /** The loop of `addFineForCritical` over the (distinct) stored trips. */
    static method FineAll(ts: seq<Trip>, carId: int, fine: int, now: Timestamp)
      requires forall i, j :: 0 <= i < j < |ts| ==> ts[i] != ts[j]
      modifies set t | t in ts
      ensures forall k :: 0 <= k < |ts| ==> ts[k].Snapshot() == Fined(old(ts[k].Snapshot()), carId, fine, now)
    {
      var k := 0;
      while k < |ts|
        invariant 0 <= k <= |ts|
        invariant forall j :: 0 <= j < k ==> ts[j].Snapshot() == Fined(old(ts[j].Snapshot()), carId, fine, now)
        invariant forall j :: k <= j < |ts| ==> ts[j].Snapshot() == old(ts[j].Snapshot())
      {
        var t := ts[k];
        if t.car != null && t.car.id == carId && t.status == ACTIVE {
          AddFine(t, fine, now);
        }
        k := k + 1;
      }
    }

    /** The loop body of `addFineForCritical` for one trip. */
    static method AddFine(t: Trip, fine: int, now: Timestamp)
      modifies t
      ensures
        var f := old(t.additionalFine).GetOr(0) + fine;
        t.Snapshot() == old(t.Snapshot()).(additionalFine := Some(f), totalCost := Some(old(t.baseCost).GetOr(0) + f),
          lastUpdateOn := Some(now))
    {
      var f := t.additionalFine.GetOr(0) + fine;
      t.SetAdditionalFine(Some(f));
      t.SetTotalCost(Some(t.baseCost.GetOr(0) + f));
      t.PreUpdate(now);
    }
  }
}
