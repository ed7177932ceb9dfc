/**
 * The parts of the Car and Driver entities that the trip lifecycle reads and
 * writes. Car.java and Driver.java are not part of this model; only the fields
 * TripService touches are kept. Ids are assigned by the database and never
 * change afterwards, so they are constants here.
 */
module Fleet {
  import opened Wrappers

  /** The mutable part of a car: its status text and its current driver. */
  datatype CarRecord = CarRecord(status: string, driver: Driver?)

  class Driver {
    const id: int
    /** `assignedCarId`: the car the driver is currently on, `null` when none. */
    var assignedCarId: Option<int>

    constructor (id: int, assignedCarId: Option<int>)
      ensures this.id == id && this.assignedCarId == assignedCarId
    {
      this.id := id;
      this.assignedCarId := assignedCarId;
    }
  }

  class Car {
    const id: int
    /** "ACTIVE", "IDLE", "UNDER MAINTAINANCE", ... (a free-form string in the entity). */
    var status: string
    var driver: Driver?

    function Snapshot(): CarRecord
      reads this
    {
      CarRecord(status, driver)
    }

    constructor (id: int, status: string, driver: Driver?)
      ensures this.id == id && this.status == status && this.driver == driver
    {
      this.id := id;
      this.status := status;
      this.driver := driver;
    }
  }
}
