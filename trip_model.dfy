/**
 * The Trip entity: a mutable record whose constructor fills in defaults and
 * whose setters overwrite one field each. Java `null` is `None` (or a null
 * reference for the driver and car); `BigDecimal` costs are whole rupees;
 * `LocalDateTime` values are opaque timestamps passed in by the caller.
 */
module TripModel {
  import opened Wrappers
  import opened Fleet

  type Timestamp = int

  /** `Trip.TripStatus`: exactly these five values. */
  datatype TripStatus = REQUESTED | APPROVED | REJECTED | ACTIVE | COMPLETED

  /** `TripStatus.name()`, the text a trip's status is sent as. */
  function StatusName(s: TripStatus): string {
    match s
    case REQUESTED => "REQUESTED"
    case APPROVED => "APPROVED"
    case REJECTED => "REJECTED"
    case ACTIVE => "ACTIVE"
    case COMPLETED => "COMPLETED"
  }

  /** `TripStatus.valueOf(name)`: `None` where Java throws IllegalArgumentException. */
  function ParseStatus(name: string): (r: Option<TripStatus>)
    ensures r.Some? ==> StatusName(r.value) == name
  {
    if name == "REQUESTED" then Some(REQUESTED)
    else if name == "APPROVED" then Some(APPROVED)
    else if name == "REJECTED" then Some(REJECTED)
    else if name == "ACTIVE" then Some(ACTIVE)
    else if name == "COMPLETED" then Some(COMPLETED)
    else None
  }

  /** Every status is recovered from its name, so the five names are distinct. */
  lemma StatusNameRoundTrip(s: TripStatus)
    ensures ParseStatus(StatusName(s)) == Some(s)
  {
  }

  /** The values of all fields of a trip at one moment. */
  datatype TripRecord = TripRecord(
    id: Option<int>,
    driver: Driver?,
    car: Car?,
    startPoint: Option<string>,
    endPoint: Option<string>,
    status: TripStatus,
    requestedAt: Option<Timestamp>,
    approvedAt: Option<Timestamp>,
    startedAt: Option<Timestamp>,
    endedAt: Option<Timestamp>,
    baseCost: Option<int>,
    additionalFine: Option<int>,
    totalCost: Option<int>,
    creationDate: Option<Timestamp>,
    lastUpdateOn: Option<Timestamp>,
    isActive: bool)

  /**
   * `@NotBlank` on `startPoint` and `endPoint`: the value is present and
   * `String.trim()`, which strips every character up to U+0020, leaves something.
   */
  predicate NotBlank(p: Option<string>) {
    p.Some? && exists i :: 0 <= i < |p.value| && p.value[i] > ' '
  }

  /** A missing, empty or white-space point is blank; a place name is not. */
  lemma NotBlankCases()
    ensures !NotBlank(None) && !NotBlank(Some("")) && !NotBlank(Some(" \t "))
    ensures NotBlank(Some("Kothrud, Pune"))
  {
    assert "Kothrud, Pune"[0] == 'K';
  }

  /** The fields of `new Trip()` constructed at time `now`. */
  function NewTripRecord(now: Timestamp): (r: TripRecord)
    ensures r.status == REQUESTED && r.isActive
    ensures r.baseCost == r.additionalFine == r.totalCost == Some(0)
    ensures r.creationDate == r.lastUpdateOn == r.requestedAt == Some(now)
    ensures r.id.None? && r.driver == null && r.car == null
    ensures r.approvedAt.None? && r.startedAt.None? && r.endedAt.None?
  {
    TripRecord(None, null, null, None, None, REQUESTED, Some(now), None, None, None,
               Some(0), Some(0), Some(0), Some(now), Some(now), true)
  }

  class Trip {
    var id: Option<int>
    var driver: Driver?
    var car: Car?
    var startPoint: Option<string>
    var endPoint: Option<string>
    var status: TripStatus
    var requestedAt: Option<Timestamp>
    var approvedAt: Option<Timestamp>
    var startedAt: Option<Timestamp>
    var endedAt: Option<Timestamp>
    var baseCost: Option<int>
    var additionalFine: Option<int>
    var totalCost: Option<int>
    var creationDate: Option<Timestamp>
    var lastUpdateOn: Option<Timestamp>
    var isActive: bool

    function Snapshot(): TripRecord
      reads this
    {
      TripRecord(id, driver, car, startPoint, endPoint, status, requestedAt, approvedAt,
                 startedAt, endedAt, baseCost, additionalFine, totalCost, creationDate,
                 lastUpdateOn, isActive)
    }

    /** `new Trip()`: status REQUESTED, costs zero, active, stamped with `now`. */
    constructor (now: Timestamp)
      ensures Snapshot() == NewTripRecord(now)
    {
      id, driver, car, startPoint, endPoint := None, null, null, None, None;
      status := REQUESTED;
      baseCost, additionalFine, totalCost := Some(0), Some(0), Some(0);
      isActive := true;
      approvedAt, startedAt, endedAt := None, None, None;
      creationDate := Some(now);
      lastUpdateOn := Some(now);
      isActive := true;
      requestedAt := Some(now);
      status := REQUESTED;
    }

    method SetId(v: Option<int>)
      modifies this
      ensures Snapshot() == old(Snapshot()).(id := v)
    {
      id := v;
    }

    method SetDriver(v: Driver?)
      modifies this
      ensures Snapshot() == old(Snapshot()).(driver := v)
    {
      driver := v;
    }

    method SetCar(v: Car?)
      modifies this
      ensures Snapshot() == old(Snapshot()).(car := v)
    {
      car := v;
    }

    method SetStartPoint(v: Option<string>)
      modifies this
      ensures Snapshot() == old(Snapshot()).(startPoint := v)
    {
      startPoint := v;
    }

    method SetEndPoint(v: Option<string>)
      modifies this
      ensures Snapshot() == old(Snapshot()).(endPoint := v)
    {
      endPoint := v;
    }

    method SetStatus(v: TripStatus)
      modifies this
      ensures Snapshot() == old(Snapshot()).(status := v)
    {
      status := v;
    }

    method SetRequestedAt(v: Option<Timestamp>)
      modifies this
      ensures Snapshot() == old(Snapshot()).(requestedAt := v)
    {
      requestedAt := v;
    }

    method SetApprovedAt(v: Option<Timestamp>)
      modifies this
      ensures Snapshot() == old(Snapshot()).(approvedAt := v)
    {
      approvedAt := v;
    }

    method SetStartedAt(v: Option<Timestamp>)
      modifies this
      ensures Snapshot() == old(Snapshot()).(startedAt := v)
    {
      startedAt := v;
    }

    method SetEndedAt(v: Option<Timestamp>)
      modifies this
      ensures Snapshot() == old(Snapshot()).(endedAt := v)
    {
      endedAt := v;
    }

    method SetBaseCost(v: Option<int>)
      modifies this
      ensures Snapshot() == old(Snapshot()).(baseCost := v)
    {
      baseCost := v;
    }

    method SetAdditionalFine(v: Option<int>)
      modifies this
      ensures Snapshot() == old(Snapshot()).(additionalFine := v)
    {
      additionalFine := v;
    }

    method SetTotalCost(v: Option<int>)
      modifies this
      ensures Snapshot() == old(Snapshot()).(totalCost := v)
    {
      totalCost := v;
    }

    method SetCreationDate(v: Option<Timestamp>)
      modifies this
      ensures Snapshot() == old(Snapshot()).(creationDate := v)
    {
      creationDate := v;
    }

    method SetLastUpdateOn(v: Option<Timestamp>)
      modifies this
      ensures Snapshot() == old(Snapshot()).(lastUpdateOn := v)
    {
      lastUpdateOn := v;
    }

    method SetIsActive(v: bool)
      modifies this
      ensures Snapshot() == old(Snapshot()).(isActive := v)
    {
      isActive := v;
    }

    /** `@PreUpdate`: only `lastUpdateOn` moves, to the time of the update. */
    method PreUpdate(now: Timestamp)
      modifies this
      ensures Snapshot() == old(Snapshot()).(lastUpdateOn := Some(now))
    {
      lastUpdateOn := Some(now);
    }
  }
}
