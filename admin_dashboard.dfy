/**
 * AdminDashboard.js: the fleet table built from the latest telemetry, the
 * driver-by-car map, the search over the table, the status counters, the fuel
 * and temperature colours, and the list of unacknowledged critical alerts
 * behind the notification bell.
 */
module AdminDashboard {
  import opened Wrappers
  import opened Ascii
  import opened Seqs
  import opened PageHelpers

  /** A car of the car list. */
  datatype FleetCar = FleetCar(id: int, carNumber: Option<string>, carModel: Option<string>, status: Option<string>)

  /** A driver of the assigned-drivers list. */
  datatype AssignedDriver = AssignedDriver(assignedCarId: Option<int>, name: Option<string>, username: Option<string>)

  /** One row of the fleet table (its locale-formatted update time is not modelled). */
  datatype Row = Row(
    id: int, carNumber: string, carModel: string, driver: string, location: string,
    speed: int, fuel: int, temp: int, status: string)

  /** `s || fallback` on a string that may be missing. */
  function OrText(s: Option<string>, fallback: string): string {
    if s.Some? && s.value != "" then s.value else fallback
  }

  /** `x ?? 0`: only a missing reading becomes 0. */
  function OrZero(x: Option<int>): int {
    if x.Some? then x.value else 0
  }

  // ------------------------------------------------------------- driver map

  /** `if (d.assignedCarId)`: a missing id and the id 0 are both skipped. */
  predicate Assigned(d: AssignedDriver) {
    d.assignedCarId.Some? && d.assignedCarId.value != 0
  }

  /** `d.name || d.username` (a missing username reads as the empty name). */
  function DriverName(d: AssignedDriver): string {
    OrText(d.name, OrEmpty(d.username))
  }

  /** The `drivers` object: car id to driver name, built in list order, so a later driver of the same car wins. */
  function DriverMap(drivers: seq<AssignedDriver>): map<int, string> {
    if drivers == [] then map[]
    else
      var d := drivers[|drivers| - 1];
      var m := DriverMap(drivers[..|drivers| - 1]);
      if Assigned(d) then m[d.assignedCarId.value := DriverName(d)] else m
  }

  /** A car id has an entry exactly when some assigned driver names it. */
  lemma {:induction false} DriverMapKeys(drivers: seq<AssignedDriver>)
    ensures forall id :: id in DriverMap(drivers) <==>
      exists i :: 0 <= i < |drivers| && Assigned(drivers[i]) && drivers[i].assignedCarId.value == id
  {
    if drivers != [] {
      var init := drivers[..|drivers| - 1];
      var last := drivers[|drivers| - 1];
      DriverMapKeys(init);
      forall id
        ensures id in DriverMap(drivers) <==>
          exists i :: 0 <= i < |drivers| && Assigned(drivers[i]) && drivers[i].assignedCarId.value == id
      {
        if id in DriverMap(init) {
          var i :| 0 <= i < |init| && Assigned(init[i]) && init[i].assignedCarId.value == id;
          assert drivers[i] == init[i];
        }
        if exists i :: 0 <= i < |drivers| && Assigned(drivers[i]) && drivers[i].assignedCarId.value == id {
          var i :| 0 <= i < |drivers| && Assigned(drivers[i]) && drivers[i].assignedCarId.value == id;
          if i < |init| {
            assert init[i] == drivers[i];
          }
        }
      }
    }
  }

  /** The entry of a car is the name of the last assigned driver of that car. */
  lemma {:induction false} DriverMapLast(drivers: seq<AssignedDriver>, i: nat)
    requires i < |drivers| && Assigned(drivers[i])
    requires forall j :: i < j < |drivers| && Assigned(drivers[j]) ==> drivers[j].assignedCarId != drivers[i].assignedCarId
    ensures drivers[i].assignedCarId.value in DriverMap(drivers)
    ensures DriverMap(drivers)[drivers[i].assignedCarId.value] == DriverName(drivers[i])
  {
    if i < |drivers| - 1 {
      var init := drivers[..|drivers| - 1];
      assert init[i] == drivers[i];
      assert forall j :: i < j < |init| ==> init[j] == drivers[j];
      DriverMapLast(init, i);
    }
  }

  // ---------------------------------------------------------------- car map

  /** `carMap`: car id to car, a later car with the same id wins. */
  function CarMap(cars: seq<FleetCar>): map<int, FleetCar> {
    if cars == [] then map[]
    else
      var c := cars[|cars| - 1];
      CarMap(cars[..|cars| - 1])[c.id := c]
  }

  /** The entry of an id is the last car with that id. */
  lemma {:induction false} CarMapLast(cars: seq<FleetCar>, i: nat)
    requires i < |cars| && forall j :: i < j < |cars| ==> cars[j].id != cars[i].id
    ensures cars[i].id in CarMap(cars) && CarMap(cars)[cars[i].id] == cars[i]
  {
    if i < |cars| - 1 {
      var init := cars[..|cars| - 1];
      assert init[i] == cars[i];
      assert forall j :: i < j < |init| ==> init[j] == cars[j];
      CarMapLast(init, i);
    }
  }

  /** `activeCarIdSet`. */
  function CarIdSet(cars: seq<FleetCar>): set<int> {
    set i | 0 <= i < |cars| :: cars[i].id
  }

  function OfListedCar(ids: set<int>): TelemetryRecord -> bool {
    (t: TelemetryRecord) => t.carId.Some? && t.carId.value in ids
  }

  /** `activeTelemetry`: the records whose car is in the car list, in order. */
  function ActiveTelemetry(telemetry: seq<TelemetryRecord>, cars: seq<FleetCar>): (r: seq<TelemetryRecord>)
    ensures forall t :: t in r <==> t in telemetry && t.carId.Some? && exists i :: 0 <= i < |cars| && cars[i].id == t.carId.value
    ensures SublistOf(r, telemetry) && |r| <= |telemetry|
  {
    var ids := CarIdSet(cars);
    var r := Filter(OfListedCar(ids), telemetry);
    FilterIsSublist(OfListedCar(ids), telemetry);
    forall t
      ensures t in r <==> t in telemetry && t.carId.Some? && exists i :: 0 <= i < |cars| && cars[i].id == t.carId.value
    {
      if t in r {
        var k :| 0 <= k < |r| && r[k] == t;
      }
      if t in telemetry && t.carId.Some? && exists i :: 0 <= i < |cars| && cars[i].id == t.carId.value {
        var i :| 0 <= i < |cars| && cars[i].id == t.carId.value;
        assert t.carId.value in ids;
        var k :| 0 <= k < |telemetry| && telemetry[k] == t;
      }
    }
    r
  }

  // ------------------------------------------------------------------ rows

  /**
   * The row of one record: text fields fall back to "-" (so no cell is blank),
   * readings fall back to 0 only when missing (a reading of 0 stays 0).
   */
  function RowFor(cars: map<int, FleetCar>, drivers: map<int, string>, t: TelemetryRecord): (r: Row)
    requires t.carId.Some?
    ensures r.id == t.carId.value
    ensures r.carNumber != "" && r.carModel != "" && r.driver != "" && r.location != "" && r.status != ""
    ensures t.speed.Some? ==> r.speed == t.speed.value
    ensures t.fuelLevel.Some? ==> r.fuel == t.fuelLevel.value
    ensures t.temperature.Some? ==> r.temp == t.temperature.value
    ensures t.speed.None? ==> r.speed == 0
    ensures t.fuelLevel.None? ==> r.fuel == 0
    ensures t.temperature.None? ==> r.temp == 0
  {
    var id := t.carId.value;
    var car := if id in cars then Some(cars[id]) else None;
    Row(
      id,
      if car.Some? then OrText(car.value.carNumber, "-") else "-",
      if car.Some? then OrText(car.value.carModel, "-") else "-",
      if id in drivers then OrText(Some(drivers[id]), "-") else "-",
      OrText(t.location, "-"),
      OrZero(t.speed), OrZero(t.fuelLevel), OrZero(t.temperature),
      // `carStatusById[id] || "-"` where the status map holds `c.status || ""`
      if car.Some? then OrText(car.value.status, "-") else "-")
  }

  /** `rows`: one row per record of a listed car, in the order of the telemetry list. */
  function BuildRows(telemetry: seq<TelemetryRecord>, cars: seq<FleetCar>, drivers: seq<AssignedDriver>): (rows: seq<Row>)
    ensures var active := ActiveTelemetry(telemetry, cars);
      |rows| == |active| <= |telemetry|
      && forall k :: 0 <= k < |rows| ==> active[k].carId.Some? && rows[k] == RowFor(CarMap(cars), DriverMap(drivers), active[k])
  {
    var active := ActiveTelemetry(telemetry, cars);
    var cm, dm := CarMap(cars), DriverMap(drivers);
    assert forall k :: 0 <= k < |active| ==> active[k] in active;
    seq(|active|, k requires 0 <= k < |active| => RowFor(cm, dm, active[k]))
  }

  /** A row shows the last listed car with its id: its number, model and status, each else "-". */
  lemma RowShowsCar(cars: seq<FleetCar>, drivers: map<int, string>, t: TelemetryRecord, i: nat)
    requires i < |cars| && t.carId == Some(cars[i].id)
    requires forall j :: i < j < |cars| ==> cars[j].id != cars[i].id
    ensures var r := RowFor(CarMap(cars), drivers, t);
      r.carNumber == OrText(cars[i].carNumber, "-") && r.carModel == OrText(cars[i].carModel, "-")
      && r.status == OrText(cars[i].status, "-")
  {
    CarMapLast(cars, i);
  }

  /** A row of a car no assigned driver names shows "-" as its driver. */
  lemma RowWithoutDriver(cars: map<int, FleetCar>, drivers: seq<AssignedDriver>, t: TelemetryRecord)
    requires t.carId.Some?
    requires forall i :: 0 <= i < |drivers| && Assigned(drivers[i]) ==> drivers[i].assignedCarId != t.carId
    ensures RowFor(cars, DriverMap(drivers), t).driver == "-"
  {
    DriverMapKeys(drivers);
  }

  /** A row shows the name of the last driver assigned to its car ("-" when that name is empty). */
  lemma RowShowsDriver(cars: map<int, FleetCar>, drivers: seq<AssignedDriver>, t: TelemetryRecord, i: nat)
    requires i < |drivers| && Assigned(drivers[i]) && drivers[i].assignedCarId == t.carId
    requires forall j :: i < j < |drivers| && Assigned(drivers[j]) ==> drivers[j].assignedCarId != t.carId
    ensures RowFor(cars, DriverMap(drivers), t).driver == OrText(Some(DriverName(drivers[i])), "-")
  {
    DriverMapLast(drivers, i);
  }

  // -------------------------------------------------------------- the search

  /** `String(v.id || "")`: the id 0 is falsy and reads as the empty text. */
  function IdText(id: int): string {
    if id == 0 then "" else IntToString(id)
  }

  /** The row test: the id, driver or location text, lowercased, contains `q`. */
  predicate RowMatches(q: string, v: Row) {
    Includes(ToLower(IdText(v.id)), q) || Includes(ToLower(v.driver), q) || Includes(ToLower(v.location), q)
  }

  function RowTest(q: string): Row -> bool {
    (v: Row) => RowMatches(q, v)
  }

  /** `(searchTerm || "").toLowerCase().trim()`. */
  function Query(search: string): string {
    Trim(ToLower(search))
  }

  /**
   * `filteredVehicles`: a query that trims to nothing shows every row;
   * otherwise the matching rows, in table order.
   */
  function FilteredVehicles(rows: seq<Row>, search: string): (r: seq<Row>)
    ensures Query(search) == "" ==> r == rows
    ensures Query(search) != "" ==> forall v :: v in r <==> v in rows && RowMatches(Query(search), v)
    ensures SublistOf(r, rows)
  {
    var q := Query(search);
    if q == "" then
      SublistOfSelf(rows);
      rows
    else
      FilterIsSublist(RowTest(q), rows);
      FilterMembers(RowTest(q), rows);
      assert forall v :: RowTest(q)(v) == RowMatches(q, v);
      Filter(RowTest(q), rows)
  }

  // ---------------------------------------------------------- status counters

  const ActiveStatus := "active"
  const IdleStatus := "idle"
  const MaintenanceStatus := "under maintainance"

  /** Rows whose lowercased status equals `status`. */
  function StatusCount(rows: seq<Row>, status: string): nat {
    if rows == [] then 0
    else StatusCount(rows[..|rows| - 1], status) + (if ToLower(rows[|rows| - 1].status) == status then 1 else 0)
  }

  predicate KnownStatus(v: Row) {
    var s := ToLower(v.status);
    s == ActiveStatus || s == IdleStatus || s == MaintenanceStatus
  }

  /**
   * A row is counted at most once, so the three counters add up to at most the
   * number of rows, and to exactly that number when every status is one of the three.
   */
  lemma {:induction false} StatusCountsBound(rows: seq<Row>)
    ensures StatusCount(rows, ActiveStatus) + StatusCount(rows, IdleStatus) + StatusCount(rows, MaintenanceStatus) <= |rows|
    ensures (forall i :: 0 <= i < |rows| ==> KnownStatus(rows[i])) ==>
      StatusCount(rows, ActiveStatus) + StatusCount(rows, IdleStatus) + StatusCount(rows, MaintenanceStatus) == |rows|
  {
    if rows != [] {
      var init := rows[..|rows| - 1];
      StatusCountsBound(init);
      if forall i :: 0 <= i < |rows| ==> KnownStatus(rows[i]) {
        assert forall i :: 0 <= i < |init| ==> init[i] == rows[i];
        assert KnownStatus(rows[|rows| - 1]);
      }
    }
  }

  // ------------------------------------------------------------------ colours

  datatype Colour = Green | Orange | Red

  /** How alarming a colour is. */
  function Level(c: Colour): nat {
    match c
    case Green => 0
    case Orange => 1
    case Red => 2
  }

  /** `getFuelColor`: green above 50, orange above 25, red otherwise. */
  function FuelColour(fuel: int): (c: Colour)
    ensures c == Green <==> fuel > 50
    ensures c == Orange <==> 25 < fuel <= 50
    ensures c == Red <==> fuel <= 25
  {
    if fuel > 50 then Green else if fuel > 25 then Orange else Red
  }

  /** `getTempColor`: green up to 95, orange up to 100, red above. */
  function TempColour(temp: int): (c: Colour)
    ensures c == Green <==> temp <= 95
    ensures c == Orange <==> 95 < temp <= 100
    ensures c == Red <==> temp > 100
  {
    if temp <= 95 then Green else if temp <= 100 then Orange else Red
  }

  /** Less fuel never shows a calmer colour; a hotter engine never shows a calmer colour. */
  lemma ColoursMonotone(a: int, b: int)
    requires a <= b
    ensures Level(FuelColour(b)) <= Level(FuelColour(a))
    ensures Level(TempColour(a)) <= Level(TempColour(b))
  {
  }

  // ------------------------------------------------------------ critical list

  /** An alert the notification list may hold: unacknowledged, with a severity that uppercases to CRITICAL. */
  predicate OpenCriticalAlert(a: Alert) {
    !a.acknowledged && SeverityKey(a) == "CRITICAL"
  }

  /** The notification list's invariant. */
  predicate OnlyOpenCritical(list: seq<Alert>) {
    forall i :: 0 <= i < |list| ==> OpenCriticalAlert(list[i])
  }

  function Unacknowledged(): Alert -> bool { (a: Alert) => !a.acknowledged }
  function CriticalKey(): Alert -> bool { (a: Alert) => SeverityKey(a) == "CRITICAL" }
  function OpenCritical(): Alert -> bool { (a: Alert) => OpenCriticalAlert(a) }

  /**
   * `loadCritical`: of the critical-alerts response, the unacknowledged alerts
   * whose severity uppercases to CRITICAL, in order; a failed request (or a
   * response without data) clears the list.
   */
  function LoadCritical(response: Option<seq<Alert>>): (r: seq<Alert>)
    ensures OnlyOpenCritical(r)
    ensures response.None? ==> r == []
    ensures response.Some? ==>
      (forall a :: a in r <==> a in response.value && OpenCriticalAlert(a)) && SublistOf(r, response.value)
  {
    if response.None? then []
    else
      var list := response.value;
      FilterFilter(Unacknowledged(), CriticalKey(), OpenCritical(), list);
      FilterIsSublist(OpenCritical(), list);
      FilterMembers(OpenCritical(), list);
      Filter(CriticalKey(), Filter(Unacknowledged(), list))
  }

  /** The severity test ignores letter case: a lowercase "critical" alert is listed. */
  lemma LowercaseCriticalListed(a: Alert)
    requires !a.acknowledged && a.severity == Some("critical")
    ensures LoadCritical(Some([a])) == [a]
  {
    assert SeverityKey(a) == "CRITICAL";
    assert a in LoadCritical(Some([a]));
  }

  function OtherId(id: int): Alert -> bool { (a: Alert) => a.id != id }

  /**
   * `acknowledgeAlert(id)`: after a successful PUT, the list without the
   * alerts with that id, the rest in order; after a failed one, unchanged.
   */
  function AcknowledgeAlert(list: seq<Alert>, id: int, ok: bool): (r: seq<Alert>)
    ensures !ok ==> r == list
    ensures ok ==> (forall a :: a in r <==> a in list && a.id != id) && SublistOf(r, list)
    ensures OnlyOpenCritical(list) ==> OnlyOpenCritical(r)
  {
    if !ok then list
    else
      var r := Filter(OtherId(id), list);
      FilterIsSublist(OtherId(id), list);
      assert forall a :: a in list && a.id != id ==> a in r by {
        forall a | a in list && a.id != id
          ensures a in r
        {
          var i :| 0 <= i < |list| && list[i] == a;
        }
      }
      assert forall a :: a in r ==> a in list && a.id != id by {
        forall a | a in r
          ensures a in list && a.id != id
        {
          var i :| 0 <= i < |r| && r[i] == a;
        }
      }
      r
  }

  /** Acknowledging the same alert twice changes nothing the second time. */
  lemma AcknowledgeIdempotent(list: seq<Alert>, id: int)
    ensures AcknowledgeAlert(AcknowledgeAlert(list, id, true), id, true) == AcknowledgeAlert(list, id, true)
  {
    FilterTwice(OtherId(id), list);
  }

  /**
   * `acknowledgeAll`: one PUT per listed alert (`put` says which succeed). When
   * every one succeeds the list ends as acknowledging each alert in turn leaves
   * it, which is empty; when any fails (`Promise.all` rejects) it stays as it was.
   */
  function AcknowledgeAll(list: seq<Alert>, put: int -> bool): (r: seq<Alert>)
    ensures (forall i :: 0 <= i < |list| ==> put(list[i].id)) ==> r == AcknowledgeEach(list, AlertIds(list)) == []
    ensures (exists i :: 0 <= i < |list| && !put(list[i].id)) ==> r == list
  {
    EachOfAllIdsEmpties(list);
    if forall i :: 0 <= i < |list| ==> put(list[i].id) then [] else list
  }

  /** The ids of the listed alerts, in order: what `list.map(a => a.id)` iterates. */
  function AlertIds(list: seq<Alert>): (ids: seq<int>)
    ensures |ids| == |list| && forall i :: 0 <= i < |list| ==> ids[i] == list[i].id
  {
    seq(|list|, i requires 0 <= i < |list| => list[i].id)
  }

  /** Acknowledging alerts one at a time by the ids in `ids`, each PUT succeeding. */
  function AcknowledgeEach(list: seq<Alert>, ids: seq<int>): seq<Alert>
    decreases ids
  {
    if ids == [] then list else AcknowledgeEach(AcknowledgeAlert(list, ids[0], true), ids[1..])
  }

  function NotAmong(ids: seq<int>): Alert -> bool { (a: Alert) => a.id !in ids }

  /** Acknowledging `ids` one at a time leaves the alerts whose id is not among them, in order. */
  lemma {:induction false} AcknowledgeEachLeaves(list: seq<Alert>, ids: seq<int>)
    ensures AcknowledgeEach(list, ids) == Filter(NotAmong(ids), list)
    decreases ids
  {
    if ids == [] {
      FilterKeepsAll(NotAmong(ids), list);
    } else {
      AcknowledgeEachLeaves(AcknowledgeAlert(list, ids[0], true), ids[1..]);
      assert forall x :: x in ids <==> x == ids[0] || x in ids[1..];
      FilterFilter(OtherId(ids[0]), NotAmong(ids[1..]), NotAmong(ids), list);
    }
  }

  /** Acknowledging every listed alert one at a time leaves nothing. */
  lemma EachOfAllIdsEmpties(list: seq<Alert>)
    ensures AcknowledgeEach(list, AlertIds(list)) == []
  {
    var ids := AlertIds(list);
    AcknowledgeEachLeaves(list, ids);
    forall i | 0 <= i < |list|
      ensures !NotAmong(ids)(list[i])
    {
      assert ids[i] == list[i].id;
    }
    FilterNone(NotAmong(ids), list);
  }

  /**
   * Acknowledging every listed alert one at a time ends where a fully
   * successful `acknowledgeAll` does: with an empty list.
   */
  lemma AcknowledgeAllIsEach(list: seq<Alert>, put: int -> bool)
    requires forall i :: 0 <= i < |list| ==> put(list[i].id)
    ensures AcknowledgeEach(list, AlertIds(list)) == AcknowledgeAll(list, put) == []
  {
    EachOfAllIdsEmpties(list);
  }
}
