/**
 * AnalyticsPage.js: the fleet-status and severity charts, the alerts-per-car
 * chart, the alert counters for one selected car, the "latest telemetry"
 * restriction to listed cars and the time-window filter of the alert chart.
 */
module AnalyticsPage {
  import opened Wrappers
  import opened Ascii
  import opened Seqs
  import opened PageHelpers

  /** A car as the analytics page reads it. */
  datatype FleetCar = FleetCar(id: int, carNumber: Option<string>, status: Option<string>)

  /** `s || fallback` on a string that may be missing. */
  function OrText(s: Option<string>, fallback: string): string {
    if s.Some? && s.value != "" then s.value else fallback
  }

  // ---------------------------------------------------------- latest telemetry

  function CarIds(cars: seq<FleetCar>): (ids: seq<int>)
    ensures |ids| == |cars| && forall i :: 0 <= i < |cars| ==> ids[i] == cars[i].id
  {
    if cars == [] then [] else [cars[0].id] + CarIds(cars[1..])
  }

  function OfListedCar(ids: seq<int>): TelemetryRecord -> bool {
    (t: TelemetryRecord) => t.carId.Some? && t.carId.value in ids
  }

  /** `latestAll`: the latest records whose car is in the car list, in order. */
  function LatestForCars(records: seq<TelemetryRecord>, cars: seq<FleetCar>): (r: seq<TelemetryRecord>)
    ensures forall i :: 0 <= i < |r| ==> r[i] in records && exists j :: 0 <= j < |cars| && r[i].carId == Some(cars[j].id)
    ensures forall t :: t in records && t.carId.Some? && (exists j :: 0 <= j < |cars| && cars[j].id == t.carId.value) ==> t in r
    ensures SublistOf(r, records)
  {
    var ids := CarIds(cars);
    var r := Filter(OfListedCar(ids), records);
    FilterIsSublist(OfListedCar(ids), records);
    assert forall i :: 0 <= i < |r| ==> r[i].carId.Some? && r[i].carId.value in ids;
    forall t | t in records && t.carId.Some? && (exists j :: 0 <= j < |cars| && cars[j].id == t.carId.value)
      ensures t in r
    {
      var j :| 0 <= j < |cars| && cars[j].id == t.carId.value;
      assert ids[j] == t.carId.value;
      var k :| 0 <= k < |records| && records[k] == t;
    }
    r
  }

  // ------------------------------------------------------- statusDistribution

  /** `String(c.status || "-").toUpperCase()`. */
  function StatusKey(c: FleetCar): string {
    ToUpper(OrText(c.status, "-"))
  }

  /** `statusDistribution`: the counter object of status keys, as its entries. */
  function StatusDistribution(cars: seq<FleetCar>): seq<Entry<string>> {
    Tally(StatusKey, cars)
  }

  /**
   * One slice per distinct uppercased status (a missing or empty status counts
   * as "-"), each sized by the number of cars with that status; the slices
   * add up to the number of cars.
   */
  lemma StatusDistributionFacts(cars: seq<FleetCar>)
    ensures DistinctNames(StatusDistribution(cars))
    ensures SumValues(StatusDistribution(cars)) == |cars|
    ensures forall k :: HasName(StatusDistribution(cars), k) <==> exists i :: 0 <= i < |cars| && StatusKey(cars[i]) == k
    ensures forall k :: Lookup(StatusDistribution(cars), k) == CountKey(StatusKey, cars, k)
    ensures forall i :: 0 <= i < |cars| && (cars[i].status.None? || cars[i].status == Some("")) ==> HasName(StatusDistribution(cars), "-")
  {
    TallyFacts(StatusKey, cars);
    forall i | 0 <= i < |cars| && (cars[i].status.None? || cars[i].status == Some(""))
      ensures HasName(StatusDistribution(cars), "-")
    {
      MissingStatusKey(cars[i]);
    }
  }

  /** A car without a status is keyed "-". */
  lemma MissingStatusKey(c: FleetCar)
    requires c.status.None? || c.status == Some("")
    ensures StatusKey(c) == "-"
  {
    assert OrText(c.status, "-") == "-";
    assert ToUpper("-") == [UpperChar('-')];
  }

  // ---------------------------------------------------------------- severityPie

  /**
   * `severityPie`: the counter object `{ LOW, MEDIUM, HIGH, CRITICAL }` after one
   * increment per alert of a known severity, as its four entries in that order.
   */
  method SeverityPie(alerts: seq<Alert>) returns (pie: seq<Entry<string>>)
    ensures pie == PieOf(alerts)
    ensures |pie| == 4 && pie[0].name == "LOW" && pie[1].name == "MEDIUM" && pie[2].name == "HIGH" && pie[3].name == "CRITICAL"
    ensures SumValues(pie) + UngroupedCount(alerts) == |alerts|
    ensures SumValues(pie) <= |alerts|
  {
    var low, medium, high, critical := 0, 0, 0, 0;
    var i := 0;
    while i < |alerts|
      invariant 0 <= i <= |alerts|
      invariant low == |OfSeverity(alerts[..i], Low)| && medium == |OfSeverity(alerts[..i], Medium)|
      invariant high == |OfSeverity(alerts[..i], High)| && critical == |OfSeverity(alerts[..i], Critical)|
    {
      var sev := SeverityOf(SeverityKey(alerts[i]));
      assert alerts[..i + 1] == alerts[..i] + [alerts[i]];
      PieStep(alerts[..i], alerts[i]);
      if sev == Some(Low) {
        low := low + 1;
      } else if sev == Some(Medium) {
        medium := medium + 1;
      } else if sev == Some(High) {
        high := high + 1;
      } else if sev == Some(Critical) {
        critical := critical + 1;
      }
      i := i + 1;
    }
    assert alerts[..i] == alerts;
    pie := [Entry("LOW", low), Entry("MEDIUM", medium), Entry("HIGH", high), Entry("CRITICAL", critical)];
    PieSum(alerts);
  }

  /** The four slices, each the number of alerts of its severity. */
  function PieOf(alerts: seq<Alert>): seq<Entry<string>> {
    [Entry("LOW", |OfSeverity(alerts, Low)|), Entry("MEDIUM", |OfSeverity(alerts, Medium)|),
     Entry("HIGH", |OfSeverity(alerts, High)|), Entry("CRITICAL", |OfSeverity(alerts, Critical)|)]
  }

  /** The slices and the alerts of unknown severity add up to all the alerts. */
  lemma PieSum(alerts: seq<Alert>)
    ensures SumValues(PieOf(alerts)) + UngroupedCount(alerts) == |alerts|
  {
    SumOfFour(PieOf(alerts));
    SeverityPartition(alerts);
  }

  lemma PieStep(alerts: seq<Alert>, a: Alert)
    ensures forall sev ::
      |OfSeverity(alerts + [a], sev)| == |OfSeverity(alerts, sev)| + (if SeverityOf(SeverityKey(a)) == Some(sev) then 1 else 0)
  {
    assert (alerts + [a])[..|alerts|] == alerts;
  }

  // ---------------------------------------------------------- alertsByCarNumber

  /** `idToNumber`: car id to its number, else its id text; a later car with the same id wins. */
  function IdToNumber(cars: seq<FleetCar>): map<int, string> {
    if cars == [] then map[]
    else
      var c := cars[|cars| - 1];
      IdToNumber(cars[..|cars| - 1])[c.id := OrText(c.carNumber, IntToString(c.id))]
  }

  /** Every listed id has an entry, and only those. */
  lemma IdToNumberKeys(cars: seq<FleetCar>)
    ensures forall id :: id in IdToNumber(cars) <==> exists i :: 0 <= i < |cars| && cars[i].id == id
  {
    forall id
      ensures id in IdToNumber(cars) <==> exists i :: 0 <= i < |cars| && cars[i].id == id
    {
      IdToNumberKey(cars, id);
    }
  }

  /** One id's entry: it is there exactly when a car has that id. */
  lemma IdToNumberKey(cars: seq<FleetCar>, id: int)
    ensures id in IdToNumber(cars) <==> exists i :: 0 <= i < |cars| && cars[i].id == id
  {
    IdToNumberIds(cars);
    IdsMembers(cars, id);
  }

  /** The ids of the cars, as a set. */
  function Ids(cars: seq<FleetCar>): set<int> {
    if cars == [] then {} else Ids(cars[..|cars| - 1]) + {cars[|cars| - 1].id}
  }

  lemma {:induction false} IdToNumberIds(cars: seq<FleetCar>)
    ensures IdToNumber(cars).Keys == Ids(cars)
  {
    if cars != [] {
      IdToNumberIds(cars[..|cars| - 1]);
    }
  }

  lemma {:induction false} IdsMembers(cars: seq<FleetCar>, id: int)
    ensures id in Ids(cars) <==> exists i :: 0 <= i < |cars| && cars[i].id == id
  {
    if cars != [] {
      var init := cars[..|cars| - 1];
      IdsMembers(init, id);
      if id in Ids(init) {
        var i :| 0 <= i < |init| && init[i].id == id;
        assert cars[i].id == id;
      } else if id == cars[|cars| - 1].id {
      } else {
        forall i | 0 <= i < |cars|
          ensures cars[i].id != id
        {
          if i < |init| {
            assert init[i] == cars[i];
          }
        }
      }
    }
  }

  /** The entry of an id is the non-empty number of the last car with that id, or its id text. */
  lemma {:induction false} IdToNumberLast(cars: seq<FleetCar>, i: nat)
    requires i < |cars| && forall j :: i < j < |cars| ==> cars[j].id != cars[i].id
    ensures cars[i].id in IdToNumber(cars)
    ensures IdToNumber(cars)[cars[i].id] == OrText(cars[i].carNumber, IntToString(cars[i].id))
  {
    if i < |cars| - 1 {
      var init := cars[..|cars| - 1];
      assert init[i] == cars[i];
      assert forall j :: i < j < |init| ==> init[j] == cars[j];
      IdToNumberLast(init, i);
    }
  }

  /** `String(a.carId)`: a missing id prints as `null`. */
  function CarIdText(id: Option<int>): string {
    if id.Some? then IntToString(id.value) else "null"
  }

  /** `idToNumber[a.carId] || String(a.carId)`. */
  function CarKey(m: map<int, string>, a: Alert): string {
    if a.carId.Some? && a.carId.value in m && m[a.carId.value] != "" then m[a.carId.value] else CarIdText(a.carId)
  }

  function KeyIn(m: map<int, string>): Alert -> string {
    a => CarKey(m, a)
  }

  /**
   * `alertsByCarNumber`: one counter per car key, bumped once per alert, read
   * back as entries in first-insertion order.
   */
  method AlertsByCarNumber(cars: seq<FleetCar>, alerts: seq<Alert>) returns (counts: seq<Entry<string>>)
    ensures counts == Tally(KeyIn(IdToNumber(cars)), alerts)
    ensures SumValues(counts) == |alerts|
    ensures DistinctNames(counts)
  {
    var m := IdToNumber(cars);
    counts := [];
    var i := 0;
    while i < |alerts|
      invariant 0 <= i <= |alerts|
      invariant counts == Tally(KeyIn(m), alerts[..i])
    {
      TallyStep(KeyIn(m), alerts, i);
      counts := Bump(counts, CarKey(m, alerts[i]));
      i := i + 1;
    }
    assert alerts[..i] == alerts;
    TallyFacts(KeyIn(m), alerts);
  }

  /** An alert of a listed car is counted under that car's number (or id text), not under its raw id. */
  lemma AlertKeyedByNumber(cars: seq<FleetCar>, a: Alert, i: nat)
    requires i < |cars| && a.carId == Some(cars[i].id)
    requires forall j :: i < j < |cars| ==> cars[j].id != cars[i].id
    ensures CarKey(IdToNumber(cars), a) == OrText(cars[i].carNumber, IntToString(cars[i].id))
  {
    IdToNumberLast(cars, i);
  }

  // -------------------------------------------------- per-car alert counters

  /** `{ totalAlerts, unacknowledgedAlerts, criticalAlerts }`. */
  datatype AlertCounts = AlertCounts(total: nat, unacknowledged: nat, critical: nat)

  function UnacknowledgedCount(alerts: seq<Alert>): nat {
    if alerts == [] then 0
    else UnacknowledgedCount(alerts[..|alerts| - 1]) + (if !alerts[|alerts| - 1].acknowledged then 1 else 0)
  }

  /** Compares the raw severity, without upper-casing: `alert.severity === 'CRITICAL'`. */
  function CriticalCount(alerts: seq<Alert>): nat {
    if alerts == [] then 0
    else CriticalCount(alerts[..|alerts| - 1]) + (if alerts[|alerts| - 1].severity == Some("CRITICAL") then 1 else 0)
  }

  /**
   * The counters of a selected car: the alert list's length, its unacknowledged
   * alerts and its alerts whose severity is exactly "CRITICAL"; a failed request
   * gives zeros.
   */
  function CarAlertCounts(response: Option<seq<Alert>>): (c: AlertCounts)
    ensures response.None? ==> c == AlertCounts(0, 0, 0)
    ensures response.Some? ==> c.total == |response.value|
    ensures response.Some? ==> c.unacknowledged == |Seqs.Filter(Unacknowledged, response.value)|
    ensures response.Some? ==> c.critical == |Seqs.Filter(IsCritical, response.value)|
    ensures c.unacknowledged <= c.total && c.critical <= c.total
  {
    if response.None? then AlertCounts(0, 0, 0)
    else
      var s := response.value;
      CountFacts(s);
      CountsAreFilterLengths(s);
      AlertCounts(|s|, UnacknowledgedCount(s), CriticalCount(s))
  }

  /** `alert => !alert.acknowledged` */
  predicate Unacknowledged(a: Alert) {
    !a.acknowledged
  }

  /** `alert => alert.severity === 'CRITICAL'` */
  predicate IsCritical(a: Alert) {
    a.severity == Some("CRITICAL")
  }

  /** The counters are the lengths of the two `filter` calls. */
  lemma {:induction false} CountsAreFilterLengths(alerts: seq<Alert>)
    ensures UnacknowledgedCount(alerts) == |Seqs.Filter(Unacknowledged, alerts)|
    ensures CriticalCount(alerts) == |Seqs.Filter(IsCritical, alerts)|
  {
    if alerts != [] {
      var init := alerts[..|alerts| - 1];
      var last := alerts[|alerts| - 1];
      CountsAreFilterLengths(init);
      assert alerts == init + [last];
      Seqs.FilterSnoc(Unacknowledged, init, last);
      Seqs.FilterSnoc(IsCritical, init, last);
    }
  }

  /**
   * Each counter is at most the number of alerts; all alerts are unacknowledged
   * exactly when none is acknowledged, and none is when all are; likewise for
   * the critical counter.
   */
  lemma {:induction false} CountFacts(alerts: seq<Alert>)
    ensures UnacknowledgedCount(alerts) <= |alerts| && CriticalCount(alerts) <= |alerts|
    ensures UnacknowledgedCount(alerts) == |alerts| <==> forall i :: 0 <= i < |alerts| ==> !alerts[i].acknowledged
    ensures UnacknowledgedCount(alerts) == 0 <==> forall i :: 0 <= i < |alerts| ==> alerts[i].acknowledged
    ensures CriticalCount(alerts) == |alerts| <==> forall i :: 0 <= i < |alerts| ==> alerts[i].severity == Some("CRITICAL")
    ensures CriticalCount(alerts) == 0 <==> forall i :: 0 <= i < |alerts| ==> alerts[i].severity != Some("CRITICAL")
  {
    if alerts != [] {
      var init := alerts[..|alerts| - 1];
      CountFacts(init);
      assert forall i :: 0 <= i < |init| ==> init[i] == alerts[i];
    }
  }

  // ------------------------------------------------------- alertsOverTime window

  /** The dropdown: all cars, or the id text of one car. */
  const AllCars := "ALL"

  /** The `inRange` test: inside [start, end], and of the selected car unless "ALL" is selected. */
  predicate InWindow(start: int, end: int, selected: string, a: Alert) {
    start <= a.timestamp <= end && (selected == AllCars || CarIdText(a.carId) == selected)
  }

  function WindowTest(start: int, end: int, selected: string): Alert -> bool {
    a => InWindow(start, end, selected, a)
  }

  /** `inRange`: the alerts inside the window, of the selected car or of every car, in order. */
  function InRange(alerts: seq<Alert>, start: int, end: int, selected: string): (r: seq<Alert>)
    ensures forall a :: a in r <==> a in alerts && InWindow(start, end, selected, a)
    ensures SublistOf(r, alerts)
  {
    var r := Filter(WindowTest(start, end, selected), alerts);
    FilterIsSublist(WindowTest(start, end, selected), alerts);
    forall a
      ensures a in r <==> a in alerts && InWindow(start, end, selected, a)
    {
      if a in r {
        var i :| 0 <= i < |r| && r[i] == a;
      }
      if a in alerts {
        var i :| 0 <= i < |alerts| && alerts[i] == a;
      }
    }
    r
  }

  /**
   * With "ALL" selected the window keeps every alert inside it whatever its car;
   * with one car selected, the kept alerts are those of the "ALL" window that
   * belong to that car.
   */
  lemma InRangeSelection(alerts: seq<Alert>, start: int, end: int, id: int)
    ensures forall a :: a in InRange(alerts, start, end, AllCars) <==> a in alerts && start <= a.timestamp <= end
    ensures forall a :: a in InRange(alerts, start, end, IntToString(id)) <==>
      a in InRange(alerts, start, end, AllCars) && CarIdText(a.carId) == IntToString(id)
  {
    IntToStringNotAll(id);
  }

  /** No id prints as "ALL". */
  lemma IntToStringNotAll(id: int)
    ensures IntToString(id) != AllCars
  {
    var s := IntToString(id);
    if id >= 0 {
      assert IsDigit(s[0]);
    } else {
      assert s[0] == '-';
    }
  }
}
