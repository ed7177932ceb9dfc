/**
 * DriverDashboard.js: the assigned car, its latest record, its alerts newest
 * first, and the three most recent alerts shown with the reading of the
 * telemetry record nearest to each.
 */
module DriverDashboard {
  import opened Wrappers
  import opened Ascii
  import opened Paging
  import opened Sorting
  import opened PageHelpers

  /** How many recent alerts the dashboard shows. */
  const RecentCount := 3

  /** Ten minutes in milliseconds: the margin around the recent alerts' times. */
  const Margin := 10 * 60 * 1000

  /** `d?.assignedCarId || null`: a failed request, a missing id and the id 0 all mean no car. */
  function AssignedCar(response: Option<Option<int>>): (r: Option<int>)
    ensures r.Some? <==> response.Some? && response.value.Some? && response.value.value != 0
    ensures r.Some? ==> r == response.value
  {
    if response.Some? && response.value.Some? && response.value.value != 0 then response.value else None
  }

  /** `list[0] || null`: the first record of the response, if any. */
  function LatestRecord(response: Option<seq<TelemetryRecord>>): (r: Option<TelemetryRecord>)
    ensures r.Some? <==> response.Some? && response.value != []
    ensures r.Some? ==> r.value == response.value[0]
  {
    if response.Some? && response.value != [] then Some(response.value[0]) else None
  }

  /** `fetchAlerts`: the car's alerts sorted newest first; a failed request gives none. */
  function NewestAlerts(response: Option<seq<Alert>>): (r: seq<Alert>)
    ensures SortedDesc(AlertTime, r)
    ensures response.None? ==> r == []
    ensures response.Some? ==> multiset(r) == multiset(response.value)
  {
    if response.None? then []
    else
      SortNewestFirstFacts(AlertTime, response.value);
      SortNewestFirst(AlertTime, response.value)
  }

  // ------------------------------------------------------------ the candidates

  /** `baseAlerts.slice(0, 3)`. */
  function Candidates(base: seq<Alert>): (c: seq<Alert>)
    ensures |c| == Min(RecentCount, |base|) && c == base[..|c|]
  {
    Slice(base, 0, RecentCount)
  }

  /** Of a newest-first list, the candidates are the newest alerts: none left out is newer than one taken. */
  lemma CandidatesAreNewest(base: seq<Alert>)
    requires SortedDesc(AlertTime, base)
    ensures var c := Candidates(base);
      SortedDesc(AlertTime, c) && forall i, j :: 0 <= i < |c| <= j < |base| ==> base[j].timestamp <= c[i].timestamp
  {
    var c := Candidates(base);
    SortedSlice(AlertTime, base, 0, |c|);
    assert base[0..|c|] == c;
  }

  /** `Math.min(...candidate times)`. */
  function MinTime(c: seq<Alert>): (m: int)
    requires c != []
    ensures forall i :: 0 <= i < |c| ==> m <= c[i].timestamp
    ensures exists i :: 0 <= i < |c| && m == c[i].timestamp
  {
    if |c| == 1 then c[0].timestamp
    else
      var rest := MinTime(c[1..]);
      assert forall i :: 1 <= i < |c| ==> c[i] == c[1..][i - 1];
      if c[0].timestamp <= rest then c[0].timestamp
      else
        var k :| 0 <= k < |c[1..]| && rest == c[1..][k].timestamp;
        assert c[k + 1].timestamp == rest;
        rest
  }

  /** `Math.max(...candidate times)`. */
  function MaxTime(c: seq<Alert>): (m: int)
    requires c != []
    ensures forall i :: 0 <= i < |c| ==> c[i].timestamp <= m
    ensures exists i :: 0 <= i < |c| && m == c[i].timestamp
  {
    if |c| == 1 then c[0].timestamp
    else
      var rest := MaxTime(c[1..]);
      assert forall i :: 1 <= i < |c| ==> c[i] == c[1..][i - 1];
      if c[0].timestamp >= rest then c[0].timestamp
      else
        var k :| 0 <= k < |c[1..]| && rest == c[1..][k].timestamp;
        assert c[k + 1].timestamp == rest;
        rest
  }

  /**
   * The telemetry query window: from ten minutes before the earliest candidate
   * to ten minutes after the latest. Every candidate lies inside it with ten
   * minutes to spare, and it is no wider than that.
   */
  function QueryWindow(c: seq<Alert>): (w: (int, int))
    requires c != []
    ensures forall i :: 0 <= i < |c| ==> w.0 + Margin <= c[i].timestamp <= w.1 - Margin
    ensures (exists i :: 0 <= i < |c| && c[i].timestamp == w.0 + Margin)
      && (exists i :: 0 <= i < |c| && c[i].timestamp == w.1 - Margin)
  {
    (MinTime(c) - Margin, MaxTime(c) + Margin)
  }

  // ------------------------------------------------------------ recent alerts

  /**
   * A recent alert: with the derived value text and the cause sentence, or,
   * after a failed telemetry request, the bare alert.
   */
  datatype Recent = WithValue(alert: Alert, derivedValue: Option<string>, cause: Cause) | Plain(alert: Alert)

  /** One candidate, joined with the record nearest to its time. */
  function WithNearest(records: seq<TelemetryRecord>, a: Alert): (r: Recent)
    ensures r.WithValue? && r.alert == a
    ensures r.derivedValue == ValueText(DerivedValue(a.kind, NearestRecord(records, a.timestamp)))
    ensures r.cause == CompactCause(a.kind, r.derivedValue)
  {
    var value := ValueText(DerivedValue(a.kind, NearestRecord(records, a.timestamp)));
    WithValue(a, value, CompactCause(a.kind, value))
  }

  /**
   * `fetchRecentAlertValues`: the first three alerts; no request when there
   * are none; on a failed telemetry request (`records` missing) the bare
   * alerts, otherwise each joined with its nearest record.
   */
  function RecentAlerts(base: seq<Alert>, records: Option<seq<TelemetryRecord>>): (r: seq<Recent>)
    ensures |r| == Min(RecentCount, |base|)
    ensures forall i :: 0 <= i < |r| ==> r[i].alert == base[i]
    ensures records.None? ==> forall i :: 0 <= i < |r| ==> r[i] == Plain(base[i])
    ensures records.Some? ==> forall i :: 0 <= i < |r| ==> r[i] == WithNearest(records.value, base[i])
  {
    var c := Candidates(base);
    if c == [] then []
    else if records.None? then seq(|c|, i requires 0 <= i < |c| => Plain(c[i]))
    else seq(|c|, i requires 0 <= i < |c| => WithNearest(records.value, c[i]))
  }

  /** The alert type names one of the three readings. */
  predicate NamesAKind(kind: Option<string>) {
    Includes(TypeText(kind), "fuel") || Includes(TypeText(kind), "temp") || Includes(TypeText(kind), "speed")
  }

  /**
   * A value appears only when the window holds telemetry and the alert type
   * names fuel, temperature or speed; with no telemetry every recent alert
   * has no value.
   */
  lemma ValuesNeedTelemetry(base: seq<Alert>, records: seq<TelemetryRecord>)
    ensures forall i :: 0 <= i < |RecentAlerts(base, Some(records))| ==>
      (RecentAlerts(base, Some(records))[i].derivedValue.Some? ==> records != [] && NamesAKind(base[i].kind))
  {
    forall i | 0 <= i < |RecentAlerts(base, Some(records))|
      ensures RecentAlerts(base, Some(records))[i].derivedValue.Some? ==> records != [] && NamesAKind(base[i].kind)
    {
      NearestFacts(records, base[i].timestamp);
    }
  }

  /** A shown value comes from a record of the window at minimal distance from the alert, the first such. */
  lemma RecentValueFromNearest(base: seq<Alert>, records: seq<TelemetryRecord>, i: nat)
    requires i < |RecentAlerts(base, Some(records))|
    requires RecentAlerts(base, Some(records))[i].derivedValue.Some?
    ensures exists k ::
      0 <= k < |records|
      && RecentAlerts(base, Some(records))[i].derivedValue == ValueText(DerivedValue(base[i].kind, Some(records[k])))
      && (forall j :: 0 <= j < |records| ==> Distance(records[j], base[i].timestamp) >= Distance(records[k], base[i].timestamp))
      && (forall j :: 0 <= j < k ==> Distance(records[j], base[i].timestamp) > Distance(records[k], base[i].timestamp))
  {
    NearestFacts(records, base[i].timestamp);
  }

  // ---------------------------------------------------------------- fetchAll

  /** What the dashboard shows. */
  datatype Dashboard = Dashboard(latest: Option<TelemetryRecord>, alerts: seq<Alert>, recent: seq<Recent>, loading: bool)

  /** The responses one refresh receives (`None` for a request that failed). */
  datatype Responses = Responses(
    latest: Option<seq<TelemetryRecord>>, alerts: Option<seq<Alert>>, window: Option<seq<TelemetryRecord>>)

  /**
   * `fetchAll`: with no assigned car nothing happens (not even the loading
   * flag changes); otherwise the latest record, the sorted alerts, the recent
   * alerts from those, and loading off.
   */
  function FetchAll(d: Dashboard, carId: Option<int>, res: Responses): (r: Dashboard)
    ensures carId.None? || carId.value == 0 ==> r == d
    ensures carId.Some? && carId.value != 0 ==>
      && r.latest == LatestRecord(res.latest)
      && r.alerts == NewestAlerts(res.alerts)
      && r.recent == RecentAlerts(r.alerts, res.window)
      && !r.loading
  {
    if carId.None? || carId.value == 0 then d
    else
      var alerts := NewestAlerts(res.alerts);
      Dashboard(LatestRecord(res.latest), alerts, RecentAlerts(alerts, res.window), false)
  }

  /** After a refresh the recent alerts are the newest (at most three) of the car's alerts. */
  lemma RefreshShowsNewest(d: Dashboard, carId: int, res: Responses)
    requires carId != 0
    ensures var r := FetchAll(d, Some(carId), res);
      |r.recent| <= RecentCount
      && forall i, j :: 0 <= i < |r.recent| <= j < |r.alerts| ==> r.alerts[j].timestamp <= r.recent[i].alert.timestamp
  {
    var r := FetchAll(d, Some(carId), res);
    CandidatesAreNewest(r.alerts);
    assert forall i :: 0 <= i < |r.recent| ==> r.recent[i].alert == Candidates(r.alerts)[i];
  }
}
