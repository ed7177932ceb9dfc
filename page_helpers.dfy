/**
 * Helpers the pages share, several of them copied verbatim between
 * AlertsPage.js, DriverDashboard.js and AnalyticsPage.js: the records the pages
 * receive from the server, `formatLocalDateTime`, `compactCause`, the value
 * derived from the telemetry record nearest to an alert, and the nearest-record
 * search itself. Timestamps are milliseconds (`new Date(x).getTime()`).
 */
module PageHelpers {
  import opened Wrappers
  import opened Ascii

  /** A telemetry record as the server sends it; every reading may be missing. */
  datatype TelemetryRecord = TelemetryRecord(
    carId: Option<int>,
    speed: Option<int>,
    fuelLevel: Option<int>,
    temperature: Option<int>,
    location: Option<string>,
    timestamp: int)

  /** An alert; `carRef` is the id of the nested `car` object some responses carry instead of `carId`. */
  datatype Alert = Alert(
    id: int,
    carId: Option<int>,
    carRef: Option<int>,
    kind: Option<string>,
    severity: Option<string>,
    acknowledged: bool,
    timestamp: int)

  /** `(s || "")`: a missing string reads as the empty one. */
  function OrEmpty(s: Option<string>): string {
    if s.Some? then s.value else ""
  }

  /** `(a.type || "").toLowerCase()`. */
  function TypeText(kind: Option<string>): string {
    ToLower(OrEmpty(kind))
  }

  /** `String(a.severity || "").toUpperCase()`. */
  function SeverityKey(a: Alert): string {
    ToUpper(OrEmpty(a.severity))
  }

  /** `a.carId ?? a.car?.id`. */
  function AlertCar(a: Alert): Option<int> {
    if a.carId.Some? then a.carId else a.carRef
  }

  /** The sort keys of `new Date(x.timestamp)` comparisons. */
  function AlertTime(a: Alert): int {
    a.timestamp
  }

  function RecordTime(t: TelemetryRecord): int {
    t.timestamp
  }

  // ------------------------------------------------------ formatLocalDateTime

  /** The fields `getFullYear`, `getMonth() + 1`, `getDate`, `getHours`, `getMinutes`, `getSeconds`. */
  datatype LocalDateTime = LocalDateTime(year: nat, month: nat, day: nat, hour: nat, minute: nat, second: nat)

  predicate ValidDateTime(d: LocalDateTime) {
    1 <= d.month <= 12 && 1 <= d.day <= 31 && d.hour < 24 && d.minute < 60 && d.second < 60
  }

  predicate AllDigits(s: string) {
    forall i :: 0 <= i < |s| ==> IsDigit(s[i])
  }

  /** `${y}-${pad(m)}-${pad(d)}T${pad(hh)}:${pad(mm)}:${pad(ss)}`. */
  function FormatLocalDateTime(d: LocalDateTime): (r: string)
    requires ValidDateTime(d)
    ensures var n := |NatToString(d.year)|;
      && |r| == n + 15
      && r[n] == '-' && r[n + 3] == '-' && r[n + 6] == 'T' && r[n + 9] == ':' && r[n + 12] == ':'
  {
    NatToString(d.year) + TimeSuffix(d)
  }

  /** Everything after the year: `-MM-DDTHH:mm:ss`. */
  function TimeSuffix(d: LocalDateTime): (r: string)
    requires ValidDateTime(d)
    ensures |r| == 15
  {
    "-" + Pad2(d.month) + "-" + Pad2(d.day) + "T" + Pad2(d.hour) + ":" + Pad2(d.minute) + ":" + Pad2(d.second)
  }

  /** The two digits at `i`, when they are digits. */
  function TwoDigits(s: string, i: nat): Option<nat>
    requires i + 2 <= |s|
  {
    if AllDigits(s[i..i + 2]) then Some(DigitsValue(s[i..i + 2])) else None
  }

  /** The fields after the year, read back from `-MM-DDTHH:mm:ss`. */
  function ParseSuffix(year: nat, s: string): Option<LocalDateTime>
    requires |s| == 15
  {
    if s[0] != '-' || s[3] != '-' || s[6] != 'T' || s[9] != ':' || s[12] != ':' then None
    else
      var mo := TwoDigits(s, 1);
      var da := TwoDigits(s, 4);
      var h := TwoDigits(s, 7);
      var mi := TwoDigits(s, 10);
      var se := TwoDigits(s, 13);
      if mo.None? || da.None? || h.None? || mi.None? || se.None? then None
      else Some(LocalDateTime(year, mo.value, da.value, h.value, mi.value, se.value))
  }

  /** Reads a string of the shape `formatLocalDateTime` produces back into its fields. */
  function ParseLocalDateTime(s: string): Option<LocalDateTime> {
    if |s| < 16 then None
    else
      var n := |s| - 15;
      if !AllDigits(s[..n]) then None else ParseSuffix(DigitsValue(s[..n]), s[n..])
  }

  lemma TwoDigitsAt(s: string, i: nat, n: nat)
    requires i + 2 <= |s| && n < 100 && s[i..i + 2] == Pad2(n)
    ensures TwoDigits(s, i) == Some(n)
  {
  }

  lemma SuffixRoundTrip(d: LocalDateTime)
    requires ValidDateTime(d)
    ensures ParseSuffix(d.year, TimeSuffix(d)) == Some(d)
  {
    var s := TimeSuffix(d);
    assert s[1..3] == Pad2(d.month);
    TwoDigitsAt(s, 1, d.month);
    assert s[4..6] == Pad2(d.day);
    TwoDigitsAt(s, 4, d.day);
    assert s[7..9] == Pad2(d.hour);
    TwoDigitsAt(s, 7, d.hour);
    assert s[10..12] == Pad2(d.minute);
    TwoDigitsAt(s, 10, d.minute);
    assert s[13..15] == Pad2(d.second);
    TwoDigitsAt(s, 13, d.second);
  }

  /** Every field after the year is two zero-padded digits, so the string reads back as the date it was made from. */
  lemma FormatRoundTrip(d: LocalDateTime)
    requires ValidDateTime(d)
    ensures ParseLocalDateTime(FormatLocalDateTime(d)) == Some(d)
  {
    var y := NatToString(d.year);
    NatToStringRoundTrip(d.year);
    SuffixRoundTrip(d);
    var s := FormatLocalDateTime(d);
    assert s[..|y|] == y;
    assert s[|y|..] == TimeSuffix(d);
  }

  // ------------------------------------------------------------- compactCause

  /** `THRESHOLDS`. */
  const SpeedThreshold := 100
  const FuelThreshold := 20
  const TemperatureThreshold := 100

  /** The sentence `compactCause` builds, by kind, with the value text it embeds. */
  datatype Cause = Overspeed(value: Option<string>) | LowFuel(value: Option<string>) | Overheat(value: Option<string>)
                 | ThresholdExceeded

  /** `compactCause(type, valueStr)`: "speed" wins over "fuel", which wins over "temp". */
  function CompactCause(kind: Option<string>, valueStr: Option<string>): (c: Cause)
    ensures c.Overspeed? <==> Includes(TypeText(kind), "speed")
    ensures c.LowFuel? <==> !Includes(TypeText(kind), "speed") && Includes(TypeText(kind), "fuel")
    ensures c.Overheat? <==>
      !Includes(TypeText(kind), "speed") && !Includes(TypeText(kind), "fuel") && Includes(TypeText(kind), "temp")
    ensures !c.ThresholdExceeded? ==> c.value == valueStr
  {
    var t := TypeText(kind);
    if Includes(t, "speed") then Overspeed(valueStr)
    else if Includes(t, "fuel") then LowFuel(valueStr)
    else if Includes(t, "temp") then Overheat(valueStr)
    else ThresholdExceeded
  }

  /** The value text inside the sentence: a missing value prints as `null`. */
  function ShownValue(v: Option<string>): string {
    if v.Some? then v.value else "null"
  }

  /** The sentence itself; only the fallback reads "Threshold exceeded". */
  function CauseText(c: Cause): (r: string)
    ensures c.ThresholdExceeded? <==> r == "Threshold exceeded"
    ensures c.Overspeed? ==> |r| > 6 && r[..6] == "Speed "
    ensures c.LowFuel? ==> |r| > 5 && r[..5] == "Fuel "
    ensures c.Overheat? ==> |r| > 5 && r[..5] == "Temp "
  {
    match c
    case Overspeed(v) => "Speed " + ShownValue(v) + " > " + IntToString(SpeedThreshold) + " (overspeed)"
    case LowFuel(v) => "Fuel " + ShownValue(v) + "% < " + IntToString(FuelThreshold) + "% (low fuel)"
    case Overheat(v) => "Temp " + ShownValue(v) + "°C > " + IntToString(TemperatureThreshold) + "°C (overheat)"
    case ThresholdExceeded => "Threshold exceeded"
  }

  // ---------------------------------------------------------- derived values

  /** The reading an alert is shown with, by kind. */
  datatype Reading = FuelPercent(fuel: Option<int>) | TempCelsius(temp: Option<int>) | SpeedKmh(speed: Option<int>)

  /**
   * The value shown for an alert of the given type, taken from the telemetry
   * record found for it: fuel wins over temperature, which wins over speed; no
   * record, or a type naming none of them, gives no value.
   */
  function DerivedValue(kind: Option<string>, rec: Option<TelemetryRecord>): (r: Option<Reading>)
    ensures r.Some? <==>
      rec.Some? && (Includes(TypeText(kind), "fuel") || Includes(TypeText(kind), "temp") || Includes(TypeText(kind), "speed"))
    ensures r.Some? && r.value.FuelPercent? <==> rec.Some? && Includes(TypeText(kind), "fuel")
    ensures r.Some? && r.value.TempCelsius? <==>
      rec.Some? && !Includes(TypeText(kind), "fuel") && Includes(TypeText(kind), "temp")
    ensures r.Some? ==> match r.value
      case FuelPercent(v) => v == rec.value.fuelLevel
      case TempCelsius(v) => v == rec.value.temperature
      case SpeedKmh(v) => v == rec.value.speed
  {
    if rec.None? then None
    else
      var t := TypeText(kind);
      if Includes(t, "fuel") then Some(FuelPercent(rec.value.fuelLevel))
      else if Includes(t, "temp") then Some(TempCelsius(rec.value.temperature))
      else if Includes(t, "speed") then Some(SpeedKmh(rec.value.speed))
      else None
  }

  /** `${v}` for a reading that may be missing. */
  function NumberText(v: Option<int>): string {
    if v.Some? then IntToString(v.value) else "null"
  }

  /** `${fuelLevel}%`, `${temperature}°C`, `${speed} km/h`. */
  function ReadingText(r: Reading): string {
    match r
    case FuelPercent(v) => NumberText(v) + "%"
    case TempCelsius(v) => NumberText(v) + "°C"
    case SpeedKmh(v) => NumberText(v) + " km/h"
  }

  function ValueText(r: Option<Reading>): Option<string> {
    if r.Some? then Some(ReadingText(r.value)) else None
  }

  /**
   * A sensible alert type names one kind, and then the cause sentence and the
   * derived value agree on it; they use different precedences, so a type that
   * names both speed and fuel gets an overspeed sentence with a fuel reading.
   */
  lemma CauseAndValueAgree(kind: Option<string>, rec: TelemetryRecord)
    ensures var t := TypeText(kind);
      var v := DerivedValue(kind, Some(rec));
      var c := CompactCause(kind, ValueText(v));
      && (Includes(t, "speed") && !Includes(t, "fuel") && !Includes(t, "temp") ==>
            v == Some(SpeedKmh(rec.speed)) && c == Overspeed(Some(ReadingText(v.value))))
      && (Includes(t, "fuel") && !Includes(t, "speed") ==>
            v == Some(FuelPercent(rec.fuelLevel)) && c == LowFuel(Some(ReadingText(v.value))))
      && (Includes(t, "speed") && Includes(t, "fuel") ==> c.Overspeed? && v.value.FuelPercent?)
  {
  }

  // ------------------------------------------------------------------ nearest

  /** `Number.MAX_SAFE_INTEGER`, the starting `bestDiff`. */
  const MaxSafeInteger: int := 0x1F_FFFF_FFFF_FFFF

  /** `Math.abs(rec time - t)`. */
  function Distance(rec: TelemetryRecord, t: int): nat {
    if rec.timestamp >= t then rec.timestamp - t else t - rec.timestamp
  }

  /** The search's `best` (as an index) and `bestDiff`. */
  datatype Scan = Scan(best: Option<nat>, diff: int)

  /**
   * The state of the search after the first `n` records: `best` is the first
   * record at the smallest distance below `MAX_SAFE_INTEGER` seen so far (the
   * comparison is a strict `<`), and `diff` its distance.
   */
  function ScanUpTo(records: seq<TelemetryRecord>, t: int, n: nat): (r: Scan)
    requires n <= |records|
    ensures r.best.None? ==> r.diff == MaxSafeInteger && forall i :: 0 <= i < n ==> Distance(records[i], t) >= MaxSafeInteger
    ensures r.best.Some? ==>
      && r.best.value < n && r.diff == Distance(records[r.best.value], t) < MaxSafeInteger
      && (forall i :: 0 <= i < n ==> Distance(records[i], t) >= r.diff)
      && (forall i :: 0 <= i < r.best.value ==> Distance(records[i], t) > r.diff)
  {
    if n == 0 then Scan(None, MaxSafeInteger)
    else
      var p := ScanUpTo(records, t, n - 1);
      var d := Distance(records[n - 1], t);
      if d < p.diff then Scan(Some(n - 1), d) else p
  }

  /** `nearest(ts)` as a function: the record nearest to `t`, the first on ties. */
  function NearestRecord(records: seq<TelemetryRecord>, t: int): Option<TelemetryRecord> {
    var s := ScanUpTo(records, t, |records|);
    if s.best.Some? then Some(records[s.best.value]) else None
  }

  /**
   * An empty list, or one whose every record is `MAX_SAFE_INTEGER` ms away or
   * more, has no nearest record; otherwise the result sits at the minimal
   * distance, and every earlier record is strictly farther.
   */
  lemma NearestFacts(records: seq<TelemetryRecord>, t: int)
    ensures records == [] ==> NearestRecord(records, t).None?
    ensures NearestRecord(records, t).None? <==> forall i :: 0 <= i < |records| ==> Distance(records[i], t) >= MaxSafeInteger
    ensures NearestRecord(records, t).Some? ==>
      exists k :: 0 <= k < |records| && NearestRecord(records, t) == Some(records[k])
        && (forall i :: 0 <= i < |records| ==> Distance(records[i], t) >= Distance(records[k], t))
        && (forall i :: 0 <= i < k ==> Distance(records[i], t) > Distance(records[k], t))
  {
    var s := ScanUpTo(records, t, |records|);
    if s.best.Some? {
      var k := s.best.value;
      assert NearestRecord(records, t) == Some(records[k]);
    }
  }

  /** The loop of `nearest`: keeps the first record whose distance beats the best so far. */
  method Nearest(records: seq<TelemetryRecord>, t: int) returns (best: Option<TelemetryRecord>)
    ensures best == NearestRecord(records, t)
  {
    best := None;
    var bestDiff := MaxSafeInteger;
    ghost var bestIndex: Option<nat> := None;
    var i := 0;
    while i < |records|
      invariant 0 <= i <= |records|
      invariant ScanUpTo(records, t, i) == Scan(bestIndex, bestDiff)
      invariant best == if bestIndex.Some? then Some(records[bestIndex.value]) else None
    {
      var rec := records[i];
      var diff := if rec.timestamp >= t then rec.timestamp - t else t - rec.timestamp;
      if diff < bestDiff {
        best := Some(rec);
        bestDiff := diff;
        bestIndex := Some(i);
      }
      i := i + 1;
    }
  }

  // ---------------------------------------------------------------- severities

  /** The four severities the pages group and count by. */
  datatype Severity = Low | Medium | High | Critical

  function Name(sev: Severity): string {
    match sev
    case Low => "LOW"
    case Medium => "MEDIUM"
    case High => "HIGH"
    case Critical => "CRITICAL"
  }

  /** The severity an uppercased severity text names, if it names one of the four (`groups[sev]`, `counts[s] !== undefined`). */
  function SeverityOf(key: string): Option<Severity> {
    if key == "LOW" then Some(Low)
    else if key == "MEDIUM" then Some(Medium)
    else if key == "HIGH" then Some(High)
    else if key == "CRITICAL" then Some(Critical)
    else None
  }

  /** The four severity names are the only keys `groups` answers. */
  lemma SeverityOfNames(key: string, sev: Severity)
    ensures SeverityOf(key) == Some(sev) <==> key == Name(sev)
  {
  }

  /** The alerts of severity `sev`, in input order. */
  function OfSeverity(alerts: seq<Alert>, sev: Severity): seq<Alert> {
    if alerts == [] then []
    else
      var a := alerts[|alerts| - 1];
      OfSeverity(alerts[..|alerts| - 1], sev) + (if SeverityOf(SeverityKey(a)) == Some(sev) then [a] else [])
  }

  /** The number of alerts whose severity names no group. */
  function UngroupedCount(alerts: seq<Alert>): nat {
    if alerts == [] then 0
    else UngroupedCount(alerts[..|alerts| - 1]) + (if SeverityOf(SeverityKey(alerts[|alerts| - 1])).None? then 1 else 0)
  }

  /**
   * A group holds exactly the alerts of its severity: an alert is in the group
   * of `sev` if and only if it is in the input with that uppercased severity.
   */
  lemma {:induction false} OfSeverityMembers(alerts: seq<Alert>, sev: Severity)
    ensures forall a :: a in OfSeverity(alerts, sev) <==> a in alerts && SeverityKey(a) == Name(sev)
    ensures |OfSeverity(alerts, sev)| <= |alerts|
  {
    if alerts != [] {
      var init := alerts[..|alerts| - 1];
      var last := alerts[|alerts| - 1];
      assert alerts == init + [last];
      OfSeverityMembers(init, sev);
      SeverityOfNames(SeverityKey(last), sev);
      forall a
        ensures a in OfSeverity(alerts, sev) <==> a in alerts && SeverityKey(a) == Name(sev)
      {
        SeverityOfNames(SeverityKey(a), sev);
      }
    }
  }

  /** `|OfSeverity(alerts, sev)|` summed over the four severities. */
  function KnownCount(alerts: seq<Alert>): nat {
    |OfSeverity(alerts, Low)| + |OfSeverity(alerts, Medium)| + |OfSeverity(alerts, High)| + |OfSeverity(alerts, Critical)|
  }

  /**
   * The four severities and the unknown ones account for every alert exactly
   * once; so the known ones are at most all the alerts, and exactly all of them
   * when every severity is one of the four.
   */
  lemma {:induction false} SeverityPartition(alerts: seq<Alert>)
    ensures KnownCount(alerts) + UngroupedCount(alerts) == |alerts|
    ensures (forall i :: 0 <= i < |alerts| ==> SeverityKey(alerts[i]) in {"LOW", "MEDIUM", "HIGH", "CRITICAL"})
        ==> UngroupedCount(alerts) == 0
  {
    if alerts != [] {
      var init := alerts[..|alerts| - 1];
      SeverityPartition(init);
      assert forall i :: 0 <= i < |init| ==> init[i] == alerts[i];
    }
  }
}
