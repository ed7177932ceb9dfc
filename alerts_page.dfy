/**
 * AlertsPage.js: the alert list the page loads, the counters and severity
 * groups it derives from it, the reading shown beside a driver's alert, and
 * the two paginations (the whole list, eight per page, and each severity
 * group, five per page).
 */
module AlertsPage {
  import opened Wrappers
  import opened Ascii
  import opened Seqs
  import opened Paging
  import opened Sorting
  import opened PageHelpers

  const PageSize := 8
  const SeverityPageSize := 5

  // ----------------------------------------------------------- countsByType

  /** The counter an alert's lowercased type increments. */
  datatype Bucket = SpeedBucket | FuelBucket | TemperatureBucket | MaintenanceBucket | OtherBucket

  /** The `if`/`else if` chain: speed, then fuel, then temp, then maint, else other. */
  function TypeBucket(a: Alert): Bucket {
    var t := TypeText(a.kind);
    if Includes(t, "speed") then SpeedBucket
    else if Includes(t, "fuel") then FuelBucket
    else if Includes(t, "temp") then TemperatureBucket
    else if Includes(t, "maint") then MaintenanceBucket
    else OtherBucket
  }

  /** The counter object `{ speed, fuel, temperature, maintenance, other }`. */
  datatype TypeCounts = TypeCounts(speed: nat, fuel: nat, temperature: nat, maintenance: nat, other: nat)

  /** Each counter is the number of alerts in its bucket. */
  function CountsOf(alerts: seq<Alert>): TypeCounts {
    TypeCounts(
      CountKey(TypeBucket, alerts, SpeedBucket),
      CountKey(TypeBucket, alerts, FuelBucket),
      CountKey(TypeBucket, alerts, TemperatureBucket),
      CountKey(TypeBucket, alerts, MaintenanceBucket),
      CountKey(TypeBucket, alerts, OtherBucket))
  }

  /** The counters after one more alert of bucket `b`. */
  function Increment(c: TypeCounts, b: Bucket): TypeCounts {
    match b
    case SpeedBucket => c.(speed := c.speed + 1)
    case FuelBucket => c.(fuel := c.fuel + 1)
    case TemperatureBucket => c.(temperature := c.temperature + 1)
    case MaintenanceBucket => c.(maintenance := c.maintenance + 1)
    case OtherBucket => c.(other := c.other + 1)
  }

  lemma CountsSnoc(alerts: seq<Alert>, a: Alert)
    ensures CountsOf(alerts + [a]) == Increment(CountsOf(alerts), TypeBucket(a))
  {
    assert (alerts + [a])[..|alerts|] == alerts;
  }

  function Total(c: TypeCounts): nat {
    c.speed + c.fuel + c.temperature + c.maintenance + c.other
  }

  /** `countsByType`: one increment per alert, of the first bucket its type names. */
  method CountsByType(alerts: seq<Alert>) returns (c: TypeCounts)
    ensures c == CountsOf(alerts)
    ensures Total(c) == |alerts|
  {
    c := TypeCounts(0, 0, 0, 0, 0);
    var i := 0;
    while i < |alerts|
      invariant 0 <= i <= |alerts|
      invariant c == CountsOf(alerts[..i])
    {
      var a := alerts[i];
      var t := TypeText(a.kind);
      assert alerts[..i + 1] == alerts[..i] + [a];
      CountsSnoc(alerts[..i], a);
      ghost var before := c;
      if Includes(t, "speed") {
        assert TypeBucket(a) == SpeedBucket;
        c := c.(speed := c.speed + 1);
      } else if Includes(t, "fuel") {
        assert TypeBucket(a) == FuelBucket;
        c := c.(fuel := c.fuel + 1);
      } else if Includes(t, "temp") {
        assert TypeBucket(a) == TemperatureBucket;
        c := c.(temperature := c.temperature + 1);
      } else if Includes(t, "maint") {
        assert TypeBucket(a) == MaintenanceBucket;
        c := c.(maintenance := c.maintenance + 1);
      } else {
        assert TypeBucket(a) == OtherBucket;
        c := c.(other := c.other + 1);
      }
      assert c == Increment(before, TypeBucket(a));
      i := i + 1;
    }
    assert alerts[..i] == alerts;
    CountsCoverAll(alerts);
  }

  /** Every alert lands in exactly one bucket, so the counters add up to the number of alerts. */
  lemma {:induction false} CountsCoverAll(alerts: seq<Alert>)
    ensures Total(CountsOf(alerts)) == |alerts|
  {
    if alerts != [] {
      CountsCoverAll(alerts[..|alerts| - 1]);
    }
  }

  // -------------------------------------------------------- alertsBySeverity

  /** The four arrays of `groups`. */
  datatype SeverityGroups = SeverityGroups(low: seq<Alert>, medium: seq<Alert>, high: seq<Alert>, critical: seq<Alert>)

  function Group(g: SeverityGroups, sev: Severity): seq<Alert> {
    match sev
    case Low => g.low
    case Medium => g.medium
    case High => g.high
    case Critical => g.critical
  }

  /** The groups of `alertsBySeverity` as values. */
  function GroupsOf(alerts: seq<Alert>): SeverityGroups {
    SeverityGroups(OfSeverity(alerts, Low), OfSeverity(alerts, Medium), OfSeverity(alerts, High), OfSeverity(alerts, Critical))
  }

  /** `alertsBySeverity`: each alert is pushed onto the group named by its uppercased severity, if there is one. */
  method AlertsBySeverity(alerts: seq<Alert>) returns (g: SeverityGroups)
    ensures g == GroupsOf(alerts)
  {
    g := SeverityGroups([], [], [], []);
    var i := 0;
    while i < |alerts|
      invariant 0 <= i <= |alerts|
      invariant g == GroupsOf(alerts[..i])
    {
      var a := alerts[i];
      var sev := SeverityKey(a);
      assert alerts[..i + 1][..i] == alerts[..i];
      if sev == "LOW" {
        g := g.(low := g.low + [a]);
      } else if sev == "MEDIUM" {
        g := g.(medium := g.medium + [a]);
      } else if sev == "HIGH" {
        g := g.(high := g.high + [a]);
      } else if sev == "CRITICAL" {
        g := g.(critical := g.critical + [a]);
      }
      i := i + 1;
    }
    assert alerts[..i] == alerts;
  }

  function GroupedCount(g: SeverityGroups): nat {
    |g.low| + |g.medium| + |g.high| + |g.critical|
  }

  /**
   * The groups hold only alerts of their own severity, at most all the alerts,
   * and exactly all of them when every severity is one of the four.
   */
  lemma GroupsFacts(alerts: seq<Alert>)
    ensures forall sev, a :: a in Group(GroupsOf(alerts), sev) ==> a in alerts && SeverityKey(a) == Name(sev)
    ensures GroupedCount(GroupsOf(alerts)) + UngroupedCount(alerts) == |alerts|
    ensures (forall i :: 0 <= i < |alerts| ==> SeverityKey(alerts[i]) in {"LOW", "MEDIUM", "HIGH", "CRITICAL"})
        ==> GroupedCount(GroupsOf(alerts)) == |alerts|
  {
    SeverityPartition(alerts);
    forall sev
      ensures forall a :: a in Group(GroupsOf(alerts), sev) ==> a in alerts && SeverityKey(a) == Name(sev)
    {
      OfSeverityMembers(alerts, sev);
      assert Group(GroupsOf(alerts), sev) == OfSeverity(alerts, sev) by {
        match sev
        case Low =>
        case Medium =>
        case High =>
        case Critical =>
      }
    }
  }

  // ---------------------------------------------------- deriveValueForAlert

  /**
   * `deriveValueForAlert`: no window gives no value; otherwise the value comes
   * from the first record at the smallest distance from the alert's time, and is
   * the reading its type names (fuel, then temp, then speed).
   */
  method DeriveValueForAlert(window: seq<TelemetryRecord>, a: Alert) returns (v: Option<Reading>)
    ensures window == [] ==> v.None?
    ensures window != [] ==> v == DerivedValue(a.kind, NearestRecord(window, a.timestamp))
    ensures v.Some? ==>
      exists k :: 0 <= k < |window| && v == DerivedValue(a.kind, Some(window[k]))
        && (forall i :: 0 <= i < |window| ==> Distance(window[i], a.timestamp) >= Distance(window[k], a.timestamp))
        && (forall i :: 0 <= i < k ==> Distance(window[i], a.timestamp) > Distance(window[k], a.timestamp))
  {
    if |window| == 0 {
      return None;
    }
    var best := Nearest(window, a.timestamp);
    NearestFacts(window, a.timestamp);
    v := DerivedValue(a.kind, best);
  }

  // ---------------------------------------------------- loadAlerts (admin)

  /** `activeIds.has(a.carId ?? a.car?.id)`. */
  function OfListedCar(carIds: seq<int>): Alert -> bool {
    a => AlertCar(a).Some? && AlertCar(a).value in carIds
  }

  /** The admin's list: every alert sorted newest first, then those of a fetched car. */
  function AdminAlerts(raw: seq<Alert>, carIds: seq<int>): seq<Alert> {
    Filter(OfListedCar(carIds), SortNewestFirst(AlertTime, raw))
  }

  /**
   * The admin's list is ordered newest first and holds exactly the alerts that
   * name one of the fetched cars.
   */
  lemma AdminAlertsFacts(raw: seq<Alert>, carIds: seq<int>)
    ensures SortedDesc(AlertTime, AdminAlerts(raw, carIds))
    ensures forall a :: a in AdminAlerts(raw, carIds) <==> a in raw && AlertCar(a).Some? && AlertCar(a).value in carIds
  {
    var sorted := SortNewestFirst(AlertTime, raw);
    SortNewestFirstFacts(AlertTime, raw);
    FilterSorted(AlertTime, OfListedCar(carIds), sorted);
    forall a
      ensures a in AdminAlerts(raw, carIds) <==> a in raw && AlertCar(a).Some? && AlertCar(a).value in carIds
    {
      var r := AdminAlerts(raw, carIds);
      assert a in raw <==> a in multiset(sorted);
      if a in r {
        var i :| 0 <= i < |r| && r[i] == a;
      }
      if a in sorted && OfListedCar(carIds)(a) {
        var i :| 0 <= i < |sorted| && sorted[i] == a;
      }
    }
  }

  // --------------------------------------------------------- paging by severity

  /** `sevPage[sev] || 1`: a missing or zero entry reads as page 1. */
  function PageIndex(pages: map<Severity, int>, sev: Severity): int {
    if sev in pages && pages[sev] != 0 then pages[sev] else 1
  }

  /** `Math.max(1, Math.ceil(list.length / sevPageSize))`. */
  function SeverityTotal(g: SeverityGroups, sev: Severity): nat {
    TotalPages(|Group(g, sev)|, SeverityPageSize)
  }

  /** Every group's page is at least 1: the initial 1 and `Math.max(1, …)` keep it so. */
  predicate PagesPositive(pages: map<Severity, int>) {
    forall sev :: PageIndex(pages, sev) >= 1
  }

  /**
   * Every group's page lies in [1, its number of pages]. This holds from the
   * initial pages and under the buttons, but only until `loadAlerts` runs again
   * (after an acknowledge or a change of car): it keeps `sevPage`, so a group
   * that shrinks can be left on a page past its last.
   */
  predicate PagesInRange(g: SeverityGroups, pages: map<Severity, int>) {
    forall sev :: 1 <= PageIndex(pages, sev) <= SeverityTotal(g, sev)
  }

  const InitialSeverityPages: map<Severity, int> := map[Low := 1, Medium := 1, High := 1, Critical := 1]

  /**
   * `pagedBySeverity`: each group sliced at its own page. A page in range is
   * empty only for an empty group; a stale page past the group's last is empty.
   */
  function PagedBySeverity(g: SeverityGroups, pages: map<Severity, int>): (r: SeverityGroups)
    requires PagesPositive(pages)
    ensures forall sev :: |Group(r, sev)| <= SeverityPageSize
    ensures forall sev :: PageIndex(pages, sev) <= SeverityTotal(g, sev) ==> (Group(r, sev) == [] <==> Group(g, sev) == [])
    ensures forall sev :: PageIndex(pages, sev) > SeverityTotal(g, sev) ==> Group(r, sev) == []
  {
    var r := SeverityGroups(
      SeverityPage(g, pages, Low), SeverityPage(g, pages, Medium),
      SeverityPage(g, pages, High), SeverityPage(g, pages, Critical));
    PagedGroupsShape(g, pages, r);
    r
  }

  /** `GroupPageShape` for each of the four groups of the paged result. */
  lemma PagedGroupsShape(g: SeverityGroups, pages: map<Severity, int>, r: SeverityGroups)
    requires PagesPositive(pages)
    requires r == SeverityGroups(SeverityPage(g, pages, Low), SeverityPage(g, pages, Medium),
                                 SeverityPage(g, pages, High), SeverityPage(g, pages, Critical))
    ensures forall sev :: |Group(r, sev)| <= SeverityPageSize
    ensures forall sev :: PageIndex(pages, sev) <= SeverityTotal(g, sev) ==> (Group(r, sev) == [] <==> Group(g, sev) == [])
    ensures forall sev :: PageIndex(pages, sev) > SeverityTotal(g, sev) ==> Group(r, sev) == []
  {
    forall sev
      ensures Group(r, sev) == SeverityPage(g, pages, sev)
      ensures |Group(r, sev)| <= SeverityPageSize
      ensures PageIndex(pages, sev) <= SeverityTotal(g, sev) ==> (Group(r, sev) == [] <==> Group(g, sev) == [])
      ensures PageIndex(pages, sev) > SeverityTotal(g, sev) ==> Group(r, sev) == []
    {
      GroupPageShape(g, pages, sev);
      match sev
      case Low =>
      case Medium =>
      case High =>
      case Critical =>
    }
  }

  /** One group sliced at its page: `list.slice(start, start + sevPageSize)`. */
  function SeverityPage(g: SeverityGroups, pages: map<Severity, int>, sev: Severity): seq<Alert> {
    PageOf(Group(g, sev), PageIndex(pages, sev), SeverityPageSize)
  }

  /**
   * A group's page holds at most five alerts; in range it is empty only when
   * the group is, and past the group's last page it is empty.
   */
  lemma GroupPageShape(g: SeverityGroups, pages: map<Severity, int>, sev: Severity)
    requires PageIndex(pages, sev) >= 1
    ensures var page := SeverityPage(g, pages, sev);
      && |page| <= SeverityPageSize
      && (PageIndex(pages, sev) <= SeverityTotal(g, sev) ==> (page == [] <==> Group(g, sev) == []))
      && (PageIndex(pages, sev) > SeverityTotal(g, sev) ==> page == [])
  {
    PageShape(Group(g, sev), PageIndex(pages, sev), SeverityPageSize);
  }

  /**
   * After a reload shrinks a group below its current page, that group shows
   * no alerts (the source then prints "Page p of n" with p > n).
   */
  lemma SeverityStalePageIsEmpty(g: SeverityGroups, pages: map<Severity, int>, sev: Severity)
    requires PagesPositive(pages) && PageIndex(pages, sev) > SeverityTotal(g, sev)
    ensures Group(PagedBySeverity(g, pages), sev) == []
  {
  }

  /**
   * From any positive pages, Prev and Next keep every page at least 1. On a
   * stale page Next is disabled and changes nothing, and Prev moves one page back.
   */
  lemma SeverityButtonsKeepPositive(g: SeverityGroups, pages: map<Severity, int>, sev: Severity)
    requires PagesPositive(pages)
    ensures PagesPositive(SeverityPrev(pages, sev)) && PagesPositive(SeverityNext(g, pages, sev))
    ensures PageIndex(pages, sev) > SeverityTotal(g, sev) ==> SeverityNext(g, pages, sev) == pages
    ensures PageIndex(pages, sev) > SeverityTotal(g, sev) ==> PageIndex(SeverityPrev(pages, sev), sev) == PageIndex(pages, sev) - 1
  {
    forall t
      ensures PageIndex(SeverityPrev(pages, sev), t) >= 1 && PageIndex(SeverityNext(g, pages, sev), t) >= 1
    {
      assert PageIndex(pages, t) >= 1;
    }
  }

  /** A group's Prev button. */
  function SeverityPrev(pages: map<Severity, int>, sev: Severity): map<Severity, int> {
    pages[sev := Max(1, PageIndex(pages, sev) - 1)]
  }

  /**
   * A group's Next button: disabled (no change) once the page has reached the
   * group's number of pages, otherwise one page on but not past the last.
   */
  function SeverityNext(g: SeverityGroups, pages: map<Severity, int>, sev: Severity): map<Severity, int> {
    if PageIndex(pages, sev) >= SeverityTotal(g, sev) then pages
    else pages[sev := Min(SeverityTotal(g, sev), PageIndex(pages, sev) + 1)]
  }

  /** Every group starts on page 1, which is in range however many alerts it has. */
  lemma InitialPagesInRange(g: SeverityGroups)
    ensures PagesInRange(g, InitialSeverityPages)
  {
    forall sev
      ensures 1 <= PageIndex(InitialSeverityPages, sev) <= SeverityTotal(g, sev)
    {
      match sev
      case Low =>
      case Medium =>
      case High =>
      case Critical =>
    }
  }

  /**
   * A group's Prev button moves its page one back but not below 1, and leaves
   * every page in range and the other groups' pages alone.
   */
  lemma SeverityPrevInRange(g: SeverityGroups, pages: map<Severity, int>, sev: Severity)
    requires PagesInRange(g, pages)
    ensures PagesInRange(g, SeverityPrev(pages, sev))
    ensures PageIndex(SeverityPrev(pages, sev), sev) == Max(1, PageIndex(pages, sev) - 1)
    ensures forall other :: other != sev ==> PageIndex(SeverityPrev(pages, sev), other) == PageIndex(pages, other)
  {
    var q := SeverityPrev(pages, sev);
    forall t
      ensures 1 <= PageIndex(q, t) <= SeverityTotal(g, t)
      ensures t != sev ==> PageIndex(q, t) == PageIndex(pages, t)
    {
      assert 1 <= PageIndex(pages, t) <= SeverityTotal(g, t);
    }
  }

  /**
   * A group's Next button moves its page one on but not past that group's last
   * page, and leaves every page in range and the other groups' pages alone.
   */
  lemma SeverityNextInRange(g: SeverityGroups, pages: map<Severity, int>, sev: Severity)
    requires PagesInRange(g, pages)
    ensures PagesInRange(g, SeverityNext(g, pages, sev))
    ensures PageIndex(SeverityNext(g, pages, sev), sev) == Min(SeverityTotal(g, sev), PageIndex(pages, sev) + 1)
    ensures forall other :: other != sev ==> PageIndex(SeverityNext(g, pages, sev), other) == PageIndex(pages, other)
  {
    var q := SeverityNext(g, pages, sev);
    forall t
      ensures 1 <= PageIndex(q, t) <= SeverityTotal(g, t)
      ensures t != sev ==> PageIndex(q, t) == PageIndex(pages, t)
    {
      assert 1 <= PageIndex(pages, t) <= SeverityTotal(g, t);
    }
  }
}
