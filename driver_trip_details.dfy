/**
 * DriverTripDetails.js: the telemetry and alert tables of one trip, each shown
 * newest first, ten rows per page; the penalty of each alert; and the
 * severity badge.
 */
module DriverTripDetails {
  import opened Wrappers
  import opened Ascii
  import opened Paging
  import opened Sorting
  import opened PageHelpers

  const PageSize := 10

  /**
   * `pagedTelemetry` / `pagedAlerts`: the page `page` of a newest-first copy
   * of the list (the list itself keeps its order).
   */
  function PagedNewestFirst<T>(key: T -> int, s: seq<T>, page: int): seq<T> {
    PageOf(SortNewestFirst(key, s), page, PageSize)
  }

  /** `Math.max(1, Math.ceil(n / 10))`. */
  function PageCount(n: nat): nat {
    TotalPages(n, PageSize)
  }

  /** Walking pages 1 to `ceil(n / 10)` shows the whole newest-first copy, each item once, in order. */
  lemma PagesShowAll<T>(key: T -> int, s: seq<T>)
    ensures Pages(SortNewestFirst(key, s), PageSize, CeilDiv(|s|, PageSize)) == SortNewestFirst(key, s)
  {
    SortNewestFirstFacts(key, s);
    PagesCoverAll(SortNewestFirst(key, s), PageSize);
  }

  /** The telemetry tab: newest records first, ten per page. */
  function PagedTelemetry(telemetry: seq<TelemetryRecord>, page: int): seq<TelemetryRecord> {
    PagedNewestFirst(RecordTime, telemetry, page)
  }

  /** The alerts tab: newest alerts first, ten per page. */
  function PagedAlerts(alerts: seq<Alert>, page: int): seq<Alert> {
    PagedNewestFirst(AlertTime, alerts, page)
  }

  /** From a page in range, Prev and Next of either table keep it in [1, total]. */
  lemma PagerInRange(n: nat, page: int)
    requires 1 <= page <= PageCount(n)
    ensures 1 <= Prev(page) <= PageCount(n) && 1 <= Next(page, PageCount(n)) <= PageCount(n)
  {
    PrevNextInRange(page, PageCount(n));
  }

  // --------------------------------------------------------------- loading

  /** The page's lists and table pages. */
  datatype Details = Details(telemetry: seq<TelemetryRecord>, alerts: seq<Alert>, tPage: int, aPage: int)

  /**
   * `load`: on success the fetched lists (missing data as empty lists) with
   * both tables back on page 1; on failure both lists empty and the pages kept.
   */
  function Load(d: Details, response: Option<(Option<seq<TelemetryRecord>>, Option<seq<Alert>>)>): (r: Details)
    ensures response.None? ==> r == d.(telemetry := [], alerts := [])
    ensures response.Some? ==> r.tPage == 1 && r.aPage == 1
    ensures response.Some? ==> r.telemetry == (if response.value.0.Some? then response.value.0.value else [])
    ensures response.Some? ==> r.alerts == (if response.value.1.Some? then response.value.1.value else [])
  {
    match response
    case None => d.(telemetry := [], alerts := [])
    case Some((t, a)) =>
      Details(if t.Some? then t.value else [], if a.Some? then a.value else [], 1, 1)
  }

  /** After a load both tables show a page in range. */
  lemma LoadPagesInRange(d: Details, response: Option<(Option<seq<TelemetryRecord>>, Option<seq<Alert>>)>)
    requires 1 <= d.tPage && 1 <= d.aPage
    ensures var r := Load(d, response);
      1 <= r.tPage && 1 <= r.aPage
      && (response.Some? ==> r.tPage <= PageCount(|r.telemetry|) && r.aPage <= PageCount(|r.alerts|))
  {
  }

  // ------------------------------------------------------ penalty and badge

  /** `sev === "HIGH" ? 10 : sev === "CRITICAL" ? 20 : 0` on the uppercased severity. */
  function Penalty(a: Alert): (r: nat)
    ensures r == 10 <==> SeverityKey(a) == "HIGH"
    ensures r == 20 <==> SeverityKey(a) == "CRITICAL"
    ensures r == 0 <==> SeverityKey(a) != "HIGH" && SeverityKey(a) != "CRITICAL"
  {
    var sev := SeverityKey(a);
    if sev == "HIGH" then 10 else if sev == "CRITICAL" then 20 else 0
  }

  /** The fine of each level of the four-level scale. */
  function LevelPenalty(sev: Option<Severity>): nat {
    match sev
    case Some(High) => 10
    case Some(Critical) => 20
    case _ => 0
  }

  /** The penalty depends only on the severity's level, whatever its letter case. */
  lemma PenaltyByLevel(a: Alert)
    ensures Penalty(a) == LevelPenalty(SeverityOf(SeverityKey(a)))
  {
    SeverityOfNames(SeverityKey(a), High);
    SeverityOfNames(SeverityKey(a), Critical);
  }

  /** The four badge styles and the default one. */
  datatype BadgeStyle = GreenBadge | YellowBadge | OrangeBadge | RedBadge | GreyBadge

  /** `SeverityBadge`: the uppercased severity as its text, and the style of that text. */
  datatype Badge = Badge(text: string, style: BadgeStyle)

  function StyleOf(level: string): (s: BadgeStyle)
    ensures s == GreyBadge <==> SeverityOf(level).None?
  {
    match SeverityOf(level)
    case Some(Low) => GreenBadge
    case Some(Medium) => YellowBadge
    case Some(High) => OrangeBadge
    case Some(Critical) => RedBadge
    case None => GreyBadge
  }

  function SeverityBadge(severity: Option<string>): (b: Badge)
    ensures b.text == ToUpper(OrEmpty(severity))
    ensures b.style == GreyBadge <==> SeverityOf(b.text).None?
  {
    var level := ToUpper(OrEmpty(severity));
    Badge(level, StyleOf(level))
  }

  /** Badging a badge's own text gives the same badge: the text is already uppercase. */
  lemma BadgeIdempotent(severity: Option<string>)
    ensures SeverityBadge(Some(SeverityBadge(severity).text)) == SeverityBadge(severity)
  {
    ToUpperIdempotent(OrEmpty(severity));
  }

  /** The badge and the penalty agree: an alert is fined exactly when its badge is orange or red. */
  lemma BadgeMatchesPenalty(a: Alert)
    ensures Penalty(a) > 0 <==> SeverityBadge(a.severity).style in {OrangeBadge, RedBadge}
    ensures Penalty(a) == 20 <==> SeverityBadge(a.severity).style == RedBadge
  {
    PenaltyByLevel(a);
  }
}
