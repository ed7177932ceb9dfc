/**
 * TripManagementPage.js: the admin's four lists (pending, active and completed
 * trips, idle cars), the completed trips newest first in pages of twelve, and
 * the guard of "approve and start" that demands a selected car.
 */
module TripManagementPage {
  import opened Wrappers
  import opened Paging
  import opened Sorting

  const TripsPerPage := 12

  /** A trip card; only the id and the end time matter here (milliseconds). */
  datatype TripCard = TripCard(id: int, endedAt: int)

  function EndedAt(t: TripCard): int {
    t.endedAt
  }

  /** The page's four lists. */
  datatype Lists = Lists(pending: seq<TripCard>, active: seq<TripCard>, idleCars: seq<int>, completed: seq<TripCard>)

  /** The four responses of one load; `None` for a missing `data` field. */
  datatype Fetched = Fetched(
    pending: Option<seq<TripCard>>, active: Option<seq<TripCard>>,
    idleCars: Option<seq<int>>, completed: Option<seq<TripCard>>)

  function OrNone<T>(x: Option<seq<T>>): seq<T> {
    if x.Some? then x.value else []
  }

  /**
   * `load`: each list from its response (a missing one as empty); when any
   * request fails (`None`), all four lists are emptied.
   */
  function Load(response: Option<Fetched>): (r: Lists)
    ensures response.None? ==> r == Lists([], [], [], [])
    ensures response.Some? ==>
      && r.pending == OrNone(response.value.pending) && r.active == OrNone(response.value.active)
      && r.idleCars == OrNone(response.value.idleCars) && r.completed == OrNone(response.value.completed)
  {
    match response
    case None => Lists([], [], [], [])
    case Some(f) => Lists(OrNone(f.pending), OrNone(f.active), OrNone(f.idleCars), OrNone(f.completed))
  }

  // ---------------------------------------------------------- completed list

  /** `sortedCompleted`: a newest-first copy by end time. */
  function SortedCompleted(completed: seq<TripCard>): seq<TripCard> {
    SortNewestFirst(EndedAt, completed)
  }

  /** `currentTrips`: the slice from `page * 12 - 12` to `page * 12`. */
  function CurrentTrips(completed: seq<TripCard>, page: int): seq<TripCard> {
    Slice(SortedCompleted(completed), page * TripsPerPage - TripsPerPage, page * TripsPerPage)
  }

  /**
   * The shown trips are at most twelve, newest first, all completed ones, and
   * exactly the twelve-item run of the sorted copy that starts at `(page - 1) * 12`.
   */
  lemma CurrentTripsFacts(completed: seq<TripCard>, page: int)
    requires page >= 1
    ensures var r := CurrentTrips(completed, page);
      |r| <= TripsPerPage && SortedDesc(EndedAt, r) && forall t :: t in r ==> t in completed
    ensures var sorted, start := SortedCompleted(completed), (page - 1) * TripsPerPage;
      start < |sorted| ==> CurrentTrips(completed, page) == sorted[start..Min(start + TripsPerPage, |sorted|)]
  {
    assert CurrentTrips(completed, page) == PageOf(SortedCompleted(completed), page, TripsPerPage);
    SortedPageFacts(EndedAt, completed, page, TripsPerPage);
  }

  /** `Math.ceil(n / 12)`: zero for an empty list. */
  function PageTotal(n: nat): nat {
    CeilDiv(n, TripsPerPage)
  }

  /** The pager is shown only when there is more than one page, that is, more than twelve completed trips. */
  function ShowPager(n: nat): (b: bool)
    ensures b <==> n > TripsPerPage
  {
    PageTotal(n) > 1
  }

  /** With no completed trips there are no pages at all. */
  lemma NoTripsNoPages()
    ensures PageTotal(0) == 0 && !ShowPager(0)
  {
  }

  /** On a shown pager, Prev (`max(p - 1, 1)`) and Next (`min(p + 1, total)`) keep the page in [1, total]. */
  lemma PagerInRange(n: nat, page: int)
    requires ShowPager(n) && 1 <= page <= PageTotal(n)
    ensures 1 <= Prev(page) <= PageTotal(n) && 1 <= Next(page, PageTotal(n)) <= PageTotal(n)
  {
    PrevNextInRange(page, PageTotal(n));
  }

  /** A page number left past the last page (the list shrank on a reload) shows no trips. */
  lemma StalePageIsEmpty(completed: seq<TripCard>, page: int)
    requires page > PageTotal(|completed|) && page >= 1
    ensures CurrentTrips(completed, page) == []
  {
    SortNewestFirstFacts(EndedAt, completed);
    assert CurrentTrips(completed, page) == PageOf(SortedCompleted(completed), page, TripsPerPage);
    PageShape(SortedCompleted(completed), page, TripsPerPage);
  }

  // ------------------------------------------------------------ approveStart

  /** How "approve and start" ends. */
  datatype ApproveOutcome =
    | NeedsCar                                  // warned, no request sent
    | Approved(tripId: int, carId: int)         // the POST carried this car
    | ApproveFailed(tripId: int, carId: int)    // the POST was sent and failed

  /**
   * `approveStart(tripId)`: without a selected car the admin is warned and
   * nothing is posted; otherwise the POST carries the selected car, and `post`
   * says whether it succeeded. The page keeps the `<option>` value, a car id's
   * text or the empty placeholder `""`; here a car id is kept as its number and
   * 0 stands for the placeholder, which car ids (generated from 1) never are.
   */
  function ApproveStart(carIdByTrip: map<int, int>, tripId: int, post: (int, int) -> bool): (r: ApproveOutcome)
    ensures r.NeedsCar? <==> tripId !in carIdByTrip || carIdByTrip[tripId] == 0
    ensures !r.NeedsCar? ==> r.tripId == tripId && r.carId == carIdByTrip[tripId] && r.carId != 0
    ensures r.Approved? <==> !r.NeedsCar? && post(tripId, carIdByTrip[tripId])
  {
    if tripId !in carIdByTrip || carIdByTrip[tripId] == 0 then NeedsCar
    else
      var carId := carIdByTrip[tripId];
      if post(tripId, carId) then Approved(tripId, carId) else ApproveFailed(tripId, carId)
  }

  /** Without a selected car the outcome does not depend on the server: no request is made. */
  lemma NoCarNoRequest(carIdByTrip: map<int, int>, tripId: int, p1: (int, int) -> bool, p2: (int, int) -> bool)
    requires tripId !in carIdByTrip || carIdByTrip[tripId] == 0
    ensures ApproveStart(carIdByTrip, tripId, p1) == ApproveStart(carIdByTrip, tripId, p2) == NeedsCar
  {
  }
}
