/**
 * TripsPage.js: a driver's current trip and trip history, the fare estimate
 * for the chosen route, and the guard on sending a trip request.
 */
module TripsPage {
  import opened Wrappers
  import opened Seqs

  /** A trip of the driver's list; a missing status reads as "". */
  datatype DriverTrip = DriverTrip(id: int, status: string)

  /** A fare of the fare list. */
  datatype Fare = Fare(startPoint: string, endPoint: string, baseCost: int)

  function HasStatus(status: string): DriverTrip -> bool {
    (t: DriverTrip) => t.status == status
  }

  /** `trips.find(t => t.status === status)`. */
  function FindStatus(trips: seq<DriverTrip>, status: string): (r: Option<DriverTrip>)
    ensures r.None? <==> forall i :: 0 <= i < |trips| ==> trips[i].status != status
    ensures r.Some? ==> exists k ::
      0 <= k < |trips| && r.value == trips[k] && trips[k].status == status
      && forall j :: 0 <= j < k ==> trips[j].status != status
  {
    var k := FirstIndex(HasStatus(status), trips);
    if k < |trips| then Some(trips[k]) else None
  }

  /** `current`: the first ACTIVE trip, else the first APPROVED, else the first REQUESTED, else none. */
  function Current(trips: seq<DriverTrip>): (r: Option<DriverTrip>)
    ensures r.Some? ==> r.value in trips && r.value.status in {"ACTIVE", "APPROVED", "REQUESTED"}
    ensures r.None? <==> forall i :: 0 <= i < |trips| ==> trips[i].status !in {"ACTIVE", "APPROVED", "REQUESTED"}
  {
    var active := FindStatus(trips, "ACTIVE");
    var approved := FindStatus(trips, "APPROVED");
    var pending := FindStatus(trips, "REQUESTED");
    if active.Some? then active else if approved.Some? then approved else pending
  }

  /** The priority: a trip of a higher status always wins, and within a status the first one does. */
  lemma CurrentPriority(trips: seq<DriverTrip>)
    ensures (exists i :: 0 <= i < |trips| && trips[i].status == "ACTIVE") ==> Current(trips) == FindStatus(trips, "ACTIVE")
    ensures ((forall i :: 0 <= i < |trips| ==> trips[i].status != "ACTIVE")
             && (exists i :: 0 <= i < |trips| && trips[i].status == "APPROVED")) ==>
      Current(trips) == FindStatus(trips, "APPROVED")
    ensures (forall i :: 0 <= i < |trips| ==> trips[i].status != "ACTIVE" && trips[i].status != "APPROVED") ==>
      Current(trips) == FindStatus(trips, "REQUESTED")
  {
  }

  function Finished(): DriverTrip -> bool {
    (t: DriverTrip) => t.status in ["REJECTED", "COMPLETED"]
  }

  /** `history`: the REJECTED and COMPLETED trips, in list order. */
  function History(trips: seq<DriverTrip>): (r: seq<DriverTrip>)
    ensures forall t :: t in r <==> t in trips && (t.status == "REJECTED" || t.status == "COMPLETED")
    ensures SublistOf(r, trips)
  {
    FilterMembers(Finished(), trips);
    FilterIsSublist(Finished(), trips);
    Filter(Finished(), trips)
  }

  /** The current trip is never also in the history. */
  lemma CurrentNotInHistory(trips: seq<DriverTrip>)
    ensures Current(trips).Some? ==> Current(trips).value !in History(trips)
  {
  }

  /** The request form is shown only when there is no current trip. */
  function ShowRequestForm(trips: seq<DriverTrip>): (b: bool)
    ensures b <==> forall i :: 0 <= i < |trips| ==> trips[i].status !in {"ACTIVE", "APPROVED", "REQUESTED"}
  {
    Current(trips).None?
  }

  // ------------------------------------------------------------ route estimate

  /** `!startPoint || !endPoint || startPoint === endPoint`. */
  predicate InvalidRoute(startPoint: string, endPoint: string) {
    startPoint == "" || endPoint == "" || startPoint == endPoint
  }

  function OnRoute(startPoint: string, endPoint: string): Fare -> bool {
    (c: Fare) => c.startPoint == startPoint && c.endPoint == endPoint
  }

  /**
   * `estCost`: none for an incomplete or circular route; otherwise the base
   * cost of the first fare for exactly that route, or none when there is no such fare.
   */
  function EstimatedCost(costs: seq<Fare>, startPoint: string, endPoint: string): (r: Option<int>)
    ensures InvalidRoute(startPoint, endPoint) ==> r.None?
    ensures !InvalidRoute(startPoint, endPoint) ==>
      (r.None? <==> forall i :: 0 <= i < |costs| ==> costs[i].startPoint != startPoint || costs[i].endPoint != endPoint)
    ensures r.Some? ==> exists k ::
      0 <= k < |costs| && r.value == costs[k].baseCost
      && costs[k].startPoint == startPoint && costs[k].endPoint == endPoint
      && forall j :: 0 <= j < k ==> costs[j].startPoint != startPoint || costs[j].endPoint != endPoint
  {
    if InvalidRoute(startPoint, endPoint) then None
    else
      var k := FirstIndex(OnRoute(startPoint, endPoint), costs);
      if k < |costs| then Some(costs[k].baseCost) else None
  }

  // ---------------------------------------------------------- submitRequest

  /** The chosen route of the request form. */
  datatype RequestForm = RequestForm(startPoint: string, endPoint: string)

  /** The body of `POST /trips/request`. */
  datatype TripRequest = TripRequest(driverId: int, startPoint: string, endPoint: string)

  datatype SubmitOutcome = NotSent | Sent(request: TripRequest, ok: bool)

  /**
   * `submitRequest`: an incomplete or circular route sends nothing; otherwise
   * the request for the chosen route is posted, and on success both points are cleared.
   */
  function SubmitRequest(f: RequestForm, driverId: int, post: TripRequest -> bool): (r: (RequestForm, SubmitOutcome))
    ensures r.1.NotSent? <==> InvalidRoute(f.startPoint, f.endPoint)
    ensures r.1.NotSent? ==> r.0 == f
    ensures r.1.Sent? ==> r.1.request == TripRequest(driverId, f.startPoint, f.endPoint) && r.1.ok == post(r.1.request)
    ensures r.1.Sent? && r.1.ok ==> r.0 == RequestForm("", "")
    ensures r.1.Sent? && !r.1.ok ==> r.0 == f
  {
    if InvalidRoute(f.startPoint, f.endPoint) then (f, NotSent)
    else
      var req := TripRequest(driverId, f.startPoint, f.endPoint);
      if post(req) then (RequestForm("", ""), Sent(req, true)) else (f, Sent(req, false))
  }

  /** After a successful request, pressing submit again sends nothing until a new route is chosen. */
  lemma NoDoubleSubmit(f: RequestForm, driverId: int, post: TripRequest -> bool)
    requires SubmitRequest(f, driverId, post).1 == Sent(TripRequest(driverId, f.startPoint, f.endPoint), true)
    ensures SubmitRequest(SubmitRequest(f, driverId, post).0, driverId, post).1 == NotSent
  {
  }

  /** A request is sent exactly for the routes that have an estimate to look up. */
  lemma SentRoutesAreValid(f: RequestForm, driverId: int, post: TripRequest -> bool, costs: seq<Fare>)
    ensures SubmitRequest(f, driverId, post).1.Sent? ==> f.startPoint != f.endPoint && f.startPoint != "" && f.endPoint != ""
    ensures SubmitRequest(f, driverId, post).1.NotSent? ==> EstimatedCost(costs, f.startPoint, f.endPoint).None?
  {
  }
}
