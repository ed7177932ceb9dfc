/**
 * The fare table `trip_costs`: one row per (start point, end point), enforced by
 * the unique constraint `uk_trip_cost_start_end`, each with a base cost and an
 * active flag. TripCost.java and TripCostRepository.java are not part of this
 * model beyond what the fare lookup and the seeding need.
 */
module TripCosts {
  import opened Wrappers

  datatype Route = Route(startPoint: string, endPoint: string)

  /** A fare row; a new `TripCost(start, end, cost)` is active. */
  datatype Fare = Fare(baseCost: int, isActive: bool)

  /** `findByStartPointAndEndPointAndIsActiveTrue(start, end)` over the rows. */
  function ActiveFare(rows: map<Route, Fare>, route: Route): (r: Option<Fare>)
    ensures r.Some? <==> route in rows && rows[route].isActive
    ensures r.Some? ==> r.value == rows[route]
  {
    if route in rows && rows[route].isActive then Some(rows[route]) else None
  }

  /** The database table behind `TripCostRepository`. */
  class TripCostRepository {
    var rows: map<Route, Fare>

    constructor (rows: map<Route, Fare>)
      ensures this.rows == rows
    {
      this.rows := rows;
    }

    /** The repository query, against the current rows. */
    method FindActive(route: Route) returns (r: Option<Fare>)
      ensures r == ActiveFare(rows, route)
    {
      r := ActiveFare(rows, route);
    }

    /**
     * `save(new TripCost(...))`: an insert, which the unique constraint refuses
     * when the route already has a row (active or not); `ok` is false then and
     * nothing is written.
     */
    method Insert(route: Route, fare: Fare) returns (ok: bool)
      modifies this
      ensures ok <==> route !in old(rows)
      ensures rows == if ok then old(rows)[route := fare] else old(rows)
    {
      if route in rows {
        ok := false;
      } else {
        rows := rows[route := fare];
        ok := true;
      }
    }
  }
}
