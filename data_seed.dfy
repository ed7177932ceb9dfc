/**
 * `DataSeedConfig.seedTripCosts`: at start-up, for every ordered pair (i, j) of
 * distinct points among five Pune localities, insert the fare `50 * (|i - j| + 1)`
 * unless an active fare for that route exists. An exception (here: the unique
 * constraint refusing an insert because an inactive row holds the route) ends
 * the loops and is caught.
 *
 * The loops visit the 25 cells `5 * i + j` in order; `SeedUpTo(rows, n)` is the
 * state after the first `n` cells.
 */
module DataSeed {
  import opened Wrappers
  import opened TripCosts

  const PunePoints: seq<string> :=
    ["Shivajinagar, Pune", "Kothrud, Pune", "Hinjewadi, Pune", "Viman Nagar, Pune", "Kalyani Nagar, Pune"]

  const Cells: nat := 25

  /** `Math.abs(i - j) + 1` hops at Rs. 50 each. */
  function SeedCost(i: int, j: int): (c: int)
    ensures c >= 50
    ensures i != j ==> c >= 100
  {
    50 * ((if i < j then j - i else i - j) + 1)
  }

  function Row(k: nat): (i: nat)
    requires k < Cells
    ensures i < 5
  {
    if k < 5 then 0 else if k < 10 then 1 else if k < 15 then 2 else if k < 20 then 3 else 4
  }

  function Col(k: nat): (j: nat)
    requires k < Cells
    ensures j < 5 && k == 5 * Row(k) + j
  {
    k - 5 * Row(k)
  }

  /** Cell `5 * i + j` is row `i`, column `j`. */
  lemma CellOf(i: nat, j: nat)
    requires i < 5 && j < 5
    ensures 5 * i + j < Cells && Row(5 * i + j) == i && Col(5 * i + j) == j
  {
  }

  /** The route of cell `k`, `PUNE_POINTS[i] -> PUNE_POINTS[j]`. */
  function CellRoute(k: nat): Route
    requires k < Cells
  {
    Route(PunePoints[Row(k)], PunePoints[Col(k)])
  }

  /** The fare seeded for cell `k`. */
  function CellFare(k: nat): Fare
    requires k < Cells
  {
    Fare(SeedCost(Row(k), Col(k)), true)
  }

  /** Cells on the diagonal (`i == j`) are skipped. */
  predicate Diagonal(k: nat)
    requires k < Cells
  {
    Row(k) == Col(k)
  }

  /** The fare rows so far, and whether an exception has ended the loops. */
  datatype SeedState = SeedState(rows: map<Route, Fare>, failed: bool)

  /** One iteration of the inner loop body. */
  function SeedStep(st: SeedState, k: nat): SeedState
    requires k < Cells
  {
    if st.failed || Diagonal(k) then st
    else if ActiveFare(st.rows, CellRoute(k)).Some? then st
    else if CellRoute(k) in st.rows then SeedState(st.rows, true)
    else SeedState(st.rows[CellRoute(k) := CellFare(k)], false)
  }

  function SeedUpTo(rows: map<Route, Fare>, n: nat): SeedState
    requires n <= Cells
  {
    if n == 0 then SeedState(rows, false) else SeedStep(SeedUpTo(rows, n - 1), n - 1)
  }

  /** The outcome of a whole run of `seedTripCosts` on the given table. */
  function Seed(rows: map<Route, Fare>): SeedState {
    SeedUpTo(rows, Cells)
  }

  /**
   * `seedTripCosts`: the nested loops over the repository. `completed` is false
   * when an insert failed and the rest of the loops was skipped (the catch).
   */
  method SeedTripCosts(repo: TripCostRepository) returns (completed: bool)
    modifies repo
    ensures repo.rows == Seed(old(repo.rows)).rows
    ensures completed == !Seed(old(repo.rows)).failed
  {
    ghost var rows0 := repo.rows;
    var i := 0;
    while i < |PunePoints|
      invariant 0 <= i <= 5
      invariant SeedUpTo(rows0, 5 * i) == SeedState(repo.rows, false)
    {
      var ok := SeedRow(repo, i, rows0);
      if !ok {
        return false;
      }
      i := i + 1;
    }
    return true;
  }

  /** The inner loop for row `i`, cells `5 * i` to `5 * i + 4`; false when an insert was refused. */
  method SeedRow(repo: TripCostRepository, i: nat, ghost rows0: map<Route, Fare>) returns (ok: bool)
    requires i < 5
    requires SeedUpTo(rows0, 5 * i) == SeedState(repo.rows, false)
    modifies repo
    ensures ok ==> SeedUpTo(rows0, 5 * i + 5) == SeedState(repo.rows, false)
    ensures !ok ==> Seed(rows0) == SeedState(repo.rows, true)
  {
    var j := 0;
    ghost var k := 5 * i;
    while j < |PunePoints|
      invariant 0 <= j <= 5 && k == 5 * i + j
      invariant SeedUpTo(rows0, k) == SeedState(repo.rows, false)
    {
      CellOf(i, j);
      SeedUpToStep(rows0, k);
      ok := SeedCell(repo, i, j);
      if !ok {
        FailedStays(rows0, k + 1, Cells);
        return;
      }
      j := j + 1;
      k := k + 1;
    }
    assert k == 5 * i + 5;
    return true;
  }

  lemma SeedUpToStep(rows: map<Route, Fare>, k: nat)
    requires k < Cells
    ensures SeedUpTo(rows, k + 1) == SeedStep(SeedUpTo(rows, k), k)
  {
  }

  /** The body of the inner loop for cell (i, j); false when the insert was refused. */
  method SeedCell(repo: TripCostRepository, i: nat, j: nat) returns (ok: bool)
    requires i < 5 && j < 5
    modifies repo
    ensures SeedState(repo.rows, !ok) == SeedStep(SeedState(old(repo.rows), false), 5 * i + j)
  {
    CellOf(i, j);
    ok := true;
    if i != j {
      var route := Route(PunePoints[i], PunePoints[j]);
      var existing := repo.FindActive(route);
      if existing.None? {
        ok := repo.Insert(route, Fare(SeedCost(i, j), true));
      }
    }
  }

  /** Once an exception has happened, no later cell changes anything. */
  lemma {:induction false} FailedStays(rows: map<Route, Fare>, m: nat, n: nat)
    requires m <= n <= Cells
    requires SeedUpTo(rows, m).failed
    ensures SeedUpTo(rows, n) == SeedUpTo(rows, m)
  {
    if n > m {
      FailedStays(rows, m, n - 1);
    }
  }

  // ------------------------------------------------------------ the fare formula

  /** Seeded fares are symmetric, and for two distinct points among five lie in {100, 150, 200, 250}. */
  lemma SeedCostRange(i: int, j: int)
    requires 0 <= i < 5 && 0 <= j < 5 && i != j
    ensures SeedCost(i, j) == SeedCost(j, i)
    ensures SeedCost(i, j) in {100, 150, 200, 250}
  {
  }

  /** The five points are pairwise distinct, so distinct cells have distinct routes. */
  lemma CellRouteInjective(k: nat, l: nat)
    requires k < Cells && l < Cells && CellRoute(k) == CellRoute(l)
    ensures k == l
  {
    PointsDistinct(Row(k), Row(l));
    PointsDistinct(Col(k), Col(l));
  }

  lemma PointsDistinct(a: nat, b: nat)
    requires a < 5 && b < 5 && PunePoints[a] == PunePoints[b]
    ensures a == b
  {
  }

  // ------------------------------------------------------------ what a run keeps and adds

  /**
   * A run never alters or removes a row that was there, and every row it adds
   * is the fare of a non-diagonal cell.
   */
  lemma {:induction false} SeedKeepsRows(rows: map<Route, Fare>, n: nat)
    requires n <= Cells
    ensures forall r :: r in rows ==> r in SeedUpTo(rows, n).rows && SeedUpTo(rows, n).rows[r] == rows[r]
    ensures forall r :: r in SeedUpTo(rows, n).rows && r !in rows ==>
      exists k :: 0 <= k < n && !Diagonal(k) && CellRoute(k) == r && SeedUpTo(rows, n).rows[r] == CellFare(k)
  {
    if n > 0 {
      SeedKeepsRows(rows, n - 1);
      var st := SeedUpTo(rows, n - 1);
      var st' := SeedUpTo(rows, n);
      forall r | r in st'.rows && r !in rows
        ensures exists k :: 0 <= k < n && !Diagonal(k) && CellRoute(k) == r && st'.rows[r] == CellFare(k)
      {
        if r in st.rows {
          var k :| 0 <= k < n - 1 && !Diagonal(k) && CellRoute(k) == r && st.rows[r] == CellFare(k);
          assert st'.rows[r] == st.rows[r];
        } else {
          assert CellRoute(n - 1) == r && st'.rows[r] == CellFare(n - 1);
        }
      }
    }
  }

  /** After a run that did not fail, every non-diagonal route of the visited cells has an active fare. */
  lemma {:induction false} SeedCoversCells(rows: map<Route, Fare>, n: nat)
    requires n <= Cells
    requires !SeedUpTo(rows, n).failed
    ensures forall k :: 0 <= k < n && !Diagonal(k) ==> ActiveFare(SeedUpTo(rows, n).rows, CellRoute(k)).Some?
  {
    if n > 0 {
      var st := SeedUpTo(rows, n - 1);
      assert !st.failed;
      SeedCoversCells(rows, n - 1);
      var st' := SeedUpTo(rows, n);
      forall k | 0 <= k < n && !Diagonal(k)
        ensures ActiveFare(st'.rows, CellRoute(k)).Some?
      {
        if k < n - 1 {
          assert CellRoute(k) in st.rows && st.rows[CellRoute(k)].isActive;
          assert st'.rows[CellRoute(k)] == st.rows[CellRoute(k)];
        }
      }
    }
  }

  /** A table in which every route already has an active fare is left exactly as it is. */
  lemma {:induction false} SeedNoOp(rows: map<Route, Fare>, n: nat)
    requires n <= Cells
    requires forall k :: 0 <= k < Cells && !Diagonal(k) ==> ActiveFare(rows, CellRoute(k)).Some?
    ensures SeedUpTo(rows, n) == SeedState(rows, false)
  {
    if n > 0 {
      SeedNoOp(rows, n - 1);
    }
  }

  /** Idempotence: running the seeding again after a run that completed adds nothing. */
  lemma SeedIdempotent(rows: map<Route, Fare>)
    requires !Seed(rows).failed
    ensures Seed(Seed(rows).rows) == SeedState(Seed(rows).rows, false)
  {
    SeedCoversCells(rows, Cells);
    SeedNoOp(Seed(rows).rows, Cells);
  }

  /** A route that already has an active fare keeps it: the run never inserts over it. */
  lemma SeedKeepsActiveFare(rows: map<Route, Fare>, route: Route)
    requires ActiveFare(rows, route).Some?
    ensures ActiveFare(Seed(rows).rows, route) == ActiveFare(rows, route)
  {
    SeedKeepsRows(rows, Cells);
  }

  /**
   * An inactive row on a point-to-point route makes the insert for that route
   * fail, so the run ends with the exception caught.
   */
  lemma SeedFailsOnInactiveRow(rows: map<Route, Fare>, k: nat)
    requires k < Cells && !Diagonal(k)
    requires CellRoute(k) in rows && !rows[CellRoute(k)].isActive
    ensures Seed(rows).failed
  {
    SeedKeepsRows(rows, k);
    if !SeedUpTo(rows, k).failed {
      assert SeedUpTo(rows, k + 1).failed;
    }
    FailedStays(rows, k + 1, Cells);
  }

  // ------------------------------------------------------------ seeding an empty table

  /** From an empty table no insert fails, and every row comes from a non-diagonal cell already visited. */
  lemma {:induction false} SeedEmptyRows(empty: map<Route, Fare>, n: nat)
    requires empty == map[] && n <= Cells
    ensures !SeedUpTo(empty, n).failed
    ensures forall r :: r in SeedUpTo(empty, n).rows ==>
      exists k :: 0 <= k < n && !Diagonal(k) && CellRoute(k) == r
  {
    if n > 0 {
      SeedEmptyRows(empty, n - 1);
      if !Diagonal(n - 1) {
        SeedEmptyFresh(empty, n - 1);
      }
    }
  }

  /** From an empty table, the route of the next non-diagonal cell is not yet in the table. */
  lemma SeedEmptyFresh(empty: map<Route, Fare>, n: nat)
    requires empty == map[] && n < Cells && !Diagonal(n)
    requires forall r :: r in SeedUpTo(empty, n).rows ==>
      exists k :: 0 <= k < n && !Diagonal(k) && CellRoute(k) == r
    ensures CellRoute(n) !in SeedUpTo(empty, n).rows
  {
    if CellRoute(n) in SeedUpTo(empty, n).rows {
      var k :| 0 <= k < n && !Diagonal(k) && CellRoute(k) == CellRoute(n);
      CellRouteInjective(k, n);
    }
  }

  /** The number of diagonal cells below `n`: the multiples of 6 up to 24. */
  function DiagonalBelow(n: nat): nat {
    if n == 0 then 0 else if n <= 6 then 1 else if n <= 12 then 2 else if n <= 18 then 3 else if n <= 24 then 4 else 5
  }

  /** From an empty table, the first `n` cells create one row per non-diagonal cell. */
  lemma {:induction false} SeedEmptyCount(empty: map<Route, Fare>, n: nat)
    requires empty == map[] && n <= Cells
    ensures |SeedUpTo(empty, n).rows| == n - DiagonalBelow(n)
  {
    if n > 0 {
      SeedEmptyCount(empty, n - 1);
      SeedEmptyRows(empty, n - 1);
      var st := SeedUpTo(empty, n - 1);
      assert SeedUpTo(empty, n) == SeedStep(st, n - 1);
      if !Diagonal(n - 1) {
        SeedEmptyFresh(empty, n - 1);
      }
      StepCard(st, n - 1);
      DiagonalBelowStep(n);
    }
  }

  lemma DiagonalBelowStep(n: nat)
    requires 0 < n <= Cells
    ensures DiagonalBelow(n) == DiagonalBelow(n - 1) + (if Diagonal(n - 1) then 1 else 0)
  {
  }

  lemma StepCard(st: SeedState, k: nat)
    requires k < Cells && !st.failed
    requires !Diagonal(k) ==> CellRoute(k) !in st.rows
    ensures |SeedStep(st, k).rows| == |st.rows| + (if Diagonal(k) then 0 else 1)
  {
  }

  /** From an empty table, each row holds the fare of the one cell whose route it is. */
  lemma SeedEmptyFare(empty: map<Route, Fare>, i: nat, j: nat)
    requires empty == map[]
    requires i < 5 && j < 5 && i != j
    ensures Route(PunePoints[i], PunePoints[j]) in Seed(empty).rows
    ensures Seed(empty).rows[Route(PunePoints[i], PunePoints[j])] == Fare(SeedCost(i, j), true)
  {
    var rows := Seed(empty).rows;
    var k := 5 * i + j;
    CellOf(i, j);
    SeedEmptyRows(empty, Cells);
    SeedCoversCells(empty, Cells);
    assert CellRoute(k) in rows;
    SeedKeepsRows(empty, Cells);
    var l :| 0 <= l < Cells && !Diagonal(l) && CellRoute(l) == CellRoute(k) && rows[CellRoute(k)] == CellFare(l);
    CellRouteInjective(k, l);
  }

  /** From an empty table, no row has the same start and end. */
  lemma SeedEmptyNoLoop(empty: map<Route, Fare>, r: Route)
    requires empty == map[]
    requires r in Seed(empty).rows
    ensures r.startPoint != r.endPoint
  {
    SeedEmptyRows(empty, Cells);
    var k :| 0 <= k < Cells && !Diagonal(k) && CellRoute(k) == r;
    if r.startPoint == r.endPoint {
      PointsDistinct(Row(k), Col(k));
    }
  }

  /** Seeding an empty table gives every ordered pair of distinct points the fare `50 * (|i - j| + 1)`. */
  lemma SeedEmptyFares(empty: map<Route, Fare>)
    requires empty == map[]
    ensures forall i, j :: 0 <= i < 5 && 0 <= j < 5 && i != j ==>
      Route(PunePoints[i], PunePoints[j]) in Seed(empty).rows &&
      Seed(empty).rows[Route(PunePoints[i], PunePoints[j])] == Fare(SeedCost(i, j), true)
  {
    forall i: nat, j: nat | i < 5 && j < 5 && i != j
      ensures Route(PunePoints[i], PunePoints[j]) in Seed(empty).rows &&
        Seed(empty).rows[Route(PunePoints[i], PunePoints[j])] == Fare(SeedCost(i, j), true)
    {
      SeedEmptyFare(empty, i, j);
    }
  }

  /**
   * From an empty table, the routes the trips page offers are priced: one hop
   * from "Shivajinagar, Pune" to "Kothrud, Pune" is Rs. 100, and four hops
   * from "Kalyani Nagar, Pune" back to "Shivajinagar, Pune" are Rs. 250.
   */
  lemma SeedEmptyNamedFares(empty: map<Route, Fare>)
    requires empty == map[]
    ensures ActiveFare(Seed(empty).rows, Route("Shivajinagar, Pune", "Kothrud, Pune")) == Some(Fare(100, true))
    ensures ActiveFare(Seed(empty).rows, Route("Kalyani Nagar, Pune", "Shivajinagar, Pune")) == Some(Fare(250, true))
  {
    SeedEmptyFare(empty, 0, 1);
    SeedEmptyFare(empty, 4, 0);
  }

  /** Seeding an empty table completes without an exception. */
  lemma SeedEmptyCompletes(empty: map<Route, Fare>)
    requires empty == map[]
    ensures !Seed(empty).failed
  {
    SeedEmptyRows(empty, Cells);
  }

  /** Seeding an empty table creates exactly 5 * 4 = 20 fares. */
  lemma SeedEmptyTwenty(empty: map<Route, Fare>)
    requires empty == map[]
    ensures |Seed(empty).rows| == 20
  {
    SeedEmptyCount(empty, Cells);
  }

  /** Seeding an empty table creates no fare whose start and end are the same point. */
  lemma SeedEmptyNoLoops(empty: map<Route, Fare>)
    requires empty == map[]
    ensures forall r :: r in Seed(empty).rows ==> r.startPoint != r.endPoint
  {
    forall r | r in Seed(empty).rows
      ensures r.startPoint != r.endPoint
    {
      SeedEmptyNoLoop(empty, r);
    }
  }
}
