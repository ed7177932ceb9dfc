/**
 * SettingsPage.js: the searchable, paginated driver and car tables (eight rows
 * per page), and the check and payload of the "add car" form.
 */
module SettingsPage {
  import opened Wrappers
  import opened Ascii
  import opened Seqs
  import opened Paging

  const PageSize := 8

  /** A driver row as the server sends it. */
  datatype Driver = Driver(id: Option<int>, username: Option<string>, name: Option<string>, contactNumber: Option<string>)

  /** A car row as the server sends it. */
  datatype Car = Car(id: Option<int>, driverName: Option<string>, carNumber: Option<string>, carModel: Option<string>)

  // ---------------------------------------------------------------- search

  /** `String(x.id ?? "")`. */
  function IdText(id: Option<int>): string {
    if id.Some? then IntToString(id.value) else ""
  }

  /** `(s || "").toLowerCase()`. */
  function LowerText(s: Option<string>): string {
    if s.Some? then ToLower(s.value) else ""
  }

  /** `search.toLowerCase().trim()`. */
  function Query(search: string): string {
    Trim(ToLower(search))
  }

  /** The driver test: the id text, or the lowercased username, name or contact number, contains `q`. */
  predicate DriverMatches(q: string, d: Driver) {
    Includes(IdText(d.id), q) || Includes(LowerText(d.username), q)
    || Includes(LowerText(d.name), q) || Includes(LowerText(d.contactNumber), q)
  }

  /** The car test: the id text, or the lowercased driver name, car number or model, contains `q`. */
  predicate CarMatches(q: string, c: Car) {
    Includes(IdText(c.id), q) || Includes(LowerText(c.driverName), q)
    || Includes(LowerText(c.carNumber), q) || Includes(LowerText(c.carModel), q)
  }

  function DriverTest(q: string): Driver -> bool {
    d => DriverMatches(q, d)
  }

  function CarTest(q: string): Car -> bool {
    c => CarMatches(q, c)
  }

  /**
   * `filteredDrivers`: an empty search box shows every driver; otherwise the
   * drivers that match the lowercased, trimmed query, in list order.
   */
  function FilterDrivers(drivers: seq<Driver>, search: string): (r: seq<Driver>)
    ensures search == "" ==> r == drivers
    ensures search != "" ==> forall d :: d in r <==> d in drivers && DriverMatches(Query(search), d)
    ensures SublistOf(r, drivers)
  {
    if search == "" then
      SublistOfSelf(drivers);
      drivers
    else
      var r := Filter(DriverTest(Query(search)), drivers);
      FilterIsSublist(DriverTest(Query(search)), drivers);
      assert forall d :: d in r ==> d in drivers && DriverMatches(Query(search), d) by {
        forall d | d in r
          ensures d in drivers && DriverMatches(Query(search), d)
        {
          var i :| 0 <= i < |r| && r[i] == d;
        }
      }
      assert forall d :: d in drivers && DriverMatches(Query(search), d) ==> d in r by {
        forall d | d in drivers && DriverMatches(Query(search), d)
          ensures d in r
        {
          var i :| 0 <= i < |drivers| && drivers[i] == d;
        }
      }
      r
  }

  /** `filteredCars`, the same search over the car fields. */
  function FilterCars(cars: seq<Car>, search: string): (r: seq<Car>)
    ensures search == "" ==> r == cars
    ensures search != "" ==> forall c :: c in r <==> c in cars && CarMatches(Query(search), c)
    ensures SublistOf(r, cars)
  {
    if search == "" then
      SublistOfSelf(cars);
      cars
    else
      var r := Filter(CarTest(Query(search)), cars);
      FilterIsSublist(CarTest(Query(search)), cars);
      assert forall c :: c in r ==> c in cars && CarMatches(Query(search), c) by {
        forall c | c in r
          ensures c in cars && CarMatches(Query(search), c)
        {
          var i :| 0 <= i < |r| && r[i] == c;
        }
      }
      assert forall c :: c in cars && CarMatches(Query(search), c) ==> c in r by {
        forall c | c in cars && CarMatches(Query(search), c)
          ensures c in r
        {
          var i :| 0 <= i < |cars| && cars[i] == c;
        }
      }
      r
  }

  /** A search of only white space trims to the empty query, which every field contains: nothing is hidden. */
  lemma BlankSearchKeepsAll(drivers: seq<Driver>, cars: seq<Car>, search: string)
    requires forall i :: 0 <= i < |search| ==> IsSpace(search[i])
    ensures FilterDrivers(drivers, search) == drivers
    ensures FilterCars(cars, search) == cars
  {
    var lower := ToLower(search);
    assert forall i :: 0 <= i < |lower| ==> IsSpace(lower[i]);
    TrimBlank(lower);
    if search != "" {
      forall d: Driver
        ensures DriverTest("")(d)
      {
        IncludesEmpty(IdText(d.id));
      }
      FilterKeepsAll(DriverTest(""), drivers);
      forall c: Car
        ensures CarTest("")(c)
      {
        IncludesEmpty(IdText(c.id));
      }
      FilterKeepsAll(CarTest(""), cars);
    }
  }

  // ------------------------------------------------------------- pagination

  /** `Math.min(page, totalPages)`. */
  function CurrentPage(page: int, n: nat): int {
    Min(page, TotalPages(n, PageSize))
  }

  /** `paginatedDrivers` / `paginatedCars`: the slice of the current page. */
  function Visible<T>(s: seq<T>, page: int): seq<T> {
    PageOf(s, CurrentPage(page, |s|), PageSize)
  }

  /**
   * For a page number of at least 1, the current page lies in [1, totalPages],
   * the table shows at most eight rows, exactly the rows from
   * `(current - 1) * 8` on, and it is empty only when the list is.
   */
  lemma VisibleFacts<T>(s: seq<T>, page: int)
    requires page >= 1
    ensures 1 <= CurrentPage(page, |s|) <= TotalPages(|s|, PageSize)
    ensures |Visible(s, page)| <= PageSize
    ensures var start := (CurrentPage(page, |s|) - 1) * PageSize;
      start < |s| ==> Visible(s, page) == s[start..Min(start + PageSize, |s|)]
    ensures Visible(s, page) == [] <==> s == []
  {
    var cur := CurrentPage(page, |s|);
    PageShape(s, cur, PageSize);
    if s != [] {
      assert TotalPages(|s|, PageSize) == CeilDiv(|s|, PageSize);
    }
  }

  /** The page after a change of the search text or of the list length: back to 1. */
  function PageAfterChange(page: int, oldSearch: string, newSearch: string, oldLength: nat, newLength: nat): (r: int)
    ensures oldSearch != newSearch || oldLength != newLength ==> r == 1
    ensures oldSearch == newSearch && oldLength == newLength ==> r == page
  {
    if oldSearch != newSearch || oldLength != newLength then 1 else page
  }

  /** After a reset the table shows the first rows of the list. */
  lemma ResetShowsFirstPage<T>(s: seq<T>)
    ensures Visible(s, 1) == s[..Min(PageSize, |s|)]
  {
    VisibleFacts(s, 1);
  }

  // ------------------------------------------------------------ add a car

  /** `value.replace(/\s+/g, "").toUpperCase()`. */
  function Normalize(number: string): (r: string)
    ensures |r| <= |number|
    ensures forall i :: 0 <= i < |r| ==> !IsSpace(r[i])
  {
    ToUpper(StripSpaces(number))
  }

  /** Normalising a normalised number changes nothing. */
  lemma NormalizeIdempotent(number: string)
    ensures Normalize(Normalize(number)) == Normalize(number)
  {
    var n := Normalize(number);
    NoSpacesStrip(n);
    ToUpperIdempotent(StripSpaces(number));
  }

  lemma {:induction false} NoSpacesStrip(s: string)
    requires forall i :: 0 <= i < |s| ==> !IsSpace(s[i])
    ensures StripSpaces(s) == s
  {
    if s != [] {
      NoSpacesStrip(s[1..]);
    }
  }

  /** `cars.some(c => c.carNumber && normalize(c.carNumber) === normalized)`. */
  predicate NumberTaken(cars: seq<Car>, normalized: string) {
    exists i :: 0 <= i < |cars| && cars[i].carNumber.Some? && cars[i].carNumber.value != ""
      && Normalize(cars[i].carNumber.value) == normalized
  }

  const DuplicateMessage := "❌ Car number already exists in the system"
  const DefaultStatus := "IDLE"
  const DefaultLocation := "Shivajinagar, Pune"

  /** The body of `POST /cars`. */
  datatype CarPayload = CarPayload(
    status: string, carNumber: string, carModel: string,
    speed: int, fuelLevel: int, temperature: int, location: string)

  /** What the server answers: a response body, or a request that threw (with the error's texts). */
  datatype PostResponse =
    | Answered(success: bool, dataId: Option<int>, message: Option<string>)
    | Threw(responseMessage: Option<string>, errorMessage: string)

  /** How `handleCreateCar` ends: rejected before any request, created, or failed with a message. */
  datatype CreateOutcome = Rejected(error: string) | Created(payload: CarPayload) | CreateFailed(payload: CarPayload, error: string)

  /** `a || b` on strings. */
  function OrText(a: Option<string>, b: string): string {
    if a.Some? && a.value != "" then a.value else b
  }

  /** The payload built from the form: the normalised number, status defaulting to IDLE, fixed initial readings. */
  function Payload(number: string, status: string, model: string): (p: CarPayload)
    ensures p.carNumber == Normalize(number)
    ensures p.status == (if status == "" then DefaultStatus else status) && p.status != ""
    ensures p.carModel == model
    ensures p.speed == 0 && p.fuelLevel == 100 && p.temperature == 40 && p.location == DefaultLocation
  {
    CarPayload(if status == "" then DefaultStatus else status, Normalize(number), model, 0, 100, 40, DefaultLocation)
  }

  /**
   * `handleCreateCar`: a number that normalises to an existing car's number is
   * rejected with the duplicate message; otherwise the payload is posted to
   * `server`, and the car counts as created only when the answer has `success`
   * and a non-zero `data.id`.
   */
  function HandleCreateCar(cars: seq<Car>, number: string, status: string, model: string,
                           server: CarPayload -> PostResponse): (r: CreateOutcome)
    ensures r.Rejected? <==> NumberTaken(cars, Normalize(number))
    ensures r.Rejected? ==> r.error == DuplicateMessage
    ensures !r.Rejected? ==> r.payload == Payload(number, status, model)
    ensures r.Created? <==>
      !NumberTaken(cars, Normalize(number))
      && var a := server(Payload(number, status, model));
      a.Answered? && a.success && a.dataId.Some? && a.dataId.value != 0
  {
    var normalized := Normalize(number);
    if NumberTaken(cars, normalized) then Rejected(DuplicateMessage)
    else
      var p := Payload(number, status, model);
      match server(p)
      case Answered(success, dataId, message) =>
        if success && dataId.Some? && dataId.value != 0 then Created(p)
        else CreateFailed(p, OrText(message, "Failed to create car"))
      case Threw(responseMessage, errorMessage) =>
        CreateFailed(p, OrText(responseMessage, OrText(Some(errorMessage), "Failed to create car")))
  }

  /** A rejected number sends nothing: the outcome is the same whatever the server would answer. */
  lemma RejectionSendsNothing(cars: seq<Car>, number: string, status: string, model: string,
                              s1: CarPayload -> PostResponse, s2: CarPayload -> PostResponse)
    requires NumberTaken(cars, Normalize(number))
    ensures HandleCreateCar(cars, number, status, model, s1) == HandleCreateCar(cars, number, status, model, s2)
  {
  }

  /**
   * Once a created car is in the list, its number is taken: entering it again,
   * even with other spacing or letter case (anything with the same normalised
   * form), is rejected.
   */
  lemma CreatedNumberIsTaken(cars: seq<Car>, number: string, again: string, newCar: Car)
    requires Normalize(number) != ""
    requires newCar.carNumber == Some(Normalize(number))
    requires Normalize(again) == Normalize(number)
    ensures NumberTaken(cars + [newCar], Normalize(again))
  {
    NormalizeIdempotent(number);
    var all := cars + [newCar];
    assert all[|cars|] == newCar;
  }
}
