/**
 * The records the pipeline works on. One `Observation` is one row of the
 * forecast log: which vehicle (`tmId`), which route direction
 * (`route_path_id`), which stop, when the forecast was asked for
 * (`request_time`), what arrival it predicted (`forecast_time`) and whether
 * the prediction came from live telemetry (`byTelemetry == 1`) or from the
 * timetable (`byTelemetry == 0`). Times are integer epoch seconds.
 */
module Rows {
  import opened Collections

  datatype Observation = Observation(
    vehicle: int,
    route: int,
    stop: int,
    request: int,
    forecast: int,
    byTelemetry: bool)

  /** A row as loaded, with its non-semantic `id` column. */
  datatype RawRow = RawRow(id: int, obs: Observation)

  /** The exceptions the pipeline can raise on its in-memory data. */
  datatype Error =
    | IndexError            // `.iloc[0]` or `[0]` on an empty selection
    | KeyError              // `drop` of a column that was never created
    | LengthMismatch        // assigning a list whose length differs from the frame's
    | NothingToConcatenate  // `pd.concat([])`

  datatype Result<+T> = Ok(value: T) | Raised(error: Error)

  /** `forecast_horizon`: how far ahead of the request the forecast arrival lies. */
  function Horizon(o: Observation): int {
    o.forecast - o.request
  }

  predicate IsTelemetry(o: Observation) {
    o.byTelemetry
  }

  predicate IsScheduled(o: Observation) {
    !o.byTelemetry
  }

  function Forecasts(s: seq<Observation>): seq<int> {
    seq(|s|, i requires 0 <= i < |s| => s[i].forecast)
  }

  function RequestTimes(s: seq<Observation>): seq<int> {
    seq(|s|, i requires 0 <= i < |s| => s[i].request)
  }

  /** `drop(columns=['id'])`. */
  function DropId(rows: seq<RawRow>): seq<Observation> {
    seq(|rows|, i requires 0 <= i < |rows| => rows[i].obs)
  }

  predicate ByForecast(a: Observation, b: Observation) {
    a.forecast <= b.forecast
  }

  predicate IntLe(a: int, b: int) {
    a <= b
  }

  /** `sort_values(by='forecast_time')`. */
  function SortByForecast(s: seq<Observation>): (r: seq<Observation>)
    ensures |r| == |s| && multiset(r) == multiset(s)
    ensures SortedWith(r, ByForecast)
  {
    SortWithSorted(s, ByForecast);
    SortWith(s, ByForecast)
  }

  /** `list.sort()` on identifiers. */
  function SortInts(s: seq<int>): (r: seq<int>)
    ensures |r| == |s| && multiset(r) == multiset(s)
    ensures SortedWith(r, IntLe)
  {
    SortWithSorted(s, IntLe);
    SortWith(s, IntLe)
  }

  /** The identifier columns, as lists. */
  function Vehicles(rows: seq<RawRow>): seq<int> {
    seq(|rows|, i requires 0 <= i < |rows| => rows[i].obs.vehicle)
  }

  function Routes(rows: seq<RawRow>): seq<int> {
    seq(|rows|, i requires 0 <= i < |rows| => rows[i].obs.route)
  }

  function Stops(rows: seq<RawRow>): seq<int> {
    seq(|rows|, i requires 0 <= i < |rows| => rows[i].obs.stop)
  }

  /** The row selections the pipeline filters by. */
  function OfVehicle(v: int): RawRow -> bool {
    (r: RawRow) => r.obs.vehicle == v
  }

  function OnRoute(p: int): RawRow -> bool {
    (r: RawRow) => r.obs.route == p
  }

  function AtStop(s: int): RawRow -> bool {
    (r: RawRow) => r.obs.stop == s
  }

  predicate RawTelemetry(r: RawRow) {
    r.obs.byTelemetry
  }

  predicate RawScheduled(r: RawRow) {
    !r.obs.byTelemetry
  }

  predicate RawByForecast(a: RawRow, b: RawRow) {
    a.obs.forecast <= b.obs.forecast
  }

  /** Sorted distinct identifiers are strictly ascending. */
  lemma SortedDistinctAscending(s: seq<int>)
    ensures |SortInts(Distinct(s))| == |Distinct(s)|
    ensures forall k, l :: 0 <= k < l < |SortInts(Distinct(s))| ==> SortInts(Distinct(s))[k] < SortInts(Distinct(s))[l]
  {
    var keys := SortInts(Distinct(s));
    MultisetNoDuplicates(keys, Distinct(s));
    forall k, l | 0 <= k < l < |keys| ensures keys[k] < keys[l] {
      assert IntLe(keys[k], keys[l]) && keys[k] != keys[l];
    }
  }

  /** Sorted distinct identifiers keep exactly the identifiers of the column. */
  lemma InSortedDistinct(s: seq<int>, x: int)
    ensures x in SortInts(Distinct(s)) <==> x in s
  {
    var d := Distinct(s);
    assert x in d <==> x in multiset(SortInts(d));
    if x in s {
      var i :| 0 <= i < |s| && s[i] == x;
    }
  }
}
