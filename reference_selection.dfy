/**
 * The per-route selection before a stop chart is drawn (`mostra/main.py`,
 * `mostra/routes/routes_with_stops.py`): the enriched rows are counted per
 * vehicle with `tmId == 0` excluded, the route needs at least two vehicles,
 * the vehicle with most rows becomes the reference, and its scheduled rows,
 * sorted by forecast, give the order of the stops. A route whose reference
 * vehicle has no scheduled row at one of the route's stops is skipped.
 */
module ReferenceSelection {
  import opened Collections
  import opened Rows
  import opened StopEnrichment

  /** What the selection hands to the plot: name, rows, reference rows, stop order, reference vehicle. */
  datatype RouteView = RouteView(
    name: string,
    rows: seq<VisRow>,
    tracked: seq<VisRow>,
    stopsOrder: seq<string>,
    transport: int)

  /** The `tmId` column of `df_vis`. */
  function VisVehicles(rows: seq<VisRow>): seq<int> {
    seq(|rows|, i requires 0 <= i < |rows| => rows[i].row.obs.vehicle)
  }

  /** The `stop_name` column. */
  function StopNamesOf(rows: seq<VisRow>): seq<string> {
    seq(|rows|, i requires 0 <= i < |rows| => rows[i].stopName)
  }

  predicate NonZero(t: int) {
    t != 0
  }

  function VisOfVehicle(t: int): VisRow -> bool {
    (v: VisRow) => v.row.obs.vehicle == t
  }

  function ScheduledOfVehicle(t: int): VisRow -> bool {
    (v: VisRow) => v.row.obs.vehicle == t && !v.row.obs.byTelemetry
  }

  predicate VisByForecast(a: VisRow, b: VisRow) {
    a.row.obs.forecast <= b.row.obs.forecast
  }

  /** The groups of `groupby('tmId')` that survive dropping `tmId == 0`, in ascending order. */
  function Candidates(rows: seq<VisRow>): seq<int> {
    Filter(SortInts(Distinct(VisVehicles(rows))), NonZero)
  }

  /** The `stop_name` count of one vehicle's group. */
  function CountOf(rows: seq<VisRow>, t: int): int {
    |Filter(rows, VisOfVehicle(t))|
  }

  function Counts(rows: seq<VisRow>, cands: seq<int>): seq<int> {
    seq(|cands|, i requires 0 <= i < |cands| => CountOf(rows, cands[i]))
  }

  /** `transport_to_check`, or nothing when fewer than two vehicles remain. */
  function ReferenceVehicle(rows: seq<VisRow>): Option<int> {
    var c := Candidates(rows);
    if |c| < 2 then None else Some(c[FirstArgMax(Counts(rows, c))])
  }

  /** `tm_id_df` before sorting: the reference vehicle's scheduled rows. */
  function TrackedRows(rows: seq<VisRow>, t: int): seq<VisRow> {
    Filter(rows, ScheduledOfVehicle(t))
  }

  /** `stops_order`: distinct stop names after sorting by forecast. */
  function StopOrder(tracked: seq<VisRow>): seq<string> {
    Distinct(StopNamesOf(SortWith(tracked, VisByForecast)))
  }

  /** The selection of one enriched route, or nothing when the route is skipped. */
  function SelectRoute(vf: VisFrame): Option<RouteView> {
    match ReferenceVehicle(vf.rows)
    case None => None
    case Some(t) =>
      var tracked := TrackedRows(vf.rows, t);
      if |Distinct(StopNamesOf(tracked))| != |Distinct(StopNamesOf(vf.rows))| then None
      else Some(RouteView(vf.name, vf.rows, SortWith(tracked, VisByForecast), StopOrder(tracked), t))
  }

  lemma InVisVehicles(rows: seq<VisRow>, t: int)
    ensures t in VisVehicles(rows) <==> exists v :: v in rows && v.row.obs.vehicle == t
  {
    if t in VisVehicles(rows) {
      var i :| 0 <= i < |rows| && VisVehicles(rows)[i] == t;
      assert rows[i] in rows;
    }
    if exists v :: v in rows && v.row.obs.vehicle == t {
      var v :| v in rows && v.row.obs.vehicle == t;
      var i :| 0 <= i < |rows| && rows[i] == v;
      assert VisVehicles(rows)[i] == t;
    }
  }

  lemma InStopNames(rows: seq<VisRow>, n: string)
    ensures n in StopNamesOf(rows) <==> exists v :: v in rows && v.stopName == n
  {
    if n in StopNamesOf(rows) {
      var i :| 0 <= i < |rows| && StopNamesOf(rows)[i] == n;
      assert rows[i] in rows;
    }
    if exists v :: v in rows && v.stopName == n {
      var v :| v in rows && v.stopName == n;
      var i :| 0 <= i < |rows| && rows[i] == v;
      assert StopNamesOf(rows)[i] == n;
    }
  }

  /** The candidates are the route's non-zero vehicles, ascending and each once. */
  lemma CandidatesShape(rows: seq<VisRow>)
    ensures forall t :: t in Candidates(rows) <==> t != 0 && t in VisVehicles(rows)
    ensures SortedWith(Candidates(rows), IntLe)
    ensures NoDuplicates(Candidates(rows))
  {
    var d := Distinct(VisVehicles(rows));
    forall t ensures t in SortInts(d) <==> t in VisVehicles(rows) {
      InSortedDistinct(VisVehicles(rows), t);
    }
    FilterSorted(SortInts(d), NonZero, IntLe);
    MultisetNoDuplicates(SortInts(d), d);
    FilterNoDuplicates(SortInts(d), NonZero);
  }

  /**
   * The reference vehicle is a non-zero vehicle of the route with the most
   * rows; among vehicles with as many rows it has the smallest `tmId`.
   */
  lemma ReferenceVehicleIsBusiest(rows: seq<VisRow>, t: int)
    requires ReferenceVehicle(rows) == Some(t)
    ensures t != 0 && t in VisVehicles(rows)
    ensures forall u :: u != 0 && u in VisVehicles(rows) ==> CountOf(rows, u) <= CountOf(rows, t)
    ensures forall u :: u != 0 && u in VisVehicles(rows) && CountOf(rows, u) == CountOf(rows, t) ==> t <= u
  {
    var c := Candidates(rows);
    var counts := Counts(rows, c);
    var i := FirstArgMax(counts);
    CandidatesShape(rows);
    FirstArgMaxOfAscending(c, counts);
    assert c[i] == t;
    forall u | u != 0 && u in VisVehicles(rows)
      ensures CountOf(rows, u) <= CountOf(rows, t)
      ensures CountOf(rows, u) == CountOf(rows, t) ==> t <= u
    {
      var k :| 0 <= k < |c| && c[k] == u;
      assert counts[k] == CountOf(rows, u);
    }
  }

  /** Over ascending keys, the first maximum of their counts has the smallest key among the maxima. */
  lemma FirstArgMaxOfAscending(keys: seq<int>, counts: seq<int>)
    requires |keys| == |counts| > 0
    requires SortedWith(keys, IntLe)
    ensures forall k :: 0 <= k < |keys| && counts[k] == counts[FirstArgMax(counts)] ==>
      keys[FirstArgMax(counts)] <= keys[k]
  {
    var i := FirstArgMax(counts);
    forall k | 0 <= k < |keys| && counts[k] == counts[i] ensures keys[i] <= keys[k] {
      if i < k {
        assert IntLe(keys[i], keys[k]);
      }
    }
  }

  /** No reference vehicle exactly when the route has at most one non-zero vehicle. */
  lemma ReferenceVehicleNoneIff(rows: seq<VisRow>)
    ensures ReferenceVehicle(rows) == None <==>
      forall u, w :: u != 0 && w != 0 && u in VisVehicles(rows) && w in VisVehicles(rows) ==> u == w
  {
    var c := Candidates(rows);
    CandidatesShape(rows);
    if |c| >= 2 {
      assert c[0] in c && c[1] in c && c[0] != c[1];
    } else {
      forall u, w | u != 0 && w != 0 && u in VisVehicles(rows) && w in VisVehicles(rows) ensures u == w {
        assert u in c && w in c;
      }
    }
  }

  /** The selected rows are exactly the reference vehicle's scheduled rows, ordered by forecast. */
  lemma SelectedTrackedRows(vf: VisFrame, view: RouteView)
    requires SelectRoute(vf) == Some(view)
    ensures ReferenceVehicle(vf.rows) == Some(view.transport)
    ensures view.name == vf.name && view.rows == vf.rows
    ensures forall v :: v in view.tracked <==> v in vf.rows && v.row.obs.vehicle == view.transport && !v.row.obs.byTelemetry
    ensures SortedWith(view.tracked, VisByForecast)
  {
    var tracked := TrackedRows(vf.rows, view.transport);
    SortWithSorted(tracked, VisByForecast);
    forall v ensures v in view.tracked <==> v in tracked {
      InSortWith(tracked, VisByForecast, v);
    }
  }

  /**
   * A route with a reference vehicle is skipped exactly when some stop of the
   * route has no scheduled row of that vehicle.
   */
  lemma SelectRouteNoneIff(vf: VisFrame, t: int)
    requires ReferenceVehicle(vf.rows) == Some(t)
    ensures SelectRoute(vf) == None <==>
      exists v :: v in vf.rows && forall w :: w in TrackedRows(vf.rows, t) ==> w.stopName != v.stopName
  {
    SelectRouteSkips(vf, t);
    CoverageIff(TrackedRows(vf.rows, t), vf.rows);
  }

  lemma SelectRouteSkips(vf: VisFrame, t: int)
    requires ReferenceVehicle(vf.rows) == Some(t)
    ensures SelectRoute(vf) == None <==>
      |Distinct(StopNamesOf(TrackedRows(vf.rows, t)))| != |Distinct(StopNamesOf(vf.rows))|
  {
  }

  /** Equal distinct stop-name counts of a sub-table mean every stop name of the table is covered. */
  lemma CoverageIff(tracked: seq<VisRow>, rows: seq<VisRow>)
    requires forall w :: w in tracked ==> w in rows
    ensures |Distinct(StopNamesOf(tracked))| == |Distinct(StopNamesOf(rows))| <==>
      forall v :: v in rows ==> exists w :: w in tracked && w.stopName == v.stopName
  {
    var a := StopNamesOf(tracked);
    var b := StopNamesOf(rows);
    if |Distinct(a)| == |Distinct(b)| {
      forall n | n in a ensures n in b {
        InStopNames(tracked, n);
        InStopNames(rows, n);
      }
      SameDistinctCount(a, b);
      forall v | v in rows ensures exists w :: w in tracked && w.stopName == v.stopName {
        InStopNames(rows, v.stopName);
        InStopNames(tracked, v.stopName);
      }
    } else {
      MissingStopName(tracked, rows);
    }
  }

  /** Different distinct counts of a sub-table's stop names leave a stop name of the table uncovered. */
  lemma MissingStopName(tracked: seq<VisRow>, rows: seq<VisRow>)
    requires forall w :: w in tracked ==> w in rows
    requires |Distinct(StopNamesOf(tracked))| != |Distinct(StopNamesOf(rows))|
    ensures exists v :: v in rows && forall w :: w in tracked ==> w.stopName != v.stopName
  {
    var a := StopNamesOf(tracked);
    var b := StopNamesOf(rows);
    if forall v :: v in rows ==> exists w :: w in tracked && w.stopName == v.stopName {
      SameStopNames(tracked, rows);
      DistinctCard(a);
      DistinctCard(b);
    }
  }

  /** A sub-table that has a row for every stop name of the table has the same stop names. */
  lemma SameStopNames(tracked: seq<VisRow>, rows: seq<VisRow>)
    requires forall w :: w in tracked ==> w in rows
    requires forall v :: v in rows ==> exists w :: w in tracked && w.stopName == v.stopName
    ensures Elements(StopNamesOf(tracked)) == Elements(StopNamesOf(rows))
  {
    var a := StopNamesOf(tracked);
    var b := StopNamesOf(rows);
    forall n | n in b ensures n in a {
      InStopNames(rows, n);
      var v :| v in rows && v.stopName == n;
      var w :| w in tracked && w.stopName == v.stopName;
      InStopNames(tracked, n);
    }
    forall n | n in a ensures n in b {
      InStopNames(tracked, n);
      InStopNames(rows, n);
    }
  }

  /**
   * The stop order lists every stop name of the route exactly once, so its
   * length is the route's number of distinct stop names.
   */
  lemma StopOrderCovers(vf: VisFrame, view: RouteView)
    requires SelectRoute(vf) == Some(view)
    ensures forall n :: n in view.stopsOrder <==> n in StopNamesOf(vf.rows)
    ensures NoDuplicates(view.stopsOrder)
    ensures |view.stopsOrder| == |Distinct(StopNamesOf(vf.rows))|
  {
    var tracked := TrackedRows(vf.rows, view.transport);
    var a := StopNamesOf(tracked);
    var b := StopNamesOf(vf.rows);
    var sorted := SortWith(tracked, VisByForecast);
    forall n | n in a ensures n in b {
      InStopNames(tracked, n);
      InStopNames(vf.rows, n);
    }
    SameDistinctCount(a, b);
    SortedStopNames(tracked);
    assert view.stopsOrder == Distinct(StopNamesOf(sorted));
    DistinctCard(StopNamesOf(sorted));
    DistinctCard(a);
  }

  /** Sorting rows by forecast keeps their stop names. */
  lemma SortedStopNames(rows: seq<VisRow>)
    ensures forall n :: n in StopNamesOf(SortWith(rows, VisByForecast)) <==> n in StopNamesOf(rows)
    ensures Elements(StopNamesOf(SortWith(rows, VisByForecast))) == Elements(StopNamesOf(rows))
  {
    var sorted := SortWith(rows, VisByForecast);
    forall n ensures n in StopNamesOf(sorted) <==> n in StopNamesOf(rows) {
      InStopNames(sorted, n);
      InStopNames(rows, n);
      forall v ensures v in sorted <==> v in rows {
        InSortWith(rows, VisByForecast, v);
      }
    }
  }

  /** In forecast-sorted rows, a stop name that appears first has a row no later than every row of a name that appears later. */
  lemma FirstAppearanceByForecast(sorted: seq<VisRow>, i: int, j: int)
    requires SortedWith(sorted, VisByForecast)
    requires 0 <= i < j < |Distinct(StopNamesOf(sorted))|
    ensures exists x ::
      x in sorted && x.stopName == Distinct(StopNamesOf(sorted))[i] &&
      forall y :: y in sorted && y.stopName == Distinct(StopNamesOf(sorted))[j] ==> x.row.obs.forecast <= y.row.obs.forecast
  {
    var names := StopNamesOf(sorted);
    var order := Distinct(names);
    DistinctFirstAppearance(names, i, j);
    var a :| 0 <= a < |names| && names[a] == order[i] &&
      forall b :: 0 <= b < |names| && names[b] == order[j] ==> a < b;
    forall y | y in sorted && y.stopName == order[j]
      ensures sorted[a].row.obs.forecast <= y.row.obs.forecast
    {
      var b :| 0 <= b < |sorted| && sorted[b] == y;
      assert names[b] == order[j];
      assert VisByForecast(sorted[a], sorted[b]);
    }
    assert sorted[a] in sorted;
  }

  /**
   * Stops are ordered by first appearance in forecast order: an earlier stop
   * has a scheduled row of the reference vehicle forecast no later than every
   * such row of a later stop.
   */
  lemma StopOrderByFirstForecast(vf: VisFrame, view: RouteView, i: int, j: int)
    requires SelectRoute(vf) == Some(view)
    requires 0 <= i < j < |view.stopsOrder|
    ensures exists x ::
      x in view.tracked && x.stopName == view.stopsOrder[i] &&
      forall y :: y in view.tracked && y.stopName == view.stopsOrder[j] ==> x.row.obs.forecast <= y.row.obs.forecast
  {
    SelectedTrackedRows(vf, view);
    assert view.stopsOrder == Distinct(StopNamesOf(view.tracked));
    FirstAppearanceByForecast(view.tracked, i, j);
  }
}
