/**
 * `mostra/routes/routes_with_stops.py`: the module-level version of the stop
 * charts. `prepare_df_for_visualization` is the same enrichment as
 * `enrich_with_route_stop_name`, and `prepare_plots_for_route` runs the same
 * per-route selection over every route direction of the table, in ascending
 * order, plots each surviving route and hands back the table it was given.
 */
module RoutesWithStops {
  import opened Collections
  import opened Rows
  import opened StopEnrichment
  import opened ReferenceSelection
  import opened Explorer

  /** `prepare_df_for_visualization`. */
  method PrepareDfForVisualization(routeDf: seq<RawRow>, routePathId: int, stopNames: seq<StopName>, stopFromRepo: seq<RouteEntry>)
    returns (r: Result<VisFrame>)
    ensures r == Enrichment(routeDf, stopNames, stopFromRepo)
  {
    r := EnrichWithRouteStopName(routeDf, routePathId, stopNames, stopFromRepo);
  }

  /** The route directions `prepare_plots_for_route` walks: those of the table, ascending. */
  function RouteIds(df: seq<RawRow>): seq<int> {
    SortInts(Distinct(Routes(df)))
  }

  /**
   * `prepare_plots_for_route`: returns the table unchanged, together with the
   * views it plots, one per route direction that is not skipped.
   */
  method PreparePlotsForRoute(df: seq<RawRow>, stopNames: seq<StopName>, stopFromRepo: seq<RouteEntry>)
    returns (r: seq<RawRow>, plotted: seq<RouteView>)
    ensures r == df
    ensures plotted == RouteViews(df, RouteIds(df), stopNames, stopFromRepo)
  {
    var routePathIds := SortInts(Distinct(Routes(df)));
    ghost var step := RouteStep(df, stopNames, stopFromRepo);
    plotted := [];
    var k := 0;
    while k < |routePathIds|
      invariant 0 <= k <= |routePathIds|
      invariant plotted == ConcatMap(routePathIds[..k], step)
    {
      ConcatMapStep(routePathIds, step, k);
      var routePathId := routePathIds[k];
      var routeDf := Filter(df, OnRoute(routePathId));
      var enriched := PrepareDfForVisualization(routeDf, routePathId, stopNames, stopFromRepo);
      if enriched.Ok? {
        var selected := SelectRoute(enriched.value);
        if selected.Some? {
          plotted := plotted + [selected.value];
        }
      }
      k := k + 1;
    }
    assert routePathIds[..k] == routePathIds;
    r := df;
  }

  /** A plotted view comes from a route direction that has rows in the table, and every such direction is tried. */
  lemma PlottedViews(df: seq<RawRow>, stopNames: seq<StopName>, stopFromRepo: seq<RouteEntry>, view: RouteView)
    ensures view in RouteViews(df, RouteIds(df), stopNames, stopFromRepo) <==>
      exists p :: p in Routes(df) && view in ViewOf(df, p, stopNames, stopFromRepo)
  {
    var ids := RouteIds(df);
    var step := RouteStep(df, stopNames, stopFromRepo);
    InConcatMap(ids, step, view);
    if view in RouteViews(df, ids, stopNames, stopFromRepo) {
      var k :| 0 <= k < |ids| && view in step(ids[k]);
      InSortedDistinct(Routes(df), ids[k]);
    }
    if exists p :: p in Routes(df) && view in ViewOf(df, p, stopNames, stopFromRepo) {
      var p :| p in Routes(df) && view in ViewOf(df, p, stopNames, stopFromRepo);
      InSortedDistinct(Routes(df), p);
      var k :| 0 <= k < |ids| && ids[k] == p;
      assert view in step(ids[k]);
    }
  }
}
