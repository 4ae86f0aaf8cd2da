/**
 * `TransportDataExplorer` (`mostra/main.py`) holds the forecast table it was
 * built with; `_preprocess_dataframe_for_vis` walks the given route
 * directions, enriches each one's rows, selects its reference vehicle and
 * stop order, and yields one view per route that survives. A route whose
 * enrichment raises, or whose selection skips it, yields nothing and the
 * walk goes on with the next route.
 */
module Explorer {
  import opened Collections
  import opened Rows
  import opened StopEnrichment
  import opened ReferenceSelection
  import opened RouteNames

  /** What one route direction contributes to the views: nothing or one view. */
  function ViewOf(df: seq<RawRow>, p: int, stopNames: seq<StopName>, routeNames: seq<RouteEntry>): seq<RouteView> {
    match Enrichment(Filter(df, OnRoute(p)), stopNames, routeNames)
    case Raised(_) => []
    case Ok(vf) =>
      match SelectRoute(vf)
      case None => []
      case Some(view) => [view]
  }

  function RouteStep(df: seq<RawRow>, stopNames: seq<StopName>, routeNames: seq<RouteEntry>): int -> seq<RouteView> {
    (p: int) => ViewOf(df, p, stopNames, routeNames)
  }

  /** The views yielded for `routePathIds`, in order. */
  function RouteViews(df: seq<RawRow>, routePathIds: seq<int>, stopNames: seq<StopName>, routeNames: seq<RouteEntry>): seq<RouteView> {
    ConcatMap(routePathIds, RouteStep(df, stopNames, routeNames))
  }

  /**
   * A view is yielded exactly for a listed route whose enrichment succeeds and
   * whose selection keeps it: a route that raises or is skipped removes only
   * its own view.
   */
  lemma InRouteViews(df: seq<RawRow>, routePathIds: seq<int>, stopNames: seq<StopName>, routeNames: seq<RouteEntry>, view: RouteView)
    ensures view in RouteViews(df, routePathIds, stopNames, routeNames) <==>
      exists k ::
        0 <= k < |routePathIds| &&
        Enrichment(Filter(df, OnRoute(routePathIds[k])), stopNames, routeNames).Ok? &&
        SelectRoute(Enrichment(Filter(df, OnRoute(routePathIds[k])), stopNames, routeNames).value) == Some(view)
  {
    var step := RouteStep(df, stopNames, routeNames);
    InConcatMap(routePathIds, step, view);
    if view in RouteViews(df, routePathIds, stopNames, routeNames) {
      var k :| 0 <= k < |routePathIds| && view in step(routePathIds[k]);
      RouteViewOf(df, routePathIds[k], stopNames, routeNames, view);
    }
    if exists k ::
        0 <= k < |routePathIds| &&
        Enrichment(Filter(df, OnRoute(routePathIds[k])), stopNames, routeNames).Ok? &&
        SelectRoute(Enrichment(Filter(df, OnRoute(routePathIds[k])), stopNames, routeNames).value) == Some(view)
    {
      var k :|
        0 <= k < |routePathIds| &&
        Enrichment(Filter(df, OnRoute(routePathIds[k])), stopNames, routeNames).Ok? &&
        SelectRoute(Enrichment(Filter(df, OnRoute(routePathIds[k])), stopNames, routeNames).value) == Some(view);
      RouteViewOf(df, routePathIds[k], stopNames, routeNames, view);
    }
  }

  lemma RouteViewOf(df: seq<RawRow>, p: int, stopNames: seq<StopName>, routeNames: seq<RouteEntry>, view: RouteView)
    ensures view in ViewOf(df, p, stopNames, routeNames) <==>
      Enrichment(Filter(df, OnRoute(p)), stopNames, routeNames).Ok? &&
      SelectRoute(Enrichment(Filter(df, OnRoute(p)), stopNames, routeNames).value) == Some(view)
  {
  }

  /** Every yielded view is the enriched table of its route direction, named after the route's first entry. */
  lemma YieldedView(df: seq<RawRow>, p: int, stopNames: seq<StopName>, routeNames: seq<RouteEntry>, view: RouteView)
    requires view in ViewOf(df, p, stopNames, routeNames)
    ensures |EntriesOf(routeNames, p)| > 0
    ensures view.name == Translate(Label(EntriesOf(routeNames, p)[0].transportType, EntriesOf(routeNames, p)[0].number))
    ensures forall v :: v in view.rows ==> v.row in df && v.row.obs.route == p
  {
    var routeDf := Filter(df, OnRoute(p));
    var vf := Enrichment(routeDf, stopNames, routeNames).value;
    EnrichedRouteName(routeDf, p, stopNames, routeNames);
    SelectedTrackedRows(vf, view);
    forall v | v in view.rows ensures v.row in df && v.row.obs.route == p {
      EnrichedRows(routeDf, stopNames, routeNames, v);
    }
  }

  class TransportDataExplorer {
    const dataframe: seq<RawRow>

    constructor(dataframe: seq<RawRow>)
      ensures this.dataframe == dataframe
    {
      this.dataframe := dataframe;
    }

    /** `_preprocess_dataframe_for_vis`, with the yielded tuples collected in order. */
    method PreprocessDataframeForVis(routePathIds: seq<int>, stopNames: seq<StopName>, routeNames: seq<RouteEntry>)
      returns (views: seq<RouteView>)
      ensures views == RouteViews(dataframe, routePathIds, stopNames, routeNames)
    {
      ghost var step := RouteStep(dataframe, stopNames, routeNames);
      views := [];
      var k := 0;
      while k < |routePathIds|
        invariant 0 <= k <= |routePathIds|
        invariant views == ConcatMap(routePathIds[..k], step)
      {
        ConcatMapStep(routePathIds, step, k);
        var routePathId := routePathIds[k];
        var routeDf := Filter(dataframe, OnRoute(routePathId));
        var enriched := EnrichWithRouteStopName(routeDf, routePathId, stopNames, routeNames);
        if enriched.Ok? {
          var selected := SelectRoute(enriched.value);
          if selected.Some? {
            views := views + [selected.value];
          }
        }
        k := k + 1;
      }
      assert routePathIds[..k] == routePathIds;
    }
  }
}
