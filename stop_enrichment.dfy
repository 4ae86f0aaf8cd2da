/**
 * `enrich_with_route_stop_name` (`mostra/main.py`, repeated as
 * `prepare_df_for_visualization` in `mostra/routes/routes_with_stops.py`):
 * the rows of one route direction, stop by stop in ascending stop order,
 * are sorted by request and forecast time, joined with the route's entries
 * of the stop table, and named after their stop; the direction gets a
 * display name built from its transport type and number.
 */
module StopEnrichment {
  import opened Collections
  import opened Rows
  import opened RouteNames

  /** A row of `stop_names`: a stop and one of its names. */
  datatype StopName = StopName(stop: int, name: string)

  /** A row of `routes_names`: a route direction, its transport type and its number. */
  datatype RouteEntry = RouteEntry(route: int, transportType: string, number: string)

  /** A row of `df_vis`: a forecast row joined with a route entry and named after its stop. */
  datatype VisRow = VisRow(row: RawRow, entry: RouteEntry, stopName: string)

  /** What `enrich_with_route_stop_name` returns. */
  datatype VisFrame = VisFrame(rows: seq<VisRow>, name: string)

  function NameOfStop(s: int): StopName -> bool {
    (n: StopName) => n.stop == s
  }

  function EntryOfRoute(p: int): RouteEntry -> bool {
    (e: RouteEntry) => e.route == p
  }

  /** The entries of `routes_names` a row joins with. */
  function EntriesOf(routeNames: seq<RouteEntry>, p: int): seq<RouteEntry> {
    Filter(routeNames, EntryOfRoute(p))
  }

  /** The names `stop_names` lists for a stop. */
  function NamesOf(stopNames: seq<StopName>, s: int): seq<StopName> {
    Filter(stopNames, NameOfStop(s))
  }

  /** `sort_values(by=['request_time_datetime', 'forecast_time_datetime'])`. */
  predicate ByRequestThenForecast(a: RawRow, b: RawRow) {
    a.obs.request < b.obs.request || (a.obs.request == b.obs.request && a.obs.forecast <= b.obs.forecast)
  }

  /** One row of `stop_df` after the inner merge on `route_path_id`, named `name`. */
  function JoinRow(routeNames: seq<RouteEntry>, name: string): RawRow -> seq<VisRow> {
    (x: RawRow) =>
      var es := EntriesOf(routeNames, x.obs.route);
      seq(|es|, i requires 0 <= i < |es| => VisRow(x, es[i], name))
  }

  /**
   * The frame one stop appends to `df_vis`: none for a stop without rows;
   * `IndexError` when the stop has no name or no row joins a route entry.
   */
  function StopFrame(routeDf: seq<RawRow>, s: int, stopNames: seq<StopName>, routeNames: seq<RouteEntry>): (r: Result<seq<seq<VisRow>>>)
    ensures r.Ok? ==> |r.value| <= 1 && forall fr :: fr in r.value ==> |fr| > 0
  {
    var stopDf := Filter(routeDf, AtStop(s));
    if |stopDf| < 1 then Ok([])
    else
      var names := NamesOf(stopNames, s);
      if |names| == 0 then Raised(IndexError)
      else
        var sorted := SortWith(stopDf, ByRequestThenForecast);
        var merged := Distinct(ConcatMap(sorted, JoinRow(routeNames, names[0].name)));
        if |merged| == 0 then Raised(IndexError) else Ok([merged])
  }

  /** `StopFrame` for one route and its two name tables, as a function of the stop. */
  function StopStep(routeDf: seq<RawRow>, stopNames: seq<StopName>, routeNames: seq<RouteEntry>): int -> Result<seq<seq<VisRow>>> {
    (s: int) => StopFrame(routeDf, s, stopNames, routeNames)
  }

  /** The frames of the stops in `stops`, in order; the first stop that raises ends the loop. */
  function StopFrames(stops: seq<int>, frame: int -> Result<seq<seq<VisRow>>>): Result<seq<seq<VisRow>>>
    decreases |stops|
  {
    if |stops| == 0 then Ok([])
    else
      match StopFrames(stops[..|stops| - 1], frame)
      case Raised(e) => Raised(e)
      case Ok(frames) =>
        match frame(stops[|stops| - 1])
        case Raised(e) => Raised(e)
        case Ok(f) => Ok(frames + f)
  }

  /** `route_path_name` before translation: the label of the last stop's first joined row, or `'default'`. */
  function RouteLabel(frames: seq<seq<VisRow>>): string {
    if |frames| == 0 || |frames[|frames| - 1]| == 0 then "default"
    else
      var e := frames[|frames| - 1][0].entry;
      Label(e.transportType, e.number)
  }

  /** The stops of a route, in ascending order. */
  function StopIds(routeDf: seq<RawRow>): seq<int> {
    SortInts(Distinct(Stops(routeDf)))
  }

  /** What `enrich_with_route_stop_name` returns or raises. */
  function Enrichment(routeDf: seq<RawRow>, stopNames: seq<StopName>, routeNames: seq<RouteEntry>): Result<VisFrame> {
    match StopFrames(StopIds(routeDf), StopStep(routeDf, stopNames, routeNames))
    case Raised(e) => Raised(e)
    case Ok(frames) =>
      if |frames| == 0 then Raised(NothingToConcatenate)
      else Ok(VisFrame(Concat(frames), Translate(RouteLabel(frames))))
  }

  /** Once the loop has raised, later stops do not matter. */
  lemma {:induction false} StopFramesRaised(stops: seq<int>, k: nat, frame: int -> Result<seq<seq<VisRow>>>)
    requires k <= |stops| && StopFrames(stops[..k], frame).Raised?
    ensures StopFrames(stops, frame) == StopFrames(stops[..k], frame)
    decreases |stops|
  {
    if k < |stops| {
      var init := stops[..|stops| - 1];
      assert init[..k] == stops[..k];
      StopFramesRaised(init, k, frame);
    } else {
      assert stops[..k] == stops;
    }
  }

  lemma StopFramesStep(stops: seq<int>, k: nat, frame: int -> Result<seq<seq<VisRow>>>)
    requires k < |stops|
    ensures StopFrames(stops[..k + 1], frame) ==
      match StopFrames(stops[..k], frame)
      case Raised(e) => Raised(e)
      case Ok(frames) =>
        match frame(stops[k])
        case Raised(e) => Raised(e)
        case Ok(f) => Ok(frames + f)
  {
    assert stops[..k + 1][..k] == stops[..k];
  }

  /** The body of the stop loop of `enrich_with_route_stop_name`. */
  method EnrichStop(routeDf: seq<RawRow>, stopId: int, stopNames: seq<StopName>, routeNames: seq<RouteEntry>)
    returns (r: Result<seq<seq<VisRow>>>)
    ensures r == StopFrame(routeDf, stopId, stopNames, routeNames)
  {
    var stopDf := Filter(routeDf, AtStop(stopId));
    if |stopDf| < 1 {
      return Ok([]);
    }
    var stopNamesLocal := NamesOf(stopNames, stopId);
    if |stopNamesLocal| == 0 {
      return Raised(IndexError);
    }
    var stopName := stopNamesLocal[0].name;
    var sorted := SortWith(stopDf, ByRequestThenForecast);
    var merged := Distinct(ConcatMap(sorted, JoinRow(routeNames, stopName)));
    if |merged| == 0 {
      return Raised(IndexError);
    }
    return Ok([merged]);
  }

  /** The stop loop of `enrich_with_route_stop_name`, with the label of the last stop that added a frame. */
  method CollectStopFrames(routeDf: seq<RawRow>, stopIds: seq<int>, stopNames: seq<StopName>, routeNames: seq<RouteEntry>)
    returns (r: Result<seq<seq<VisRow>>>, routePathName: string)
    ensures r == StopFrames(stopIds, StopStep(routeDf, stopNames, routeNames))
    ensures r.Ok? ==> routePathName == RouteLabel(r.value)
  {
    var dfVis: seq<seq<VisRow>> := [];
    routePathName := "default";
    ghost var step := StopStep(routeDf, stopNames, routeNames);
    var k := 0;
    while k < |stopIds|
      invariant 0 <= k <= |stopIds|
      invariant StopFrames(stopIds[..k], step) == Ok(dfVis)
      invariant routePathName == RouteLabel(dfVis)
    {
      var found := EnrichStop(routeDf, stopIds[k], stopNames, routeNames);
      StopFramesStep(stopIds, k, step);
      assert step(stopIds[k]) == found;
      if found.Raised? {
        StopFramesRaised(stopIds, k + 1, step);
        return Raised(found.error), routePathName;
      }
      RouteLabelAppend(dfVis, found.value);
      if |found.value| > 0 {
        var merged := found.value[0];
        routePathName := Label(merged[0].entry.transportType, merged[0].entry.number);
      }
      dfVis := dfVis + found.value;
      k := k + 1;
    }
    assert stopIds[..|stopIds|] == stopIds;
    return Ok(dfVis), routePathName;
  }

  /** Appending the frame of one stop keeps the label unless that stop added a frame. */
  lemma RouteLabelAppend(frames: seq<seq<VisRow>>, added: seq<seq<VisRow>>)
    requires |added| <= 1 && forall fr :: fr in added ==> |fr| > 0
    ensures |added| == 0 ==> RouteLabel(frames + added) == RouteLabel(frames)
    ensures |added| == 1 ==>
      RouteLabel(frames + added) == Label(added[0][0].entry.transportType, added[0][0].entry.number)
  {
    if |added| == 0 {
      assert frames + added == frames;
    } else {
      assert (frames + added)[|frames|] == added[0];
      assert added[0] in added;
    }
  }

  /** `enrich_with_route_stop_name`. */
  method EnrichWithRouteStopName(routeDf: seq<RawRow>, routePathId: int, stopNames: seq<StopName>, routeNames: seq<RouteEntry>)
    returns (r: Result<VisFrame>)
    ensures r == Enrichment(routeDf, stopNames, routeNames)
  {
    var stopIds := SortInts(Distinct(Stops(routeDf)));
    var dfVis, routePathName := CollectStopFrames(routeDf, stopIds, stopNames, routeNames);
    if dfVis.Raised? {
      return Raised(dfVis.error);
    }
    if |dfVis.value| == 0 {
      return Raised(NothingToConcatenate);
    }
    routePathName := Replace(routePathName, "bus", "Автобус");
    routePathName := Replace(routePathName, "tram", "Трамвай");
    return Ok(VisFrame(Concat(dfVis.value), routePathName));
  }

  /** The loop succeeds exactly when every stop does. */
  lemma {:induction false} StopFramesOk(stops: seq<int>, frame: int -> Result<seq<seq<VisRow>>>)
    ensures StopFrames(stops, frame).Ok? <==> forall k :: 0 <= k < |stops| ==> frame(stops[k]).Ok?
    decreases |stops|
  {
    if |stops| > 0 {
      var n := |stops| - 1;
      StopFramesOk(stops[..n], frame);
      assert forall k :: 0 <= k < n ==> stops[..n][k] == stops[k];
    }
  }

  /** On success the loop has collected exactly the stops' single frames. */
  lemma {:induction false} InStopFrames(stops: seq<int>, frame: int -> Result<seq<seq<VisRow>>>, fr: seq<VisRow>)
    requires StopFrames(stops, frame).Ok?
    requires forall s :: frame(s).Ok? ==> |frame(s).value| <= 1
    ensures fr in StopFrames(stops, frame).value <==> exists k :: 0 <= k < |stops| && frame(stops[k]) == Ok([fr])
    decreases |stops|
  {
    if |stops| > 0 {
      var n := |stops| - 1;
      var init := stops[..n];
      InStopFrames(init, frame, fr);
      var last := frame(stops[n]);
      if fr in StopFrames(stops, frame).value {
        if fr in StopFrames(init, frame).value {
          var k :| 0 <= k < n && frame(init[k]) == Ok([fr]);
          assert init[k] == stops[k];
        } else {
          assert last.value == [fr];
        }
      }
      if exists k :: 0 <= k < |stops| && frame(stops[k]) == Ok([fr]) {
        var k :| 0 <= k < |stops| && frame(stops[k]) == Ok([fr]);
        if k < n {
          assert init[k] == stops[k];
        }
      }
    }
  }

  /** The rows one table row contributes to the merge: itself once per entry of its route. */
  lemma InJoinRow(routeNames: seq<RouteEntry>, name: string, x: RawRow, v: VisRow)
    ensures v in JoinRow(routeNames, name)(x) <==>
      v.row == x && v.entry in routeNames && v.entry.route == x.obs.route && v.stopName == name
  {
    var es := EntriesOf(routeNames, x.obs.route);
    if v.row == x && v.entry in routeNames && v.entry.route == x.obs.route && v.stopName == name {
      var i :| 0 <= i < |es| && es[i] == v.entry;
      assert JoinRow(routeNames, name)(x)[i] == v;
    }
  }

  /** The merged frame of a stop holds each of its rows once per route entry, named after the stop. */
  lemma StopFrameRows(routeDf: seq<RawRow>, s: int, stopNames: seq<StopName>, routeNames: seq<RouteEntry>, merged: seq<VisRow>, v: VisRow)
    requires StopFrame(routeDf, s, stopNames, routeNames) == Ok([merged])
    ensures |NamesOf(stopNames, s)| > 0
    ensures v in merged <==>
      v.row in routeDf && v.row.obs.stop == s && v.entry in routeNames && v.entry.route == v.row.obs.route &&
      v.stopName == NamesOf(stopNames, s)[0].name
  {
    var stopDf := Filter(routeDf, AtStop(s));
    var names := NamesOf(stopNames, s);
    var sorted := SortWith(stopDf, ByRequestThenForecast);
    var join := JoinRow(routeNames, names[0].name);
    assert merged == Distinct(ConcatMap(sorted, join));
    InConcatMap(sorted, join, v);
    InSortWith(stopDf, ByRequestThenForecast, v.row);
    if v in merged {
      var k :| 0 <= k < |sorted| && v in join(sorted[k]);
      InJoinRow(routeNames, names[0].name, sorted[k], v);
    }
    InJoinRow(routeNames, names[0].name, v.row, v);
  }

  /**
   * For a table of one route direction `p`, a stop with rows fails exactly
   * when it has no name or `p` has no route entry; a stop without rows adds nothing.
   */
  lemma StopFrameOkIff(routeDf: seq<RawRow>, p: int, s: int, stopNames: seq<StopName>, routeNames: seq<RouteEntry>)
    requires forall x :: x in routeDf ==> x.obs.route == p
    ensures StopFrame(routeDf, s, stopNames, routeNames).Ok? <==>
      |Filter(routeDf, AtStop(s))| == 0 || (|NamesOf(stopNames, s)| > 0 && |EntriesOf(routeNames, p)| > 0)
    ensures StopFrame(routeDf, s, stopNames, routeNames) == Ok([]) <==> |Filter(routeDf, AtStop(s))| == 0
  {
    var stopDf := Filter(routeDf, AtStop(s));
    var names := NamesOf(stopNames, s);
    if |stopDf| > 0 && |names| > 0 {
      var sorted := SortWith(stopDf, ByRequestThenForecast);
      var join := JoinRow(routeNames, names[0].name);
      var cm := ConcatMap(sorted, join);
      ConcatMapNonEmpty(sorted, join);
      assert |Distinct(cm)| > 0 <==> |cm| > 0 by {
        if |cm| > 0 {
          assert cm[0] in Distinct(cm);
        }
      }
      assert sorted[0] in sorted;
      InSortWith(stopDf, ByRequestThenForecast, sorted[0]);
      if |EntriesOf(routeNames, p)| > 0 {
        assert |join(sorted[0])| > 0;
      } else {
        forall k | 0 <= k < |sorted| ensures |join(sorted[k])| == 0 {
          InSortWith(stopDf, ByRequestThenForecast, sorted[k]);
        }
      }
    }
  }

  /** Every stop the loop visits has rows in the route's table. */
  lemma StopIdsHaveRows(routeDf: seq<RawRow>, s: int)
    ensures s in StopIds(routeDf) <==> |Filter(routeDf, AtStop(s))| > 0
  {
    InSortedDistinct(Stops(routeDf), s);
    FilterNonEmpty(routeDf, AtStop(s));
    if s in Stops(routeDf) {
      var i :| 0 <= i < |routeDf| && Stops(routeDf)[i] == s;
      assert AtStop(s)(routeDf[i]);
    }
    if |Filter(routeDf, AtStop(s))| > 0 {
      var i :| 0 <= i < |routeDf| && AtStop(s)(routeDf[i]);
      assert Stops(routeDf)[i] == s;
    }
  }

  /**
   * Enriching the rows of one route direction `p` fails with `IndexError`
   * exactly when `p` has rows but no route entry, or one of its stops has no
   * name, and with the empty concatenation exactly when it has no rows.
   */
  lemma EnrichmentRaisesIff(routeDf: seq<RawRow>, p: int, stopNames: seq<StopName>, routeNames: seq<RouteEntry>)
    requires forall x :: x in routeDf ==> x.obs.route == p
    ensures Enrichment(routeDf, stopNames, routeNames) == Raised(NothingToConcatenate) <==> |routeDf| == 0
    ensures Enrichment(routeDf, stopNames, routeNames) == Raised(IndexError) <==>
      |routeDf| > 0 &&
      (|EntriesOf(routeNames, p)| == 0 || exists x :: x in routeDf && |NamesOf(stopNames, x.obs.stop)| == 0)
    ensures Enrichment(routeDf, stopNames, routeNames).Raised? ==>
      Enrichment(routeDf, stopNames, routeNames) in {Raised(NothingToConcatenate), Raised(IndexError)}
  {
    var ids := StopIds(routeDf);
    var step := StopStep(routeDf, stopNames, routeNames);
    StepErrors(routeDf, stopNames, routeNames);
    StopFramesErrors(ids, step);
    if |routeDf| == 0 {
      assert |Stops(routeDf)| == 0;
      assert ids == [];
    } else {
      StopFramesOkIff(routeDf, p, stopNames, routeNames);
      if StopFrames(ids, step).Ok? {
        OkFramesNonEmpty(routeDf, p, stopNames, routeNames);
      }
    }
  }

  lemma StepErrors(routeDf: seq<RawRow>, stopNames: seq<StopName>, routeNames: seq<RouteEntry>)
    ensures forall s ::
      StopStep(routeDf, stopNames, routeNames)(s).Raised? ==> StopStep(routeDf, stopNames, routeNames)(s).error == IndexError
  {
  }

  /** The stop loop of a route with rows succeeds exactly when its entry and all its stop names exist. */
  lemma StopFramesOkIff(routeDf: seq<RawRow>, p: int, stopNames: seq<StopName>, routeNames: seq<RouteEntry>)
    requires forall x :: x in routeDf ==> x.obs.route == p
    requires |routeDf| > 0
    ensures StopFrames(StopIds(routeDf), StopStep(routeDf, stopNames, routeNames)).Ok? <==>
      |EntriesOf(routeNames, p)| > 0 && forall x :: x in routeDf ==> |NamesOf(stopNames, x.obs.stop)| > 0
  {
    var ids := StopIds(routeDf);
    var step := StopStep(routeDf, stopNames, routeNames);
    StopFramesOk(ids, step);
    if |EntriesOf(routeNames, p)| > 0 && forall y :: y in routeDf ==> |NamesOf(stopNames, y.obs.stop)| > 0 {
      forall k | 0 <= k < |ids| ensures step(ids[k]).Ok? {
        NamedStopOk(routeDf, p, ids[k], stopNames, routeNames);
      }
    } else if |EntriesOf(routeNames, p)| == 0 {
      StopFails(routeDf, p, routeDf[0], stopNames, routeNames);
    } else {
      var y :| y in routeDf && |NamesOf(stopNames, y.obs.stop)| == 0;
      StopFails(routeDf, p, y, stopNames, routeNames);
    }
  }

  lemma NamedStopOk(routeDf: seq<RawRow>, p: int, s: int, stopNames: seq<StopName>, routeNames: seq<RouteEntry>)
    requires forall x :: x in routeDf ==> x.obs.route == p
    requires |EntriesOf(routeNames, p)| > 0 && forall y :: y in routeDf ==> |NamesOf(stopNames, y.obs.stop)| > 0
    requires s in StopIds(routeDf)
    ensures StopStep(routeDf, stopNames, routeNames)(s).Ok?
  {
    StopIdsHaveRows(routeDf, s);
    StopFrameOkIff(routeDf, p, s, stopNames, routeNames);
    var y := Filter(routeDf, AtStop(s))[0];
    assert y in Filter(routeDf, AtStop(s));
  }

  /** A row whose stop is unnamed, or whose route has no entry, makes some stop of the loop fail. */
  lemma StopFails(routeDf: seq<RawRow>, p: int, y: RawRow, stopNames: seq<StopName>, routeNames: seq<RouteEntry>)
    requires forall x :: x in routeDf ==> x.obs.route == p
    requires y in routeDf && (|EntriesOf(routeNames, p)| == 0 || |NamesOf(stopNames, y.obs.stop)| == 0)
    ensures exists k :: 0 <= k < |StopIds(routeDf)| && StopStep(routeDf, stopNames, routeNames)(StopIds(routeDf)[k]).Raised?
  {
    var ids := StopIds(routeDf);
    StopIdsHaveRows(routeDf, y.obs.stop);
    assert y in Filter(routeDf, AtStop(y.obs.stop));
    var k :| 0 <= k < |ids| && ids[k] == y.obs.stop;
    StopFrameOkIff(routeDf, p, ids[k], stopNames, routeNames);
  }

  /** A route with rows whose stop loop succeeds has at least one frame to concatenate. */
  lemma OkFramesNonEmpty(routeDf: seq<RawRow>, p: int, stopNames: seq<StopName>, routeNames: seq<RouteEntry>)
    requires forall x :: x in routeDf ==> x.obs.route == p
    requires |routeDf| > 0
    requires StopFrames(StopIds(routeDf), StopStep(routeDf, stopNames, routeNames)).Ok?
    ensures |StopFrames(StopIds(routeDf), StopStep(routeDf, stopNames, routeNames)).value| > 0
  {
    var ids := StopIds(routeDf);
    var step := StopStep(routeDf, stopNames, routeNames);
    StopFramesOk(ids, step);
    StopIdsHaveRows(routeDf, routeDf[0].obs.stop);
    var j :| 0 <= j < |ids| && ids[j] == routeDf[0].obs.stop;
    StopFrameOkIff(routeDf, p, ids[j], stopNames, routeNames);
    assert step(ids[j]).Ok? && step(ids[j]) != Ok([]);
    var fr := step(ids[j]).value[0];
    assert step(ids[j]) == Ok([fr]);
    InStopFrames(ids, step, fr);
  }

  /** A stop only ever raises `IndexError`, and so does the loop. */
  lemma {:induction false} StopFramesErrors(stops: seq<int>, frame: int -> Result<seq<seq<VisRow>>>)
    requires forall s :: frame(s).Raised? ==> frame(s).error == IndexError
    ensures StopFrames(stops, frame).Raised? ==> StopFrames(stops, frame).error == IndexError
    decreases |stops|
  {
    if |stops| > 0 {
      StopFramesErrors(stops[..|stops| - 1], frame);
    }
  }

  /**
   * A successful enrichment holds exactly the pairs of a table row and a
   * route entry of its direction, each named with the first name of its stop.
   */
  lemma EnrichedRows(routeDf: seq<RawRow>, stopNames: seq<StopName>, routeNames: seq<RouteEntry>, v: VisRow)
    requires Enrichment(routeDf, stopNames, routeNames).Ok?
    ensures v in Enrichment(routeDf, stopNames, routeNames).value.rows <==>
      v.row in routeDf && v.entry in routeNames && v.entry.route == v.row.obs.route &&
      |NamesOf(stopNames, v.row.obs.stop)| > 0 && v.stopName == NamesOf(stopNames, v.row.obs.stop)[0].name
  {
    var ids := StopIds(routeDf);
    var step := StopStep(routeDf, stopNames, routeNames);
    var frames := StopFrames(ids, step).value;
    assert Enrichment(routeDf, stopNames, routeNames).value.rows == Concat(frames);
    InConcat(frames, v);
    if v in Concat(frames) {
      var k :| 0 <= k < |frames| && v in frames[k];
      FrameRowOrigin(routeDf, stopNames, routeNames, frames[k], v);
    }
    if v.row in routeDf && v.entry in routeNames && v.entry.route == v.row.obs.route &&
      |NamesOf(stopNames, v.row.obs.stop)| > 0 && v.stopName == NamesOf(stopNames, v.row.obs.stop)[0].name
    {
      RowFrameCollected(routeDf, stopNames, routeNames, v);
      var fr :| fr in frames && v in fr;
      var k :| 0 <= k < |frames| && frames[k] == fr;
    }
  }

  lemma FrameRowOrigin(routeDf: seq<RawRow>, stopNames: seq<StopName>, routeNames: seq<RouteEntry>, fr: seq<VisRow>, v: VisRow)
    requires StopFrames(StopIds(routeDf), StopStep(routeDf, stopNames, routeNames)).Ok?
    requires fr in StopFrames(StopIds(routeDf), StopStep(routeDf, stopNames, routeNames)).value && v in fr
    ensures v.row in routeDf && v.entry in routeNames && v.entry.route == v.row.obs.route
    ensures |NamesOf(stopNames, v.row.obs.stop)| > 0 && v.stopName == NamesOf(stopNames, v.row.obs.stop)[0].name
  {
    var ids := StopIds(routeDf);
    var step := StopStep(routeDf, stopNames, routeNames);
    InStopFrames(ids, step, fr);
    var j :| 0 <= j < |ids| && step(ids[j]) == Ok([fr]);
    StopFrameRows(routeDf, ids[j], stopNames, routeNames, fr, v);
  }

  lemma RowFrameCollected(routeDf: seq<RawRow>, stopNames: seq<StopName>, routeNames: seq<RouteEntry>, v: VisRow)
    requires StopFrames(StopIds(routeDf), StopStep(routeDf, stopNames, routeNames)).Ok?
    requires v.row in routeDf && v.entry in routeNames && v.entry.route == v.row.obs.route
    requires |NamesOf(stopNames, v.row.obs.stop)| > 0 && v.stopName == NamesOf(stopNames, v.row.obs.stop)[0].name
    ensures exists fr ::
      fr in StopFrames(StopIds(routeDf), StopStep(routeDf, stopNames, routeNames)).value && v in fr
  {
    var ids := StopIds(routeDf);
    var step := StopStep(routeDf, stopNames, routeNames);
    var s := v.row.obs.stop;
    StopIdsHaveRows(routeDf, s);
    assert v.row in Filter(routeDf, AtStop(s));
    var j :| 0 <= j < |ids| && ids[j] == s;
    StopFramesOk(ids, step);
    var r := step(ids[j]);
    assert r == StopFrame(routeDf, s, stopNames, routeNames);
    assert r.Ok? && r.value != [];
    var merged := r.value[0];
    assert r == Ok([merged]);
    StopFrameRows(routeDf, s, stopNames, routeNames, merged, v);
    InStopFrames(ids, step, merged);
  }

  /** Every merged frame of direction `p` starts with the first route entry of `p`. */
  lemma StopFrameHead(routeDf: seq<RawRow>, p: int, s: int, stopNames: seq<StopName>, routeNames: seq<RouteEntry>, merged: seq<VisRow>)
    requires forall x :: x in routeDf ==> x.obs.route == p
    requires StopFrame(routeDf, s, stopNames, routeNames) == Ok([merged])
    ensures |EntriesOf(routeNames, p)| > 0 && |merged| > 0 && merged[0].entry == EntriesOf(routeNames, p)[0]
  {
    var stopDf := Filter(routeDf, AtStop(s));
    var names := NamesOf(stopNames, s);
    var sorted := SortWith(stopDf, ByRequestThenForecast);
    var join := JoinRow(routeNames, names[0].name);
    var cm := ConcatMap(sorted, join);
    StopFrameOkIff(routeDf, p, s, stopNames, routeNames);
    assert sorted[0] in sorted;
    InSortWith(stopDf, ByRequestThenForecast, sorted[0]);
    assert |join(sorted[0])| > 0;
    ConcatMapHead(sorted, join);
    DistinctHead(cm);
  }

  /**
   * The name of an enriched direction `p` is its first route entry's label
   * `"<transport_type> <number>"`, translated.
   */
  lemma EnrichedRouteName(routeDf: seq<RawRow>, p: int, stopNames: seq<StopName>, routeNames: seq<RouteEntry>)
    requires forall x :: x in routeDf ==> x.obs.route == p
    requires Enrichment(routeDf, stopNames, routeNames).Ok?
    ensures |EntriesOf(routeNames, p)| > 0
    ensures Enrichment(routeDf, stopNames, routeNames).value.name ==
      Translate(Label(EntriesOf(routeNames, p)[0].transportType, EntriesOf(routeNames, p)[0].number))
  {
    var ids := StopIds(routeDf);
    var step := StopStep(routeDf, stopNames, routeNames);
    var frames := StopFrames(ids, step).value;
    var fr := frames[|frames| - 1];
    InStopFrames(ids, step, fr);
    var j :| 0 <= j < |ids| && step(ids[j]) == Ok([fr]);
    StopFrameHead(routeDf, p, ids[j], stopNames, routeNames, fr);
  }
}
