/**
 * `visualize_actual_arrival_time_by_transport`
 * (`examples/3_visualize_actual_arrival_by_transport.py`) on the table of
 * actual arrivals: only scheduled rows are kept and collapsed to one row per
 * (stop, route direction, vehicle, case); each route entry of the stop table
 * gets a transport label from its type and number (tram, minibus or bus);
 * and the collapsed rows are joined with the labelled entries of their route.
 */
module TransportLabels {
  import opened Collections
  import opened Rows
  import opened ArrivalTime
  import opened StopEnrichment

  const Tram: string := "трамвай"
  const Minibus: string := "маршрутка"
  const Bus: string := "автобус"

  /**
   * The label of one route entry: `tram` is a tram; otherwise a number with
   * a Cyrillic `К`/`к` is a minibus unless it starts with `т`; everything
   * else is a bus.
   */
  function TransportLabel(transportType: string, number: string): string {
    if transportType == "tram" then Tram
    else if 'К' in number || 'к' in number then
      if number[0] != 'т' then Minibus else Bus
    else Bus
  }

  /** `stop_from_repo` with its `transport_type` column replaced by the labels. */
  function Relabelled(entries: seq<RouteEntry>): seq<RouteEntry> {
    seq(|entries|, i requires 0 <= i < |entries| =>
      entries[i].(transportType := TransportLabel(entries[i].transportType, entries[i].number)))
  }

  /** The labelling loop, with the column assignment that follows it: one label per entry, by position. */
  method LabelTransportTypes(stopFromRepo: seq<RouteEntry>) returns (labelled: seq<RouteEntry>)
    ensures labelled == Relabelled(stopFromRepo)
  {
    var updatedTransportTypes: seq<string> := [];
    var k := 0;
    while k < |stopFromRepo|
      invariant 0 <= k <= |stopFromRepo|
      invariant |updatedTransportTypes| == k
      invariant forall i :: 0 <= i < k ==>
        updatedTransportTypes[i] == TransportLabel(stopFromRepo[i].transportType, stopFromRepo[i].number)
    {
      var row := stopFromRepo[k];
      if row.transportType == "tram" {
        updatedTransportTypes := updatedTransportTypes + [Tram];
      } else {
        if 'К' in row.number || 'к' in row.number {
          if row.number[0] != 'т' {
            updatedTransportTypes := updatedTransportTypes + [Minibus];
          } else {
            updatedTransportTypes := updatedTransportTypes + [Bus];
          }
        } else {
          updatedTransportTypes := updatedTransportTypes + [Bus];
        }
      }
      k := k + 1;
    }
    labelled := seq(|stopFromRepo|, i requires 0 <= i < |stopFromRepo| =>
      stopFromRepo[i].(transportType := updatedTransportTypes[i]));
  }

  /**
   * Each label names exactly one class of entries: trams by type, minibuses
   * by a `К`/`к` in a non-tram number not starting with `т`, buses otherwise.
   */
  lemma TransportLabelClasses(transportType: string, number: string)
    ensures TransportLabel(transportType, number) in {Tram, Minibus, Bus}
    ensures TransportLabel(transportType, number) == Tram <==> transportType == "tram"
    ensures TransportLabel(transportType, number) == Minibus <==>
      transportType != "tram" && ('К' in number || 'к' in number) && number[0] != 'т'
    ensures TransportLabel(transportType, number) == Bus <==>
      transportType != "tram" && (('К' !in number && 'к' !in number) || number[0] == 'т')
  {
    assert Tram != Minibus && Tram != Bus && Minibus != Bus by {
      assert Tram[0] != Minibus[0] && Tram[0] != Bus[0] && Minibus[0] != Bus[0];
    }
  }

  /** The grouping key `['stop_id', 'route_path_id', 'tmId', 'case']`. */
  datatype GroupKey = GroupKey(stop: int, route: int, vehicle: int, caseIndex: int)

  /** A collapsed row: its key, the first arrival and the deviations' sum over `size` rows. */
  datatype CaseSummary = CaseSummary(key: GroupKey, firstArrival: int, deviationSum: int, size: nat)

  /** A row of the chart table: a collapsed row joined with a labelled entry of its route. */
  datatype LabelledCase = LabelledCase(summary: CaseSummary, entry: RouteEntry)

  function KeyOf(r: ArrivalRow): GroupKey {
    GroupKey(r.obs.stop, r.obs.route, r.obs.vehicle, r.caseIndex)
  }

  function Keys(rows: seq<ArrivalRow>): seq<GroupKey> {
    seq(|rows|, i requires 0 <= i < |rows| => KeyOf(rows[i]))
  }

  /** `groupby` orders its groups by the key columns, lexicographically. */
  predicate KeyLe(a: GroupKey, b: GroupKey) {
    a.stop < b.stop || (a.stop == b.stop &&
      (a.route < b.route || (a.route == b.route &&
        (a.vehicle < b.vehicle || (a.vehicle == b.vehicle && a.caseIndex <= b.caseIndex)))))
  }

  predicate Scheduled(r: ArrivalRow) {
    !r.obs.byTelemetry
  }

  function WithKey(k: GroupKey): ArrivalRow -> bool {
    (r: ArrivalRow) => KeyOf(r) == k
  }

  function ArrivalDeviations(rows: seq<ArrivalRow>): seq<int> {
    seq(|rows|, i requires 0 <= i < |rows| => rows[i].arrival - rows[i].obs.forecast)
  }

  /** `actual[actual['byTelemetry'] == 0]`. */
  function ScheduledOnly(actual: seq<ArrivalRow>): seq<ArrivalRow> {
    Filter(actual, Scheduled)
  }

  function SummaryOf(k: GroupKey, members: seq<ArrivalRow>): CaseSummary
    requires |members| > 0
  {
    CaseSummary(k, members[0].arrival, Sum(ArrivalDeviations(members)), |members|)
  }

  /** The keys of the groups among the scheduled rows, in `groupby` order. */
  function GroupKeys(sched: seq<ArrivalRow>): seq<GroupKey> {
    SortWith(Distinct(Keys(sched)), KeyLe)
  }

  lemma InGroupKeys(sched: seq<ArrivalRow>, k: GroupKey)
    ensures k in GroupKeys(sched) <==> exists r :: r in sched && KeyOf(r) == k
  {
    var d := Distinct(Keys(sched));
    assert k in GroupKeys(sched) <==> k in multiset(GroupKeys(sched));
    assert k in d <==> k in multiset(d);
    if k in d {
      var i :| 0 <= i < |sched| && Keys(sched)[i] == k;
      assert sched[i] in sched;
    }
    if exists r :: r in sched && KeyOf(r) == k {
      var r :| r in sched && KeyOf(r) == k;
      var i :| 0 <= i < |sched| && sched[i] == r;
      assert Keys(sched)[i] == k;
    }
  }

  /** The `groupby(...).agg(first, mean)` over the scheduled rows. */
  function Summaries(actual: seq<ArrivalRow>): seq<CaseSummary> {
    var sched := ScheduledOnly(actual);
    var keys := GroupKeys(sched);
    GroupsNonEmpty(sched);
    seq(|keys|, i requires 0 <= i < |keys| => SummaryOf(keys[i], Filter(sched, WithKey(keys[i]))))
  }

  /** Every group key has at least one row. */
  lemma GroupsNonEmpty(sched: seq<ArrivalRow>)
    ensures forall k :: k in GroupKeys(sched) ==> |Filter(sched, WithKey(k))| > 0
  {
    forall k | k in GroupKeys(sched) ensures |Filter(sched, WithKey(k))| > 0 {
      InGroupKeys(sched, k);
      var r :| r in sched && KeyOf(r) == k;
      assert r in Filter(sched, WithKey(k));
    }
  }

  /** The merge on `route_path_id` with the labelled entries. */
  function JoinRoute(entries: seq<RouteEntry>): CaseSummary -> seq<LabelledCase> {
    (s: CaseSummary) =>
      var es := EntriesOf(entries, s.key.route);
      seq(|es|, i requires 0 <= i < |es| => LabelledCase(s, es[i]))
  }

  /** `df_for_visualization` after the merge with the deduplicated, labelled stop table and `drop_duplicates`. */
  function ChartTable(actual: seq<ArrivalRow>, stopFromRepo: seq<RouteEntry>): seq<LabelledCase> {
    Distinct(ConcatMap(Summaries(actual), JoinRoute(Relabelled(Distinct(stopFromRepo)))))
  }

  /** The table the box plot is drawn from. */
  method VisualizeByTransport(actual: seq<ArrivalRow>, stopFromRepo: seq<RouteEntry>)
    returns (table: seq<LabelledCase>)
    ensures table == ChartTable(actual, stopFromRepo)
  {
    var summaries := Summaries(actual);
    var entries := Distinct(stopFromRepo);
    var labelled := LabelTransportTypes(entries);
    table := Distinct(ConcatMap(summaries, JoinRoute(labelled)));
  }

  /**
   * Telemetry rows take no part in the chart: dropping them, or adding more
   * of them, leaves the collapsed rows as they are.
   */
  lemma TelemetryIgnored(actual: seq<ArrivalRow>, telemetry: seq<ArrivalRow>)
    requires forall r :: r in telemetry ==> r.obs.byTelemetry
    ensures Summaries(actual + telemetry) == Summaries(actual)
    ensures Summaries(ScheduledOnly(actual)) == Summaries(actual)
  {
    FilterAppend(actual, telemetry, Scheduled);
    FilterAllFail(telemetry, Scheduled);
    assert ScheduledOnly(actual + telemetry) == ScheduledOnly(actual);
    FilterIdempotent(actual, Scheduled);
  }

  /** A group is collapsed exactly when it has a scheduled row, and collapsed once. */
  lemma SummaryKeys(actual: seq<ArrivalRow>, k: GroupKey)
    ensures (exists i :: 0 <= i < |Summaries(actual)| && Summaries(actual)[i].key == k) <==>
      exists r :: r in actual && !r.obs.byTelemetry && KeyOf(r) == k
    ensures forall i, j :: 0 <= i < j < |Summaries(actual)| ==> Summaries(actual)[i].key != Summaries(actual)[j].key
  {
    var sched := ScheduledOnly(actual);
    var keys := GroupKeys(sched);
    var sums := Summaries(actual);
    assert forall i :: 0 <= i < |keys| ==> sums[i].key == keys[i];
    MultisetNoDuplicates(keys, Distinct(Keys(sched)));
    InGroupKeys(sched, k);
    if exists i :: 0 <= i < |sums| && sums[i].key == k {
      var i :| 0 <= i < |sums| && sums[i].key == k;
      assert keys[i] == k;
    }
    if k in keys {
      var i :| 0 <= i < |keys| && keys[i] == k;
      assert sums[i].key == k;
    }
  }

  /**
   * A collapsed row counts the scheduled rows of its group, takes the arrival
   * of the first of them, and its total deviation lies between the count
   * times the group's smallest and largest deviation.
   */
  lemma SummaryRow(actual: seq<ArrivalRow>, i: int)
    requires 0 <= i < |Summaries(actual)|
    ensures var s := Summaries(actual)[i];
      var members := Filter(ScheduledOnly(actual), WithKey(s.key));
      && s.size == |members| > 0
      && (forall r :: r in members <==> r in actual && !r.obs.byTelemetry && KeyOf(r) == s.key)
      && s.firstArrival == members[0].arrival
      && s.size * Min(ArrivalDeviations(members)) <= s.deviationSum <= s.size * Max(ArrivalDeviations(members))
  {
    var sched := ScheduledOnly(actual);
    var keys := GroupKeys(sched);
    var k := keys[i];
    var members := Filter(sched, WithKey(k));
    assert keys[i] in keys;
    InGroupKeys(sched, k);
    var r :| r in sched && KeyOf(r) == k;
    assert r in members;
    var s := SummaryOf(k, members);
    assert Summaries(actual)[i] == s;
    var devs := ArrivalDeviations(members);
    forall x | x in devs ensures Min(devs) <= x <= Max(devs) {
    }
    SumBounds(devs, Min(devs), Max(devs));
  }

  lemma InJoinRoute(entries: seq<RouteEntry>, s: CaseSummary, x: LabelledCase)
    ensures x in JoinRoute(entries)(s) <==> x.summary == s && x.entry in entries && x.entry.route == s.key.route
  {
    var es := EntriesOf(entries, s.key.route);
    if x.summary == s && x.entry in entries && x.entry.route == s.key.route {
      var i :| 0 <= i < |es| && es[i] == x.entry;
      assert JoinRoute(entries)(s)[i] == x;
    }
  }

  /**
   * The chart joins every collapsed row with every entry of its route in the
   * stop table, each under its label, and lists each pair once.
   */
  lemma InChartTable(actual: seq<ArrivalRow>, stopFromRepo: seq<RouteEntry>, x: LabelledCase)
    ensures NoDuplicates(ChartTable(actual, stopFromRepo))
    ensures x in ChartTable(actual, stopFromRepo) <==>
      x.summary in Summaries(actual) && x.entry.route == x.summary.key.route &&
      exists e :: e in stopFromRepo && x.entry == e.(transportType := TransportLabel(e.transportType, e.number))
  {
    var labelled := Relabelled(Distinct(stopFromRepo));
    InJoined(Summaries(actual), labelled, x);
    InRelabelled(Distinct(stopFromRepo), x.entry);
  }

  /** An entry is relabelled exactly when it is some entry with its label in place of its transport type. */
  lemma InRelabelled(entries: seq<RouteEntry>, y: RouteEntry)
    ensures y in Relabelled(entries) <==>
      exists e :: e in entries && y == e.(transportType := TransportLabel(e.transportType, e.number))
  {
    var labelled := Relabelled(entries);
    if y in labelled {
      var j :| 0 <= j < |labelled| && labelled[j] == y;
      assert entries[j] in entries;
    }
    if exists e :: e in entries && y == e.(transportType := TransportLabel(e.transportType, e.number)) {
      var e :| e in entries && y == e.(transportType := TransportLabel(e.transportType, e.number));
      var j :| 0 <= j < |entries| && entries[j] == e;
      assert labelled[j] == y;
    }
  }

  /** The join pairs every summary with every entry of its route. */
  lemma InJoined(sums: seq<CaseSummary>, labelled: seq<RouteEntry>, x: LabelledCase)
    ensures x in ConcatMap(sums, JoinRoute(labelled)) <==>
      x.summary in sums && x.entry in labelled && x.entry.route == x.summary.key.route
  {
    var join := JoinRoute(labelled);
    InConcatMap(sums, join, x);
    if x in ConcatMap(sums, join) {
      var k :| 0 <= k < |sums| && x in join(sums[k]);
      InJoinRoute(labelled, sums[k], x);
    }
    if x.summary in sums && x.entry in labelled && x.entry.route == x.summary.key.route {
      InJoinRoute(labelled, x.summary, x);
      var k :| 0 <= k < |sums| && sums[k] == x.summary;
    }
  }
}
