/**
 * The seventeen named views that `process_yearly_data` derives from one year's
 * normalised rows (and, for three of them, from the airport reference).
 * Grouped views are maps from the group key to the reduced values; the one view
 * whose row order is part of its meaning, `airlines_most_delays`, is a sequence.
 */
module Views {
  import opened Nullable
  import opened Flights
  import opened GroupBy
  import opened Ranking

  // ---------------------------------------------------------------- columns

  /** The numeric columns that views average. */
  datatype Measure =
    | DepDelay | ArrDelay | Cancelled
    | CarrierDelay | WeatherDelay | NasDelay | SecurityDelay | LateAircraftDelay
    | TaxiIn | TaxiOut

  function Value(r: NormRecord, m: Measure): Option<real>
  {
    match m
    case DepDelay => r.rec.depDelay
    case ArrDelay => r.rec.arrDelay
    case Cancelled => Some(r.rec.cancelled)
    case CarrierDelay => r.rec.carrierDelay
    case WeatherDelay => r.rec.weatherDelay
    case NasDelay => r.rec.nasDelay
    case SecurityDelay => r.rec.securityDelay
    case LateAircraftDelay => r.rec.lateAircraftDelay
    case TaxiIn => r.rec.taxiIn
    case TaxiOut => r.rec.taxiOut
  }

  /** A value column of the frame. */
  function Values(rows: seq<NormRecord>, m: Measure): (c: seq<Option<real>>)
    ensures |c| == |rows|
  {
    seq(|rows|, i requires 0 <= i < |rows| => Value(rows[i], m))
  }

  function Carriers(rows: seq<NormRecord>): (c: seq<Option<string>>)
    ensures |c| == |rows|
  {
    seq(|rows|, i requires 0 <= i < |rows| => Some(rows[i].rec.opCarrier))
  }

  function Origins(rows: seq<NormRecord>): (c: seq<Option<string>>)
    ensures |c| == |rows|
  {
    seq(|rows|, i requires 0 <= i < |rows| => Some(rows[i].rec.origin))
  }

  function Months(rows: seq<NormRecord>): (c: seq<Option<YearMonth>>)
    ensures |c| == |rows|
  {
    seq(|rows|, i requires 0 <= i < |rows| => Some(rows[i].month))
  }

  /** `data['FL_DATE'].dt.date`. */
  function Days(rows: seq<NormRecord>): (c: seq<Option<Date>>)
    ensures |c| == |rows|
  {
    seq(|rows|, i requires 0 <= i < |rows| => Some(rows[i].rec.flDate))
  }

  function Hours(rows: seq<NormRecord>): (c: seq<Option<int>>)
    ensures |c| == |rows|
  {
    seq(|rows|, i requires 0 <= i < |rows| => Some(rows[i].hour))
  }

  function OriginStates(rows: seq<NormRecord>): (c: seq<Option<string>>)
    ensures |c| == |rows|
  {
    seq(|rows|, i requires 0 <= i < |rows| => rows[i].originState)
  }

  function DestStates(rows: seq<NormRecord>): (c: seq<Option<string>>)
    ensures |c| == |rows|
  {
    seq(|rows|, i requires 0 <= i < |rows| => rows[i].destState)
  }

  function CancellationCodes(rows: seq<NormRecord>): (c: seq<Option<string>>)
    ensures |c| == |rows|
  {
    seq(|rows|, i requires 0 <= i < |rows| => rows[i].rec.cancellationCode)
  }

  /** The (ORIGIN, DEST) key. */
  function Routes(rows: seq<NormRecord>): (c: seq<Option<(string, string)>>)
    ensures |c| == |rows|
  {
    seq(|rows|, i requires 0 <= i < |rows| => Some((rows[i].rec.origin, rows[i].rec.dest)))
  }

  /** The (DISTANCE, ARR_DELAY, OP_CARRIER) key, missing when any part of it is. */
  function DistanceDelayKey(r: NormRecord): Option<(real, real, string)>
  {
    if r.rec.distance.Some? && r.rec.arrDelay.Some?
    then Some((r.rec.distance.value, r.rec.arrDelay.value, r.rec.opCarrier))
    else None
  }

  function DistanceDelayKeys(rows: seq<NormRecord>): (c: seq<Option<(real, real, string)>>)
    ensures |c| == |rows|
  {
    seq(|rows|, i requires 0 <= i < |rows| => DistanceDelayKey(rows[i]))
  }

  /** The (ORIGIN, LATITUDE, LONGITUDE) key, missing when a coordinate is. */
  function LocationKey(r: NormRecord): Option<(string, real, real)>
  {
    if r.latitude.Some? && r.longitude.Some?
    then Some((r.rec.origin, r.latitude.value, r.longitude.value))
    else None
  }

  function LocationKeys(rows: seq<NormRecord>): (c: seq<Option<(string, real, real)>>)
    ensures |c| == |rows|
  {
    seq(|rows|, i requires 0 <= i < |rows| => LocationKey(rows[i]))
  }

  // ---------------------------------------------------------------- row types of the views

  datatype CauseMeans = CauseMeans(
    carrier: Option<real>, weather: Option<real>, nas: Option<real>,
    security: Option<real>, lateAircraft: Option<real>)

  datatype MonthlyMeans = MonthlyMeans(depDelay: Option<real>, arrDelay: Option<real>, cancelled: Option<real>)

  /** A row of origin_dest_counts: its Flight Count and the states joined back onto the route. */
  datatype RouteCount = RouteCount(flights: nat, originState: Option<string>, destState: Option<string>)

  /** A row of origin_state_data or destination_state_data after the left merge with state_airport_count. */
  datatype StateCounts = StateCounts(flights: nat, airports: Option<nat>)

  datatype TaxiMeans = TaxiMeans(taxiIn: Option<real>, taxiOut: Option<real>)

  // ---------------------------------------------------------------- the views

  /** carrier_delays: the five delay-cause means per carrier. */
  function CarrierDelays(rows: seq<NormRecord>): (v: map<string, CauseMeans>)
    ensures v.Keys == KeySet(Carriers(rows))
  {
    var k := Carriers(rows);
    map c | c in KeySet(k) ::
      CauseMeans(
        GroupMean(k, Values(rows, CarrierDelay), c), GroupMean(k, Values(rows, WeatherDelay), c),
        GroupMean(k, Values(rows, NasDelay), c), GroupMean(k, Values(rows, SecurityDelay), c),
        GroupMean(k, Values(rows, LateAircraftDelay), c))
  }

  /** monthly_aggregates: DEP_DELAY, ARR_DELAY and CANCELLED means per month. */
  function MonthlyAggregates(rows: seq<NormRecord>): (v: map<YearMonth, MonthlyMeans>)
    ensures v.Keys == KeySet(Months(rows))
  {
    var k := Months(rows);
    map m | m in KeySet(k) ::
      MonthlyMeans(GroupMean(k, Values(rows, DepDelay), m), GroupMean(k, Values(rows, ArrDelay), m),
                   GroupMean(k, Values(rows, Cancelled), m))
  }

  /** state_flight_counts: rows per ORIGIN_STATE; rows with an unknown state are dropped. */
  function StateFlightCounts(rows: seq<NormRecord>): (v: map<string, nat>)
    ensures v.Keys == KeySet(OriginStates(rows))
    ensures forall x :: x in v ==> 1 <= v[x] <= |rows|
  {
    Size(OriginStates(rows))
  }

  /** origin_dest_counts: rows per (ORIGIN, DEST), with both codes' states looked up afterwards. */
  function OriginDestCounts(rows: seq<NormRecord>, airports: Airports): (v: map<(string, string), RouteCount>)
    ensures v.Keys == KeySet(Routes(rows))
  {
    var sizes := Size(Routes(rows));
    map r | r in sizes :: RouteCount(sizes[r], StateOf(airports, r.0), StateOf(airports, r.1))
  }

  /** airport_delays: mean DEP_DELAY per origin. */
  function AirportDelays(rows: seq<NormRecord>): (v: map<string, Option<real>>)
    ensures v.Keys == KeySet(Origins(rows))
  {
    MeanBy(Origins(rows), Values(rows, DepDelay))
  }

  /** daily_delay_trend: mean ARR_DELAY per calendar day. */
  function DailyDelayTrend(rows: seq<NormRecord>): (v: map<Date, Option<real>>)
    ensures v.Keys == KeySet(Days(rows))
  {
    MeanBy(Days(rows), Values(rows, ArrDelay))
  }

  /** cancellation_reasons: `value_counts()` of CANCELLATION_CODE. */
  function CancellationReasons(rows: seq<NormRecord>): (v: map<string, nat>)
    ensures v.Keys == KeySet(CancellationCodes(rows))
    ensures forall x :: x in v ==> 1 <= v[x] <= |rows|
  {
    Size(CancellationCodes(rows))
  }

  /** distance_vs_delay: multiplicity of each fully present (DISTANCE, ARR_DELAY, OP_CARRIER) triple. */
  function DistanceVsDelay(rows: seq<NormRecord>): (v: map<(real, real, string), nat>)
    ensures v.Keys == KeySet(DistanceDelayKeys(rows))
    ensures forall x :: x in v ==> 1 <= v[x] <= |rows|
  {
    Size(DistanceDelayKeys(rows))
  }

  /** airport_bubble_map: mean ARR_DELAY per (ORIGIN, LATITUDE, LONGITUDE). */
  function AirportBubbleMap(rows: seq<NormRecord>): (v: map<(string, real, real), Option<real>>)
    ensures v.Keys == KeySet(LocationKeys(rows))
  {
    MeanBy(LocationKeys(rows), Values(rows, ArrDelay))
  }

  /** departure_delay_by_hour: mean DEP_DELAY per Hour bucket. */
  function DepartureDelayByHour(rows: seq<NormRecord>): (v: map<int, Option<real>>)
    ensures v.Keys == KeySet(Hours(rows))
  {
    MeanBy(Hours(rows), Values(rows, DepDelay))
  }

  /** cancellation_percentage_by_carrier: mean CANCELLED per carrier. */
  function CancellationRateByCarrier(rows: seq<NormRecord>): (v: map<string, Option<real>>)
    ensures v.Keys == KeySet(Carriers(rows))
  {
    MeanBy(Carriers(rows), Values(rows, Cancelled))
  }

  /** The carriers of the year, each once, in order of first appearance. */
  function CarrierList(rows: seq<NormRecord>): (cs: seq<string>)
    ensures forall c :: c in cs <==> c in KeySet(Carriers(rows))
    ensures forall i, j :: 0 <= i < j < |cs| ==> cs[i] != cs[j]
  {
    var all := seq(|rows|, i requires 0 <= i < |rows| => rows[i].rec.opCarrier);
    var k := Carriers(rows);
    assert forall c :: c in all <==> Some(c) in k by {
      forall c ensures c in all <==> Some(c) in k {
        if c in all {
          var i :| 0 <= i < |all| && all[i] == c;
          assert k[i] == Some(c);
        }
        if Some(c) in k {
          var i :| 0 <= i < |k| && k[i] == Some(c);
          assert all[i] == c;
        }
      }
    }
    Distinct(all)
  }

  /** Mean ARR_DELAY per carrier, before sorting: one row per carrier of the year. */
  function CarrierArrivalMeans(rows: seq<NormRecord>): (s: seq<Scored<string>>)
    ensures DistinctKeys(s)
    ensures ScoredKeys(s) == KeySet(Carriers(rows))
    ensures forall i :: 0 <= i < |s| ==> s[i].1 == GroupMean(Carriers(rows), Values(rows, ArrDelay), s[i].0)
  {
    var cs := CarrierList(rows);
    var k, a := Carriers(rows), Values(rows, ArrDelay);
    var s := seq(|cs|, i requires 0 <= i < |cs| => (cs[i], GroupMean(k, a, cs[i])));
    assert forall c :: c in cs ==> c in ScoredKeys(s) by {
      forall c | c in cs ensures c in ScoredKeys(s) {
        var j :| 0 <= j < |cs| && cs[j] == c;
        assert s[j].0 == c;
      }
    }
    s
  }

  /** airlines_most_delays: mean ARR_DELAY per carrier, sorted by that mean, highest first. */
  function AirlinesMostDelays(rows: seq<NormRecord>): (s: seq<Scored<string>>)
    ensures SortedDesc(s)
    ensures DistinctKeys(s)
    ensures ScoredKeys(s) == KeySet(Carriers(rows))
  {
    SortDescEntries(CarrierArrivalMeans(rows));
    SortDesc(CarrierArrivalMeans(rows))
  }

  /** taxi_times: TAXI_IN and TAXI_OUT means per carrier. */
  function TaxiTimes(rows: seq<NormRecord>): (v: map<string, TaxiMeans>)
    ensures v.Keys == KeySet(Carriers(rows))
  {
    var k := Carriers(rows);
    map c | c in KeySet(k) :: TaxiMeans(GroupMean(k, Values(rows, TaxiIn), c), GroupMean(k, Values(rows, TaxiOut), c))
  }

  /** taxi_hourly: TAXI_IN and TAXI_OUT means per Hour bucket. */
  function TaxiHourly(rows: seq<NormRecord>): (v: map<int, TaxiMeans>)
    ensures v.Keys == KeySet(Hours(rows))
  {
    var k := Hours(rows);
    map h | h in KeySet(k) :: TaxiMeans(GroupMean(k, Values(rows, TaxiIn), h), GroupMean(k, Values(rows, TaxiOut), h))
  }

  /** The codes of the reference whose STATE is `s`. */
  function AirportsIn(airports: Airports, s: string): set<string>
  {
    set c | c in airports && airports[c].state == Some(s)
  }

  /** The states of the reference; airports without a state form no group. */
  function ReferenceStates(airports: Airports): set<string>
  {
    set c | c in airports && airports[c].state.Some? :: airports[c].state.value
  }

  /** state_airport_count: airports of the reference per STATE. */
  function StateAirportCount(airports: Airports): (v: map<string, nat>)
    ensures v.Keys == ReferenceStates(airports)
  {
    map s | s in ReferenceStates(airports) :: |AirportsIn(airports, s)|
  }

  /** The left merge with state_airport_count: the airport count of a state, missing when it has none. */
  function MergeAirportCount(counts: map<string, nat>, airports: Airports): (v: map<string, StateCounts>)
    ensures v.Keys == counts.Keys
  {
    var perState := StateAirportCount(airports);
    map s | s in counts :: StateCounts(counts[s], if s in perState then Some(perState[s]) else None)
  }

  /** origin_state_data: `value_counts()` of ORIGIN_STATE merged with the airport counts. */
  function OriginStateData(rows: seq<NormRecord>, airports: Airports): (v: map<string, StateCounts>)
    ensures v.Keys == KeySet(OriginStates(rows))
    ensures forall s :: s in v ==> 1 <= v[s].flights <= |rows|
  {
    MergeAirportCount(Size(OriginStates(rows)), airports)
  }

  /** destination_state_data: `value_counts()` of DEST_STATE merged with the airport counts. */
  function DestinationStateData(rows: seq<NormRecord>, airports: Airports): (v: map<string, StateCounts>)
    ensures v.Keys == KeySet(DestStates(rows))
    ensures forall s :: s in v ==> 1 <= v[s].flights <= |rows|
  {
    MergeAirportCount(Size(DestStates(rows)), airports)
  }

  // ---------------------------------------------------------------- the catalogue

  /** A view as a table, by shape. */
  datatype View =
    | CauseTable(byCarrier: map<string, CauseMeans>)
    | MonthTable(byMonth: map<YearMonth, MonthlyMeans>)
    | CountTable(counts: map<string, nat>)
    | RouteTable(byRoute: map<(string, string), RouteCount>)
    | MeanTable(means: map<string, Option<real>>)
    | DayTable(byDay: map<Date, Option<real>>)
    | JointTable(joint: map<(real, real, string), nat>)
    | LocationTable(byLocation: map<(string, real, real), Option<real>>)
    | HourTable(byHour: map<int, Option<real>>)
    | RankedTable(ranked: seq<Scored<string>>)
    | StateTable(byState: map<string, StateCounts>)
    | TaxiCarrierTable(taxiByCarrier: map<string, TaxiMeans>)
    | TaxiHourTable(taxiByHour: map<int, TaxiMeans>)

  /** The names of the views, in the order they are written. */
  const ViewNames: seq<string> := [
    "carrier_delays", "monthly_aggregates", "state_flight_counts", "origin_dest_counts",
    "airport_delays", "daily_delay_trend", "cancellation_reasons", "distance_vs_delay",
    "airport_bubble_map", "departure_delay_by_hour", "cancellation_percentage_by_carrier",
    "airlines_most_delays", "state_airport_count", "origin_state_data", "destination_state_data",
    "taxi_times", "taxi_hourly"]

  lemma ViewCount()
    ensures |ViewNames| == 17
  {
  }

  /** Seventeen names, no two alike. */
  lemma ViewNamesDistinct()
    ensures |ViewNames| == 17
    ensures forall i, j :: 0 <= i < j < |ViewNames| ==> ViewNames[i] != ViewNames[j]
  {
  }

  /** The seventeen tables, in the order of `ViewNames`. */
  function Tables(rows: seq<NormRecord>, airports: Airports): (ts: seq<View>)
    ensures |ts| == 17
  {
    [CauseTable(CarrierDelays(rows)),
     MonthTable(MonthlyAggregates(rows)),
     CountTable(StateFlightCounts(rows)),
     RouteTable(OriginDestCounts(rows, airports)),
     MeanTable(AirportDelays(rows)),
     DayTable(DailyDelayTrend(rows)),
     CountTable(CancellationReasons(rows)),
     JointTable(DistanceVsDelay(rows)),
     LocationTable(AirportBubbleMap(rows)),
     HourTable(DepartureDelayByHour(rows)),
     MeanTable(CancellationRateByCarrier(rows)),
     RankedTable(AirlinesMostDelays(rows)),
     CountTable(StateAirportCount(airports)),
     StateTable(OriginStateData(rows, airports)),
     StateTable(DestinationStateData(rows, airports)),
     TaxiCarrierTable(TaxiTimes(rows)),
     TaxiHourTable(TaxiHourly(rows))]
  }

  /** Pairs each of seventeen tables with its name. */
  function Named<T>(ts: seq<T>): (vs: seq<(string, T)>)
    requires |ts| == |ViewNames|
    ensures |vs| == |ViewNames|
    ensures forall i :: 0 <= i < |vs| ==> vs[i] == (ViewNames[i], ts[i])
  {
    var names := ViewNames;
    seq(|names|, i requires 0 <= i < |names| => (names[i], ts[i]))
  }

  /** `all_datasets`: every view under its name, in the dictionary's order. */
  function AllViews(rows: seq<NormRecord>, airports: Airports): (vs: seq<(string, View)>)
    ensures |vs| == |ViewNames|
    ensures forall i :: 0 <= i < |vs| ==> vs[i] == (ViewNames[i], Tables(rows, airports)[i])
  {
    ViewCount();
    Named(Tables(rows, airports))
  }
}
