/**
 * What the views promise: which keys each one has, how its counts add up, what
 * its means are made of, and the order of the one sorted view.
 */
module ViewLaws {
  import opened Nullable
  import opened Flights
  import opened GroupBy
  import opened Ranking
  import opened Views

  /** A carrier is a group of the carrier-keyed views exactly when some row of the year flew it. */
  lemma CarrierGroups(rows: seq<NormRecord>)
    ensures forall c :: c in KeySet(Carriers(rows)) <==> exists i :: 0 <= i < |rows| && rows[i].rec.opCarrier == c
  {
    var k := Carriers(rows);
    forall c ensures c in KeySet(k) <==> exists i :: 0 <= i < |rows| && rows[i].rec.opCarrier == c {
      if c in KeySet(k) {
        var i :| 0 <= i < |k| && k[i] == Some(c);
        assert rows[i].rec.opCarrier == c;
      }
      if exists i :: 0 <= i < |rows| && rows[i].rec.opCarrier == c {
        var i :| 0 <= i < |rows| && rows[i].rec.opCarrier == c;
        assert k[i] == Some(c);
      }
    }
  }

  /**
   * carrier_delays, cancellation_percentage_by_carrier and taxi_times have one row per carrier
   * of the year, and no other.
   */
  lemma CarrierViewsShareKeys(rows: seq<NormRecord>)
    ensures forall c :: c in CarrierDelays(rows) <==> exists i :: 0 <= i < |rows| && rows[i].rec.opCarrier == c
    ensures CancellationRateByCarrier(rows).Keys == CarrierDelays(rows).Keys
    ensures TaxiTimes(rows).Keys == CarrierDelays(rows).Keys
  {
    CarrierGroups(rows);
  }

  /**
   * airlines_most_delays lists every carrier of the year once, each with its mean ARR_DELAY,
   * highest first and carriers without any ARR_DELAY last.
   */
  lemma AirlinesMostDelaysSpec(rows: seq<NormRecord>)
    ensures SortedDesc(AirlinesMostDelays(rows))
    ensures DistinctKeys(AirlinesMostDelays(rows))
    ensures ScoredKeys(AirlinesMostDelays(rows)) == CarrierDelays(rows).Keys
    ensures forall i :: 0 <= i < |AirlinesMostDelays(rows)| ==>
      AirlinesMostDelays(rows)[i].1 == GroupMean(Carriers(rows), Values(rows, ArrDelay), AirlinesMostDelays(rows)[i].0)
  {
    var s := CarrierArrivalMeans(rows);
    var r := AirlinesMostDelays(rows);
    assert SortedDesc(r);
    SortDescEntries(s);
    forall i | 0 <= i < |r| ensures r[i].1 == GroupMean(Carriers(rows), Values(rows, ArrDelay), r[i].0) {
      assert r[i] in s;
    }
  }

  /**
   * state_flight_counts counts every row whose origin has a known state, once; origin_state_data
   * carries the same counts for the same states.
   */
  lemma StateCountsAddUp(rows: seq<NormRecord>, airports: Airports)
    ensures TotalCount(StateFlightCounts(rows)) == Known(OriginStates(rows))
    ensures (forall i :: 0 <= i < |rows| ==> rows[i].originState.Some?) ==> TotalCount(StateFlightCounts(rows)) == |rows|
    ensures OriginStateData(rows, airports).Keys == StateFlightCounts(rows).Keys
    ensures forall s :: s in OriginStateData(rows, airports) ==> OriginStateData(rows, airports)[s].flights == StateFlightCounts(rows)[s]
  {
    SizesAddUp(OriginStates(rows));
    var k := OriginStates(rows);
    assert forall i :: 0 <= i < |rows| ==> k[i] == rows[i].originState;
  }

  /** origin_dest_counts counts every row exactly once, under its (ORIGIN, DEST) pair. */
  lemma RouteCountsAddUp(rows: seq<NormRecord>, airports: Airports)
    ensures (map r | r in OriginDestCounts(rows, airports) :: OriginDestCounts(rows, airports)[r].flights) == Size(Routes(rows))
    ensures TotalCount(Size(Routes(rows))) == |rows|
  {
    SizesAddUp(Routes(rows));
  }

  /** After normalisation a row's CANCELLATION_CODE is its own, or "None" where it was missing. */
  lemma FilledCancellationCodes(data: seq<FlightRecord>, airports: Airports)
    ensures |CancellationCodes(NormalizeAll(data, airports))| == |data|
    ensures forall i :: 0 <= i < |data| ==>
      CancellationCodes(NormalizeAll(data, airports))[i] == Some(data[i].cancellationCode.GetOr(CancellationFill))
  {
    var rows := NormalizeAll(data, airports);
    forall i | 0 <= i < |data| ensures CancellationCodes(rows)[i] == Some(data[i].cancellationCode.GetOr(CancellationFill)) {
      FillRowSpec(data[i]);
    }
  }

  /**
   * After normalisation every row has a CANCELLATION_CODE, so cancellation_reasons counts every row;
   * the "None" group holds the rows whose code was missing (and any that already read "None").
   */
  lemma CancellationReasonsAddUp(data: seq<FlightRecord>, airports: Airports)
    ensures TotalCount(CancellationReasons(NormalizeAll(data, airports))) == |data|
    ensures CancellationFill in CancellationReasons(NormalizeAll(data, airports)) <==>
      exists i :: 0 <= i < |data| && data[i].cancellationCode.GetOr(CancellationFill) == CancellationFill
  {
    var k := CancellationCodes(NormalizeAll(data, airports));
    FilledCancellationCodes(data, airports);
    assert TotalCount(CancellationReasons(NormalizeAll(data, airports))) == |data| by {
      SizesAddUp(k);
    }
    if exists i :: 0 <= i < |data| && data[i].cancellationCode.GetOr(CancellationFill) == CancellationFill {
      var i :| 0 <= i < |data| && data[i].cancellationCode.GetOr(CancellationFill) == CancellationFill;
      assert k[i] == Some(CancellationFill);
    }
  }

  /** The "None" reason counts exactly the rows whose code was missing or already read "None". */
  lemma NoneReasonCount(data: seq<FlightRecord>, airports: Airports)
    ensures CancellationFill in CancellationReasons(NormalizeAll(data, airports)) ==>
      CancellationReasons(NormalizeAll(data, airports))[CancellationFill] ==
        |set i | 0 <= i < |data| && data[i].cancellationCode.GetOr(CancellationFill) == CancellationFill|
  {
    var k := CancellationCodes(NormalizeAll(data, airports));
    FilledCancellationCodes(data, airports);
    CountInMatches(k, CancellationFill);
    assert (set i | 0 <= i < |k| && k[i] == Some(CancellationFill)) ==
      (set i | 0 <= i < |data| && data[i].cancellationCode.GetOr(CancellationFill) == CancellationFill);
  }

  /** A flag column between 0 and 1 gives a cancellation rate between 0 and 1 for every carrier. */
  lemma CancellationRatesInUnitInterval(rows: seq<NormRecord>)
    requires forall i :: 0 <= i < |rows| ==> 0.0 <= rows[i].rec.cancelled <= 1.0
    ensures forall c :: c in CancellationRateByCarrier(rows) ==>
      CancellationRateByCarrier(rows)[c].Some? && 0.0 <= CancellationRateByCarrier(rows)[c].value <= 1.0
  {
    var v := Values(rows, Cancelled);
    assert forall i :: 0 <= i < |v| ==> v[i] == Some(rows[i].rec.cancelled);
    MeanByInUnitInterval(Carriers(rows), v);
  }

  /** Two rows fall in the same monthly_aggregates group exactly when their flight dates share year and month. */
  lemma SameMonthGroup(data: seq<FlightRecord>, airports: Airports, i: nat, j: nat)
    requires i < |data| && j < |data|
    ensures Months(NormalizeAll(data, airports))[i] == Months(NormalizeAll(data, airports))[j] <==>
      data[i].flDate.year == data[j].flDate.year && data[i].flDate.month == data[j].flDate.month
  {
    MonthOfSameMonth(data[i].flDate, data[j].flDate);
  }

  /** The monthly cancellation mean is likewise a rate between 0 and 1. */
  lemma MonthlyCancellationInUnitInterval(rows: seq<NormRecord>)
    requires forall i :: 0 <= i < |rows| ==> 0.0 <= rows[i].rec.cancelled <= 1.0
    ensures forall m :: m in MonthlyAggregates(rows) ==>
      MonthlyAggregates(rows)[m].cancelled.Some? && 0.0 <= MonthlyAggregates(rows)[m].cancelled.value <= 1.0
  {
    var k, v := Months(rows), Values(rows, Cancelled);
    forall m | m in KeySet(k) ensures GroupMean(k, v, m).Some? && 0.0 <= GroupMean(k, v, m).value <= 1.0 {
      var i :| 0 <= i < |k| && k[i] == Some(m);
      assert v[i].Some?;
      MeanInUnitInterval(k, v, m);
    }
  }

  /** distance_vs_delay counts exactly the rows whose DISTANCE and ARR_DELAY are both present. */
  lemma DistanceVsDelayAddsUp(rows: seq<NormRecord>)
    ensures TotalCount(DistanceVsDelay(rows)) == Known(DistanceDelayKeys(rows))
    ensures TotalCount(DistanceVsDelay(rows)) == |rows| <==>
      forall i :: 0 <= i < |rows| ==> rows[i].rec.distance.Some? && rows[i].rec.arrDelay.Some?
  {
    var k := DistanceDelayKeys(rows);
    SizesAddUp(k);
    assert forall i :: 0 <= i < |rows| ==> k[i] == DistanceDelayKey(rows[i]);
  }

  /** A row whose origin state is unknown changes neither state_flight_counts nor origin_state_data. */
  lemma UnknownOriginStateDropped(rows: seq<NormRecord>, r: NormRecord, airports: Airports)
    requires r.originState.None?
    ensures StateFlightCounts(rows + [r]) == StateFlightCounts(rows)
    ensures OriginStateData(rows + [r], airports) == OriginStateData(rows, airports)
  {
    assert OriginStates(rows + [r]) == OriginStates(rows) + [None];
    MissingKeyDropped(OriginStates(rows), Values(rows, ArrDelay), None);
  }

  /** A row whose destination state is unknown changes nothing on destination_state_data. */
  lemma UnknownDestStateDropped(rows: seq<NormRecord>, r: NormRecord, airports: Airports)
    requires r.destState.None?
    ensures DestinationStateData(rows + [r], airports) == DestinationStateData(rows, airports)
  {
    assert DestStates(rows + [r]) == DestStates(rows) + [None];
    MissingKeyDropped(DestStates(rows), Values(rows, ArrDelay), None);
  }

  /** A row without coordinates changes nothing on airport_bubble_map. */
  lemma UnlocatedRowDropped(rows: seq<NormRecord>, r: NormRecord)
    requires r.latitude.None? || r.longitude.None?
    ensures AirportBubbleMap(rows + [r]) == AirportBubbleMap(rows)
  {
    assert LocationKeys(rows + [r]) == LocationKeys(rows) + [None];
    assert Values(rows + [r], ArrDelay) == Values(rows, ArrDelay) + [r.rec.arrDelay];
    MissingKeyDropped(LocationKeys(rows), Values(rows, ArrDelay), r.rec.arrDelay);
  }

  /**
   * Every state in origin_state_data came from the reference, so the left merge always finds it:
   * its airport count is present and at least 1.
   */
  lemma OriginStatesHaveAirports(data: seq<FlightRecord>, airports: Airports)
    ensures forall s :: s in OriginStateData(NormalizeAll(data, airports), airports) ==>
      OriginStateData(NormalizeAll(data, airports), airports)[s].airports.Some? &&
      OriginStateData(NormalizeAll(data, airports), airports)[s].airports.value >= 1
  {
    var rows := NormalizeAll(data, airports);
    var k := OriginStates(rows);
    var perState := StateAirportCount(airports);
    forall s | s in OriginStateData(rows, airports)
      ensures s in perState && perState[s] >= 1
    {
      var i :| 0 <= i < |k| && k[i] == Some(s);
      assert rows[i] == NormalizeRow(data[i], airports);
      var code := data[i].origin;
      assert code in airports && airports[code].state == Some(s);
      assert code in AirportsIn(airports, s);
    }
  }

  /** Two flights of AA with 10 and 20 minutes and one without ARR_DELAY: the mean is 15. */
  lemma MeanSkipsMissingExample()
    ensures GroupMean([Some("AA"), Some("AA"), Some("AA"), Some("DL")],
                      [Some(10.0), None, Some(20.0), Some(5.0)], "AA") == Some(15.0)
  {
    var k: seq<Option<string>> := [Some("AA"), Some("AA"), Some("AA"), Some("DL")];
    var v: seq<Option<real>> := [Some(10.0), None, Some(20.0), Some(5.0)];
    assert k[..3] == [Some("AA"), Some("AA"), Some("AA")] && v[..3] == [Some(10.0), None, Some(20.0)];
    assert k[..3][..2] == [Some("AA"), Some("AA")] && v[..3][..2] == [Some(10.0), None];
    assert k[..3][..2][..1] == [Some("AA")] && v[..3][..2][..1] == [Some(10.0)];
    assert GroupSum(k[..3][..2][..1], v[..3][..2][..1], "AA") == 10.0;
    assert GroupSum(k[..3][..2], v[..3][..2], "AA") == 10.0;
    assert GroupSum(k[..3], v[..3], "AA") == 30.0;
    assert GroupCount(k, v, "AA") == 2 && GroupSum(k, v, "AA") == 30.0;
  }
}
