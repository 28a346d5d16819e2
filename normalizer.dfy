/**
 * The normalisation step of `process_yearly_data`, in the source's own form: a
 * data frame held as columns, repaired in place by `fillna(..., inplace=True)`
 * and extended by column assignments (Month, Hour, then the airport join).
 */
module Normalizer {
  import opened Nullable
  import opened Flights

  /** A year's data frame: the raw columns as rows of `FlightRecord`, and one field per added column. */
  class FlightFrame {
    var records: seq<FlightRecord>
    var month: seq<YearMonth>
    var hour: seq<int>
    var originState: seq<Option<string>>
    var destState: seq<Option<string>>
    var latitude: seq<Option<real>>
    var longitude: seq<Option<real>>

    /** Every added column has one cell per row. */
    predicate Complete()
      reads this
    {
      && |month| == |records| && |hour| == |records|
      && |originState| == |records| && |destState| == |records|
      && |latitude| == |records| && |longitude| == |records|
    }

    /** The frame as read from the year's file: raw columns only. */
    constructor (data: seq<FlightRecord>)
      ensures records == data
      ensures month == [] && hour == [] && originState == [] && destState == []
      ensures latitude == [] && longitude == []
    {
      records := data;
      month, hour := [], [];
      originState, destState := [], [];
      latitude, longitude := [], [];
    }

    /** `data.fillna(fill_values, inplace=True)`: every row is filled where it stands; nothing else changes. */
    method FillMissing()
      modifies this
      ensures |records| == |old(records)|
      ensures forall i :: 0 <= i < |records| ==> records[i] == FillRow(old(records)[i])
      ensures month == old(month) && hour == old(hour)
      ensures originState == old(originState) && destState == old(destState)
      ensures latitude == old(latitude) && longitude == old(longitude)
    {
      var raw := records;
      records := seq(|raw|, i requires 0 <= i < |raw| => FillRow(raw[i]));
    }

    /** `data['Month'] = ...` and `data['Hour'] = data['CRS_DEP_TIME'] // 100`. */
    method AddDateBuckets()
      modifies this
      ensures |month| == |records| && |hour| == |records|
      ensures forall i :: 0 <= i < |records| ==> month[i] == MonthOf(records[i].flDate)
      ensures forall i :: 0 <= i < |records| ==> hour[i] == HourBucket(records[i].crsDepTime)
      ensures records == old(records)
      ensures originState == old(originState) && destState == old(destState)
      ensures latitude == old(latitude) && longitude == old(longitude)
    {
      var rs := records;
      month := seq(|rs|, i requires 0 <= i < |rs| => MonthOf(rs[i].flDate));
      hour := seq(|rs|, i requires 0 <= i < |rs| => HourBucket(rs[i].crsDepTime));
    }

    /** ORIGIN_STATE, DEST_STATE, LATITUDE and LONGITUDE, each an exact-code lookup in the reference. */
    method JoinAirports(airports: Airports)
      modifies this
      ensures |originState| == |records| && |destState| == |records|
      ensures |latitude| == |records| && |longitude| == |records|
      ensures forall i :: 0 <= i < |records| ==> originState[i] == StateOf(airports, records[i].origin)
      ensures forall i :: 0 <= i < |records| ==> destState[i] == StateOf(airports, records[i].dest)
      ensures forall i :: 0 <= i < |records| ==> latitude[i] == LatitudeOf(airports, records[i].origin)
      ensures forall i :: 0 <= i < |records| ==> longitude[i] == LongitudeOf(airports, records[i].origin)
      ensures records == old(records) && month == old(month) && hour == old(hour)
    {
      var rs := records;
      originState := seq(|rs|, i requires 0 <= i < |rs| => StateOf(airports, rs[i].origin));
      destState := seq(|rs|, i requires 0 <= i < |rs| => StateOf(airports, rs[i].dest));
      latitude := seq(|rs|, i requires 0 <= i < |rs| => LatitudeOf(airports, rs[i].origin));
      longitude := seq(|rs|, i requires 0 <= i < |rs| => LongitudeOf(airports, rs[i].origin));
    }

    /** The frame read row by row. */
    function Rows(): (rows: seq<NormRecord>)
      reads this
      requires Complete()
      ensures |rows| == |records|
      ensures forall i :: 0 <= i < |rows| ==> rows[i].rec == records[i] && rows[i].hour == hour[i]
    {
      var rs, ms, hs, os, ds, las, los := records, month, hour, originState, destState, latitude, longitude;
      seq(|rs|, i requires 0 <= i < |rs| => NormRecord(rs[i], ms[i], hs[i], os[i], ds[i], las[i], los[i]))
    }
  }

  /**
   * Lines 29-43 of `process_yearly_data`: read, fill in place, add the derived
   * columns, join the reference. The result is the row-wise normalisation.
   */
  method Normalize(data: seq<FlightRecord>, airports: Airports) returns (rows: seq<NormRecord>)
    ensures rows == NormalizeAll(data, airports)
  {
    var frame := new FlightFrame(data);
    frame.FillMissing();
    frame.AddDateBuckets();
    frame.JoinAirports(airports);
    rows := frame.Rows();
    assert forall i :: 0 <= i < |data| ==> frame.records[i] == FillRow(data[i]);
  }
}
