/**
 * The record shapes of the yearly pipeline: a raw flight row as read from a
 * year's file, the airport reference, and the normalised row that the views
 * are computed from. The normalisation of a single row lives here as functions;
 * the module Normalizer applies them to a whole table in place.
 */
module Flights {
  import opened Nullable

  /** FL_DATE after date parsing. */
  datatype Date = Date(year: int, month: int, day: int)

  /** The `Month` column: FL_DATE truncated to month precision (a pandas monthly period). */
  datatype YearMonth = YearMonth(year: int, month: int)

  /**
   * One row of a yearly input file. The columns that may be empty in the input
   * are `Option`s; CANCELLED is the 0/1 cancellation flag.
   */
  datatype FlightRecord = FlightRecord(
    flDate: Date,
    opCarrier: string,
    origin: string,
    dest: string,
    crsDepTime: int,
    depDelay: Option<real>,
    arrDelay: Option<real>,
    cancelled: real,
    cancellationCode: Option<string>,
    carrierDelay: Option<real>,
    weatherDelay: Option<real>,
    nasDelay: Option<real>,
    securityDelay: Option<real>,
    lateAircraftDelay: Option<real>,
    taxiIn: Option<real>,
    taxiOut: Option<real>,
    distance: Option<real>)

  /** One airport of the reference table: STATE, LATITUDE and LONGITUDE, each possibly empty. */
  datatype AirportInfo = AirportInfo(state: Option<string>, latitude: Option<real>, longitude: Option<real>)

  /** The airport reference indexed by IATA code. */
  type Airports = map<string, AirportInfo>

  /** A row after normalisation: the filled raw row plus the derived and joined columns. */
  datatype NormRecord = NormRecord(
    rec: FlightRecord,
    month: YearMonth,
    hour: int,
    originState: Option<string>,
    destState: Option<string>,
    latitude: Option<real>,
    longitude: Option<real>)

  /** The fill value of CANCELLATION_CODE. */
  const CancellationFill: string := "None"

  /** The fill value of the five delay-cause columns and the two taxi columns. */
  const ZeroFill: real := 0.0

  /** `fillna(fill_values)` on one row: only the listed columns are filled, each with its fixed value. */
  function FillRow(r: FlightRecord): FlightRecord
  {
    r.(cancellationCode := Some(r.cancellationCode.GetOr(CancellationFill)),
       carrierDelay := Some(r.carrierDelay.GetOr(ZeroFill)),
       weatherDelay := Some(r.weatherDelay.GetOr(ZeroFill)),
       nasDelay := Some(r.nasDelay.GetOr(ZeroFill)),
       securityDelay := Some(r.securityDelay.GetOr(ZeroFill)),
       lateAircraftDelay := Some(r.lateAircraftDelay.GetOr(ZeroFill)),
       taxiIn := Some(r.taxiIn.GetOr(ZeroFill)),
       taxiOut := Some(r.taxiOut.GetOr(ZeroFill)))
  }

  /** No column of the fill table is missing. */
  predicate Filled(r: FlightRecord)
  {
    && r.cancellationCode.Some?
    && r.carrierDelay.Some? && r.weatherDelay.Some? && r.nasDelay.Some?
    && r.securityDelay.Some? && r.lateAircraftDelay.Some?
    && r.taxiIn.Some? && r.taxiOut.Some?
  }

  /** A cell after `fillna`: the old value when present, otherwise the fill value. */
  predicate FilledCell<T(==)>(before: Option<T>, after: Option<T>, fill: T)
  {
    after == if before.Some? then before else Some(fill)
  }

  /**
   * Filling keeps every present value, replaces each missing value of the fill
   * table by its fixed fill value, and leaves every other column alone:
   * DEP_DELAY, ARR_DELAY and DISTANCE stay missing when they are.
   */
  lemma FillRowSpec(r: FlightRecord)
    ensures Filled(FillRow(r))
    ensures FilledCell(r.cancellationCode, FillRow(r).cancellationCode, "None")
    ensures FilledCell(r.carrierDelay, FillRow(r).carrierDelay, 0.0)
    ensures FilledCell(r.weatherDelay, FillRow(r).weatherDelay, 0.0)
    ensures FilledCell(r.nasDelay, FillRow(r).nasDelay, 0.0)
    ensures FilledCell(r.securityDelay, FillRow(r).securityDelay, 0.0)
    ensures FilledCell(r.lateAircraftDelay, FillRow(r).lateAircraftDelay, 0.0)
    ensures FilledCell(r.taxiIn, FillRow(r).taxiIn, 0.0)
    ensures FilledCell(r.taxiOut, FillRow(r).taxiOut, 0.0)
    ensures FillRow(r).depDelay == r.depDelay && FillRow(r).arrDelay == r.arrDelay
    ensures FillRow(r).distance == r.distance && FillRow(r).cancelled == r.cancelled
    ensures FillRow(r).flDate == r.flDate && FillRow(r).opCarrier == r.opCarrier
    ensures FillRow(r).origin == r.origin && FillRow(r).dest == r.dest
    ensures FillRow(r).crsDepTime == r.crsDepTime
    ensures Filled(r) ==> FillRow(r) == r
  {
  }

  /** Filling twice is filling once. */
  lemma FillRowIdempotent(r: FlightRecord)
    ensures FillRow(FillRow(r)) == FillRow(r)
  {
  }

  /**
   * The `Hour` bucket: CRS_DEP_TIME floor-divided by 100, with no range check.
   * Python's `//` floors; Dafny's `/` on `int` is Euclidean, and the two agree
   * for the positive divisor 100, which the contract states as the floor property.
   */
  function HourBucket(crsDepTime: int): (h: int)
    ensures h * 100 <= crsDepTime < h * 100 + 100
  {
    crsDepTime / 100
  }

  /** The `Month` column of a row. */
  function MonthOf(d: Date): (m: YearMonth)
    ensures m.year == d.year && m.month == d.month
  {
    YearMonth(d.year, d.month)
  }

  /** Two dates fall in the same `Month` bucket exactly when they share year and month: the day is dropped. */
  lemma MonthOfSameMonth(d1: Date, d2: Date)
    ensures MonthOf(d1) == MonthOf(d2) <==> d1.year == d2.year && d1.month == d2.month
  {
  }

  /** `Series.map(airports_dict["STATE"])`: the state of a code, missing for an unknown code. */
  function StateOf(airports: Airports, code: string): (s: Option<string>)
    ensures code !in airports ==> s.None?
    ensures code in airports ==> s == airports[code].state
  {
    if code in airports then airports[code].state else None
  }

  function LatitudeOf(airports: Airports, code: string): (l: Option<real>)
    ensures code !in airports ==> l.None?
    ensures code in airports ==> l == airports[code].latitude
  {
    if code in airports then airports[code].latitude else None
  }

  function LongitudeOf(airports: Airports, code: string): (l: Option<real>)
    ensures code !in airports ==> l.None?
    ensures code in airports ==> l == airports[code].longitude
  {
    if code in airports then airports[code].longitude else None
  }

  /** The whole normalisation of one row. */
  function NormalizeRow(r: FlightRecord, airports: Airports): NormRecord
  {
    NormRecord(
      FillRow(r),
      MonthOf(r.flDate),
      HourBucket(r.crsDepTime),
      StateOf(airports, r.origin),
      StateOf(airports, r.dest),
      LatitudeOf(airports, r.origin),
      LongitudeOf(airports, r.origin))
  }

  /** Normalisation of a year's table, row by row. */
  function NormalizeAll(data: seq<FlightRecord>, airports: Airports): (rows: seq<NormRecord>)
    ensures |rows| == |data|
    ensures forall i :: 0 <= i < |data| ==> rows[i].rec == FillRow(data[i])
  {
    seq(|data|, i requires 0 <= i < |data| => NormalizeRow(data[i], airports))
  }

  /** The hour bucket of an HHMM time is its hour: 1347 falls in hour 13; an out-of-range time passes through. */
  lemma HourBucketExamples()
    ensures HourBucket(1347) == 13 && HourBucket(5) == 0 && HourBucket(2400) == 24 && HourBucket(-30) == -1
  {
  }

  /**
   * A row whose origin code is not in the reference keeps its place and gets a
   * missing ORIGIN_STATE, LATITUDE and LONGITUDE; normalisation keeps every row.
   */
  lemma JoinMissKeepsRow(data: seq<FlightRecord>, airports: Airports, i: nat)
    requires i < |data| && data[i].origin !in airports
    ensures |NormalizeAll(data, airports)| == |data|
    ensures NormalizeAll(data, airports)[i].rec.origin == data[i].origin
    ensures NormalizeAll(data, airports)[i].originState.None?
    ensures NormalizeAll(data, airports)[i].latitude.None? && NormalizeAll(data, airports)[i].longitude.None?
  {
  }

  /** After normalisation no cell of the fill table is missing. */
  lemma NormalizedRowsFilled(data: seq<FlightRecord>, airports: Airports)
    ensures forall i :: 0 <= i < |data| ==> Filled(NormalizeAll(data, airports)[i].rec)
  {
    forall i | 0 <= i < |data| ensures Filled(NormalizeAll(data, airports)[i].rec) {
      FillRowSpec(data[i]);
    }
  }
}
