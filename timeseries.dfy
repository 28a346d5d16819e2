/**
 * The cross-year derivations of the time-series page: loading one metric for
 * every year, the origin/year pivot and its top-10 bar data, the per-row average
 * taxi time, the year-over-year change of flight counts per state and its
 * classification, the year transitions and their labels, and the top routes.
 */
module TimeSeries {
  import opened Nullable
  import opened GroupBy
  import opened Ranking
  import opened Text

  // ---------------------------------------------------------------- load_data

  const AggregateRoot: string := "./datasets/AGG_Datasets/"

  /** The years loaded when no other range is given: 2009 to 2018. */
  const DefaultYears: seq<int> := [2009, 2010, 2011, 2012, 2013, 2014, 2015, 2016, 2017, 2018]

  /** `f"./datasets/AGG_Datasets/{year}/{metric_file}"`. */
  function MetricPath(year: int, metricFile: string): string
  {
    AggregateRoot + ShowInt(year) + "/" + metricFile
  }

  /** A year's table with its Year column set. */
  function Tagged<T>(year: int, table: seq<T>): (r: seq<(int, T)>)
    ensures |r| == |table|
    ensures forall i :: 0 <= i < |r| ==> r[i] == (year, table[i])
  {
    seq(|table|, i requires 0 <= i < |table| => (year, table[i]))
  }

  /**
   * What `load_data` returns: the year-tagged tables concatenated in the order of `years`,
   * or the path of the first file that cannot be read.
   */
  function Loaded<T>(metricFile: string, files: map<string, seq<T>>, years: seq<int>): Result<seq<(int, T)>, string>
  {
    if years == [] then Success([])
    else
      var n := |years| - 1;
      var path := MetricPath(years[n], metricFile);
      match Loaded(metricFile, files, years[..n])
      case Failure(e) => Failure(e)
      case Success(rows) => if path in files then Success(rows + Tagged(years[n], files[path])) else Failure(path)
  }

  /** `load_data`: read each year's file, set its Year column, and append it to what was read before. */
  method LoadData<T>(metricFile: string, files: map<string, seq<T>>, years: seq<int>) returns (r: Result<seq<(int, T)>, string>)
    ensures r == Loaded(metricFile, files, years)
  {
    var combined: seq<(int, T)> := [];
    for i := 0 to |years|
      invariant Loaded(metricFile, files, years[..i]) == Success(combined)
    {
      var path := MetricPath(years[i], metricFile);
      assert years[..i + 1][..i] == years[..i];
      if path !in files {
        LoadedFailureSticks(metricFile, files, years, i + 1);
        return Failure(path);
      }
      combined := combined + Tagged(years[i], files[path]);
    }
    assert years[..|years|] == years;
    return Success(combined);
  }

  /** Once a file is missing, loading more years does not recover. */
  lemma {:induction false} LoadedFailureSticks<T>(metricFile: string, files: map<string, seq<T>>, years: seq<int>, k: nat)
    requires k <= |years|
    requires Loaded(metricFile, files, years[..k]).Failure?
    ensures Loaded(metricFile, files, years) == Loaded(metricFile, files, years[..k])
    decreases |years| - k
  {
    if k < |years| {
      assert years[..k + 1][..k] == years[..k];
      LoadedFailureSticks(metricFile, files, years, k + 1);
    } else {
      assert years[..k] == years;
    }
  }

  /** Total number of rows of the years' tables. */
  function RowTotal<T>(metricFile: string, files: map<string, seq<T>>, years: seq<int>): nat
    requires forall y :: y in years ==> MetricPath(y, metricFile) in files
  {
    if years == [] then 0
    else
      var n := |years| - 1;
      RowTotal(metricFile, files, years[..n]) + |files[MetricPath(years[n], metricFile)]|
  }

  /** Loading succeeds exactly when every year's file exists. */
  lemma {:induction false} LoadedSucceeds<T>(metricFile: string, files: map<string, seq<T>>, years: seq<int>)
    ensures Loaded(metricFile, files, years).Success? <==> forall y :: y in years ==> MetricPath(y, metricFile) in files
  {
    if years != [] {
      var n := |years| - 1;
      var init := years[..n];
      LoadedSucceeds(metricFile, files, init);
      assert forall y :: y in years <==> y in init || y == years[n];
      if MetricPath(years[n], metricFile) !in files {
        assert years[n] in years;
      } else if Loaded(metricFile, files, init).Failure? {
        var y :| y in init && MetricPath(y, metricFile) !in files;
        assert y in years;
      }
    }
  }

  /** A successful load holds as many rows as the years' tables together, each tagged with a year of the range. */
  lemma {:induction false} LoadedRows<T>(metricFile: string, files: map<string, seq<T>>, years: seq<int>)
    requires Loaded(metricFile, files, years).Success?
    ensures forall y :: y in years ==> MetricPath(y, metricFile) in files
    ensures |Loaded(metricFile, files, years).value| == RowTotal(metricFile, files, years)
    ensures forall k :: 0 <= k < |Loaded(metricFile, files, years).value| ==> Loaded(metricFile, files, years).value[k].0 in years
  {
    LoadedSucceeds(metricFile, files, years);
    if years != [] {
      var n := |years| - 1;
      var init := years[..n];
      LoadedRows(metricFile, files, init);
      var rows := Loaded(metricFile, files, init).value;
      var added := Tagged(years[n], files[MetricPath(years[n], metricFile)]);
      var all: seq<(int, T)> := rows + added;
      assert Loaded(metricFile, files, years).value == all;
      forall k | 0 <= k < |all| ensures all[k].0 in years {
        if k < |rows| {
          assert all[k] == rows[k] && rows[k].0 in init;
        }
      }
    }
  }

  /** A failed load names the file of a year of the range, and that file is missing. */
  lemma {:induction false} LoadedFailure<T>(metricFile: string, files: map<string, seq<T>>, years: seq<int>)
    requires Loaded(metricFile, files, years).Failure?
    ensures Loaded(metricFile, files, years).error !in files
    ensures exists y :: y in years && Loaded(metricFile, files, years).error == MetricPath(y, metricFile)
  {
    var n := |years| - 1;
    var init := years[..n];
    if Loaded(metricFile, files, init).Failure? {
      LoadedFailure(metricFile, files, init);
      var y :| y in init && Loaded(metricFile, files, init).error == MetricPath(y, metricFile);
      assert y in years;
    } else {
      assert years[n] in years;
    }
  }

  /**
   * Loading succeeds exactly when every year's file exists; it then holds as many rows as the
   * years' tables together, each tagged with a year of the range; a failure names a missing file.
   */
  lemma LoadedSpec<T>(metricFile: string, files: map<string, seq<T>>, years: seq<int>)
    ensures Loaded(metricFile, files, years).Success? <==> forall y :: y in years ==> MetricPath(y, metricFile) in files
    ensures Loaded(metricFile, files, years).Success? ==>
      |Loaded(metricFile, files, years).value| == RowTotal(metricFile, files, years) &&
      forall k :: 0 <= k < |Loaded(metricFile, files, years).value| ==> Loaded(metricFile, files, years).value[k].0 in years
    ensures Loaded(metricFile, files, years).Failure? ==>
      Loaded(metricFile, files, years).error !in files &&
      exists y :: y in years && Loaded(metricFile, files, years).error == MetricPath(y, metricFile)
  {
    LoadedSucceeds(metricFile, files, years);
    if Loaded(metricFile, files, years).Success? {
      LoadedRows(metricFile, files, years);
    } else {
      LoadedFailure(metricFile, files, years);
    }
  }

  /** With the years in ascending order, as by default, the rows come year by year. */
  lemma {:induction false} LoadedInYearOrder<T>(metricFile: string, files: map<string, seq<T>>, years: seq<int>)
    requires forall i, j :: 0 <= i < j < |years| ==> years[i] <= years[j]
    requires Loaded(metricFile, files, years).Success?
    ensures forall a, b :: 0 <= a < b < |Loaded(metricFile, files, years).value| ==>
      Loaded(metricFile, files, years).value[a].0 <= Loaded(metricFile, files, years).value[b].0
  {
    if years != [] {
      var n := |years| - 1;
      var prev := Loaded(metricFile, files, years[..n]);
      LoadedInYearOrder(metricFile, files, years[..n]);
      LoadedRows(metricFile, files, years[..n]);
      var rows := Loaded(metricFile, files, years).value;
      var earlier := prev.value;
      var added := Tagged(years[n], files[MetricPath(years[n], metricFile)]);
      assert rows == earlier + added;
      forall a | 0 <= a < |earlier| ensures earlier[a].0 <= years[n] {
        assert earlier[a].0 in years[..n];
      }
    }
  }

  /** The default range is `range(2009, 2019)`: ten consecutive years, ascending. */
  lemma DefaultYearsSpec()
    ensures |DefaultYears| == 10
    ensures forall i :: 0 <= i < |DefaultYears| ==> DefaultYears[i] == 2009 + i
  {
  }

  /** Loading the default range gives the rows year by year, 2009 first. */
  lemma LoadedDefaultInYearOrder<T>(metricFile: string, files: map<string, seq<T>>)
    requires Loaded(metricFile, files, DefaultYears).Success?
    ensures forall a, b :: 0 <= a < b < |Loaded(metricFile, files, DefaultYears).value| ==>
      Loaded(metricFile, files, DefaultYears).value[a].0 <= Loaded(metricFile, files, DefaultYears).value[b].0
  {
    DefaultYearsSpec();
    LoadedInYearOrder(metricFile, files, DefaultYears);
  }

  // ---------------------------------------------------------------- flight count change by state

  /** A row of state_flight_counts as read back: ORIGIN_STATE and Flight Count. */
  datatype StateCount = StateCount(state: string, flights: int)

  const PositiveChange: string := "Positive Change"
  const NegativeChange: string := "Negative Change"
  const ConstantChange: string := "Constant Change"

  /** `change_category`: a missing change compares neither above nor below 0 and is constant. */
  function ChangeCategory(change: Option<real>): (c: string)
    ensures c in {PositiveChange, NegativeChange, ConstantChange}
  {
    if change.Some? && change.value > 0.0 then PositiveChange
    else if change.Some? && change.value < 0.0 then NegativeChange
    else ConstantChange
  }

  /** The three categories are told apart by the sign of the change, missing counting as zero. */
  lemma ChangeCategorySpec(change: Option<real>)
    ensures ChangeCategory(change) == PositiveChange <==> change.Some? && change.value > 0.0
    ensures ChangeCategory(change) == NegativeChange <==> change.Some? && change.value < 0.0
    ensures ChangeCategory(change) == ConstantChange <==> change.None? || change.value == 0.0
  {
  }

  /** Some element of a non-empty set. */
  ghost function Pick<T>(s: set<T>): (y: T)
    requires s != {}
    ensures y in s
  {
    var y :| y in s; y
  }

  /** The greatest element of a finite non-empty set of years exists. */
  lemma {:induction false} MaxExists(s: set<int>)
    requires s != {}
    ensures exists m :: m in s && forall x :: x in s ==> x <= m
    decreases |s|
  {
    var y := Pick(s);
    if s != {y} {
      var rest := s - {y};
      MaxExists(rest);
      var m :| m in rest && forall x :: x in rest ==> x <= m;
      assert forall x :: x in s ==> x in rest || x == y;
      if m < y {
        assert forall x :: x in s ==> x <= y;
      } else {
        assert forall x :: x in s ==> x <= m;
      }
    } else {
      assert forall x :: x in s ==> x <= y;
    }
  }

  function MaxOf(s: set<int>): (m: int)
    requires s != {}
    ensures m in s && forall x :: x in s ==> x <= m
  {
    MaxExists(s);
    var m :| m in s && forall x :: x in s ==> x <= m;
    m
  }

  /** The years before `year` that have a row for `state`. */
  function EarlierYears(counts: map<(int, string), real>, year: int, state: string): (ys: set<int>)
    ensures forall y :: y in ys <==> (y, state) in counts && y < year
  {
    set k | k in counts && k.1 == state && k.0 < year :: k.0
  }

  /**
   * The row before `(year, state)` in the state's group of the (Year, ORIGIN_STATE)-sorted table:
   * the latest earlier year of that state, none for its first row.
   */
  function PreviousYear(counts: map<(int, string), real>, year: int, state: string): (p: Option<int>)
    ensures p.None? <==> forall y :: (y, state) in counts ==> y >= year
    ensures p.Some? ==> p.value < year && (p.value, state) in counts
    ensures p.Some? ==> forall y :: (y, state) in counts && y < year ==> y <= p.value
  {
    var ys := EarlierYears(counts, year, state);
    if ys == {} then None else Some(MaxOf(ys))
  }

  /** `groupby('ORIGIN_STATE')['Flight Count'].diff()` at one row. */
  function FlightCountChange(counts: map<(int, string), real>, year: int, state: string): (d: Option<real>)
    requires (year, state) in counts
    ensures d.None? <==> PreviousYear(counts, year, state).None?
    ensures d.Some? ==> d.value == counts[(year, state)] - counts[(PreviousYear(counts, year, state).value, state)]
  {
    match PreviousYear(counts, year, state)
    case None => None
    case Some(p) => Some(counts[(year, state)] - counts[(p, state)])
  }

  /** The (Year, ORIGIN_STATE) key of each loaded row. */
  function StateYearKeys(data: seq<(int, StateCount)>): (k: seq<Option<(int, string)>>)
    ensures |k| == |data|
  {
    seq(|data|, i requires 0 <= i < |data| => Some((data[i].0, data[i].1.state)))
  }

  function FlightCounts(data: seq<(int, StateCount)>): (v: seq<Option<real>>)
    ensures |v| == |data|
  {
    seq(|data|, i requires 0 <= i < |data| => Some(data[i].1.flights as real))
  }

  /** `yearly_data`, the per-(Year, ORIGIN_STATE) flight counts, and the columns added to it. */
  class YearlyStateFrame {
    var counts: map<(int, string), real>
    var change: map<(int, string), Option<real>>
    var category: map<(int, string), string>

    /** `data.groupby(['Year', 'ORIGIN_STATE'])['Flight Count'].sum()`. */
    constructor(data: seq<(int, StateCount)>)
      ensures counts == SumBy(StateYearKeys(data), FlightCounts(data))
      ensures change == map[] && category == map[]
    {
      counts := SumBy(StateYearKeys(data), FlightCounts(data));
      change := map[];
      category := map[];
    }

    /** The 'Flight Count Change' column. */
    method AddChange()
      modifies this
      ensures counts == old(counts) && category == old(category)
      ensures change.Keys == counts.Keys
      ensures forall k :: k in change ==> change[k] == FlightCountChange(counts, k.0, k.1)
    {
      var c := counts;
      change := map k | k in c :: FlightCountChange(c, k.0, k.1);
    }

    /** The 'Change Category' column. */
    method AddCategory()
      modifies this
      ensures counts == old(counts) && change == old(change)
      ensures category.Keys == change.Keys
      ensures forall k :: k in category ==> category[k] == ChangeCategory(change[k])
    {
      var c := change;
      category := map k | k in c :: ChangeCategory(c[k]);
    }
  }

  /** A state's first year has no change, and is therefore classified as constant. */
  lemma FirstYearIsConstant(counts: map<(int, string), real>, year: int, state: string)
    requires (year, state) in counts
    requires forall y :: (y, state) in counts ==> y >= year
    ensures FlightCountChange(counts, year, state).None?
    ensures ChangeCategory(FlightCountChange(counts, year, state)) == ConstantChange
  {
  }

  /** A state whose flights grew since its previous year is classified as a positive change. */
  lemma GrowthIsPositive(counts: map<(int, string), real>, year: int, prev: int, state: string)
    requires (year, state) in counts && (prev, state) in counts && prev < year
    requires forall y :: (y, state) in counts && y < year ==> y <= prev
    requires counts[(year, state)] > counts[(prev, state)]
    ensures ChangeCategory(FlightCountChange(counts, year, state)) == PositiveChange
  {
    assert PreviousYear(counts, year, state) == Some(prev);
  }

  // ---------------------------------------------------------------- year transitions

  /** `year_pairs`: (y, y + 1) for y from 2009 to 2017. */
  function YearPairs(): seq<(int, int)>
  {
    seq(9, i requires 0 <= i < 9 => (2009 + i, 2010 + i))
  }

  /** Nine consecutive transitions, each one year long, from 2009-2010 to 2017-2018. */
  lemma YearPairsSpec()
    ensures |YearPairs()| == 9
    ensures YearPairs()[0] == (2009, 2010) && YearPairs()[8] == (2017, 2018)
    ensures forall i :: 0 <= i < |YearPairs()| ==> YearPairs()[i].1 == YearPairs()[i].0 + 1 && 2009 <= YearPairs()[i].0 <= 2017
    ensures forall i :: 0 <= i < |YearPairs()| - 1 ==> YearPairs()[i].1 == YearPairs()[i + 1].0
  {
  }

  /** The label of a transition, `f"{year}-{year + 1}"`. */
  function TransitionLabel(p: (int, int)): string
  {
    ShowInt(p.0) + "-" + ShowInt(p.1)
  }

  /** The labels offered for selection. */
  function TransitionLabels(): (ls: seq<string>)
    ensures |ls| == |YearPairs()|
  {
    var ps := YearPairs();
    seq(|ps|, i requires 0 <= i < |ps| => TransitionLabel(ps[i]))
  }

  /**
   * `map(int, label.split('-'))` unpacked into two years: a ValueError unless the label has exactly
   * one '-' between two decimal numbers.
   */
  function ParseTransition(choice: string): (r: Result<(int, int), string>)
    ensures r.Success? ==> |Split(choice, '-')| == 2
  {
    var parts := Split(choice, '-');
    if |parts| != 2 then Failure("ValueError: not two values to unpack")
    else
      match (ParseNat(parts[0]), ParseNat(parts[1]))
      case (Some(a), Some(b)) => Success((a, b))
      case _ => Failure("ValueError: invalid literal for int()")
  }

  /** A label built from two non-negative years parses back into those years. */
  lemma ParseTransitionLabel(a: nat, b: nat)
    ensures ParseTransition(TransitionLabel((a, b))) == Success((a, b))
  {
    var parts := [ShowNat(a), ShowNat(b)];
    ShowNatHasNoSeparator(a, '-');
    ShowNatHasNoSeparator(b, '-');
    assert Join(parts, '-') == TransitionLabel((a, b));
    SplitJoin(parts, '-');
    ParseShow(a);
    ParseShow(b);
  }

  /** Every offered label selects exactly its own transition. */
  lemma TransitionLabelsRoundTrip()
    ensures forall i :: 0 <= i < |YearPairs()| ==> ParseTransition(TransitionLabels()[i]) == Success(YearPairs()[i])
  {
    forall i | 0 <= i < |YearPairs()| ensures ParseTransition(TransitionLabels()[i]) == Success(YearPairs()[i]) {
      ParseTransitionLabel(2009 + i, 2010 + i);
    }
  }

  // ---------------------------------------------------------------- average departure delay by origin

  /** A row of airport_delays as read back: ORIGIN and Average Departure Delay. */
  datatype OriginDelay = OriginDelay(origin: string, avgDelay: Option<real>)

  function CellKeys(data: seq<(int, OriginDelay)>): (k: seq<Option<(string, int)>>)
    ensures |k| == |data|
  {
    seq(|data|, i requires 0 <= i < |data| => Some((data[i].1.origin, data[i].0)))
  }

  function CellValues(data: seq<(int, OriginDelay)>): (v: seq<Option<real>>)
    ensures |v| == |data|
  {
    seq(|data|, i requires 0 <= i < |data| => data[i].1.avgDelay)
  }

  /** Mean Average Departure Delay of a cell (`aggfunc="mean"`). */
  function CellMean(data: seq<(int, OriginDelay)>, c: (string, int)): Option<real>
  {
    GroupMean(CellKeys(data), CellValues(data), c)
  }

  /** The (ORIGIN, Year) cells whose mean is defined; `pivot_table` drops the others before unstacking. */
  function Cells(data: seq<(int, OriginDelay)>): set<(string, int)>
  {
    set c | c in KeySet(CellKeys(data)) && CellMean(data, c).Some?
  }

  /** A cell is defined exactly when some row of that origin and year has a delay. */
  lemma CellsSpec(data: seq<(int, OriginDelay)>, c: (string, int))
    ensures c in Cells(data) <==> exists i :: 0 <= i < |data| && (data[i].1.origin, data[i].0) == c && data[i].1.avgDelay.Some?
  {
    var k, v := CellKeys(data), CellValues(data);
    if exists i :: 0 <= i < |data| && (data[i].1.origin, data[i].0) == c && data[i].1.avgDelay.Some? {
      var i :| 0 <= i < |data| && (data[i].1.origin, data[i].0) == c && data[i].1.avgDelay.Some?;
      assert k[i] == Some(c) && v[i].Some?;
    }
    if c in Cells(data) {
      var i :| 0 <= i < |k| && k[i] == Some(c) && v[i].Some?;
      assert (data[i].1.origin, data[i].0) == c;
    }
  }

  /** The pivot's index and columns: origins and years with at least one defined cell. */
  function PivotOrigins(data: seq<(int, OriginDelay)>): set<string>
  {
    set c | c in Cells(data) :: c.0
  }

  function PivotYears(data: seq<(int, OriginDelay)>): set<int>
  {
    set c | c in Cells(data) :: c.1
  }

  /** `clip(lower=0)`. */
  function Clip(x: real): (r: real)
    ensures r >= 0.0 && (x >= 0.0 ==> r == x)
    ensures x < 0.0 ==> r == 0.0
  {
    if x < 0.0 then 0.0 else x
  }

  /** Every pair of an element of `xs` and an element of `ys`. */
  function Grid<A(!new), B(!new)>(xs: set<A>, ys: set<B>): (g: set<(A, B)>)
    ensures forall a, b :: (a, b) in g <==> a in xs && b in ys
  {
    set a, b | a in xs && b in ys :: (a, b)
  }

  /**
   * The value of one (ORIGIN, Year) pair of `delay_melted`: the cell's mean where the pivot has
   * one, the fill value 0 where it does not, clipped at 0.
   */
  function MeltedCell(data: seq<(int, OriginDelay)>, c: (string, int)): (v: real)
    ensures v >= 0.0
    ensures c !in Cells(data) ==> v == 0.0
    ensures c in Cells(data) ==> CellMean(data, c).Some? && v == Clip(CellMean(data, c).value)
  {
    Clip(if c in Cells(data) then CellMean(data, c).GetOr(0.0) else 0.0)
  }

  /** `delay_melted`: every (ORIGIN, Year) pair of the pivot's index and columns, with its value. */
  function Melted(data: seq<(int, OriginDelay)>): (m: map<(string, int), real>)
    ensures m.Keys == Grid(PivotOrigins(data), PivotYears(data))
    ensures forall c :: c in m ==> m[c] == MeltedCell(data, c)
  {
    map c | c in Grid(PivotOrigins(data), PivotYears(data)) :: MeltedCell(data, c)
  }

  /** Every defined cell of the pivot is a pair of the melted table. */
  lemma MeltedHasCells(data: seq<(int, OriginDelay)>)
    ensures forall c :: c in Cells(data) ==> c in Melted(data)
  {
    forall c | c in Cells(data) ensures c in Melted(data) {
      assert c.0 in PivotOrigins(data) && c.1 in PivotYears(data);
      assert (c.0, c.1) in Grid(PivotOrigins(data), PivotYears(data));
    }
  }

  /** The origins of the rows with a defined delay, in row order. */
  function OriginsWithDelay(data: seq<(int, OriginDelay)>): (os: seq<string>)
    ensures forall o :: o in os <==> exists i :: 0 <= i < |data| && data[i].1.origin == o && data[i].1.avgDelay.Some?
  {
    if data == [] then []
    else
      var n := |data| - 1;
      var init := OriginsWithDelay(data[..n]);
      assert forall i :: 0 <= i < n ==> data[..n][i] == data[i];
      init + (if data[n].1.avgDelay.Some? then [data[n].1.origin] else [])
  }

  /** The pivot's origins, each once, in order of first appearance. */
  function DelayedOrigins(data: seq<(int, OriginDelay)>): (os: seq<string>)
    ensures forall o :: o in os <==> o in PivotOrigins(data)
    ensures forall i, j :: 0 <= i < j < |os| ==> os[i] != os[j]
  {
    var os := Distinct(OriginsWithDelay(data));
    assert forall o :: o in PivotOrigins(data) ==> o in os by {
      forall o | o in PivotOrigins(data) ensures o in os {
        var c :| c in Cells(data) && c.0 == o;
        CellsSpec(data, c);
      }
    }
    assert forall o :: o in os ==> o in PivotOrigins(data) by {
      forall o | o in os ensures o in PivotOrigins(data) {
        var i :| 0 <= i < |data| && data[i].1.origin == o && data[i].1.avgDelay.Some?;
        CellsSpec(data, (o, data[i].0));
      }
    }
    os
  }

  /** The melted values of one year, by origin. */
  function YearColumn(data: seq<(int, OriginDelay)>, year: int): (col: map<string, real>)
    ensures col.Keys == PivotOrigins(data)
    ensures forall o :: o in col ==> col[o] == MeltedCell(data, (o, year))
  {
    map o | o in PivotOrigins(data) :: MeltedCell(data, (o, year))
  }

  /** Every origin of the pivot has a value in each year's column. */
  lemma YearColumnCovers(data: seq<(int, OriginDelay)>, year: int)
    ensures forall i :: 0 <= i < |DelayedOrigins(data)| ==> DelayedOrigins(data)[i] in YearColumn(data, year)
  {
    var os, col := DelayedOrigins(data), YearColumn(data, year);
    forall i | 0 <= i < |os| ensures os[i] in col {
      assert os[i] in PivotOrigins(data);
    }
  }

  /** The melted rows of one year, as (ORIGIN, Average Delay), origins in order of appearance. */
  function YearRows(data: seq<(int, OriginDelay)>, year: int): seq<Scored<string>>
  {
    Ranked(YearColumn(data, year), DelayedOrigins(data))
  }

  /** One row per origin of the pivot, each with that origin's melted value for the year. */
  lemma YearRowsSpec(data: seq<(int, OriginDelay)>, year: int)
    ensures DistinctKeys(YearRows(data, year))
    ensures ScoredKeys(YearRows(data, year)) == PivotOrigins(data)
    ensures forall x :: x in YearRows(data, year) ==> x.1 == Some(MeltedCell(data, (x.0, year)))
  {
    var col, os := YearColumn(data, year), DelayedOrigins(data);
    assert DistinctKeys(YearRows(data, year)) by {
      RankedKeys(col, os);
    }
    assert ScoredKeys(YearRows(data, year)) == PivotOrigins(data) by {
      RankedKeys(col, os);
    }
    assert forall x :: x in YearRows(data, year) ==> x.1 == Some(MeltedCell(data, (x.0, year))) by {
      RankedValues(col, os);
    }
  }

  /**
   * The bar data for a selected year: that year's melted rows sorted by Average Delay, highest
   * first, and the first ten of them; nothing when the year is not a column of the pivot.
   */
  function BarData(data: seq<(int, OriginDelay)>, year: int): seq<Scored<string>>
  {
    if year in PivotYears(data) then TopN(YearRows(data, year), 10) else []
  }

  /** At most ten rows, highest Average Delay first, one per origin; none for a year the pivot lacks. */
  lemma BarDataSpec(data: seq<(int, OriginDelay)>, year: int)
    ensures |BarData(data, year)| <= 10
    ensures SortedDesc(BarData(data, year))
    ensures DistinctKeys(BarData(data, year))
    ensures year !in PivotYears(data) ==> BarData(data, year) == []
    ensures year in PivotYears(data) ==> |BarData(data, year)| == Min(10, |PivotOrigins(data)|)
  {
    if year in PivotYears(data) {
      DistinctCardinality(DelayedOrigins(data), PivotOrigins(data));
      YearColumnCovers(data, year);
      TopOfRanked(YearColumn(data, year), DelayedOrigins(data), 10);
    }
  }

  /** Each bar is an origin of the pivot holding its melted value for the year, which is at least 0. */
  lemma BarDataValues(data: seq<(int, OriginDelay)>, year: int)
    ensures forall x :: x in BarData(data, year) ==>
      x.0 in PivotOrigins(data) && x.1 == Some(MeltedCell(data, (x.0, year))) && x.1.value >= 0.0
  {
    if year in PivotYears(data) {
      YearColumnCovers(data, year);
      TopOfRanked(YearColumn(data, year), DelayedOrigins(data), 10);
    }
  }

  /** An origin left out of the bars has a melted value no higher than any bar's. */
  lemma BarDataKeepsLargest(data: seq<(int, OriginDelay)>, year: int)
    ensures forall x, o :: x in BarData(data, year) && o in PivotOrigins(data) && o !in ScoredKeys(BarData(data, year)) ==>
      x.1.Some? && x.1.value >= MeltedCell(data, (o, year))
  {
    if year in PivotYears(data) {
      YearColumnCovers(data, year);
      TopOfRankedBelow(YearColumn(data, year), DelayedOrigins(data), 10);
    }
  }

  // ---------------------------------------------------------------- average taxi time

  /** A row of taxi_hourly as read back: Hour and the mean TAXI_IN and TAXI_OUT of that hour. */
  datatype TaxiRow = TaxiRow(hour: int, taxiIn: Option<real>, taxiOut: Option<real>)

  /** `mean(axis=1)` over two cells: the mean of the present ones, missing when both are. */
  function RowMean(a: Option<real>, b: Option<real>): Option<real>
  {
    match (a, b)
    case (Some(x), Some(y)) => Some((x + y) / 2.0)
    case (Some(x), None) => Some(x)
    case (None, Some(y)) => Some(y)
    case (None, None) => None
  }

  /**
   * The row mean is missing only when both cells are; with one cell present it is that cell;
   * with both present it lies between them, as far from one as from the other.
   */
  lemma RowMeanSpec(a: Option<real>, b: Option<real>)
    ensures RowMean(a, b).None? <==> a.None? && b.None?
    ensures a.Some? && b.None? ==> RowMean(a, b) == a
    ensures a.None? && b.Some? ==> RowMean(a, b) == b
    ensures a.Some? && b.Some? ==>
      (a.value <= RowMean(a, b).value <= b.value || b.value <= RowMean(a, b).value <= a.value) &&
      RowMean(a, b).value - a.value == b.value - RowMean(a, b).value
  {
  }

  /** The loaded taxi_hourly rows, each tagged with its Year, and the column added to them. */
  class TaxiFrame {
    var rows: seq<(int, TaxiRow)>
    var averageTaxiTime: seq<Option<real>>

    constructor(data: seq<(int, TaxiRow)>)
      ensures rows == data && averageTaxiTime == []
    {
      rows := data;
      averageTaxiTime := [];
    }

    /** The 'Average Taxi Time' column: the row mean of TAXI_IN and TAXI_OUT, row by row. */
    method AddAverageTaxiTime()
      modifies this
      ensures rows == old(rows)
      ensures |averageTaxiTime| == |rows|
      ensures forall i :: 0 <= i < |rows| ==> averageTaxiTime[i] == RowMean(rows[i].1.taxiIn, rows[i].1.taxiOut)
    {
      var r := rows;
      averageTaxiTime := seq(|r|, i requires 0 <= i < |r| => RowMean(r[i].1.taxiIn, r[i].1.taxiOut));
    }
  }

  // ---------------------------------------------------------------- top routes

  /** A row of origin_dest_counts as read back: ORIGIN, DEST and Flight Count. */
  datatype RouteRow = RouteRow(origin: string, dest: string, flights: int)

  function RouteKeys(data: seq<(int, RouteRow)>): (k: seq<Option<(string, string)>>)
    ensures |k| == |data|
    ensures forall i :: 0 <= i < |data| ==> k[i] == Some((data[i].1.origin, data[i].1.dest))
  {
    seq(|data|, i requires 0 <= i < |data| => Some((data[i].1.origin, data[i].1.dest)))
  }

  function RouteFlights(data: seq<(int, RouteRow)>): (v: seq<Option<real>>)
    ensures |v| == |data|
    ensures forall i :: 0 <= i < |data| ==> v[i] == Some(data[i].1.flights as real)
  {
    seq(|data|, i requires 0 <= i < |data| => Some(data[i].1.flights as real))
  }

  /** `groupby(['ORIGIN', 'DEST']).sum()` on the Flight Count column: each route's flights over all years. */
  function RouteTotals(data: seq<(int, RouteRow)>): (m: map<(string, string), real>)
    ensures m.Keys == KeySet(RouteKeys(data))
  {
    SumBy(RouteKeys(data), RouteFlights(data))
  }

  /** The routes, each once, in order of first appearance. */
  function RouteOrder(data: seq<(int, RouteRow)>): (rs: seq<(string, string)>)
    ensures forall r :: r in rs <==> r in RouteTotals(data)
    ensures forall i, j :: 0 <= i < j < |rs| ==> rs[i] != rs[j]
  {
    var routes := seq(|data|, i requires 0 <= i < |data| => (data[i].1.origin, data[i].1.dest));
    assert forall r :: r in routes <==> Some(r) in RouteKeys(data) by {
      forall r | Some(r) in RouteKeys(data) ensures r in routes {
        var i :| 0 <= i < |data| && RouteKeys(data)[i] == Some(r);
        assert routes[i] == r;
      }
    }
    Distinct(routes)
  }

  /** `nlargest(10, 'Flight Count')` over the route totals. */
  function TopRoutes(data: seq<(int, RouteRow)>): seq<Scored<(string, string)>>
  {
    TopN(Ranked(RouteTotals(data), RouteOrder(data)), 10)
  }

  /**
   * At most ten routes, the most flown first, each once and holding its total; a route left out
   * was flown no more often than any route kept. Fewer than ten routes are all kept.
   */
  lemma TopRoutesSpec(data: seq<(int, RouteRow)>)
    ensures |TopRoutes(data)| == Min(10, |RouteTotals(data)|)
    ensures SortedDesc(TopRoutes(data))
    ensures DistinctKeys(TopRoutes(data))
    ensures forall x :: x in TopRoutes(data) ==> x.0 in RouteTotals(data) && x.1 == Some(RouteTotals(data)[x.0])
  {
    DistinctCardinality(RouteOrder(data), RouteTotals(data).Keys);
    TopOfRanked(RouteTotals(data), RouteOrder(data), 10);
  }

  /** Every route left out of the top ten has a total no higher than any kept route's. */
  lemma TopRoutesKeepLargest(data: seq<(int, RouteRow)>)
    ensures forall x, q :: x in TopRoutes(data) && q in RouteTotals(data) && q !in ScoredKeys(TopRoutes(data)) ==>
      x.1.Some? && x.1.value >= RouteTotals(data)[q]
  {
    TopOfRankedBelow(RouteTotals(data), RouteOrder(data), 10);
  }

  /**
   * The totals add up across years: one more row adds its Flight Count to its own route's total,
   * starting a new route at that count, and leaves every other route's total alone.
   */
  lemma RouteTotalsAppend(data: seq<(int, RouteRow)>, year: int, row: RouteRow)
    ensures (row.origin, row.dest) in RouteTotals(data + [(year, row)])
    ensures RouteTotals(data + [(year, row)])[(row.origin, row.dest)] ==
      (if (row.origin, row.dest) in RouteTotals(data) then RouteTotals(data)[(row.origin, row.dest)] else 0.0) + row.flights as real
    ensures forall q :: q in RouteTotals(data) && q != (row.origin, row.dest) ==>
      q in RouteTotals(data + [(year, row)]) && RouteTotals(data + [(year, row)])[q] == RouteTotals(data)[q]
  {
    var data' := data + [(year, row)];
    var r := (row.origin, row.dest);
    var keys, vals := RouteKeys(data), RouteFlights(data);
    assert RouteKeys(data') == keys + [Some(r)];
    assert RouteFlights(data') == vals + [Some(row.flights as real)];
    forall q ensures GroupSum(RouteKeys(data'), RouteFlights(data'), q) ==
      GroupSum(keys, vals, q) + (if q == r then row.flights as real else 0.0)
    {
      GroupSumAppend(keys, vals, Some(r), Some(row.flights as real), q);
    }
    if r !in RouteTotals(data) {
      GroupSumAbsent(keys, vals, r);
    }
    forall q | q in RouteTotals(data) ensures q in RouteTotals(data') {
      var i :| 0 <= i < |keys| && keys[i] == Some(q);
      assert RouteKeys(data')[i] == Some(q);
    }
    assert Some(r) in RouteKeys(data') by {
      assert RouteKeys(data')[|data|] == Some(r);
    }
  }
}
