/**
 * Writing the views: one directory per year under the output base, one CSV file
 * per view named after it, and the driver that runs the pipeline for every CSV
 * file of the input directory.
 *
 * The file system is an `OutputStore`: the set of directories that exist and a
 * map from file path to the table written there. Reading an input file is the
 * parameter `read`, from path to the records the file holds.
 */
module Materializer {
  import opened Flights
  import opened Views
  import opened Text
  import opened Normalizer
  import opened GroupBy

  const InputDir: string := "datasets/archive/"
  const OutputBase: string := "../datasets/AGG_Datasets/"
  const CsvSuffix: string := ".csv"

  /** The year of an input file: its name up to the first '.'. */
  function YearOf(fileName: string): (year: string)
    ensures '.' !in year
    ensures |year| <= |fileName| && fileName[..|year|] == year
    ensures |year| < |fileName| ==> fileName[|year|] == '.'
    ensures '.' !in fileName ==> year == fileName
  {
    JoinSplit(fileName, '.');
    var parts := Split(fileName, '.');
    if |parts| > 1 then
      assert fileName == parts[0] + ['.'] + Join(parts[1..], '.');
      parts[0]
    else parts[0]
  }

  function OutputDir(year: string): string
  {
    PathJoin(OutputBase, year)
  }

  /** Where a view is written: `<dir>/<name>.csv`. */
  function OutputPath(dir: string, name: string): string
  {
    PathJoin(dir, name + CsvSuffix)
  }

  /** The file system the pipeline writes to. */
  class OutputStore {
    var dirs: set<string>
    var files: map<string, View>

    constructor()
      ensures dirs == {} && files == map[]
    {
      dirs := {};
      files := map[];
    }

    /** `os.makedirs(path, exist_ok=True)`: a directory that already exists is no error. */
    method MakeDirs(path: string)
      modifies this
      ensures dirs == old(dirs) + {path}
      ensures files == old(files)
    {
      dirs := dirs + {path};
    }

    /** `to_csv` into an existing directory; a file already there is replaced. */
    method WriteCsv(dir: string, name: string, v: View)
      requires dir in dirs
      modifies this
      ensures files == old(files)[OutputPath(dir, name) := v]
      ensures dirs == old(dirs)
    {
      files := files[OutputPath(dir, name) := v];
    }
  }

  /** The paths that writing the named views into `dir` creates or replaces. */
  function Paths<T>(dir: string, vs: seq<(string, T)>): (ps: set<string>)
    ensures forall i :: 0 <= i < |vs| ==> OutputPath(dir, vs[i].0) in ps
  {
    set i | 0 <= i < |vs| :: OutputPath(dir, vs[i].0)
  }

  lemma PathsOfPrefix<T>(dir: string, vs: seq<(string, T)>)
    requires vs != []
    ensures Paths(dir, vs) == Paths(dir, vs[..|vs| - 1]) + {OutputPath(dir, vs[|vs| - 1].0)}
  {
    var n := |vs| - 1;
    forall p | p in Paths(dir, vs) ensures p in Paths(dir, vs[..n]) + {OutputPath(dir, vs[n].0)} {
      var i :| 0 <= i < |vs| && p == OutputPath(dir, vs[i].0);
      if i < n {
        assert vs[..n][i] == vs[i];
      }
    }
    forall p | p in Paths(dir, vs[..n]) ensures p in Paths(dir, vs) {
      var i :| 0 <= i < n && p == OutputPath(dir, vs[..n][i].0);
      assert vs[..n][i] == vs[i];
    }
  }

  /** The files after writing the named views into `dir` one after the other. */
  function WriteAll<T>(files: map<string, T>, dir: string, vs: seq<(string, T)>): (r: map<string, T>)
    ensures r.Keys == files.Keys + Paths(dir, vs)
  {
    if vs == [] then files
    else
      var n := |vs| - 1;
      PathsOfPrefix(dir, vs);
      WriteAll(files, dir, vs[..n])[OutputPath(dir, vs[n].0) := vs[n].1]
  }

  /** Writing replaces what was at the written paths and leaves every other file as it was. */
  lemma {:induction false} WriteAllOverrides<T>(files: map<string, T>, dir: string, vs: seq<(string, T)>)
    ensures WriteAll(files, dir, vs) == files + WriteAll(map[], dir, vs)
  {
    if vs != [] {
      WriteAllOverrides(files, dir, vs[..|vs| - 1]);
    }
  }

  /** Writing the same views again changes nothing: a re-run overwrites each file with itself. */
  lemma WriteAllIdempotent<T>(files: map<string, T>, dir: string, vs: seq<(string, T)>)
    ensures WriteAll(WriteAll(files, dir, vs), dir, vs) == WriteAll(files, dir, vs)
  {
    var written := WriteAll(map[], dir, vs);
    WriteAllOverrides(files, dir, vs);
    WriteAllOverrides(files + written, dir, vs);
    assert (files + written) + written == files + written;
  }

  /** What comes before a relative name in its output path: `dir`, with a '/' added unless it ends in one. */
  function DirPrefix(dir: string): string
  {
    if dir == [] || dir[|dir| - 1] == '/' then dir else dir + "/"
  }

  lemma OutputPathShape(dir: string, name: string)
    requires name == [] || name[0] != '/'
    ensures OutputPath(dir, name) == DirPrefix(dir) + (name + CsvSuffix)
  {
    assert (name + CsvSuffix)[0] != '/';
  }

  /** Two different view names never land on the same path. */
  lemma OutputPathInjective(dir: string, a: string, b: string)
    requires a == [] || a[0] != '/'
    requires b == [] || b[0] != '/'
    requires a != b
    ensures OutputPath(dir, a) != OutputPath(dir, b)
  {
    OutputPathShape(dir, a);
    OutputPathShape(dir, b);
    var prefix, pa, pb := DirPrefix(dir), a + CsvSuffix, b + CsvSuffix;
    if |a| == |b| {
      var k :| 0 <= k < |a| && a[k] != b[k];
      assert (prefix + pa)[|prefix| + k] == a[k];
      assert (prefix + pb)[|prefix| + k] == b[k];
    } else {
      assert |prefix + pa| != |prefix + pb|;
    }
  }

  /** A view of a list with distinct relative names ends up in its own file, whatever was written after it. */
  lemma {:induction false} WriteAllStoresAt<T>(files: map<string, T>, dir: string, vs: seq<(string, T)>, i: nat)
    requires i < |vs|
    requires forall j :: 0 <= j < |vs| ==> vs[j].0 == [] || vs[j].0[0] != '/'
    requires forall j, k :: 0 <= j < k < |vs| ==> vs[j].0 != vs[k].0
    ensures OutputPath(dir, vs[i].0) in WriteAll(files, dir, vs)
    ensures WriteAll(files, dir, vs)[OutputPath(dir, vs[i].0)] == vs[i].1
  {
    var n := |vs| - 1;
    if i < n {
      var init := vs[..n];
      assert forall j :: 0 <= j < n ==> init[j] == vs[j];
      WriteAllStoresAt(files, dir, init, i);
      OutputPathInjective(dir, vs[i].0, vs[n].0);
    }
  }

  /** Views with distinct relative names each end up in their own file. */
  lemma WriteAllStores<T>(files: map<string, T>, dir: string, vs: seq<(string, T)>)
    requires forall i :: 0 <= i < |vs| ==> vs[i].0 == [] || vs[i].0[0] != '/'
    requires forall i, j :: 0 <= i < j < |vs| ==> vs[i].0 != vs[j].0
    ensures forall i :: 0 <= i < |vs| ==> WriteAll(files, dir, vs)[OutputPath(dir, vs[i].0)] == vs[i].1
  {
    forall i | 0 <= i < |vs| ensures WriteAll(files, dir, vs)[OutputPath(dir, vs[i].0)] == vs[i].1 {
      WriteAllStoresAt(files, dir, vs, i);
    }
  }

  /** Every view name is a relative file name. */
  lemma ViewNamesRelative()
    ensures forall i :: 0 <= i < |ViewNames| ==> ViewNames[i] != [] && ViewNames[i][0] != '/'
  {
  }

  /** The files after `process_yearly_data` for one year's records. */
  function YearOutput(files: map<string, View>, data: seq<FlightRecord>, year: string, airports: Airports): map<string, View>
  {
    WriteAll(files, OutputDir(year), AllViews(NormalizeAll(data, airports), airports))
  }

  /** The seventeen paths of a year directory. */
  function YearPaths(dir: string): set<string>
  {
    set i | 0 <= i < |ViewNames| :: OutputPath(dir, ViewNames[i])
  }

  /** Writing views with distinct relative names puts each in its own file and touches no other path. */
  lemma WriteDistinctNames<T>(files: map<string, T>, dir: string, vs: seq<(string, T)>)
    requires forall i :: 0 <= i < |vs| ==> vs[i].0 == [] || vs[i].0[0] != '/'
    requires forall i, j :: 0 <= i < j < |vs| ==> vs[i].0 != vs[j].0
    ensures forall i :: 0 <= i < |vs| ==> WriteAll(files, dir, vs)[OutputPath(dir, vs[i].0)] == vs[i].1
    ensures WriteAll(files, dir, vs).Keys == files.Keys + Paths(dir, vs)
    ensures forall p :: p in files && p !in Paths(dir, vs) ==> WriteAll(files, dir, vs)[p] == files[p]
  {
    WriteAllStores(files, dir, vs);
    WriteAllOverrides(files, dir, vs);
  }

  /** The seventeen view names, paired with tables, are relative and distinct. */
  lemma NamedDistinct<T>(ts: seq<T>)
    requires |ts| == |ViewNames|
    ensures forall i :: 0 <= i < |Named(ts)| ==> Named(ts)[i].0 == [] || Named(ts)[i].0[0] != '/'
    ensures forall i, j :: 0 <= i < j < |Named(ts)| ==> Named(ts)[i].0 != Named(ts)[j].0
  {
    ViewNamesDistinct();
    ViewNamesRelative();
  }

  /** The paths of the seventeen named tables are the year directory's paths. */
  lemma NamedPaths<T>(dir: string, ts: seq<T>)
    requires |ts| == |ViewNames|
    ensures Paths(dir, Named(ts)) == YearPaths(dir)
  {
    var vs := Named(ts);
    forall p | p in Paths(dir, vs) ensures p in YearPaths(dir) {
      var i :| 0 <= i < |vs| && p == OutputPath(dir, vs[i].0);
    }
    forall p | p in YearPaths(dir) ensures p in Paths(dir, vs) {
      var i :| 0 <= i < |ViewNames| && p == OutputPath(dir, ViewNames[i]);
      assert vs[i].0 == ViewNames[i];
    }
  }

  /** Writing seventeen named tables puts each in its own file and touches no other path. */
  lemma WriteNamedTables<T>(files: map<string, T>, dir: string, ts: seq<T>)
    requires |ts| == |ViewNames|
    ensures forall i :: 0 <= i < |ViewNames| ==> WriteAll(files, dir, Named(ts))[OutputPath(dir, ViewNames[i])] == ts[i]
    ensures WriteAll(files, dir, Named(ts)).Keys == files.Keys + YearPaths(dir)
    ensures forall p :: p in files && p !in YearPaths(dir) ==> WriteAll(files, dir, Named(ts))[p] == files[p]
  {
    NamedDistinct(ts);
    WriteDistinctNames(files, dir, Named(ts));
    NamedPaths(dir, ts);
  }

  /**
   * After processing a year, `<base>/<year>/<name>.csv` holds the view of that name for
   * each of the seventeen names, and no other file is created or changed.
   */
  lemma YearOutputHoldsViews(files: map<string, View>, data: seq<FlightRecord>, year: string, airports: Airports)
    ensures forall i :: 0 <= i < |ViewNames| ==>
      YearOutput(files, data, year, airports)[OutputPath(OutputDir(year), ViewNames[i])] ==
      Tables(NormalizeAll(data, airports), airports)[i]
    ensures YearOutput(files, data, year, airports).Keys == files.Keys + YearPaths(OutputDir(year))
    ensures forall p :: p in files && p !in YearPaths(OutputDir(year)) ==> YearOutput(files, data, year, airports)[p] == files[p]
  {
    var ts := Tables(NormalizeAll(data, airports), airports);
    ViewCount();
    assert AllViews(NormalizeAll(data, airports), airports) == Named(ts);
    WriteNamedTables(files, OutputDir(year), ts);
  }

  /** Processing the same year twice leaves the same files as processing it once. */
  lemma YearRerunIdempotent(files: map<string, View>, data: seq<FlightRecord>, year: string, airports: Airports)
    ensures YearOutput(YearOutput(files, data, year, airports), data, year, airports) == YearOutput(files, data, year, airports)
  {
    WriteAllIdempotent(files, OutputDir(year), AllViews(NormalizeAll(data, airports), airports));
  }

  /** `process_yearly_data` for one year's records, once the file is read. */
  method ProcessYearlyData(store: OutputStore, data: seq<FlightRecord>, year: string, airports: Airports)
    modifies store
    ensures store.files == YearOutput(old(store.files), data, year, airports)
    ensures store.dirs == old(store.dirs) + {OutputDir(year)}
  {
    var rows := Normalize(data, airports);
    var views := AllViews(rows, airports);
    var dir := OutputDir(year);
    store.MakeDirs(dir);
    for i := 0 to |views|
      invariant store.files == WriteAll(old(store.files), dir, views[..i])
      invariant store.dirs == old(store.dirs) + {dir}
    {
      store.WriteCsv(dir, views[i].0, views[i].1);
      WriteAllStep(old(store.files), dir, views, i);
    }
    assert views[..|views|] == views;
  }

  /** Writing one more view of the list writes its file over what the earlier ones left. */
  lemma WriteAllStep<T>(files: map<string, T>, dir: string, vs: seq<(string, T)>, i: nat)
    requires i < |vs|
    ensures WriteAll(files, dir, vs[..i + 1]) == WriteAll(files, dir, vs[..i])[OutputPath(dir, vs[i].0) := vs[i].1]
  {
    assert vs[..i + 1][..i] == vs[..i];
  }

  /** A year directory receives exactly seventeen files. */
  lemma SeventeenFiles(dir: string)
    ensures |YearPaths(dir)| == 17
  {
    ViewNamesDistinct();
    ViewNamesRelative();
    var paths := seq(|ViewNames|, i requires 0 <= i < |ViewNames| => OutputPath(dir, ViewNames[i]));
    forall i, j | 0 <= i < j < |paths| ensures paths[i] != paths[j] {
      OutputPathInjective(dir, ViewNames[i], ViewNames[j]);
    }
    assert forall p :: p in YearPaths(dir) <==> p in paths by {
      forall p | p in YearPaths(dir) ensures p in paths {
        var i :| 0 <= i < |ViewNames| && p == OutputPath(dir, ViewNames[i]);
        assert paths[i] == p;
      }
    }
    DistinctCardinality(paths, YearPaths(dir));
  }

  /** The files after the driver has processed the directory listing, in listing order. */
  function RunOutput(files: map<string, View>, listing: seq<string>, read: string -> seq<FlightRecord>,
                     airports: Airports): map<string, View>
  {
    if listing == [] then files
    else
      var n := |listing| - 1;
      var before := RunOutput(files, listing[..n], read, airports);
      var name := listing[n];
      if EndsWith(name, CsvSuffix)
      then YearOutput(before, read(PathJoin(InputDir, name)), YearOf(name), airports)
      else before
  }

  /** The year directories the driver creates: one per CSV file of the listing. */
  function RunDirs(listing: seq<string>): set<string>
  {
    set i | 0 <= i < |listing| && EndsWith(listing[i], CsvSuffix) :: OutputDir(YearOf(listing[i]))
  }

  /** The driver: every CSV file of the input directory is processed as the year its name starts with. */
  method Run(store: OutputStore, listing: seq<string>, read: string -> seq<FlightRecord>, airports: Airports)
    modifies store
    ensures store.files == RunOutput(old(store.files), listing, read, airports)
    ensures store.dirs == old(store.dirs) + RunDirs(listing)
  {
    for i := 0 to |listing|
      invariant store.files == RunOutput(old(store.files), listing[..i], read, airports)
      invariant store.dirs == old(store.dirs) + RunDirs(listing[..i])
    {
      var name := listing[i];
      RunStep(old(store.files), listing[..i + 1], read, airports);
      RunDirsStep(listing[..i + 1]);
      assert listing[..i + 1][..i] == listing[..i];
      if EndsWith(name, CsvSuffix) {
        var year := YearOf(name);
        var path := PathJoin(InputDir, name);
        ProcessYearlyData(store, read(path), year, airports);
      }
    }
    assert listing[..|listing|] == listing;
  }

  /** One more name of the listing: a CSV file adds its year's output and directory, any other name nothing. */
  lemma RunStep(files: map<string, View>, listing: seq<string>, read: string -> seq<FlightRecord>, airports: Airports)
    requires listing != []
    ensures var n := |listing| - 1;
      var name := listing[n];
      RunOutput(files, listing, read, airports) ==
        (if EndsWith(name, CsvSuffix)
         then YearOutput(RunOutput(files, listing[..n], read, airports), read(PathJoin(InputDir, name)), YearOf(name), airports)
         else RunOutput(files, listing[..n], read, airports))
  {
  }

  lemma RunDirsStep(listing: seq<string>)
    requires listing != []
    ensures RunDirs(listing) == RunDirs(listing[..|listing| - 1]) +
      (if EndsWith(listing[|listing| - 1], CsvSuffix) then {OutputDir(YearOf(listing[|listing| - 1]))} else {})
  {
    var n := |listing| - 1;
    var init := listing[..n];
    assert forall i :: 0 <= i < n ==> init[i] == listing[i];
    forall d | d in RunDirs(listing)
      ensures d in RunDirs(init) + (if EndsWith(listing[n], CsvSuffix) then {OutputDir(YearOf(listing[n]))} else {})
    {
      var i :| 0 <= i < |listing| && EndsWith(listing[i], CsvSuffix) && d == OutputDir(YearOf(listing[i]));
      if i < n {
        assert d in RunDirs(init);
      }
    }
  }

  /** A name that does not end in ".csv" is skipped. */
  lemma NonCsvIgnored(files: map<string, View>, listing: seq<string>, name: string,
                      read: string -> seq<FlightRecord>, airports: Airports)
    requires !EndsWith(name, CsvSuffix)
    ensures RunOutput(files, listing + [name], read, airports) == RunOutput(files, listing, read, airports)
    ensures RunDirs(listing + [name]) == RunDirs(listing)
  {
    RunStep(files, listing + [name], read, airports);
    RunDirsStep(listing + [name]);
    assert (listing + [name])[..|listing|] == listing;
  }

  /**
   * A name whose first '.' is at position `n` has its first `n` characters as its year:
   * "2009.csv" is 2009, and so is "2009.backup.csv".
   */
  lemma YearOfFirstDot(name: string, n: nat)
    requires n < |name| && name[n] == '.'
    requires forall k :: 0 <= k < n ==> name[k] != '.'
    ensures YearOf(name) == name[..n]
  {
    var y := YearOf(name);
    assert forall k :: 0 <= k < |y| ==> name[k] == y[k];
  }

  /** Where the 2009 carrier_delays view is written. */
  lemma OutputPathExample()
    ensures OutputPath(OutputDir("2009"), "carrier_delays") == "../datasets/AGG_Datasets/2009/carrier_delays.csv"
  {
    assert OutputDir("2009") == "../datasets/AGG_Datasets/2009";
  }
}
