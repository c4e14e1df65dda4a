/** lotuslake/io.py: discovering the simulation directories of a lake and
    allocating the lake table. */
module LakeIo {
  import opened Wrappers
  import opened Seqs
  import opened OrderedDicts

  type Path = string
  type Name = string

  /** The file system as `os.listdir` sees it: each listable directory path
      mapped to the entry names it lists, in listing order. A path that is
      missing (or is not a directory) cannot be listed. */
  type FileSystem = map<Path, seq<Name>>

  /** The marker file of a finished Lotus run, the default `data_file`. */
  const DefaultDataFile: Name := "fort.9"

  datatype ScanError =
    | NotListable(path: Path)  // os.listdir raised (missing path, not a directory)
    | EmptyEntryName           // `d[0]` raised IndexError on an empty entry name

  /** `lake_path + '/' + d`. */
  function ChildPath(root: Path, d: Name): Path {
    root + "/" + d
  }

  /** An entry the hidden-file comprehension keeps: it does not start with `.`. */
  predicate IsVisible(d: Name) {
    |d| > 0 && d[0] != '.'
  }

  /** The entries whose own listing exists and contains `dataFile`. */
  function HasDataFile(fs: FileSystem, root: Path, dataFile: Name): Name -> bool {
    d => ChildPath(root, d) in fs && dataFile in fs[ChildPath(root, d)]
  }

  /** What the scan returns: visible entries whose listing contains `dataFile`. */
  function Selected(fs: FileSystem, root: Path, dataFile: Name): Name -> bool {
    d => IsVisible(d) && HasDataFile(fs, root, dataFile)(d)
  }

  /** `[d for d in all_dirs if d[0] != '.']`: fails exactly when some entry
      name is empty, and otherwise keeps the entries not starting with `.`, in
      listing order and with all their occurrences. */
  function VisibleEntries(entries: seq<Name>): (r: Result<seq<Name>, ScanError>)
    ensures r.Success? <==> [] !in entries
    ensures r.Failure? ==> r.error == EmptyEntryName
    ensures r.Success? ==> IsSubsequence(r.value, entries)
    ensures r.Success? ==> forall d :: d in r.value <==> d in entries && IsVisible(d)
    ensures r.Success? ==> forall d :: IsVisible(d) ==> Count(r.value, d) == Count(entries, d)
  {
    FilterMembers(entries, IsVisible);
    FilterCounts(entries, IsVisible);
    FilterIsSubsequence(entries, IsVisible);
    if [] in entries then Failure(EmptyEntryName) else Success(Filter(entries, IsVisible))
  }

  /** The `for` loop over the visible entries, stated on a prefix `ds` of them:
      the entries kept so far, or the first listing that failed. */
  function SelectSimulations(fs: FileSystem, root: Path, dataFile: Name, ds: seq<Name>): (r: Result<seq<Name>, ScanError>)
    ensures r.Success? ==> |r.value| <= |ds| && forall d :: d in r.value ==> d in ds
  {
    if ds == [] then Success([])
    else
      match SelectSimulations(fs, root, dataFile, ds[..|ds| - 1])
      case Failure(e) => Failure(e)
      case Success(kept) =>
        var d := ds[|ds| - 1];
        if ChildPath(root, d) !in fs then Failure(NotListable(ChildPath(root, d)))
        else if dataFile in fs[ChildPath(root, d)] then Success(kept + [d])
        else Success(kept)
  }

  /** `get_simulation_directories(lake_path, data_file)` as a value: a scan
      that succeeds has listed the lake and returns no more names than it
      listed. */
  function SimulationDirectories(fs: FileSystem, lakePath: Path, dataFile: Name): (r: Result<seq<Name>, ScanError>)
    ensures r.Success? ==> lakePath in fs && |r.value| <= |fs[lakePath]|
  {
    if lakePath !in fs then Failure(NotListable(lakePath))
    else
      match VisibleEntries(fs[lakePath])
      case Failure(e) => Failure(e)
      case Success(visible) =>
        SelectSimulationsMeaning(fs, lakePath, dataFile, visible);
        SelectSimulations(fs, lakePath, dataFile, visible)
  }

  /** The loop succeeds exactly when every entry's listing exists; it then keeps
      exactly the entries whose listing holds the data file, in order; otherwise
      it reports the first entry whose listing is missing. */
  lemma {:induction false} SelectSimulationsMeaning(fs: FileSystem, root: Path, dataFile: Name, ds: seq<Name>)
    ensures var r := SelectSimulations(fs, root, dataFile, ds);
      && (r.Success? <==> forall i :: 0 <= i < |ds| ==> ChildPath(root, ds[i]) in fs)
      && (r.Success? ==> r.value == Filter(ds, HasDataFile(fs, root, dataFile)))
      && (r.Failure? ==> exists i :: 0 <= i < |ds| && ChildPath(root, ds[i]) !in fs
                                    && r.error == NotListable(ChildPath(root, ds[i]))
                                    && forall j :: 0 <= j < i ==> ChildPath(root, ds[j]) in fs)
  {
    if ds != [] {
      var init, d := ds[..|ds| - 1], ds[|ds| - 1];
      assert ds == init + [d];
      SelectSimulationsMeaning(fs, root, dataFile, init);
      FilterSnoc(init, d, HasDataFile(fs, root, dataFile));
      var r := SelectSimulations(fs, root, dataFile, init);
      if r.Failure? {
        var i :| 0 <= i < |init| && ChildPath(root, init[i]) !in fs
                 && r.error == NotListable(ChildPath(root, init[i]))
                 && forall j :: 0 <= j < i ==> ChildPath(root, init[j]) in fs;
        assert ds[i] == init[i];
      } else if ChildPath(root, d) !in fs {
        assert forall j :: 0 <= j < |ds| - 1 ==> ds[j] == init[j];
      }
    }
  }

  /** Once the listing of entry `i` is missing while all earlier ones exist, the
      whole loop fails on entry `i`. */
  lemma SelectSimulationsStopsAt(fs: FileSystem, root: Path, dataFile: Name, ds: seq<Name>, i: nat)
    requires i < |ds| && ChildPath(root, ds[i]) !in fs
    requires forall j :: 0 <= j < i ==> ChildPath(root, ds[j]) in fs
    ensures SelectSimulations(fs, root, dataFile, ds) == Failure(NotListable(ChildPath(root, ds[i])))
  {
    SelectSimulationsMeaning(fs, root, dataFile, ds);
  }

  /** `get_simulation_directories` (lotuslake/io.py): list the lake, drop hidden
      entries, and keep, in listing order, each entry whose own listing holds
      `dataFile`. The unused `os.getcwd()` call is not modelled. */
  method GetSimulationDirectories(fs: FileSystem, lakePath: Path, dataFile: Name := DefaultDataFile) returns (r: Result<seq<Name>, ScanError>)
    ensures r == SimulationDirectories(fs, lakePath, dataFile)
  {
    if lakePath !in fs {
      return Failure(NotListable(lakePath));
    }
    var allDirs := fs[lakePath];
    var visible := VisibleEntries(allDirs);
    if visible.Failure? {
      return Failure(visible.error);
    }
    var dirs := visible.value;
    var simulationDirs: seq<Name> := [];
    for i := 0 to |dirs|
      invariant SelectSimulations(fs, lakePath, dataFile, dirs[..i]) == Success(simulationDirs)
    {
      var d := dirs[i];
      assert dirs[..i + 1][..i] == dirs[..i];
      var child := ChildPath(lakePath, d);
      if child !in fs {
        SelectSimulationsMeaning(fs, lakePath, dataFile, dirs[..i]);
        SelectSimulationsStopsAt(fs, lakePath, dataFile, dirs, i);
        return Failure(NotListable(child));
      }
      if dataFile in fs[child] {
        simulationDirs := simulationDirs + [d];
      }
    }
    assert dirs[..|dirs|] == dirs;
    r := Success(simulationDirs);
  }

  /** The scan succeeds exactly when the lake is listable, no entry name is
      empty, and every visible entry is itself listable. */
  lemma ScanSucceedsIff(fs: FileSystem, lakePath: Path, dataFile: Name)
    ensures SimulationDirectories(fs, lakePath, dataFile).Success? <==>
      && lakePath in fs
      && (forall d :: d in fs[lakePath] ==> d != [])
      && (forall d :: d in fs[lakePath] && IsVisible(d) ==> ChildPath(lakePath, d) in fs)
  {
    if lakePath in fs && [] !in fs[lakePath] {
      var visible := Filter(fs[lakePath], IsVisible);
      FilterMembers(fs[lakePath], IsVisible);
      SelectSimulationsMeaning(fs, lakePath, dataFile, visible);
    }
  }

  /** Each failure names its cause: the lake itself, an empty entry name, or
      the first visible entry (in listing order) whose listing is missing. */
  lemma ScanFailureCause(fs: FileSystem, lakePath: Path, dataFile: Name)
    requires SimulationDirectories(fs, lakePath, dataFile).Failure?
    ensures lakePath !in fs ==>
      SimulationDirectories(fs, lakePath, dataFile).error == NotListable(lakePath)
    ensures lakePath in fs && [] in fs[lakePath] ==>
      SimulationDirectories(fs, lakePath, dataFile).error == EmptyEntryName
    ensures lakePath in fs && [] !in fs[lakePath] ==>
      exists i :: 0 <= i < |Filter(fs[lakePath], IsVisible)|
        && ChildPath(lakePath, Filter(fs[lakePath], IsVisible)[i]) !in fs
        && SimulationDirectories(fs, lakePath, dataFile).error
           == NotListable(ChildPath(lakePath, Filter(fs[lakePath], IsVisible)[i]))
        && forall j :: 0 <= j < i ==> ChildPath(lakePath, Filter(fs[lakePath], IsVisible)[j]) in fs
  {
    if lakePath in fs && [] !in fs[lakePath] {
      var visible := Filter(fs[lakePath], IsVisible);
      SelectSimulationsMeaning(fs, lakePath, dataFile, visible);
    }
  }

  /** On success the result is the lake listing filtered, in order, by
      "not hidden and its listing holds the data file". */
  lemma ScanIsFilter(fs: FileSystem, lakePath: Path, dataFile: Name)
    requires SimulationDirectories(fs, lakePath, dataFile).Success?
    ensures SimulationDirectories(fs, lakePath, dataFile).value
            == Filter(fs[lakePath], Selected(fs, lakePath, dataFile))
  {
    var visible := Filter(fs[lakePath], IsVisible);
    SelectSimulationsMeaning(fs, lakePath, dataFile, visible);
    FilterTwice(fs[lakePath], IsVisible, HasDataFile(fs, lakePath, dataFile), Selected(fs, lakePath, dataFile));
  }

  /** On success, an entry is returned iff it is in the lake listing, does not
      start with `.`, and its own listing contains the data file. */
  lemma ScanMembership(fs: FileSystem, lakePath: Path, dataFile: Name, d: Name)
    requires SimulationDirectories(fs, lakePath, dataFile).Success?
    ensures d in SimulationDirectories(fs, lakePath, dataFile).value <==>
      && d in fs[lakePath]
      && d != [] && d[0] != '.'
      && ChildPath(lakePath, d) in fs && dataFile in fs[ChildPath(lakePath, d)]
  {
    ScanIsFilter(fs, lakePath, dataFile);
    FilterMembers(fs[lakePath], Selected(fs, lakePath, dataFile));
    assert HasDataFile(fs, lakePath, dataFile)(d) <==>
      ChildPath(lakePath, d) in fs && dataFile in fs[ChildPath(lakePath, d)];
    assert Selected(fs, lakePath, dataFile)(d) <==>
      d != [] && d[0] != '.' && ChildPath(lakePath, d) in fs && dataFile in fs[ChildPath(lakePath, d)];
  }

  /** On success the result is a subsequence of the lake listing: listing order
      is kept and nothing is invented. */
  lemma ScanIsSubsequence(fs: FileSystem, lakePath: Path, dataFile: Name)
    requires SimulationDirectories(fs, lakePath, dataFile).Success?
    ensures IsSubsequence(SimulationDirectories(fs, lakePath, dataFile).value, fs[lakePath])
  {
    ScanIsFilter(fs, lakePath, dataFile);
    FilterIsSubsequence(fs[lakePath], Selected(fs, lakePath, dataFile));
  }

  /** A value of the hand-written lake dictionary. */
  datatype Value =
    | Str(s: string)
    | Int(i: int)
    | Mapping(entries: Dict<string, Value>)

  /** The lake dictionary (`lake_dict`): project name, simulation count and
      the named groups of column mappings. */
  type LakeDict = Dict<string, Value>

  const SimulationNumberKey: string := "simulation_number"

  datatype TableError =
    | KeyError(key: string)     // a subscript of lake_dict found no such key
    | NotAMapping(key: string)  // `**` applied to something that is not a dict
    | NotAnInteger              // np.ones given a non-integer row count
    | NegativeDimension         // np.ones given a negative row count

  /** The column names and the row count `create_lake_df` allocates, or the
      error it raises, in the order Python evaluates line 43 to line 45. */
  function LakeShape(lake: LakeDict, parametersKey: string, variablesKey: string): (r: Result<(seq<string>, nat), TableError>)
    ensures r.Success? <==>
      && Get(lake, parametersKey).Some? && Get(lake, parametersKey).value.Mapping?
      && Get(lake, variablesKey).Some? && Get(lake, variablesKey).value.Mapping?
      && Get(lake, SimulationNumberKey).Some? && Get(lake, SimulationNumberKey).value.Int?
      && Get(lake, SimulationNumberKey).value.i >= 0
    ensures r.Success? ==> r.value.1 == Get(lake, SimulationNumberKey).value.i
    ensures r.Success? ==> Distinct(r.value.0)
  {
    match Get(lake, parametersKey)
    case None => Failure(KeyError(parametersKey))
    case Some(parameters) =>
      if !parameters.Mapping? then Failure(NotAMapping(parametersKey))
      else match Get(lake, variablesKey)
      case None => Failure(KeyError(variablesKey))
      case Some(variables) =>
        if !variables.Mapping? then Failure(NotAMapping(variablesKey))
        else match Get(lake, SimulationNumberKey)
        case None => Failure(KeyError(SimulationNumberKey))
        case Some(count) =>
          if !count.Int? then Failure(NotAnInteger)
          else if count.i < 0 then Failure(NegativeDimension)
          else Success((Keys(Unpack(parameters.entries, variables.entries)), count.i))
  }

  /** The columns of a lake table built from two well-formed groups: the
      parameter names in order, then the variable names the parameters lack,
      in order; no name twice; one column per member of the union of the two
      name sets; and on a shared name the merged value is the variable's. */
  lemma LakeColumns(lake: LakeDict, parametersKey: string, variablesKey: string)
    requires LakeShape(lake, parametersKey, variablesKey).Success?
    requires Distinct(Keys(Get(lake, parametersKey).value.entries))
    requires Distinct(Keys(Get(lake, variablesKey).value.entries))
    ensures var p, v := Get(lake, parametersKey).value.entries, Get(lake, variablesKey).value.entries;
      var columns := LakeShape(lake, parametersKey, variablesKey).value.0;
      && columns == Keys(p) + Filter(Keys(v), Absent(Keys(p)))
      && Distinct(columns)
      && |columns| == |(set k | k in Keys(p)) + (set k | k in Keys(v))|
      && (forall k :: k in Keys(p) && k in Keys(v) ==> Get(Unpack(p, v), k) == Get(v, k))
  {
    var p, v := Get(lake, parametersKey).value.entries, Get(lake, variablesKey).value.entries;
    MergeKeys(p, v);
    forall k | k in Keys(p) && k in Keys(v) ensures Get(Unpack(p, v), k) == Get(v, k) {
      MergeGet(p, v, k);
    }
  }

  /** The lake table: named columns over an array of rows (a DataFrame whose
      cells are all floats). The array is the part updated in place. */
  class LakeFrame {
    const columns: seq<string>
    const rows: array<seq<real>>

    /** Every row has one cell per column. */
    ghost predicate Valid()
      reads rows
    {
      forall i :: 0 <= i < rows.Length ==> |rows[i]| == |columns|
    }

    /** `pd.DataFrame(np.ones([count, len(columns)]), columns=columns)`. */
    constructor (columns: seq<string>, count: nat)
      ensures this.columns == columns && fresh(rows) && rows.Length == count
      ensures forall i :: 0 <= i < count ==> |rows[i]| == |columns| && forall j :: 0 <= j < |columns| ==> rows[i][j] == 1.0
      ensures Valid()
    {
      this.columns := columns;
      rows := new seq<real>[count](_ => seq(|columns|, _ => 1.0));
    }

    /** `frame.iloc[i] = row`: replaces row `i` and nothing else. The table is
        one block of floats, so numpy broadcasts a one-element row across the
        whole row; pandas refuses a row index out of range or a row of any other
        wrong width, and then nothing changes. */
    method SetRow(i: nat, row: seq<real>) returns (ok: bool)
      requires Valid()
      modifies rows
      ensures Valid()
      ensures ok <==> i < rows.Length && (|row| == |columns| || |row| == 1)
      ensures ok ==> rows[..] == old(rows[..])[i := Broadcast(row, |columns|)]
      ensures !ok ==> rows[..] == old(rows[..])
    {
      ok := i < rows.Length && (|row| == |columns| || |row| == 1);
      if ok {
        rows[i] := Broadcast(row, |columns|);
      }
    }
  }

  /** The cells numpy writes into a row of `width` floats when given `row`:
      the row itself when the widths agree, otherwise its single value repeated. */
  function Broadcast(row: seq<real>, width: nat): (cells: seq<real>)
    requires |row| == width || |row| == 1
    ensures |cells| == width
    ensures |row| == width ==> cells == row
    ensures |row| == 1 ==> forall j :: 0 <= j < width ==> cells[j] == row[0]
  {
    if |row| == width then row else seq(width, _ => row[0])
  }

  /** `create_lake_df(lake_dict, parameters_key, variables_key)`: merge the two
      groups with `{**parameters, **variables}`, take the merged keys as column
      names and allocate `simulation_number` rows of ones. */
  method CreateLakeDf(lake: LakeDict, parametersKey: string, variablesKey: string) returns (r: Result<LakeFrame, TableError>)
    ensures r.Success? <==> LakeShape(lake, parametersKey, variablesKey).Success?
    ensures r.Failure? ==> LakeShape(lake, parametersKey, variablesKey) == Failure(r.error)
    ensures r.Success? ==>
      var frame := r.value;
      && LakeShape(lake, parametersKey, variablesKey) == Success((frame.columns, frame.rows.Length))
      && fresh(frame.rows) && frame.Valid()
      && forall i, j :: 0 <= i < frame.rows.Length && 0 <= j < |frame.columns| ==> frame.rows[i][j] == 1.0
  {
    var shape := LakeShape(lake, parametersKey, variablesKey);
    if shape.Failure? {
      return Failure(shape.error);
    }
    var frame := new LakeFrame(shape.value.0, shape.value.1);
    r := Success(frame);
  }
}
