/** dev/dev_lotusLake.py: the development copies of the lake helpers and the
    script that fills one table row per discovered simulation. */
module DevLotusLake {
  import opened Wrappers
  import opened Seqs
  import opened OrderedDicts
  import opened LakeIo
  import opened SimulationName

  /** The study directory, relative to the working directory (`lake_path`). */
  const LakePath: Path := "/gStarStudy_64ppd_re100"

  /** The column names the study's lake table gets. */
  const StudyColumns: seq<string> := ["dimensions", "gap", "lift_mad", "drag_mean"]

  /** The development `get_simulation_directories`: the same scan as the
      package's, except that the lake is listed at `cwd + lake_path` (plain
      concatenation) and each entry at `cwd + lake_path + '/' + d`. */
  method DevGetSimulationDirectories(fs: FileSystem, cwd: Path, lakePath: Path, dataFile: Name := DefaultDataFile)
    returns (r: Result<seq<Name>, ScanError>)
    ensures r == SimulationDirectories(fs, cwd + lakePath, dataFile)
    ensures r.Success? ==> cwd + lakePath in fs && forall d :: d in r.value ==>
      && d in fs[cwd + lakePath] && |d| > 0 && d[0] != '.'
      && cwd + lakePath + "/" + d in fs && dataFile in fs[cwd + lakePath + "/" + d]
  {
    r := GetSimulationDirectories(fs, cwd + lakePath, dataFile);
    if r.Success? {
      forall d | d in r.value
        ensures d in fs[cwd + lakePath] && |d| > 0 && d[0] != '.'
                && cwd + lakePath + "/" + d in fs && dataFile in fs[cwd + lakePath + "/" + d]
      {
        ScanMembership(fs, cwd + lakePath, dataFile, d);
      }
    }
  }

  /** `lotus_lake_parameters` with `simulation_number` set to `count`: a
      dictionary literal with no key twice, whose row count is `count`. */
  function StudyDescriptor(count: int): (d: LakeDict)
    ensures Distinct(Keys(d))
    ensures Get(d, SimulationNumberKey) == Some(Int(count))
  {
    var d :=
      [ ("project_name", Str("Circlar cylinder array gap study")),
        ("grid_props", Mapping([("ppd", Int(64))])),
        ("simulation_number", Int(count)),
        ("simulation_parameters", Mapping([("dimensions", Str("d")), ("gap", Str("g"))])),
        ("study_parameters", Mapping([("lift_mad", Str("lMad")), ("drag_mean", Str("dMean"))])) ];
    assert Keys(d) == ["project_name", "grid_props", "simulation_number", "simulation_parameters", "study_parameters"];
    assert |d[0].0| == 12 && |d[1].0| == 10 && |d[2].0| == 17 && |d[3].0| == 21 && |d[4].0| == 16;
    GetAt(d, 2);
    d
  }

  /** The study's table has the columns dimensions, gap, lift_mad, drag_mean
      and one row per discovered simulation; the first two columns are the
      parameters whose name abbreviations are `d` and `g`. */
  lemma StudyLayout(count: nat)
    ensures LakeShape(StudyDescriptor(count), "simulation_parameters", "study_parameters")
            == Success((StudyColumns, count))
    ensures Get(StudyDescriptor(count), "simulation_parameters")
            == Some(Mapping([("dimensions", Str("d")), ("gap", Str("g"))]))
  {
    var desc := StudyDescriptor(count);
    StudyKeys(count);
    GetAt(desc, 2);
    GetAt(desc, 3);
    GetAt(desc, 4);
    StudyMerge();
  }

  /** The descriptor's top-level names are distinct. */
  lemma StudyKeys(count: int)
    ensures Distinct(Keys(StudyDescriptor(count)))
    ensures Keys(StudyDescriptor(count))[2..] == ["simulation_number", "simulation_parameters", "study_parameters"]
  {
    var ks := Keys(StudyDescriptor(count));
    assert ks == ["project_name", "grid_props", "simulation_number", "simulation_parameters", "study_parameters"];
    assert |ks[0]| == 12 && |ks[1]| == 10 && |ks[2]| == 17 && |ks[3]| == 21 && |ks[4]| == 16;
  }

  /** Merging the two groups of the study concatenates them. */
  lemma StudyMerge()
    ensures Keys(Unpack([("dimensions", Str("d")), ("gap", Str("g"))],
                        [("lift_mad", Str("lMad")), ("drag_mean", Str("dMean"))])) == StudyColumns
  {
    var parameters := [("dimensions", Str("d")), ("gap", Str("g"))];
    var variables := [("lift_mad", Str("lMad")), ("drag_mean", Str("dMean"))];
    var both := parameters + variables;
    assert Keys(both) == StudyColumns;
    assert |StudyColumns[0]| == 10 && |StudyColumns[1]| == 3 && |StudyColumns[2]| == 8 && |StudyColumns[3]| == 9;
    assert StudyColumns[0] != StudyColumns[3];
    assert Distinct(Keys(both));
    assert Keys(parameters) == StudyColumns[..2];
    assert Distinct(Keys([] + parameters));
    UpdateFresh([], parameters);
    assert [] + parameters == parameters;
    UpdateFresh(parameters, variables);
  }

  /** The summary statistics the external post-processing returns for one force
      signal, by name (`lift_stats`, `drag_stats`). */
  type SignalStats = Dict<string, real>

  /** `postproc_lotus_simulation(simulation_dir)`: lift and drag statistics of a
      run, or `None` where the external module raised. Kept abstract. */
  type Postproc = Path -> Option<(SignalStats, SignalStats)>

  datatype RunError =
    | Scan(scan: ScanError)
    | Parse(parse: ParseError)
    | PostprocFailed(dir: Path)
    | MissingParameter(key: string)  // `s_metadata[key]` raised KeyError
    | MissingStatistic(key: string)  // `lift_stats[key]` or `drag_stats[key]` raised KeyError

  /** The body of the script's loop for simulation `s`: parse its name,
      post-process its directory, and assemble the row from the two. */
  function SimulationRow(cwd: Path, s: Name, float: FloatParser, postproc: Postproc): (r: Result<seq<real>, RunError>)
    ensures r.Success? ==> |r.value| == |StudyColumns|
  {
    var dir := cwd + LakePath + "/" + s;
    AssembleRow(ParseSimulationName(s, float), postproc(dir), dir)
  }

  /** `s_data = [s_metadata['d'], s_metadata['g'], lift_stats['mad'], drag_stats['mean']]`
      after the name was parsed and the directory post-processed, the first
      failure winning: parsing, post-processing, then the four subscripts left
      to right. A computed row has one cell per study column. */
  function AssembleRow(parsed: Result<Dict<string, real>, ParseError>, stats: Option<(SignalStats, SignalStats)>, dir: Path)
    : (r: Result<seq<real>, RunError>)
    ensures r.Success? ==> |r.value| == |StudyColumns|
  {
    match parsed
    case Failure(e) => Failure(Parse(e))
    case Success(metadata) =>
      match stats
      case None => Failure(PostprocFailed(dir))
      case Some(stats) =>
        match Get(metadata, "d")
        case None => Failure(MissingParameter("d"))
        case Some(d) =>
          match Get(metadata, "g")
          case None => Failure(MissingParameter("g"))
          case Some(g) =>
            match Get(stats.0, "mad")
            case None => Failure(MissingStatistic("mad"))
            case Some(mad) =>
              match Get(stats.1, "mean")
              case None => Failure(MissingStatistic("mean"))
              case Some(mean) => Success([d, g, mad, mean])
  }

  /** A simulation's row can be computed exactly when its name parses, its
      post-processing returns, the name has a `d` and a `g` parameter, the lift
      statistics have a `mad` and the drag statistics a `mean`. */
  lemma RowSucceedsIff(cwd: Path, s: Name, float: FloatParser, postproc: Postproc)
    ensures var parsed, stats := ParseSimulationName(s, float), postproc(cwd + LakePath + "/" + s);
      SimulationRow(cwd, s, float, postproc).Success? <==>
        && parsed.Success? && stats.Some?
        && "d" in Keys(parsed.value) && "g" in Keys(parsed.value)
        && "mad" in Keys(stats.value.0) && "mean" in Keys(stats.value.1)
  {
    var dir := cwd + LakePath + "/" + s;
    AssembleSucceedsIff(ParseSimulationName(s, float), postproc(dir), dir);
  }

  lemma AssembleSucceedsIff(parsed: Result<Dict<string, real>, ParseError>, stats: Option<(SignalStats, SignalStats)>, dir: Path)
    ensures AssembleRow(parsed, stats, dir).Success? <==>
      && parsed.Success? && stats.Some?
      && "d" in Keys(parsed.value) && "g" in Keys(parsed.value)
      && "mad" in Keys(stats.value.0) && "mean" in Keys(stats.value.1)
  {
    if parsed.Success? && stats.Some? {
      GetIffKey(parsed.value, "d");
      GetIffKey(parsed.value, "g");
      GetIffKey(stats.value.0, "mad");
      GetIffKey(stats.value.1, "mean");
    }
  }

  /** A row the script writes lines up with the study's columns: cell 0 is the
      value of the last `d…` token of the name (dimensions), cell 1 that of the
      last `g…` token (gap), cell 2 the lift MAD and cell 3 the drag mean of
      the run's directory. */
  lemma RowAligned(cwd: Path, s: Name, float: FloatParser, postproc: Postproc)
    requires SimulationRow(cwd, s, float, postproc).Success?
    ensures var row := SimulationRow(cwd, s, float, postproc).value;
      var keys, values := TokenKeys(s), TokenValues(s, float).value;
      var stats := postproc(cwd + LakePath + "/" + s).value;
      && |row| == |StudyColumns|
      && (exists i :: 0 <= i < |keys| && keys[i] == "d" && row[0] == values[i]
                      && forall j :: i < j < |keys| ==> keys[j] != "d")
      && (exists i :: 0 <= i < |keys| && keys[i] == "g" && row[1] == values[i]
                      && forall j :: i < j < |keys| ==> keys[j] != "g")
      && Get(stats.0, "mad") == Some(row[2]) && Get(stats.1, "mean") == Some(row[3])
  {
    RowCells(cwd, s, float, postproc);
    ParsedDictionary(s, float);
    TokenCounts(s, float);
    ParameterCells(TokenKeys(s), TokenValues(s, float).value, ParseSimulationName(s, float).value,
                   SimulationRow(cwd, s, float, postproc).value);
  }

  /** The `d` and `g` cells of a row hold the values of the last `d` and `g`
      tokens, given the parsed dictionary's relation to the token lists. */
  lemma ParameterCells(keys: seq<string>, values: seq<real>, metadata: Dict<string, real>, row: seq<real>)
    requires |values| == |keys| && |row| == 4
    requires forall x :: x in Keys(metadata) <==> x in keys
    requires forall i :: 0 <= i < |keys| && (forall j :: i < j < |keys| ==> keys[j] != keys[i]) ==>
               Get(metadata, keys[i]) == Some(values[i])
    requires Get(metadata, "d") == Some(row[0]) && Get(metadata, "g") == Some(row[1])
    ensures exists i :: 0 <= i < |keys| && keys[i] == "d" && row[0] == values[i]
                        && forall j :: i < j < |keys| ==> keys[j] != "d"
    ensures exists i :: 0 <= i < |keys| && keys[i] == "g" && row[1] == values[i]
                        && forall j :: i < j < |keys| ==> keys[j] != "g"
  {
    LastIndexOf(keys, "d", metadata, values);
    LastIndexOf(keys, "g", metadata, values);
  }

  /** The cells of a computed row, read off the parsed name and the statistics. */
  lemma RowCells(cwd: Path, s: Name, float: FloatParser, postproc: Postproc)
    requires SimulationRow(cwd, s, float, postproc).Success?
    ensures ParseSimulationName(s, float).Success? && postproc(cwd + LakePath + "/" + s).Some?
    ensures var row, metadata := SimulationRow(cwd, s, float, postproc).value, ParseSimulationName(s, float).value;
      var stats := postproc(cwd + LakePath + "/" + s).value;
      && Get(metadata, "d") == Some(row[0]) && Get(metadata, "g") == Some(row[1])
      && Get(stats.0, "mad") == Some(row[2]) && Get(stats.1, "mean") == Some(row[3]) && |row| == 4
  {
    var dir := cwd + LakePath + "/" + s;
    AssembleCells(ParseSimulationName(s, float), postproc(dir), dir);
  }

  lemma AssembleCells(parsed: Result<Dict<string, real>, ParseError>, stats: Option<(SignalStats, SignalStats)>, dir: Path)
    requires AssembleRow(parsed, stats, dir).Success?
    ensures parsed.Success? && stats.Some?
    ensures var row := AssembleRow(parsed, stats, dir).value;
      && Get(parsed.value, "d") == Some(row[0]) && Get(parsed.value, "g") == Some(row[1])
      && Get(stats.value.0, "mad") == Some(row[2]) && Get(stats.value.1, "mean") == Some(row[3]) && |row| == 4
  {
  }

  /** A present key's value comes from the last token that produced it. */
  lemma LastIndexOf(keys: seq<string>, k: string, d: Dict<string, real>, values: seq<real>)
    requires |values| == |keys|
    requires Get(d, k).Some? && (forall x :: x in Keys(d) <==> x in keys)
    requires forall i :: 0 <= i < |keys| && (forall j :: i < j < |keys| ==> keys[j] != keys[i]) ==>
               Get(d, keys[i]) == Some(values[i])
    ensures exists i :: 0 <= i < |keys| && keys[i] == k && Get(d, k).value == values[i]
                        && forall j :: i < j < |keys| ==> keys[j] != k
  {
    GetIffKey(d, k);
    var i :| 0 <= i < |keys| && keys[i] == k;
    while exists j :: i < j < |keys| && keys[j] == k
      invariant 0 <= i < |keys| && keys[i] == k
      decreases |keys| - i
    {
      var later :| i < later < |keys| && keys[later] == k;
      i := later;
    }
  }

  /** The script's loop `for i, s in enumerate(lake_simulations): lake_df.iloc[i] = s_data`
      over a table of the study's columns with one row per simulation. Row `i`
      is written at step `i` and by no other step; a failing step stops the
      run, leaving the rows before it written and the rest as allocated. */
  method FillLake(frame: LakeFrame, sims: seq<Name>, cwd: Path, float: FloatParser, postproc: Postproc)
    returns (failure: Option<(nat, RunError)>)
    requires frame.Valid() && frame.columns == StudyColumns && frame.rows.Length == |sims|
    modifies frame.rows
    ensures frame.Valid()
    ensures failure.None? <==> forall i :: 0 <= i < |sims| ==> SimulationRow(cwd, sims[i], float, postproc).Success?
    ensures failure.None? ==>
      forall i :: 0 <= i < |sims| ==> SimulationRow(cwd, sims[i], float, postproc) == Success(frame.rows[i])
    ensures failure.Some? ==>
      var k, e := failure.value.0, failure.value.1;
      && k < |sims| && SimulationRow(cwd, sims[k], float, postproc) == Failure(e)
      && (forall i :: 0 <= i < k ==> SimulationRow(cwd, sims[i], float, postproc) == Success(frame.rows[i]))
      && (forall i :: k <= i < |sims| ==> frame.rows[i] == old(frame.rows[i]))
  {
    for i := 0 to |sims|
      invariant frame.Valid()
      invariant forall j :: 0 <= j < i ==> SimulationRow(cwd, sims[j], float, postproc) == Success(frame.rows[j])
      invariant forall j :: i <= j < |sims| ==> frame.rows[j] == old(frame.rows[j])
    {
      var row := SimulationRow(cwd, sims[i], float, postproc);
      if row.Failure? {
        return Some((i, row.error));
      }
      var ok := frame.SetRow(i, row.value);
      assert ok;
    }
    failure := None;
  }

  /** The script as a whole: discover the simulations under `cwd + lake_path`
      (marker `fort.9`), allocate the study's table with one row per
      simulation, and fill row `i` from simulation `i`. Plotting and saving
      the figure are not modelled. */
  method RunStudy(fs: FileSystem, cwd: Path, float: FloatParser, postproc: Postproc)
    returns (r: Result<LakeFrame, RunError>)
    ensures var scan := SimulationDirectories(fs, cwd + LakePath, DefaultDataFile);
      scan.Failure? ==> r == Failure(Scan(scan.error))
    ensures var scan := SimulationDirectories(fs, cwd + LakePath, DefaultDataFile);
      scan.Success? ==>
        var sims := scan.value;
        && (r.Success? <==> forall i :: 0 <= i < |sims| ==> SimulationRow(cwd, sims[i], float, postproc).Success?)
        && (r.Success? ==>
              && r.value.columns == StudyColumns && r.value.rows.Length == |sims|
              && fresh(r.value.rows) && r.value.Valid()
              && forall i :: 0 <= i < |sims| ==> SimulationRow(cwd, sims[i], float, postproc) == Success(r.value.rows[i]))
        && (r.Failure? ==>
              exists k :: 0 <= k < |sims| && SimulationRow(cwd, sims[k], float, postproc) == Failure(r.error)
                          && forall i :: 0 <= i < k ==> SimulationRow(cwd, sims[i], float, postproc).Success?)
  {
    var scan := DevGetSimulationDirectories(fs, cwd, LakePath);
    if scan.Failure? {
      return Failure(Scan(scan.error));
    }
    var lakeSimulations := scan.value;
    StudyLayout(|lakeSimulations|);
    var created := CreateLakeDf(StudyDescriptor(|lakeSimulations|), "simulation_parameters", "study_parameters");
    var frame := created.value;
    assert frame.columns == StudyColumns && frame.rows.Length == |lakeSimulations|;
    var failure := FillLake(frame, lakeSimulations, cwd, float, postproc);
    if failure.Some? {
      var k := failure.value.0;
      assert SimulationRow(cwd, lakeSimulations[k], float, postproc) == Failure(failure.value.1);
      return Failure(failure.value.1);
    }
    r := Success(frame);
  }
}
