# lotusLake, modelled in Dafny

lotusLake gathers a "lake" of Lotus fluid-simulation runs into one table. It
has three parts:

- It scans a study directory for the sub-directories that hold a finished run,
  that is, that contain the marker file `fort.9`.
- It allocates a table whose columns are the study's parameter and variable
  names.
- A development script fills one row per run. Each row is built from values
  parsed out of the run's directory name (such as `d1.5_g0.2`) and from force
  statistics computed by an external module.

This project models those parts and proves what they compute. The model is
split by source file:

- `lake_io.dfy` (module `LakeIo`) models `lotuslake/io.py`.
  - `get_simulation_directories` is a method with a loop. It is proved equal to
    the function `SimulationDirectories`.
  - The file system is a map from a directory path to the names `os.listdir`
    returns, in order. A path missing from the map cannot be listed.
  - `create_lake_df` has two parts. The function `LakeShape` gives the column
    names, the row count or the error. The method `CreateLakeDf` allocates a
    `LakeFrame` object: named columns over an array of rows, all filled with 1.
- `simulation_name.dfy` (module `SimulationName`) models
  `parse_simulation_name` from `dev/dev_lotusLake.py`. It covers `str.split`,
  the two `re.sub` character-class deletions and `dict(zip(keys, values))`.
  Python's `float` is a parameter: a partial map from text to a number.
- `dev_lotus_lake.dfy` (module `DevLotusLake`) models the rest of
  `dev/dev_lotusLake.py`:
  - the copy of the scanner that lists `cwd + lake_path`;
  - the hand-written study descriptor;
  - one loop step (`SimulationRow`);
  - the loop that writes row `i` in place (`FillLake`);
  - the script as a whole (`RunStudy`).
  The `create_lake_df` in this file is a verbatim copy of the package's, so
  `LakeIo.CreateLakeDf` models both.
- `ordered_dict.dfy` (module `OrderedDicts`) models Python's insertion-ordered
  `dict` as a sequence of (key, value) pairs.
  - `Assign` is `d[k] = v`: an existing key keeps its place and gets the new
    value, and a new key is appended.
  - `FromPairs` is `dict(pairs)`.
  - `Unpack` is `{**a, **b}`.
- `seqs.dfy` and `wrappers.dfy` hold order-preserving filtering, the
  subsequence relation, and `Option`/`Result`.

The error paths of the modelled code are modelled as `Result`s rather than
excluded by preconditions. The exceptions are listed under "Left out" (numpy's
array-size limits, and an interpreter running out of memory). The modelled
errors are:

- `os.listdir` on a path it cannot list;
- `d[0]` on an empty entry name;
- a missing key in the lake dictionary, or a group that is not a dictionary;
- a row count that is not an integer, or that is negative;
- `float` rejecting a text;
- a parsed name without a `d` or `g` parameter;
- lift statistics without a `mad` entry, or drag statistics without a `mean` entry;
- the post-processing raising.

Some details of the code's behaviour are easy to misread:

- A key is its token with only the characters of `[0-9, .]` deleted. Signs,
  upper-case letters and other punctuation stay in the key; it is not just "the
  alphabetic run".
- The number text is its token with only `[a-z]` deleted. Upper-case letters
  and `-` survive into the text given to `float`.
- The scanner keeps the file system's listing order. It is not merely a set.
- The development scanner lists `cwd + lake_path` by plain concatenation.

## Model

| member | source | states |
|---|---|---|
| `LakeIo.SimulationDirectories` | lotuslake/io.py:22-34 | The scan as a value. A successful scan has listed the lake and returns no more names than the lake listing holds. `ScanIsFilter`, `ScanMembership` and `ScanSucceedsIff` characterise it fully |
| `LakeIo.VisibleEntries` | lotuslake/io.py:24 | The hidden-entry comprehension fails (`d[0]` raises) exactly when some entry name is empty. Otherwise it keeps, in listing order, the entries that do not start with `.`, each with all its occurrences and no other entry |
| `LakeIo.GetSimulationDirectories` | lotuslake/io.py:17-34 | The data file defaults to `fort.9`. The loop returns exactly `SimulationDirectories`: the lake listing without hidden entries, keeping the entries whose listing holds the data file, or the first error |
| `LakeIo.SelectSimulations` | lotuslake/io.py:26-33 | The `for` loop over the first entries, as a value. On success it keeps no more entries than it visited, and only entries it visited (its exact meaning: `SelectSimulationsMeaning`) |
| `LakeIo.SelectSimulationsMeaning` | lotuslake/io.py:26-33 | The loop over visible entries succeeds iff every entry's listing exists. It then keeps exactly the entries whose listing contains the data file, in order. Otherwise it reports the first entry whose listing is missing |
| `LakeIo.ScanSucceedsIff` | lotuslake/io.py:23-27 | The scan succeeds iff three things hold: the lake is listable, no entry name is empty (`d[0]` would raise), and every non-hidden entry is itself listable |
| `LakeIo.ScanFailureCause` | lotuslake/io.py:23-27 | A failure names its cause: the lake path, an empty entry name, or the first visible entry in listing order whose listing is missing |
| `LakeIo.ScanIsFilter` | lotuslake/io.py:23-34 | On success the result equals the lake listing filtered, in order, by "does not start with `.` and its listing contains the data file" |
| `LakeIo.ScanMembership` | lotuslake/io.py:24-30 | On success, `d` is returned iff `d` is in the lake listing, does not start with `.`, and the listing of `lake_path + '/' + d` contains the data file |
| `LakeIo.ScanIsSubsequence` | lotuslake/io.py:23-34 | On success the result is a subsequence of the lake listing: listing order is kept and no name is invented |
| `LakeIo.LakeShape` | lotuslake/io.py:43-45 | The table's shape is computed iff both groups are present and are mappings and `simulation_number` is present, an integer and not negative. Its row count is then `simulation_number`, and its column names are distinct. The body, not the contract, fixes which error is reported: the first one Python raises. `LakeColumns` gives the column order |
| `LakeIo.LakeColumns` | lotuslake/io.py:43-45 | The columns are the parameter names in order, then the variable names the parameters lack, in order. No name appears twice. There is one column per member of the union of the two name sets. On a shared name the merged value is the variable group's |
| `LakeIo.CreateLakeDf` | lotuslake/io.py:36-46 | Fails exactly as `LakeShape` does. Otherwise it returns a fresh table with `LakeShape`'s columns and `simulation_number` rows, every cell 1 |
| `LakeIo.LakeFrame.constructor` | lotuslake/io.py:45 | Allocates `count` rows of one cell per column, each cell 1 |
| `LakeIo.LakeFrame.SetRow` | dev/dev_lotusLake.py:165 | `iloc[i] = row` replaces row `i` and no other row. The new row `i` is `row` itself when it has one cell per column. A one-element row is broadcast across the whole row, as numpy does for the table's single block of floats. Otherwise the call refuses and changes nothing: `i` out of range or any other width |
| `LakeIo.Broadcast` | dev/dev_lotusLake.py:165 | The cells written into a row of the table's width: the row itself when the widths agree, or its single value in every cell |
| `OrderedDicts.Unpack` | lotuslake/io.py:43 | `{**a, **b}` holds no key twice. A key of `b` holds the value of `b`'s last pair for it, and any other key holds `a`'s last value for it (or is absent from both) |
| `OrderedDicts.FromPairs` | dev/dev_lotusLake.py:131 | `dict(pairs)` holds no key twice and exactly the keys the pairs name (its values: `ZippedDictionary`) |
| `OrderedDicts.Zip` | dev/dev_lotusLake.py:131 | `zip` stops at the shorter list. On two lists of equal length, its keys are the first list, in order |
| `OrderedDicts.MergeKeys` | lotuslake/io.py:43 | The keys of `{**a, **b}` are `a`'s keys in order followed by the keys of `b` not in `a`. They are distinct, and there are as many as in the union of the two key sets |
| `OrderedDicts.MergeGet` | lotuslake/io.py:43 | In `{**a, **b}` a key of `b` takes `b`'s value even when `a` had it first. Any other key keeps `a`'s value |
| `OrderedDicts.LookupLast` | dev/dev_lotusLake.py:131 | Finds a value iff the key occurs among the pairs. The value found is that of a pair with the key after which no pair has the key |
| `OrderedDicts.UpdateGet` | dev/dev_lotusLake.py:131 | After a run of assignments a key holds the value of its last assignment, and an unassigned key keeps its old value |
| `OrderedDicts.ZippedDictionary` | dev/dev_lotusLake.py:131 | `dict(zip(keys, values))` has no key twice and holds exactly the listed keys. A key's value comes from its last position |
| `SimulationName.Split` | dev/dev_lotusLake.py:127 | `name.split('_')` always has at least one piece, even for the empty name (its full meaning: `SplitMeaning`) |
| `SimulationName.SplitMeaning` | dev/dev_lotusLake.py:127 | `name.split('_')` has `count('_') + 1` pieces, none containing `_`, and joining them with `_` gives the name back |
| `SimulationName.KeyOfMeaning` | dev/dev_lotusLake.py:128 | A key is the token with every occurrence of a character of `[0-9, .]` deleted. Every other character keeps all its occurrences, in order |
| `SimulationName.KeyOf` | dev/dev_lotusLake.py:128 | A key is no longer than its token and holds no digit, comma, space or period |
| `SimulationName.NumberTextOfMeaning` | dev/dev_lotusLake.py:129 | The text given to `float` is the token with every occurrence of `a`-`z` deleted. Every other character, upper-case letters and `-` included, keeps all its occurrences, in order |
| `SimulationName.NumberTextOf` | dev/dev_lotusLake.py:129 | A number text is no longer than its token and holds no lower-case letter |
| `SimulationName.ParseAll` | dev/dev_lotusLake.py:129 | Converting the texts succeeds iff `float` accepts each one. Value `i` is then `float(text i)`. Otherwise the error names the first rejected text |
| `SimulationName.TokenKeys` | dev/dev_lotusLake.py:127-128 | There are `count('_') + 1` keys, and none holds a digit, comma, space or period (per token: `TokenCounts`) |
| `SimulationName.TokenValues` | dev/dev_lotusLake.py:127-129 | When every text converts there are `count('_') + 1` values (per token: `TokenCounts`; when conversion succeeds: `ParseAll`) |
| `SimulationName.TokenCounts` | dev/dev_lotusLake.py:127-129 | Before the dictionary is built there are `count('_') + 1` keys and as many values. Key `i` comes from token `i` and value `i` from token `i` |
| `SimulationName.ParseSimulationName` | dev/dev_lotusLake.py:121-131 | Parsing succeeds iff `float` accepts every token's number text. A failure reports a rejected token text (the first, by `ParseAll`) |
| `SimulationName.LetterOnlyTokenFails` | dev/dev_lotusLake.py:129 | A token of lower-case letters only leaves an empty text, and since `float("")` raises, the call fails |
| `SimulationName.ParsedDictionary` | dev/dev_lotusLake.py:131 | The result's keys are the distinct token keys. Each key holds the value of the last token that produced it |
| `SimulationName.ExampleTwoParameters` | dev/dev_lotusLake.py:121-131 | `d1.5_g0.2` parses to `{"d": float("1.5"), "g": float("0.2")}` |
| `SimulationName.ExampleLaterDuplicateWins` | dev/dev_lotusLake.py:131 | `d1_d2` parses to `{"d": float("2")}` |
| `DevLotusLake.DevGetSimulationDirectories` | dev/dev_lotusLake.py:29-46 | The development scanner is the package scan of `cwd + lake_path`. Every returned `d` is in that listing and is not hidden, and the listing of `cwd + lake_path + '/' + d` contains the data file |
| `DevLotusLake.StudyDescriptor` | dev/dev_lotusLake.py:135-149 | `lotus_lake_parameters` names no key twice, and its `simulation_number` is the number of discovered simulations (the table it yields: `StudyLayout`) |
| `DevLotusLake.StudyLayout` | dev/dev_lotusLake.py:135-154 | The study's descriptor gives the columns `dimensions, gap, lift_mad, drag_mean` and `simulation_number` rows. It maps `dimensions` to `d` and `gap` to `g` |
| `DevLotusLake.SimulationRow` | dev/dev_lotusLake.py:158-164 | One loop step: the row is built from the parsed name of `s` and the post-processing of `cwd + lake_path + '/' + s`. A computed row has one cell per study column |
| `DevLotusLake.AssembleRow` | dev/dev_lotusLake.py:161-164 | A computed row has four cells, one per study column (`RowSucceedsIff`: when it is computed; `RowAligned`: what each cell holds). The body, not the contract, fixes which error is reported: parsing first, then post-processing, then `s_metadata['d']`, `s_metadata['g']`, `lift_stats['mad']` and `drag_stats['mean']` left to right |
| `DevLotusLake.RowSucceedsIff` | dev/dev_lotusLake.py:161-164 | A step computes its row iff the name parses, the post-processing returns, the name has `d` and `g`, the lift statistics have `mad` and the drag statistics have `mean` |
| `DevLotusLake.RowAligned` | dev/dev_lotusLake.py:164 | A row has one cell per study column. Cell 0 is the value of the name's last `d` token and cell 1 that of its last `g` token. Cell 2 is the lift statistics' `mad` entry and cell 3 the drag statistics' `mean` entry |
| `DevLotusLake.FillLake` | dev/dev_lotusLake.py:158-165 | Step `i` writes row `i` only. The loop finishes iff every row can be computed, and then every row `i` holds simulation `i`'s row. Otherwise it stops at the first failing simulation, with the rows before it written and the rest untouched |
| `DevLotusLake.RunStudy` | dev/dev_lotusLake.py:133-165 | A scan failure is the run's failure. Otherwise it succeeds iff every simulation's row can be computed. The table then has the study columns, one row per discovered directory, and row `i` from simulation `i`; a failure is the first failing simulation's error |

## Left out

- `lotuslake/vis.py` and `plot_lake_df`: presentation wrappers over matplotlib and pandas with no logic to prove.
- `postproc_lotus_simulation`: its work is in the external `lotusstat` module. Its result is the parameter `postproc`, a map from a run directory to lift and drag statistics, or `None` where it raises.
- `os.getcwd`, `os.listdir`: the working directory is a parameter and the listings are the file-system map. The `os.getcwd()` call whose value the package scanner never uses is not modelled.
- `LakeShape`: numpy's limits on an array's size are not modelled. In Python `np.ones` raises `ValueError` when the size of the requested array exceeds what numpy can index, and it can run out of memory. The model allocates any non-negative row count.
- The statistics returned by post-processing are modelled as a mapping from names to numbers. Entries of other kinds are not modelled.
- Python's `float`: a parameter from text to an optional number. Its IEEE behaviour and the exact texts it accepts are not modelled. The table's cells are mathematical reals, not 64-bit floats.
- `print`, `plt.savefig` and the unused `lake_list`: output only.
- pandas and numpy: the table is named columns over an array of rows, and `iloc[i] = row` is `LakeFrame.SetRow`. Negative row indices (which `iloc` accepts) are not modelled, since the script only uses `enumerate` indices.
- The lake dictionary's values are strings, integers or nested dictionaries. Other Python values (floats, booleans, lists) are not modelled.
- The order in which `create_lake_df` reports two simultaneous errors follows Python 3.9 and later. Older interpreters evaluate both group lookups before either unpacking.
- Calling the scanner twice on an unchanged tree gives the same result because the model is a function of the file-system map. No separate lemma states this.
- `setup.py` and `lotuslake/__init__.py`: packaging and re-exports only.
