# slurmer / tcml_tools: verified model of the result aggregation and job helpers

This project models the core of `slurmer` and `tcml_tools`. These are Python helpers for running parameter sweeps on a Slurm cluster and collecting their tensorboard results into tables.

What is modelled:

- **Metrics.** A `Result` is a named value with a display precision. A string value ("N/A") sorts below every number. `Metrics.from_values` reduces a jobs × time-steps array to a fixed-order list of named results. There are two byte-identical copies of `metrics.py`, and one module serves both.
- **Groups.** A `Group` is a named set of job ids with parameters, per-job logged series and results. A `GroupSeparator` is a row break in a table. The class-wide registries of parameter and result keys decide the table columns.
- **GroupManager.** Both copies of `groupmanager.py` are modelled. The manager holds a list of groups and separators plus an in-memory events cache. Its operations are:
  - filtering;
  - merging by name;
  - merging by parameter;
  - cache-aware updating;
  - sorting with separator collapsing;
  - column alignment;
  - CSV and LaTeX tables;
  - plot data.
- **Slurmer.** These are the job-grid helpers of the Slurm front end:
  - the grid of parameter combinations;
  - file-name-safe values;
  - `{key}` substitution into the templates;
  - the argument strings of the generated shell scripts;
  - the clustering behind `print_group_code`.

  A `Slurmer` class holds the state these helpers read.
- **Queues.** A `RunType` becomes a Slurm time string and partition. This covers GPU scaling, rounding to 5 minutes, days/hours/minutes and the partition thresholds.
- **Callbacks.** This covers the `JobState` enum and its parse table, reading `sacct` output into one state, and the stop decisions of the polling callbacks.

Floats are modelled as `Float = NaN | Fin(real)`, with exact reals. numpy's `median` and `std` and the `'%.Nf'` formatting are function parameters. The tensorboard log reader is also a function parameter: it maps a list of job ids to their logs.

Python objects that the source mutates are modelled in two ways:

- `GroupManager` and `Slurmer` are classes whose methods update their fields.
- A `Group` is a value, so a group updated in place is modelled as a new value in the manager's list. The class-wide key registries are a `Registry` value that is passed in and handed back.

Insertion-ordered dictionaries are `ODict`s: a key sequence and a map.

Files:

| file | contents |
|---|---|
| `wrappers.dfy` | `Option` and `Outcome` |
| `pystr.dfy` | Python string and slice helpers: `join`, `split`, `replace`, `strip`, `str(int)` |
| `odicts.dfy` | insertion-ordered dicts |
| `stablesort.dfy` | the stable sort behind Python's `sorted` |
| `metrics.dfy` | `Result` and `Metrics` |
| `groups.dfy` | `Group` and `GroupSeparator` |
| `tables.dfy` | `sorted_results`, `_align_strs`, and the CSV and LaTeX tables |
| `manager.dfy` | `GroupManager` |
| `slurmer.dfy` | `JobItem` and `Slurmer` |
| `queues.dfy` | `RunType` |
| `callbacks.dfy` | `JobState` and the callbacks' decisions |

## Model

| member | source | states |
|---|---|---|
| Metrics.Str | slurmer/parse/metrics.py:15-19 | a string-valued result is shown verbatim |
| Metrics.NoneIsBottomless | slurmer/parse/metrics.py:21-35 | no result is less than `None`, and none equals it |
| Metrics.TextIsLeast | slurmer/parse/metrics.py:21-28 | a string result is less than every result, another string result included; a number is never less than a string; the other copy, tcml_tools/slurmer/parse/metrics.py:21-28, is the same |
| Metrics.TextsMutuallyLess | slurmer/parse/metrics.py:21-35 | two string results are each less than the other and are equal, so `<` is no strict order on them |
| Metrics.NumbersCompareByValue | slurmer/parse/metrics.py:21-35 | between non-NaN numbers, `<` and `==` follow the values; a NaN is neither less, greater nor equal |
| Metrics.LessTransitive | slurmer/parse/metrics.py:21-28 | without NaN, `<` on results is transitive |
| Metrics.Less | slurmer/parse/metrics.py:21-28 | `Result.__lt__` with `None` for a missing other: false against `None`, true for a string `self`, false against a string, otherwise the float `<`; its properties are stated by NoneIsBottomless, TextIsLeast, TextsMutuallyLess, NumbersCompareByValue and LessTransitive |
| Metrics.Equal | slurmer/parse/metrics.py:30-35 | `Result.__eq__`: false against `None`, true for two strings, otherwise the float `==`, under which NaN equals nothing; stated by NoneIsBottomless, TextsMutuallyLess and NumbersCompareByValue |
| Metrics.Max | slurmer/parse/group.py:60 | `max([new, existing])` is one of its two arguments |
| Metrics.MaxKeepsLarger | slurmer/parse/group.py:60 | with nothing stored the new result is kept; an N/A never displaces a stored result; a number always displaces an N/A; between numbers the larger is kept, the new one on ties |
| Metrics.MaxIdempotent | slurmer/parse/group.py:60 | offering the kept result again changes nothing |
| Metrics.NewMetrics | slurmer/parse/metrics.py:43-79 | construction fails exactly when both `first_k` and `last_k` are set; the name falls back to the key; the other settings are kept; the other copy, tcml_tools/slurmer/parse/metrics.py:63-66, is the same |
| Metrics.Truncate | slurmer/parse/metrics.py:93-94 | truncation keeps one row per job |
| Metrics.ReplaceNanIn | slurmer/parse/metrics.py:95-96 | NaN replacement leaves only finite numbers and keeps the row length |
| Metrics.Prepare | slurmer/parse/metrics.py:92-96 | preparing the array keeps one row per job |
| Metrics.MaxIsExtremum | slurmer/parse/metrics.py:130-134 | without NaN, `np.max` is an entry that no entry exceeds |
| Metrics.MinIsExtremum | slurmer/parse/metrics.py:135-139 | without NaN, `np.min` is an entry that no entry undercuts |
| Metrics.MaxPropagatesNaN | slurmer/parse/metrics.py:130-134 | any NaN entry makes the maximum NaN |
| Metrics.Mean | slurmer/parse/metrics.py:105-109 | `np.mean`: NaN on empty input or when an entry is NaN; MeanBetweenExtrema places it between `np.min` and `np.max` |
| Metrics.MaxF | slurmer/parse/metrics.py:130-134 | `np.max` of a non-empty input; MaxIsExtremum and MaxPropagatesNaN state what it returns |
| Metrics.MinF | slurmer/parse/metrics.py:135-139 | `np.min` of a non-empty input; MinIsExtremum states what it returns |
| Metrics.MeanBetweenExtrema | slurmer/parse/metrics.py:105-139 | without NaN, the mean lies between the minimum and the maximum (by way of MeanIsAverage, the mean as sum over count) |
| Metrics.RowMeans | slurmer/parse/metrics.py:128 | `np.mean(axis=1)` gives one mean per job |
| Metrics.EmitNamed | slurmer/parse/metrics.py:104-140 | the emitted results are named `<name> <suffix>` in the order of the aggregates, each with the metric's precision |
| Metrics.Emit | slurmer/parse/metrics.py:104-140 | the results of the enabled aggregates in order, or the first error; EmitNamed states their names and precision |
| Metrics.FromValues | slurmer/parse/metrics.py:85-140 | `from_values`: preparation of the array, then the results; FromValuesOrder and FromValuesErrors state its order and its errors |
| Metrics.FromValuesOrder | slurmer/parse/metrics.py:85-140 | exactly one result per enabled flag, in the order avg, med, max_avg, min_avg, std, max, min; with a `None` array every value is `not_available_value`, otherwise every value is a number; the other copy, tcml_tools/slurmer/parse/metrics.py:104-140, is the same |
| Metrics.FromValuesErrors | slurmer/parse/metrics.py:97-102 | input that is neither an array nor `None` raises; a `None` array fails exactly when `not_available_value` is unset |
| Metrics.FirstKIgnored | slurmer/parse/metrics.py:93 | `first_k` never changes the outcome of a constructed `Metrics`; the other copy, tcml_tools/slurmer/parse/metrics.py:93-94, is the same |
| Metrics.LastKKeepsTail | slurmer/parse/metrics.py:94 | with a positive `last_k`, each row keeps exactly its last `min(last_k, length)` samples (`Metrics.Truncate` covers zero and negative values with Python slicing) |
| Groups.Register | slurmer/parse/group.py:13-14 | registering adds the key last if new and keeps the known keys in front, distinct |
| Groups.RegisterAll | slurmer/parse/group.py:20-23 | registering several keys keeps the old keys in front and adds exactly the new ones |
| Groups.NewGroup | slurmer/parse/group.py:16-23 | ids and parameters keep their order; data and results start empty; every parameter key is registered after the known ones; the result registry is untouched |
| Groups.NewSeparator | slurmer/parse/group.py:131-133 | a separator is always named `separator 0`, holds no ids and no results, and registers its parameters |
| Groups.Merge | slurmer/parse/group.py:38-43 | the name and kind stay; ids are concatenated; results are overlaid by the other group's |
| Groups.MergeOverlay | slurmer/parse/group.py:38-43 | the other group wins on every shared parameter and job; own keys keep their order in front; the parameter keys are the union |
| Groups.OverlayJob | slurmer/parse/group.py:53 | overlaying one job's log keeps the data well formed |
| Groups.UpdateData | slurmer/parse/group.py:51-53 | only the data changes: the job's metric map is overlaid on its old one, or on `{}` for a job seen first |
| Groups.UpdateAllData | slurmer/parse/group.py:45-49 | the loop over the group's ids computes the data overlay and changes nothing else |
| Groups.OverlayIdsKeys | slurmer/parse/group.py:45-49 | jobs already present keep their order in front, and the data stays well formed |
| Groups.OverlayMapEffect | slurmer/parse/group.py:45-49 | exactly the group's ids that are in the supplied map are touched, each overlaid metric by metric; every other job is unchanged |
| Groups.OverlayIdsIdempotent | slurmer/parse/group.py:45-49 | updating twice with the same map is updating once |
| Groups.OverlayIds | slurmer/parse/group.py:45-49 | the data after `update_all_data`; OverlayIdsKeys, OverlayMapEffect and OverlayIdsIdempotent state its effect |
| Groups.Series | slurmer/parse/group.py:76-78 | the series has at most as many samples as logged, and at most `last_k` when that is a positive int |
| Groups.CollectParts | slurmer/parse/group.py:70-79 | every job lands either among the missing or as a row; there are no rows exactly when no job has the key; rows respect `last_k` |
| Groups.Values | slurmer/parse/group.py:65-83 | the loop computes `_values` as specified by `ValuesOf` |
| Groups.ValuesOfMeaning | slurmer/parse/group.py:65-83 | the missing jobs are those of `self.data` lacking the key; `None` exactly when no job has it; the array is rectangular; it fails exactly when present series differ in length |
| Groups.Collect | slurmer/parse/group.py:70-79 | what `_values` has gathered after visiting some jobs; CollectParts states the split into missing ids and series |
| Groups.ValuesOf | slurmer/parse/group.py:65-83 | `_values(key, last_k)`; ValuesOfMeaning states its meaning |
| Groups.AbsorbRegisters | slurmer/parse/group.py:59-61 | every absorbed name is registered after the known ones, in order, without duplicates |
| Groups.AbsorbStores | slurmer/parse/group.py:59-61 | a result is stored under every absorbed name, and none is dropped |
| Groups.AbsorbKeepsLarger | slurmer/parse/group.py:59-61 | a stored result changes only to an absorbed number; numbers stay numbers; every name absorbed with a number ends up holding one |
| Groups.Absorb | slurmer/parse/group.py:59-61 | the inner loop of `update_results`; AbsorbRegisters, AbsorbStores and AbsorbKeepsLarger state its effect |
| Groups.UpdateResultsOf | slurmer/parse/group.py:135-136 | a separator ignores `update_results` |
| Groups.UpdateResults | slurmer/parse/group.py:55-63 | the loop over the metrics computes the specified update, stopping at the first failure |
| Groups.ApplyOne | slurmer/parse/group.py:57-63 | one pass of the metric loop: the metric's values are gathered and reduced, a missing key raises, and the results are absorbed as `ApplyMetric` specifies |
| Groups.AbsorbAll | slurmer/parse/group.py:59-61 | the inner loop stores each result as the larger of it and the stored one and registers its name, as `Absorb` specifies |
| Groups.ApplyMetricGrows | slurmer/parse/group.py:55-61 | one metric changes only the results and the result registry; nothing is dropped; the registry grows at its end |
| Groups.ApplyMetricsGrows | slurmer/parse/group.py:55-63 | all metrics together change the group and the registries only as `Grows` allows |
| Groups.ApplyMetric | slurmer/parse/group.py:55-61 | one metric of `update_results`; ApplyMetricGrows states what it changes |
| Groups.Keep | slurmer/parse/group.py:25-31 | the registry's keys minus the ignored ones |
| Groups.FirstMissing | slurmer/parse/group.py:104 | `None` exactly when every shown result key holds a result; otherwise a key without one |
| Groups.CsvRow | slurmer/parse/group.py:111-113 | a separator gives `''`; a group's row fails exactly when some shown result key has no result (the separator's row is at slurmer/parse/group.py:138-140) |
| Groups.CsvSplit | slurmer/parse/group.py:107-113 | the row layout `name;ids;;params;;values;` splits back into its fields when no field contains `;` |
| Groups.CsvColumnsAlign | slurmer/parse/group.py:85-113 | header and row split into the same field layout, so they have the same number of columns |
| Groups.CsvHeader | slurmer/parse/group.py:107-109 | the CSV header; CsvColumnsAlign states that it has the layout of every row (the lemmas CsvExample, CsvHeaderExample and CsvRowPieces work one header and row out in full) |
| Groups.EscapeUnderscores | slurmer/parse/group.py:115-121 | every `_` in the output is escaped, and text without `_` is unchanged |
| Groups.LatexRow | slurmer/parse/group.py:119-121 | a separator gives `\midrule`; a group's row fails exactly when its CSV row fails, and has its underscores escaped (the separator's row is at slurmer/parse/group.py:142-144) |
| Groups.LatexRowIgnoresIds | slurmer/parse/group.py:96-105 | the LaTeX row does not depend on the ids |
| Groups.LatexHeader | slurmer/parse/group.py:115-117 | the LaTeX header has every underscore escaped; LatexTableShape places its aligned form as the table's third line, after `\begin{tabular}` and `\toprule` |
| StableSort.SortPerm | tcml_tools/slurmer/parse/groupmanager.py:249 | `sorted` permutes its input |
| StableSort.SortSorted | tcml_tools/slurmer/parse/groupmanager.py:249 | `sorted` orders its input by key |
| StableSort.SortStable | tcml_tools/slurmer/parse/groupmanager.py:249 | elements with equal keys keep their input order |
| StableSort.SortSortedIdentity | tcml_tools/slurmer/parse/groupmanager.py:249 | sorting a sorted list changes nothing |
| Tables.SortResult | tcml_tools/slurmer/parse/groupmanager.py:249 | a group without the result sorts as the N/A `empty_result` |
| Tables.RankAgreesWithLess | tcml_tools/slurmer/parse/groupmanager.py:249 | the sort key orders two results exactly as `Result.__lt__` does wherever that is a strict order |
| Tables.Rank | tcml_tools/slurmer/parse/groupmanager.py:249 | the sort position of a result; RankAgreesWithLess states that it agrees with `Result.__lt__` wherever that is a strict order |
| Tables.SortedByOrder | tcml_tools/slurmer/parse/groupmanager.py:246-249 | sorting by a result permutes the groups; when no result is NaN, groups with finite numbers come out ascending (descending when asked) and groups with the same number keep their order; nothing is promised among N/A groups; the other copy, slurmer/parse/groupmanager.py:230-233, is the same |
| Tables.NumbersFirstWhenDescending | tcml_tools/slurmer/parse/groupmanager.py:249 | when descending, every group holding a number comes before every missing or N/A one |
| Tables.SortedBy | tcml_tools/slurmer/parse/groupmanager.py:246-249 | the groups in sort order; SortedByOrder and NumbersFirstWhenDescending state the order |
| Tables.CollapseEffect | tcml_tools/slurmer/parse/groupmanager.py:250-257 | after collapsing no two separators are adjacent; all non-separators survive in order; the list is empty exactly when the input is; it ends in a separator exactly when the input does |
| Tables.CollapseKeeps | tcml_tools/slurmer/parse/groupmanager.py:250-257 | a list without adjacent separators is unchanged |
| Tables.Collapse | tcml_tools/slurmer/parse/groupmanager.py:250-257 | the collapsing loop; CollapseEffect and CollapseKeeps state its effect |
| Tables.SortedResultsOf | tcml_tools/slurmer/parse/groupmanager.py:246-258 | `sorted_results`: sorting, then collapsing when asked; CsvTableShape and LatexTableShape print its groups |
| Tables.AlignStrsOf | tcml_tools/slurmer/parse/groupmanager.py:235-244 | aligning gives one line per input line |
| Tables.AlignStrs | tcml_tools/slurmer/parse/groupmanager.py:235-244 | the loops compute the specified alignment, including its failures |
| Tables.WidenRow | tcml_tools/slurmer/parse/groupmanager.py:241-242 | the inner loop fails on a line with more fields than the first; otherwise each column grows to the line's field where that is wider |
| Tables.AlignStrsAligns | tcml_tools/slurmer/parse/groupmanager.py:235-244 | a line without `&` is unchanged; every other line has its fields padded to the column's widest entry, so all such lines have equal length; the other copy, slurmer/parse/groupmanager.py:220-228, is the same |
| Tables.CsvRows | tcml_tools/slurmer/parse/groupmanager.py:265-266 | line i is group i's CSV row; when a row fails, the lines stop just before that group and the error is its error; with no failure there is one line per group |
| Tables.CsvTable | tcml_tools/slurmer/parse/groupmanager.py:260-266 | indexing the first group fails exactly when there are no groups |
| Tables.CsvTableShape | tcml_tools/slurmer/parse/groupmanager.py:260-266 | a table printed without error is the header and then, at line i + 1, the CSV row of sorted group i; without collapsing, one line per group; the older copy, slurmer/parse/groupmanager.py:235-241, prints the header of the first group and then one row per sorted group |
| Tables.LatexRows | tcml_tools/slurmer/parse/groupmanager.py:274-276 | on success, line i is group i's LaTeX row; it fails exactly when some group's row fails, with the error of the first such group |
| Tables.LatexTableShape | tcml_tools/slurmer/parse/groupmanager.py:268-285 | a printed table is `\begin{tabular}{lcc…}` with one `c` per `&` of the aligned header, `\toprule`, the aligned header, `\midrule`, the aligned row of each sorted group in order, `\bottomrule` and `\end{tabular}`; the other copy, slurmer/parse/groupmanager.py:243-259, is the same |
| Tables.LatexTable | tcml_tools/slurmer/parse/groupmanager.py:268-285 | `print_latex_table`: the aligned header and rows inside the booktabs frame, or the first failure; LatexTableShape states its shape |
| Tables.Booktabs | tcml_tools/slurmer/parse/groupmanager.py:278-285 | the booktabs frame; LatexTableShape states its lines |
| Manager.FirstMatch | tcml_tools/slurmer/parse/groupmanager.py:169-171 | the position of the first group with the name or the job id; `None` when no group matches |
| Manager.MergeByNameEffect | tcml_tools/slurmer/parse/groupmanager.py:73-80 | no group is added or removed; names and kinds are kept; a group without a namesake is unchanged; every other group gains its first namesake's ids; the older copy, slurmer/parse/groupmanager.py:73-80, does the same over the raw list, separators included |
| Manager.AllIds | tcml_tools/slurmer/parse/groupmanager.py:203-205 | exactly the ids of all groups |
| Manager.Stale | tcml_tools/slurmer/parse/groupmanager.py:208-214 | exactly the ids with a missing or empty cache entry; empty exactly when every id is cached non-empty |
| Manager.CacheSettles | tcml_tools/slurmer/parse/groupmanager.py:203-218 | once the reader has delivered non-empty logs for the stale ids, a repeat call requests nothing and leaves the cache as it is |
| Manager.Requested | tcml_tools/slurmer/parse/groupmanager.py:203-214 | all ids with `force`, otherwise the stale ones; CacheSettles states that a repeat call requests nothing |
| Manager.RefreshAll | tcml_tools/slurmer/parse/groupmanager.py:221-223 | the per-group loop keeps one entry per group |
| Manager.RefreshGroup | tcml_tools/slurmer/parse/groupmanager.py:222-223 | `update_all_data` then `update_results` on one group |
| Manager.RefreshOneEffect | tcml_tools/slurmer/parse/groupmanager.py:222-223 | a refreshed group pulls its own ids from the cache, keeps its parameters and results, and stays well formed |
| Manager.RefreshOne | tcml_tools/slurmer/parse/groupmanager.py:222-223 | one group of the update loop; RefreshGroup and RefreshOneEffect state its effect |
| Manager.RefreshAllEffect | tcml_tools/slurmer/parse/groupmanager.py:218-224 | every group keeps its name, kind and ids; unless the loop stops early, every group holds its ids' logs from the cache |
| Manager.RefreshKeepsIds | tcml_tools/slurmer/parse/groupmanager.py:203-224 | the refresh never changes which ids the groups hold |
| Manager.Filtered | tcml_tools/slurmer/parse/groupmanager.py:185-193 | a group is kept exactly when each filter admits its parameter (`None` when missing), or when it is a separator that should be kept |
| Manager.FilteredAppend | tcml_tools/slurmer/parse/groupmanager.py:185-193 | filtering keeps the order |
| Manager.FilteredIdempotent | tcml_tools/slurmer/parse/groupmanager.py:180-195 | filtering twice is filtering once |
| Manager.Admits | tcml_tools/slurmer/parse/groupmanager.py:187-191 | every filter admits the group's parameter value; Admit computes it by the loop |
| Manager.Kept | tcml_tools/slurmer/parse/groupmanager.py:192 | admitted, or a separator that is kept; Filtered and FilteredIdempotent state the filtering |
| Manager.ClusterLoop | tcml_tools/slurmer/parse/groupmanager.py:93-96 | the clustering loop computes the specified clusters |
| Manager.ClustersPartition | tcml_tools/slurmer/parse/groupmanager.py:91-96 | clusters are non-empty and hold no separators; members agree outside the key; distinct clusters disagree; every group is in one; the members total the number of groups |
| Manager.SameExcept | tcml_tools/slurmer/parse/groupmanager.py:96 | equal parameters once the key is dropped, the clustering relation; ClustersPartition states the partition it induces |
| Manager.Clusters | tcml_tools/slurmer/parse/groupmanager.py:91-96 | the clusters of the non-separators: well formed groups give well formed clusters; ClustersPartition states the partition |
| Manager.MergeAllIds | tcml_tools/slurmer/parse/groupmanager.py:100-101 | merging a cluster concatenates its ids in order |
| Manager.MergeAllKeys | tcml_tools/slurmer/parse/groupmanager.py:100-101 | the merged parameters hold a key exactly when some member does |
| Manager.MergeCluster | tcml_tools/slurmer/parse/groupmanager.py:99-102 | a merged cluster is a well-formed group, or fails with the popped key |
| Manager.MergeClusterEffect | tcml_tools/slurmer/parse/groupmanager.py:99-102 | the merged group is named `merged <size>`, holds all ids in order and lacks the key; it fails exactly when no member has the key |
| Manager.MergeClusters | tcml_tools/slurmer/parse/groupmanager.py:97-103 | one merged group per cluster, or the key error |
| Manager.MergeClustersEach | tcml_tools/slurmer/parse/groupmanager.py:97-103 | merged group `i` is cluster `i` merged |
| Manager.MergeClustersFails | tcml_tools/slurmer/parse/groupmanager.py:97-103 | a failure comes from a cluster whose merge fails |
| Manager.MergeLoop | tcml_tools/slurmer/parse/groupmanager.py:97-103 | the merging loop computes the specified merged groups |
| Manager.MergeOne | tcml_tools/slurmer/parse/groupmanager.py:99-102 | one cluster merged, then the key popped |
| Manager.MergeMembers | tcml_tools/slurmer/parse/groupmanager.py:99-101 | a fresh group with every member merged in |
| Manager.Blank | tcml_tools/slurmer/parse/groupmanager.py:110-111 | the key maps to `""`; every other parameter, the name, ids, data and results are unchanged |
| Manager.Blanked | tcml_tools/slurmer/parse/groupmanager.py:109-111 | the list keeps its length and order; each group maps the key to `""`, keeps every other parameter, its name, ids, data and results, and stays well formed |
| Manager.Values | tcml_tools/slurmer/parse/groupmanager.py:226-230 | one value per group, in group order |
| Manager.UniqueValuesBound | tcml_tools/slurmer/parse/groupmanager.py:226-233 | the distinct values are exactly the values, and there are never more of them than groups |
| Manager.UniqueValues | tcml_tools/slurmer/parse/groupmanager.py:226-233 | `get_values(unique=True)`; UniqueValuesBound states its contents and size |
| Manager.Lines | tcml_tools/slurmer/parse/groupmanager.py:308-315 | the clustered plot data is a well-formed ordered dict |
| Manager.LinesHold | tcml_tools/slurmer/parse/groupmanager.py:308-315 | a line exists exactly when it has points, and holds exactly its groups' points in group order |
| Manager.PlotDataLines | tcml_tools/slurmer/parse/groupmanager.py:294-321 | every line holds exactly its groups' points, ascending by x, stably; separators contribute nothing |
| Manager.PlotData | tcml_tools/slurmer/parse/groupmanager.py:294-321 | `get_plot_data`; PlotDataLines states the lines and their order |
| Manager.GroupManager.constructor | tcml_tools/slurmer/parse/groupmanager.py:26-31 | a manager without storage starts with no groups and an empty events map; the other copy, slurmer/parse/groupmanager.py:26-31, is the same |
| Manager.GroupManager.UpdateEvents | tcml_tools/slurmer/parse/groupmanager.py:59-63 | job entries are overlaid and none is removed; the groups are unchanged |
| Manager.GroupManager.AddGroup | tcml_tools/slurmer/parse/groupmanager.py:114-116 | the new group goes last, and the registries are updated as the group constructor does |
| Manager.GroupManager.AddExistingGroups | tcml_tools/slurmer/parse/groupmanager.py:118-119 | the groups are appended in order |
| Manager.GroupManager.AddSeparator | tcml_tools/slurmer/parse/groupmanager.py:121-123 | a separator goes last, and the registries are unchanged |
| Manager.GroupManager.GetGroups | tcml_tools/slurmer/parse/groupmanager.py:159-164 | the list itself, or exactly its non-separators |
| Manager.GroupManager.GetGroup | tcml_tools/slurmer/parse/groupmanager.py:166-171 | fails when no selector is given; otherwise the first group with the name or the job id, or `None`; the other copy, slurmer/parse/groupmanager.py:159-164, is the same |
| Manager.GroupManager.CopyGroup | tcml_tools/slurmer/parse/groupmanager.py:173-178 | a renamed copy of the first group of that name, with updated parameters, goes last; an unknown name fails and changes nothing |
| Manager.GroupManager.FilterGroups | tcml_tools/slurmer/parse/groupmanager.py:180-195 | the list becomes the filtered list; the cache is unchanged; the other copy, slurmer/parse/groupmanager.py:173-188, is the same |
| Manager.FilterSeq | tcml_tools/slurmer/parse/groupmanager.py:185-193 | the loop over the groups keeps exactly the groups `Filtered` keeps, in order |
| Manager.Admit | tcml_tools/slurmer/parse/groupmanager.py:187-191 | the inner loop admits a group exactly when every filter lists the group's value for its key |
| Manager.GroupManager.Merge | tcml_tools/slurmer/parse/groupmanager.py:73-80 | the other manager's events are overlaid, and its groups are merged in by name |
| Manager.MergeEach | tcml_tools/slurmer/parse/groupmanager.py:76-80 | the loop replaces every group by its merge with its first namesake, adding and removing none |
| Manager.MergeWithNamesake | tcml_tools/slurmer/parse/groupmanager.py:77-80 | the first group of the other manager with the same name is merged in; without one the group is unchanged |
| Manager.GroupManager.CollectIds | tcml_tools/slurmer/parse/groupmanager.py:203-205 | the loop gathers every id of every group |
| Manager.GroupManager.StaleIds | tcml_tools/slurmer/parse/groupmanager.py:208-214 | the loop selects exactly the stale ids |
| Manager.GroupManager.Refresh | tcml_tools/slurmer/parse/groupmanager.py:221-224 | the per-group loop leaves the groups as `RefreshAll` specifies and does not touch the cache |
| Manager.RefreshLoop | tcml_tools/slurmer/parse/groupmanager.py:221-223 | the loop refreshes group after group as `RefreshAll` specifies, stopping at the first exception |
| Manager.GroupManager.UpdateGroups | tcml_tools/slurmer/parse/groupmanager.py:197-224 | the reader is asked for every id, or only the stale ones; its answer is overlaid on the cache; every group is refreshed from the cache; the other copy, slurmer/parse/groupmanager.py:190-217, is the same |
| Manager.GroupManager.MergeGroupsByParam | tcml_tools/slurmer/parse/groupmanager.py:82-112 | one merged group per cluster, appended or replacing the list; in replacing mode the key is blanked and unregistered; a key missing from a cluster changes nothing |
| Slurmer.ParamsStrDefault | slurmer/slurmer.py:37-38 | with the default `num=-1`, every value but the last is named |
| Slurmer.Show | slurmer/slurmer.py:154 | `str(v)` of a value: a string as is, a list as its items' `repr` joined by `, ` in brackets |
| Slurmer.ParamsStr | slurmer/slurmer.py:37-38 | `params_str(num)`; ParamsStrDefault states the default slice |
| Slurmer.LastDigitRun | slurmer/slurmer.py:126-131 | the reversed search finds the last digit run of the last piece that has one |
| Slurmer.Runs | slurmer/slurmer.py:128 | `int_pattern.findall(s)`: every run found is non-empty; LastDigitRun states that the last one is the last digit run |
| Slurmer.SafeStr | slurmer/slurmer.py:117-133 | the loop makes every value safe, and the list keeps its length |
| Slurmer.SafeTextIsLastRun | slurmer/slurmer.py:125-131 | a string with `/` becomes its last digit run overall, or stays unchanged without digits; other strings pass through |
| Slurmer.SafeTextDigits | slurmer/slurmer.py:125-132 | a safe value is the value itself or a non-empty string of digits |
| Slurmer.SafeText | slurmer/slurmer.py:125-132 | one non-iterable value of `_safe_str`; SafeTextIsLastRun and SafeTextDigits state what it becomes |
| Slurmer.GridOf | slurmer/slurmer.py:135-145 | the grid has as many combinations as the product of the lists' lengths |
| Slurmer.Grid | slurmer/slurmer.py:135-145 | the recursion and loops compute the specified grid |
| Slurmer.AppendEach | slurmer/slurmer.py:143-144 | the inner loop appends the value to every grid row, in row order |
| Slurmer.GridHasEveryChoice | slurmer/slurmer.py:135-145 | every choice of one value per list appears, at the position where the first list varies fastest |
| Slurmer.GridEntries | slurmer/slurmer.py:135-145 | every combination takes one value from each list, in the lists' order |
| Slurmer.NamedGrid | slurmer/slurmer.py:147-150 | the loop pairs each combination with its name |
| Slurmer.NamedGridNames | slurmer/slurmer.py:147-150 | every combination is paired with a name; when no safe value's text holds `_`, splitting that name on `_` gives back the safe values' texts |
| Slurmer.JobName | slurmer/slurmer.py:147-150 | the job name `_named_grid` builds; NamedGridNames states that it splits back into the safe texts |
| Slurmer.SubstitutedPlain | slurmer/slurmer.py:152-155 | text without `{` passes through unchanged |
| Slurmer.SubstitutedOne | slurmer/slurmer.py:152-155 | a single placeholder of a key among the replacements, in otherwise plain text, becomes that key's value, wherever the key sits in the insertion order, when no key holds a brace and no value brings in `{` |
| Slurmer.SubstitutedMany | slurmer/slurmer.py:152-155 | for a template of plain segments and any number of placeholders, every placeholder of a key among the replacements becomes that key's value and the placeholders of other keys stay, whatever the insertion order, when no key holds a brace and no value brings in `{` |
| Slurmer.Substituted | slurmer/slurmer.py:152-155 | `_fully_replace`; SubstitutedPlain, SubstitutedOne and SubstitutedMany state its effect; a value that brings in the placeholder of a later key has it replaced too (illustrated by the lemma ChainedPlaceholders) |
| Slurmer.FillArgs | slurmer/slurmer.py:205-207 | the loop fills the argument template with the job's values |
| Slurmer.JobArgsPlain | slurmer/slurmer.py:205-207 | the template of line 176 filled in: without `{` in names or values, the arguments are `--name=value` per parameter, in parameter order |
| Slurmer.SharedArgsSplit | slurmer/slurmer.py:194-195 | the shared arguments split back into one per key, in order: `--key` exactly for a `None` value, otherwise `--key=value` |
| Slurmer.Without | slurmer/slurmer.py:179-182 | every grid parameter is removed from the shared values, and nothing else |
| Slurmer.DropKeys | slurmer/slurmer.py:179-182 | the `pop` loop computes `Without` |
| Slurmer.GridJobItems | slurmer/slurmer.py:184-187 | the loop builds one job per named combination |
| Slurmer.GroupIdsKeys | slurmer/slurmer.py:292-297 | one group per distinct key |
| Slurmer.GroupIdsVals | slurmer/slurmer.py:292-297 | each group lists exactly the ids of its jobs, in job order |
| Slurmer.GroupIdsOrder | slurmer/slurmer.py:292-299 | groups are ordered by the first appearance of their key |
| Slurmer.GroupTextsSpec | slurmer/slurmer.py:292-297 | each group's parameter text comes from the last job with its key |
| Slurmer.GroupIds | slurmer/slurmer.py:292-297 | `group_ids`: a well-formed ordered dict; GroupIdsKeys, GroupIdsVals and GroupIdsOrder state its contents |
| Slurmer.Cluster | slurmer/slurmer.py:292-297 | the loop fills both dictionaries as specified |
| Slurmer.CodeLines | slurmer/slurmer.py:299-304 | one printed line per group, in order |
| Slurmer.DefaultReplacements | slurmer/slurmer.py:69-80 | ten replacements, with partition `test` and time `00:15:00` |
| Slurmer.Slurmer.constructor | slurmer/slurmer.py:42-88 | the default replacements, the paste path with `/` appended, and nothing else set |
| Slurmer.Slurmer.SetStrReplacements | slurmer/slurmer.py:90-92 | the new replacements are overlaid; existing keys keep their place |
| Slurmer.Slurmer.SetShSharedValues | slurmer/slurmer.py:94-96 | the shared values are replaced |
| Slurmer.Slurmer.SetParamValues | slurmer/slurmer.py:98-100 | the parameter values are replaced |
| Slurmer.Slurmer.AddShLine | slurmer/slurmer.py:102-107 | the line is appended before and/or after as asked |
| Slurmer.Slurmer.AddParam | slurmer/slurmer.py:109-111 | the parameter is appended |
| Slurmer.Slurmer.AddJob | slurmer/slurmer.py:113-115 | the job goes last and records the current parameter names |
| Slurmer.Slurmer.FullyReplace | slurmer/slurmer.py:152-155 | the loop substitutes every replacement in insertion order |
| Slurmer.Slurmer.PrepareJobs | slurmer/slurmer.py:174-187 | the names are recorded; grid keys are dropped from the shared values; with the grid search, one job per combination is appended |
| Slurmer.Slurmer.Scripts | slurmer/slurmer.py:189-227 | one script pair per job, with the job's arguments and name filled in |
| Slurmer.ShContent | slurmer/slurmer.py:190-197 | the shell template filled in; CreateFiles uses it for every script |
| Slurmer.ScriptOf | slurmer/slurmer.py:202-221 | the files of one job; Scripts states that every job gets them |
| Slurmer.Slurmer.CreateFiles | slurmer/slurmer.py:157-227 | the jobs are prepared, then one script pair is made per job |
| Slurmer.Slurmer.GroupCode | slurmer/slurmer.py:269-304 | the printed lines are those of the clustering of the jobs by their non-ignored values |
| Queues.Efficiency | tcml_tools/slurmer/queues.py:18-25 | defined exactly for counts from -5 up; at least 17/60 and at most 1; 1 for 0 or 1 GPUs |
| Queues.EfficiencyMonotone | tcml_tools/slurmer/queues.py:18-25 | more GPUs never need more time |
| Queues.Trunc | tcml_tools/slurmer/queues.py:37 | `int()` truncates toward zero |
| Queues.RoundUp5 | tcml_tools/slurmer/queues.py:38-40 | the least multiple of 5 that is at least the time |
| Queues.RoundUp5Monotone | tcml_tools/slurmer/queues.py:38-40 | rounding up keeps the order |
| Queues.ScaleByGpus | tcml_tools/slurmer/queues.py:30-41 | a test run keeps its time; otherwise it is defined exactly when the efficiency is |
| Queues.ScaleBounds | tcml_tools/slurmer/queues.py:30-41 | the scaled time is a multiple of 5, at least `min(safety, total)`, and at most the total rounded up to 5 |
| Queues.DecomposeSpec | tcml_tools/slurmer/queues.py:69-70 | hours below 24, minutes below 60, and the parts recombine to the total |
| Queues.Decompose | tcml_tools/slurmer/queues.py:69-70 | the two `divmod`s; DecomposeSpec states their range and recombination |
| Queues.TimeText | tcml_tools/slurmer/queues.py:79 | the `%d-%d:%d:00` time string; TimeTextInjective states that distinct totals give distinct strings |
| Queues.QueueFor | tcml_tools/slurmer/queues.py:71-78 | `test` up to 15 minutes, `day` up to a day, `week` up to a week, `month` beyond |
| Queues.GetTimePartition | tcml_tools/slurmer/queues.py:43-79 | a test run succeeds exactly up to 15 minutes, giving `('test', '<m>:00')`; `H1`–`H24` give `('day', '<h>:0:00')`; an explicit queue is returned verbatim |
| Queues.FullRunSpec | tcml_tools/slurmer/queues.py:64-79 | a full run scales only when the GPU count is not 1; the time string decomposes the total; without a queue the partition is the shortest that fits |
| Queues.Placed | tcml_tools/slurmer/queues.py:69-79 | the queue and time string for a total; FullRunSpec states the scaling, the time string and the queue chosen |
| Queues.TimeTextInjective | tcml_tools/slurmer/queues.py:69-79 | different non-negative totals give different time strings |
| Callbacks.ValueInjective | tcml_tools/slurmer/callbacks.py:8-16 | the enum values are distinct |
| Callbacks.TerminatedByValue | tcml_tools/slurmer/callbacks.py:18-20 | terminated exactly for the states after `Running`: completed, failed, cancelled, not found |
| Callbacks.IsTerminated | tcml_tools/slurmer/callbacks.py:18-20 | `is_terminated`; TerminatedByValue states it by value |
| Callbacks.IsBeforeSpec | tcml_tools/slurmer/callbacks.py:22-26 | only a pending or running state is before another, never before itself |
| Callbacks.IsBefore | tcml_tools/slurmer/callbacks.py:22-26 | `is_before`; IsBeforeSpec states when it holds |
| Callbacks.Parse | tcml_tools/slurmer/callbacks.py:28-40 | an unknown word raises with that word; parsing never gives "not found"; it gives `FAILED` exactly for the failure words |
| Callbacks.ParseKnown | tcml_tools/slurmer/callbacks.py:28-40 | parsing succeeds on exactly the eleven listed words |
| Callbacks.ParseName | tcml_tools/slurmer/callbacks.py:28-40 | every state `sacct` reports parses back from its name |
| Callbacks.ParseAll | tcml_tools/slurmer/callbacks.py:57 | all words parse to the listed states, or one of them raises |
| Callbacks.ParseAllOk | tcml_tools/slurmer/callbacks.py:57 | when every word parses, the list parses |
| Callbacks.Strips | tcml_tools/slurmer/callbacks.py:54 | each line stripped, one per line |
| PyStr.StripSlice | tcml_tools/slurmer/callbacks.py:54 | `strip()` keeps a contiguous slice of its input, dropping only leading and trailing whitespace |
| Callbacks.Escaped | tcml_tools/slurmer/callbacks.py:51 | bytes without a newline show unchanged |
| Callbacks.BytesText | tcml_tools/slurmer/callbacks.py:51 | `str(out)` of the bytes; BytesLines states that splitting it on `\\n` gives the framed lines |
| Callbacks.JobStateOf | tcml_tools/slurmer/callbacks.py:43-60 | empty output means the job is not known; a disagreement raises with the job id |
| Callbacks.FromLines | tcml_tools/slurmer/callbacks.py:52-60 | at most three lines give not-found; otherwise the verdict on the stripped rows between header and closing quote |
| Callbacks.Verdict | tcml_tools/slurmer/callbacks.py:56-60 | a state is returned only when every row parses to it |
| Callbacks.SacctAgreeing | tcml_tools/slurmer/callbacks.py:48-60 | output whose rows all name one state reads as that state |
| Callbacks.SacctDiffering | tcml_tools/slurmer/callbacks.py:48-60 | rows that parse but disagree raise "states differ" |
| Callbacks.VerdictDiffering | tcml_tools/slurmer/callbacks.py:57-60 | disagreeing rows give the error listing the parsed states |
| Callbacks.SacctShort | tcml_tools/slurmer/callbacks.py:52-53 | at most three lines means the job is not known |
| Callbacks.PrintDecision | tcml_tools/slurmer/callbacks.py:120-125 | the print callback keeps polling exactly while the job is pending or running |
| Callbacks.ReachedDecision | tcml_tools/slurmer/callbacks.py:135-142 | it stops via the target branch exactly when the target is reached |
| Callbacks.ReachedKeepsPolling | tcml_tools/slurmer/callbacks.py:135-142 | as written, it keeps polling only when waiting for `PENDING` on a running job |
| Callbacks.ReachedStopsBeforeTarget | tcml_tools/slurmer/callbacks.py:140 | as written, waiting for `RUNNING` gives up on a pending job |
| Callbacks.IntendedDecision | tcml_tools/slurmer/callbacks.py:135-142 | corrected: it stops at the target exactly when the target is reached |
| Callbacks.IntendedDecisionSpec | tcml_tools/slurmer/callbacks.py:135-142 | corrected: it waits exactly while the job has not ended and has not reached the target, and gives up otherwise |

## Left out

- **Storage and cache lifecycle.** The shelve storage (`open_storage`, `close_storage`, `copy`, `get_all_events` on a shelf) is not modelled. The events cache is an in-memory map.
- **Tensorboard log reading.** The reader (`parser.py` in both copies) is a function parameter from job ids to logs. Where the modelling relies on an empty request returning `{}`, that is a precondition.
- **pandas, plotting and filesystem helpers.** `get_data_frame`, `find_directories`, `delete_on_disk` and `copy_folders` are not modelled.
- **Float numerics.**
  - `np.median` and `np.std` are parameters.
  - `'%.Nf'` formatting is a parameter.
  - `inf` is not modelled.
  - Queues.ScaleByGpus: the float product `total * efficiency` is an exact rational product, so float rounding at integer boundaries is not modelled.
- **Aliasing and copies.** Reference aliasing from shallow `dict.update`, `deepcopy` and shared lists is not modelled, because groups are values.
- Tables.SortedBy: sorts stably on a total ranking in which N/A and NaN share the lowest tier. Python's `sorted` runs timsort on `Result.__lt__`, which is no strict order: every string result is less than every result, another string included, and NaN is never less than anything. So the order Python gives among N/A groups (two of them come out reversed) and the place of a NaN-valued group (`[0.7, NaN, 0.5]` descending stays as it is) are not modelled.
- Tables.SortedByOrder: promises order and stability only among groups with finite numbers, and only when no result is NaN, the case in which `__lt__` orders them consistently.
- Manager.PlotData: the x and y lookups return reals, so a line sorted on a string or `Result` x value, which `sorted` compares with `<` on whatever `get` returns, is not modelled.
- **Older `sorted_results`.** In the older `sorted_results`, an empty `sort_by` returns the live `self.groups` list, which callers could mutate. Only its contents are modelled.
- Manager.GroupManager.Merge: requires `other != this`. Merging a manager into itself is not modelled.
- **Older `merge_groups_by_param`.** This method in slurmer/parse/groupmanager.py calls `get_param_tuple`, which the older `Group` does not define, so it raises as soon as the manager holds a non-separator group. It is not modelled. The tcml version is modelled with "equal parameters outside the key" as its clustering.
- **Parameter values.** Group parameter values are their `str()` texts.
- Groups.UpdateResults: the `KeyError` wrapping around the registry update cannot trigger, so it is not modelled.
- **Threads.** `AbortableSleep`, `AbstractCallback.run`, the thread start/stop and the `sacct` subprocess are not modelled. The `sacct` output is a parameter.
- PyStr.Strip: only ASCII whitespace counts as space. The other Unicode whitespace that `str.strip` also removes cannot occur in the text the model strips: it comes from `str(bytes)`, which writes every non-ASCII byte as an escape.
- Callbacks.Escaped: `str(bytes)` escaping is modelled for newlines only. The other escapes and the choice of quote character are not modelled.
- **Slurm scripts and their files.**
  - Template reading is not modelled: the template contents are parameters.
  - These are not modelled: `expanduser`, `makedirs`, file writes, `chmod`, `sbatch`, `queue_files`, `delete_files`, `print_table`, and the `sh_file`/`sb_file` fields of a job.
  - Slurm ids are modelled as ints.
- **Verbose printing in `create_files`.** This includes the `ValueError` from `max()` when there are no jobs. It is not modelled.
- Slurmer.Grid: requires at least one list. With none, `_grid` recurses without end.
- Slurmer.Show: `repr` does not escape quotes. Tuples show as lists. `\d` matches ASCII digits only.
- **Printing.** The printed tables are the lists of lines they print.
- **Examples.** The example scripts are not part of this model.

## Findings

| source | as written | input that shows it | evidently intended | confidence | as-written member | corrected member |
|---|---|---|---|---|---|---|
| tcml_tools/slurmer/callbacks.py:140 | `self.target_state.is_before(state)` stops the reached-state callback when the polled state comes *before* the target | target `RUNNING`, polled state `PENDING`: the callback stops at once and reports the other state; target `PENDING`, state `RUNNING` keeps polling although the job is already past the target | `state.is_before(self.target_state)` inverted: give up when the job has ended or has gone *past* the target, keep polling while it is before it | high, not executed | Callbacks.ReachedStopsBeforeTarget | Callbacks.IntendedDecisionSpec |
