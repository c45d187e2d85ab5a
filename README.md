# DROIDS comparative dynamics: a verified model of the statistics core

DROIDS compares the molecular dynamics of a query protein state (bound or
mutated) with a reference state. The two scripts modelled here,
`chimerax_plotter.py` and `chimerax_analyzer.py`, each do the following:

- read the `DROIDS.ctl` settings;
- filter cpptraj's atom listing into a residue table;
- build per-site feature tables from the atom-fluctuation and
  atom-correlation outputs;
- in the plotter, compare the two states site by site, by a signed
  divergence with a Bonferroni-labelled two-sample test, and by a maximum
  mean discrepancy with a bootstrap label;
- write the ChimeraX attribute and control files that colour the
  structure.

The model keeps the decision-making layer: parsers and writers, in-place
table preprocessing, the labelling rules and the bootstrap counting. The
numerical libraries (truncated SVD, entropy, the KS test, `exp` inside the
RBF kernel, the random draws) are parameters. What the model needs of them
is stated as `requires`.

Modules, one per concern, in dependency order:

- `TextUtil` (text.dfy): Python's `str.split(sep)`, `re.split("\s+", …)`,
  `strip`, `int(s)` and `"%s" % n` on integers.
- `Control` (control.dfy): the `DROIDS.ctl` reader and the integer
  conversions after it.
- `ResInfo` (resinfo.dfy): `resinfo`, with the read-back of its output as
  a tab-separated table.
- `Frames` (frames.dfy): the `Frame` class whose methods delete a column,
  sparsify and min-max normalise in place, plus the functions that specify
  them.
- `Features` (features.dfy): one per-state, per-scope block of
  `feature_vector` for either program, the per-subsample loop, and the
  written tables read back with a header row.
- `Divergence` (divergence.dfy): `compare_dynamics_KL`, covering
  truncation, the test and labelling loop, the sign rule and the joined
  table.
- `Discrepancy` (discrepancy.dfy): `mmd_rbf` over an abstract kernel, mean
  vectors, the 500-round bootstrap and the site loop of
  `compare_dynamics_MMD`.
- `Export` (export.dfy): the attribute `.dat` and control `.ctl` writers,
  with reference readers that show what a consumer gets back.

Real arithmetic is Dafny `real`. Integer arithmetic is unbounded, as in
Python.

Where the code and its own comments disagree, the model follows the code.
The docstring of `mmd_rbf` gives the kernel as
`exp(-gamma * ||x-y||^2 / 2)`, but the scikit-learn call evaluates
`exp(-gamma * ||x-y||^2)`, and the model uses the latter.

Both comparisons can fail after their site loops, where the code builds its
joined table. A negative `length_prot` leaves the KS frame without a
`statistic` column. A `length_prot` of at most 1 leaves the MMD table with
too few columns for the four names `set_axis` gives it. An empty residue
file cannot be read. The model reports each of these as an error.

## Model

| member | source | states |
|---|---|---|
| TextUtil.ParseIntToString | chimerax_analyzer.py:116-120 | `int()` applied to `"%s" % n` followed by whitespace gives back `n`, for every integer `n` |
| TextUtil.SplitOnJoin | chimerax_analyzer.py:42 | `str.split(c)` of fields joined by `c`, none containing `c`, gives back exactly those fields |
| TextUtil.JoinSplitOn | chimerax_analyzer.py:42 | joining the pieces of `str.split(c)` with `c` rebuilds the string |
| TextUtil.SplitWsJoin | chimerax_plotter.py:150 | `re.split("\s+")` of whitespace-free, non-empty words joined by single spaces gives back the words |
| TextUtil.SplitWsPieces | chimerax_plotter.py:150 | every piece of `re.split("\s+")` is whitespace-free, and an inner piece is non-empty |
| Control.ReadControl | chimerax_analyzer.py:37-105 | the read loop's result equals `Settings`: the line-by-line assignments, or the error of the first line without a comma |
| Control.SettingsFails | chimerax_analyzer.py:42-44 | reading fails exactly when some line has no comma, and the error names the first such line |
| Control.EntryFields | chimerax_analyzer.py:42-44 | a line reads as the text before its first comma and the text between the first and second commas |
| Control.SettingsKeys | chimerax_analyzer.py:39-105 | after a successful read a variable is set exactly when some line's key is its header |
| Control.SettingsLastWins | chimerax_analyzer.py:39-105 | a set variable holds field 1 of the last line naming its header; no later line names it |
| Control.SettingsErrorPersists | chimerax_analyzer.py:39-44 | once a prefix of the file fails to read, the whole file fails with the same error |
| Control.RecogniseName | chimerax_analyzer.py:47-105 | each of the twenty header comparisons picks out its own variable |
| Control.RecogniseNone | chimerax_analyzer.py:47-105 | an unrecognised key names no variable: the line has no effect |
| Control.AssignEffect | chimerax_analyzer.py:47-105 | a line assigns exactly the variable its key names and leaves the others unchanged |
| Control.Configure | chimerax_analyzer.py:108-128 | the configuration exists exactly when every variable is set and the five integer settings parse; each integer field is `int()` of its text and each of the fifteen string fields is its variable's text; otherwise the error is the first problem in assignment order, an unset variable or a value `int()` rejects |
| Control.FirstProblem | chimerax_analyzer.py:108-128 | no problem exactly when every variable in the order is set and parses where it must; otherwise a problem that holds, at a variable every earlier one of which is settable |
| ResInfo.Resinfo | chimerax_plotter.py:146-161 | the filter loop writes exactly `Render(Records(lines))` |
| ResInfo.RecordsOne | chimerax_plotter.py:150-154 | a line contributes `(field 1, field 2)` exactly when its whitespace split has at least 3 fields and field 2 is one of the 23 codes, and nothing otherwise |
| ResInfo.RecordsAppend | chimerax_plotter.py:147-160 | filtering distributes over concatenation, so input order is kept and each line is judged alone |
| ResInfo.RecordsMembers | chimerax_plotter.py:147-160 | every kept residue comes from some input line, and every line that passes the filter is kept |
| ResInfo.RenderSnoc | chimerax_plotter.py:157-160 | one more residue appends exactly `site + "\t" + code + "\n"` |
| ResInfo.CpptrajLine | chimerax_analyzer.py:147-160 | an indented cpptraj line `number name …` yields (number, name) exactly when the name is an accepted code |
| ResInfo.ResinfoReadsBack | chimerax_plotter.py:688-693 | the written residue file, read as a tab-separated table, gives one row `[site, code]` per kept residue |
| ResInfo.RecordsClean | chimerax_plotter.py:150-153 | the kept fields contain no whitespace, so the written file is well formed |
| Frames.DropFirstAndLast | chimerax_analyzer.py:287-288 | deleting the first and then the last column of a width-`w` table keeps columns 1 .. w-2 of each row and narrows it by exactly two |
| Frames.SparseEntries | chimerax_plotter.py:226 | sparsification zeroes every entry below 0.005 in magnitude, keeps every other entry with its sign, and keeps the shape |
| Frames.SparseIdempotent | chimerax_plotter.py:290 | sparsifying twice equals sparsifying once |
| Frames.SparseLeavesNoSmallEntry | chimerax_analyzer.py:236 | after sparsification every entry is 0 or at least 0.005 in magnitude |
| Frames.NormalisedRange | chimerax_plotter.py:204 | when max > min, every normalised value is in [0, 1], the minimum maps to 0, the maximum to 1, and order is kept both ways |
| Frames.NormalisedOthers | chimerax_analyzer.py:280 | normalising a column keeps the shape and every other column |
| Frames.NormalisedAttains | chimerax_plotter.py:264 | some row of the normalised column is 0 and some row is 1 |
| Frames.ExtremesAttained | chimerax_plotter.py:204 | the column minimum and maximum are values of the column |
| Frames.ScaleMonotone | chimerax_plotter.py:204 | `(x - min) / (max - min)` is strictly increasing in `x` |
| Frames.Frame.DeleteColumn | chimerax_plotter.py:201 | `del df[df.columns[c]]` in place: the rows become `DropColumn(old rows, c)` and the width drops by one |
| Frames.Frame.Sparsify | chimerax_plotter.py:226 | `M[np.abs(M) < 0.005] = 0` in place: the rows become `Sparse(old rows)` and the width is unchanged |
| Frames.Frame.NormaliseColumn | chimerax_plotter.py:264 | min-max normalisation of one column in place: the rows become `Normalised(old rows, c)` |
| Features.SetSize | chimerax_analyzer.py:196 | `int(0.25 * length)` truncates toward zero: `4k <= length < 4k + 4` for non-negative lengths, and the mirror image for negative ones |
| Features.FeatureVector | chimerax_plotter.py:252-308 | one block: the written feature table, the reduced table (or the refusal of fewer than one component), and the in-place state of both frames afterwards |
| Features.SubsampleFeatures | chimerax_analyzer.py:268-336 | the `for i in range(subsamples)` loop yields, for each i, the tables of subsample i alone |
| Features.CorrPartShape | chimerax_analyzer.py:287-288 | subsample and whole-query correlation matrices lose their first and last columns, exactly two narrower; whole reference and reference-control matrices are unchanged |
| Features.SubsampleFluxPart | chimerax_analyzer.py:274-283 | for subsample i the flux part is column i of the index-free table, min-max normalised, each value in [0, 1] |
| Features.PlotterFeatureRows | chimerax_plotter.py:275-276 | the plotter's feature row is the flux part followed by the correlation row, for the rows both tables have |
| Features.PlotterReducedRows | chimerax_plotter.py:293-303 | the plotter's reduced row is the flux part followed by the five reduced values; for a subsample that is six columns |
| Features.AnalyzerRows | chimerax_analyzer.py:239-254 | the analyzer's tables are the correlation part and the reduction output alone, with int(0.25·length) components; a length below 4 leaves no component |
| Features.ReadBackOffset | chimerax_plotter.py:843-847 | a table written without a header and read with one comes back one row short, and data row i is written row i + 1 |
| Features.SiteSampleReadsBack | chimerax_plotter.py:847 | the sample site i takes from a written table exists exactly when the header read-back has a data row i, and it is the row whose cells that data row holds |
| Divergence.Cutoff | chimerax_plotter.py:657 | `0.05/(length·0.5)` is positive with `cutoff · length = 0.1` for a positive length |
| Divergence.Labels | chimerax_plotter.py:662-665 | one label per test; site d is "sig" exactly when its p-value is strictly below the cutoff |
| Divergence.SignedKL | chimerax_plotter.py:681 | the signed divergence has the divergence's magnitude at every site |
| Divergence.SiteTests | chimerax_plotter.py:655-666 | the test loop produces, in site order, `ks(ref[d], query[d])` and its label for each of the first `length` sites |
| Divergence.CompareDynamicsKL | chimerax_plotter.py:637-707 | the comparison equals `Compare`: truncation to `length` sites, divergences, tests, labels, sign rule and the joined table, or the error |
| Divergence.CompareFails | chimerax_plotter.py:637-689 | the comparison fails exactly when a table is shorter than `length`, `length` is not positive, or the residue file is empty; a zero length is the division by zero in the cutoff, a negative one the missing `statistic` column, and an empty residue file is reported only when nothing failed before it |
| Divergence.BonferroniLabels | chimerax_plotter.py:657-666 | a successful comparison has `length` labels, and site d is "sig" exactly when its p-value is below `0.05/(length·0.5)` |
| Divergence.SignRule | chimerax_plotter.py:678-681 | the signed value at site d is −KL where query flux minus reference flux is negative, and KL otherwise |
| Divergence.SignedSign | chimerax_plotter.py:681 | for a non-negative divergence: a negative value means the flux fell; a fall with a positive divergence gives a negative value; a non-negative change gives the divergence itself; the magnitude is the divergence |
| Divergence.TableRow | chimerax_plotter.py:685-702 | row i of the joined table is position i + 1, residue i and the site-i values, for min(length, residues) rows |
| Divergence.LabelsUnique | chimerax_plotter.py:658-666 | any label sequence that satisfies the strict-cutoff rule is `Labels` |
| Discrepancy.RbfIsKernel | chimerax_plotter.py:1021-1022 | `exp(-γ·‖x−y‖²)` is symmetric and, when `exp(0) = 1`, equals 1 on the diagonal |
| Discrepancy.SqDistSymmetric | chimerax_plotter.py:1022 | the squared distance is symmetric |
| Discrepancy.MmdSelf | chimerax_plotter.py:1031-1034 | `mean(XX) + mean(YY) − 2·mean(XY)` is 0 for Y = X |
| Discrepancy.MmdSymmetric | chimerax_plotter.py:1031-1034 | with a symmetric kernel, `mmd(X, Y) = mmd(Y, X)` |
| Discrepancy.MmdSingle | chimerax_plotter.py:885-890 | for two single mean vectors and a unit-diagonal kernel, the discrepancy is `2 − 2·k(a, b)` |
| Discrepancy.KernelSumSwap | chimerax_plotter.py:1033 | with a symmetric kernel the cross sum is the same in either order |
| Discrepancy.MeanOfCopies | chimerax_plotter.py:878-880 | the component-wise mean of copies of one vector is that vector |
| Discrepancy.Bootstrap | chimerax_plotter.py:896-930 | the 500 neutral discrepancies are those of the drawn reference and control samples; the counters start at 1, count the rounds the observation exceeds and the rest, and sum to 502 |
| Discrepancy.PValueBounds | chimerax_plotter.py:930 | with counters that start at 1 and sum to 502, the empirical p-value lies in [1/502, 501/502] ⊂ (0, 1) |
| Discrepancy.SignificantCount | chimerax_plotter.py:933-937 | the p-value exceeds 0.99 exactly when the greater-counter is at least 497 |
| Discrepancy.CollectSamples | chimerax_plotter.py:838-870 | the inner subsample loop collects written row i + 1 of every table, or fails exactly when some table is too short |
| Discrepancy.CompareDynamicsMMD | chimerax_plotter.py:833-959 | the site loop and the joined table equal `Discrepancies`: per-site statistics for `length − 1` sites and the joined table, or the error |
| Discrepancy.DiscrepanciesFail | chimerax_plotter.py:833-959 | the analysis fails exactly when there is no site, no residue code, no subsample or a table too short for the last site; no site is reported as such only with residue codes present, an empty residue file only when the loop succeeded, no subsample only when there is a site |
| Discrepancy.FullTablesReach | chimerax_plotter.py:833 | tables with `length` written rows suffice for all `length − 1` sites, because the header offset uses up one row |
| Discrepancy.SiteVerdict | chimerax_plotter.py:878-938 | at every site: 502 counts, p in [1/502, 501/502], "sig" exactly when p > 0.99 (exactly when ≥ 497), and the observed value is the discrepancy of the two mean vectors |
| Discrepancy.MmdTableRow | chimerax_plotter.py:947-959 | row i of the joined table is position i + 1, residue i, the site's MMD and its label |
| Export.WriteValues | chimerax_plotter.py:760-768 | the KL attribute loop writes the header and then one `\t:<x+1>\t<value>` line per site |
| Export.WriteSignificant | chimerax_plotter.py:786-801 | the `*sig` loop writes the header, then for each of the first n sites the value if the site is "sig" and `0.0` otherwise |
| Export.SigValues | chimerax_plotter.py:796-799 | the value written for site x is the formatted value when its label is "sig", and `0.0` otherwise |
| Export.SplitLines | chimerax_plotter.py:760-768 | newline-free lines, each followed by `\n`, split on `\n` into the lines and a final empty piece |
| Export.EntryRoundTrip | chimerax_plotter.py:768 | an entry line `\t:<x+1>\t<v>` reads back as position x + 1 and value v |
| Export.ReadWritten | chimerax_plotter.py:786-801 | a written attribute file reads back as its attribute name and, in site order, positions 1, 2, … with their values |
| Export.HeaderFields | chimerax_plotter.py:786-788 | the header is `recipient: residues`, `attribute: <name>` and a blank line |
| Export.ControlReadsBack | chimerax_plotter.py:776-785 | the control file is ten lines, each a key, a tab and a value, and reads back as its ten settings; `structureADD` names the reference structure, the `length` value parses as the protein length, and `attr` names the attribute |
| Export.ReadSettingsOf | chimerax_plotter.py:750-759 | settings whose keys and values are free of tabs and newlines are written one `key\tvalue` line each and read back unchanged |
| Export.KLsigEntries | chimerax_plotter.py:773-801 | in a successful comparison's KLsig file, entry x is position x + 1 with the signed divergence if site x is "sig" and `0.0` otherwise, for `length` entries |
| Export.MMDsigEntries | chimerax_plotter.py:1002-1017 | in the MMDsig file, entry x is position x + 1 with the site's MMD if it is "sig" and `0.0` otherwise, one entry per site, so `length − 1` of them |

## Left out

- Truncated SVD, `scipy.stats.entropy`, `ks_2samp` and `exp` are function
  parameters. The reduction is `reduce(matrix, k)`, the divergence
  `entropy(ref, query)`, the test `ks(ref, query)` returning a statistic and
  a p-value, the kernel's `exp` a `real -> real`. Only the property a lemma
  uses is required of them, such as `exp(0) = 1` or a reduction that keeps
  the row count.
- `random.randint` is an injected sequence of 500 index pairs per site,
  each index in range.
- File and directory I/O, `os.makedirs`, `pd.read_csv` and
  `DataFrame.to_string` are not modelled as I/O. Files are strings or
  sequences of lines and rows. `to_string`'s float formatting is a parameter
  `fmt: real -> string`, and only its being a single word (or free of tabs
  and newlines) is assumed. Parsing of float text on reading is not
  modelled; tables are read back as the value sequences that were written.
- The shell-outs (`cp`, cpptraj, ChimeraX through `os.popen` and
  `os.system`), the `map_*` and `view_*` functions, `plot_rmsd`, all
  plotnine plots and all `print` diagnostics are not modelled. The
  analyzer's `compare_dynamics_*` and friends only launch other scripts.
- The `conserved_dynamics`, `coordinated_dynamics` and `variant_dynamics`
  stubs contain no logic. maxDemon1.py is a PyQt form and is not part of
  this model.
- Features.FeatureVector: three source failures are excluded by its
  precondition (`Usable`) rather than modelled as errors. These are the
  `columns[i]` IndexError when subsample i has no flux column
  (chimerax_plotter.py:261-264), the `del columns[-1]` IndexError on a
  trimmed correlation table with fewer than two columns
  (chimerax_plotter.py:271-272, chimerax_analyzer.py:287-288), and an empty
  flux table, on which the source fails later inside the truncated SVD.
- Frames.Frame.NormaliseColumn: when a column's maximum equals its minimum
  the source divides by zero, producing NaN. That case is excluded by a
  precondition rather than modelled.
- NaN and infinities do not exist in `real`. The divergence and KS results
  of degenerate inputs are whatever the injected functions return.
- Discrepancy.SqDist: scikit-learn's `rbf_kernel` raises ValueError on
  vectors of different lengths. The model sums over the common prefix. The
  site computation (`Inputs`, `SiteStatOf`) requires the reference, control
  and query tables to share one width, which excludes that ValueError:
  every feature table the source writes for one run has the same width.
- Divergence.CompareDynamicsKL: the transpose of the subsample flux tables
  and the deletion of their two leading columns are not modelled. The
  per-site sample rows are taken as given, one row per site.
- The unused `mean_neutralMMD` and the `neutralMMDs` list are not kept
  beyond the bootstrap's result. They feed only a `print`.
- The control-file and attribute-file readers in `Export` are reference
  definitions, not source code. The ChimeraX script that consumes these
  files is not part of this model.
- Control.Configure: the values keep the line's trailing newline, as
  `readlines` leaves it. `int()` ignores it, and the string settings keep
  it, as in the source.
