# Hypermatrix core in Dafny

This project models two pure pieces of the Hypermatrix tool as Dafny functions, methods and lemmas.

The first is the Hi-C matrix pipeline of `utilities/process_hic_files.py`:
- dark-bin removal (`remove_dark_bins`);
- the degree-2 cumulant tensor (`compute_degree_2_cumulant`);
- the batch driver `process_hic_files`. It walks resolution × chromosome × data type, loads a contact matrix and its dark-bin list, filters, and writes a correlation matrix and a cumulant tensor.

The second is the configuration logic of the command-line front end `hypermatrix/main.py`:
- the line rewrite of `update_config_file`;
- the update map and script choice of `ABcluster`;
- the defaulting of `differentiate_chromosomes`;
- the flag check, script choice and command line of `preprocess`.

Modules:
- `Wrappers`: `Option` and `Result`.
- `Matrices`: a 2-D array with an explicit column count. An n-row matrix with no columns, or a 0×w matrix, is still well-formed, as in numpy.
- `DarkBins`: `remove_dark_bins`. The keep mask is built and indexed by numpy's rules:
  - an index d into an axis of length n is accepted iff -n ≤ d < n;
  - a negative index counts from the end;
  - any other index, or a column count different from the row count, makes the function return None.
- `Cumulant`: `compute_degree_2_cumulant` over exact reals.
  - Entry (i, j, k) is Σ cᵢ·cⱼ·cₖ / sqrt(Sᵢ·Sⱼ·Sₖ), where c is a mean-centred row and S its sum of squares. The entry is 0 when the denominator is 0.
  - `sqrt` is a parameter. The lemmas assume only `SqrtLike`: on x ≥ 0 the result is ≥ 0, and it is 0 iff x is 0.
  - `ComputeCumulant` is the triple loop, with the centred rows and the sums of squares computed once up front.
- `HicDriver`: `process_hic_files`.
  - The file store, `np.corrcoef`, whether the cumulant computation completes, and the HDF5 writes are oracles held in an `Environment`.
  - The driver returns the trace of events it produces: failed loads, a failed filter, a failed correlation, a failed cumulant, and attempted writes (saved or failed).
- `ConfigFile`: `update_config_file` with the file read and write stripped off. It maps the list of lines and the ordered update dict to the list of lines written back.
- `Commands`: the `ABcluster`, `differentiate_chromosomes` and `preprocess` subcommands as decision functions over their options.
  - Each returns what it would write, run or execute.
  - `os.path.join` is modelled with its POSIX rules.
  - Splitting the command string on single spaces, as Python's `str.split(' ')` does, recovers its words.

Edge cases the model takes from the code:
- Dark-bin indices go straight to numpy. numpy accepts any index in [-n, n) and wraps a negative one to count from the end, so the model does too.
- After filtering, the code only checks that the filter did not fail. A 0×0 filtered matrix therefore still reaches both computations and both writes.
- An empty list of resolutions, chromosomes or data types runs no iteration. In the model an empty batch yields the empty trace.

## Model

| member | source | states |
|---|---|---|
| DarkBins.Wrap | utilities/process_hic_files.py:27 | an accepted index designates a position in [0, n) congruent to it modulo n (negative indices count from the end) |
| DarkBins.ClearMask | utilities/process_hic_files.py:26-27 | after `mask[dark_bins] = False` a position is still set iff it was set before and no dark index designates it; the length is unchanged |
| DarkBins.Kept | utilities/process_hic_files.py:28 | boolean selection picks in-range positions whose mask bit is set, all of them, in strictly ascending order |
| DarkBins.KeptCount | utilities/process_hic_files.py:28 | the number of selected positions is the mask length minus the number of cleared positions |
| DarkBins.KeptBinsMembership | utilities/process_hic_files.py:26-28 | a bin survives iff it is in range and no dark index designates it |
| DarkBins.KeptBinsCount | utilities/process_hic_files.py:26-28 | the surviving bins are ascending and number n minus the count of distinct wrapped dark positions |
| DarkBins.KeptNoneWhenAllCleared | utilities/process_hic_files.py:28 | a mask with every bit cleared selects nothing |
| DarkBins.RemoveDarkBins | utilities/process_hic_files.py:24-32 | the result is present iff every dark index is in [-n, n) and the matrix is square; then it is k×k with entry (a, b) equal to input entry (keep[a], keep[b]) |
| DarkBins.FilteredDimension | utilities/process_hic_files.py:26-28 | an n×n matrix with valid dark indices filters to size n minus the number of distinct wrapped dark positions |
| DarkBins.KeptAllTrue | utilities/process_hic_files.py:26-28 | an all-true mask selects 0, 1, ..., n-1 |
| DarkBins.NoDarkBinsIsIdentity | utilities/process_hic_files.py:24-29 | an empty dark-bin list returns a square matrix unchanged |
| DarkBins.FilterIdempotent | utilities/process_hic_files.py:24-29 | filtering a filtered matrix again with no dark bins gives the same result |
| DarkBins.DarkBinsAsSet | utilities/process_hic_files.py:27 | two dark lists with the same elements (duplicates or reordering) give the same result, failure included |
| DarkBins.AllDarkGivesEmpty | utilities/process_hic_files.py:24-29 | when every bin is dark the result is the 0×0 matrix, a success |
| Cumulant.SumOfSquares | utilities/process_hic_files.py:53 | a sum of squares is never negative |
| Cumulant.CumulantTensor | utilities/process_hic_files.py:44-54 | the tensor of an n-row matrix is n×n×n (empty for n = 0) |
| Cumulant.ComputeLine | utilities/process_hic_files.py:51-54 | the innermost loop over k yields, from the precomputed centred rows and spreads, exactly entries (i, j, 0..n-1) of the tensor |
| Cumulant.ComputePlane | utilities/process_hic_files.py:50-54 | the middle loop yields exactly plane i of the tensor |
| Cumulant.Entry | utilities/process_hic_files.py:52-54 | entry (i, j, k) times the denominator gives the numerator when the denominator is non-zero; the entry is 0 when the denominator or the numerator is 0 |
| Cumulant.ComputeCumulant | utilities/process_hic_files.py:42-55 | the triple loop with the centring hoisted out computes exactly the tensor of the formula |
| Cumulant.SumOfSquaresZero | utilities/process_hic_files.py:53 | a sum of squares is zero iff every entry is zero |
| Cumulant.SumOfConstant | utilities/process_hic_files.py:45 | n copies of v sum to n·v |
| Cumulant.ZeroSpreadIffConstant | utilities/process_hic_files.py:45-53 | a row's centred sum of squares is zero iff the row is constant |
| Cumulant.EntryGuard | utilities/process_hic_files.py:53-54 | an entry is 0 when the product of the three spreads is 0; otherwise the root is positive and the entry is the quotient |
| Cumulant.ConstantRowGivesZero | utilities/process_hic_files.py:52-54 | every entry whose i, j or k row is constant is 0 |
| Cumulant.TripleProductSwapFirst | utilities/process_hic_files.py:52 | the summed triple product is unchanged by swapping its first two vectors |
| Cumulant.TripleProductSwapLast | utilities/process_hic_files.py:52 | the summed triple product is unchanged by swapping its last two vectors |
| Cumulant.EntrySwapFirst | utilities/process_hic_files.py:52-54 | entry (i, j, k) equals entry (j, i, k) |
| Cumulant.EntrySwapLast | utilities/process_hic_files.py:52-54 | entry (i, j, k) equals entry (i, k, j) |
| Cumulant.CumulantSymmetric | utilities/process_hic_files.py:52-54 | the tensor is invariant under all six permutations of its indices |
| Cumulant.EntryDependsOnlyOnItsRows | utilities/process_hic_files.py:52-54 | two matrices sharing rows i, j, k agree on that entry, whatever their other rows |
| HicDriver.ComputeCumulant | utilities/process_hic_files.py:42-58 | the cumulant of the filtered matrix is absent iff its computation raises; when present it is the formula's n×n×n tensor |
| HicDriver.ProcessKey | utilities/process_hic_files.py:64-91 | a key produces one or two events; a reported load failure names one of the key's two input files and every write attempt one of its two output files |
| HicDriver.ProcessKeyShape | utilities/process_hic_files.py:67-91 | after a successful filter a key produces exactly two events; the filter failure is reported iff both loads succeeded and the filter failed, and then it is the key's only event |
| HicDriver.Reports | utilities/process_hic_files.py:34-58 | the failure reports hold `CorrelationFailed` iff `np.corrcoef` failed and `CumulantFailed` iff the cumulant failed, and no write |
| HicDriver.Attempts | utilities/process_hic_files.py:75-91 | one write attempt per computed result, each on one of the key's two output files |
| HicDriver.ProcessKeyWrites | utilities/process_hic_files.py:67-91 | a key writes nothing unless both loads and the filter succeed; then the correlation write is attempted iff `np.corrcoef` gave a value, and the write of the filtered matrix's tensor iff the cumulant completed, each regardless of the other, correlation first |
| HicDriver.ComputationFailuresReported | utilities/process_hic_files.py:72-74 | after a successful filter, a correlation failure is reported iff `np.corrcoef` failed and a cumulant failure iff the cumulant failed; no load or filter failure appears |
| HicDriver.LoadFailuresReported | utilities/process_hic_files.py:67-70 | on a failed load, each failed file is reported exactly once, both loads having been attempted, and nothing else happens for the key |
| HicDriver.PathsDistinct | utilities/process_hic_files.py:64-85 | the matrix, dark-bin, correlation and cumulant files of a key are pairwise distinct |
| HicDriver.OutputsNeverInputs | utilities/process_hic_files.py:64-85 | no key's correlation or cumulant file is the matrix or dark-bin file of any key, so no write changes what a later load reads |
| HicDriver.DarkBinsShared | utilities/process_hic_files.py:65 | all data types of one resolution and chromosome read the same dark-bin file |
| HicDriver.ProcessKeyLocal | utilities/process_hic_files.py:63-91 | a key's events depend only on the store's answers for that key's own four files |
| HicDriver.KeysCount | utilities/process_hic_files.py:61-63 | the batch has |resolutions|·|chromosomes|·|data types| keys |
| HicDriver.KeysOrder | utilities/process_hic_files.py:61-63 | key number (a·|C| + b)·|D| + c is (resolutions[a], chromosomes[b], data types[c]): resolution-major, then chromosome, then data type |
| HicDriver.BatchTraceSegment | utilities/process_hic_files.py:61-91 | a key's events sit between those of the keys before and after it, whatever happened to them |
| HicDriver.ProcessDataTypes | utilities/process_hic_files.py:63-91 | the innermost loop produces the events of its keys in data-type order |
| HicDriver.ProcessChromosomes | utilities/process_hic_files.py:62-91 | the middle loop produces the events of one resolution's keys in chromosome order |
| HicDriver.ProcessHicFiles | utilities/process_hic_files.py:60-91 | the three loops produce the concatenation, in key order, of every key's own events |
| ConfigFile.RewriteLine | hypermatrix/main.py:81-83 | whatever the keys, a line comes out either unchanged or as `{key} = '{value}'` plus newline for one of the updates |
| ConfigFile.UpdateConfigFile | hypermatrix/main.py:79-84 | as many lines are written as were read, line i being line i rewritten by all updates in order |
| ConfigFile.UnmatchedLineKept | hypermatrix/main.py:80-84 | a line that no key assigns is written back unchanged |
| ConfigFile.EmptyUpdatesIdentity | hypermatrix/main.py:80-84 | with an empty dict every line is written back unchanged |
| ConfigFile.SameLineSameKey | hypermatrix/main.py:82 | two keys without spaces cannot both start the same line with ` =` unless they are equal |
| ConfigFile.AssignmentAssignsOnlyItsKey | hypermatrix/main.py:82-83 | a rewritten line is assigned by its own key and by no other spaceless key |
| ConfigFile.AssignmentSurvives | hypermatrix/main.py:81-83 | later updates with other spaceless keys leave a rewritten line alone |
| ConfigFile.MatchedLineReplaced | hypermatrix/main.py:81-83 | for distinct spaceless keys, every line starting with `{key} =` becomes exactly that key's assignment line, whatever its position |
| ConfigFile.RewriteIdempotent | hypermatrix/main.py:79-84 | for distinct spaceless keys, rewriting a rewritten line changes nothing |
| Commands.ConfigUpdates | hypermatrix/main.py:90-100 | the update map has at most five entries and is empty iff none of the five options is supplied (truthy) |
| Commands.ChosenScript | hypermatrix/main.py:111-117 | the cumulant script runs iff `-cumulant`; the impute script iff `-impute` without it; the standard script iff neither |
| Commands.ABcluster | hypermatrix/main.py:88-117 | the config is rewritten iff the update map is non-empty, with one line out per line in, and the chosen script is run |
| Commands.ConfigUpdatesContents | hypermatrix/main.py:90-100 | the map holds methy_directory, bam_directory, output_directory, reference_genome and resolutions with the option's value exactly when that option is supplied (truthy), and no other keys |
| Commands.ConfigUpdatesKeys | hypermatrix/main.py:90-100 | every key of the update map is one of the five config names |
| Commands.ConfigUpdatesWellFormed | hypermatrix/main.py:90-100 | the keys of the update map are distinct and contain no space |
| Commands.ABclusterRewritesSuppliedOption | hypermatrix/main.py:90-104 | every config line assigning a supplied option's key is rewritten to that option's value |
| Commands.Diffchrom | hypermatrix/main.py:121-123 | the call succeeds iff each of the Hi-C and output settings has an option or a config default; a failure names a missing config key that was needed, `bam_directory` being looked up before `output_directory` |
| Commands.DiffchromDefaults | hypermatrix/main.py:121-123 | each setting is the option when supplied and the config default otherwise; the epigenetic file is present iff supplied, with its value |
| Commands.PathJoin | hypermatrix/main.py:142 | `os.path.join` ends with its second part; an absolute second part replaces the first; otherwise the first part is a prefix and exactly one separator sits between them unless the first is empty or already ends in one |
| Commands.PreprocessScript | hypermatrix/main.py:141 | the nomehic script iff `--nomehic`, else the m3C script; the name is relative and has no space |
| Commands.JoinRelative | hypermatrix/main.py:142 | joining a relative name onto a non-empty directory adds a separator iff the directory does not end in one |
| Commands.CommandLine | hypermatrix/main.py:150 | the command starts with the script path, ends with the reference genome, and is 33 characters longer than its four parts |
| Commands.Preprocess | hypermatrix/main.py:131-150 | exit status 1 iff neither `--nomehic` nor `--m3C` is given; otherwise the command starts with the script path |
| Commands.ScriptPathLayout | hypermatrix/main.py:142 | the script path is the package directory, then `utilities`, `single-cell` and the script, with a single separator between parts |
| Commands.SplitUnsplit | hypermatrix/main.py:150 | joining spaceless words with single spaces and splitting with Python's `str.split(' ')` gives the words back |
| Commands.CommandLineWords | hypermatrix/main.py:150 | `{path} --input {in} --output {out} --ref_genome {ref}` with spaceless parts splits, by `str.split(' ')`, into exactly those seven words |
| Commands.PreprocessCommandWords | hypermatrix/main.py:131-150 | with a flag given and spaceless paths, `str.split(' ')` of the command `preprocess` builds gives the script followed by the three option/value pairs |

## Left out

- Loading the matrix and dark-bin files and writing the HDF5 outputs (process_hic_files.py lines 6-22 and the `h5py` writes): file I/O. These are oracle functions of the file name in `HicDriver.Environment`. Each oracle is deterministic in its file name, which is sound because no write of the batch creates a file the batch loads (`HicDriver.OutputsNeverInputs`). A failed write is one `SaveFailed` event.
- `compute_correlation_matrix` / `np.corrcoef`: library floating-point numerics. It is an oracle that may fail.
- Floating point: every value is an exact real, and there is no claim about rounding, NaN or infinities. An n×0 matrix has undefined row means in numpy. The model uses 0 for such a mean, which is never read because such a row has no entries. Both give a zero tensor.
- `np.sqrt`: a parameter of the cumulant, constrained in the lemmas only by `SqrtLike`.
- `std_vec`: computed by the source but never used.
- Why `compute_degree_2_cumulant` fails: its exceptions (a `MemoryError` from allocating the n×n×n tensor, or a non-2-D input) depend on the machine, so completion is the `cumulantFits` oracle of `HicDriver.Environment`. When it fails, a `CumulantFailed` event is reported and the cumulant write is skipped, while the correlation write proceeds.
- Dark-bin indices are integers. numpy rejects index arrays of float and other non-integer, non-boolean dtypes, and the function then returns None. A boolean array is not an index list: numpy reads it as a mask. Boolean dark-bin arrays are not modelled.
- Logging: every `print` is left out. A failure the source only logs is an abstract event in the driver trace: `LoadFailed`, `FilterFailed`, `CorrelationFailed`, `CumulantFailed` or `SaveFailed`.
- `run_shell_script`, `subprocess.run`, `os.access`/`os.chmod` and `pkg_resources` path resolution (main.py lines 144-157 and 159-178): process and filesystem plumbing. `ABcluster` returns the script it would run and `preprocess` the command it would execute; their exit status and output are not modelled.
- The `config_path` file itself and the `config` dict import (main.py lines 10-16): the file's lines and the config dict are parameters.
- `argparse` setup, `main` dispatch and the version banner (main.py lines 18-67): library UI glue.
- `utilities/single-cell/config_and_print.py`: hard-coded constants and prints only. It is not part of this model.
- ConfigFile.MatchedLineReplaced: exact replacement is proved only for dicts whose keys are distinct and contain no space, which covers every dict `abcluster` builds. For arbitrary keys only the contract of `ConfigFile.RewriteLine` holds: the line comes out unchanged or as some update's assignment line.
- Commands.PreprocessCommandWords: `Split` is Python's `str.split(' ')`, not the word splitting of `/bin/sh`, and word recovery is stated only for arguments without spaces. The command runs with `shell=True`. Shell parsing is not modelled: quotes, metacharacters such as `;`, `|`, `$` or `*`, and tabs or newlines inside an argument can make the shell see other words or commands.
- Commands.DiffchromDefaults: config values are modelled as strings. The Python config dict may hold other types, which the f-string would print with `str()`.
