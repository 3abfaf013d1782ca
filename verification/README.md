# Dilepton H5 dataset: a Dafny model

This project models the event-reshaping core of `H5Dataset` in
`src/datamodules/dilepton.py` of the nu2flows neutrino-regression code.
The dataset reads one HDF5 table per file and keeps the rows `[:n_per_file]`
selects from each. It stacks the files in list order and builds one `[njets, nbjets]`
misc row per event. It marks the jets that are not all-zero padding, drops the
pdgid column of the neutrinos, and orders each event's leptons by charge, so the
particle comes before the antiparticle. Indexing returns one event's inputs and
its neutrino and antineutrino targets. Two helpers report the feature width of
every input and target.

The HDF5 reads are abstracted away. Each file is given as a `FileTable`: its
per-event `Shape`, the field names of each compound column, and its rows, one
`RawEvent` per event. Feature values are `real`. The model needs only equality
with zero and `<=` on the charge column.

Modules, one per stage of the constructor:

- `Outcomes`: `Option`, `Result`, and the errors numpy and Python raise along
  the way (empty file list, shape mismatch between files, feature, field-name or
  event index out of bounds).
- `Kinematics`: the `*_kins` arguments. A string is split at its commas like
  Python's `str.split(",")`, and a list is kept as given.
- `Events`: shapes, raw events and file tables. Every row of a table has the
  table's shape. A table's field names are not tied to its feature counts,
  because `structured_to_unstructured` spreads a subarray field over several
  features while `dtype.names` lists it once.
- `Loading`: `table[...][:n_per_file]` with Python's slice rules, stacking in
  file order, and the position of every file's rows in the stack.
- `Sorting`: `np.argsort` and `take_along_axis` as a permutation of indices.
- `Reshape`: the misc row, the jet mask, the neutrino projection and the charge
  ordering.
- `H5Dataset`: the constructor (`Init`), `__len__`, `__getitem__` (`GetItem`)
  and `get_input_dims` / `get_target_dims`, plus lemmas tying every dataset
  entry back to the file row it came from.

Where the documentation and the code differ, the model follows the code.
`n_per_file` is documented as the maximum number of events per file, but the
code slices with `[:n_per_file]`. A negative value therefore drops rows from the
end of each file, and `Loading.Take` models that.

## Model

| member | source | states |
|---|---|---|
| Kinematics.Split | src/datamodules/dilepton.py:55-58 | splitting a kinematics string gives at least one piece, and no piece contains a comma |
| Kinematics.JoinSplit | src/datamodules/dilepton.py:55-58 | joining the pieces of a string with commas gives back the string |
| Kinematics.SplitJoin | src/datamodules/dilepton.py:55-58 | splitting the comma-join of comma-free names gives back exactly those names |
| Kinematics.SplitCount | src/datamodules/dilepton.py:55-58 | a string splits into one more piece than it has commas |
| Kinematics.ParseKins | src/datamodules/dilepton.py:55-58 | a list argument is kept unchanged; a string becomes comma-free pieces, one more than its commas, that join back to the string |
| Kinematics.DefaultMetKinsParsed | src/datamodules/dilepton.py:28 | the default MET kinematics parse to px, py |
| Kinematics.DefaultLepKinsParsed | src/datamodules/dilepton.py:29-30 | the default lepton kinematics parse to px, py, pz, log_energy, and the jet default is the same string |
| Kinematics.DefaultNuKinsParsed | src/datamodules/dilepton.py:31 | the default neutrino kinematics parse to px, py, pz |
| H5Dataset.DefaultConfigLoadsAll | src/datamodules/dilepton.py:25-31 | with the default arguments every row of every file is loaded and the kinematics lists are the documented defaults |
| Loading.Take | src/datamodules/dilepton.py:80-87 | `rows[:n_per_file]` is a prefix of the rows: all of them for None, min(k, rows) for k >= 0, and all but the last -k for k < 0 |
| Loading.Stack | src/datamodules/dilepton.py:76-96 | the stacked events number the sum of the per-file slice lengths |
| Loading.LoadedCountAll | src/datamodules/dilepton.py:76-96 | with n_per_file None, every row of every file is loaded |
| Loading.LoadedCountBounded | src/datamodules/dilepton.py:76-96 | with n_per_file k >= 0, the loaded count is the sum over files of min(k, rows) |
| Loading.StackIndex | src/datamodules/dilepton.py:76-96 | row r of file f is the stacked event at the file's offset plus r, so each file's rows keep their order |
| Loading.OffsetsOrdered | src/datamodules/dilepton.py:76-96 | the block of an earlier file ends before the block of a later file begins, so events follow file_list order |
| Loading.StackFits | src/datamodules/dilepton.py:92-96 | when all files share one shape, every stacked event has that shape |
| Sorting.ArgSort | src/datamodules/dilepton.py:107 | argsort returns a permutation of the indices under which the keys never decrease |
| Sorting.PermutationCoversRange | src/datamodules/dilepton.py:107 | an index permutation has n entries and lists every index below n |
| Sorting.GatherPermutation | src/datamodules/dilepton.py:108-109 | taking the elements along an index permutation yields a permutation of the elements |
| Reshape.Transpose | src/datamodules/dilepton.py:80-82 | `.T` turns a matrix of rows of n entries into n rows, entry (i, j) becoming entry (j, i) |
| Reshape.TransposeTwice | src/datamodules/dilepton.py:80-82 | transposing twice gives back the original matrix |
| Reshape.MiscRows | src/datamodules/dilepton.py:80-82 | `vstack([njets, nbjets]).T` gives one row per event, holding that event's njets then nbjets |
| Reshape.MiscRowsConcat | src/datamodules/dilepton.py:80-92 | building misc rows file by file and stacking them equals building them from the stacked events |
| Reshape.AnyNonZero | src/datamodules/dilepton.py:100 | a jet is present iff at least one of its features is non-zero |
| Reshape.JetMask | src/datamodules/dilepton.py:99-100 | the mask has the events x jets shape of the jets and is false exactly for the all-zero padding jets |
| Reshape.ProjectNeutrinos | src/datamodules/dilepton.py:102-103 | events and neutrinos per event are kept, and each neutrino row becomes its columns 1, 2, 3 in that order |
| Reshape.ProjectionShape | src/datamodules/dilepton.py:102-103 | projection keeps the events x neutrinos shape and leaves three features per neutrino |
| Reshape.ProjectionKeepsLabels | src/datamodules/dilepton.py:102-104 | projecting names and values by the same columns keeps every value paired with its own name |
| Reshape.ReorderEvent | src/datamodules/dilepton.py:106-109 | one event's leptons come out as a permutation of its rows with non-decreasing charge |
| Reshape.ReorderLeptons | src/datamodules/dilepton.py:106-109 | event count, leptons per event and row widths are kept; each event is a permutation of its rows; charge (second-to-last feature) never decreases within an event |
| Reshape.ReorderKeepsShape | src/datamodules/dilepton.py:106-109 | reordering keeps the events x leptons x features shape |
| Reshape.ParticleBeforeAntiparticle | src/datamodules/dilepton.py:106-109 | an event with one negative and one positive lepton always ends up negative first, whichever order it was stored in |
| H5Dataset.Build | src/datamodules/dilepton.py:76-109 | on consistent input the stored arrays all have one entry per loaded event, shaped as the files say, with 3 neutrino features, and the event at each stack position keeps that stacked row's inputs, its leptons in charge order and its projected neutrinos |
| H5Dataset.Assemble | src/datamodules/dilepton.py:80-109 | reshaping stacked events of one shape gives a consistent dataset with one entry per event, 3 neutrino features, and every event held at its own position |
| H5Dataset.InputsAllHeld | src/datamodules/dilepton.py:80-100 | every event's misc row is [njets, nbjets], its MET and jets are copied, and its mask is false exactly on its padding jets |
| H5Dataset.LeptonsAllHeld | src/datamodules/dilepton.py:106-109 | every event's stored leptons are a permutation of its own leptons in non-decreasing charge order |
| H5Dataset.ReorderedEvent | src/datamodules/dilepton.py:106-109 | one reordered event is a permutation of the stored event whose charge column never decreases |
| H5Dataset.NeutrinosAllHeld | src/datamodules/dilepton.py:102-103 | every event keeps its number of neutrinos, each cut to columns 1, 2, 3 |
| H5Dataset.ArraysShaped | src/datamodules/dilepton.py:80-96 | for events of one shape, the misc rows have 2 entries and MET, leptons, jets, mask and neutrinos have the shape's widths and counts |
| H5Dataset.Init | src/datamodules/dilepton.py:76-109 | construction fails exactly when numpy or Python raises, in the source's order: no files, files of different shapes, fewer than 4 neutrino features, fewer than 4 neutrino field names in the last file, fewer than 2 lepton features; otherwise the dataset is consistent, holds the loaded count of events, and every stacked row sits reshaped at its own position |
| H5Dataset.Len | src/datamodules/dilepton.py:118-119 | `__len__` counts the MET rows, which in a consistent dataset is the entry count of every stored array |
| H5Dataset.LenOfInit | src/datamodules/dilepton.py:76-119 | `len` is the sum over files of min(n_per_file, rows), or of all rows when n_per_file is None |
| H5Dataset.InitNames | src/datamodules/dilepton.py:54-104 | parsed kinematics are kept; the field names come from the last file, untouched by the lepton reordering; neutrino names are projected to columns 1..3 |
| H5Dataset.InitProvenance | src/datamodules/dilepton.py:76-109 | row r of file f becomes one event that keeps the row's misc row, MET and jets, masks exactly its padding jets, holds its leptons permuted into charge order and its neutrinos projected to columns 1..3 |
| H5Dataset.NeutrinoNamesAligned | src/datamodules/dilepton.py:102-104 | when the file has one neutrino field name per feature (every field scalar), and the names and a stored neutrino are both the file's projected to columns 1..3, every stored value sits under the name its column had in the file |
| H5Dataset.NormalizeIndex | src/datamodules/dilepton.py:121-129 | an index is accepted iff it lies in [-n, n), and a negative index counts from the end |
| H5Dataset.GetItem | src/datamodules/dilepton.py:121-130 | indexing succeeds iff the index is in range and events hold two neutrinos; an out-of-range index gives the event index error, and an in-range one with fewer than two neutrinos the neutrino index error; it returns the event's misc, MET, leptons, the (jets, mask) pair, and neutrino rows 0 and 1 as targets |
| H5Dataset.GetItemProvenance | src/datamodules/dilepton.py:121-130 | indexing the event that came from a file row yields that row's MET and jets, its leptons up to permutation, and columns 1..3 of its first and second neutrino as neutrino and antineutrino |
| H5Dataset.InputDims | src/datamodules/dilepton.py:132-137 | input widths exist iff sample 0 does; each is the last-axis width of that input, and for the jets pair it is the jet feature width, not the mask's |
| H5Dataset.TargetDims | src/datamodules/dilepton.py:139-144 | target widths exist iff sample 0 does; each is the width of the neutrino or antineutrino target |
| H5Dataset.InitDims | src/datamodules/dilepton.py:132-144 | a loaded non-empty dataset reports widths 2, MET width, lepton width and jet feature width for its inputs and 3 for both targets |

## Left out

- HDF5 access, `data_dir`, `table_name` and the file-existence check (`dilepton.py:60-66`, `78-79`) are I/O. The model takes the per-file tables as already-read values.
- `change_from_ptetaphiE` (`dilepton.py:111-116`) lives in `src/datamodules/physics`, which is not part of this model. It is a floating-point coordinate conversion. The dataset is modelled as it stands just before this call, so `GetItem` and the dims read the stacked and reshaped arrays.
- float32 casts, NaN and the exact float behaviour of `structured_to_unstructured` are representation details. Features are `real`.
- Logging calls have no effect on the data.
- `H5DataModule` (`dilepton.py:147-215`) is Lightning / DataLoader wiring and config copying.
- `scripts/export.py` and `scripts/test_data.py` orchestrate external libraries.
- Reshape.ReorderEvent: the model's argsort keeps equal charges in their stored order. Its contract promises only a permutation with non-decreasing charge, because numpy's default sort is not stable and fixes no order for ties.
