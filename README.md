# Gridded reanalysis extraction, modelled in Dafny

This project models the extraction pipeline of `sw_netcdf_reanalysis.py`.
The script reads a NetCDF reanalysis dataset and checks the requested
latitudes, longitudes, level and variable against the dataset's coordinate
axes. A dataset stored on a 0..360 longitude grid is handled by shifting the
requested longitudes by 180. The script then walks the requested grid,
latitude first, then longitude, then level, and selects the variable's time
series at every point. Each time step becomes one row: timestamp, value,
latitude, longitude in the caller's convention and, if there is one, level.
The rows are grouped by timestamp. Each group is appended to a partition
file named after the output path, with `_` and the timestamp's text before
its first `:` inserted before the last `.`.

Modules, in pipeline order:

- `Model`: requests, datasets, rows, reasons for rejection.
- `PyText`: `str.find`, `str.rfind`, slicing with a negative bound, `os.path.basename`, joining.
- `Validation`: the checks of `process_netcdf_file` and the longitude shift.
- `Packing`: `pack_data_to_list`.
- `Extraction`: the nested selection loops.
- `Grouping`: `separate_data_by_date`.
- `Naming`: the partition file name and `get_out_file_name`.
- `Writer`: the two writers. The files are a `FileStore` object whose `files` map is updated by the append methods.
- `Pipeline`: `process_netcdf_file` as a whole.
- `Scenario`: a worked two-day example, run once and then a second time.

The dataset is an abstract value: its coordinate axes by name, its data
variables, and a selection function. That function gives the time axis
and the variable's values at one grid cell, already rendered as text.

## Model

| member | source | states |
|---|---|---|
| PyText.Find | sw_netcdf_reanalysis.py:145 | `key.find(':')` is -1 exactly when there is no `:`; otherwise it is the index of a `:` with none before it |
| PyText.RFind | sw_netcdf_reanalysis.py:168 | `rfind('.')` is -1 exactly when there is no `.`; otherwise it is the index of a `.` with none after it |
| PyText.SplitAtLastDot | sw_netcdf_reanalysis.py:145 | for `stem.ext` with a `.`-free extension, slicing at `rfind('.')` gives `stem` before and `.ext` from it |
| PyText.SplitAtFirstColon | sw_netcdf_reanalysis.py:145 | for `date:rest` with a `:`-free date, slicing at `find(':')` gives `date` |
| PyText.BasenameOfPath | sw_netcdf_reanalysis.py:165 | `os.path.basename` of a directory part followed by a `/`-free name is that name |
| PyText.JoinSnoc | sw_netcdf_reanalysis.py:121-124 | one more field adds the delimiter only between fields, never before the first one |
| Validation.SubsetMeansMembers | sw_netcdf_reanalysis.py:65 | `set(xs).issubset(set(ys))` holds exactly when every element of `xs` is in `ys` |
| Validation.ShiftedSubsetMeansMembers | sw_netcdf_reanalysis.py:60-67 | the shifted longitudes are on the axis exactly when each requested longitude plus the shift is |
| Validation.Validate | sw_netcdf_reanalysis.py:17-76 | on acceptance: latitude, longitude and data were given; the axes exist; the variable exists; the shift is 180 exactly when the first longitude is 0; every lookup longitude minus the shift is the requested one; every requested coordinate is on its axis; levels are used exactly when the dataset has a level axis |
| Validation.ValidateAcceptsExactly | sw_netcdf_reanalysis.py:17-76 | a request is accepted if and only if none of the twelve checks is violated |
| Validation.ValidateReportsFirstViolation | sw_netcdf_reanalysis.py:17-76 | a rejection names a violated check, and every check that comes before it in the source's order (its prefix of `CHECKS`) passed |
| Packing.PackedRows | sw_netcdf_reanalysis.py:100-113 | no columns give no rows; otherwise one row per entry of the first column, with the i-th entry of every column in column order, then the keyword values |
| Packing.PackDataToList | sw_netcdf_reanalysis.py:100-113 | the loops build exactly `Packed(args, kwargs)` |
| Extraction.RowsOf | sw_netcdf_reanalysis.py:86-88 | every extracted row is non-empty and starts with a text timestamp |
| Extraction.CellRowsAt | sw_netcdf_reanalysis.py:93-96 | a cell gives one row per time step: timestamp, value, latitude, longitude minus the shift, then the level if any |
| Extraction.RowsOfLength | sw_netcdf_reanalysis.py:80-96 | the number of extracted rows is the sum over cells of the time-series lengths |
| Extraction.RowsOfAt | sw_netcdf_reanalysis.py:80-96 | the rows of the p-th cell follow the rows of all cells before it, in time order |
| Extraction.LonCellsAt | sw_netcdf_reanalysis.py:91-92 | at one latitude, longitude j and level k is cell `j * levels + k` |
| Extraction.GridCellsAt | sw_netcdf_reanalysis.py:90-92 | the grid is visited latitude first: the cell (i, j, k) is number `i * (lons * levels) + j * levels + k`, and there are `lats * lons * levels` cells |
| Extraction.PlanCellsAt | sw_netcdf_reanalysis.py:82-92 | the same visiting order for an accepted request, with a single no-level pass when the dataset has no level axis |
| Extraction.PointRows | sw_netcdf_reanalysis.py:85-96 | the rows selected at one latitude and longitude are those of its cells: one pass without levels, one per level otherwise |
| Extraction.LatitudeRows | sw_netcdf_reanalysis.py:84-96 | the longitude loop yields the rows of that latitude's cells, in order |
| Extraction.ExtractRows | sw_netcdf_reanalysis.py:79-96 | the three loops leave `resulting_list` equal to the rows of all cells in visiting order |
| Grouping.DistinctPositions | sw_netcdf_reanalysis.py:133-136 | "no repeated key" means that no two positions hold the same key |
| Grouping.KeysDistinct | sw_netcdf_reanalysis.py:133-136 | the dictionary lists no key twice |
| Grouping.KeysOfCover | sw_netcdf_reanalysis.py:135-136 | every row's first field is a key, and every key is some row's first field |
| Grouping.GroupOfMembers | sw_netcdf_reanalysis.py:135-136 | a group holds every row with that key and only such rows |
| Grouping.KeysOfPrefix | sw_netcdf_reanalysis.py:133-136 | keys are only ever appended: the keys of the first n rows are a prefix of all keys |
| Grouping.KeysFirstEncounter | sw_netcdf_reanalysis.py:133-136 | a key first met at row i comes right after the keys of the rows before it |
| Grouping.GroupsPartitionRows | sw_netcdf_reanalysis.py:130-138 | the groups, in key order, are a permutation of the input rows |
| Grouping.SeparateStep | sw_netcdf_reanalysis.py:135-136 | one more row joins its key's group, and a new key is appended with a group of its own |
| Grouping.SeparateByDate | sw_netcdf_reanalysis.py:130-138 | the loop returns the keys in first-encounter order and, for each key, its group |
| Naming.OutputNameKeepsExtension | sw_netcdf_reanalysis.py:145 | output `stem.ext` and key `date:rest` give `stem_date.ext` |
| Naming.OutputNameWithoutDot | sw_netcdf_reanalysis.py:145 | an output path without `.` loses its last character before `_`, and that character is put back at the end |
| Naming.OutputNameWithoutColon | sw_netcdf_reanalysis.py:145 | a key without `:` loses its last character |
| Naming.OutputNameSeparatesDates | sw_netcdf_reanalysis.py:145 | two timestamps share a partition file if and only if their text before the first `:` is equal |
| Naming.GetOutFileName | sw_netcdf_reanalysis.py:161-177 | `KeyError` for a missing `data`, then a missing `level`; `IndexError` for an empty `level`; otherwise the name ends with `_data_level.dat` |
| Naming.GetOutFileNameOfPath | sw_netcdf_reanalysis.py:161-177 | for `dir/stem.ext` the name is `stem_data_level.dat` |
| Naming.GetOutFileNameWithoutDot | sw_netcdf_reanalysis.py:164-168 | for `dir/name` with no `.` in `name`, `rfind` gives -1 and the slice drops the last character: the name is `name[:-1]_data_level.dat` |
| Writer.LinesAppend | sw_netcdf_reanalysis.py:115-128 | writing rows in two batches writes the same text as writing them at once |
| Writer.AppendToTwice | sw_netcdf_reanalysis.py:116 | two appends to a file add both texts, in order |
| Writer.ContentAfterAppend | sw_netcdf_reanalysis.py:147 | appending to one file changes that file only, and creates it if it is missing |
| Writer.SavedContent | sw_netcdf_reanalysis.py:144-159 | after the groups of some keys are saved, every file holds its old content followed by the lines of the groups routed to it |
| Writer.SavedNames | sw_netcdf_reanalysis.py:144-147 | the files that exist afterwards are the old ones plus the partition file of each key |
| Writer.KeyFilesAreRowFiles | sw_netcdf_reanalysis.py:142-145 | the keys name the same partition files as the rows' own timestamps |
| Writer.FilesPartitionRows | sw_netcdf_reanalysis.py:140-159 | each partition file receives a permutation of the rows whose own timestamp names it: none lost, none twice |
| Writer.RowsNamedMembers | sw_netcdf_reanalysis.py:145 | a row is routed to a file if and only if it is an input row whose timestamp names that file |
| Writer.SaveAllContent | sw_netcdf_reanalysis.py:140-159 | after the save, every file holds its old content followed by the lines of the rows routed to it |
| Writer.SaveAllNames | sw_netcdf_reanalysis.py:140-159 | the save creates the partition file of every row and no other file |
| Writer.SaveAllLeavesOthers | sw_netcdf_reanalysis.py:140-159 | a file that no row names keeps its content and is not created |
| Writer.FormatLine | sw_netcdf_reanalysis.py:151-157 | the field loop produces the fields' texts joined by four spaces, then a newline |
| Writer.FileStore.AppendRows | sw_netcdf_reanalysis.py:115-128 | `save_all_to_csv_file` appends the rows' lines to `fout`, creating it if needed; other files are unchanged |
| Writer.FileStore.SaveByDate | sw_netcdf_reanalysis.py:140-159 | `save_all_to_csv_files_by_date` leaves the files as `SaveAll` describes |
| Pipeline.ProcessNetcdfFile | sw_netcdf_reanalysis.py:11-98 | a rejected request gives the reason of the first failed check and writes nothing; an accepted one appends all extracted rows, partitioned by timestamp |
| Pipeline.ExtractedRowAt | sw_netcdf_reanalysis.py:82-96 | the row for time step t at latitude i, longitude j and level k sits at `RowIndex` |
| Pipeline.RowsEchoRequest | sw_netcdf_reanalysis.py:58-96 | every extracted row carries the requested latitude, the requested longitude in the caller's own convention, and the requested level when there is a level axis |
| Pipeline.RerunAppendsDuplicates | sw_netcdf_reanalysis.py:147 | a second run on the same input appends every partition file's lines again; re-running is not idempotent |
| Scenario.SampleValidates | sw_netcdf_reanalysis.py:55-76 | the sample request on a 0..360 grid is accepted, and longitude 0 is looked up at 180 |
| Scenario.SampleRows | sw_netcdf_reanalysis.py:82-88 | the sample yields two rows, and both carry longitude 0 |
| Scenario.SampleLines | sw_netcdf_reanalysis.py:151-157 | the sample rows' lines are written out in full |
| Scenario.SampleNames | sw_netcdf_reanalysis.py:145 | the two sample timestamps name `out/sp_1987-01-01T00.dat` and `out/sp_1987-01-02T00.dat`, which differ |
| Scenario.EndToEnd | sw_netcdf_reanalysis.py:11-159 | one run from no files creates the two day files, each holding its one line |
| Scenario.SecondRun | sw_netcdf_reanalysis.py:140-159 | a second pass doubles the content of both files |
| Scenario.RunTwice | sw_netcdf_reanalysis.py:11-98 | `process_netcdf_file` run twice on the sample leaves first one line per file and then two |

## Left out

- Opening the NetCDF file (`xr.open_dataset`, line 25) and `ds.sel` (lines 85 and 93) are not modelled. The dataset is a value with coordinate axes, data variables and a selection function. Whatever the selection returns is taken as given.
- Rendering is a parameter. `str` of a timestamp and `format(val, '.10f')` (lines 86-87, 94-95) give the text fields. Python's `str` of a coordinate or a level, whatever its Python type (line 124, line 155, line 172), is the parameter `show`.
- Writer.FieldText: coordinates are reals and `show` renders every number, so Python's different `str` of an `int` and a `float` is not modelled. A longitude requested as the `int` `10` stays an `int` when the shift is `0` (line 59) and is written `10`; after the `180.0` shift and back (lines 61-62, 88) it is a `float` and is written `10.0`. An `int` level such as `1` is written `1`.
- Naming.GetOutFileName: for the same reason, the level in the name is `show` of a real. The `int` level `1` of `main` (line 195) gives `_sp_1.dat` in the script; the model covers that only through the choice of `show`.
- Floating point is not modelled: coordinates are reals. The longitude shift (line 62), the comparison with `0.0` (line 60), set membership (lines 65-75) and `lon - shift_longitude` (line 88) are therefore exact. With IEEE doubles they can round.
- The diagnostics `print` calls (lines 12-14, 34-35, 39-48) are not modelled. Neither are `process_all_files_in_folder` with its `glob` (lines 179-186) and `main` (lines 188-203). They are a driver and have no logic beyond what is modelled.
- Files are a map from name to content. File handles, I/O errors and concurrent writers are not modelled. Opening with `'a'` is modelled as creating a missing file empty and keeping an existing one.
- Extraction.PointRows: the source tests for the `level` axis once, outside the loops (line 82), and has two copies of the loops. The model makes the same test once per longitude, inside the loops. The rows and their order are the same.
- Packing.PackDataToList: it requires every column to be at least as long as the first one. The source does not check this and would raise `IndexError`; the script's own calls always pass two columns of equal length.
- Grouping.SeparateByDate: it requires every row to be non-empty. On an empty row, `data[0]` raises `IndexError`, which is not modelled; the script's own rows are never empty.
- Writer.FileStore.SaveByDate: it requires every row's first field to be text. On anything else, `key.find` raises `AttributeError`, which is not modelled; the script's own rows always start with the timestamp string.
- The partition key is not a calendar date. The code cuts the timestamp before its first `:` (line 145). For an ISO timestamp such as `1987-01-01T00:00:00` that leaves the date and the hour (`1987-01-01T00`), so rows from different hours of one day go to different files. Rows are grouped on the whole timestamp (line 136). Several timestamps that share the text before `:` append to the same file, one group after another.
- Within a group, rows stay in input order because `GroupOf` is defined as the in-order filter of the rows. No separate lemma states this.
