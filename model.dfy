/** The values the extraction pipeline works on: the request (the keyword
    arguments of `process_netcdf_file`), the opened dataset seen as an
    abstract value, the rows it emits and the reasons it refuses an input. */
module Model {

  datatype Option<T> = None | Some(value: T)

  datatype Result<T> = Ok(value: T) | Err(reason: Reason)

  /** One constructor per place where the script raises; the comment names
      the Python exception class raised there. */
  datatype Reason =
    | NoLatitudeArg        // KeyError: `latitude` missing from the keyword arguments
    | NoLongitudeArg       // KeyError: `longitude` missing from the keyword arguments
    | NoDataArg            // KeyError: `data` (the variable name) missing
    | NoLatitudeAxis       // KeyError: the dataset has no `latitude` coordinate
    | NoLongitudeAxis      // KeyError: the dataset has no `longitude` coordinate
    | NoTimeAxis           // KeyError: the dataset has no `time` coordinate
    | EmptyLongitudeAxis   // IndexError: `longitude` has no first value to inspect
    | LatitudeNotFound     // ValueError: a requested latitude is not on the grid
    | LongitudeNotFound    // ValueError: a (shifted) requested longitude is not on the grid
    | VariableNotFound     // KeyError: the requested variable is not a data variable
    | NoLevelArg           // KeyError: the dataset has `level` but the request has none
    | LevelNotFound        // ValueError: a requested level is not on the grid
    | EmptyLevelArg        // IndexError: `level[0]` of an empty level list

  /** A field of an output row: the formatted timestamp and value are text,
      the coordinates are numbers (rendered by `str` when written). */
  datatype Field = Text(s: string) | Number(x: real)

  type Row = seq<Field>

  /** Every row has a first field; `data[0]` raises `IndexError` otherwise,
      which the script does not handle. */
  predicate Keyed(rows: seq<Row>)
  {
    forall i :: 0 <= i < |rows| ==> |rows[i]| > 0
  }

  /** Every row starts with a text field, as the extracted rows do with
      their timestamp; the partition file name slices it as a string. */
  predicate TextKeyed(rows: seq<Row>)
  {
    Keyed(rows) && forall i :: 0 <= i < |rows| ==> rows[i][0].Text?
  }

  /** One point of the requested grid, in the dataset's own longitude convention. */
  datatype Cell = Cell(lat: real, lon: real, level: Option<real>)

  /** What `ds.sel(...)` yields for one variable at one cell: the time axis
      and the variable's values, both already rendered as text. */
  datatype Selection = Selection(times: seq<string>, values: seq<string>)

  /** A selection along one time axis has as many values as time steps. */
  type Series = s: Selection | |s.times| == |s.values| witness Selection([], [])

  /** An opened dataset: its coordinate axes by name, the names of its data
      variables, and selection of a variable at a cell. */
  datatype Dataset = Dataset(
    coords: map<string, seq<real>>,
    dataVars: set<string>,
    sel: (string, Cell) -> Series)

  /** The keyword arguments of `process_netcdf_file`; an absent key is `None`. */
  datatype Request = Request(
    latitude: Option<seq<real>>,
    longitude: Option<seq<real>>,
    level: Option<seq<real>>,
    data: Option<string>)
}
