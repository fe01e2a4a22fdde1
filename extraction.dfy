/** The extraction loop of `process_netcdf_file`: for every latitude, then
    every longitude, then every level (when the dataset has levels), select
    the variable's time series and append its packed rows. */
module Extraction {
  import opened Model
  import opened Validation
  import opened Packing

  /** The innermost loop's range: the requested levels, or a single
      "no level" pass when the dataset has no `level` axis. */
  function LevelChoices(levels: Option<seq<real>>): seq<Option<real>>
  {
    match levels
    case None => [None]
    case Some(ls) => seq(|ls|, k requires 0 <= k < |ls| => Some(ls[k]))
  }

  function LevelCells(lat: real, lon: real, choices: seq<Option<real>>): seq<Cell>
  {
    seq(|choices|, k requires 0 <= k < |choices| => Cell(lat, lon, choices[k]))
  }

  function LonCells(lat: real, lons: seq<real>, choices: seq<Option<real>>): seq<Cell>
  {
    if lons == [] then []
    else LonCells(lat, lons[..|lons| - 1], choices) + LevelCells(lat, lons[|lons| - 1], choices)
  }

  /** The cells visited, in visiting order: latitude outermost. */
  function GridCells(lats: seq<real>, lons: seq<real>, choices: seq<Option<real>>): seq<Cell>
  {
    if lats == [] then []
    else GridCells(lats[..|lats| - 1], lons, choices) + LonCells(lats[|lats| - 1], lons, choices)
  }

  function PlanCells(plan: Plan): seq<Cell>
  {
    GridCells(plan.lats, plan.lons, LevelChoices(plan.levels))
  }

  /** The keyword values packed after each row: `lat`, `lon - shift_longitude`
      and, when there is one, `lev`. */
  function Extras(plan: Plan, c: Cell): seq<Field>
  {
    [Number(c.lat), Number(c.lon - plan.shift)] + (if c.level.Some? then [Number(c.level.value)] else [])
  }

  function Texts(ss: seq<string>): seq<Field>
  {
    seq(|ss|, i requires 0 <= i < |ss| => Text(ss[i]))
  }

  /** The rows one cell contributes: `pack_data_to_list(time_list, data_list, ...)`. */
  function CellRows(ds: Dataset, plan: Plan, c: Cell): seq<Row>
  {
    var s := ds.sel(plan.variable, c);
    Packed([Texts(s.times), Texts(s.values)], Extras(plan, c))
  }

  /** The rows of several cells, one cell after the other. */
  function RowsOf(ds: Dataset, plan: Plan, cells: seq<Cell>): (rows: seq<Row>)
    ensures TextKeyed(rows)
  {
    if cells == [] then []
    else
      var c := cells[|cells| - 1];
      CellRowsAt(ds, plan, c);
      RowsOf(ds, plan, cells[..|cells| - 1]) + CellRows(ds, plan, c)
  }

  /** `resulting_list` once the loops have finished. */
  function Extracted(ds: Dataset, plan: Plan): seq<Row>
  {
    RowsOf(ds, plan, PlanCells(plan))
  }

  /** The number of time steps the cells select, summed. */
  function Steps(ds: Dataset, plan: Plan, cells: seq<Cell>): nat
  {
    if cells == [] then 0
    else Steps(ds, plan, cells[..|cells| - 1]) + |ds.sel(plan.variable, cells[|cells| - 1]).times|
  }

  /** The row for time step `t` of cell `c`: timestamp, value, latitude,
      longitude in the caller's convention, and the level if any. */
  function RowAt(ds: Dataset, plan: Plan, c: Cell, t: nat): Row
    requires t < |ds.sel(plan.variable, c).times|
  {
    var s := ds.sel(plan.variable, c);
    [Text(s.times[t]), Text(s.values[t])] + Extras(plan, c)
  }

  /** One cell yields one row per time step, in time order. */
  lemma CellRowsAt(ds: Dataset, plan: Plan, c: Cell)
    ensures |CellRows(ds, plan, c)| == |ds.sel(plan.variable, c).times|
    ensures forall t :: 0 <= t < |CellRows(ds, plan, c)| ==> CellRows(ds, plan, c)[t] == RowAt(ds, plan, c, t)
  {
    var s := ds.sel(plan.variable, c);
    var cols := [Texts(s.times), Texts(s.values)];
    PackedRows(cols, Extras(plan, c));
    forall t | 0 <= t < |s.times| ensures CellRows(ds, plan, c)[t] == RowAt(ds, plan, c, t) {
      var row := CellRows(ds, plan, c)[t];
      assert row[0] == Text(s.times[t]) && row[1] == Text(s.values[t]);
      assert row == row[..2] + row[2..];
    }
  }

  lemma {:induction false} RowsOfAppend(ds: Dataset, plan: Plan, a: seq<Cell>, b: seq<Cell>)
    ensures RowsOf(ds, plan, a + b) == RowsOf(ds, plan, a) + RowsOf(ds, plan, b)
  {
    if b == [] {
      assert a + b == a;
    } else {
      var b' := b[..|b| - 1];
      assert (a + b)[..|a + b| - 1] == a + b';
      assert (a + b)[|a + b| - 1] == b[|b| - 1];
      RowsOfAppend(ds, plan, a, b');
    }
  }

  /** The total row count is the sum over cells of the time-series lengths. */
  lemma {:induction false} RowsOfLength(ds: Dataset, plan: Plan, cells: seq<Cell>)
    ensures |RowsOf(ds, plan, cells)| == Steps(ds, plan, cells)
  {
    if cells != [] {
      RowsOfLength(ds, plan, cells[..|cells| - 1]);
      CellRowsAt(ds, plan, cells[|cells| - 1]);
    }
  }

  /** Rows come cell by cell in visiting order: time step `t` of the `p`-th
      cell sits right after the rows of the cells before it. */
  lemma {:induction false} RowsOfAt(ds: Dataset, plan: Plan, cells: seq<Cell>, p: nat, t: nat)
    requires p < |cells|
    requires t < |ds.sel(plan.variable, cells[p]).times|
    ensures Steps(ds, plan, cells[..p]) + t < |RowsOf(ds, plan, cells)|
    ensures RowsOf(ds, plan, cells)[Steps(ds, plan, cells[..p]) + t] == RowAt(ds, plan, cells[p], t)
  {
    var n := |cells| - 1;
    var front := cells[..n];
    RowsOfLength(ds, plan, front);
    RowsOfLength(ds, plan, cells);
    CellRowsAt(ds, plan, cells[n]);
    if p == n {
      assert cells[..p] == front;
    } else {
      assert front[..p] == cells[..p];
      RowsOfAt(ds, plan, front, p, t);
    }
  }

  lemma {:induction false} LonCellsAt(lat: real, lons: seq<real>, choices: seq<Option<real>>, j: nat, k: nat)
    requires j < |lons| && k < |choices|
    ensures |LonCells(lat, lons, choices)| == |lons| * |choices|
    ensures j * |choices| + k < |lons| * |choices|
    ensures LonCells(lat, lons, choices)[j * |choices| + k] == Cell(lat, lons[j], choices[k])
  {
    var m := |choices|;
    var n := |lons| - 1;
    var front := lons[..n];
    var head := LonCells(lat, front, choices);
    var tail := LevelCells(lat, lons[n], choices);
    assert LonCells(lat, lons, choices) == head + tail;
    LonCellsLength(lat, front, choices);
    MulSucc(n, m);
    if j < n {
      LonCellsAt(lat, front, choices, j, k);
      assert front[j] == lons[j];
    } else {
      assert tail[k] == Cell(lat, lons[n], choices[k]);
    }
  }

  lemma MulSucc(n: nat, m: nat)
    ensures (n + 1) * m == n * m + m
  {
  }

  lemma {:induction false} GridCellsLength(lats: seq<real>, lons: seq<real>, choices: seq<Option<real>>)
    ensures |GridCells(lats, lons, choices)| == |lats| * (|lons| * |choices|)
  {
    var m := |lons| * |choices|;
    if lats != [] {
      var n := |lats| - 1;
      var front := GridCells(lats[..n], lons, choices);
      var last := LonCells(lats[n], lons, choices);
      assert GridCells(lats, lons, choices) == front + last;
      GridCellsLength(lats[..n], lons, choices);
      LonCellsLength(lats[n], lons, choices);
      MulSucc(n, m);
    }
  }

  lemma {:induction false} LonCellsLength(lat: real, lons: seq<real>, choices: seq<Option<real>>)
    ensures |LonCells(lat, lons, choices)| == |lons| * |choices|
  {
    if lons != [] {
      var n := |lons| - 1;
      LonCellsLength(lat, lons[..n], choices);
      MulSucc(n, |choices|);
    }
  }

  /** Visiting order is latitude-major, then longitude, then level: the cell
      for latitude `i`, longitude `j` and level `k` is number
      `i * (|lons| * |levels|) + j * |levels| + k`. */
  lemma {:induction false} GridCellsAt(lats: seq<real>, lons: seq<real>, choices: seq<Option<real>>, i: nat, j: nat, k: nat)
    requires i < |lats| && j < |lons| && k < |choices|
    ensures |GridCells(lats, lons, choices)| == |lats| * (|lons| * |choices|)
    ensures i * (|lons| * |choices|) + j * |choices| + k < |GridCells(lats, lons, choices)|
    ensures GridCells(lats, lons, choices)[i * (|lons| * |choices|) + j * |choices| + k]
         == Cell(lats[i], lons[j], choices[k])
  {
    var m := |lons| * |choices|;
    var n := |lats| - 1;
    var front := lats[..n];
    var within := j * |choices| + k;
    GridCellsLength(lats, lons, choices);
    GridCellsLength(front, lons, choices);
    LonCellsAt(lats[i], lons, choices, j, k);
    assert within < m;
    if i < n {
      GridCellsAt(front, lons, choices, i, j, k);
      assert front[i] == lats[i];
    } else {
      assert i * m == |front| * m;
    }
  }

  /** The position of the cell for latitude `i`, longitude `j` and level
      choice `k` in visiting order. */
  function CellIndex(plan: Plan, i: nat, j: nat, k: nat): nat
  {
    var m := |LevelChoices(plan.levels)|;
    i * (|plan.lons| * m) + j * m + k
  }

  lemma PlanCellsAt(plan: Plan, i: nat, j: nat, k: nat)
    requires i < |plan.lats| && j < |plan.lons| && k < |LevelChoices(plan.levels)|
    ensures CellIndex(plan, i, j, k) < |PlanCells(plan)|
    ensures PlanCells(plan)[CellIndex(plan, i, j, k)] == Cell(plan.lats[i], plan.lons[j], LevelChoices(plan.levels)[k])
  {
    GridCellsAt(plan.lats, plan.lons, LevelChoices(plan.levels), i, j, k);
  }

  lemma RowsOfSnoc(ds: Dataset, plan: Plan, cells: seq<Cell>, c: Cell)
    ensures RowsOf(ds, plan, cells + [c]) == RowsOf(ds, plan, cells) + CellRows(ds, plan, c)
  {
    assert (cells + [c])[..|cells|] == cells;
  }

  lemma LevelCellsSnoc(lat: real, lon: real, choices: seq<Option<real>>, k: nat)
    requires k < |choices|
    ensures LevelCells(lat, lon, choices[..k + 1]) == LevelCells(lat, lon, choices[..k]) + [Cell(lat, lon, choices[k])]
  {
  }

  lemma LonCellsSnoc(lat: real, lons: seq<real>, choices: seq<Option<real>>, j: nat)
    requires j < |lons|
    ensures LonCells(lat, lons[..j + 1], choices) == LonCells(lat, lons[..j], choices) + LevelCells(lat, lons[j], choices)
  {
    assert lons[..j + 1][..j] == lons[..j];
  }

  lemma GridCellsSnoc(lats: seq<real>, lons: seq<real>, choices: seq<Option<real>>, i: nat)
    requires i < |lats|
    ensures GridCells(lats[..i + 1], lons, choices) == GridCells(lats[..i], lons, choices) + LonCells(lats[i], lons, choices)
  {
    assert lats[..i + 1][..i] == lats[..i];
  }

  /** What one pass of the innermost loop appends is the next cell's rows. */
  lemma LevelStep(ds: Dataset, plan: Plan, lat: real, lon: real, choices: seq<Option<real>>, k: nat, lev: real)
    requires k < |choices| && choices[k] == Some(lev)
    ensures
      var s := ds.sel(plan.variable, Cell(lat, lon, Some(lev)));
      RowsOf(ds, plan, LevelCells(lat, lon, choices[..k + 1]))
        == RowsOf(ds, plan, LevelCells(lat, lon, choices[..k]))
           + Packed([Texts(s.times), Texts(s.values)], [Number(lat), Number(lon - plan.shift), Number(lev)])
  {
    var c := Cell(lat, lon, Some(lev));
    assert Extras(plan, c) == [Number(lat), Number(lon - plan.shift), Number(lev)];
    LevelCellsSnoc(lat, lon, choices, k);
    RowsOfSnoc(ds, plan, LevelCells(lat, lon, choices[..k]), c);
  }

  /** Without a level axis, one longitude contributes the rows of one cell. */
  lemma NoLevelStep(ds: Dataset, plan: Plan, lat: real, lon: real)
    ensures
      var s := ds.sel(plan.variable, Cell(lat, lon, None));
      RowsOf(ds, plan, LevelCells(lat, lon, [None]))
        == Packed([Texts(s.times), Texts(s.values)], [Number(lat), Number(lon - plan.shift)])
  {
    var c := Cell(lat, lon, None);
    assert Extras(plan, c) == [Number(lat), Number(lon - plan.shift)];
    assert LevelCells(lat, lon, [None]) == [] + [c];
    RowsOfSnoc(ds, plan, [], c);
  }

  /** One pass of the longitude loop appends the rows of that longitude's cells. */
  lemma LonStep(ds: Dataset, plan: Plan, lat: real, lons: seq<real>, choices: seq<Option<real>>, j: nat)
    requires j < |lons|
    ensures RowsOf(ds, plan, LonCells(lat, lons[..j + 1], choices))
         == RowsOf(ds, plan, LonCells(lat, lons[..j], choices)) + RowsOf(ds, plan, LevelCells(lat, lons[j], choices))
  {
    LonCellsSnoc(lat, lons, choices, j);
    RowsOfAppend(ds, plan, LonCells(lat, lons[..j], choices), LevelCells(lat, lons[j], choices));
  }

  /** One pass of the latitude loop appends the rows of that latitude's cells. */
  lemma LatStep(ds: Dataset, plan: Plan, lats: seq<real>, lons: seq<real>, choices: seq<Option<real>>, i: nat)
    requires i < |lats|
    ensures RowsOf(ds, plan, GridCells(lats[..i + 1], lons, choices))
         == RowsOf(ds, plan, GridCells(lats[..i], lons, choices)) + RowsOf(ds, plan, LonCells(lats[i], lons, choices))
  {
    GridCellsSnoc(lats, lons, choices, i);
    RowsOfAppend(ds, plan, GridCells(lats[..i], lons, choices), LonCells(lats[i], lons, choices));
  }

  /** The rows selected at one latitude and longitude: one pass without a
      level axis (lines 85-88), or the level loop (lines 92-96). */
  method PointRows(ds: Dataset, plan: Plan, lat: real, lon: real) returns (rows: seq<Row>)
    ensures rows == RowsOf(ds, plan, LevelCells(lat, lon, LevelChoices(plan.levels)))
  {
    var choices := LevelChoices(plan.levels);
    if plan.levels.None? {
      var s := ds.sel(plan.variable, Cell(lat, lon, None));
      rows := PackDataToList([Texts(s.times), Texts(s.values)], [Number(lat), Number(lon - plan.shift)]);
      NoLevelStep(ds, plan, lat, lon);
    } else {
      var levels := plan.levels.value;
      rows := [];
      assert choices[..0] == [];
      for k := 0 to |levels|
        invariant rows == RowsOf(ds, plan, LevelCells(lat, lon, choices[..k]))
      {
        var lev := levels[k];
        var s := ds.sel(plan.variable, Cell(lat, lon, Some(lev)));
        var packed := PackDataToList([Texts(s.times), Texts(s.values)], [Number(lat), Number(lon - plan.shift), Number(lev)]);
        LevelStep(ds, plan, lat, lon, choices, k, lev);
        rows := rows + packed;
      }
      assert choices[..|levels|] == choices;
    }
  }

  /** The longitude loop at one latitude (lines 84 and 91). */
  method LatitudeRows(ds: Dataset, plan: Plan, lat: real) returns (rows: seq<Row>)
    ensures rows == RowsOf(ds, plan, LonCells(lat, plan.lons, LevelChoices(plan.levels)))
  {
    var choices := LevelChoices(plan.levels);
    rows := [];
    assert plan.lons[..0] == [];
    for j := 0 to |plan.lons|
      invariant rows == RowsOf(ds, plan, LonCells(lat, plan.lons[..j], choices))
    {
      var point := PointRows(ds, plan, lat, plan.lons[j]);
      LonStep(ds, plan, lat, plan.lons, choices, j);
      rows := rows + point;
    }
    assert plan.lons[..|plan.lons|] == plan.lons;
  }

  /** The loops of `process_netcdf_file` (lines 82-96): latitude outermost,
      then longitude (`LatitudeRows`), then level (`PointRows`). */
  method ExtractRows(ds: Dataset, plan: Plan) returns (rows: seq<Row>)
    ensures rows == Extracted(ds, plan)
  {
    var choices := LevelChoices(plan.levels);
    rows := [];
    for i := 0 to |plan.lats|
      invariant rows == RowsOf(ds, plan, GridCells(plan.lats[..i], plan.lons, choices))
    {
      var latRows := LatitudeRows(ds, plan, plan.lats[i]);
      LatStep(ds, plan, plan.lats, plan.lons, choices, i);
      rows := rows + latRows;
    }
    assert plan.lats[..|plan.lats|] == plan.lats;
  }
}
