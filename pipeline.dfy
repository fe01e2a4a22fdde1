/** `process_netcdf_file`: validate the request against the dataset, walk
    the requested grid, and append the rows to per-date partition files. */
module Pipeline {
  import opened Model
  import opened Validation
  import opened Extraction
  import opened Writer

  /** `process_netcdf_file(fin, fout, **kwargs)` once the dataset is open: a
      rejected request raises before anything is written; an accepted one
      appends every extracted row to the partition file of its timestamp. */
  method ProcessNetcdfFile(store: FileStore, fout: string, req: Request, ds: Dataset, show: real -> string)
    returns (error: Option<Reason>)
    modifies store
    ensures Validate(req, ds).Err? ==>
      error == Some(Validate(req, ds).reason) && store.files == old(store.files)
    ensures Validate(req, ds).Ok? ==>
      error == None && store.files == SaveAll(old(store.files), fout, Extracted(ds, Validate(req, ds).value), show)
  {
    match Validate(req, ds)
    case Err(reason) =>
      error := Some(reason);
    case Ok(plan) =>
      var rows := ExtractRows(ds, plan);
      store.SaveByDate(fout, rows, show);
      error := None;
  }

  /** Where the row for time step `t` at latitude `i`, longitude `j` and
      level choice `k` sits in the extracted rows. */
  function RowIndex(ds: Dataset, plan: Plan, i: nat, j: nat, k: nat, t: nat): nat
    requires i < |plan.lats| && j < |plan.lons| && k < |LevelChoices(plan.levels)|
  {
    PlanCellsAt(plan, i, j, k);
    Steps(ds, plan, PlanCells(plan)[..CellIndex(plan, i, j, k)]) + t
  }

  /** The extracted row for time step `t` at latitude `i`, longitude `j`
      and level choice `k`. */
  lemma ExtractedRowAt(ds: Dataset, plan: Plan, i: nat, j: nat, k: nat, t: nat)
    requires i < |plan.lats| && j < |plan.lons| && k < |LevelChoices(plan.levels)|
    requires t < |ds.sel(plan.variable, Cell(plan.lats[i], plan.lons[j], LevelChoices(plan.levels)[k])).times|
    ensures RowIndex(ds, plan, i, j, k, t) < |Extracted(ds, plan)|
    ensures Extracted(ds, plan)[RowIndex(ds, plan, i, j, k, t)]
         == RowAt(ds, plan, Cell(plan.lats[i], plan.lons[j], LevelChoices(plan.levels)[k]), t)
  {
    PlanCellsAt(plan, i, j, k);
    RowsOfAt(ds, plan, PlanCells(plan), CellIndex(plan, i, j, k), t);
  }

  /** Every extracted row carries the caller's own coordinates: the
      requested latitude, the requested longitude in the caller's
      convention (the shift applied for lookup is undone exactly), and the
      requested level when the dataset has a level axis. */
  lemma RowsEchoRequest(req: Request, ds: Dataset, plan: Plan, i: nat, j: nat, k: nat, t: nat)
    requires Validate(req, ds) == Ok(plan)
    requires i < |plan.lats| && j < |plan.lons| && k < |LevelChoices(plan.levels)|
    requires t < |ds.sel(plan.variable, Cell(plan.lats[i], plan.lons[j], LevelChoices(plan.levels)[k])).times|
    ensures RowIndex(ds, plan, i, j, k, t) < |Extracted(ds, plan)|
    ensures
      var s := ds.sel(plan.variable, Cell(plan.lats[i], plan.lons[j], LevelChoices(plan.levels)[k]));
      Extracted(ds, plan)[RowIndex(ds, plan, i, j, k, t)]
        == [Text(s.times[t]), Text(s.values[t]), Number(req.latitude.value[i]), Number(req.longitude.value[j])]
           + (if "level" in ds.coords then [Number(req.level.value[k])] else [])
  {
    ExtractedRowAt(ds, plan, i, j, k, t);
    var c := Cell(plan.lats[i], plan.lons[j], LevelChoices(plan.levels)[k]);
    assert c.lon - plan.shift == req.longitude.value[j];
    assert c.level == (if "level" in ds.coords then Some(req.level.value[k]) else None);
  }

  /** Rerunning on the same input is not idempotent: every partition file
      receives its lines a second time. */
  lemma RerunAppendsDuplicates(files: map<string, string>, fout: string, rows: seq<Row>, show: real -> string, name: string)
    requires TextKeyed(rows)
    ensures Content(SaveAll(SaveAll(files, fout, rows, show), fout, rows, show), name)
         == Content(files, name) + Lines(FileRows(rows, fout, name), show) + Lines(FileRows(rows, fout, name), show)
  {
    SaveAllContent(files, fout, rows, show, name);
    SaveAllContent(SaveAll(files, fout, rows, show), fout, rows, show, name);
  }
}
