/** The checks `process_netcdf_file` makes before it extracts anything, and
    the longitude-convention shift it derives from the dataset. */
module Validation {
  import opened Model

  /** 180 when the dataset's first longitude is exactly 0 (a 0..360 grid),
      otherwise 0: requested longitudes are moved by this much for lookup. */
  function LongitudeShift(lonAxis: seq<real>): real
    requires |lonAxis| > 0
  {
    if lonAxis[0] == 0.0 then 180.0 else 0.0
  }

  /** `list(map(lambda coord: coord + shift, lons))` */
  function ShiftAll(lons: seq<real>, shift: real): seq<real>
  {
    seq(|lons|, i requires 0 <= i < |lons| => lons[i] + shift)
  }

  /** `set(xs).issubset(set(ys))` */
  predicate IsSubset(xs: seq<real>, ys: seq<real>)
  {
    (set x | x in xs) <= (set y | y in ys)
  }

  /** The subset test on lists is membership of every element. */
  lemma SubsetMeansMembers(xs: seq<real>, ys: seq<real>)
    ensures IsSubset(xs, ys) <==> forall x :: x in xs ==> x in ys
  {
    var a := set x | x in xs;
    var b := set y | y in ys;
    if forall x :: x in xs ==> x in ys {
      assert a <= b;
    } else {
      var x :| x in xs && x !in ys;
      assert x in a && x !in b;
    }
  }

  /** Shifted longitudes are on the axis exactly when every requested one
      is, once moved by the shift. */
  lemma ShiftedSubsetMeansMembers(lons: seq<real>, shift: real, ys: seq<real>)
    ensures IsSubset(ShiftAll(lons, shift), ys) <==> forall x :: x in lons ==> x + shift in ys
  {
    var moved := ShiftAll(lons, shift);
    SubsetMeansMembers(moved, ys);
    if forall x :: x in lons ==> x + shift in ys {
      forall y | y in moved ensures y in ys {
        var i :| 0 <= i < |moved| && moved[i] == y;
        assert lons[i] in lons;
      }
    } else {
      var x :| x in lons && x + shift !in ys;
      var i :| 0 <= i < |lons| && lons[i] == x;
      assert moved[i] in moved;
    }
  }

  /** What extraction works from once every check has passed. `lons` are in
      the dataset's convention; `levels` is present exactly when the dataset
      has a `level` axis. */
  datatype Plan = Plan(
    lats: seq<real>,
    lons: seq<real>,
    levels: Option<seq<real>>,
    variable: string,
    shift: real)

  /** The order in which the checks run. */
  const CHECKS: seq<Reason> := [
    NoLatitudeArg, NoLongitudeArg, NoDataArg,
    NoLatitudeAxis, NoLongitudeAxis, NoTimeAxis,
    EmptyLongitudeAxis,
    LatitudeNotFound, LongitudeNotFound, VariableNotFound,
    NoLevelArg, LevelNotFound]

  /** The condition each check rejects, stated on its own, in terms of
      membership of single coordinates. */
  predicate Violated(r: Reason, req: Request, ds: Dataset)
  {
    match r
    case NoLatitudeArg => req.latitude.None?
    case NoLongitudeArg => req.longitude.None?
    case NoDataArg => req.data.None?
    case NoLatitudeAxis => "latitude" !in ds.coords
    case NoLongitudeAxis => "longitude" !in ds.coords
    case NoTimeAxis => "time" !in ds.coords
    case EmptyLongitudeAxis => "longitude" in ds.coords && ds.coords["longitude"] == []
    case LatitudeNotFound =>
      req.latitude.Some? && "latitude" in ds.coords &&
      exists x :: x in req.latitude.value && x !in ds.coords["latitude"]
    case LongitudeNotFound =>
      req.longitude.Some? && "longitude" in ds.coords && ds.coords["longitude"] != [] &&
      exists x :: x in req.longitude.value &&
        x + LongitudeShift(ds.coords["longitude"]) !in ds.coords["longitude"]
    case VariableNotFound => req.data.Some? && req.data.value !in ds.dataVars
    case NoLevelArg => "level" in ds.coords && req.level.None?
    case LevelNotFound =>
      "level" in ds.coords && req.level.Some? &&
      exists x :: x in req.level.value && x !in ds.coords["level"]
    case EmptyLevelArg => false
  }

  /** Every check of `process_netcdf_file`, in the order the source makes
      them; the first one that fails decides the error. */
  function Validate(req: Request, ds: Dataset): (r: Result<Plan>)
    ensures r.Ok? ==>
      && req.latitude.Some? && req.longitude.Some? && req.data.Some?
      && r.value.lats == req.latitude.value
      && r.value.variable == req.data.value
      && r.value.variable in ds.dataVars
      && "longitude" in ds.coords && |ds.coords["longitude"]| > 0
      && r.value.shift == (if ds.coords["longitude"][0] == 0.0 then 180.0 else 0.0)
      && |r.value.lons| == |req.longitude.value|
      && (forall i :: 0 <= i < |r.value.lons| ==>
            r.value.lons[i] - r.value.shift == req.longitude.value[i])
      && r.value.levels == (if "level" in ds.coords then req.level else None)
      && ("level" in ds.coords ==> req.level.Some?)
    ensures r.Ok? ==>
      && "latitude" in ds.coords && "time" in ds.coords
      && (forall x :: x in r.value.lats ==> x in ds.coords["latitude"])
      && (forall x :: x in r.value.lons ==> x in ds.coords["longitude"])
      && (r.value.levels.Some? ==>
            "level" in ds.coords && forall x :: x in r.value.levels.value ==> x in ds.coords["level"])
  {
    if req.latitude.None? then Err(NoLatitudeArg)
    else if req.longitude.None? then Err(NoLongitudeArg)
    else if req.data.None? then Err(NoDataArg)
    else if "latitude" !in ds.coords then Err(NoLatitudeAxis)
    else if "longitude" !in ds.coords then Err(NoLongitudeAxis)
    else if "time" !in ds.coords then Err(NoTimeAxis)
    else if |ds.coords["longitude"]| == 0 then Err(EmptyLongitudeAxis)
    else
      var shift := LongitudeShift(ds.coords["longitude"]);
      var lons := ShiftAll(req.longitude.value, shift);
      if !IsSubset(req.latitude.value, ds.coords["latitude"]) then Err(LatitudeNotFound)
      else if !IsSubset(lons, ds.coords["longitude"]) then Err(LongitudeNotFound)
      else if req.data.value !in ds.dataVars then Err(VariableNotFound)
      else if "level" in ds.coords && req.level.None? then Err(NoLevelArg)
      else if "level" in ds.coords && !IsSubset(req.level.value, ds.coords["level"]) then Err(LevelNotFound)
      else
        var levels := if "level" in ds.coords then req.level else None;
        SubsetMeansMembers(req.latitude.value, ds.coords["latitude"]);
        SubsetMeansMembers(lons, ds.coords["longitude"]);
        var hasLevel := "level" in ds.coords;
        SubsetMeansMembers(if hasLevel then req.level.value else [], if hasLevel then ds.coords["level"] else []);
        Ok(Plan(req.latitude.value, lons, levels, req.data.value, shift))
  }

  /** The subset tests of `Validate` restated as membership of single
      coordinates, wherever they are made. */
  lemma SubsetsAsMembers(req: Request, ds: Dataset)
    ensures req.latitude.Some? && "latitude" in ds.coords ==>
      (IsSubset(req.latitude.value, ds.coords["latitude"]) <==>
       forall x :: x in req.latitude.value ==> x in ds.coords["latitude"])
    ensures req.longitude.Some? && "longitude" in ds.coords && ds.coords["longitude"] != [] ==>
      var shift := LongitudeShift(ds.coords["longitude"]);
      (IsSubset(ShiftAll(req.longitude.value, shift), ds.coords["longitude"]) <==>
       forall x :: x in req.longitude.value ==> x + shift in ds.coords["longitude"])
    ensures req.level.Some? && "level" in ds.coords ==>
      (IsSubset(req.level.value, ds.coords["level"]) <==>
       forall x :: x in req.level.value ==> x in ds.coords["level"])
  {
    if req.latitude.Some? && "latitude" in ds.coords {
      SubsetMeansMembers(req.latitude.value, ds.coords["latitude"]);
    }
    if req.longitude.Some? && "longitude" in ds.coords && ds.coords["longitude"] != [] {
      ShiftedSubsetMeansMembers(req.longitude.value, LongitudeShift(ds.coords["longitude"]), ds.coords["longitude"]);
    }
    if req.level.Some? && "level" in ds.coords {
      SubsetMeansMembers(req.level.value, ds.coords["level"]);
    }
  }

  /** Validation accepts exactly the requests that violate none of the
      checks. */
  lemma ValidateAcceptsExactly(req: Request, ds: Dataset)
    ensures Validate(req, ds).Ok? <==> forall c :: c in CHECKS ==> !Violated(c, req, ds)
  {
    SubsetsAsMembers(req, ds);
    if Validate(req, ds).Ok? {
      forall c | c in CHECKS ensures !Violated(c, req, ds) {
        match c
        case _ =>
      }
    } else {
      var e := Validate(req, ds).reason;
      assert e in CHECKS && Violated(e, req, ds);
    }
  }

  /** A rejection names the first check, in source order, that is
      violated: every earlier check passed. */
  lemma ValidateReportsFirstViolation(req: Request, ds: Dataset)
    ensures Validate(req, ds).Err? ==>
      var e := Validate(req, ds).reason;
      && e in CHECKS
      && Violated(e, req, ds)
      && forall q :: 0 <= q < |CHECKS| && CHECKS[q] == e ==>
           forall c :: c in CHECKS[..q] ==> !Violated(c, req, ds)
  {
    SubsetsAsMembers(req, ds);
    if Validate(req, ds).Err? {
      var e := Validate(req, ds).reason;
      assert e in CHECKS && Violated(e, req, ds);
      forall q | 0 <= q < |CHECKS| && CHECKS[q] == e
        ensures forall c :: c in CHECKS[..q] ==> !Violated(c, req, ds)
      {
        forall c | c in CHECKS[..q] ensures !Violated(c, req, ds) {
          match c
          case _ =>
        }
      }
    }
  }
}
