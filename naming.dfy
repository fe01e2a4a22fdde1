/** The two ways the script names files: the per-timestamp partition file
    of `save_all_to_csv_files_by_date` and the per-input output name of
    `get_out_file_name`. */
module Naming {
  import opened Model
  import opened PyText

  /** The partition file a group with key `key` is appended to: the output
      path with `_` and the part of the key before its first `:` inserted
      before the path's last `.`. */
  function OutputName(fout: string, key: string): string
  {
    Prefix(fout, RFind(fout, '.')) + "_" + Prefix(key, Find(key, ':'))
      + Suffix(fout, RFind(fout, '.'))
  }

  /** The shape the script is written for: an output path with an extension
      and a timestamp key. The extension is kept and the key's text before
      its first `:` (date and hour of an ISO timestamp) is inserted before it. */
  lemma OutputNameKeepsExtension(stem: string, ext: string, date: string, rest: string)
    requires '.' !in ext && ':' !in date
    ensures OutputName(stem + "." + ext, date + ":" + rest) == stem + "_" + date + "." + ext
  {
    SplitAtLastDot(stem, ext);
    SplitAtFirstColon(date, rest);
  }

  /** An output path without `.`: `rfind` gives -1, so the stem loses its
      last character and that character becomes the "extension". */
  lemma OutputNameWithoutDot(fout: string, key: string)
    requires '.' !in fout && fout != []
    ensures OutputName(fout, key)
         == fout[..|fout| - 1] + "_" + Prefix(key, Find(key, ':')) + [fout[|fout| - 1]]
  {
    assert fout[|fout| - 1..] == [fout[|fout| - 1]];
  }

  /** A key without `:`: `find` gives -1, so the inserted part is the key
      without its last character. */
  lemma OutputNameWithoutColon(fout: string, key: string)
    requires ':' !in key && key != []
    ensures OutputName(fout, key)
         == Prefix(fout, RFind(fout, '.')) + "_" + key[..|key| - 1] + Suffix(fout, RFind(fout, '.'))
  {
  }

  /** Keys with different dates go to different files, and every key with
      the same date (for instance two times within one hour) goes to the
      same one. */
  lemma OutputNameSeparatesDates(stem: string, ext: string, d1: string, r1: string, d2: string, r2: string)
    requires '.' !in ext && ':' !in d1 && ':' !in d2
    ensures OutputName(stem + "." + ext, d1 + ":" + r1) == OutputName(stem + "." + ext, d2 + ":" + r2)
        <==> d1 == d2
  {
    OutputNameKeepsExtension(stem, ext, d1, r1);
    OutputNameKeepsExtension(stem, ext, d2, r2);
    assert stem + "_" + d1 + "." + ext == (stem + "_") + d1 + ("." + ext);
    assert stem + "_" + d2 + "." + ext == (stem + "_") + d2 + ("." + ext);
    InsertedPart(stem + "_", d1, d2, "." + ext);
  }

  /** Text inserted between a fixed head and a fixed tail is recovered
      from the whole. */
  lemma InsertedPart(head: string, x: string, y: string, tail: string)
    ensures head + x + tail == head + y + tail <==> x == y
  {
    var n1 := head + x + tail;
    var n2 := head + y + tail;
    if n1 == n2 {
      assert n1[|head|..|head| + |x|] == x;
      assert n2[|head|..|head| + |y|] == y;
    }
  }

  /** `get_out_file_name`: the basename of the input path without its last
      extension, then `_`, the variable, `_`, the first level rendered by
      `show`, and `.dat`. `data` and `level` are looked up in that order
      (`KeyError`), then `level[0]` (`IndexError`). */
  function GetOutFileName(path: string, req: Request, show: real -> string): (r: Result<string>)
    ensures r.Ok? <==> req.data.Some? && req.level.Some? && |req.level.value| > 0
    ensures req.data.None? ==> r == Err(NoDataArg)
    ensures req.data.Some? && req.level.None? ==> r == Err(NoLevelArg)
    ensures req.data.Some? && req.level.Some? && req.level.value == [] ==> r == Err(EmptyLevelArg)
    ensures r.Ok? ==>
      var tail := "_" + req.data.value + "_" + show(req.level.value[0]) + ".dat";
      |tail| <= |r.value| && r.value[|r.value| - |tail|..] == tail
  {
    if req.data.None? then Err(NoDataArg)
    else if req.level.None? then Err(NoLevelArg)
    else if req.level.value == [] then Err(EmptyLevelArg)
    else
      var base := Basename(path);
      var tail := "_" + req.data.value + "_" + show(req.level.value[0]) + ".dat";
      EndsWith(Prefix(base, RFind(base, '.')), tail);
      Ok(Prefix(base, RFind(base, '.')) + tail)
  }

  lemma EndsWith(head: string, tail: string)
    ensures (head + tail)[|head + tail| - |tail|..] == tail
  {
  }

  /** For an input `dir/stem.ext` the name is built from `stem` alone: the
      directory and the last extension are dropped. */
  lemma GetOutFileNameOfPath(dir: string, stem: string, ext: string, req: Request, show: real -> string)
    requires dir == [] || dir[|dir| - 1] == '/'
    requires '/' !in stem && '/' !in ext && '.' !in ext
    requires req.data.Some? && req.level.Some? && |req.level.value| > 0
    ensures GetOutFileName(dir + stem + "." + ext, req, show)
         == Ok(stem + "_" + req.data.value + "_" + show(req.level.value[0]) + ".dat")
  {
    var name := stem + "." + ext;
    var path := dir + stem + "." + ext;
    assert '/' !in name;
    assert path == dir + name;
    BasenameOfPath(dir, name);
    SplitAtLastDot(stem, ext);
    var d := req.data.value;
    var l := show(req.level.value[0]);
    var tail := "_" + d + "_" + l + ".dat";
    assert GetOutFileName(path, req, show) == Ok(Prefix(name, RFind(name, '.')) + tail);
    assert Prefix(name, RFind(name, '.')) == stem;
    Regroup(stem, "_", d, "_", l, ".dat");
  }

  /** For an input whose basename has no `.`, `rfind` gives -1 and the
      slice `[:-1]` drops the basename's last character. */
  lemma GetOutFileNameWithoutDot(dir: string, name: string, req: Request, show: real -> string)
    requires dir == [] || dir[|dir| - 1] == '/'
    requires '/' !in name && '.' !in name && name != []
    requires req.data.Some? && req.level.Some? && |req.level.value| > 0
    ensures GetOutFileName(dir + name, req, show)
         == Ok(name[..|name| - 1] + "_" + req.data.value + "_" + show(req.level.value[0]) + ".dat")
  {
    BasenameOfPath(dir, name);
    var d := req.data.value;
    var l := show(req.level.value[0]);
    var tail := "_" + d + "_" + l + ".dat";
    assert GetOutFileName(dir + name, req, show) == Ok(Prefix(name, RFind(name, '.')) + tail);
    assert Prefix(name, RFind(name, '.')) == name[..|name| - 1];
    Regroup(name[..|name| - 1], "_", d, "_", l, ".dat");
  }

  lemma Regroup(a: string, b: string, c: string, d: string, e: string, f: string)
    ensures a + (b + c + d + e + f) == a + b + c + d + e + f
  {
  }
}
