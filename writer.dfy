/** The writers: `save_all_to_csv_file` appends one line per row to a file,
    and `save_all_to_csv_files_by_date` appends each timestamp group to its
    own partition file. Files are a map from name to content; opening in
    `'a'` mode creates a missing file empty and keeps an existing one. */
module Writer {
  import opened Model
  import opened PyText
  import opened Grouping
  import opened Naming

  /** `CSV_DELIMETER`: four spaces, since the `csv` module only takes one
      character. */
  const DELIMITER: string := "    "
  /** `CSV_EOL` */
  const EOL: string := "\n"

  /** `str(val)`: text is written as it is; a coordinate is rendered by
      `show`, which stands for Python's `str` of the coordinate; the model
      does not tell an `int` coordinate from a `float` one. */
  function FieldText(f: Field, show: real -> string): string
  {
    match f
    case Text(s) => s
    case Number(x) => show(x)
  }

  function FieldTexts(row: Row, show: real -> string): seq<string>
  {
    seq(|row|, i requires 0 <= i < |row| => FieldText(row[i], show))
  }

  /** The line written for one row: its fields joined by the delimiter,
      then the end of line. */
  function Line(row: Row, show: real -> string): string
  {
    Join(FieldTexts(row, show), DELIMITER) + EOL
  }

  /** The lines of several rows, one after the other. */
  function Lines(rows: seq<Row>, show: real -> string): string
  {
    if rows == [] then ""
    else Lines(rows[..|rows| - 1], show) + Line(rows[|rows| - 1], show)
  }

  /** What a file holds; a missing file reads as empty. */
  function Content(files: map<string, string>, name: string): string
  {
    if name in files then files[name] else ""
  }

  /** Open `name` in append mode and write `s` to it. */
  function AppendTo(files: map<string, string>, name: string, s: string): map<string, string>
  {
    files[name := Content(files, name) + s]
  }

  /** Every key of text-keyed rows is text. */
  lemma KeysAreText(rows: seq<Row>)
    requires TextKeyed(rows)
    ensures forall j :: 0 <= j < |KeysOf(rows)| ==> KeysOf(rows)[j].Text?
  {
    KeysOfCover(rows);
    forall j | 0 <= j < |KeysOf(rows)| ensures KeysOf(rows)[j].Text? {
      var k := KeysOf(rows)[j];
      assert k in KeysOf(rows);
      var i :| 0 <= i < |rows| && rows[i][0] == k;
    }
  }

  predicate TextKeys(keys: seq<Field>)
  {
    forall j :: 0 <= j < |keys| ==> keys[j].Text?
  }

  /** The files after the groups of `keys` have been appended, in key order,
      each to the partition file its key names. */
  function SaveGroups(files: map<string, string>, fout: string, rows: seq<Row>, keys: seq<Field>,
                      show: real -> string): map<string, string>
    requires Keyed(rows) && TextKeys(keys)
  {
    if keys == [] then files
    else
      var k := keys[|keys| - 1];
      AppendTo(SaveGroups(files, fout, rows, keys[..|keys| - 1], show),
               OutputName(fout, k.s), Lines(GroupOf(rows, k), show))
  }

  /** `save_all_to_csv_files_by_date` as a value: the rows grouped by their
      first field, each group appended to its partition file in the order
      the keys were first met. */
  function SaveAll(files: map<string, string>, fout: string, rows: seq<Row>, show: real -> string): map<string, string>
    requires TextKeyed(rows)
  {
    KeysAreText(rows);
    SaveGroups(files, fout, rows, KeysOf(rows), show)
  }

  /** The rows of the groups of `keys` whose partition file is `name`, in
      the order they are written there. */
  function RowsFor(rows: seq<Row>, fout: string, keys: seq<Field>, name: string): seq<Row>
    requires Keyed(rows) && TextKeys(keys)
  {
    if keys == [] then []
    else
      var k := keys[|keys| - 1];
      RowsFor(rows, fout, keys[..|keys| - 1], name)
        + (if OutputName(fout, k.s) == name then GroupOf(rows, k) else [])
  }

  /** The rows a partition file should end up holding, straight from the
      input: those whose own timestamp names that file. */
  function RowsNamed(rows: seq<Row>, fout: string, name: string): seq<Row>
    requires TextKeyed(rows)
  {
    if rows == [] then []
    else
      var r := rows[|rows| - 1];
      RowsNamed(rows[..|rows| - 1], fout, name) + (if OutputName(fout, r[0].s) == name then [r] else [])
  }

  /** Writing rows one batch after another writes their lines in order. */
  lemma {:induction false} LinesAppend(a: seq<Row>, b: seq<Row>, show: real -> string)
    ensures Lines(a + b, show) == Lines(a, show) + Lines(b, show)
    decreases |b|
  {
    if b == [] {
      assert a + b == a;
    } else {
      var front := b[..|b| - 1];
      var last := b[|b| - 1];
      assert b == front + [last];
      assert a + b == (a + front) + [last];
      LinesAppend(a, front, show);
      LinesSnoc(a + front, last, show);
      LinesSnoc(front, last, show);
      assert Lines(a, show) + Lines(front, show) + Line(last, show)
          == Lines(a, show) + (Lines(front, show) + Line(last, show));
    }
  }

  lemma AppendToTwice(files: map<string, string>, name: string, s: string, t: string)
    ensures AppendTo(AppendTo(files, name, s), name, t) == AppendTo(files, name, s + t)
  {
    assert Content(files, name) + s + t == Content(files, name) + (s + t);
  }

  /** Appending to one file changes that file's content only. */
  lemma ContentAfterAppend(files: map<string, string>, name: string, s: string, other: string)
    ensures Content(AppendTo(files, name, s), other)
         == if other == name then Content(files, name) + s else Content(files, other)
    ensures other in AppendTo(files, name, s) <==> other == name || other in files
  {
  }

  lemma LinesSnoc(rows: seq<Row>, r: Row, show: real -> string)
    ensures Lines(rows + [r], show) == Lines(rows, show) + Line(r, show)
  {
    assert (rows + [r])[..|rows|] == rows;
  }

  lemma LinesOfPrefix(rows: seq<Row>, i: nat, show: real -> string)
    requires i < |rows|
    ensures Lines(rows[..i + 1], show) == Lines(rows[..i], show) + Line(rows[i], show)
  {
    assert rows[..i + 1][..i] == rows[..i];
  }

  lemma ContentThenLines(c: string, a: seq<Row>, b: seq<Row>, show: real -> string)
    ensures c + Lines(a, show) + Lines(b, show) == c + Lines(a + b, show)
  {
    LinesAppend(a, b, show);
    assert c + Lines(a, show) + Lines(b, show) == c + (Lines(a, show) + Lines(b, show));
  }

  /** Every file ends up holding its old content followed by the lines of
      the rows destined for it, and nothing else. */
  lemma {:induction false} SavedContent(files: map<string, string>, fout: string, rows: seq<Row>,
                                        keys: seq<Field>, show: real -> string, name: string)
    requires Keyed(rows) && TextKeys(keys)
    ensures Content(SaveGroups(files, fout, rows, keys, show), name)
         == Content(files, name) + Lines(RowsFor(rows, fout, keys, name), show)
  {
    if keys == [] {
    } else {
      var front := keys[..|keys| - 1];
      var k := keys[|keys| - 1];
      var target := OutputName(fout, k.s);
      var before := SaveGroups(files, fout, rows, front, show);
      var done := RowsFor(rows, fout, front, name);
      assert SaveGroups(files, fout, rows, keys, show) == AppendTo(before, target, Lines(GroupOf(rows, k), show));
      SavedContent(files, fout, rows, front, show, name);
      ContentAfterAppend(before, target, Lines(GroupOf(rows, k), show), name);
      if target == name {
        assert RowsFor(rows, fout, keys, name) == done + GroupOf(rows, k);
        ContentThenLines(Content(files, name), done, GroupOf(rows, k), show);
      } else {
        assert RowsFor(rows, fout, keys, name) == done + [];
        assert done + [] == done;
      }
    }
  }

  /** The partition files the keys name. */
  function KeyFiles(fout: string, keys: seq<Field>): set<string>
    requires TextKeys(keys)
  {
    if keys == [] then {}
    else KeyFiles(fout, keys[..|keys| - 1]) + {OutputName(fout, keys[|keys| - 1].s)}
  }

  /** The partition files the rows' own timestamps name. */
  function RowFiles(fout: string, rows: seq<Row>): set<string>
    requires TextKeyed(rows)
  {
    set i | 0 <= i < |rows| :: OutputName(fout, rows[i][0].s)
  }

  /** The files that exist afterwards are the old ones and the partition
      file of every key; no other file is created. */
  lemma {:induction false} SavedNames(files: map<string, string>, fout: string, rows: seq<Row>,
                                      keys: seq<Field>, show: real -> string)
    requires Keyed(rows) && TextKeys(keys)
    ensures SaveGroups(files, fout, rows, keys, show).Keys == files.Keys + KeyFiles(fout, keys)
  {
    if keys != [] {
      var front := keys[..|keys| - 1];
      var k := keys[|keys| - 1];
      var before := SaveGroups(files, fout, rows, front, show);
      assert SaveGroups(files, fout, rows, keys, show)
          == AppendTo(before, OutputName(fout, k.s), Lines(GroupOf(rows, k), show));
      SavedNames(files, fout, rows, front, show);
    }
  }

  lemma RowFilesSnoc(fout: string, rows: seq<Row>, r: Row)
    requires TextKeyed(rows) && |r| > 0 && r[0].Text?
    ensures TextKeyed(rows + [r])
    ensures RowFiles(fout, rows + [r]) == RowFiles(fout, rows) + {OutputName(fout, r[0].s)}
  {
    var all := rows + [r];
    forall n | n in RowFiles(fout, all) ensures n in RowFiles(fout, rows) + {OutputName(fout, r[0].s)} {
      var i :| 0 <= i < |all| && OutputName(fout, all[i][0].s) == n;
      if i < |rows| {
        assert all[i] == rows[i];
      }
    }
    forall n | n in RowFiles(fout, rows) ensures n in RowFiles(fout, all) {
      var i :| 0 <= i < |rows| && OutputName(fout, rows[i][0].s) == n;
      assert all[i] == rows[i];
    }
    assert all[|rows|] == r;
  }

  /** The files the keys name are the files the rows name. */
  lemma {:induction false} KeyFilesAreRowFiles(fout: string, rows: seq<Row>)
    requires TextKeyed(rows)
    ensures TextKeys(KeysOf(rows))
    ensures KeyFiles(fout, KeysOf(rows)) == RowFiles(fout, rows)
  {
    KeysAreText(rows);
    if rows != [] {
      var front := rows[..|rows| - 1];
      var r := rows[|rows| - 1];
      assert rows == front + [r];
      KeyFilesAreRowFiles(fout, front);
      RowFilesSnoc(fout, front, r);
      KeysOfSnoc(front, r);
      var ks := KeysOf(front);
      if r[0] in ks {
        var i := KeyFromRow(front, r[0]);
        assert OutputName(fout, front[i][0].s) in RowFiles(fout, front);
      } else {
        KeyFilesSnoc(fout, ks, r[0]);
      }
    }
  }

  lemma KeyFilesSnoc(fout: string, keys: seq<Field>, k: Field)
    requires TextKeys(keys) && k.Text?
    ensures TextKeys(keys + [k])
    ensures KeyFiles(fout, keys + [k]) == KeyFiles(fout, keys) + {OutputName(fout, k.s)}
  {
    assert (keys + [k])[..|keys|] == keys;
  }

  lemma RowsForSnocKey(rows: seq<Row>, fout: string, ks: seq<Field>, k: Field, name: string)
    requires Keyed(rows) && TextKeys(ks) && k.Text?
    ensures TextKeys(ks + [k])
    ensures RowsFor(rows, fout, ks + [k], name)
         == RowsFor(rows, fout, ks, name) + (if OutputName(fout, k.s) == name then GroupOf(rows, k) else [])
  {
    assert (ks + [k])[..|ks|] == ks;
  }

  /** One more row reaches the file `name` exactly when its key is among
      `ks` and names that file. */
  lemma {:induction false} RowsForSnoc(rows: seq<Row>, r: Row, fout: string, ks: seq<Field>, name: string)
    requires Keyed(rows) && |r| > 0 && r[0].Text? && TextKeys(ks) && Distinct(ks)
    ensures Keyed(rows + [r])
    ensures multiset(RowsFor(rows + [r], fout, ks, name))
         == multiset(RowsFor(rows, fout, ks, name))
            + if r[0] in ks && OutputName(fout, r[0].s) == name then multiset{r} else multiset{}
    decreases |ks|
  {
    GroupOfSnoc(rows, r, r[0]);
    if ks != [] {
      var front := ks[..|ks| - 1];
      var k := ks[|ks| - 1];
      assert ks == front + [k];
      assert TextKeys(front);
      RowsForSnoc(rows, r, fout, front, name);
      GroupOfSnoc(rows, r, k);
      RowsForSnocKey(rows, fout, front, k, name);
      RowsForSnocKey(rows + [r], fout, front, k, name);
      var hit := OutputName(fout, k.s) == name;
      var inFront := r[0] in front && OutputName(fout, r[0].s) == name;
      var isLast := r[0] == k && hit;
      ConcatGrows(RowsFor(rows + [r], fout, front, name), RowsFor(rows, fout, front, name),
                  if hit then GroupOf(rows + [r], k) else [], if hit then GroupOf(rows, k) else [],
                  if inFront then multiset{r} else multiset{},
                  if isLast then multiset{r} else multiset{});
      assert !(inFront && isLast);
      assert (r[0] in ks && OutputName(fout, r[0].s) == name) == (inFront || isLast);
    }
  }

  /** The rows `SaveAll` appends to the file `name`, in writing order. */
  function FileRows(rows: seq<Row>, fout: string, name: string): seq<Row>
    requires TextKeyed(rows)
  {
    KeysAreText(rows);
    RowsFor(rows, fout, KeysOf(rows), name)
  }

  lemma RowsNamedSnoc(rows: seq<Row>, r: Row, fout: string, name: string)
    requires TextKeyed(rows) && |r| > 0 && r[0].Text?
    ensures TextKeyed(rows + [r])
    ensures RowsNamed(rows + [r], fout, name)
         == RowsNamed(rows, fout, name) + (if OutputName(fout, r[0].s) == name then [r] else [])
  {
    assert (rows + [r])[..|rows|] == rows;
  }

  /** The step of `FilesPartitionRows` for a row whose key is new. */
  lemma FileRowsNewKey(front: seq<Row>, r: Row, fout: string, name: string)
    requires TextKeyed(front) && |r| > 0 && r[0].Text? && r[0] !in KeysOf(front)
    ensures TextKeyed(front + [r])
    ensures multiset(FileRows(front + [r], fout, name))
         == multiset(FileRows(front, fout, name)) + if OutputName(fout, r[0].s) == name then multiset{r} else multiset{}
  {
    var rows := front + [r];
    KeysOfSnoc(front, r);
    KeysDistinct(front);
    KeysAreText(front);
    var ks := KeysOf(front);
    RowsForSnoc(front, r, fout, ks, name);
    assert KeysOf(rows) == ks + [r[0]];
    GroupOfAbsent(front, r[0]);
    GroupOfSnoc(front, r, r[0]);
    RowsForSnocKey(rows, fout, ks, r[0], name);
  }

  /** The step of `FilesPartitionRows` for a row whose key was met before. */
  lemma FileRowsOldKey(front: seq<Row>, r: Row, fout: string, name: string)
    requires TextKeyed(front) && |r| > 0 && r[0].Text? && r[0] in KeysOf(front)
    ensures TextKeyed(front + [r])
    ensures multiset(FileRows(front + [r], fout, name))
         == multiset(FileRows(front, fout, name)) + if OutputName(fout, r[0].s) == name then multiset{r} else multiset{}
  {
    var rows := front + [r];
    KeysOfSnoc(front, r);
    KeysDistinct(front);
    KeysAreText(front);
    RowsForSnoc(front, r, fout, KeysOf(front), name);
  }

  /** Each partition file receives exactly the rows whose own timestamp
      names it, none lost and none twice: grouping first changes the order
      in which they are written, not which rows are written. */
  lemma {:induction false} FilesPartitionRows(rows: seq<Row>, fout: string, name: string)
    requires TextKeyed(rows)
    ensures multiset(FileRows(rows, fout, name)) == multiset(RowsNamed(rows, fout, name))
  {
    if rows != [] {
      var front := rows[..|rows| - 1];
      var r := rows[|rows| - 1];
      assert rows == front + [r];
      RowsNamedSnoc(front, r, fout, name);
      FilesPartitionRows(front, fout, name);
      if r[0] in KeysOf(front) {
        FileRowsOldKey(front, r, fout, name);
      } else {
        FileRowsNewKey(front, r, fout, name);
      }
    }
  }

  /** The rows naming a file are the input rows whose timestamp names it. */
  lemma {:induction false} RowsNamedMembers(rows: seq<Row>, fout: string, name: string, r: Row)
    requires TextKeyed(rows)
    ensures r in RowsNamed(rows, fout, name) <==> r in rows && OutputName(fout, r[0].s) == name
  {
    if rows != [] {
      var front := rows[..|rows| - 1];
      assert rows == front + [rows[|rows| - 1]];
      RowsNamedMembers(front, fout, name, r);
    }
  }

  /** After `SaveAll` every file holds its old content followed by the lines
      of the rows destined for it. */
  lemma SaveAllContent(files: map<string, string>, fout: string, rows: seq<Row>, show: real -> string, name: string)
    requires TextKeyed(rows)
    ensures Content(SaveAll(files, fout, rows, show), name)
         == Content(files, name) + Lines(FileRows(rows, fout, name), show)
  {
    KeysAreText(rows);
    SavedContent(files, fout, rows, KeysOf(rows), show, name);
  }

  /** `SaveAll` creates the partition file of every row and no other file. */
  lemma SaveAllNames(files: map<string, string>, fout: string, rows: seq<Row>, show: real -> string)
    requires TextKeyed(rows)
    ensures SaveAll(files, fout, rows, show).Keys == files.Keys + RowFiles(fout, rows)
  {
    KeyFilesAreRowFiles(fout, rows);
    SavedNames(files, fout, rows, KeysOf(rows), show);
  }

  lemma {:induction false} NoRowsNamed(rows: seq<Row>, fout: string, name: string)
    requires TextKeyed(rows) && name !in RowFiles(fout, rows)
    ensures RowsNamed(rows, fout, name) == []
  {
    if rows != [] {
      var front := rows[..|rows| - 1];
      var r := rows[|rows| - 1];
      assert rows == front + [r];
      RowFilesSnoc(fout, front, r);
      NoRowsNamed(front, fout, name);
    }
  }

  /** A file that no row names keeps its content, and is not created. */
  lemma SaveAllLeavesOthers(files: map<string, string>, fout: string, rows: seq<Row>, show: real -> string, name: string)
    requires TextKeyed(rows) && name !in RowFiles(fout, rows)
    ensures Content(SaveAll(files, fout, rows, show), name) == Content(files, name)
    ensures name in SaveAll(files, fout, rows, show) <==> name in files
  {
    SaveAllContent(files, fout, rows, show, name);
    SaveAllNames(files, fout, rows, show);
    FilesPartitionRows(rows, fout, name);
    NoRowsNamed(rows, fout, name);
    assert multiset(FileRows(rows, fout, name)) == multiset{};
  }

  lemma FieldTextsSnoc(row: Row, idx: nat, show: real -> string)
    requires idx < |row|
    ensures FieldTexts(row[..idx + 1], show) == FieldTexts(row[..idx], show) + [FieldText(row[idx], show)]
  {
  }

  /** The inner loop of both writers (lines 120-126 and 151-157): the
      delimiter goes before every field but the first. */
  method FormatLine(row: Row, show: real -> string) returns (line: string)
    ensures line == Line(row, show)
  {
    var out := "";
    for idx := 0 to |row|
      invariant out == Join(FieldTexts(row[..idx], show), DELIMITER)
    {
      FieldTextsSnoc(row, idx, show);
      JoinSnoc(FieldTexts(row[..idx], show), FieldText(row[idx], show), DELIMITER);
      if idx != 0 {
        out := out + DELIMITER;
      }
      out := out + FieldText(row[idx], show);
    }
    assert row[..|row|] == row;
    line := out + EOL;
  }

  /** The files the script appends to, by name. */
  class FileStore {
    var files: map<string, string>

    constructor (initial: map<string, string>)
      ensures files == initial
    {
      files := initial;
    }

    /** `save_all_to_csv_file`: open `fout` for appending, creating it if
        missing, and write one line per row. */
    method AppendRows(fout: string, rows: seq<Row>, show: real -> string)
      modifies this
      ensures files == AppendTo(old(files), fout, Lines(rows, show))
    {
      ghost var base := files;
      files := AppendTo(files, fout, "");
      assert rows[..0] == [];
      for i := 0 to |rows|
        invariant files == AppendTo(base, fout, Lines(rows[..i], show))
      {
        var line := FormatLine(rows[i], show);
        LinesOfPrefix(rows, i, show);
        AppendToTwice(base, fout, Lines(rows[..i], show), line);
        files := AppendTo(files, fout, line);
      }
      assert rows[..|rows|] == rows;
    }

    /** `save_all_to_csv_files_by_date`: group the rows by their first field,
        then append each group, in the order its key was first met, to the
        partition file its key names. */
    method SaveByDate(fout: string, rows: seq<Row>, show: real -> string)
      requires TextKeyed(rows)
      modifies this
      ensures files == SaveAll(old(files), fout, rows, show)
    {
      var keys, groups := SeparateByDate(rows);
      KeysAreText(rows);
      for i := 0 to |keys|
        invariant files == SaveGroups(old(files), fout, rows, keys[..i], show)
      {
        var key := keys[i];
        var outputFile := OutputName(fout, key.s);
        assert keys[..i + 1][..i] == keys[..i];
        AppendRows(outputFile, groups[key], show);
      }
      assert keys[..|keys|] == keys;
    }
  }
}
