/** The end-to-end scenario: a 0..360 dataset, one latitude, one requested
    longitude in the -180..180 convention, the variable `sp` and two time
    steps on different days, run once and then a second time. */
module Scenario {
  import opened Model
  import opened Validation
  import opened Extraction
  import opened Writer
  import opened Naming
  import opened Grouping
  import opened PyText
  import opened Pipeline

  /** Longitudes start at 0, so requested longitudes move by 180 for
      lookup; `sel` yields the same two time steps at every cell. */
  function Sample(): Dataset
  {
    Dataset(
      map["latitude" := [0.0], "longitude" := [0.0, 180.0], "time" := [0.0, 1.0]],
      {"sp"},
      (v: string, c: Cell) => Selection(["1987-01-01T00:00", "1987-01-02T00:00"], ["1.5000000000", "2.2500000000"]))
  }

  /** `latitude=[0.0], longitude=[0.0], data="sp"`, no `level`. */
  function SampleRequest(): Request
  {
    Request(Some([0.0]), Some([0.0]), None, Some("sp"))
  }

  function SamplePlan(): Plan
  {
    Plan([0.0], [180.0], None, "sp", 180.0)
  }

  /** The request is accepted; the longitude is looked up at 180. */
  lemma SampleValidates()
    ensures Validate(SampleRequest(), Sample()) == Ok(SamplePlan())
  {
    var ds := Sample();
    assert ds.coords["longitude"][0] == 0.0;
    SubsetMeansMembers([0.0], ds.coords["latitude"]);
    SubsetMeansMembers([180.0], ds.coords["longitude"]);
    assert ShiftAll([0.0], 180.0) == [180.0];
  }

  function Row1(): Row { [Text("1987-01-01T00:00"), Text("1.5000000000"), Number(0.0), Number(0.0)] }
  function Row2(): Row { [Text("1987-01-02T00:00"), Text("2.2500000000"), Number(0.0), Number(0.0)] }

  /** One cell, two time steps: two rows carrying the caller's longitude 0. */
  lemma SampleRows()
    ensures Extracted(Sample(), SamplePlan()) == [Row1(), Row2()]
  {
    var plan := SamplePlan();
    var c := Cell(0.0, 180.0, None);
    assert LevelChoices(None) == [None];
    assert LonCells(0.0, [180.0], [None]) == [c];
    assert PlanCells(plan) == [c];
    CellRowsAt(Sample(), plan, c);
    var s := Sample().sel("sp", c);
    assert s.times == ["1987-01-01T00:00", "1987-01-02T00:00"];
    assert s.values == ["1.5000000000", "2.2500000000"];
    assert Extras(plan, c) == [Number(0.0), Number(0.0)];
    assert RowAt(Sample(), plan, c, 0) == Row1();
    assert RowAt(Sample(), plan, c, 1) == Row2();
    assert CellRows(Sample(), plan, c) == [Row1(), Row2()];
  }

  lemma JoinFour(a: string, b: string, c: string, d: string, sep: string)
    ensures Join([a, b, c, d], sep) == a + sep + b + sep + c + sep + d
  {
    assert [a, b, c, d][1..] == [b, c, d];
    assert [b, c, d][1..] == [c, d];
    assert [c, d][1..] == [d];
    assert Join([d], sep) == d;
    assert Join([c, d], sep) == c + sep + d;
    assert Join([b, c, d], sep) == b + sep + (c + sep + d);
    assert Join([a, b, c, d], sep) == a + sep + (b + sep + (c + sep + d));
    assert a + sep + (b + sep + (c + sep + d)) == a + sep + b + sep + c + sep + d;
  }

  /** The line of a row of two texts and two coordinates. */
  lemma OneLine(a: string, b: string, x: real, y: real, show: real -> string)
    ensures Lines([[Text(a), Text(b), Number(x), Number(y)]], show)
         == a + DELIMITER + b + DELIMITER + show(x) + DELIMITER + show(y) + EOL
  {
    var row := [Text(a), Text(b), Number(x), Number(y)];
    assert FieldTexts(row, show) == [a, b, show(x), show(y)];
    JoinFour(a, b, show(x), show(y), DELIMITER);
    assert Lines([row], show) == Lines([], show) + Line(row, show);
  }

  lemma SampleLines(show: real -> string)
    requires show(0.0) == "0.0"
    ensures Lines([Row1()], show) == FIRST_LINE
    ensures Lines([Row2()], show) == SECOND_LINE
  {
    OneLine("1987-01-01T00:00", "1.5000000000", 0.0, 0.0, show);
    OneLine("1987-01-02T00:00", "2.2500000000", 0.0, 0.0, show);
  }

  const FIRST_FILE: string := "out/sp_1987-01-01T00.dat"
  const SECOND_FILE: string := "out/sp_1987-01-02T00.dat"
  /** `1987-01-01T00:00    1.5000000000    0.0    0.0` and a newline. */
  const FIRST_LINE: string := "1987-01-01T00:00" + DELIMITER + "1.5000000000" + DELIMITER + "0.0" + DELIMITER + "0.0" + EOL
  /** `1987-01-02T00:00    2.2500000000    0.0    0.0` and a newline. */
  const SECOND_LINE: string := "1987-01-02T00:00" + DELIMITER + "2.2500000000" + DELIMITER + "0.0" + DELIMITER + "0.0" + EOL

  lemma FirstName()
    ensures OutputName("out/sp.dat", "1987-01-01T00:00") == "out/sp_1987-01-01T00.dat"
  {
    assert "out/sp" + "." + "dat" == "out/sp.dat";
    assert "1987-01-01T00" + ":" + "00" == "1987-01-01T00:00";
    assert ':' !in "1987-01-01T00";
    assert '.' !in "dat";
    assert "out/sp" + "_" + "1987-01-01T00" + "." + "dat" == "out/sp_1987-01-01T00.dat";
    OutputNameKeepsExtension("out/sp", "dat", "1987-01-01T00", "00");
  }

  lemma SecondName()
    ensures OutputName("out/sp.dat", "1987-01-02T00:00") == "out/sp_1987-01-02T00.dat"
  {
    assert "out/sp" + "." + "dat" == "out/sp.dat";
    assert "1987-01-02T00" + ":" + "00" == "1987-01-02T00:00";
    assert ':' !in "1987-01-02T00";
    assert '.' !in "dat";
    assert "out/sp" + "_" + "1987-01-02T00" + "." + "dat" == "out/sp_1987-01-02T00.dat";
    OutputNameKeepsExtension("out/sp", "dat", "1987-01-02T00", "00");
  }

  /** The two days' timestamps name two different files. */
  lemma SampleNames()
    ensures OutputName("out/sp.dat", "1987-01-01T00:00") == FIRST_FILE
    ensures OutputName("out/sp.dat", "1987-01-02T00:00") == SECOND_FILE
    ensures FIRST_FILE != SECOND_FILE
  {
    assert FIRST_FILE[16] != SECOND_FILE[16];
    FirstName();
    SecondName();
  }

  lemma TwoRowsGroups(r1: Row, r2: Row)
    requires |r1| > 0 && |r2| > 0 && r1[0] != r2[0]
    ensures Keyed([r1, r2])
    ensures KeysOf([r1, r2]) == [r1[0], r2[0]]
    ensures GroupOf([r1, r2], r1[0]) == [r1]
    ensures GroupOf([r1, r2], r2[0]) == [r2]
  {
    assert [r1, r2][..1] == [r1];
    assert [r1][..0] == [];
    assert KeysOf([r1]) == [r1[0]] by {
      assert KeysOf([r1]) == KeysOf([]) + [r1[0]];
    }
    assert GroupOf([r1], r1[0]) == [r1] by {
      assert GroupOf([r1], r1[0]) == GroupOf([], r1[0]) + [r1];
    }
    assert GroupOf([r1], r2[0]) == [] by {
      assert GroupOf([r1], r2[0]) == GroupOf([], r2[0]) + [];
    }
    assert GroupOf([r1, r2], r1[0]) == GroupOf([r1], r1[0]) + [];
    assert GroupOf([r1, r2], r2[0]) == GroupOf([r1], r2[0]) + [r2];
  }

  lemma SaveTwoGroups(files: map<string, string>, fout: string, rows: seq<Row>, k1: Field, k2: Field, show: real -> string)
    requires Keyed(rows) && k1.Text? && k2.Text?
    ensures TextKeys([k1, k2])
    ensures SaveGroups(files, fout, rows, [k1, k2], show)
         == AppendTo(AppendTo(files, OutputName(fout, k1.s), Lines(GroupOf(rows, k1), show)),
                     OutputName(fout, k2.s), Lines(GroupOf(rows, k2), show))
  {
    assert [k1, k2][..1] == [k1];
    assert [k1][..0] == [];
    assert SaveGroups(files, fout, rows, [], show) == files;
    assert SaveGroups(files, fout, rows, [k1], show)
        == AppendTo(files, OutputName(fout, k1.s), Lines(GroupOf(rows, k1), show));
  }

  /** Two rows with different timestamps go to their two files. */
  lemma SaveTwoRows(files: map<string, string>, fout: string, r1: Row, r2: Row, show: real -> string)
    requires |r1| > 0 && |r2| > 0 && r1[0].Text? && r2[0].Text? && r1[0] != r2[0]
    ensures TextKeyed([r1, r2])
    ensures SaveAll(files, fout, [r1, r2], show)
         == AppendTo(AppendTo(files, OutputName(fout, r1[0].s), Lines([r1], show)),
                     OutputName(fout, r2[0].s), Lines([r2], show))
  {
    TwoRowsGroups(r1, r2);
    SaveTwoGroups(files, fout, [r1, r2], r1[0], r2[0], show);
  }

  /** Appending to two different files that did not exist yet. */
  lemma AppendToNewPair(n1: string, n2: string, s1: string, s2: string)
    requires n1 != n2
    ensures AppendTo(AppendTo(map[], n1, s1), n2, s2) == map[n1 := s1, n2 := s2]
  {
    assert "" + s1 == s1;
    assert "" + s2 == s2;
  }

  /** Appending to two different files that already hold `c1` and `c2`. */
  lemma AppendToExistingPair(n1: string, n2: string, c1: string, c2: string, s1: string, s2: string)
    requires n1 != n2
    ensures AppendTo(AppendTo(map[n1 := c1, n2 := c2], n1, s1), n2, s2) == map[n1 := c1 + s1, n2 := c2 + s2]
  {
  }

  /** Whatever the files held before, a pass over the sample appends the
      first day's line to the first day's file, then the second's. */
  lemma SampleSaved(files: map<string, string>, show: real -> string)
    requires show(0.0) == "0.0"
    ensures TextKeyed(Extracted(Sample(), SamplePlan()))
    ensures SaveAll(files, "out/sp.dat", Extracted(Sample(), SamplePlan()), show)
         == AppendTo(AppendTo(files, FIRST_FILE, FIRST_LINE), SECOND_FILE, SECOND_LINE)
  {
    SampleRows();
    SampleNames();
    SampleLines(show);
    SaveTwoRows(files, "out/sp.dat", Row1(), Row2(), show);
  }

  /** One pass over the sample from no files gives one file per day, each
      holding its one line, with the longitude written back as 0. */
  lemma EndToEnd(show: real -> string)
    requires show(0.0) == "0.0"
    ensures Validate(SampleRequest(), Sample()) == Ok(SamplePlan())
    ensures SaveAll(map[], "out/sp.dat", Extracted(Sample(), SamplePlan()), show)
         == map[FIRST_FILE := FIRST_LINE, SECOND_FILE := SECOND_LINE]
  {
    SampleValidates();
    SampleSaved(map[], show);
    SampleNames();
    AppendToNewPair(FIRST_FILE, SECOND_FILE, FIRST_LINE, SECOND_LINE);
  }

  /** A second pass over the same input appends every line again. */
  lemma SecondRun(show: real -> string)
    requires show(0.0) == "0.0"
    ensures SaveAll(map[FIRST_FILE := FIRST_LINE, SECOND_FILE := SECOND_LINE], "out/sp.dat",
                    Extracted(Sample(), SamplePlan()), show)
         == map[FIRST_FILE := FIRST_LINE + FIRST_LINE, SECOND_FILE := SECOND_LINE + SECOND_LINE]
  {
    var files := map[FIRST_FILE := FIRST_LINE, SECOND_FILE := SECOND_LINE];
    SampleSaved(files, show);
    SampleNames();
    AppendToExistingPair(FIRST_FILE, SECOND_FILE, FIRST_LINE, SECOND_LINE, FIRST_LINE, SECOND_LINE);
  }

  /** `process_netcdf_file` on the sample, twice, from no output files: the
      first run writes one line per day file, the second duplicates it. */
  method RunTwice(show: real -> string) returns (first: map<string, string>, second: map<string, string>)
    requires show(0.0) == "0.0"
    ensures first == map[FIRST_FILE := FIRST_LINE, SECOND_FILE := SECOND_LINE]
    ensures second == map[FIRST_FILE := FIRST_LINE + FIRST_LINE, SECOND_FILE := SECOND_LINE + SECOND_LINE]
  {
    EndToEnd(show);
    SecondRun(show);
    var store := new FileStore(map[]);
    var error := ProcessNetcdfFile(store, "out/sp.dat", SampleRequest(), Sample(), show);
    first := store.files;
    error := ProcessNetcdfFile(store, "out/sp.dat", SampleRequest(), Sample(), show);
    second := store.files;
  }
}
