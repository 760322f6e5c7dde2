/** `merge_data.py`: every `.xlsx` file found under `output/` is read, its
    duplicate rows are dropped, every row is tagged with the State and City
    named by the file's path, the tables are concatenated in walk order, and
    the duplicates of the whole are dropped (lines 9-35).

    The directory walk is the parameter `walk`: the `(root, files)` pairs in
    the order `os.walk` yields them. Reading a spreadsheet is the parameter
    `read`; a row is a map from column name to cell text. */
module Merge {
  import opened Wrappers
  import opened Text
  import Scrape

  /** One `(root, dirs, files)` triple of the walk, without `dirs`. */
  datatype WalkEntry = WalkEntry(root: string, files: seq<string>)

  /** `os.path.join(a, b)` on POSIX: an absolute `b` replaces `a`, and a `/`
      is inserted unless `a` is empty or already ends with one. */
  function PathJoin(a: string, b: string): (r: string)
    ensures EndsWith(r, b)
    ensures (|b| == 0 || b[0] != '/') ==> |a| <= |r| && r[..|a|] == a
  {
    if |b| > 0 && b[0] == '/' then b
    else if a == [] || a[|a| - 1] == '/' then a + b
    else a + "/" + b
  }

  /** The paths one walk entry contributes: its files with the extension,
      joined to its root, in listing order. */
  function FoundIn(root: string, files: seq<string>, ext: string): (r: seq<string>)
    ensures |r| <= |files|
  {
    if files == [] then []
    else
      var last := files[|files| - 1];
      FoundIn(root, files[..|files| - 1], ext) + (if EndsWith(last, ext) then [PathJoin(root, last)] else [])
  }

  /** What `find_files` returns for the walk. */
  function FoundFiles(walk: seq<WalkEntry>, ext: string): seq<string>
  {
    if walk == [] then []
    else
      var last := walk[|walk| - 1];
      FoundFiles(walk[..|walk| - 1], ext) + FoundIn(last.root, last.files, ext)
  }

  /** `find_files` (lines 9-17): the nested loops over the walk. */
  method FindFiles(walk: seq<WalkEntry>, fileExtension: string) returns (filePaths: seq<string>)
    ensures filePaths == FoundFiles(walk, fileExtension)
  {
    filePaths := [];
    for i := 0 to |walk|
      invariant filePaths == FoundFiles(walk[..i], fileExtension)
    {
      var root, files := walk[i].root, walk[i].files;
      ghost var before := filePaths;
      for j := 0 to |files|
        invariant filePaths == before + FoundIn(root, files[..j], fileExtension)
      {
        assert files[..j + 1][..j] == files[..j];
        if EndsWith(files[j], fileExtension) {
          filePaths := filePaths + [PathJoin(root, files[j])];
        }
      }
      assert files[..|files|] == files;
      assert walk[..i + 1][..i] == walk[..i];
    }
    assert walk[..|walk|] == walk;
  }

  lemma {:induction false} FoundInSound(root: string, files: seq<string>, ext: string, p: string)
    requires p in FoundIn(root, files, ext)
    ensures exists j :: 0 <= j < |files| && EndsWith(files[j], ext) && p == PathJoin(root, files[j])
  {
    var n := |files| - 1;
    var front := files[..n];
    if p in FoundIn(root, front, ext) {
      FoundInSound(root, front, ext, p);
      var j :| 0 <= j < |front| && EndsWith(front[j], ext) && p == PathJoin(root, front[j]);
      assert files[j] == front[j];
    } else {
      assert EndsWith(files[n], ext) && p == PathJoin(root, files[n]);
    }
  }

  lemma {:induction false} FoundInComplete(root: string, files: seq<string>, ext: string, j: nat)
    requires j < |files| && EndsWith(files[j], ext)
    ensures PathJoin(root, files[j]) in FoundIn(root, files, ext)
  {
    var n := |files| - 1;
    var front := files[..n];
    var p := PathJoin(root, files[j]);
    assert FoundIn(root, files, ext) == FoundIn(root, front, ext)
      + (if EndsWith(files[n], ext) then [PathJoin(root, files[n])] else []);
    if j < n {
      assert p in FoundIn(root, front, ext) by {
        assert files[j] == front[j];
        FoundInComplete(root, front, ext, j);
      }
    }
  }

  lemma {:induction false} FoundFilesSound(walk: seq<WalkEntry>, ext: string, p: string)
    requires p in FoundFiles(walk, ext)
    ensures exists i, j ::
              && 0 <= i < |walk| && 0 <= j < |walk[i].files|
              && EndsWith(walk[i].files[j], ext) && p == PathJoin(walk[i].root, walk[i].files[j])
  {
    var n := |walk| - 1;
    var front := walk[..n];
    if p in FoundFiles(front, ext) {
      FoundFilesSound(front, ext, p);
      var i, j :| 0 <= i < |front| && 0 <= j < |front[i].files|
        && EndsWith(front[i].files[j], ext) && p == PathJoin(front[i].root, front[i].files[j]);
      assert walk[i] == front[i];
    } else {
      FoundInSound(walk[n].root, walk[n].files, ext, p);
      var j :| 0 <= j < |walk[n].files| && EndsWith(walk[n].files[j], ext) && p == PathJoin(walk[n].root, walk[n].files[j]);
    }
  }

  /** The walk is read in order: the paths of a walk split in two are those
      of the first part followed by those of the second. */
  lemma {:induction false} FoundFilesAppend(w1: seq<WalkEntry>, w2: seq<WalkEntry>, ext: string)
    ensures FoundFiles(w1 + w2, ext) == FoundFiles(w1, ext) + FoundFiles(w2, ext)
  {
    if w2 == [] {
      assert w1 + w2 == w1;
    } else {
      var n := |w2| - 1;
      var front, last := w2[..n], w2[n];
      var w := w1 + w2;
      assert w[..|w| - 1] == w1 + front;
      assert w[|w| - 1] == last;
      var tail := FoundIn(last.root, last.files, ext);
      assert FoundFiles(w, ext) == FoundFiles(w1 + front, ext) + tail;
      assert FoundFiles(w2, ext) == FoundFiles(front, ext) + tail;
      FoundFilesAppend(w1, front, ext);
    }
  }

  lemma {:induction false} FoundFilesComplete(walk: seq<WalkEntry>, ext: string, i: nat, j: nat)
    requires i < |walk| && j < |walk[i].files| && EndsWith(walk[i].files[j], ext)
    ensures PathJoin(walk[i].root, walk[i].files[j]) in FoundFiles(walk, ext)
  {
    var n := |walk| - 1;
    var front := walk[..n];
    if i < n {
      assert walk[i] == front[i];
      FoundFilesComplete(front, ext, i, j);
    } else {
      FoundInComplete(walk[n].root, walk[n].files, ext, j);
    }
  }

  /** A path is found exactly when some walked file carries the extension and
      the path joins that file to its root. */
  lemma FoundFilesIff(walk: seq<WalkEntry>, ext: string, p: string)
    ensures p in FoundFiles(walk, ext) <==>
      exists i, j :: 0 <= i < |walk| && 0 <= j < |walk[i].files|
        && EndsWith(walk[i].files[j], ext) && p == PathJoin(walk[i].root, walk[i].files[j])
  {
    if p in FoundFiles(walk, ext) {
      FoundFilesSound(walk, ext, p);
    } else {
      forall i, j | 0 <= i < |walk| && 0 <= j < |walk[i].files| && EndsWith(walk[i].files[j], ext)
        ensures p != PathJoin(walk[i].root, walk[i].files[j])
      {
        FoundFilesComplete(walk, ext, i, j);
      }
    }
  }

  lemma EndsWithTransitive(p: string, f: string, ext: string)
    requires EndsWith(p, f) && EndsWith(f, ext)
    ensures EndsWith(p, ext)
  {
    assert p[|p| - |ext|..] == p[|p| - |f|..][|f| - |ext|..];
  }

  /** Every found path ends with the extension. */
  lemma FoundFilesHaveExtension(walk: seq<WalkEntry>, ext: string, p: string)
    requires p in FoundFiles(walk, ext)
    ensures EndsWith(p, ext)
  {
    FoundFilesSound(walk, ext, p);
    var i, j :| 0 <= i < |walk| && 0 <= j < |walk[i].files|
      && EndsWith(walk[i].files[j], ext) && p == PathJoin(walk[i].root, walk[i].files[j]);
    EndsWithTransitive(p, walk[i].files[j], ext);
  }

  // ----- `re.split(r"[\\/]+", filepath)` -----

  predicate IsSeparator(c: char)
  {
    c == '/' || c == '\\'
  }

  predicate NoSeparator(s: string)
  {
    forall k :: 0 <= k < |s| ==> !IsSeparator(s[k])
  }

  lemma NoSeparatorConcat(x: string, y: string)
    requires NoSeparator(x) && NoSeparator(y)
    ensures NoSeparator(x + y)
  {
    forall k | 0 <= k < |x + y|
      ensures !IsSeparator((x + y)[k])
    {
      if k >= |x| {
        assert (x + y)[k] == y[k - |x|];
      }
    }
  }

  /** How many characters `s` starts with before its first separator. */
  function SegmentLength(s: string): (n: nat)
    ensures n <= |s|
    ensures forall k :: 0 <= k < n ==> !IsSeparator(s[k])
    ensures n < |s| ==> IsSeparator(s[n])
  {
    if s == [] || IsSeparator(s[0]) then 0 else 1 + SegmentLength(s[1..])
  }

  /** How many separators `s` starts with. */
  function RunLength(s: string): (n: nat)
    ensures n <= |s|
    ensures forall k :: 0 <= k < n ==> IsSeparator(s[k])
    ensures n < |s| ==> !IsSeparator(s[n])
  {
    if s == [] || !IsSeparator(s[0]) then 0 else 1 + RunLength(s[1..])
  }

  /** The pieces between maximal runs of `/` and `\`, as `re.split` returns
      them: a leading run gives an empty first piece, a trailing run an empty
      last one. */
  function SplitPath(s: string): (parts: seq<string>)
    ensures |parts| >= 1
    ensures forall k :: 0 <= k < |parts| ==> NoSeparator(parts[k])
    decreases |s|
  {
    var k := SegmentLength(s);
    if k == |s| then [s]
    else
      var run := RunLength(s[k..]);
      assert run >= 1 by {
        assert IsSeparator(s[k..][0]);
      }
      [s[..k]] + SplitPath(s[k + run..])
  }

  lemma SegmentLengthIs(s: string, n: nat)
    requires n <= |s| && (forall k :: 0 <= k < n ==> !IsSeparator(s[k]))
    requires n < |s| ==> IsSeparator(s[n])
    ensures SegmentLength(s) == n
  {
  }

  lemma RunLengthIs(s: string, n: nat)
    requires n <= |s| && (forall k :: 0 <= k < n ==> IsSeparator(s[k]))
    requires n < |s| ==> !IsSeparator(s[n])
    ensures RunLength(s) == n
  {
  }

  /** A separator-free piece, a run of any mix of `/` and `\\` of any length,
      and a rest that is empty or starts with no separator split into the
      piece and the pieces of the rest: the whole run makes one cut. */
  lemma SplitPathRun(a: string, run: string, t: string)
    requires NoSeparator(a)
    requires run != [] && forall k :: 0 <= k < |run| ==> IsSeparator(run[k])
    requires t == [] || !IsSeparator(t[0])
    ensures SplitPath(a + run + t) == [a] + SplitPath(t)
  {
    var s := a + run + t;
    assert SegmentLength(s) == |a| by {
      assert forall k :: 0 <= k < |a| ==> s[k] == a[k];
      assert s[|a|] == run[0];
      SegmentLengthIs(s, |a|);
    }
    var r := s[|a|..];
    assert RunLength(r) == |run| by {
      assert r == run + t;
      assert forall k :: 0 <= k < |run| ==> r[k] == run[k];
      if |run| < |r| {
        assert r[|run|] == t[0];
      }
      RunLengthIs(r, |run|);
    }
    assert s[|a| + |run|..] == t;
    assert s[..|a|] == a;
  }

  /** A path that starts with a run of separators has an empty first piece. */
  lemma SplitPathLeadingRun(run: string, t: string)
    requires run != [] && forall k :: 0 <= k < |run| ==> IsSeparator(run[k])
    requires t == [] || !IsSeparator(t[0])
    ensures SplitPath(run + t) == [""] + SplitPath(t)
  {
    assert "" + run + t == run + t;
    assert NoSeparator("");
    SplitPathRun("", run, t);
  }

  /** A path that ends with a run of separators has an empty last piece. */
  lemma SplitPathTrailingRun(a: string, run: string)
    requires NoSeparator(a)
    requires run != [] && forall k :: 0 <= k < |run| ==> IsSeparator(run[k])
    ensures SplitPath(a + run) == [a, ""]
  {
    SplitPathRun(a, run, "");
    assert a + run + "" == a + run;
    assert SplitPath("") == [""];
  }

  lemma JoinStartsWith(parts: seq<string>, sep: char)
    requires |parts| >= 1 && parts[0] != []
    ensures Join(parts, sep) != [] && Join(parts, sep)[0] == parts[0][0]
  {
  }

  /** Splitting a join, by `/` or by `\\`, of separator-free pieces, all but
      the first non-empty, gives back the pieces. */
  lemma {:induction false} SplitPathJoin(segs: seq<string>, sep: char)
    requires IsSeparator(sep)
    requires |segs| >= 1
    requires forall k :: 0 <= k < |segs| ==> NoSeparator(segs[k])
    requires forall k :: 1 <= k < |segs| ==> segs[k] != []
    ensures SplitPath(Join(segs, sep)) == segs
  {
    var a := segs[0];
    if |segs| == 1 {
      SegmentLengthIs(a, |a|);
    } else {
      var t := Join(segs[1..], sep);
      assert Join(segs, sep) == a + [sep] + t;
      JoinStartsWith(segs[1..], sep);
      assert NoSeparator(segs[1]);
      SplitPathRun(a, [sep], t);
      SplitPathJoin(segs[1..], sep);
      assert [a] + segs[1..] == segs;
    }
  }

  /** Backslashes cut like slashes: a Windows walk path, the pieces
      `root`, `state`, `city` and `file` joined by `\\`, is located by its
      directory names too. */
  lemma BackslashPathLocated(root: string, state: string, city: string, file: string)
    requires state != [] && city != [] && file != []
    requires NoSeparator(root) && NoSeparator(state) && NoSeparator(city) && NoSeparator(file)
    ensures LocationOf(Join([root, state, city, file], '\\'))
      == Success(Location(Replace(state, '_', ' '), Replace(city, '_', ' ')))
  {
    var segs := [root, state, city, file];
    SplitPathJoin(segs, '\\');
    LocationOfPieces(Join(segs, '\\'), segs);
  }

  // ----- State and City from the path (lines 25-26) -----

  datatype Location = Location(state: string, city: string)

  /** `parts[1]` or `parts[2]` does not exist: the `IndexError` of line 26. */
  datatype MergeError = IndexError(path: string)

  /** Line 26: State is the second piece and City the third, with every `_`
      read as a space; a path with fewer than three pieces fails. */
  function LocationOf(path: string): (r: Result<Location, MergeError>)
    ensures r.Failure? <==> |SplitPath(path)| < 3
    ensures r.Failure? ==> r.error == IndexError(path)
    ensures r.Success? ==>
      && |r.value.state| == |SplitPath(path)[1]| && '_' !in r.value.state && NoSeparator(r.value.state)
      && |r.value.city| == |SplitPath(path)[2]| && '_' !in r.value.city && NoSeparator(r.value.city)
  {
    var parts := SplitPath(path);
    if |parts| < 3 then Failure(IndexError(path))
    else Success(Location(Replace(parts[1], '_', ' '), Replace(parts[2], '_', ' ')))
  }

  /** State and City are read off the second and third pieces of the path. */
  lemma LocationOfPieces(path: string, parts: seq<string>)
    requires SplitPath(path) == parts && |parts| >= 3
    ensures LocationOf(path) == Success(Location(Replace(parts[1], '_', ' '), Replace(parts[2], '_', ' ')))
  {
  }

  lemma JoinCons(parts: seq<string>, sep: char)
    requires |parts| >= 2
    ensures Join(parts, sep) == parts[0] + [sep] + Join(parts[1..], sep)
  {
  }

  /** `os.path.join` of a directory not ending in `/` and a relative name. */
  lemma PathJoinBelow(dir: string, name: string)
    requires dir != [] && !IsSeparator(dir[|dir| - 1])
    requires name != [] && !IsSeparator(name[0])
    ensures PathJoin(dir, name) == dir + "/" + name
  {
  }

  lemma JoinFour(a: string, b: string, c: string, d: string, sep: char)
    ensures Join([a, b, c, d], sep) == a + [sep] + (b + [sep] + (c + [sep] + d))
  {
    var segs := [a, b, c, d];
    JoinCons(segs, sep);
    assert segs[1..] == [b, c, d];
    JoinCons([b, c, d], sep);
    assert [b, c, d][1..] == [c, d];
    JoinCons([c, d], sep);
    assert [c, d][1..] == [d];
  }

  /** The three joins of the walk below `output/`. */
  lemma StateCityJoins(state: string, city: string, file: string)
    requires state != [] && city != [] && file != []
    requires NoSeparator(state) && NoSeparator(city) && NoSeparator(file)
    ensures PathJoin(PathJoin(PathJoin("output/", state), city), file)
      == (("output/" + state) + "/" + city) + "/" + file
  {
    assert !IsSeparator(state[0]) && !IsSeparator(state[|state| - 1]);
    assert !IsSeparator(city[0]) && !IsSeparator(city[|city| - 1]);
    assert !IsSeparator(file[0]);
    var d1 := "output/" + state;
    assert PathJoin("output/", state) == d1;
    assert d1[|d1| - 1] == state[|state| - 1];
    PathJoinBelow(d1, city);
    var d2 := d1 + "/" + city;
    assert d2[|d2| - 1] == city[|city| - 1];
    PathJoinBelow(d2, file);
  }

  /** The walk's path of `output/<state>/<city>/<file>` is the `/`-join of
      its four pieces. */
  lemma StateCityPath(state: string, city: string, file: string)
    requires state != [] && city != [] && file != []
    requires NoSeparator(state) && NoSeparator(city) && NoSeparator(file)
    ensures PathJoin(PathJoin(PathJoin("output/", state), city), file)
      == Join(["output", state, city, file], '/')
  {
    StateCityJoins(state, city, file);
    JoinFour("output", state, city, file, '/');
    OutputSlash();
    SlashRegrouped("output", state, city, file);
  }

  lemma OutputSlash()
    ensures "output" + "/" == "output/"
  {
  }

  lemma SlashRegrouped(a: string, b: string, c: string, d: string)
    ensures a + "/" + (b + "/" + (c + "/" + d)) == ((a + "/" + b) + "/" + c) + "/" + d
  {
  }

  /** The layout the merge expects, `output/<State>/<City>/<file>` as the walk
      joins it: State and City are the two directory names with `_` read as
      a space. */
  lemma LocatedByStateAndCity(state: string, city: string, file: string)
    requires state != [] && city != [] && file != []
    requires NoSeparator(state) && NoSeparator(city) && NoSeparator(file)
    ensures LocationOf(PathJoin(PathJoin(PathJoin("output/", state), city), file))
      == Success(Location(Replace(state, '_', ' '), Replace(city, '_', ' ')))
  {
    var path := PathJoin(PathJoin(PathJoin("output/", state), city), file);
    StateCityPath(state, city, file);
    SplitPathJoin(["output", state, city, file], '/');
    LocationOfPieces(path, ["output", state, city, file]);
  }

  /** A file directly under a State directory is still accepted, and its
      City is the file's own name. */
  lemma ShallowFileCityIsFileName(state: string, file: string)
    requires state != [] && file != []
    requires NoSeparator(state) && NoSeparator(file)
    ensures LocationOf(PathJoin(PathJoin("output/", state), file))
      == Success(Location(Replace(state, '_', ' '), Replace(file, '_', ' ')))
  {
    assert !IsSeparator(state[0]) && !IsSeparator(state[|state| - 1]);
    assert !IsSeparator(file[0]);
    var d1 := PathJoin("output/", state);
    assert d1 == "output/" + state;
    var p := PathJoin(d1, file);
    assert p == d1 + "/" + file;
    var segs := ["output", state, file];
    assert Join(segs[1..], '/') == state + "/" + file;
    assert Join(segs, '/') == p;
    SplitPathJoin(segs, '/');
  }

  /** A file directly under `output/` has only two pieces and stops the merge. */
  lemma {:induction false} FlatFileNotLocated(file: string)
    requires file != [] && NoSeparator(file)
    ensures PathJoin("output/", file) == "output/" + file
    ensures LocationOf(PathJoin("output/", file)) == Failure(IndexError("output/" + file))
  {
    assert !IsSeparator(file[0]);
    var segs := ["output", file];
    assert Join(segs, '/') == "output/" + file;
    SplitPathJoin(segs, '/');
  }

  /** A session of `main.py` writes its spreadsheet flat under `output/`, so
      the merge stops on it unless it is moved into `<State>/<City>/`. */
  lemma SessionOutputNotLocated(search: string, today: string)
    requires NoSeparator(search) && NoSeparator(today)
    ensures Scrape.ExcelPath(Scrape.OutputName(search, today))
      == PathJoin("output/", Scrape.OutputName(search, today) + ".xlsx")
    ensures LocationOf(Scrape.ExcelPath(Scrape.OutputName(search, today))).Failure?
  {
    var raw := "google_maps_data_" + search + "_" + today;
    var name := Scrape.OutputName(search, today);
    var file := name + ".xlsx";
    forall k | 0 <= k < |file|
      ensures !IsSeparator(file[k])
    {
      if k < |name| {
        if raw[k] != ' ' {
          assert name[k] == raw[k];
          if 17 <= k < 17 + |search| {
            assert raw[k] == search[k - 17];
          } else if 18 + |search| <= k {
            assert raw[k] == today[k - 18 - |search|];
          }
        }
      }
    }
    FlatFileNotLocated(file);
  }

  /** The file line 35 writes, `output/combined_data_<date>.xlsx`. */
  function CombinedPath(today: string): string
  {
    "output/combined_data_" + today + ".xlsx"
  }

  /** A second merge finds the first one's output and stops on it. */
  lemma CombinedOutputNotLocated(today: string)
    requires NoSeparator(today)
    ensures CombinedPath(today) == PathJoin("output/", "combined_data_" + today + ".xlsx")
    ensures LocationOf(CombinedPath(today)).Failure?
  {
    var file := "combined_data_" + today + ".xlsx";
    assert "output/" + "combined_data_" == "output/combined_data_";
    assert file[0] == 'c';
    assert PathJoin("output/", file) == "output/" + file;
    assert "output/" + file == "output/" + "combined_data_" + today + ".xlsx";
    NoSeparatorConcat("combined_data_", today);
    NoSeparatorConcat("combined_data_" + today, ".xlsx");
    FlatFileNotLocated(file);
  }

  // ----- rows, tagging and duplicates -----

  /** A row of a spreadsheet: column name to cell. */
  type Row = map<string, string>

  /** Lines 30-31: the State and City columns are set on the row, and every
      other column keeps its cell. */
  function Tag(row: Row, loc: Location): Row
  {
    row["State" := loc.state]["City" := loc.city]
  }

  /** A tagged row has the columns of the row and the two location columns;
      they hold the file's State and City, and every other cell is kept. */
  lemma TagColumns(row: Row, loc: Location)
    ensures Tag(row, loc).Keys == row.Keys + {"State", "City"}
    ensures Tag(row, loc)["State"] == loc.state && Tag(row, loc)["City"] == loc.city
    ensures forall c :: c in row && c != "State" && c != "City" ==> Tag(row, loc)[c] == row[c]
  {
  }

  /** Every row of one file, tagged. */
  function TagAll(rows: seq<Row>, loc: Location): (r: seq<Row>)
    ensures |r| == |rows|
    ensures forall i :: 0 <= i < |rows| ==> r[i] == Tag(rows[i], loc)
  {
    if rows == [] then []
    else TagAll(rows[..|rows| - 1], loc) + [Tag(rows[|rows| - 1], loc)]
  }

  predicate Distinct<T(==)>(s: seq<T>)
  {
    forall i, j :: 0 <= i < j < |s| ==> s[i] != s[j]
  }

  /** `drop_duplicates()`: every row that equals an earlier one is dropped; the
      first occurrences stay, in order. */
  function Dedup<T(==)>(s: seq<T>): (r: seq<T>)
    ensures |r| <= |s|
  {
    if s == [] then []
    else
      var front := s[..|s| - 1];
      var last := s[|s| - 1];
      assert s == front + [last];
      if last in front then Dedup(front) else Dedup(front) + [last]
  }

  /** The elements of `s` that do not occur in `a`, in order. */
  function Without<T(==)>(s: seq<T>, a: seq<T>): (r: seq<T>)
    ensures |r| <= |s|
  {
    if s == [] then []
    else
      var front := s[..|s| - 1];
      var last := s[|s| - 1];
      assert s == front + [last];
      Without(front, a) + (if last in a then [] else [last])
  }

  /** A row survives the drop exactly when it occurs in the table. */
  lemma {:induction false} DedupMembers<T>(s: seq<T>, x: T)
    ensures x in Dedup(s) <==> x in s
  {
    if s != [] {
      var front := s[..|s| - 1];
      assert s == front + [s[|s| - 1]];
      DedupMembers(front, x);
    }
  }

  /** No row survives the drop twice. */
  lemma {:induction false} DedupDistinct<T>(s: seq<T>)
    ensures Distinct(Dedup(s))
  {
    if s != [] {
      var front := s[..|s| - 1];
      var last := s[|s| - 1];
      assert s == front + [last];
      DedupDistinct(front);
      DedupMembers(front, last);
    }
  }

  lemma {:induction false} WithoutMembers<T>(s: seq<T>, a: seq<T>, x: T)
    ensures x in Without(s, a) <==> x in s && x !in a
  {
    if s != [] {
      var front := s[..|s| - 1];
      assert s == front + [s[|s| - 1]];
      WithoutMembers(front, a, x);
    }
  }

  /** A table without duplicates is left as it is. */
  lemma {:induction false} DedupOfDistinct<T>(s: seq<T>)
    requires Distinct(s)
    ensures Dedup(s) == s
  {
    if s != [] {
      var front := s[..|s| - 1];
      assert Distinct(front);
      DedupOfDistinct(front);
      assert s[|s| - 1] !in front;
      assert front + [s[|s| - 1]] == s;
    }
  }

  /** Dropping duplicates twice drops nothing more. */
  lemma DedupIdempotent<T>(s: seq<T>)
    ensures Dedup(Dedup(s)) == Dedup(s)
  {
    DedupDistinct(s);
    DedupOfDistinct(Dedup(s));
  }

  /** One more row: it is kept exactly when it has not been seen. */
  lemma DedupSnoc<T>(s: seq<T>, z: T)
    ensures Dedup(s + [z]) == if z in s then Dedup(s) else Dedup(s) + [z]
  {
    assert (s + [z])[..|s|] == s;
  }

  lemma WithoutSnoc<T>(s: seq<T>, z: T, a: seq<T>)
    ensures Without(s + [z], a) == Without(s, a) + (if z in a then [] else [z])
  {
    assert (s + [z])[..|s|] == s;
  }

  lemma DedupAppendSeen<T>(a: seq<T>, front: seq<T>, z: T)
    requires Dedup(a + front) == Dedup(a) + Dedup(Without(front, a))
    requires z in a
    ensures Dedup((a + front) + [z]) == Dedup(a) + Dedup(Without(front + [z], a))
  {
    DedupSnoc(a + front, z);
    WithoutSnoc(front, z, a);
    assert Without(front, a) + [] == Without(front, a);
  }

  lemma DedupAppendRepeated<T>(a: seq<T>, front: seq<T>, z: T)
    requires Dedup(a + front) == Dedup(a) + Dedup(Without(front, a))
    requires z !in a && z in front
    ensures Dedup((a + front) + [z]) == Dedup(a) + Dedup(Without(front + [z], a))
  {
    DedupSnoc(a + front, z);
    WithoutSnoc(front, z, a);
    WithoutMembers(front, a, z);
    DedupSnoc(Without(front, a), z);
  }

  lemma DedupSnocNew<T>(s: seq<T>, z: T)
    requires z !in s
    ensures Dedup(s + [z]) == Dedup(s) + [z]
  {
    DedupSnoc(s, z);
  }

  lemma WithoutSnocKept<T>(s: seq<T>, z: T, a: seq<T>)
    requires z !in a
    ensures Without(s + [z], a) == Without(s, a) + [z]
  {
    WithoutSnoc(s, z, a);
  }

  lemma DedupAppendNew<T>(a: seq<T>, front: seq<T>, z: T)
    requires Dedup(a + front) == Dedup(a) + Dedup(Without(front, a))
    requires z !in a && z !in front
    ensures Dedup((a + front) + [z]) == Dedup(a) + Dedup(Without(front + [z], a))
  {
    var s, w := a + front, Without(front, a);
    var da, dw := Dedup(a), Dedup(w);
    assert z !in s;
    DedupSnocNew(s, z);
    WithoutSnocKept(front, z, a);
    WithoutMembers(front, a, z);
    DedupSnocNew(w, z);
    assert da + (dw + [z]) == (da + dw) + [z];
  }

  lemma {:induction false} DedupAppend<T>(a: seq<T>, b: seq<T>)
    ensures Dedup(a + b) == Dedup(a) + Dedup(Without(b, a))
    decreases |b|
  {
    if b == [] {
      assert a + b == a;
      assert Without(b, a) == [];
      assert Dedup(a) + Dedup<T>([]) == Dedup(a);
    } else {
      var front := b[..|b| - 1];
      assert b == front + [b[|b| - 1]];
      var z := b[|b| - 1];
      DedupAppend(a, front);
      assert a + b == (a + front) + [z];
      if z in a {
        DedupAppendSeen(a, front, z);
      } else if z in front {
        DedupAppendRepeated(a, front, z);
      } else {
        DedupAppendNew(a, front, z);
      }
    }
  }

  lemma {:induction false} WithoutDedup<T>(y: seq<T>, x: seq<T>)
    ensures Without(Dedup(y), x) == Dedup(Without(y, x))
  {
    if y != [] {
      var front := y[..|y| - 1];
      var z := y[|y| - 1];
      assert y == front + [z];
      WithoutDedup(front, x);
      var d := Dedup(front);
      var w := Without(front, x);
      DedupSnoc(front, z);
      WithoutSnoc(front, z, x);
      WithoutSnoc(d, z, x);
      DedupSnoc(w, z);
      WithoutMembers(front, x, z);
      if z in x {
        assert Without(y, x) == w;
        assert Without(Dedup(y), x) == Without(d, x);
      } else if z in front {
        assert z in w;
        assert Without(Dedup(y), x) == Without(d, x);
        assert Dedup(Without(y, x)) == Dedup(w);
      } else {
        assert z !in w;
        assert Without(Dedup(y), x) == Without(d, x) + [z];
        assert Dedup(Without(y, x)) == Dedup(w) + [z];
      }
    } else {
      assert Dedup(y) == [] && Without(y, x) == [];
    }
  }

  lemma {:induction false} WithoutSameMembers<T>(s: seq<T>, a: seq<T>, b: seq<T>)
    requires forall x :: x in a <==> x in b
    ensures Without(s, a) == Without(s, b)
  {
    if s != [] {
      WithoutSameMembers(s[..|s| - 1], a, b);
    }
  }

  /** The final drop of duplicates sees through the per-file drops: what
      concatenation then `drop_duplicates` gives depends only on the tables
      with their duplicates dropped. */
  lemma DedupConcatDedup<T>(x: seq<T>, y: seq<T>)
    ensures Dedup(Dedup(x) + Dedup(y)) == Dedup(x + y)
  {
    DedupAppend(Dedup(x), Dedup(y));
    DedupAppend(x, y);
    DedupIdempotent(x);
    forall v
      ensures v in Dedup(x) <==> v in x
    {
      DedupMembers(x, v);
    }
    WithoutSameMembers(Dedup(y), Dedup(x), x);
    WithoutDedup(y, x);
    DedupIdempotent(Without(y, x));
  }

  lemma TagAllMember(rows: seq<Row>, loc: Location, y: Row)
    ensures y in TagAll(rows, loc) <==> exists x :: x in rows && y == Tag(x, loc)
  {
    if y in TagAll(rows, loc) {
      var i :| 0 <= i < |rows| && TagAll(rows, loc)[i] == y;
      assert rows[i] in rows;
    }
  }

  lemma TagAllAppend(a: seq<Row>, b: seq<Row>, loc: Location)
    ensures TagAll(a + b, loc) == TagAll(a, loc) + TagAll(b, loc)
  {
    var l, r := TagAll(a + b, loc), TagAll(a, loc) + TagAll(b, loc);
    assert |l| == |r|;
    forall i | 0 <= i < |l|
      ensures l[i] == r[i]
    {
      if i < |a| {
        assert (a + b)[i] == a[i];
      } else {
        assert (a + b)[i] == b[i - |a|];
      }
    }
  }

  /** Tagging after the per-file drop of duplicates, then dropping again,
      is the same as tagging the raw rows and dropping once. */
  lemma {:induction false} DedupTagAll(s: seq<Row>, loc: Location)
    ensures Dedup(TagAll(Dedup(s), loc)) == Dedup(TagAll(s, loc))
  {
    if s != [] {
      var front := s[..|s| - 1];
      var z := s[|s| - 1];
      var tz := Tag(z, loc);
      assert s == front + [z];
      DedupTagAll(front, loc);
      var ts := TagAll(front, loc);
      assert TagAll([z], loc) == [tz];
      TagAllAppend(front, [z], loc);
      DedupSnoc(ts, tz);
      var d := Dedup(front);
      var td := TagAll(d, loc);
      DedupSnoc(front, z);
      assert tz in td <==> tz in ts by {
        TagAllMember(front, loc, tz);
        TagAllMember(d, loc, tz);
        if tz in ts {
          var x :| x in front && tz == Tag(x, loc);
          DedupMembers(front, x);
        }
        if tz in td {
          var x :| x in d && tz == Tag(x, loc);
          DedupMembers(front, x);
        }
      }
      if z in front {
        assert tz in ts by {
          TagAllMember(front, loc, tz);
        }
      } else {
        TagAllAppend(d, [z], loc);
        DedupSnoc(td, tz);
      }
    }
  }

  // ----- the merge (lines 20-35) -----

  /** `combined_df` after the loop: each file's rows with their duplicates
      dropped and tagged, in file order; or the first path that has no
      State and City. */
  function Combined(paths: seq<string>, read: string -> seq<Row>): Result<seq<Row>, MergeError>
  {
    if paths == [] then Success([])
    else
      var last := paths[|paths| - 1];
      match Combined(paths[..|paths| - 1], read)
      case Failure(e) => Failure(e)
      case Success(rows) =>
        match LocationOf(last)
        case Failure(e) => Failure(e)
        case Success(loc) => Success(rows + TagAll(Dedup(read(last)), loc))
  }

  /** The table line 35 writes. */
  function Merged(paths: seq<string>, read: string -> seq<Row>): (r: Result<seq<Row>, MergeError>)
    ensures r.Failure? <==> Combined(paths, read).Failure?
    ensures r.Success? ==> Distinct(r.value) && |r.value| <= |Combined(paths, read).value|
  {
    match Combined(paths, read)
    case Failure(e) => Failure(e)
    case Success(rows) => DedupDistinct(rows); Success(Dedup(rows))
  }

  /** The reference: every file's raw rows tagged and concatenated, without
      the per-file drop of duplicates. */
  function Tagged(paths: seq<string>, read: string -> seq<Row>): Result<seq<Row>, MergeError>
  {
    if paths == [] then Success([])
    else
      var last := paths[|paths| - 1];
      match Tagged(paths[..|paths| - 1], read)
      case Failure(e) => Failure(e)
      case Success(rows) =>
        match LocationOf(last)
        case Failure(e) => Failure(e)
        case Success(loc) => Success(rows + TagAll(read(last), loc))
  }

  /** How many rows the files hold in all. */
  function TotalRows(paths: seq<string>, read: string -> seq<Row>): nat
  {
    if paths == [] then 0 else TotalRows(paths[..|paths| - 1], read) + |read(paths[|paths| - 1])|
  }

  /** One more file in the loop: the accumulated table so far, extended by
      that file's tagged rows, or the file's error. */
  lemma CombinedStep(paths: seq<string>, read: string -> seq<Row>, i: nat, rows: seq<Row>)
    requires i < |paths| && Combined(paths[..i], read) == Success(rows)
    ensures Combined(paths[..i + 1], read) ==
      match LocationOf(paths[i])
      case Failure(e) => Failure(e)
      case Success(loc) => Success(rows + TagAll(Dedup(read(paths[i])), loc))
  {
    assert paths[..i + 1][..i] == paths[..i];
    assert paths[..i + 1][i] == paths[i];
  }

  /** Once a prefix of the files fails, the whole loop fails the same way. */
  lemma {:induction false} CombinedPrefixFailure(paths: seq<string>, read: string -> seq<Row>, i: nat)
    requires i <= |paths|
    requires Combined(paths[..i], read).Failure?
    ensures Combined(paths, read) == Combined(paths[..i], read)
    decreases |paths|
  {
    if i == |paths| {
      assert paths[..i] == paths;
    } else {
      var front := paths[..|paths| - 1];
      assert front[..i] == paths[..i];
      CombinedPrefixFailure(front, read, i);
    }
  }

  /** What line 35 writes: the merged table and the path it goes to. */
  datatype Written = Written(path: string, rows: seq<Row>)

  /** `main()` of `merge_data.py`: find the spreadsheets, fold them into
      `combined_df` one by one, and write the result; nothing is written
      when a path has no State and City. */
  method MergeOutputs(walk: seq<WalkEntry>, read: string -> seq<Row>, today: string)
    returns (r: Result<Written, MergeError>)
    ensures match Merged(FoundFiles(walk, ".xlsx"), read)
      case Failure(e) => r == Failure(e)
      case Success(rows) => r == Success(Written(CombinedPath(today), rows))
  {
    var excelFiles := FindFiles(walk, ".xlsx");
    var combinedDf: seq<Row> := [];
    for i := 0 to |excelFiles|
      invariant Combined(excelFiles[..i], read) == Success(combinedDf)
    {
      var filepath := excelFiles[i];
      CombinedStep(excelFiles, read, i, combinedDf);
      var parts := SplitPath(filepath);
      if |parts| < 3 {
        CombinedPrefixFailure(excelFiles, read, i + 1);
        return Failure(IndexError(filepath));
      }
      LocationOfPieces(filepath, parts);
      var state, city := Replace(parts[1], '_', ' '), Replace(parts[2], '_', ' ');
      var raw := read(filepath);
      var df := raw;
      df := Dedup(df);
      df := TagAll(df, Location(state, city));
      combinedDf := combinedDf + df;
    }
    assert excelFiles[..|excelFiles|] == excelFiles;
    combinedDf := Dedup(combinedDf);
    r := Success(Written("output/combined_data_" + today + ".xlsx", combinedDf));
  }

  /** A loop that runs to its end met a State and City in every path. */
  lemma {:induction false} CombinedSuccessAll(paths: seq<string>, read: string -> seq<Row>)
    requires Combined(paths, read).Success?
    ensures forall j :: 0 <= j < |paths| ==> LocationOf(paths[j]).Success?
  {
    if paths != [] {
      var n := |paths| - 1;
      var front := paths[..n];
      CombinedSuccessAll(front, read);
      assert forall j :: 0 <= j < n ==> paths[j] == front[j];
    }
  }

  /** A loop that stops names the first path without a State and City. */
  lemma {:induction false} CombinedFailureFirst(paths: seq<string>, read: string -> seq<Row>)
    requires Combined(paths, read).Failure?
    ensures exists i ::
      && 0 <= i < |paths| && Combined(paths, read).error == IndexError(paths[i])
      && LocationOf(paths[i]).Failure?
      && forall j :: 0 <= j < i ==> LocationOf(paths[j]).Success?
  {
    var n := |paths| - 1;
    var front := paths[..n];
    if Combined(front, read).Failure? {
      CombinedFailureFirst(front, read);
      var i :| 0 <= i < |front| && Combined(front, read).error == IndexError(front[i])
        && LocationOf(front[i]).Failure? && forall j :: 0 <= j < i ==> LocationOf(front[j]).Success?;
      assert forall j :: 0 <= j < n ==> paths[j] == front[j];
    } else {
      CombinedSuccessAll(front, read);
      assert forall j :: 0 <= j < n ==> paths[j] == front[j];
      assert Combined(paths, read).error == IndexError(paths[n]);
    }
  }

  /** The merge fails exactly when some found path has no State and City, and
      then with the first such path. */
  lemma CombinedFailsIff(paths: seq<string>, read: string -> seq<Row>)
    ensures Combined(paths, read).Failure? <==> exists i :: 0 <= i < |paths| && LocationOf(paths[i]).Failure?
    ensures Combined(paths, read).Failure? ==>
      exists i :: 0 <= i < |paths| && Combined(paths, read).error == IndexError(paths[i])
        && LocationOf(paths[i]).Failure?
        && forall j :: 0 <= j < i ==> LocationOf(paths[j]).Success?
  {
    if Combined(paths, read).Failure? {
      CombinedFailureFirst(paths, read);
    } else {
      CombinedSuccessAll(paths, read);
    }
  }

  /** Dropping duplicates per file changes nothing in the written table: it
      is the tagged raw rows of every file, concatenated, with duplicates
      dropped once. */
  lemma {:induction false} PerFileDedupRedundant(paths: seq<string>, read: string -> seq<Row>)
    ensures Combined(paths, read).Success? <==> Tagged(paths, read).Success?
    ensures Combined(paths, read).Failure? ==> Combined(paths, read) == Tagged(paths, read)
    ensures Combined(paths, read).Success? ==> Dedup(Combined(paths, read).value) == Dedup(Tagged(paths, read).value)
  {
    if paths != [] {
      var front := paths[..|paths| - 1];
      var last := paths[|paths| - 1];
      PerFileDedupRedundant(front, read);
      if Combined(front, read).Success? && LocationOf(last).Success? {
        var a, b := Combined(front, read).value, Tagged(front, read).value;
        var loc := LocationOf(last).value;
        var x, y := TagAll(Dedup(read(last)), loc), TagAll(read(last), loc);
        DedupConcatDedup(a, x);
        DedupConcatDedup(b, y);
        DedupTagAll(read(last), loc);
      }
    }
  }

  lemma {:induction false} TaggedLength(paths: seq<string>, read: string -> seq<Row>)
    requires Tagged(paths, read).Success?
    ensures |Tagged(paths, read).value| == TotalRows(paths, read)
  {
    if paths != [] {
      TaggedLength(paths[..|paths| - 1], read);
    }
  }

  lemma {:induction false} TaggedSound(paths: seq<string>, read: string -> seq<Row>, row: Row)
    requires Tagged(paths, read).Success?
    requires row in Tagged(paths, read).value
    ensures exists i, j ::
              && 0 <= i < |paths| && 0 <= j < |read(paths[i])| && LocationOf(paths[i]).Success?
              && row == Tag(read(paths[i])[j], LocationOf(paths[i]).value)
  {
    var n := |paths| - 1;
    var front := paths[..n];
    var loc := LocationOf(paths[n]).value;
    var rows := read(paths[n]);
    if row in Tagged(front, read).value {
      TaggedSound(front, read, row);
      var i, j :| && 0 <= i < |front| && 0 <= j < |read(front[i])| && LocationOf(front[i]).Success?
                  && row == Tag(read(front[i])[j], LocationOf(front[i]).value);
      assert paths[i] == front[i];
    } else {
      assert row in TagAll(rows, loc);
      var j :| 0 <= j < |rows| && TagAll(rows, loc)[j] == row;
      assert row == Tag(read(paths[n])[j], LocationOf(paths[n]).value);
    }
  }

  /** One more file: the reference succeeds when the files before it and its
      path do, and then appends its tagged rows. */
  lemma TaggedSnoc(paths: seq<string>, read: string -> seq<Row>)
    requires paths != []
    ensures var front, last := paths[..|paths| - 1], paths[|paths| - 1];
      && (Tagged(paths, read).Success? <==> Tagged(front, read).Success? && LocationOf(last).Success?)
      && (Tagged(paths, read).Success? ==>
            Tagged(paths, read).value == Tagged(front, read).value + TagAll(read(last), LocationOf(last).value))
  {
  }

  lemma {:induction false} TaggedComplete(paths: seq<string>, read: string -> seq<Row>, i: nat, j: nat)
    requires Tagged(paths, read).Success?
    requires i < |paths| && j < |read(paths[i])|
    ensures LocationOf(paths[i]).Success?
    ensures Tag(read(paths[i])[j], LocationOf(paths[i]).value) in Tagged(paths, read).value
  {
    var n := |paths| - 1;
    var front := paths[..n];
    TaggedSnoc(paths, read);
    if i < n {
      assert paths[i] == front[i];
      TaggedComplete(front, read, i, j);
    } else {
      var tagged := TagAll(read(paths[n]), LocationOf(paths[n]).value);
      assert tagged[j] in tagged;
      assert Tagged(paths, read).value == Tagged(front, read).value + tagged;
    }
  }

  /** The reference's rows: every row of every file, tagged with that file's
      State and City, and nothing else. */
  lemma TaggedRows(paths: seq<string>, read: string -> seq<Row>, row: Row)
    requires Tagged(paths, read).Success?
    ensures |Tagged(paths, read).value| == TotalRows(paths, read)
    ensures row in Tagged(paths, read).value <==>
      exists i, j ::
        && 0 <= i < |paths| && 0 <= j < |read(paths[i])| && LocationOf(paths[i]).Success?
        && row == Tag(read(paths[i])[j], LocationOf(paths[i]).value)
  {
    TaggedLength(paths, read);
    if row in Tagged(paths, read).value {
      TaggedSound(paths, read, row);
    } else {
      forall i, j | 0 <= i < |paths| && 0 <= j < |read(paths[i])| && LocationOf(paths[i]).Success?
        ensures row != Tag(read(paths[i])[j], LocationOf(paths[i]).value)
      {
        TaggedComplete(paths, read, i, j);
      }
    }
  }

  /** What the merge writes: every row of every found file, tagged with that
      file's State and City, each distinct row once, and no more rows than
      the files hold. */
  lemma MergedRows(paths: seq<string>, read: string -> seq<Row>, row: Row)
    requires Merged(paths, read).Success?
    ensures Distinct(Merged(paths, read).value)
    ensures |Merged(paths, read).value| <= TotalRows(paths, read)
    ensures row in Merged(paths, read).value <==>
      exists i, j :: 0 <= i < |paths| && 0 <= j < |read(paths[i])|
        && LocationOf(paths[i]).Success? && row == Tag(read(paths[i])[j], LocationOf(paths[i]).value)
  {
    PerFileDedupRedundant(paths, read);
    TaggedRows(paths, read, row);
    var c, t := Combined(paths, read).value, Tagged(paths, read).value;
    DedupMembers(c, row);
    DedupMembers(t, row);
    DedupDistinct(c);
    assert |Dedup(c)| == |Dedup(t)|;
  }

  /** Run over an `output/` tree holding a session's flat spreadsheet, the
      merge writes nothing: it stops with an `IndexError`. */
  lemma MergeStopsOnSessionOutput(walk: seq<WalkEntry>, read: string -> seq<Row>, search: string, today: string, i: nat, j: nat)
    requires NoSeparator(search) && NoSeparator(today)
    requires i < |walk| && j < |walk[i].files|
    requires walk[i].root == "output/" && walk[i].files[j] == Scrape.OutputName(search, today) + ".xlsx"
    ensures Merged(FoundFiles(walk, ".xlsx"), read).Failure?
  {
    var f := walk[i].files[j];
    assert f[|f| - 5..] == ".xlsx";
    var p := PathJoin(walk[i].root, f);
    FoundFilesIff(walk, ".xlsx", p);
    SessionOutputNotLocated(search, today);
    var paths := FoundFiles(walk, ".xlsx");
    var k :| 0 <= k < |paths| && paths[k] == p;
    CombinedFailsIff(paths, read);
  }
}
